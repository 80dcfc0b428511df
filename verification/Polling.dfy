/** apps/web/lib/use-polling.ts: the effect instances of usePolling, the React state they write
    and the filter through which the component sees it. */
module Polling {
  import opened Wrappers

  // ------------------------------------------------------ one effect instance

  /** The local variables of one run of the effect. `timer` is the handle last returned by
      setTimeout and `armed` the handles whose timeout has neither fired nor been cleared, so
      that two timeouts at once would show; `issued` numbers the handles. `call` is the request
      in flight while `inFlight` holds. */
  datatype Instance = Instance(fetcher: nat, cancelled: bool, inFlight: bool, hasFetched: bool,
                               timer: Option<nat>, armed: set<nat>, issued: nat, call: nat)

  function Created(fetcher: nat): Instance {
    Instance(fetcher, false, false, false, None, {}, 0, 0)
  }

  /** `schedule()`; it does not clear a timeout that is still armed. */
  function Schedule(i: Instance): Instance {
    if i.cancelled then i
    else i.(timer := Some(i.issued), armed := i.armed + {i.issued}, issued := i.issued + 1)
  }

  /** `clearTimeout(timer)`: ends the timeout behind the last handle, and no other. */
  function ClearTimer(i: Instance): Instance {
    if i.timer.None? then i else i.(armed := i.armed - {i.timer.value})
  }

  /** Whether `tick` makes a request. */
  predicate Fetches(i: Instance, hidden: bool) {
    !i.cancelled && !i.inFlight && !(hidden && i.hasFetched)
  }

  /** `tick()` up to its await; a request made gets number `call`. */
  function Ticked(i: Instance, hidden: bool, call: nat): Instance {
    if i.cancelled || i.inFlight then i
    else if hidden && i.hasFetched then Schedule(i)
    else i.(inFlight := true, hasFetched := true, call := call)
  }

  /** The `finally` block of `tick`. */
  function Finished(i: Instance): Instance {
    Schedule(i.(inFlight := false))
  }

  /** The timeout behind a handle fires. */
  function TimerFired(i: Instance, handle: nat, hidden: bool, call: nat): Instance {
    Ticked(i.(armed := i.armed - {handle}), hidden, call)
  }

  /** `onVisibilityChange()`. */
  function VisibilityChanged(i: Instance, hidden: bool, call: nat): Instance {
    if !hidden && !i.inFlight then Ticked(ClearTimer(i), hidden, call) else i
  }

  function CleanedUp(i: Instance): Instance {
    ClearTimer(i.(cancelled := true))
  }

  /** Either a request is in flight and no timeout is armed, or none is and one timeout is
      armed, the one whose handle is kept. */
  predicate OneThingPending(i: Instance) {
    if i.inFlight then i.armed == {} else i.timer.Some? && i.armed == {i.timer.value}
  }

  /** The closure the effect creates, updated in place. */
  class EffectClosure {
    const fetcher: nat
    var cancelled: bool
    var inFlight: bool
    var hasFetched: bool
    var timer: Option<nat>
    var armed: set<nat>
    var issued: nat
    var call: nat

    /** The effect up to and including its first `tick()`, which always makes a request. */
    constructor (fetcher: nat, hidden: bool, nextCall: nat)
      ensures Valid() && !cancelled && inFlight && call == nextCall
      ensures Value() == Ticked(Created(fetcher), hidden, nextCall)
    {
      this.fetcher := fetcher;
      cancelled, inFlight, hasFetched, call := false, false, false, 0;
      timer, armed, issued := None, {}, 0;
      new;
      var _ := Tick(hidden, nextCall);
    }

    function Value(): Instance
      reads this
    {
      Instance(fetcher, cancelled, inFlight, hasFetched, timer, armed, issued, call)
    }

    /** While the effect lives, exactly one thing is pending; after cleanup nothing is armed. */
    ghost predicate Valid()
      reads this
    {
      if cancelled then armed == {} else hasFetched && OneThingPending(Value())
    }

    method DoSchedule()
      modifies this
      ensures Value() == Schedule(old(Value()))
    {
      if !cancelled {
        timer, armed, issued := Some(issued), armed + {issued}, issued + 1;
      }
    }

    method ClearTimeout()
      modifies this
      ensures Value() == ClearTimer(old(Value()))
    {
      if timer.Some? {
        armed := armed - {timer.value};
      }
    }

    method Tick(hidden: bool, nextCall: nat) returns (fetches: bool)
      modifies this
      ensures Value() == Ticked(old(Value()), hidden, nextCall)
      ensures fetches == Fetches(old(Value()), hidden)
    {
      if cancelled || inFlight {
        return false;
      }
      if hidden && hasFetched {
        DoSchedule();
        return false;
      }
      inFlight, hasFetched, call := true, true, nextCall;
      fetches := true;
    }

    /** The request settles: a live effect then waits for exactly one timeout, a cleaned-up one
        for nothing. */
    method Finish()
      requires Valid() && inFlight
      modifies this
      ensures Valid() && !inFlight && cancelled == old(cancelled)
      ensures |armed| == if cancelled then 0 else 1
      ensures Value() == Finished(old(Value()))
    {
      inFlight := false;
      DoSchedule();
    }

    /** An armed timeout fires: in a visible tab that makes a request, in a hidden one it arms the
        next timeout. */
    method FireTimer(handle: nat, hidden: bool, nextCall: nat) returns (fetches: bool)
      requires Valid() && handle in armed
      modifies this
      ensures Valid() && !cancelled && fetches == inFlight == !hidden
      ensures fetches ==> call == nextCall
      ensures Value() == TimerFired(old(Value()), handle, hidden, nextCall)
    {
      armed := armed - {handle};
      fetches := Tick(hidden, nextCall);
    }

    /** The visibility listener, which cleanup removes: a tab that becomes visible makes a request
        at once unless one is in flight. */
    method OnVisibilityChange(hidden: bool, nextCall: nat) returns (fetches: bool)
      requires Valid() && !cancelled
      modifies this
      ensures Valid() && !cancelled && fetches == (!hidden && !old(inFlight))
      ensures inFlight == (old(inFlight) || fetches) && (fetches ==> call == nextCall)
      ensures Value() == VisibilityChanged(old(Value()), hidden, nextCall)
    {
      fetches := false;
      if !hidden && !inFlight {
        ClearTimeout();
        fetches := Tick(hidden, nextCall);
      }
    }

    /** Nothing stays armed; a request in flight goes on. */
    method Cleanup()
      requires Valid()
      modifies this
      ensures Valid() && cancelled && armed == {} && inFlight == old(inFlight)
      ensures Value() == CleanedUp(old(Value()))
    {
      cancelled := true;
      ClearTimeout();
    }
  }

  // --------------------------------------------------- the life of one effect

  datatype Step = Fires(handle: nat, hidden: bool) | Settles | Visibility(hidden: bool) | CleansUp

  datatype Act = Requested | Settled | Cleaned

  /** A request has been made and has not settled. */
  predicate Open(acts: seq<Act>) {
    acts != [] && (acts[|acts| - 1].Requested? || (acts[|acts| - 1].Cleaned? && Open(acts[..|acts| - 1])))
  }

  /** Requests never overlap, each settles once, and none is made after cleanup. */
  predicate Orderly(acts: seq<Act>) {
    acts != [] ==>
      var init := acts[..|acts| - 1];
      && Orderly(init)
      && match acts[|acts| - 1]
         case Requested => !Open(init) && Cleaned !in init
         case Settled => Open(init)
         case Cleaned => Cleaned !in init
  }

  lemma OrderlyNext(acts: seq<Act>, act: Act)
    requires Orderly(acts)
    requires match act
             case Requested => !Open(acts) && Cleaned !in acts
             case Settled => Open(acts)
             case Cleaned => Cleaned !in acts
    ensures Orderly(acts + [act])
    ensures Open(acts + [act]) == (act.Requested? || (act.Cleaned? && Open(acts)))
    ensures Cleaned in acts + [act] <==> act.Cleaned? || Cleaned in acts
  {
    assert (acts + [act])[..|acts|] == acts;
  }

  /** One effect and what it has done. */
  datatype Course = Course(closure: Instance, acts: seq<Act>)

  /** The effect runs for the first time. */
  function Begin(fetcher: nat, hidden: bool): Course {
    Course(Ticked(Created(fetcher), hidden, 0), [Requested])
  }

  /** What the browser can do to the effect: a timeout fires only while it is armed, a request
      settles only while it is in flight, the listener is gone after cleanup, and cleanup comes
      once. */
  predicate CanHappen(i: Instance, step: Step) {
    match step
    case Fires(handle, _) => handle in i.armed
    case Settles => i.inFlight
    case Visibility(_) => !i.cancelled
    case CleansUp => !i.cancelled
  }

  /** One thing the browser does; what cannot happen changes nothing. */
  function Taken(c: Course, step: Step): Course {
    var i := c.closure;
    if !CanHappen(i, step) then c
    else
      match step
      case Fires(handle, hidden) =>
        Course(TimerFired(i, handle, hidden, |c.acts|),
               if Fetches(i, hidden) then c.acts + [Requested] else c.acts)
      case Settles => Course(Finished(i), c.acts + [Settled])
      case Visibility(hidden) =>
        Course(VisibilityChanged(i, hidden, |c.acts|),
               if !hidden && Fetches(i, hidden) then c.acts + [Requested] else c.acts)
      case CleansUp => Course(CleanedUp(i), c.acts + [Cleaned])
  }

  function CourseOf(fetcher: nat, hidden: bool, steps: seq<Step>): Course {
    if steps == [] then Begin(fetcher, hidden)
    else Taken(CourseOf(fetcher, hidden, steps[..|steps| - 1]), steps[|steps| - 1])
  }

  ghost predicate CourseInv(c: Course) {
    && c.acts != [] && c.acts[0] == Requested && Orderly(c.acts)
    && c.closure.inFlight == Open(c.acts) && (c.closure.cancelled <==> Cleaned in c.acts)
    && (if c.closure.cancelled then c.closure.armed == {}
        else c.closure.hasFetched && OneThingPending(c.closure))
  }

  lemma TakenKeeps(c: Course, step: Step)
    requires CourseInv(c)
    ensures CourseInv(Taken(c, step))
  {
    var c' := Taken(c, step);
    if c'.acts != c.acts {
      OrderlyNext(c.acts, c'.acts[|c.acts|]);
    }
  }

  /** One effect, whatever the browser does and in whatever order: requests never overlap, each
      settles once and none is made after cleanup; until cleanup there is always either a request
      in flight or exactly one timeout armed, so polling neither dies nor doubles; after it no
      timeout is armed. */
  lemma {:induction false} CourseOrderly(fetcher: nat, hidden: bool, steps: seq<Step>)
    ensures CourseInv(CourseOf(fetcher, hidden, steps))
  {
    if steps == [] {
      assert [Requested][..0] == [];
    } else {
      CourseOrderly(fetcher, hidden, steps[..|steps| - 1]);
      TakenKeeps(CourseOf(fetcher, hidden, steps[..|steps| - 1]), steps[|steps| - 1]);
    }
  }

  /** The closure driven through those steps does exactly that. */
  method Life(fetcher: nat, hidden: bool, steps: seq<Step>) returns (acts: seq<Act>, waiting: nat)
    ensures acts == CourseOf(fetcher, hidden, steps).acts
    ensures waiting == |CourseOf(fetcher, hidden, steps).closure.armed|
    ensures acts != [] && acts[0] == Requested && Orderly(acts)
    ensures waiting == if Cleaned in acts || Open(acts) then 0 else 1
  {
    var closure := new EffectClosure(fetcher, hidden, 0);
    acts := [Requested];
    for n := 0 to |steps|
      invariant closure.Valid()
      invariant Course(closure.Value(), acts) == CourseOf(fetcher, hidden, steps[..n])
    {
      assert steps[..n + 1][..n] == steps[..n];
      match steps[n] {
        case Fires(handle, hidden) =>
          if handle in closure.armed {
            var fetches := closure.FireTimer(handle, hidden, |acts|);
            if fetches {
              acts := acts + [Requested];
            }
          }
        case Settles =>
          if closure.inFlight {
            closure.Finish();
            acts := acts + [Settled];
          }
        case Visibility(hidden) =>
          if !closure.cancelled {
            var fetches := closure.OnVisibilityChange(hidden, |acts|);
            if fetches {
              acts := acts + [Requested];
            }
          }
        case CleansUp =>
          if !closure.cancelled {
            closure.Cleanup();
            acts := acts + [Cleaned];
          }
      }
    }
    assert steps[..|steps|] == steps;
    CourseOrderly(fetcher, hidden, steps);
    waiting := |closure.armed|;
  }

  // ----------------------------------------------------------------- the hook

  datatype CallStatus = Pending | Returned | Threw

  /** A call of a fetcher, numbered in the order the calls were made. */
  datatype Call = Call(fetcher: nat, instance: nat, status: CallStatus)

  /** The state snapshot; data is identified by the call that returned it. */
  datatype Snapshot = Snapshot(data: Option<nat>, error: Option<string>, loading: bool, fetcher: nat)

  datatype Hook = Hook(
    fetcher: nat,
    enabled: bool,
    instances: seq<Instance>,
    live: Option<nat>,
    calls: seq<Call>,
    state: Snapshot
  )

  /** First render, before any effect has run. */
  function Mounted(fetcher: nat, enabled: bool): Hook {
    Hook(fetcher, enabled, [], None, [], Snapshot(None, None, true, fetcher))
  }

  datatype Event =
    | Render(fetcher: nat, enabled: bool)
    | RunEffect(hidden: bool)
    | TimerFires(k: nat, handle: nat, hidden: bool)
    | Resolves(k: nat)
    | Rejects(k: nat, message: string)
    | VisibilityChange(hidden: bool)
    | Unmount

  /** What the event loop can do next. */
  predicate Possible(h: Hook, e: Event) {
    match e
    case TimerFires(k, handle, _) => k < |h.instances| && handle in h.instances[k].armed
    case Resolves(k) => k < |h.instances| && h.instances[k].inFlight && h.instances[k].call < |h.calls|
    case Rejects(k, _) => k < |h.instances| && h.instances[k].inFlight && h.instances[k].call < |h.calls|
    case _ => true
  }

  predicate LiveInRange(h: Hook) {
    h.live.Some? ==> h.live.value < |h.instances|
  }

  function CleanLive(h: Hook): Hook
    requires LiveInRange(h)
  {
    if h.live.None? then h
    else h.(instances := h.instances[h.live.value := CleanedUp(h.instances[h.live.value])], live := None)
  }

  /** Replaces instance k, and records the request it makes, if any. */
  function Put(h: Hook, k: nat, i: Instance, fetches: bool): Hook
    requires k < |h.instances|
  {
    h.(instances := h.instances[k := i],
       calls := if fetches then h.calls + [Call(i.fetcher, k, Pending)] else h.calls)
  }

  function Next(h: Hook, e: Event): Hook
    requires LiveInRange(h) && Possible(h, e)
  {
    match e
    case Render(fetcher, enabled) => h.(fetcher := fetcher, enabled := enabled)
    case RunEffect(hidden) =>
      var c := CleanLive(h);
      if !h.enabled then c.(state := Snapshot(None, None, true, h.fetcher))
      else
        var k, created := |c.instances|, Created(h.fetcher);
        var started := c.(instances := c.instances + [created], live := Some(k));
        Put(started, k, Ticked(created, hidden, |h.calls|), Fetches(created, hidden))
    case TimerFires(k, handle, hidden) =>
      Put(h, k, TimerFired(h.instances[k], handle, hidden, |h.calls|), Fetches(h.instances[k], hidden))
    case Resolves(k) =>
      var i := h.instances[k];
      h.(calls := h.calls[i.call := h.calls[i.call].(status := Returned)],
         state := if i.cancelled then h.state else Snapshot(Some(i.call), None, false, i.fetcher),
         instances := h.instances[k := Finished(i)])
    case Rejects(k, message) =>
      var i := h.instances[k];
      h.(calls := h.calls[i.call := h.calls[i.call].(status := Threw)],
         state := if i.cancelled then h.state
                  else Snapshot(if h.state.fetcher == i.fetcher then h.state.data else None, Some(message), false, i.fetcher),
         instances := h.instances[k := Finished(i)])
    case VisibilityChange(hidden) =>
      if h.live.None? then h
      else
        var k := h.live.value;
        Put(h, k, VisibilityChanged(h.instances[k], hidden, |h.calls|), !hidden && Fetches(h.instances[k], hidden))
    case Unmount => CleanLive(h)
  }

  /** What the component is given. */
  function Visible(h: Hook): Snapshot {
    if h.enabled && h.state.fetcher == h.fetcher then h.state else Snapshot(None, None, true, h.fetcher)
  }

  // ------------------------------------------------------------- the invariant

  /** A live instance has exactly one thing pending; any other instance is cancelled and has no
      timeout armed. */
  ghost predicate InstanceInv(h: Hook, k: nat)
    requires k < |h.instances|
  {
    var i := h.instances[k];
    && (if h.live == Some(k) then !i.cancelled && i.hasFetched && OneThingPending(i)
        else i.cancelled && i.armed == {})
    && (i.inFlight ==> i.call < |h.calls| && h.calls[i.call] == Call(i.fetcher, k, Pending))
  }

  /** A pending call is the one its instance is waiting for, so an instance never has two. */
  ghost predicate CallInv(h: Hook, c: nat)
    requires c < |h.calls|
  {
    h.calls[c].status.Pending? ==>
      && h.calls[c].instance < |h.instances|
      && h.instances[h.calls[c].instance].inFlight && h.instances[h.calls[c].instance].call == c
  }

  /** Stored data was returned by a call of the fetcher stored with it, and the live instance
      waits for a later call. */
  ghost predicate StateInv(h: Hook) {
    h.state.data.Some? ==>
      var c := h.state.data.value;
      && c < |h.calls| && h.calls[c].status == Returned && h.calls[c].fetcher == h.state.fetcher
      && (h.live.Some? && h.live.value < |h.instances| && h.instances[h.live.value].inFlight ==>
            c < h.instances[h.live.value].call)
  }

  ghost predicate Inv(h: Hook) {
    && LiveInRange(h)
    && (forall k: nat :: k < |h.instances| ==> InstanceInv(h, k))
    && (forall c: nat :: c < |h.calls| ==> CallInv(h, c))
    && StateInv(h)
  }

  lemma CleanLiveKeeps(h: Hook)
    requires Inv(h)
    ensures Inv(CleanLive(h)) && CleanLive(h).live == None
    ensures CleanLive(h).calls == h.calls && CleanLive(h).state == h.state
  {
    var h' := CleanLive(h);
    forall k: nat | k < |h'.instances|
      ensures InstanceInv(h', k)
    {
      assert InstanceInv(h, k);
    }
    forall c: nat | c < |h'.calls|
      ensures CallInv(h', c)
    {
      assert CallInv(h, c);
    }
  }

  /** Replacing an idle live instance by one that ticked keeps the invariant. */
  lemma PutKeeps(h: Hook, k: nat, i: Instance, fetches: bool)
    requires LiveInRange(h) && StateInv(h) && h.live == Some(k)
    requires forall m: nat :: m < |h.instances| && m != k ==> InstanceInv(h, m)
    requires forall c: nat :: c < |h.calls| ==> CallInv(h, c)
    requires !h.instances[k].inFlight && i.fetcher == h.instances[k].fetcher
    requires !i.cancelled && i.hasFetched && i.inFlight == fetches && OneThingPending(i)
    requires fetches ==> i.call == |h.calls|
    ensures Inv(Put(h, k, i, fetches))
  {
    var h' := Put(h, k, i, fetches);
    forall m: nat | m < |h'.instances|
      ensures InstanceInv(h', m)
    {
      assert m != k ==> InstanceInv(h, m);
    }
    forall c: nat | c < |h'.calls|
      ensures CallInv(h', c)
    {
      if c < |h.calls| {
        assert CallInv(h, c);
      }
    }
  }

  lemma SettleKeeps(h: Hook, k: nat, status: CallStatus, state: Snapshot)
    requires Inv(h) && k < |h.instances| && h.instances[k].inFlight && !status.Pending?
    requires h.instances[k].cancelled ==> state == h.state
    requires !h.instances[k].cancelled && state.data.Some? ==>
               && state.fetcher == h.instances[k].fetcher
               && (if state.data.value == h.instances[k].call then status == Returned
                   else state.data == h.state.data && h.state.fetcher == state.fetcher)
    ensures var i := h.instances[k];
            i.call < |h.calls|
            && Inv(h.(calls := h.calls[i.call := h.calls[i.call].(status := status)], state := state,
                      instances := h.instances[k := Finished(i)]))
  {
    var i := h.instances[k];
    assert InstanceInv(h, k);
    var h' := h.(calls := h.calls[i.call := h.calls[i.call].(status := status)], state := state,
                 instances := h.instances[k := Finished(i)]);
    forall m: nat | m < |h'.instances|
      ensures InstanceInv(h', m)
    {
      assert InstanceInv(h, m);
    }
    forall c: nat | c < |h'.calls|
      ensures CallInv(h', c)
    {
      assert CallInv(h, c);
    }
  }

  lemma NextKeeps(h: Hook, e: Event)
    requires Inv(h) && Possible(h, e)
    ensures Inv(Next(h, e))
  {
    match e {
      case Render(_, _) =>
        var h' := Next(h, e);
        assert forall k: nat :: k < |h'.instances| ==> InstanceInv(h, k) ==> InstanceInv(h', k);
        assert forall c: nat :: c < |h'.calls| ==> CallInv(h, c) ==> CallInv(h', c);
      case RunEffect(hidden) =>
        CleanLiveKeeps(h);
        StartKeeps(h, hidden);
      case TimerFires(k, handle, hidden) =>
        assert InstanceInv(h, k);
        PutKeeps(h, k, TimerFired(h.instances[k], handle, hidden, |h.calls|), Fetches(h.instances[k], hidden));
      case Resolves(k) =>
        SettleKeeps(h, k, Returned, Next(h, e).state);
      case Rejects(k, _) =>
        assert InstanceInv(h, k);
        SettleKeeps(h, k, Threw, Next(h, e).state);
      case VisibilityChange(hidden) =>
        if h.live.Some? && !hidden && !h.instances[h.live.value].inFlight {
          var k := h.live.value;
          assert InstanceInv(h, k);
          PutKeeps(h, k, VisibilityChanged(h.instances[k], hidden, |h.calls|), true);
        } else if h.live.Some? {
          var k := h.live.value;
          assert h.instances[k := h.instances[k]] == h.instances;
          assert Next(h, e) == h;
        }
      case Unmount =>
        CleanLiveKeeps(h);
    }
  }

  lemma StartKeeps(h: Hook, hidden: bool)
    requires Inv(h) && Inv(CleanLive(h)) && CleanLive(h).live == None
    ensures Inv(Next(h, RunEffect(hidden)))
  {
    var c := CleanLive(h);
    if h.enabled {
      var k, created := |c.instances|, Created(h.fetcher);
      var started := c.(instances := c.instances + [created], live := Some(k));
      forall m: nat | m < |started.instances| && m != k
        ensures InstanceInv(started, m)
      {
        assert InstanceInv(c, m);
      }
      forall n: nat | n < |started.calls|
        ensures CallInv(started, n)
      {
        assert CallInv(c, n);
      }
      PutKeeps(started, k, Ticked(created, hidden, |h.calls|), true);
    } else {
      var h' := Next(h, RunEffect(hidden));
      assert forall k: nat :: k < |h'.instances| ==> InstanceInv(c, k) ==> InstanceInv(h', k);
      assert forall n: nat :: n < |h'.calls| ==> CallInv(c, n) ==> CallInv(h', n);
    }
  }

  // --------------------------------------------------------------- whole runs

  /** h' is reached from h by some events of the browser. */
  ghost predicate Reaches(h: Hook, events: seq<Event>, h': Hook)
  {
    if events == [] then h' == h
    else exists mid :: Reaches(h, events[..|events| - 1], mid) && LiveInRange(mid)
                       && Possible(mid, events[|events| - 1]) && h' == Next(mid, events[|events| - 1])
  }

  lemma {:induction false} RunKeepsInv(h: Hook, events: seq<Event>, h': Hook)
    requires Inv(h) && Reaches(h, events, h')
    ensures Inv(h')
    decreases |events|
  {
    if events != [] {
      var mid :| Reaches(h, events[..|events| - 1], mid) && LiveInRange(mid)
                 && Possible(mid, events[|events| - 1]) && h' == Next(mid, events[|events| - 1]);
      RunKeepsInv(h, events[..|events| - 1], mid);
      NextKeeps(mid, events[|events| - 1]);
    }
  }

  /** No instance has two requests in flight. */
  lemma OnePendingCall(h: Hook, c: nat, d: nat)
    requires Inv(h) && c < |h.calls| && d < |h.calls|
    requires h.calls[c].status.Pending? && h.calls[d].status.Pending? && h.calls[c].instance == h.calls[d].instance
    ensures c == d
  {
    assert CallInv(h, c) && CallInv(h, d);
  }

  /** In every run from the first render: data shown is data that a call of the current fetcher
      returned; a live instance has either one request in flight or exactly one timeout armed;
      after cleanup none is armed; and no instance ever has two requests in flight. */
  lemma PollingSafety(fetcher: nat, enabled: bool, events: seq<Event>, h: Hook)
    requires Reaches(Mounted(fetcher, enabled), events, h)
    ensures var shown := Visible(h).data;
            shown.Some? ==> shown.value < |h.calls| && h.calls[shown.value].status == Returned
                            && h.calls[shown.value].fetcher == h.fetcher
    ensures forall k: nat :: k < |h.instances| ==>
              if h.live == Some(k) then !h.instances[k].cancelled && OneThingPending(h.instances[k])
              else h.instances[k].cancelled && h.instances[k].armed == {}
    ensures forall c: nat, d: nat :: c < |h.calls| && d < |h.calls| && c != d
                                     && h.calls[c].status.Pending? && h.calls[d].status.Pending?
                                     ==> h.calls[c].instance != h.calls[d].instance
  {
    RunKeepsInv(Mounted(fetcher, enabled), events, h);
    forall k: nat | k < |h.instances|
      ensures if h.live == Some(k) then !h.instances[k].cancelled && OneThingPending(h.instances[k])
              else h.instances[k].cancelled && h.instances[k].armed == {}
    {
      assert InstanceInv(h, k);
    }
    forall c: nat, d: nat | c < |h.calls| && d < |h.calls| && c != d
                            && h.calls[c].status.Pending? && h.calls[d].status.Pending?
      ensures h.calls[c].instance != h.calls[d].instance
    {
      if h.calls[c].instance == h.calls[d].instance {
        OnePendingCall(h, c, d);
      }
    }
  }

  /** A call that settles after its instance was cleaned up writes nothing. */
  lemma CancelledNeverWrites(h: Hook, e: Event)
    requires Inv(h) && Possible(h, e)
    requires match e case Resolves(k) => h.live != Some(k) case Rejects(k, _) => h.live != Some(k) case _ => false
    ensures Next(h, e).state == h.state && Visible(Next(h, e)) == Visible(h)
  {
    assert InstanceInv(h, e.k);
  }

  /** No data from before call number `d`, now or later. */
  ghost predicate NotBefore(h: Hook, d: nat) {
    && d <= |h.calls|
    && (h.state.data.Some? ==> h.state.data.value >= d)
    && (h.live.Some? && h.live.value < |h.instances| && h.instances[h.live.value].inFlight ==>
          h.instances[h.live.value].call >= d)
  }

  lemma NextNotBefore(h: Hook, e: Event, d: nat)
    requires Inv(h) && Possible(h, e) && NotBefore(h, d)
    ensures NotBefore(Next(h, e), d)
  {
    match e {
      case Resolves(k) => assert InstanceInv(h, k);
      case Rejects(k, _) => assert InstanceInv(h, k);
      case TimerFires(k, _, _) => assert InstanceInv(h, k);
      case _ =>
    }
  }

  lemma {:induction false} RunNotBefore(h: Hook, events: seq<Event>, h': Hook, d: nat)
    requires Inv(h) && NotBefore(h, d) && Reaches(h, events, h')
    ensures NotBefore(h', d)
    decreases |events|
  {
    if events != [] {
      var mid :| Reaches(h, events[..|events| - 1], mid) && LiveInRange(mid)
                 && Possible(mid, events[|events| - 1]) && h' == Next(mid, events[|events| - 1]);
      RunNotBefore(h, events[..|events| - 1], mid, d);
      RunKeepsInv(h, events[..|events| - 1], mid);
      NextNotBefore(mid, events[|events| - 1], d);
    }
  }

  /** Shown data never goes back in time: if data is shown at one moment of a run and again at a
      later one, the later data comes from the same call or one that started later. */
  lemma DataNeverGoesBack(fetcher: nat, enabled: bool, first: seq<Event>, h: Hook, more: seq<Event>, h': Hook)
    requires Reaches(Mounted(fetcher, enabled), first, h) && Reaches(h, more, h')
    requires Visible(h).data.Some? && Visible(h').data.Some?
    ensures Visible(h).data.value <= Visible(h').data.value
  {
    RunKeepsInv(Mounted(fetcher, enabled), first, h);
    RunNotBefore(h, more, h', h.state.data.value);
  }

  // ------------------------------------------------ what is shown, from the run

  /** The hook's states before, between and after the events of a run from the first render. */
  ghost predicate IsRun(fetcher: nat, enabled: bool, events: seq<Event>, states: seq<Hook>) {
    && |states| == |events| + 1 && states[0] == Mounted(fetcher, enabled)
    && forall i :: 0 <= i < |events| ==>
         LiveInRange(states[i]) && Possible(states[i], events[i]) && states[i + 1] == Next(states[i], events[i])
  }

  /** Event i settles the call that the live effect instance is waiting for. */
  ghost predicate SettlesLive(states: seq<Hook>, events: seq<Event>, i: nat)
    requires i < |events| && i < |states|
  {
    (events[i].Resolves? || events[i].Rejects?) && states[i].live == Some(events[i].k)
    && events[i].k < |states[i].instances|
  }

  ghost function CallSettled(states: seq<Hook>, events: seq<Event>, i: nat): nat
    requires i < |events| && i < |states| && SettlesLive(states, events, i)
  {
    states[i].instances[events[i].k].call
  }

  /** The fetcher that call was made of, as the list of calls has it. */
  ghost function FetcherSettled(states: seq<Hook>, events: seq<Event>, i: nat): nat
    requires i < |events| && i < |states| && SettlesLive(states, events, i)
  {
    var c := CallSettled(states, events, i);
    if c < |states[i].calls| then states[i].calls[c].fetcher else 0
  }

  /** Event i is an effect that runs while the hook is disabled: it resets the state. */
  ghost predicate Resets(states: seq<Hook>, events: seq<Event>, i: nat)
    requires i < |events| && i < |states|
  {
    events[i].RunEffect? && !states[i].enabled
  }

  /** Nothing settles or resets from event i on. */
  ghost predicate QuietFrom(states: seq<Hook>, events: seq<Event>, i: nat)
    requires i <= |events| < |states|
  {
    forall j :: i <= j < |events| ==> !SettlesLive(states, events, j) && !Resets(states, events, j)
  }

  /** Event i is the return of call c to the live instance, and from then on only calls of the same
      fetcher settle, all of them rejected, with no reset. */
  ghost predicate Supplies(states: seq<Hook>, events: seq<Event>, i: nat, c: nat)
    requires i < |events| < |states|
  {
    && SettlesLive(states, events, i) && events[i].Resolves? && CallSettled(states, events, i) == c
    && forall j :: i < j < |events| ==>
         !Resets(states, events, j)
         && (SettlesLive(states, events, j) ==>
               events[j].Rejects? && FetcherSettled(states, events, j) == FetcherSettled(states, events, i))
  }

  /** The data stored at the end of a run is c exactly when some event supplies it, and then it is
      stored with its fetcher. */
  ghost predicate DataByRun(states: seq<Hook>, events: seq<Event>, c: nat)
    requires |events| < |states|
  {
    var stored := states[|events|].state;
    && (stored.data == Some(c) <==> exists i :: 0 <= i < |events| && Supplies(states, events, i, c))
    && forall i :: 0 <= i < |events| && Supplies(states, events, i, c) ==>
         stored.fetcher == FetcherSettled(states, events, i)
  }

  /** What the last event that settles or resets leaves. */
  ghost predicate LastWrite(states: seq<Hook>, events: seq<Event>, i: nat)
    requires i < |events| < |states|
  {
    var stored := states[|events|].state;
    QuietFrom(states, events, i + 1) ==>
      && (Resets(states, events, i) ==> stored == Snapshot(None, None, true, states[i].fetcher))
      && (SettlesLive(states, events, i) ==>
            && !stored.loading && stored.fetcher == FetcherSettled(states, events, i)
            && stored.error == (if events[i].Rejects? then Some(events[i].message) else None))
  }

  /** What the stored state is at the end of a run, by the events of the run. */
  ghost predicate StoredByRun(first: nat, states: seq<Hook>, events: seq<Event>)
    requires |events| < |states|
  {
    && (forall c: nat :: DataByRun(states, events, c))
    && (QuietFrom(states, events, 0) ==> states[|events|].state == Snapshot(None, None, true, first))
    && forall i :: 0 <= i < |events| ==> LastWrite(states, events, i)
  }

  lemma SamePrefix(states: seq<Hook>, events: seq<Event>, i: nat)
    requires |states| == |events| + 1 && i + 1 < |events|
    ensures var before, init := states[..|events|], events[..|events| - 1];
            && Resets(before, init, i) == Resets(states, events, i)
            && SettlesLive(before, init, i) == SettlesLive(states, events, i)
            && (SettlesLive(states, events, i) ==>
                  && CallSettled(before, init, i) == CallSettled(states, events, i)
                  && FetcherSettled(before, init, i) == FetcherSettled(states, events, i))
  {
  }

  /** Whether event i still supplies the data after one more event. */
  lemma SuppliesSnoc(states: seq<Hook>, events: seq<Event>, i: nat, c: nat)
    requires |states| == |events| + 1 && i + 1 < |events|
    ensures var n := |events| - 1;
            Supplies(states, events, i, c) <==>
            && Supplies(states[..n + 1], events[..n], i, c) && !Resets(states, events, n)
            && (SettlesLive(states, events, n) ==>
                  events[n].Rejects? && FetcherSettled(states, events, n) == FetcherSettled(states[..n + 1], events[..n], i))
  {
    var n := |events| - 1;
    forall j | 0 <= j < n
      ensures Resets(states[..n + 1], events[..n], j) == Resets(states, events, j)
      ensures SettlesLive(states[..n + 1], events[..n], j) == SettlesLive(states, events, j)
      ensures SettlesLive(states, events, j) ==>
                && CallSettled(states[..n + 1], events[..n], j) == CallSettled(states, events, j)
                && FetcherSettled(states[..n + 1], events[..n], j) == FetcherSettled(states, events, j)
      ensures events[..n][j] == events[j]
    {
      SamePrefix(states, events, j);
    }
    hide Resets, SettlesLive, CallSettled, FetcherSettled;
  }

  lemma QuietSnoc(states: seq<Hook>, events: seq<Event>, i: nat)
    requires |states| == |events| + 1 && i < |events|
    ensures var n := |events| - 1;
            QuietFrom(states, events, i) <==>
            QuietFrom(states[..n + 1], events[..n], i) && !Resets(states, events, n) && !SettlesLive(states, events, n)
  {
    var n := |events| - 1;
    var before, init := states[..n + 1], events[..n];
    forall j | 0 <= j < n
      ensures Resets(before, init, j) == Resets(states, events, j)
      ensures SettlesLive(before, init, j) == SettlesLive(states, events, j)
    {
      SamePrefix(states, events, j);
    }
    hide Resets, SettlesLive;
    if QuietFrom(states, events, i) {
      assert !SettlesLive(states, events, n) && !Resets(states, events, n);
      assert forall j :: i <= j < n ==> !SettlesLive(states, events, j) && !Resets(states, events, j);
    }
    if QuietFrom(before, init, i) && !Resets(states, events, n) && !SettlesLive(states, events, n) {
      forall j | i <= j < |events|
        ensures !SettlesLive(states, events, j) && !Resets(states, events, j)
      {
        assert j < n ==> !SettlesLive(before, init, j);
      }
    }
  }

  /** An event that neither settles the live call nor resets leaves the stored state alone. */
  lemma QuietStep(h: Hook, e: Event)
    requires Inv(h) && Possible(h, e)
    requires e.Resolves? || e.Rejects? ==> h.live != Some(e.k)
    requires e.RunEffect? ==> h.enabled
    ensures Next(h, e).state == h.state
  {
    if e.Resolves? || e.Rejects? {
      assert InstanceInv(h, e.k);
    }
  }

  lemma {:induction false} RunInv(fetcher: nat, enabled: bool, events: seq<Event>, states: seq<Hook>)
    requires IsRun(fetcher, enabled, events, states)
    ensures Inv(states[|events|])
  {
    if events != [] {
      var n := |events| - 1;
      RunInv(fetcher, enabled, events[..n], states[..n + 1]);
      NextKeeps(states[n], events[n]);
    }
  }

  /** What the live call's settling stores. */
  lemma LiveSettles(h: Hook, e: Event)
    requires Inv(h) && Possible(h, e) && (e.Resolves? || e.Rejects?) && h.live == Some(e.k)
    ensures var i := h.instances[e.k];
            && i.call < |h.calls| && h.calls[i.call].fetcher == i.fetcher
            && Next(h, e).state ==
               if e.Resolves? then Snapshot(Some(i.call), None, false, i.fetcher)
               else Snapshot(if h.state.fetcher == i.fetcher then h.state.data else None, Some(e.message), false, i.fetcher)
  {
    assert InstanceInv(h, e.k);
  }

  lemma DataNext(states: seq<Hook>, events: seq<Event>, c: nat)
    requires |states| == |events| + 1 && events != []
    requires Inv(states[|events| - 1]) && Possible(states[|events| - 1], events[|events| - 1])
    requires states[|events|] == Next(states[|events| - 1], events[|events| - 1])
    requires DataByRun(states[..|events|], events[..|events| - 1], c)
    ensures DataByRun(states, events, c)
  {
    var n := |events| - 1;
    var before, init, h, e := states[..n + 1], events[..n], states[n], events[n];
    forall i: nat | i < n
      ensures Supplies(states, events, i, c) <==>
              && Supplies(before, init, i, c) && !Resets(states, events, n)
              && (SettlesLive(states, events, n) ==>
                    e.Rejects? && FetcherSettled(states, events, n) == FetcherSettled(before, init, i))
      ensures Supplies(states, events, i, c) ==> FetcherSettled(states, events, i) == FetcherSettled(before, init, i)
    {
      SuppliesSnoc(states, events, i, c);
      SamePrefix(states, events, i);
    }
    if SettlesLive(states, events, n) {
      LiveSettles(h, e);
    } else if !Resets(states, events, n) {
      QuietStep(h, e);
    }
    assert before[n] == h;
    assert Supplies(states, events, n, c) <==>
           SettlesLive(states, events, n) && e.Resolves? && CallSettled(states, events, n) == c;
    assert DataByRun(before, init, c);
    if h.state.data == Some(c) {
      var i :| 0 <= i < n && Supplies(before, init, i, c);
      assert h.state.fetcher == FetcherSettled(before, init, i);
    }
    hide Next, Inv, Possible, Supplies;
  }

  lemma LastNext(states: seq<Hook>, events: seq<Event>, i: nat)
    requires |states| == |events| + 1 && i < |events|
    requires Inv(states[|events| - 1]) && Possible(states[|events| - 1], events[|events| - 1])
    requires states[|events|] == Next(states[|events| - 1], events[|events| - 1])
    requires i < |events| - 1 ==> LastWrite(states[..|events|], events[..|events| - 1], i)
    ensures LastWrite(states, events, i)
  {
    var n := |events| - 1;
    var before, init, h, e := states[..n + 1], events[..n], states[n], events[n];
    if i < n {
      QuietSnoc(states, events, i + 1);
      if QuietFrom(states, events, i + 1) {
        QuietStep(h, e);
      }
      SamePrefix(states, events, i);
      hide Next, Inv, Possible;
      assert before[n] == h;
    } else if SettlesLive(states, events, n) {
      LiveSettles(h, e);
    }
  }

  /** In every run the stored data is that of the last call that returned to the live effect, as
      long as nothing was reset and no call of another fetcher was rejected since; and the last
      settlement or reset decides the message, the loading flag and the fetcher. */
  lemma {:induction false} RunStores(fetcher: nat, enabled: bool, events: seq<Event>, states: seq<Hook>)
    requires IsRun(fetcher, enabled, events, states)
    ensures StoredByRun(fetcher, states, events)
  {
    if events != [] {
      var n := |events| - 1;
      RunStores(fetcher, enabled, events[..n], states[..n + 1]);
      RunInv(fetcher, enabled, events[..n], states[..n + 1]);
      hide DataByRun, LastWrite, Next, Inv;
      forall c: nat
        ensures DataByRun(states, events, c)
      {
        DataNext(states, events, c);
      }
      forall i: nat | i < |events|
        ensures LastWrite(states, events, i)
      {
        LastNext(states, events, i);
      }
      QuietSnoc(states, events, 0);
      if QuietFrom(states, events, 0) {
        QuietStep(states[n], events[n]);
      }
    }
  }

  function Blank(fetcher: nat): Snapshot {
    Snapshot(None, None, true, fetcher)
  }

  /** What the component is given at the end of a run, by the events of the run. While the hook is
      enabled, data is shown exactly when a call of the current fetcher returned it to the live
      effect and nothing but rejections of calls of that fetcher came after; the last settlement,
      when it is one of the current fetcher, has ended the loading and shows its message if it was a
      rejection. Nothing is shown before the first settlement, after a reset, for another fetcher
      or while disabled. */
  ghost predicate ShownByRun(states: seq<Hook>, events: seq<Event>)
    requires |events| < |states|
  {
    var h, shown := states[|events|], Visible(states[|events|]);
    && (!h.enabled ==> shown == Blank(h.fetcher))
    && (h.enabled ==>
          forall c: nat :: shown.data == Some(c) <==>
            exists i :: 0 <= i < |events| && Supplies(states, events, i, c) && FetcherSettled(states, events, i) == h.fetcher)
    && (QuietFrom(states, events, 0) ==> shown == Blank(h.fetcher))
    && forall i :: 0 <= i < |events| && LastSaid(states, events, i) ==>
         if SettlesLive(states, events, i) && FetcherSettled(states, events, i) == h.fetcher && h.enabled then
           !shown.loading && shown.error == (if events[i].Rejects? then Some(events[i].message) else None)
         else
           shown == Blank(h.fetcher)
  }

  /** Event i settles or resets, and none does after it. */
  ghost predicate LastSaid(states: seq<Hook>, events: seq<Event>, i: nat)
    requires i < |events| < |states|
  {
    (SettlesLive(states, events, i) || Resets(states, events, i)) && QuietFrom(states, events, i + 1)
  }

  lemma WhatIsShown(fetcher: nat, enabled: bool, events: seq<Event>, states: seq<Hook>)
    requires IsRun(fetcher, enabled, events, states)
    ensures ShownByRun(states, events)
  {
    RunStores(fetcher, enabled, events, states);
    hide Supplies, SettlesLive, Resets, QuietFrom, FetcherSettled, Next;
    var h, shown := states[|events|], Visible(states[|events|]);
    forall c: nat | h.enabled
      ensures shown.data == Some(c) <==>
              exists i :: 0 <= i < |events| && Supplies(states, events, i, c) && FetcherSettled(states, events, i) == h.fetcher
    {
      assert DataByRun(states, events, c);
    }
    forall i | 0 <= i < |events| && LastSaid(states, events, i)
      ensures if SettlesLive(states, events, i) && FetcherSettled(states, events, i) == h.fetcher && h.enabled then
                !shown.loading && shown.error == (if events[i].Rejects? then Some(events[i].message) else None)
              else
                shown == Blank(h.fetcher)
    {
      assert LastWrite(states, events, i);
    }
  }

  predicate IsEffect(e: Event) {
    e.RunEffect? || e.Unmount?
  }

  /** Instances and calls are only ever added, and keep what they were made of; the live instance
      changes only when an effect runs or the component unmounts. */
  lemma NextAdds(h: Hook, e: Event)
    requires Inv(h) && Possible(h, e)
    ensures var h' := Next(h, e);
            && |h.instances| <= |h'.instances| && |h.calls| <= |h'.calls|
            && (forall k :: 0 <= k < |h.instances| ==> h'.instances[k].fetcher == h.instances[k].fetcher)
            && (forall c :: 0 <= c < |h.calls| ==>
                  h'.calls[c].fetcher == h.calls[c].fetcher && h'.calls[c].instance == h.calls[c].instance)
            && (!IsEffect(e) ==> h'.live == h.live)
            && (IsEffect(e) ==> h'.live == if e.RunEffect? && h.enabled then Some(|h.instances|) else None)
            && (e.RunEffect? && h.enabled ==>
                  && |h'.instances| == |h.instances| + 1 && h'.instances[|h.instances|].fetcher == h.fetcher
                  && h'.calls == h.calls + [Call(h.fetcher, |h.instances|, Pending)])
  {
  }

  /** The last time the effect ran, or the component unmounted, decides what polls: an instance for
      the fetcher rendered then, which made a request at once, if the hook was enabled; otherwise
      nothing. */
  lemma {:induction false} LiveByRun(fetcher: nat, enabled: bool, events: seq<Event>, states: seq<Hook>, i: nat)
    requires IsRun(fetcher, enabled, events, states)
    requires i < |events| && IsEffect(events[i]) && forall j :: i < j < |events| ==> !IsEffect(events[j])
    ensures var h, k, c := states[|events|], |states[i].instances|, |states[i].calls|;
            if events[i].RunEffect? && states[i].enabled then
              && h.live == Some(k) && k < |h.instances| && h.instances[k].fetcher == states[i].fetcher
              && c < |h.calls| && h.calls[c].instance == k && h.calls[c].fetcher == states[i].fetcher
            else h.live == None
    decreases |events|
  {
    var n := |events| - 1;
    RunInv(fetcher, enabled, events[..n], states[..n + 1]);
    NextAdds(states[n], events[n]);
    if i < n {
      LiveByRun(fetcher, enabled, events[..n], states[..n + 1], i);
    }
    hide Next, Inv;
  }
}
