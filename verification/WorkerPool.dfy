/** apps/web/lib/use-provider-slas.ts: the bounded worker pool as a transition system, the shared
    metadata requests, and the partition of what the pool read. */
module WorkerPool {
  import opened Wrappers
  import opened Arithmetic
  import opened Sequences

  /** 0, 1, ..., n - 1. */
  function UpTo(n: nat): (s: seq<nat>)
    ensures |s| == n && forall i :: 0 <= i < n ==> s[i] == i
  {
    seq(n, i => i)
  }

  // ---------------------------------------------------------- traces of calls

  /** The call for one index is made, or the promise it returned settles. */
  datatype Act = Started(index: nat) | Settled(index: nat)

  function StartIn(a: Act): Option<nat> {
    if a.Started? then Some(a.index) else None
  }

  function SettleIn(a: Act): Option<nat> {
    if a.Settled? then Some(a.index) else None
  }

  /** The indices called, in the order of the calls. */
  function Starts(trace: seq<Act>): seq<nat> {
    FilterMap(trace, StartIn)
  }

  /** The indices whose calls have settled, in the order they did. */
  function Settles(trace: seq<Act>): seq<nat> {
    FilterMap(trace, SettleIn)
  }

  /** The calls made and not yet settled. */
  function InFlight(trace: seq<Act>): set<nat> {
    if trace == [] then {}
    else
      var before := InFlight(trace[..|trace| - 1]);
      match trace[|trace| - 1]
      case Started(i) => before + {i}
      case Settled(i) => before - {i}
  }

  predicate MayFollow(trace: seq<Act>, act: Act, cap: nat) {
    match act
    case Started(i) => i == |Starts(trace)| && |InFlight(trace)| < cap
    case Settled(i) => i in InFlight(trace)
  }

  /** Calls are made in index order, never with `cap` others in flight, and only a call in flight
      settles. */
  predicate Disciplined(trace: seq<Act>, cap: nat) {
    trace != [] ==>
      Disciplined(trace[..|trace| - 1], cap) && MayFollow(trace[..|trace| - 1], trace[|trace| - 1], cap)
  }

  lemma ActNext(trace: seq<Act>, act: Act, cap: nat)
    requires Disciplined(trace, cap) && MayFollow(trace, act, cap)
    ensures Disciplined(trace + [act], cap)
    ensures Starts(trace + [act]) == Starts(trace) + (if act.Started? then [act.index] else [])
    ensures Settles(trace + [act]) == Settles(trace) + (if act.Settled? then [act.index] else [])
    ensures InFlight(trace + [act]) == if act.Started? then InFlight(trace) + {act.index} else InFlight(trace) - {act.index}
  {
    FilterMapAppend(trace, act, StartIn);
    FilterMapAppend(trace, act, SettleIn);
    assert (trace + [act])[..|trace|] == trace;
  }

  lemma EmptyTrace(cap: nat)
    ensures Disciplined([], cap) && Starts([]) == [] && Settles([]) == [] && InFlight([]) == {}
  {
  }

  predicate NoneTwice(s: seq<nat>) {
    forall a, b :: 0 <= a < b < |s| ==> s[a] != s[b]
  }

  /** What a disciplined trace says about each index: calls are made in order and once, each
      settles at most once, and those in flight are those made and not settled. */
  lemma {:induction false} DisciplinedMeans(trace: seq<Act>, cap: nat)
    requires Disciplined(trace, cap)
    ensures Starts(trace) == UpTo(|Starts(trace)|) && NoneTwice(Settles(trace))
    ensures forall i: nat :: i in InFlight(trace) <==> i < |Starts(trace)| && i !in Settles(trace)
    ensures forall i :: i in Settles(trace) ==> i < |Starts(trace)|
    ensures |InFlight(trace)| <= cap
  {
    if trace == [] {
      EmptyTrace(cap);
    } else {
      var init, last := trace[..|trace| - 1], trace[|trace| - 1];
      assert init + [last] == trace;
      assert Disciplined(init, cap) && MayFollow(init, last, cap);
      hide Disciplined, Starts, Settles, InFlight;
      DisciplinedMeans(init, cap);
      ActNext(init, last, cap);
      match last {
        case Started(i) =>
          assert forall j: nat :: j in InFlight(trace) <==> j == i || j in InFlight(init);
        case Settled(i) =>
          assert forall j: nat :: j in Settles(trace) <==> j == i || j in Settles(init);
      }
    }
  }

  /** ... and that at every moment, not only at the end. */
  lemma {:induction false} EveryPrefix(trace: seq<Act>, cap: nat, t: nat)
    requires Disciplined(trace, cap) && t <= |trace|
    ensures Disciplined(trace[..t], cap) && |InFlight(trace[..t])| <= cap
    decreases |trace|
  {
    if t == |trace| {
      assert trace[..t] == trace;
      DisciplinedMeans(trace, cap);
    } else {
      var init := trace[..|trace| - 1];
      assert init[..t] == trace[..t];
      EveryPrefix(init, cap, t);
    }
  }

  lemma EveryMoment(trace: seq<Act>, cap: nat)
    requires Disciplined(trace, cap)
    ensures forall t :: 0 <= t <= |trace| ==> |InFlight(trace[..t])| <= cap
    ensures forall t, i :: 0 <= t <= |trace| && i in Settles(trace[..t]) ==> i in Starts(trace[..t])
  {
    forall t | 0 <= t <= |trace|
      ensures |InFlight(trace[..t])| <= cap
      ensures forall i :: i in Settles(trace[..t]) ==> i in Starts(trace[..t])
    {
      EveryPrefix(trace, cap, t);
      hide Disciplined, Starts, Settles, InFlight;
      DisciplinedMeans(trace[..t], cap);
      forall i | i in Settles(trace[..t])
        ensures i in Starts(trace[..t])
      {
        assert Starts(trace[..t])[i] == i;
      }
    }
  }

  lemma NoCalls(trace: seq<Act>)
    requires Disciplined(trace, 0)
    ensures trace == []
  {
    if trace != [] {
      EveryPrefix(trace, 0, 1);
    }
  }

  // ----------------------------------------------------------------- the pool

  /** `next` as the workers share it, the results so far, the calls the workers await, and what
      has happened. */
  datatype Pool<R> = Pool(results: seq<Option<R>>, next: nat, awaiting: seq<nat>, trace: seq<Act>)

  ghost predicate Shape<T, R>(items: seq<T>, p: Pool<R>) {
    |p.results| == |items| && p.next <= |items| && forall w :: 0 <= w < |p.awaiting| ==> p.awaiting[w] < |items|
  }

  ghost predicate Callable<T, R>(items: seq<T>, fn: T --> R) {
    forall i :: 0 <= i < |items| ==> fn.requires(items[i])
  }

  /** The first m calls, made one after the other. */
  function Calls(m: nat): (trace: seq<Act>)
    ensures |trace| == m && forall i :: 0 <= i < m ==> trace[i] == Started(i)
  {
    seq(m, (i: nat) => Started(i))
  }

  /** Every worker has run up to its first await. */
  function Begun<T, R>(items: seq<T>, limit: nat): (p: Pool<R>)
    ensures Shape(items, p)
  {
    var m := Min(limit, |items|);
    Pool(Repeat(None, |items|), m, UpTo(m), Calls(m))
  }

  /** The call awaited by the w-th busy worker settles: the worker stores its value and goes on
      without interruption to the next call, or returns when no index is left. */
  function SettleOne<T, R>(items: seq<T>, fn: T --> R, p: Pool<R>, w: nat): (p': Pool<R>)
    requires Shape(items, p) && Callable(items, fn) && w < |p.awaiting|
    ensures Shape(items, p')
  {
    var index := p.awaiting[w];
    var results := p.results[index := Some(fn(items[index]))];
    if p.next < |items| then
      Pool(results, p.next + 1, p.awaiting[w := p.next], p.trace + [Settled(index)] + [Started(p.next)])
    else
      Pool(results, p.next, p.awaiting[..w] + p.awaiting[w + 1..], p.trace + [Settled(index)])
  }

  /** The pool after k settlements, or at its end if that comes before. `pick` says which of the
      calls in flight settles first at each step, so every `pick` is one schedule. */
  function PoolAfter<T, R>(items: seq<T>, limit: nat, fn: T --> R, pick: nat -> nat, k: nat): (p: Pool<R>)
    requires Callable(items, fn)
    ensures Shape(items, p)
  {
    if k == 0 then Begun(items, limit)
    else
      var p := PoolAfter(items, limit, fn, pick, k - 1);
      if p.awaiting == [] then p else SettleOne(items, fn, p, pick(k - 1) % |p.awaiting|)
  }

  /** The results are there exactly for the indices started and not awaited; no two workers await
      the same index; none is idle while an index is left. */
  ghost predicate PoolInv<T(!new), R(!new)>(items: seq<T>, limit: nat, fn: T --> R, p: Pool<R>) {
    && Shape(items, p) && Callable(items, fn)
    && NoneTwice(p.awaiting)
    && (p.next < |items| ==> |p.awaiting| == Min(limit, |items|))
    && (forall i :: 0 <= i < |items| ==>
          p.results[i] == if i < p.next && i !in p.awaiting then Some(fn(items[i])) else None)
  }

  /** The trace tells the same story. */
  ghost predicate TraceInv(trace: seq<Act>, next: nat, awaiting: seq<nat>, cap: nat) {
    && Disciplined(trace, cap) && NoneTwice(awaiting)
    && |Starts(trace)| == next
    && (forall i :: i in awaiting <==> i in InFlight(trace))
    && |InFlight(trace)| == |awaiting| <= cap
    && next == |awaiting| + |Settles(trace)|
  }

  lemma {:induction false} FirstCalls(m: nat, cap: nat)
    requires m <= cap
    ensures Disciplined(Calls(m), cap)
    ensures |Starts(Calls(m))| == m && Settles(Calls(m)) == [] && |InFlight(Calls(m))| == m
  {
    hide Disciplined, Starts, Settles, InFlight;
    if m == 0 {
      EmptyTrace(cap);
    } else {
      FirstCalls(m - 1, cap);
      DisciplinedMeans(Calls(m - 1), cap);
      assert Calls(m) == Calls(m - 1) + [Started(m - 1)];
      ActNext(Calls(m - 1), Started(m - 1), cap);
    }
  }

  lemma BegunKeeps<T(!new), R(!new)>(items: seq<T>, limit: nat, fn: T --> R)
    requires Callable(items, fn)
    ensures PoolInv(items, limit, fn, Begun(items, limit))
    ensures var p: Pool<R> := Begun(items, limit); TraceInv(p.trace, p.next, p.awaiting, Min(limit, |items|))
    ensures Settles(Begun<T, R>(items, limit).trace) == []
  {
    var p: Pool<R> := Begun(items, limit);
    FirstCalls(p.next, p.next);
    DisciplinedMeans(p.trace, p.next);
    hide Disciplined, Starts, Settles, InFlight;
    forall i | 0 <= i < p.next
      ensures i in p.awaiting
    {
      assert p.awaiting[i] == i;
    }
  }

  /** Dropping or replacing one element of a list without repetitions. */
  lemma Without(s: seq<nat>, w: nat)
    requires NoneTwice(s) && w < |s|
    ensures NoneTwice(s[..w] + s[w + 1..])
    ensures forall i :: i in s[..w] + s[w + 1..] <==> i in s && i != s[w]
  {
    var rest := s[..w] + s[w + 1..];
    forall i
      ensures i in rest <==> i in s && i != s[w]
    {
      if i in rest {
        var v :| 0 <= v < |rest| && rest[v] == i;
        assert s[if v < w then v else v + 1] == i;
      }
      if i in s && i != s[w] {
        var v :| 0 <= v < |s| && s[v] == i;
        assert rest[if v < w then v else v - 1] == i;
      }
    }
  }

  lemma Replacing(s: seq<nat>, w: nat, x: nat)
    requires NoneTwice(s) && w < |s| && x !in s
    ensures NoneTwice(s[w := x])
    ensures forall i :: i in s[w := x] <==> i == x || (i in s && i != s[w])
  {
    var s' := s[w := x];
    forall i
      ensures i in s' <==> i == x || (i in s && i != s[w])
    {
      if i in s && i != s[w] {
        var v :| 0 <= v < |s| && s[v] == i;
        assert s'[v] == i;
      }
      if i == x {
        assert s'[w] == i;
      }
    }
  }

  lemma SettleKeepsPool<T(!new), R(!new)>(items: seq<T>, limit: nat, fn: T --> R, p: Pool<R>, w: nat)
    requires PoolInv(items, limit, fn, p) && w < |p.awaiting| && forall i :: i in p.awaiting ==> i < p.next
    ensures PoolInv(items, limit, fn, SettleOne(items, fn, p, w))
  {
    Without(p.awaiting, w);
    Replacing(p.awaiting, w, p.next);
    hide NoneTwice;
  }

  lemma SettleKeepsTrace(trace: seq<Act>, next: nat, awaiting: seq<nat>, cap: nat, w: nat)
    requires TraceInv(trace, next, awaiting, cap) && w < |awaiting|
    ensures TraceInv(trace + [Settled(awaiting[w])], next, awaiting[..w] + awaiting[w + 1..], cap)
    ensures |Settles(trace + [Settled(awaiting[w])])| == |Settles(trace)| + 1
  {
    ActNext(trace, Settled(awaiting[w]), cap);
    Without(awaiting, w);
    hide Disciplined, Starts, Settles, InFlight, NoneTwice;
  }

  lemma StartKeepsTrace(trace: seq<Act>, next: nat, awaiting: seq<nat>, cap: nat, w: nat)
    requires TraceInv(trace, next, awaiting, cap) && w < |awaiting|
    ensures TraceInv(trace + [Settled(awaiting[w])] + [Started(next)], next + 1, awaiting[w := next], cap)
    ensures |Settles(trace + [Settled(awaiting[w])] + [Started(next)])| == |Settles(trace)| + 1
  {
    SettleKeepsTrace(trace, next, awaiting, cap, w);
    var settled := trace + [Settled(awaiting[w])];
    DisciplinedMeans(settled, cap);
    Without(awaiting, w);
    hide Disciplined, Starts, Settles, InFlight, NoneTwice;
    ActNext(settled, Started(next), cap);
    assert next !in awaiting by {
      DisciplinedMeans(trace, cap);
    }
    Replacing(awaiting, w, next);
  }

  lemma SettleKeeps<T(!new), R(!new)>(items: seq<T>, limit: nat, fn: T --> R, p: Pool<R>, w: nat, cap: nat)
    requires PoolInv(items, limit, fn, p) && TraceInv(p.trace, p.next, p.awaiting, cap) && w < |p.awaiting|
    ensures var p' := SettleOne(items, fn, p, w);
            && PoolInv(items, limit, fn, p') && TraceInv(p'.trace, p'.next, p'.awaiting, cap)
            && |Settles(p'.trace)| == |Settles(p.trace)| + 1
  {
    DisciplinedMeans(p.trace, cap);
    SettleKeepsPool(items, limit, fn, p, w);
    hide PoolInv, TraceInv, Callable, Disciplined, Starts, Settles, InFlight;
    if p.next < |items| {
      StartKeepsTrace(p.trace, p.next, p.awaiting, cap, w);
    } else {
      SettleKeepsTrace(p.trace, p.next, p.awaiting, cap, w);
    }
  }

  /** One more settlement. */
  lemma PoolStep<T, R>(items: seq<T>, limit: nat, fn: T --> R, pick: nat -> nat, k: nat)
    requires Callable(items, fn) && PoolAfter(items, limit, fn, pick, k).awaiting != []
    ensures var p := PoolAfter(items, limit, fn, pick, k);
            PoolAfter(items, limit, fn, pick, k + 1) == SettleOne(items, fn, p, pick(k) % |p.awaiting|)
  {
  }

  lemma Counted<T(!new), R(!new)>(items: seq<T>, limit: nat, fn: T --> R, p: Pool<R>)
    requires PoolInv(items, limit, fn, p) && TraceInv(p.trace, p.next, p.awaiting, Min(limit, |items|))
    ensures |p.awaiting| + |Settles(p.trace)| <= |items| && |p.awaiting| <= limit
    ensures p.awaiting == [] ==> limit == 0 || |Settles(p.trace)| == |items|
  {
    hide Disciplined, Starts, Settles, InFlight, NoneTwice, Callable;
  }

  lemma {:induction false} PoolKeeps<T(!new), R(!new)>(items: seq<T>, limit: nat, fn: T --> R, pick: nat -> nat, k: nat)
    requires Callable(items, fn)
    ensures var p := PoolAfter(items, limit, fn, pick, k);
            && PoolInv(items, limit, fn, p) && TraceInv(p.trace, p.next, p.awaiting, Min(limit, |items|))
            && |Settles(p.trace)| == if limit == 0 then 0 else Min(k, |items|)
  {
    hide PoolInv, TraceInv, Settles, SettleOne, Callable, Shape, Begun;
    if k == 0 {
      BegunKeeps(items, limit, fn);
    } else {
      PoolKeeps(items, limit, fn, pick, k - 1);
      var p := PoolAfter(items, limit, fn, pick, k - 1);
      Counted(items, limit, fn, p);
      if p.awaiting != [] {
        SettleKeeps(items, limit, fn, p, pick(k - 1) % |p.awaiting|, Min(limit, |items|));
      }
    }
  }

  /** Every schedule, at every moment: calls are made in index order, each once; each settles at
      most once, and only after it was made; at most min(limit, n) are in flight, then and at every
      earlier moment, and exactly that many while an index is left; each step settles one call, so
      the pool ends after exactly n settlements, with every call made and settled and its value in
      its own slot. With no workers at all (limit 0) nothing is called. */
  lemma PoolSafety<T(!new), R(!new)>(items: seq<T>, limit: nat, fn: T --> R, pick: nat -> nat, k: nat)
    requires Callable(items, fn)
    ensures var p, n := PoolAfter(items, limit, fn, pick, k), |items|;
            && Starts(p.trace) == UpTo(p.next) && NoneTwice(Settles(p.trace))
            && (forall t, i :: 0 <= t <= |p.trace| && i in Settles(p.trace[..t]) ==> i in Starts(p.trace[..t]))
            && (forall t :: 0 <= t <= |p.trace| ==> |InFlight(p.trace[..t])| <= Min(limit, n))
            && (p.next < n ==> |InFlight(p.trace)| == Min(limit, n))
            && |Settles(p.trace)| == (if limit == 0 then 0 else Min(k, n))
            && (InFlight(p.trace) == {} <==> limit == 0 || k >= n)
            && (limit > 0 && k >= n ==>
                  && Starts(p.trace) == UpTo(n) && |Settles(p.trace)| == n
                  && forall i :: 0 <= i < n ==> i in Settles(p.trace) && p.results[i] == Some(fn(items[i])))
            && (limit == 0 ==> p.trace == [] && forall i :: 0 <= i < n ==> p.results[i] == None)
  {
    var p, cap := PoolAfter(items, limit, fn, pick, k), Min(limit, |items|);
    PoolKeeps(items, limit, fn, pick, k);
    hide PoolAfter, Disciplined, Starts, Settles, InFlight, NoneTwice;
    EveryMoment(p.trace, cap);
    DisciplinedMeans(p.trace, cap);
    if limit == 0 {
      NoCalls(p.trace);
    }
  }

  lemma PoolStart<T, R>(items: seq<T>, limit: nat, fn: T --> R, pick: nat -> nat)
    requires Callable(items, fn)
    ensures PoolAfter(items, limit, fn, pick, 0) == Begun(items, limit)
  {
  }

  lemma PoolEmpty<T(!new), R(!new)>(items: seq<T>, limit: nat, fn: T --> R, pick: nat -> nat, k: nat)
    requires Callable(items, fn)
    ensures PoolAfter(items, limit, fn, pick, k).awaiting == [] <==> limit == 0 || k >= |items|
  {
    PoolKeeps(items, limit, fn, pick, k);
    hide PoolAfter, Disciplined, Starts, Settles, InFlight, NoneTwice;
  }

  /** mapWithLimit, for an `fn` that does not reject. It ends after one settlement per index (none
      when there are no workers) with the pool of PoolAfter, of which PoolSafety speaks; `trace`
      is what happened. */
  method MapWithLimit<T(!new), R(!new)>(items: seq<T>, limit: nat, fn: T --> R, pick: nat -> nat)
    returns (out: seq<Option<R>>, trace: seq<Act>, settlements: nat)
    requires Callable(items, fn)
    ensures settlements == if limit == 0 then 0 else |items|
    ensures var p := PoolAfter(items, limit, fn, pick, settlements);
            p.awaiting == [] && out == p.results && trace == p.trace
    ensures Starts(trace) == UpTo(if limit == 0 then 0 else |items|) && NoneTwice(Settles(trace))
    ensures |Settles(trace)| == settlements && InFlight(trace) == {}
    ensures forall t :: 0 <= t <= |trace| ==> |InFlight(trace[..t])| <= Min(limit, |items|)
    ensures |out| == |items|
    ensures forall i :: 0 <= i < |items| ==> out[i] == if limit == 0 then None else Some(fn(items[i]))
  {
    hide Callable, Disciplined, Starts, Settles, InFlight, NoneTwice, PoolAfter;
    var n := |items|;
    var results := new Option<R>[n](_ => None);
    var next := 0;
    var awaiting: seq<nat> := [];
    trace, settlements := [], 0;
    while |awaiting| < Min(limit, n)
      invariant |awaiting| == next <= Min(limit, n)
      invariant awaiting == UpTo(next) && trace == Calls(next)
      invariant results[..] == Repeat(None, n)
    {
      awaiting, trace, next := awaiting + [next], trace + [Started(next)], next + 1;
    }
    PoolStart(items, limit, fn, pick);
    PoolEmpty(items, limit, fn, pick, 0);
    while awaiting != []
      invariant Pool(results[..], next, awaiting, trace) == PoolAfter(items, limit, fn, pick, settlements)
      invariant awaiting == [] <==> limit == 0 || settlements >= n
      invariant settlements <= n && (limit == 0 ==> settlements == 0)
      decreases n - settlements
    {
      PoolStep(items, limit, fn, pick, settlements);
      var w := pick(settlements) % |awaiting|;
      settlements := settlements + 1;
      ghost var before := results[..];
      var index := awaiting[w];
      results[index] := Some(fn(items[index]));
      trace := trace + [Settled(index)];
      assert results[..] == before[index := Some(fn(items[index]))];
      if next < n {
        awaiting, trace, next := awaiting[w := next], trace + [Started(next)], next + 1;
      } else {
        awaiting := awaiting[..w] + awaiting[w + 1..];
      }
      PoolEmpty(items, limit, fn, pick, settlements);
    }
    PoolSafety(items, limit, fn, pick, settlements);
    out := results[..];
  }

  // ----------------------------------------------------- token metadata memo

  predicate Distinct(tokens: seq<string>) {
    forall i, j :: 0 <= i < j < |tokens| ==> tokens[i] != tokens[j]
  }

  /** The map of promises inside fetchProviderSlas. A promise is identified by the number of
      the request behind it, so a rejected one is handed out again like any other. */
  class TokenMetadata {
    var pending: map<string, nat>
    var requested: seq<string>

    constructor ()
      ensures Valid() && requested == []
    {
      pending, requested := map[], [];
    }

    ghost predicate Valid()
      reads this
    {
      && (forall t :: t in pending <==> t in requested)
      && forall k :: 0 <= k < |requested| ==> pending[requested[k]] == k
    }

    /** getTokenMetadata. */
    method GetTokenMetadata(token: string) returns (request: nat)
      requires Valid()
      modifies this
      ensures Valid()
      ensures requested == if token in old(requested) then old(requested) else old(requested) + [token]
      ensures request < |requested| && requested[request] == token
    {
      if token in pending {
        request := pending[token];
        ghost var k :| 0 <= k < |requested| && requested[k] == token;
      } else {
        request := |requested|;
        pending, requested := pending[token := request], requested + [token];
      }
    }
  }

  /** Whatever the order in which the workers ask, each token is requested once and everybody
      asking for it shares that request. */
  method AskInOrder(memo: TokenMetadata, tokens: seq<string>) returns (requests: seq<nat>)
    requires memo.Valid() && memo.requested == []
    modifies memo
    ensures memo.Valid() && Distinct(memo.requested)
    ensures forall t :: t in memo.requested <==> t in tokens
    ensures |requests| == |tokens|
    ensures forall i :: 0 <= i < |tokens| ==>
              requests[i] < |memo.requested| && memo.requested[requests[i]] == tokens[i]
    ensures forall i, j :: 0 <= i < |tokens| && 0 <= j < |tokens| && tokens[i] == tokens[j] ==> requests[i] == requests[j]
  {
    requests := [];
    for n := 0 to |tokens|
      invariant memo.Valid() && |requests| == n
      invariant forall t :: t in memo.requested <==> t in tokens[..n]
      invariant forall i :: 0 <= i < n ==> requests[i] < |memo.requested| && memo.requested[requests[i]] == tokens[i]
    {
      assert tokens[..n + 1] == tokens[..n] + [tokens[n]];
      var request := memo.GetTokenMetadata(tokens[n]);
      requests := requests + [request];
    }
    assert tokens[..|tokens|] == tokens;
  }

  // --------------------------------------------------------- provider's SLAs

  datatype SlaOutcome<V, E> = Sla(view: V) | SlaFailure(error: E)

  function ViewIn<V, E>(o: SlaOutcome<V, E>): Option<V> {
    if o.Sla? then Some(o.view) else None
  }

  function FailureIn<V, E>(o: SlaOutcome<V, E>): Option<E> {
    if o.SlaFailure? then Some(o.error) else None
  }

  const MAX_CONCURRENT_SLA_READS: nat := 4

  /** The token whose metadata an SLA asks for once its own reads have succeeded. */
  function TokenAsked<S, C, E>(read: S -> Result<C, E>, tokenOf: C -> string, summary: S): Option<string> {
    match read(summary)
    case Failure(_) => None
    case Success(config) => Some(tokenOf(config))
  }

  /** The tokens asked for, in the order of the summaries. */
  function TokensAsked<S, C, E>(read: S -> Result<C, E>, tokenOf: C -> string, summaries: seq<S>): seq<string> {
    FilterMap(summaries, s => TokenAsked(read, tokenOf, s))
  }

  /** Every token an SLA asks for has its request. */
  ghost predicate Served<S, C, E>(read: S -> Result<C, E>, tokenOf: C -> string, requests: map<string, nat>, summary: S) {
    var token := TokenAsked(read, tokenOf, summary);
    token.Some? ==> token.value in requests
  }

  /** The function the pool runs on one summary: whatever fails, the SLA's own reads or the shared
      metadata request of its token, is caught and reported against that SLA. */
  function ReadSla<S, C, M, E>(read: S -> Result<C, E>, tokenOf: C -> string, requests: map<string, nat>,
                               metadata: nat -> Result<M, E>, summary: S): SlaOutcome<(C, M), E>
    requires Served(read, tokenOf, requests, summary)
  {
    match read(summary)
    case Failure(e) => SlaFailure(e)
    case Success(config) =>
      match metadata(requests[tokenOf(config)])
      case Failure(e) => SlaFailure(e)
      case Success(m) => Sla((config, m))
  }

  ghost predicate AllServed<S, C, E>(read: S -> Result<C, E>, tokenOf: C -> string, requests: map<string, nat>,
                                     summaries: seq<S>)
  {
    forall i :: 0 <= i < |summaries| ==> Served(read, tokenOf, requests, summaries[i])
  }

  /** What the pool leaves for `summaries`. */
  function Outcomes<S, C, M, E>(read: S -> Result<C, E>, tokenOf: C -> string, requests: map<string, nat>,
                                metadata: nat -> Result<M, E>, summaries: seq<S>): seq<SlaOutcome<(C, M), E>>
    requires AllServed(read, tokenOf, requests, summaries)
  {
    seq(|summaries|, i requires 0 <= i < |summaries| => ReadSla(read, tokenOf, requests, metadata, summaries[i]))
  }

  /** What SLA `summary` must yield: the error of its own reads, or the error or the metadata of the
      one request made for its own token. */
  ghost predicate Yields<S, C, M, E>(read: S -> Result<C, E>, tokenOf: C -> string, requested: seq<string>,
                                     metadata: nat -> Result<M, E>, summary: S, outcome: SlaOutcome<(C, M), E>)
  {
    match read(summary)
    case Failure(e) => outcome == SlaFailure(e)
    case Success(config) =>
      exists r: nat :: r < |requested| && requested[r] == tokenOf(config)
                       && match metadata(r)
                          case Failure(e) => outcome == SlaFailure(e)
                          case Success(m) => outcome == Sla((config, m))
  }

  lemma SharedRequest<S, C, M, E>(read: S -> Result<C, E>, tokenOf: C -> string, requested: seq<string>,
                                  requests: map<string, nat>, metadata: nat -> Result<M, E>, summary: S)
    requires Served(read, tokenOf, requests, summary)
    requires forall t :: t in requests ==> requests[t] < |requested| && requested[requests[t]] == t
    ensures Yields(read, tokenOf, requested, metadata, summary, ReadSla(read, tokenOf, requests, metadata, summary))
  {
    if read(summary).Success? {
      var r := requests[tokenOf(read(summary).value)];
      assert requested[r] == tokenOf(read(summary).value);
    }
  }

  lemma AskedIsServed<S(!new), C(!new), E(!new)>(read: S -> Result<C, E>, tokenOf: C -> string, requests: map<string, nat>,
                                                 summaries: seq<S>)
    requires forall t :: t in TokensAsked(read, tokenOf, summaries) ==> t in requests
    ensures AllServed(read, tokenOf, requests, summaries)
  {
    var pick := (s: S) => TokenAsked(read, tokenOf, s);
    FilterMapOrigin(summaries, pick);
    var values, at := FilterMap(summaries, pick), Positions(summaries, pick);
    assert values == TokensAsked(read, tokenOf, summaries);
    hide TokenAsked, FilterMap, Positions;
    forall i | 0 <= i < |summaries|
      ensures Served(read, tokenOf, requests, summaries[i])
    {
      if pick(summaries[i]).Some? {
        assert i in at;
        var v :| 0 <= v < |at| && at[v] == i;
        assert values[v] in values;
      }
    }
  }

  /** The loop over the outcomes. */
  method SplitOutcomes<V(!new), E(!new)>(outcomes: seq<SlaOutcome<V, E>>) returns (slas: seq<V>, failures: seq<E>)
    ensures slas == FilterMap(outcomes, ViewIn)
    ensures failures == FilterMap(outcomes, FailureIn)
    ensures |slas| + |failures| == |outcomes|
  {
    slas, failures := [], [];
    for i := 0 to |outcomes|
      invariant slas == FilterMap(outcomes[..i], ViewIn)
      invariant failures == FilterMap(outcomes[..i], FailureIn)
      invariant |slas| + |failures| == i
    {
      assert outcomes[..i + 1] == outcomes[..i] + [outcomes[i]];
      FilterMapAppend<SlaOutcome<V, E>, V>(outcomes[..i], outcomes[i], ViewIn);
      FilterMapAppend<SlaOutcome<V, E>, E>(outcomes[..i], outcomes[i], FailureIn);
      match outcomes[i] {
        case Sla(view) => slas := slas + [view];
        case SlaFailure(error) => failures := failures + [error];
      }
    }
    assert outcomes[..|outcomes|] == outcomes;
  }

  /** The SLAs read through the pool, each with the request its token shares. */
  method ReadAll<S(!new), C(!new), M(!new), E(!new)>(
      summaries: seq<S>, read: S -> Result<C, E>, tokenOf: C -> string, requests: map<string, nat>,
      metadata: nat -> Result<M, E>, pick: nat -> nat)
    returns (outcomes: seq<SlaOutcome<(C, M), E>>, trace: seq<Act>)
    requires AllServed(read, tokenOf, requests, summaries)
    ensures outcomes == Outcomes(read, tokenOf, requests, metadata, summaries)
    ensures Starts(trace) == UpTo(|summaries|) && |Settles(trace)| == |summaries| && InFlight(trace) == {}
    ensures forall t :: 0 <= t <= |trace| ==> |InFlight(trace[..t])| <= MAX_CONCURRENT_SLA_READS
  {
    hide Starts, Settles, InFlight, PoolAfter, NoneTwice, ReadSla, Served;
    var out, settlements;
    out, trace, settlements := MapWithLimit(
      summaries, MAX_CONCURRENT_SLA_READS,
      (s: S) requires Served(read, tokenOf, requests, s) => ReadSla(read, tokenOf, requests, metadata, s), pick);
    outcomes := seq(|out|, i requires 0 <= i < |out| => out[i].value);
  }

  /** The tokens asked for are those of the SLAs whose own reads succeeded. */
  lemma AskedTokens<S(!new), C(!new), E(!new)>(read: S -> Result<C, E>, tokenOf: C -> string, summaries: seq<S>)
    ensures forall t :: t in TokensAsked(read, tokenOf, summaries) <==>
              exists i :: 0 <= i < |summaries| && read(summaries[i]).Success? && tokenOf(read(summaries[i]).value) == t
  {
    var pick := (s: S) => TokenAsked(read, tokenOf, s);
    FilterMapOrigin(summaries, pick);
    var values, at := FilterMap(summaries, pick), Positions(summaries, pick);
    assert values == TokensAsked(read, tokenOf, summaries);
    hide FilterMap, Positions;
    forall t
      ensures t in values <==>
              exists i :: 0 <= i < |summaries| && read(summaries[i]).Success? && tokenOf(read(summaries[i]).value) == t
    {
      if t in values {
        var v :| 0 <= v < |values| && values[v] == t;
        assert pick(summaries[at[v]]) == Some(t);
      }
      if i :| 0 <= i < |summaries| && read(summaries[i]).Success? && tokenOf(read(summaries[i]).value) == t {
        assert pick(summaries[i]) == Some(t) && i in at;
        var v :| 0 <= v < |at| && at[v] == i;
        assert values[v] == t;
      }
    }
  }

  /** fetchProviderSlas after discovery. `read` are an SLA's own reads, `metadata(k)` is how the
      k-th metadata request ends, and `asks` is the order in which the SLAs that were read come to
      ask for their tokens. Each token is requested once; every SLA is read through the pool, with
      its token's one request; and the outcomes are split into two lists that keep the order of
      the summaries. */
  method FetchProviderSlas<S(!new), C(!new), M(!new), E(!new)>(
      summaries: seq<S>, read: S -> Result<C, E>, tokenOf: C -> string, metadata: nat -> Result<M, E>,
      asks: seq<string>, pick: nat -> nat)
    returns (slas: seq<(C, M)>, failures: seq<E>, trace: seq<Act>, requested: seq<string>,
             ghost outcomes: seq<SlaOutcome<(C, M), E>>)
    requires multiset(asks) == multiset(TokensAsked(read, tokenOf, summaries))
    ensures Distinct(requested)
    ensures forall t :: t in requested <==>
              exists i :: 0 <= i < |summaries| && read(summaries[i]).Success? && tokenOf(read(summaries[i]).value) == t
    ensures Starts(trace) == UpTo(|summaries|) && |Settles(trace)| == |summaries| && InFlight(trace) == {}
    ensures forall t :: 0 <= t <= |trace| ==> |InFlight(trace[..t])| <= MAX_CONCURRENT_SLA_READS
    ensures |outcomes| == |summaries|
    ensures forall i :: 0 <= i < |summaries| ==> Yields(read, tokenOf, requested, metadata, summaries[i], outcomes[i])
    ensures slas == FilterMap(outcomes, ViewIn) && failures == FilterMap(outcomes, FailureIn)
    ensures |slas| + |failures| == |summaries|
  {
    var memo := new TokenMetadata();
    var _ := AskInOrder(memo, asks);
    requested := memo.requested;
    var requests := memo.pending;
    assert forall t :: t in asks <==> t in multiset(asks);
    assert forall t :: t in TokensAsked(read, tokenOf, summaries) <==> t in multiset(TokensAsked(read, tokenOf, summaries));
    AskedTokens(read, tokenOf, summaries);
    AskedIsServed(read, tokenOf, requests, summaries);
    var results;
    results, trace := ReadAll(summaries, read, tokenOf, requests, metadata, pick);
    outcomes := results;
    forall i | 0 <= i < |summaries|
      ensures Yields(read, tokenOf, requested, metadata, summaries[i], outcomes[i])
    {
      assert Served(read, tokenOf, requests, summaries[i]);
      SharedRequest(read, tokenOf, requested, requests, metadata, summaries[i]);
    }
    slas, failures := SplitOutcomes(results);
  }
}
