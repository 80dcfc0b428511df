/** Why delivering events again does no harm: first-wins rows, first-ever registration times,
    and a last-wins removal mark that is restored once the replay catches up. */
module Redelivery {
  import opened Wrappers
  import opened Events
  import opened Store
  import opened Replay

  ghost predicate Extends<R>(m: map<string, R>, m': map<string, R>) {
    forall k :: k in m ==> k in m' && m'[k] == m[k]
  }

  ghost predicate KeepsRegistration(m: map<string, WatcherRow>, m': map<string, WatcherRow>) {
    forall a :: a in m ==> a in m' && m'[a].registeredAt == m[a].registeredAt
  }

  /** Every row survives, and a watcher keeps its registration time. */
  ghost predicate Grows(t: Tables, t': Tables) {
    && Extends(t.checks, t'.checks) && Extends(t.slas, t'.slas)
    && Extends(t.settlements, t'.settlements) && Extends(t.lifecycle, t'.lifecycle)
    && KeepsRegistration(t.watchers, t'.watchers)
  }

  /** The row an outcome writes has a row under its key. */
  predicate Recorded(t: Tables, o: Result<Outcome, string>) {
    match o
    case Success(WatcherOutcome(Registered(address, _))) => address in t.watchers
    case Success(CheckOutcome(c)) => c.eventId in t.checks
    case Success(SlaOutcome(s)) => s.slaId in t.slas
    case Success(SettlementOutcome(s)) => s.eventId in t.settlements
    case Success(LifecycleOutcome(l)) => l.eventId in t.lifecycle
    case _ => true
  }

  lemma EffectGrows(t: Tables, o: Result<Outcome, string>)
    ensures Grows(t, Effect(t, o)) && Recorded(Effect(t, o), o)
  {
    hide Effect;
    EffectFields(t, o);
  }

  lemma {:induction false} ReplayGrows(t: Tables, events: seq<DecodedEvent>)
    ensures Grows(t, Replayed(t, events))
    ensures forall i :: 0 <= i < |events| ==> Recorded(Replayed(t, events), Classify(events[i]))
  {
    hide Classify;
    if events != [] {
      var init, e := events[..|events| - 1], events[|events| - 1];
      ReplayGrows(t, init);
      EffectGrows(Replayed(t, init), Classify(e));
      assert forall i :: 0 <= i < |init| ==> init[i] == events[i];
    }
  }

  /** The event registers or removes this address. */
  predicate Touches(o: Result<Outcome, string>, address: string) {
    o.Success? && o.value.WatcherOutcome? && o.value.watcher.address == address
  }

  ghost predicate NoneTouches(events: seq<DecodedEvent>, address: string) {
    forall i :: 0 <= i < |events| ==> !Touches(Classify(events[i]), address)
  }

  ghost predicate SameWatcher(t: Tables, t': Tables, a: string) {
    && (a in t.watchers <==> a in t'.watchers)
    && (a in t.watchers ==> t.watchers[a] == t'.watchers[a])
  }

  lemma EffectElsewhere(t: Tables, o: Result<Outcome, string>, a: string)
    requires !Touches(o, a)
    ensures SameWatcher(t, Effect(t, o), a)
  {
    hide Effect;
    EffectFields(t, o);
  }

  lemma {:induction false} Untouched(t: Tables, events: seq<DecodedEvent>, a: string)
    requires NoneTouches(events, a)
    ensures SameWatcher(t, Replayed(t, events), a)
  {
    hide Classify;
    if events != [] {
      var init, e := events[..|events| - 1], events[|events| - 1];
      assert forall i :: 0 <= i < |init| ==> init[i] == events[i];
      Untouched(t, init, a);
      EffectElsewhere(Replayed(t, init), Classify(e), a);
    }
  }

  /** `t` is the one-pass result `full`, except that watchers touched by events still to be
      delivered again may carry an outdated removal mark. */
  ghost predicate CatchingUp(full: Tables, t: Tables, pending: seq<DecodedEvent>) {
    && t.checks == full.checks && t.slas == full.slas
    && t.settlements == full.settlements && t.lifecycle == full.lifecycle
    && t.watchers.Keys == full.watchers.Keys
    && (forall a :: a in full.watchers ==> t.watchers[a].registeredAt == full.watchers[a].registeredAt)
    && (forall a :: a in full.watchers && NoneTouches(pending, a) ==> t.watchers[a] == full.watchers[a])
  }

  lemma RedeliverOne(t0: Tables, before: seq<DecodedEvent>, e: DecodedEvent, pending: seq<DecodedEvent>, t: Tables)
    requires CatchingUp(Replayed(t0, before + [e] + pending), t, [e] + pending)
    ensures CatchingUp(Replayed(t0, before + [e] + pending), Step(t, e), pending)
  {
    hide Classify;
    var history := before + [e] + pending;
    var full, o := Replayed(t0, history), Classify(e);
    ReplayGrows(t0, history);
    assert Recorded(full, o) by {
      assert history[|before|] == e;
    }
    ReplayedConcat(t0, before + [e], pending);
    var mid := Replayed(t0, before + [e]);
    ReplayedSnoc(t0, before, e);
    EffectKeepsRecorded(t, full, o);
    forall a | a in full.watchers && NoneTouches(pending, a)
      ensures Effect(t, o).watchers[a] == full.watchers[a]
    {
      Untouched(mid, pending, a);
      if Touches(o, a) {
        MarkAfterTouch(Replayed(t0, before), o, a);
        MarkAfterTouch(t, o, a);
      } else {
        assert NoneTouches([e] + pending, a);
        EffectElsewhere(t, o, a);
      }
    }
  }

  /** Delivering an event whose row is already there leaves every table but the removal marks
      alone. */
  lemma EffectKeepsRecorded(t: Tables, full: Tables, o: Result<Outcome, string>)
    requires Recorded(full, o)
    requires t.checks == full.checks && t.slas == full.slas
    requires t.settlements == full.settlements && t.lifecycle == full.lifecycle
    requires t.watchers.Keys == full.watchers.Keys
    ensures var t' := Effect(t, o);
            && t'.checks == t.checks && t'.slas == t.slas
            && t'.settlements == t.settlements && t'.lifecycle == t.lifecycle
            && t'.watchers.Keys == t.watchers.Keys
            && forall a :: a in t.watchers ==> t'.watchers[a].registeredAt == t.watchers[a].registeredAt
  {
    hide Effect;
    EffectFields(t, o);
  }

  /** After an event for an address, the removal mark says what that event was. */
  lemma MarkAfterTouch(t: Tables, o: Result<Outcome, string>, a: string)
    requires Touches(o, a)
    ensures a in Effect(t, o).watchers ==>
              Effect(t, o).watchers[a].removedAt
              == if o.value.watcher.Registered? then None else Some(o.value.watcher.at)
  {
    hide Effect;
    EffectFields(t, o);
  }

  // ------------------------------------------------------ positions in a log

  /** Ingestion stands at `pos` after having been as far as `furthest`; `base` is where the
      first delivery began. */
  ghost predicate Standing(log: seq<DecodedEvent>, base: nat, pos: nat, furthest: nat, t: Tables) {
    && base <= pos <= furthest <= |log|
    && CatchingUp(Replayed(EMPTY_TABLES, log[base..furthest]), t, log[pos..furthest])
  }

  lemma StepBack(log: seq<DecodedEvent>, base: nat, pos: nat, furthest: nat, t: Tables, earlier: nat)
    requires Standing(log, base, pos, furthest, t) && base <= earlier <= pos
    ensures Standing(log, base, earlier, furthest, t)
  {
    hide Classify;
    var full, late, soon := Replayed(EMPTY_TABLES, log[base..furthest]), log[pos..furthest], log[earlier..furthest];
    forall a | a in full.watchers && NoneTouches(soon, a)
      ensures t.watchers[a] == full.watchers[a]
    {
      forall i | 0 <= i < |late|
        ensures !Touches(Classify(late[i]), a)
      {
        assert late[i] == soon[pos - earlier + i];
      }
    }
  }

  lemma {:induction false} Redeliver(t0: Tables, before: seq<DecodedEvent>, again: seq<DecodedEvent>,
                                     pending: seq<DecodedEvent>, t: Tables)
    requires CatchingUp(Replayed(t0, before + again + pending), t, again + pending)
    ensures CatchingUp(Replayed(t0, before + again + pending), Replayed(t, again), pending)
    decreases |again|
  {
    hide Classify;
    if again != [] {
      var init, e := again[..|again| - 1], again[|again| - 1];
      assert before + again + pending == before + init + ([e] + pending) == (before + init) + [e] + pending;
      assert again + pending == init + ([e] + pending);
      Redeliver(t0, before, init, [e] + pending, t);
      RedeliverOne(t0, before + init, e, pending, Replayed(t, init));
    } else {
      assert again + pending == pending;
    }
  }

  lemma Forward(log: seq<DecodedEvent>, base: nat, pos: nat, furthest: nat, t: Tables, end: nat)
    requires Standing(log, base, pos, furthest, t) && pos <= end <= furthest
    ensures Standing(log, base, end, furthest, Replayed(t, log[pos..end]))
  {
    hide Classify;
    assert log[base..pos] + log[pos..end] + log[end..furthest] == log[base..furthest];
    assert log[pos..end] + log[end..furthest] == log[pos..furthest];
    Redeliver(EMPTY_TABLES, log[base..pos], log[pos..end], log[end..furthest], t);
  }

  lemma CaughtUp(log: seq<DecodedEvent>, base: nat, furthest: nat, t: Tables)
    requires Standing(log, base, furthest, furthest, t)
    ensures t == Replayed(EMPTY_TABLES, log[base..furthest])
  {
    hide Classify;
    var full := Replayed(EMPTY_TABLES, log[base..furthest]);
    assert forall a :: NoneTouches(log[furthest..furthest], a);
    assert t.watchers == full.watchers;
  }

  /** From its furthest position, ingestion goes on as the one pass does. */
  lemma Beyond(log: seq<DecodedEvent>, base: nat, furthest: nat, t: Tables, end: nat)
    requires Standing(log, base, furthest, furthest, t) && furthest <= end <= |log|
    ensures Standing(log, base, end, end, Replayed(t, log[furthest..end]))
  {
    hide Classify, Effect;
    CaughtUp(log, base, furthest, t);
    assert log[base..end] == log[base..furthest] + log[furthest..end];
    ReplayedConcat(EMPTY_TABLES, log[base..furthest], log[furthest..end]);
  }

  /** One delivery of log[from..end], starting no later than where ingestion stands. */
  lemma Deliver(log: seq<DecodedEvent>, base: nat, pos: nat, furthest: nat, t: Tables, from: nat, end: nat)
    requires Standing(log, base, pos, furthest, t)
    requires base <= from <= pos && from <= end <= |log|
    ensures Standing(log, base, end, if end > furthest then end else furthest, Replayed(t, log[from..end]))
  {
    hide Classify, CatchingUp, Replayed;
    StepBack(log, base, pos, furthest, t, from);
    if end <= furthest {
      Forward(log, base, from, furthest, t, end);
    } else {
      Forward(log, base, from, furthest, t, furthest);
      Beyond(log, base, furthest, Replayed(t, log[from..furthest]), end);
      assert log[from..end] == log[from..furthest] + log[furthest..end];
      ReplayedConcat(t, log[from..furthest], log[furthest..end]);
    }
  }
}
