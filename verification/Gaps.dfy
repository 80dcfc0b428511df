/** Where the next cycle resumes, exactly when that leaves a gap, and that a gap is never closed
    by itself. */
module Gaps {
  import opened Wrappers
  import opened Arithmetic
  import opened Events
  import opened Store
  import opened Replay
  import opened Redelivery
  import opened Thresholds
  import opened Ingestion

  /** The first position the next cycle asks for, given what it would read as the tip. */
  function NextStart(d: Deployment, log: seq<DecodedEvent>, cp: Option<Checkpoint>, tip: int): Option<nat> {
    match ResumeCursor(d, cp, Some(tip)).value
    case FromLedger(l) => Some(FirstFrom(log, l))
    case AfterCursor(c) => PositionOf(c)
  }

  lemma {:induction false} FirstFromIs(log: seq<DecodedEvent>, ledger: int, p: nat)
    requires p <= |log|
    requires forall i :: 0 <= i < p ==> log[i].ledger < ledger
    requires p < |log| ==> log[p].ledger >= ledger
    ensures FirstFrom(log, ledger) == p
  {
    if p > 0 {
      assert log[0].ledger < ledger;
      FirstFromIs(log[1..], ledger, p - 1);
    }
  }

  /** Starting from a ledger misses nothing after `end` exactly when that ledger is not past the
      first event there. */
  lemma FirstFromAtMost(log: seq<DecodedEvent>, ledger: int, end: nat)
    requires SortedByLedger(log) && end <= |log|
    ensures FirstFrom(log, ledger) <= end <==> end == |log| || ledger <= log[end].ledger
  {
  }

  /** The worker goes on without a gap exactly when its response carried a cursor, or an older
      one was kept, or the page already reached the tip: with no cursor it resumes after the
      chain tip, not after the page. */
  lemma WorkerGap(start: int, log: seq<DecodedEvent>, db: DbState, env: Env, tip: int)
    returns (from: nat, end: nat, cp: Checkpoint)
    requires SortedByLedger(log) && Sees(log, env.rpc)
    requires var r := Cycle(Worker(start), log, db, env); r.Committed?
    requires Truthy(StoredCursor(db.checkpoint)) ==> PositionOf(StoredCursor(db.checkpoint).value).Some?
    ensures from <= end <= env.rpc.visible
    ensures Cycle(Worker(start), log, db, env).page.events == log[from..end]
    ensures Cycle(Worker(start), log, db, env).db.checkpoint == Some(cp)
    ensures var next := NextStart(Worker(start), log, Some(cp), tip);
            && next.Some?
            && (next.value <= end <==> Truthy(cp.lastCursor) || end == env.rpc.visible)
  {
    from, end := CommittedPage(Worker(start), log, db, env);
    cp := NextCheckpoint(Worker(start), db.checkpoint, Cycle(Worker(start), log, db, env).page);
    PositionOfCursorAt(end);
    FirstFromIs(log, env.rpc.latest + 1, env.rpc.visible);
  }

  /** The ledger a poller without a cursor restarts at. */
  function RestartLedger(startLedger: Option<int>, tip: int): int {
    if startLedger.Some? then startLedger.value else tip
  }

  /** The poller goes on without a gap exactly when its response carried a cursor, or the chain
      holds nothing after the page, or the restart ledger is at most that of the first event
      after it. For a page that reached what the node sees, restarting no later than the ledger
      after the node's tip is enough. */
  lemma PollerGap(startLedger: Option<int>, max: nat, log: seq<DecodedEvent>, db: DbState, env: Env, tip: int)
    returns (from: nat, end: nat, cp: Checkpoint)
    requires SortedByLedger(log) && Sees(log, env.rpc)
    requires Cycle(NodePoller(startLedger, max), log, db, env).Committed?
    ensures from <= end <= env.rpc.visible
    ensures Cycle(NodePoller(startLedger, max), log, db, env).page.events == log[from..end]
    ensures Cycle(NodePoller(startLedger, max), log, db, env).db.checkpoint == Some(cp)
    ensures var next, restart := NextStart(NodePoller(startLedger, max), log, Some(cp), tip), RestartLedger(startLedger, tip);
            && next.Some?
            && (next.value <= end <==> Truthy(cp.lastCursor) || end == |log| || restart <= log[end].ledger)
            && (end == env.rpc.visible && restart <= env.rpc.latest + 1 ==> next.value <= end)
  {
    from, end := CommittedPage(NodePoller(startLedger, max), log, db, env);
    cp := NextCheckpoint(NodePoller(startLedger, max), db.checkpoint,
                         Cycle(NodePoller(startLedger, max), log, db, env).page);
    PositionOfCursorAt(end);
    FirstFromAtMost(log, RestartLedger(startLedger, tip), end);
  }

  // ------------------------------------------------- what is skipped stays skipped

  /** The next request starts after position k, whatever it reads as the tip (for a poller
      without START_LEDGER: whenever that tip is past the event at k). */
  ghost predicate Passed(d: Deployment, log: seq<DecodedEvent>, cp: Option<Checkpoint>, k: nat)
    requires k < |log|
  {
    && cp.Some?
    && if Truthy(cp.value.lastCursor)
       then PositionOf(cp.value.lastCursor.value).Some? && PositionOf(cp.value.lastCursor.value).value > k
       else d.Worker? ==> cp.value.lastLedger != 0 && log[k].ledger <= cp.value.lastLedger
  }

  /** A turn of an honest node that clears no checkpoint, reading as the tip a ledger past k's. */
  ghost predicate Onward(d: Deployment, log: seq<DecodedEvent>, turn: Turn, k: nat)
    requires k < |log|
  {
    match turn
    case Ingest(env) => Sees(log, env.rpc) && (d.NodePoller? && env.tip.Some? ==> log[k].ledger < env.tip.value)
    case ClearCheckpoint => false
    case Fill(_, _) => true
  }

  predicate NoStart(d: Deployment) {
    d.Worker? || d.startLedger.None?
  }

  lemma PassedStart(d: Deployment, log: seq<DecodedEvent>, tr: Tracked, env: Env, k: nat)
    requires SortedByLedger(log) && k < |log| && NoStart(d)
    requires Passed(d, log, tr.db.checkpoint, k) && Onward(d, log, Ingest(env), k)
    requires Cycle(d, log, tr.db, env).Committed?
    ensures PageStart(d, log, tr.db, env) > k
  {
    CommittedTurn(d, log, tr, env);
    hide Cycle, Replayed;
  }

  lemma PassedCheckpoint(d: Deployment, log: seq<DecodedEvent>, cp: Option<Checkpoint>, env: Env, start: nat, end: nat, k: nat)
    requires k < start <= end <= env.rpc.visible && end <= |log|
    requires Sees(log, env.rpc) && Passed(d, log, cp, k)
    ensures var page := Page(log[start..end], env.rpc.latest, ResponseCursor(env.rpc.style, end));
            Passed(d, log, Some(NextCheckpoint(d, cp, page)), k)
  {
    PositionOfCursorAt(end);
    hide PositionOf, CursorAt;
    assert log[k].ledger <= env.rpc.latest;
  }

  lemma PassedStays(d: Deployment, log: seq<DecodedEvent>, tr: Tracked, turn: Turn, k: nat)
    requires SortedByLedger(log) && k < |log| && NoStart(d)
    requires Passed(d, log, tr.db.checkpoint, k) && Onward(d, log, turn, k)
    ensures Passed(d, log, TakeTurn(d, log, tr, turn).db.checkpoint, k)
  {
    hide Cycle, Replayed, Passed, Sees, SortedByLedger, NextCheckpoint, PageStart, PageEnd, StartOf, EndOf, ResumeCursor,
         ResponseCursor, CacheThreshold;
    match turn {
      case Ingest(env) =>
        if Cycle(d, log, tr.db, env).Committed? {
          PassedStart(d, log, tr, env, k);
          CommittedTurn(d, log, tr, env);
          PassedCheckpoint(d, log, tr.db.checkpoint, env, PageStart(d, log, tr.db, env), PageEnd(d, log, tr.db, env), k);
        }
      case Fill(slaId, threshold) =>
        CacheThresholdFills(tr.db, slaId, threshold);
    }
  }

  /** A place in the tables. */
  datatype RowKey =
    | WatcherAt(address: string)
    | CheckAt(eventId: string)
    | SlaAt(slaId: string)
    | SettlementAt(eventId: string)
    | LifecycleAt(eventId: string)

  datatype Row =
    | WatcherData(watcher: WatcherRow)
    | CheckData(check: CheckRow)
    | SlaData(sla: SlaRow)
    | SettlementData(settlement: SettlementRow)
    | LifecycleData(lifecycle: LifecycleRow)

  /** What is stored there, cached thresholds aside. */
  function RowAt(t: Tables, key: RowKey): Option<Row> {
    match key
    case WatcherAt(a) => if a in t.watchers then Some(WatcherData(t.watchers[a])) else None
    case CheckAt(id) => if id in t.checks then Some(CheckData(t.checks[id])) else None
    case SlaAt(id) => if id in t.slas then Some(SlaData(t.slas[id].(quorumThreshold := None))) else None
    case SettlementAt(id) =>
      if id in t.settlements then Some(SettlementData(t.settlements[id].(quorumThreshold := None))) else None
    case LifecycleAt(id) => if id in t.lifecycle then Some(LifecycleData(t.lifecycle[id])) else None
  }

  lemma SameWatchers(t: Tables, t': Tables)
    requires forall key :: RowAt(t, key) == RowAt(t', key)
    ensures t.watchers == t'.watchers
  {
    forall id
      ensures (id in t.watchers <==> id in t'.watchers) && (id in t.watchers ==> t.watchers[id] == t'.watchers[id])
    {
      assert RowAt(t, WatcherAt(id)) == RowAt(t', WatcherAt(id));
    }
  }

  lemma SameChecks(t: Tables, t': Tables)
    requires forall key :: RowAt(t, key) == RowAt(t', key)
    ensures t.checks == t'.checks && t.lifecycle == t'.lifecycle
  {
    forall id
      ensures (id in t.checks <==> id in t'.checks) && (id in t.checks ==> t.checks[id] == t'.checks[id])
      ensures (id in t.lifecycle <==> id in t'.lifecycle) && (id in t.lifecycle ==> t.lifecycle[id] == t'.lifecycle[id])
    {
      assert RowAt(t, CheckAt(id)) == RowAt(t', CheckAt(id));
      assert RowAt(t, LifecycleAt(id)) == RowAt(t', LifecycleAt(id));
    }
  }

  lemma SameThresholdedRows(t: Tables, t': Tables)
    requires forall key :: RowAt(t, key) == RowAt(t', key)
    ensures SameSlas(t.slas, t'.slas) && SameSettlements(t.settlements, t'.settlements)
  {
    forall id
      ensures id in t.slas <==> id in t'.slas
      ensures id in t.slas ==> t.slas[id].(quorumThreshold := None) == t'.slas[id].(quorumThreshold := None)
      ensures id in t.settlements <==> id in t'.settlements
      ensures id in t.settlements ==>
                t.settlements[id].(quorumThreshold := None) == t'.settlements[id].(quorumThreshold := None)
    {
      assert RowAt(t, SlaAt(id)) == RowAt(t', SlaAt(id));
      assert RowAt(t, SettlementAt(id)) == RowAt(t', SettlementAt(id));
    }
  }

  /** The places hold everything: tables with the same rows everywhere are the same, but for cached
      thresholds. */
  lemma RowsDetermineTables(t: Tables, t': Tables)
    requires forall key :: RowAt(t, key) == RowAt(t', key)
    ensures SameButThresholds(t, t')
  {
    SameWatchers(t, t');
    SameChecks(t, t');
    SameThresholdedRows(t, t');
    hide RowAt, SameSlas, SameSettlements;
  }

  /** The place an outcome writes. */
  function KeyOf(o: Result<Outcome, string>): Option<RowKey> {
    match o
    case Success(WatcherOutcome(w)) => Some(WatcherAt(w.address))
    case Success(CheckOutcome(c)) => Some(CheckAt(c.eventId))
    case Success(SlaOutcome(s)) => Some(SlaAt(s.slaId))
    case Success(SettlementOutcome(s)) => Some(SettlementAt(s.eventId))
    case Success(LifecycleOutcome(l)) => Some(LifecycleAt(l.eventId))
    case _ => None
  }

  lemma EffectAt(t: Tables, o: Result<Outcome, string>, key: RowKey)
    requires KeyOf(o) != Some(key)
    ensures RowAt(Effect(t, o), key) == RowAt(t, key)
  {
    EffectFields(t, o);
    hide Effect;
  }

  lemma {:induction false} ReplayedAt(t: Tables, events: seq<DecodedEvent>, key: RowKey)
    requires forall i :: 0 <= i < |events| ==> KeyOf(Classify(events[i])) != Some(key)
    ensures RowAt(Replayed(t, events), key) == RowAt(t, key)
  {
    hide Classify, RowAt, KeyOf, Effect;
    if events != [] {
      var init, e := events[..|events| - 1], events[|events| - 1];
      assert forall i :: 0 <= i < |init| ==> init[i] == events[i];
      ReplayedAt(t, init, key);
      EffectAt(Replayed(t, init), Classify(e), key);
    }
  }

  lemma FilledAt(t: Tables, slaId: string, threshold: int, key: RowKey)
    ensures RowAt(Filled(t, slaId, threshold), key) == RowAt(t, key)
  {
  }

  /** No event after k writes this place. */
  ghost predicate NoneLater(log: seq<DecodedEvent>, k: nat, key: RowKey) {
    forall i :: k < i < |log| ==> KeyOf(Classify(log[i])) != Some(key)
  }

  lemma PageElsewhere(log: seq<DecodedEvent>, start: nat, end: nat, k: nat, key: RowKey, t: Tables)
    requires NoneLater(log, k, key) && k < start <= end <= |log|
    ensures RowAt(Replayed(t, log[start..end]), key) == RowAt(t, key)
  {
    hide Classify, Replayed, RowAt, KeyOf;
    var page := log[start..end];
    assert forall i :: 0 <= i < |page| ==> page[i] == log[start + i];
    ReplayedAt(t, page, key);
  }

  lemma PassedElsewhere(d: Deployment, log: seq<DecodedEvent>, tr: Tracked, turn: Turn, k: nat, key: RowKey)
    requires SortedByLedger(log) && k < |log| && NoStart(d) && NoneLater(log, k, key)
    requires Passed(d, log, tr.db.checkpoint, k) && Onward(d, log, turn, k)
    ensures RowAt(TakeTurn(d, log, tr, turn).db.tables, key) == RowAt(tr.db.tables, key)
  {
    hide Cycle, Replayed, Passed, Sees, SortedByLedger, NextCheckpoint, PageStart, PageEnd, StartOf, EndOf, ResumeCursor,
         ResponseCursor, CacheThreshold, NoneLater, RowAt, OverwriteThreshold, FillNullThresholds;
    match turn {
      case Fill(slaId, threshold) =>
        CacheThresholdFills(tr.db, slaId, threshold);
        FilledAt(tr.db.tables, slaId, threshold, key);
      case Ingest(env) =>
        if Cycle(d, log, tr.db, env).Committed? {
          PassedStart(d, log, tr, env, k);
          CommittedTurn(d, log, tr, env);
          PageElsewhere(log, PageStart(d, log, tr.db, env), PageEnd(d, log, tr.db, env), k, key, tr.db.tables);
        }
    }
  }

  /** What a cycle skipped stays skipped: once the next request starts after an event, no
      continuation without a cleared checkpoint writes what it would have written. Whatever place of
      whatever table no later event writes stays as it is, absent rows included. */
  lemma {:induction false} SkippedForGood(d: Deployment, log: seq<DecodedEvent>, tr: Tracked, turns: seq<Turn>, k: nat,
                                          key: RowKey)
    requires SortedByLedger(log) && k < |log| && NoStart(d) && NoneLater(log, k, key)
    requires Passed(d, log, tr.db.checkpoint, k)
    requires forall i :: 0 <= i < |turns| ==> Onward(d, log, turns[i], k)
    ensures Passed(d, log, Run(d, log, tr, turns).db.checkpoint, k)
    ensures RowAt(Run(d, log, tr, turns).db.tables, key) == RowAt(tr.db.tables, key)
    decreases |turns|
  {
    if turns != [] {
      var init, last := turns[..|turns| - 1], turns[|turns| - 1];
      SkippedForGood(d, log, tr, init, k, key);
      hide Passed, NoneLater, TakeTurn, Onward, RowAt;
      PassedStays(d, log, Run(d, log, tr, init), last, k);
      PassedElsewhere(d, log, Run(d, log, tr, init), last, k, key);
    }
  }

  // ------------------------------------------------------------ two runs that skip

  /** Two registrations, one after the other. */
  function TwoRegistrations(first: int, second: int): seq<DecodedEvent> {
    var name := "watcher_registered";
    [DecodedEvent("1", first, "t1", "tx1", "c", Some(name), [Text(name), Text("A")], Record(map[])),
     DecodedEvent("2", second, "t2", "tx2", "c", Some(name), [Text(name), Text("B")], Record(map[]))]
  }

  lemma BothRegistered(first: int, second: int)
    ensures var log := TwoRegistrations(first, second);
            && Classify(log[0]) == Success(WatcherOutcome(Registered("A", "t1")))
            && Classify(log[1]) == Success(WatcherOutcome(Registered("B", "t2")))
            && AllClassifiable(log)
            && "B" in Replayed(EMPTY_TABLES, log).watchers
            && Replayed(EMPTY_TABLES, log[..1]).watchers.Keys == {"A"}
  {
    var log := TwoRegistrations(first, second);
    assert Classify(log[0]) == Success(WatcherOutcome(Registered("A", "t1")));
    assert Classify(log[1]) == Success(WatcherOutcome(Registered("B", "t2")));
    hide Classify, Effect;
    assert "A" != "B" by {
      assert "A"[0] != "B"[0];
    }
    assert log[..1][..0] == [] && log[..1][0] == log[0];
    EffectFields(EMPTY_TABLES, Classify(log[0]));
    assert Replayed(EMPTY_TABLES, log[..1]) == Step(EMPTY_TABLES, log[0]);
    EffectFields(Replayed(EMPTY_TABLES, log[..1]), Classify(log[1]));
    assert Replayed(EMPTY_TABLES, log) == Step(Replayed(EMPTY_TABLES, log[..1]), log[1]);
  }

  /** A first cycle that starts at the beginning and stores one event. */
  lemma FirstPageCommits(d: Deployment, log: seq<DecodedEvent>, env: Env)
    requires |log| == 2 && Classifiable(log[0]) && env.rpc.up && (forall k: nat :: !env.faults(k))
    requires env.tip.Some? && ResumeCursor(d, None, env.tip).value.FromLedger?
    requires var l := ResumeCursor(d, None, env.tip).value.startLedger; l <= env.rpc.latest && FirstFrom(log, l) == 0
    requires Min(Min(env.rpc.visible, 2), Min(LimitOf(d), env.rpc.scan)) == 1
    ensures Cycle(d, log, Unused(0).db, env).Committed?
    ensures TakeTurn(d, log, Unused(0), Ingest(env)).db ==
            DbState(Some(NextCheckpoint(d, None, Page(log[..1], env.rpc.latest, ResponseCursor(env.rpc.style, 1)))),
                    Replayed(EMPTY_TABLES, log[..1]))
  {
    hide Classify, Applied, BatchStatements, FirstFrom, Replayed, TakeTurn, NextCheckpoint, ResponseCursor, BatchOf;
    var page := GetEvents(log, env.rpc, ResumeCursor(d, None, env.tip).value, LimitOf(d)).value;
    assert page.events == log[0..1];
    assert AllClassifiable(page.events);
    CommittedTurn(d, log, Unused(0), env);
    assert log[0..1] == log[..1];
  }

  /** After a first cycle at this node, with the second registration passed by, no continuation
      records it. */
  lemma FirstPageThenLost(d: Deployment, log: seq<DecodedEvent>, env: Env, turns: seq<Turn>, first: int, second: int)
    requires log == TwoRegistrations(first, second) && first <= second && NoStart(d)
    requires env.rpc.up && (forall k: nat :: !env.faults(k))
    requires env.tip.Some? && ResumeCursor(d, None, env.tip).value.FromLedger?
    requires ResumeCursor(d, None, env.tip).value.startLedger <= first <= env.rpc.latest
    requires Min(Min(env.rpc.visible, 2), Min(LimitOf(d), env.rpc.scan)) == 1
    requires var page := Page(log[..1], env.rpc.latest, ResponseCursor(env.rpc.style, 1));
             Passed(d, log, Some(NextCheckpoint(d, None, page)), 1)
    ensures SortedByLedger(log) && "B" in Replayed(EMPTY_TABLES, log).watchers
    ensures Cycle(d, log, Unused(0).db, env).Committed?
    ensures (forall i :: 0 <= i < |turns| ==> Onward(d, log, turns[i], 1)) ==>
              "B" !in Run(d, log, Unused(0), [Ingest(env)] + turns).db.tables.watchers
  {
    FirstFromIs(log, ResumeCursor(d, None, env.tip).value.startLedger, 0);
    BothRegistered(first, second);
    FirstPageCommits(d, log, env);
    hide Cycle, TakeTurn, Run, Replayed, Passed, ResumeCursor, NextCheckpoint, FirstFrom, Onward;
    if forall i :: 0 <= i < |turns| ==> Onward(d, log, turns[i], 1) {
      SkippedForGood(d, log, TakeTurn(d, log, Unused(0), Ingest(env)), turns, 1, WatcherAt("B"));
      RunOn(d, log, Unused(0), Ingest(env), turns);
    }
  }

  /** A node whose page ends between two events of one ledger, with a blank cursor. */
  const SHORT_PAGE := Env(RpcNode(true, 2, 7, 1, Blank), Some(7), _ => false)

  /** A node that has seen the first of two events, and answers with a blank cursor. */
  const EARLY_LOOK := Env(RpcNode(true, 1, 5, 50, Blank), Some(5), _ => false)

  /** A worker that skips: two registrations close in one ledger, the node returns the first with
      a blank cursor, and whatever the worker does from then on, the second is never recorded. */
  lemma WorkerCanSkip(turns: seq<Turn>)
    ensures var log := TwoRegistrations(7, 7);
            && SortedByLedger(log) && Sees(log, SHORT_PAGE.rpc)
            && "B" in Replayed(EMPTY_TABLES, log).watchers
            && Cycle(Worker(1), log, Unused(0).db, SHORT_PAGE).Committed?
            && ((forall i :: 0 <= i < |turns| ==> Onward(Worker(1), log, turns[i], 1)) ==>
                  "B" !in Run(Worker(1), log, Unused(0), [Ingest(SHORT_PAGE)] + turns).db.tables.watchers)
  {
    hide Cycle, TakeTurn, Run, Replayed, Onward;
    FirstPageThenLost(Worker(1), TwoRegistrations(7, 7), SHORT_PAGE, turns, 7, 7);
  }

  /** A poller without START_LEDGER that skips: it stores the first registration with a blank
      cursor, and the tips it reads afterwards are past the ledger of the second. */
  lemma PollerCanSkip(turns: seq<Turn>)
    ensures var log, poller := TwoRegistrations(5, 6), NodePoller(None, 50);
            && SortedByLedger(log) && Sees(log, EARLY_LOOK.rpc)
            && "B" in Replayed(EMPTY_TABLES, log).watchers
            && Cycle(poller, log, Unused(0).db, EARLY_LOOK).Committed?
            && ((forall i :: 0 <= i < |turns| ==> Onward(poller, log, turns[i], 1)) ==>
                  "B" !in Run(poller, log, Unused(0), [Ingest(EARLY_LOOK)] + turns).db.tables.watchers)
  {
    hide Cycle, TakeTurn, Run, Replayed, Onward;
    FirstPageThenLost(NodePoller(None, 50), TwoRegistrations(5, 6), EARLY_LOOK, turns, 5, 6);
  }
}
