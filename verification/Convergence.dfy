/** Whole runs of ingestion: what every gap-free run converges to, which runs are gap-free, and
    how many undisturbed cycles it takes to reach the end of the log. */
module Convergence {
  import opened Wrappers
  import opened Arithmetic
  import opened Sequences
  import opened Events
  import opened Store
  import opened Replay
  import opened Redelivery
  import opened Thresholds
  import opened Ingestion
  import opened Gaps

  // --------------------------------------------------------------- gap-free runs

  /** The turn leaves nothing out: a committed page starts no later than where the last one
      ended, and not before the first delivery of all. */
  ghost predicate GapFree(d: Deployment, log: seq<DecodedEvent>, base: nat, tr: Tracked, turn: Turn) {
    turn.Ingest? && Cycle(d, log, tr.db, turn.env).Committed? ==>
      base <= PageStart(d, log, tr.db, turn.env) <= tr.pos
  }

  /** Every turn of the run is gap-free where it is taken, and fills in the SLA's own
      threshold. */
  ghost predicate GapFreeRun(d: Deployment, log: seq<DecodedEvent>, base: nat, tr: Tracked, turns: seq<Turn>, q: Quorum) {
    turns != [] ==>
      var init, last := turns[..|turns| - 1], turns[|turns| - 1];
      && GapFreeRun(d, log, base, tr, init, q) && GapFree(d, log, base, Run(d, log, tr, init), last)
      && (last.Fill? ==> last.threshold == q(last.slaId))
  }

  predicate NoFills(turns: seq<Turn>) {
    forall i :: 0 <= i < |turns| ==> !turns[i].Fill?
  }

  predicate ClassifiableFrom(log: seq<DecodedEvent>, base: nat, end: nat) {
    forall i :: base <= i < end && i < |log| ==> Classifiable(log[i])
  }

  /** What holds after every turn. `shadow` are the tables of the same run without the lazy
      threshold fills. */
  ghost predicate RunInv(log: seq<DecodedEvent>, base: nat, tr: Tracked, shadow: Tables, q: Quorum) {
    && Standing(log, base, tr.pos, tr.furthest, shadow)
    && SameButThresholds(tr.db.tables, shadow)
    && Truthful(tr.db.tables, q)
    && ClassifiableFrom(log, base, tr.furthest)
  }

  lemma DeliverShadow(log: seq<DecodedEvent>, base: nat, tr: Tracked, shadow: Tables, q: Quorum, start: nat, end: nat)
    returns (shadow': Tables)
    requires Standing(log, base, tr.pos, tr.furthest, shadow)
    requires SameButThresholds(tr.db.tables, shadow) && Truthful(tr.db.tables, q) && EventsAgree(log, q)
    requires base <= start <= tr.pos && start <= end <= |log|
    ensures Standing(log, base, end, Max(tr.furthest, end), shadow')
    ensures var tables := Replayed(tr.db.tables, log[start..end]);
            && SameButThresholds(tables, shadow')
            && Truthful(tables, q) && KeepsThresholds(tr.db.tables, tables)
            && (tr.db.tables == shadow ==> tables == shadow')
  {
    hide Classify, CatchingUp, SameButThresholds, Replayed;
    shadow' := Replayed(shadow, log[start..end]);
    Deliver(log, base, tr.pos, tr.furthest, shadow, start, end);
    ReplayIgnoresThresholds(tr.db.tables, shadow, log[start..end]);
    AgreeWithin(log, q, start, end);
    ReplayTruthful(tr.db.tables, log[start..end], q);
  }

  lemma AgreeWithin(log: seq<DecodedEvent>, q: Quorum, start: nat, end: nat)
    requires EventsAgree(log, q) && start <= end <= |log|
    ensures EventsAgree(log[start..end], q)
  {
    hide Classify;
  }

  lemma CommittedClassifiable(d: Deployment, log: seq<DecodedEvent>, tr: Tracked, env: Env)
    requires Cycle(d, log, tr.db, env).Committed?
    ensures ClassifiableFrom(log, PageStart(d, log, tr.db, env), PageEnd(d, log, tr.db, env))
  {
    hide Classifiable, Applied, BatchStatements;
    CommittedTurn(d, log, tr, env);
    var start, end := PageStart(d, log, tr.db, env), PageEnd(d, log, tr.db, env);
    var page := log[start..end];
    assert AllClassifiable(page);
    forall i | start <= i < end
      ensures Classifiable(log[i])
    {
      assert page[i - start] == log[i];
    }
  }

  lemma TurnKeeps(d: Deployment, log: seq<DecodedEvent>, base: nat, tr: Tracked, shadow: Tables, q: Quorum, turn: Turn)
    returns (shadow': Tables)
    requires RunInv(log, base, tr, shadow, q) && EventsAgree(log, q)
    requires GapFree(d, log, base, tr, turn)
    requires turn.Fill? ==> turn.threshold == q(turn.slaId)
    ensures RunInv(log, base, TakeTurn(d, log, tr, turn), shadow', q)
    ensures !turn.Fill? && tr.db.tables == shadow ==> TakeTurn(d, log, tr, turn).db.tables == shadow'
    ensures KeepsThresholds(tr.db.tables, TakeTurn(d, log, tr, turn).db.tables)
    ensures tr.furthest <= TakeTurn(d, log, tr, turn).furthest
  {
    match turn {
      case Ingest(env) =>
        if Cycle(d, log, tr.db, env) == Failed {
          shadow' := shadow;
        } else {
          CommittedTurn(d, log, tr, env);
          CommittedClassifiable(d, log, tr, env);
          hide Cycle, TakeTurn, PageStart, PageEnd, Replayed, SameButThresholds, Truthful, CatchingUp, Classifiable;
          shadow' := DeliverShadow(log, base, tr, shadow, q, PageStart(d, log, tr.db, env), PageEnd(d, log, tr.db, env));
        }
      case ClearCheckpoint => shadow' := shadow;
      case Fill(slaId, threshold) =>
        shadow' := shadow;
        CacheThresholdFills(tr.db, slaId, threshold);
        FillInvisible(tr.db.tables, shadow, slaId, threshold);
        FillTruthful(tr.db.tables, slaId, q);
    }
  }

  lemma KeepsTransitive(t: Tables, t': Tables, t'': Tables)
    requires KeepsThresholds(t, t') && KeepsThresholds(t', t'')
    ensures KeepsThresholds(t, t'')
  {
  }

  lemma {:induction false} RunKeeps(d: Deployment, log: seq<DecodedEvent>, base: nat, tr: Tracked, turns: seq<Turn>, q: Quorum)
    returns (shadow: Tables)
    requires RunInv(log, base, tr, tr.db.tables, q) && EventsAgree(log, q)
    requires GapFreeRun(d, log, base, tr, turns, q)
    ensures RunInv(log, base, Run(d, log, tr, turns), shadow, q)
    ensures NoFills(turns) ==> Run(d, log, tr, turns).db.tables == shadow
    ensures KeepsThresholds(tr.db.tables, Run(d, log, tr, turns).db.tables)
    decreases |turns|
  {
    if turns == [] {
      shadow := tr.db.tables;
    } else {
      var init, last := turns[..|turns| - 1], turns[|turns| - 1];
      assert NoFills(turns) ==> NoFills(init) && !last.Fill?;
      var before := RunKeeps(d, log, base, tr, init, q);
      hide RunInv, GapFree, TakeTurn, KeepsThresholds, GapFreeRun, EventsAgree;
      var mid := Run(d, log, tr, init);
      shadow := TurnKeeps(d, log, base, mid, before, q, last);
      KeepsTransitive(tr.db.tables, mid.db.tables, TakeTurn(d, log, mid, last).db.tables);
    }
  }

  lemma UnusedInv(log: seq<DecodedEvent>, base: nat, q: Quorum)
    requires base <= |log|
    ensures RunInv(log, base, Unused(base), EMPTY_TABLES, q)
  {
    assert log[base..base] == [];
  }

  /** The tables are those of one in-order pass over log[base..end], up to thresholds filled in
      when there were fills. */
  ghost predicate OnePass(log: seq<DecodedEvent>, base: nat, end: nat, t: Tables, fills: bool) {
    && base <= end <= |log|
    && SameButThresholds(t, Replayed(EMPTY_TABLES, log[base..end]))
    && (!fills ==> t == Replayed(EMPTY_TABLES, log[base..end]))
  }

  lemma InvMeans(log: seq<DecodedEvent>, base: nat, tr: Tracked, shadow: Tables, q: Quorum, fills: bool)
    requires RunInv(log, base, tr, shadow, q) && (!fills ==> tr.db.tables == shadow)
    ensures base <= tr.pos <= tr.furthest <= |log|
    ensures Truthful(tr.db.tables, q) && ClassifiableFrom(log, base, tr.furthest)
    ensures tr.pos == tr.furthest ==> OnePass(log, base, tr.furthest, tr.db.tables, fills)
  {
    hide CatchingUp, Truthful, SameButThresholds, Replayed, Classifiable;
    if tr.pos == tr.furthest {
      CaughtUp(log, base, tr.furthest, shadow);
    }
  }

  /** At-least-once delivery converges. For every gap-free run of committed cycles, failed cycles,
      restarts and lazy threshold fills, in either deployment: whenever ingestion stands at its
      furthest position, the tables are those of a single in-order pass over the log, up to
      thresholds that the fills supplied; every stored threshold is the SLA's own; and no event
      the classifier throws on has been passed. */
  lemma Converges(d: Deployment, log: seq<DecodedEvent>, base: nat, turns: seq<Turn>, q: Quorum)
    requires base <= |log| && EventsAgree(log, q)
    requires GapFreeRun(d, log, base, Unused(base), turns, q)
    ensures var end := Run(d, log, Unused(base), turns);
            && base <= end.pos <= end.furthest <= |log|
            && Truthful(end.db.tables, q) && ClassifiableFrom(log, base, end.furthest)
            && (end.pos == end.furthest ==> OnePass(log, base, end.furthest, end.db.tables, !NoFills(turns)))
  {
    hide *;
    UnusedInv(log, base, q);
    UnusedTables(base);
    var shadow := RunKeeps(d, log, base, Unused(base), turns, q);
    InvMeans(log, base, Run(d, log, Unused(base), turns), shadow, q, !NoFills(turns));
  }

  lemma UnusedTables(base: nat)
    ensures Unused(base).db.tables == EMPTY_TABLES
  {
  }

  // ------------------------------------------------------ which runs are gap-free

  predicate HasStart(d: Deployment) {
    d.Worker? || d.startLedger.Some?
  }

  function StartLedgerOf(d: Deployment): int
    requires HasStart(d)
  {
    match d
    case NodePoller(s, _) => s.value
    case Worker(s) => s
  }

  /** A committed cycle that leaves no gap behind it, told from the node's answer: it carried a
      cursor; or the restart ledger is fixed; or the worker keeps an older cursor; or the worker's
      page reached everything the node sees. By WorkerGap no other worker cycle is without one. */
  ghost predicate Safe(d: Deployment, log: seq<DecodedEvent>, tr: Tracked, turn: Turn) {
    turn.Ingest? ==>
      && Sees(log, turn.env.rpc)
      && (Cycle(d, log, tr.db, turn.env).Committed? ==>
            || turn.env.rpc.style == AtPageEnd
            || d.NodePoller?
            || (turn.env.rpc.style == Missing && Truthy(StoredCursor(tr.db.checkpoint)))
            || PageEnd(d, log, tr.db, turn.env) == turn.env.rpc.visible)
  }

  ghost predicate SafeRun(d: Deployment, log: seq<DecodedEvent>, tr: Tracked, turns: seq<Turn>, q: Quorum) {
    turns != [] ==>
      var init, last := turns[..|turns| - 1], turns[|turns| - 1];
      && SafeRun(d, log, tr, init, q) && Safe(d, log, Run(d, log, tr, init), last)
      && (last.Fill? ==> last.threshold == q(last.slaId))
  }

  /** The next request, reading this tip, starts no later than where the last page ended. */
  ghost predicate ResumesAt(d: Deployment, log: seq<DecodedEvent>, base: nat, tr: Tracked, tip: int) {
    var next := NextStart(d, log, tr.db.checkpoint, tip);
    next.Some? && base <= next.value <= tr.pos
  }

  ghost predicate Resumes(d: Deployment, log: seq<DecodedEvent>, base: nat, tr: Tracked) {
    forall tip :: ResumesAt(d, log, base, tr, tip)
  }

  lemma NextIsStart(d: Deployment, log: seq<DecodedEvent>, tr: Tracked, env: Env)
    requires Cycle(d, log, tr.db, env).Committed?
    ensures exists tip :: NextStart(d, log, tr.db.checkpoint, tip) == Some(PageStart(d, log, tr.db, env))
  {
    CommittedTurn(d, log, tr, env);
    hide Cycle, Replayed, TakeTurn;
    var tip := if env.tip.Some? then env.tip.value else 0;
    assert NextStart(d, log, tr.db.checkpoint, tip) == Some(PageStart(d, log, tr.db, env));
  }

  lemma SafePage(d: Deployment, log: seq<DecodedEvent>, base: nat, tr: Tracked, env: Env)
    requires HasStart(d) && base == FirstFrom(log, StartLedgerOf(d))
    requires Cycle(d, log, tr.db, env).Committed? && Safe(d, log, tr, Ingest(env))
    requires base <= PageStart(d, log, tr.db, env)
    ensures var tr' := TakeTurn(d, log, tr, Ingest(env)); base <= tr'.pos && Resumes(d, log, base, tr')
  {
    CommittedTurn(d, log, tr, env);
    if Truthy(StoredCursor(tr.db.checkpoint)) {
      CursorWasStart(d, log, tr, env);
    }
    hide Cycle, TakeTurn, Replayed, NextCheckpoint, NextStart, PageStart, PageEnd, ResponseCursor, FirstFrom, Sees, StartOf,
         EndOf, PositionOf, ResumeCursor;
    var start, end, tr' := PageStart(d, log, tr.db, env), PageEnd(d, log, tr.db, env), TakeTurn(d, log, tr, Ingest(env));
    forall tip
      ensures ResumesAt(d, log, base, tr', tip)
    {
      SafeCheckpoint(d, log, base, tr.db.checkpoint, env, start, end, tip);
    }
  }

  lemma CursorWasStart(d: Deployment, log: seq<DecodedEvent>, tr: Tracked, env: Env)
    requires Cycle(d, log, tr.db, env).Committed? && Truthy(StoredCursor(tr.db.checkpoint))
    ensures PositionOf(StoredCursor(tr.db.checkpoint).value) == Some(PageStart(d, log, tr.db, env))
  {
    CommittedTurn(d, log, tr, env);
    hide Cycle, TakeTurn, Replayed, NextCheckpoint, PositionOf;
  }

  lemma SafeTurn(d: Deployment, log: seq<DecodedEvent>, base: nat, tr: Tracked, turn: Turn)
    requires HasStart(d) && base == FirstFrom(log, StartLedgerOf(d)) && base <= tr.pos
    requires Resumes(d, log, base, tr) && Safe(d, log, tr, turn)
    ensures GapFree(d, log, base, tr, turn)
    ensures base <= TakeTurn(d, log, tr, turn).pos && Resumes(d, log, base, TakeTurn(d, log, tr, turn))
  {
    match turn {
      case Ingest(env) =>
        if Cycle(d, log, tr.db, env).Committed? {
          NextIsStart(d, log, tr, env);
          var tip :| NextStart(d, log, tr.db.checkpoint, tip) == Some(PageStart(d, log, tr.db, env));
          assert ResumesAt(d, log, base, tr, tip);
          SafePage(d, log, base, tr, env);
        }
      case ClearCheckpoint =>
        var tr' := TakeTurn(d, log, tr, turn);
        forall tip
          ensures ResumesAt(d, log, base, tr', tip)
        {
        }
      case Fill(slaId, threshold) =>
        CacheThresholdFills(tr.db, slaId, threshold);
        var tr' := TakeTurn(d, log, tr, turn);
        forall tip
          ensures ResumesAt(d, log, base, tr', tip)
        {
          assert ResumesAt(d, log, base, tr, tip);
        }
    }
  }

  lemma AfterTip(log: seq<DecodedEvent>, rpc: RpcNode)
    requires Sees(log, rpc)
    ensures rpc.latest >= 1 && FirstFrom(log, rpc.latest + 1) == rpc.visible
  {
    FirstFromIs(log, rpc.latest + 1, rpc.visible);
  }

  /** The same, of the checkpoint alone. */
  lemma SafeCheckpoint(d: Deployment, log: seq<DecodedEvent>, base: nat, cp: Option<Checkpoint>, env: Env,
                       start: nat, end: nat, tip: int)
    requires HasStart(d) && base == FirstFrom(log, StartLedgerOf(d)) && Sees(log, env.rpc)
    requires base <= start <= end <= env.rpc.visible && end <= |log|
    requires Truthy(StoredCursor(cp)) ==> PositionOf(StoredCursor(cp).value) == Some(start)
    requires || env.rpc.style == AtPageEnd || d.NodePoller?
             || (env.rpc.style == Missing && Truthy(StoredCursor(cp)))
             || end == env.rpc.visible
    ensures var page := Page(log[start..end], env.rpc.latest, ResponseCursor(env.rpc.style, end));
            var next := NextStart(d, log, Some(NextCheckpoint(d, cp, page)), tip);
            next.Some? && base <= next.value <= end
  {
    hide FirstFrom, Sees, PositionOf, CursorAt;
    PositionOfCursorAt(end);
    AfterTip(log, env.rpc);
  }

  /** With a fixed start, every safe run is gap-free, and so is any cycle after it. */
  lemma {:induction false} SafeIsGapFree(d: Deployment, log: seq<DecodedEvent>, turns: seq<Turn>, q: Quorum)
    requires HasStart(d)
    requires SafeRun(d, log, Unused(FirstFrom(log, StartLedgerOf(d))), turns, q)
    ensures var base := FirstFrom(log, StartLedgerOf(d));
            && GapFreeRun(d, log, base, Unused(base), turns, q)
            && base <= Run(d, log, Unused(base), turns).pos
            && Resumes(d, log, base, Run(d, log, Unused(base), turns))
    decreases |turns|
  {
    var base := FirstFrom(log, StartLedgerOf(d));
    if turns == [] {
      forall tip
        ensures ResumesAt(d, log, base, Unused(base), tip)
      {
      }
    } else {
      var init, last := turns[..|turns| - 1], turns[|turns| - 1];
      SafeIsGapFree(d, log, init, q);
      hide Resumes, Safe, GapFree, TakeTurn, FirstFrom;
      SafeTurn(d, log, base, Run(d, log, Unused(base), init), last);
    }
  }

  /** Converges, told from the nodes' answers, for the worker and for a poller with START_LEDGER. */
  lemma SafeRunsConverge(d: Deployment, log: seq<DecodedEvent>, turns: seq<Turn>, q: Quorum)
    requires HasStart(d) && EventsAgree(log, q)
    requires SafeRun(d, log, Unused(FirstFrom(log, StartLedgerOf(d))), turns, q)
    ensures var base := FirstFrom(log, StartLedgerOf(d));
            var end := Run(d, log, Unused(base), turns);
            && base <= end.pos <= end.furthest <= |log|
            && Truthful(end.db.tables, q)
            && (end.pos == end.furthest ==> OnePass(log, base, end.furthest, end.db.tables, !NoFills(turns)))
  {
    hide SafeRun, GapFreeRun, Run, OnePass, Truthful, Resumes, EventsAgree;
    SafeIsGapFree(d, log, turns, q);
    Converges(d, log, FirstFrom(log, StartLedgerOf(d)), turns, q);
  }

  /** A poller without START_LEDGER begins at the tip its first cycle reads; from there, the same
      holds as long as no later cycle starts past the page before it, for which PollerGap tells
      the exact condition on its tip. */
  lemma ConvergesFromTip(max: nat, log: seq<DecodedEvent>, first: Env, turns: seq<Turn>, q: Quorum)
    requires EventsAgree(log, q) && first.tip.Some?
    requires Cycle(NodePoller(None, max), log, DbState(None, EMPTY_TABLES), first).Committed?
    requires var d, base := NodePoller(None, max), FirstFrom(log, first.tip.value);
             GapFreeRun(d, log, base, TakeTurn(d, log, Unused(base), Ingest(first)), turns, q)
    ensures var d, base := NodePoller(None, max), FirstFrom(log, first.tip.value);
            var end := Run(d, log, TakeTurn(d, log, Unused(base), Ingest(first)), turns);
            && base <= end.pos <= end.furthest <= |log|
            && Truthful(end.db.tables, q) && ClassifiableFrom(log, base, end.furthest)
            && (end.pos == end.furthest ==> OnePass(log, base, end.furthest, end.db.tables, !NoFills(turns)))
  {
    var d, base := NodePoller(None, max), FirstFrom(log, first.tip.value);
    CommittedTurn(d, log, Unused(base), first);
    UnusedInv(log, base, q);
    hide RunInv, GapFreeRun, Run, OnePass, Truthful, ClassifiableFrom, TakeTurn, Cycle, Replayed, NoFills, EventsAgree;
    var begun := TakeTurn(d, log, Unused(base), Ingest(first));
    var begunTables := TurnKeeps(d, log, base, Unused(base), EMPTY_TABLES, q, Ingest(first));
    var shadow := RunKeeps(d, log, base, begun, turns, q);
    InvMeans(log, base, Run(d, log, begun, turns), shadow, q, !NoFills(turns));
  }

  // ------------------------------------------------------------ catching up

  /** Nothing goes wrong in this cycle, and the node has seen the whole log. */
  ghost predicate Healthy(log: seq<DecodedEvent>, env: Env) {
    && Sees(log, env.rpc) && env.rpc.up && env.rpc.visible == |log| && env.rpc.style == AtPageEnd
    && env.tip.Some? && (forall k: nat :: !env.faults(k))
  }

  /** The ledger the next request names, if it names one, has been closed. */
  predicate Closed(d: Deployment, tr: Tracked, env: Env) {
    var cursor := ResumeCursor(d, tr.db.checkpoint, env.tip);
    cursor.Success? && cursor.value.FromLedger? ==> cursor.value.startLedger <= env.rpc.latest
  }

  function PageSize(d: Deployment, env: Env): nat {
    Min(LimitOf(d), env.rpc.scan)
  }

  lemma HealthyCommit(d: Deployment, log: seq<DecodedEvent>, db: DbState, page: Page, from: nat, end: nat, faults: Faults)
    requires ClassifiableFrom(log, from, end) && (forall k: nat :: !faults(k))
    requires from <= end <= |log| && page.events == log[from..end]
    ensures CommitPage(d, db, page, faults).Committed?
  {
    hide Classify, Applied, BatchStatements;
    assert forall i :: 0 <= i < |page.events| ==> page.events[i] == log[from + i];
    assert AllClassifiable(page.events);
  }

  /** An undisturbed cycle either meets an event the classifier throws on and changes nothing, or
      advances by a full page or to the end of the log. */
  lemma HealthyCycle(d: Deployment, log: seq<DecodedEvent>, base: nat, tr: Tracked, env: Env)
    requires Healthy(log, env) && Closed(d, tr, env) && ResumesAt(d, log, base, tr, env.tip.value) && tr.pos <= |log|
    ensures var start, tr' := NextStart(d, log, tr.db.checkpoint, env.tip.value).value, TakeTurn(d, log, tr, Ingest(env));
            var end := start + Min(|log| - start, PageSize(d, env));
            && (Cycle(d, log, tr.db, env).Committed? <==> ClassifiableFrom(log, start, end))
            && (Cycle(d, log, tr.db, env).Committed? ==>
                  PageStart(d, log, tr.db, env) == start && tr'.pos == end
                  && StoredCursor(tr'.db.checkpoint) == Some(CursorAt(end)))
  {
    hide Classify, CommitPage, Replayed, FirstFrom;
    var start := NextStart(d, log, tr.db.checkpoint, env.tip.value).value;
    var cursor := ResumeCursor(d, tr.db.checkpoint, env.tip).value;
    assert StartOf(log, env.rpc, cursor) == Some(start);
    var end := EndOf(log, env.rpc, start, LimitOf(d));
    var page := GetEvents(log, env.rpc, cursor, LimitOf(d)).value;
    if ClassifiableFrom(log, start, end) {
      HealthyCommit(d, log, tr.db, page, start, end, env.faults);
    }
    if Cycle(d, log, tr.db, env).Committed? {
      CommittedTurn(d, log, tr, env);
      CommittedClassifiable(d, log, tr, env);
    }
  }

  /** How far k pages of this size reach from `base`, in a log of n events. */
  function Reach(n: nat, base: nat, k: nat, size: nat): nat {
    Min(n, base + k * size)
  }

  lemma Advance(n: nat, base: nat, pos: nat, k: nat, size: nat)
    requires base <= pos <= n && pos >= Reach(n, base, k, size)
    ensures pos + Min(n - pos, size) >= Reach(n, base, k + 1, size)
  {
    assert (k + 1) * size == k * size + size;
  }

  lemma ReachNone(n: nat, base: nat, size: nat)
    requires base <= n
    ensures Reach(n, base, 0, size) == base
  {
    assert 0 * size == 0;
  }

  /** What undisturbed cycles keep: the next one can resume, and after k of them, if every event
      is classifiable, they have come k pages far and hold a cursor. */
  ghost predicate Underway(d: Deployment, log: seq<DecodedEvent>, base: nat, tr: Tracked, env: Env, k: nat) {
    && base <= tr.pos <= |log| && env.tip.Some?
    && ResumesAt(d, log, base, tr, env.tip.value) && Closed(d, tr, env)
    && (ClassifiableFrom(log, base, |log|) ==>
          && tr.pos >= Reach(|log|, base, k, PageSize(d, env))
          && (k > 0 ==> NextStart(d, log, tr.db.checkpoint, env.tip.value) == Some(tr.pos)))
  }

  lemma AtCursor(d: Deployment, log: seq<DecodedEvent>, base: nat, tr: Tracked, env: Env)
    requires env.tip.Some? && base <= tr.pos && StoredCursor(tr.db.checkpoint) == Some(CursorAt(tr.pos))
    ensures NextStart(d, log, tr.db.checkpoint, env.tip.value) == Some(tr.pos)
    ensures ResumesAt(d, log, base, tr, env.tip.value) && Closed(d, tr, env)
  {
    PositionOfCursorAt(tr.pos);
  }

  lemma UnderwayAfter(d: Deployment, log: seq<DecodedEvent>, base: nat, tr: Tracked, env: Env, k: nat, start: nat)
    requires env.tip.Some? && base <= start <= |log|
    requires tr.pos == start + Min(|log| - start, PageSize(d, env)) && StoredCursor(tr.db.checkpoint) == Some(CursorAt(tr.pos))
    requires ClassifiableFrom(log, base, |log|) ==> start >= Reach(|log|, base, k, PageSize(d, env))
    ensures Underway(d, log, base, tr, env, k + 1)
  {
    hide Reach, PageSize, NextStart, Closed, ClassifiableFrom, CursorAt, ResumesAt;
    AtCursor(d, log, base, tr, env);
    if start >= Reach(|log|, base, k, PageSize(d, env)) {
      Advance(|log|, base, start, k, PageSize(d, env));
    }
  }

  lemma FailedTurn(d: Deployment, log: seq<DecodedEvent>, tr: Tracked, env: Env)
    requires Cycle(d, log, tr.db, env).Failed?
    ensures TakeTurn(d, log, tr, Ingest(env)) == tr
  {
  }

  lemma UnderwayStart(d: Deployment, log: seq<DecodedEvent>, base: nat, tr: Tracked, env: Env, k: nat) returns (start: nat)
    requires Underway(d, log, base, tr, env, k)
    ensures NextStart(d, log, tr.db.checkpoint, env.tip.value) == Some(start) && base <= start <= tr.pos <= |log|
    ensures ClassifiableFrom(log, base, |log|) ==> start >= Reach(|log|, base, k, PageSize(d, env))
  {
    hide Reach, PageSize, NextStart, Closed, ClassifiableFrom;
    start := NextStart(d, log, tr.db.checkpoint, env.tip.value).value;
    ReachNone(|log|, base, PageSize(d, env));
  }

  /** Where an undisturbed cycle fails, it meets an event the classifier throws on. */
  lemma UnderwayStuck(d: Deployment, log: seq<DecodedEvent>, base: nat, tr: Tracked, env: Env, k: nat)
    requires Underway(d, log, base, tr, env, k) && !ClassifiableFrom(log, base, |log|)
    ensures Underway(d, log, base, tr, env, k + 1)
  {
  }

  lemma HealthyStep(d: Deployment, log: seq<DecodedEvent>, base: nat, tr: Tracked, env: Env, k: nat)
    requires Healthy(log, env) && Underway(d, log, base, tr, env, k)
    ensures GapFree(d, log, base, tr, Ingest(env))
    ensures Underway(d, log, base, TakeTurn(d, log, tr, Ingest(env)), env, k + 1)
  {
    var start := UnderwayStart(d, log, base, tr, env, k);
    HealthyCycle(d, log, base, tr, env);
    hide Cycle, TakeTurn, Reach, PageSize, NextStart, Closed, ClassifiableFrom, PageStart, CursorAt, Healthy, Underway,
         ResumesAt;
    Whole(log, base, start, start + Min(|log| - start, PageSize(d, env)));
    if Cycle(d, log, tr.db, env).Committed? {
      UnderwayAfter(d, log, base, TakeTurn(d, log, tr, Ingest(env)), env, k, start);
    } else {
      FailedTurn(d, log, tr, env);
      UnderwayStuck(d, log, base, tr, env, k);
    }
  }

  lemma Whole(log: seq<DecodedEvent>, base: nat, start: nat, end: nat)
    requires base <= start && end <= |log|
    ensures ClassifiableFrom(log, base, |log|) ==> ClassifiableFrom(log, start, end)
  {
    hide Classifiable;
  }

  lemma RunRepeated(d: Deployment, log: seq<DecodedEvent>, tr: Tracked, turn: Turn, n: nat)
    ensures Run(d, log, tr, Repeat(turn, n))
            == if n == 0 then tr else TakeTurn(d, log, Run(d, log, tr, Repeat(turn, n - 1)), turn)
  {
    hide TakeTurn;
    var turns := Repeat(turn, n);
    if n > 0 {
      assert turns[..n - 1] == Repeat(turn, n - 1);
    }
  }

  lemma {:induction false} HealthyCycles(d: Deployment, log: seq<DecodedEvent>, base: nat, tr: Tracked, shadow: Tables,
                                         q: Quorum, env: Env, n: nat)
    returns (shadow': Tables)
    requires RunInv(log, base, tr, shadow, q) && EventsAgree(log, q)
    requires Healthy(log, env) && Underway(d, log, base, tr, env, 0)
    ensures var end := Run(d, log, tr, Repeat(Ingest(env), n));
            && RunInv(log, base, end, shadow', q) && Underway(d, log, base, end, env, n)
            && (tr.db.tables == shadow ==> end.db.tables == shadow')
  {
    hide *;
    RunRepeated(d, log, tr, Ingest(env), n);
    if n == 0 {
      shadow' := shadow;
    } else {
      var before := Run(d, log, tr, Repeat(Ingest(env), n - 1));
      var mid := HealthyCycles(d, log, base, tr, shadow, q, env, n - 1);
      HealthyStep(d, log, base, before, env, n - 1);
      shadow' := TurnKeeps(d, log, base, before, mid, q, Ingest(env));
    }
  }

  lemma BeginUnderway(d: Deployment, log: seq<DecodedEvent>, base: nat, tr: Tracked, env: Env)
    requires env.tip.Some?
    requires base <= tr.pos <= |log| && ResumesAt(d, log, base, tr, env.tip.value) && Closed(d, tr, env)
    ensures Underway(d, log, base, tr, env, 0)
  {
    ReachNone(|log|, base, PageSize(d, env));
  }

  lemma TipRead(log: seq<DecodedEvent>, env: Env)
    requires Healthy(log, env)
    ensures env.tip.Some?
  {
  }

  lemma UnderwayFar(d: Deployment, log: seq<DecodedEvent>, base: nat, tr: Tracked, env: Env, k: nat)
    requires Underway(d, log, base, tr, env, k)
    ensures tr.pos <= |log| && (ClassifiableFrom(log, base, |log|) ==> tr.pos >= Reach(|log|, base, k, PageSize(d, env)))
  {
  }

  /** Eventual convergence. After any gap-free run from which the next request can resume, as many
      undisturbed cycles as there are pages in the log bring ingestion to its end if and only if
      the classifier throws on no event of it; the tables are then those of one in-order pass over
      the whole log, with every stored threshold the SLA's own. */
  lemma EventuallyConverges(d: Deployment, log: seq<DecodedEvent>, base: nat, turns: seq<Turn>, q: Quorum, env: Env, n: nat)
    requires base <= |log| && EventsAgree(log, q) && GapFreeRun(d, log, base, Unused(base), turns, q)
    requires var ran := Run(d, log, Unused(base), turns);
             Healthy(log, env) && ResumesAt(d, log, base, ran, env.tip.value) && Closed(d, ran, env)
    requires Reach(|log|, base, n, PageSize(d, env)) == |log|
    ensures var end := Run(d, log, Run(d, log, Unused(base), turns), Repeat(Ingest(env), n));
            && (end.furthest == |log| <==> ClassifiableFrom(log, base, |log|))
            && ClassifiableFrom(log, base, end.furthest)
            && Truthful(end.db.tables, q)
            && (end.furthest == |log| ==> end.pos == |log| && OnePass(log, base, |log|, end.db.tables, !NoFills(turns)))
  {
    hide *;
    UnusedInv(log, base, q);
    UnusedTables(base);
    var shadow := RunKeeps(d, log, base, Unused(base), turns, q);
    var ran := Run(d, log, Unused(base), turns);
    InvMeans(log, base, ran, shadow, q, !NoFills(turns));
    TipRead(log, env);
    BeginUnderway(d, log, base, ran, env);
    var shadow' := HealthyCycles(d, log, base, ran, shadow, q, env, n);
    var end := Run(d, log, ran, Repeat(Ingest(env), n));
    InvMeans(log, base, end, shadow', q, !NoFills(turns));
    UnderwayFar(d, log, base, end, env, n);
  }

  /** The same, told from the nodes' answers: after any safe run of the worker or of a poller with
      START_LEDGER, once the ledger it would restart at has closed. */
  lemma SafeRunsEventuallyConverge(d: Deployment, log: seq<DecodedEvent>, turns: seq<Turn>, q: Quorum, env: Env, n: nat)
    requires HasStart(d) && EventsAgree(log, q) && Healthy(log, env)
    requires var base := FirstFrom(log, StartLedgerOf(d));
             && SafeRun(d, log, Unused(base), turns, q)
             && Closed(d, Run(d, log, Unused(base), turns), env)
             && Reach(|log|, base, n, PageSize(d, env)) == |log|
    ensures var base := FirstFrom(log, StartLedgerOf(d));
            var end := Run(d, log, Run(d, log, Unused(base), turns), Repeat(Ingest(env), n));
            && (end.furthest == |log| <==> ClassifiableFrom(log, base, |log|))
            && Truthful(end.db.tables, q)
            && (end.furthest == |log| ==> end.pos == |log| && OnePass(log, base, |log|, end.db.tables, !NoFills(turns)))
  {
    hide SafeRun, GapFreeRun, Run, OnePass, Truthful, ResumesAt, EventsAgree, Healthy, Closed, Reach, PageSize,
         ClassifiableFrom, NoFills, Repeat;
    TipRead(log, env);
    SafeIsGapFree(d, log, turns, q);
    EventuallyConverges(d, log, FirstFrom(log, StartLedgerOf(d)), turns, q, env, n);
  }
}
