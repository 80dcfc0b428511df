/** The indexer's tables (indexer/src/db/schema.sql), the SQL statements that write them, and
    the two stores that run those statements in one transaction: IndexerDb (better-sqlite3,
    indexer/src/db/db.ts) and IndexerD1 (Cloudflare D1, indexer/src/db/d1.ts). */
module Store {
  import opened Wrappers
  import opened Events

  datatype Checkpoint = Checkpoint(lastLedger: int, lastCursor: Option<string>)

  datatype WatcherRow = WatcherRow(registeredAt: string, removedAt: Option<string>)

  /** Every table maps its primary key to its row. */
  datatype Tables = Tables(
    watchers: map<string, WatcherRow>,
    checks: map<string, CheckRow>,
    slas: map<string, SlaRow>,
    settlements: map<string, SettlementRow>,
    lifecycle: map<string, LifecycleRow>
  )

  const EMPTY_TABLES := Tables(map[], map[], map[], map[], map[])

  datatype DbState = DbState(checkpoint: Option<Checkpoint>, tables: Tables)

  // --------------------------------------------------------------- statements

  datatype Statement =
    | UpsertCheckpoint(lastLedger: int, lastCursor: Option<string>)
    | InsertWatcher(address: string, at: string)
    | RemoveWatcher(at: string, address: string)
    | InsertCheck(check: CheckRow)
    | InsertSla(sla: SlaRow)
    | InsertLifecycle(lifecycle: LifecycleRow)
    | InsertSettlement(settlement: SettlementRow)
    | SetSlaThreshold(threshold: int, slaId: string)
    | FillSettlementThresholds(threshold: int, slaId: string)

  /** `INSERT OR IGNORE`. */
  function InsertOrIgnore<R>(table: map<string, R>, key: string, row: R): map<string, R> {
    if key in table then table else table[key := row]
  }

  /** `INSERT ... ON CONFLICT(address) DO UPDATE SET removed_at = NULL`: a conflict keeps the
      stored registered_at. */
  function UpsertWatcher(watchers: map<string, WatcherRow>, address: string, at: string): map<string, WatcherRow> {
    if address in watchers then watchers[address := watchers[address].(removedAt := None)]
    else watchers[address := WatcherRow(at, None)]
  }

  /** `UPDATE watchers SET removed_at = ? WHERE address = ?`. */
  function MarkRemoved(watchers: map<string, WatcherRow>, address: string, at: string): map<string, WatcherRow> {
    if address in watchers then watchers[address := watchers[address].(removedAt := Some(at))]
    else watchers
  }

  /** `UPDATE slas SET quorum_threshold = ? WHERE sla_id = ?`. */
  function OverwriteThreshold(slas: map<string, SlaRow>, slaId: string, threshold: int): map<string, SlaRow> {
    if slaId in slas then slas[slaId := slas[slaId].(quorumThreshold := Some(threshold))] else slas
  }

  function FilledRow(row: SettlementRow, slaId: string, threshold: int): SettlementRow {
    if row.slaId == slaId && row.quorumThreshold == None then row.(quorumThreshold := Some(threshold)) else row
  }

  /** `UPDATE settlements SET quorum_threshold = ? WHERE sla_id = ? AND quorum_threshold IS NULL`. */
  ghost function FillNullThresholds(settlements: map<string, SettlementRow>, slaId: string, threshold: int):
    (filled: map<string, SettlementRow>)
    ensures filled.Keys == settlements.Keys
    ensures forall id :: id in settlements ==> filled[id] == FilledRow(settlements[id], slaId, threshold)
  {
    if settlements == map[] then settlements
    else
      var id :| id in settlements;
      FillNullThresholds(settlements - {id}, slaId, threshold)[id := FilledRow(settlements[id], slaId, threshold)]
  }

  /** The update, row by row in any order. */
  method FillRows(settlements: map<string, SettlementRow>, slaId: string, threshold: int)
    returns (filled: map<string, SettlementRow>)
    ensures filled == FillNullThresholds(settlements, slaId, threshold)
  {
    filled := settlements;
    var todo := settlements.Keys;
    while todo != {}
      invariant todo <= settlements.Keys == filled.Keys
      invariant forall id :: id in settlements ==>
                  filled[id] == if id in todo then settlements[id] else FilledRow(settlements[id], slaId, threshold)
      decreases |todo|
    {
      var id :| id in todo;
      filled := filled[id := FilledRow(filled[id], slaId, threshold)];
      todo := todo - {id};
    }
  }

  /** What one statement does to the database. */
  ghost function Exec(db: DbState, s: Statement): DbState {
    var t := db.tables;
    match s
    case UpsertCheckpoint(ledger, cursor) => db.(checkpoint := Some(Checkpoint(ledger, cursor)))
    case InsertWatcher(address, at) => db.(tables := t.(watchers := UpsertWatcher(t.watchers, address, at)))
    case RemoveWatcher(at, address) => db.(tables := t.(watchers := MarkRemoved(t.watchers, address, at)))
    case InsertCheck(c) => db.(tables := t.(checks := InsertOrIgnore(t.checks, c.eventId, c)))
    case InsertSla(r) => db.(tables := t.(slas := InsertOrIgnore(t.slas, r.slaId, r)))
    case InsertLifecycle(l) => db.(tables := t.(lifecycle := InsertOrIgnore(t.lifecycle, l.eventId, l)))
    case InsertSettlement(r) => db.(tables := t.(settlements := InsertOrIgnore(t.settlements, r.eventId, r)))
    case SetSlaThreshold(q, slaId) => db.(tables := t.(slas := OverwriteThreshold(t.slas, slaId, q)))
    case FillSettlementThresholds(q, slaId) =>
      db.(tables := t.(settlements := FillNullThresholds(t.settlements, slaId, q)))
  }

  ghost function ExecAll(db: DbState, stmts: seq<Statement>): DbState {
    if stmts == [] then db else Exec(ExecAll(db, stmts[..|stmts| - 1]), stmts[|stmts| - 1])
  }

  lemma ExecAllSnoc(db: DbState, stmts: seq<Statement>, s: Statement)
    ensures ExecAll(db, stmts + [s]) == Exec(ExecAll(db, stmts), s)
  {
    assert (stmts + [s])[..|stmts|] == stmts;
  }

  lemma {:induction false} ExecAllConcat(db: DbState, a: seq<Statement>, b: seq<Statement>)
    ensures ExecAll(db, a + b) == ExecAll(ExecAll(db, a), b)
  {
    if b == [] {
      assert a + b == a;
    } else {
      ExecAllConcat(db, a, b[..|b| - 1]);
      assert (a + b)[..|a + b| - 1] == a + b[..|b| - 1];
    }
  }

  // -------------------------------------------------------------- one batch

  datatype BatchParams = BatchParams(lastLedger: int, lastCursor: Option<string>, batch: Batch)

  function WatcherStatement(w: WatcherEvent): Statement {
    match w
    case Registered(address, at) => InsertWatcher(address, at)
    case Removed(address, at) => RemoveWatcher(at, address)
  }

  function WatcherStatements(ws: seq<WatcherEvent>): seq<Statement> {
    seq(|ws|, i requires 0 <= i < |ws| => WatcherStatement(ws[i]))
  }

  function CheckStatements(rows: seq<CheckRow>): seq<Statement> {
    seq(|rows|, i requires 0 <= i < |rows| => InsertCheck(rows[i]))
  }

  function SlaStatements(rows: seq<SlaRow>): seq<Statement> {
    seq(|rows|, i requires 0 <= i < |rows| => InsertSla(rows[i]))
  }

  function LifecycleStatements(rows: seq<LifecycleRow>): seq<Statement> {
    seq(|rows|, i requires 0 <= i < |rows| => InsertLifecycle(rows[i]))
  }

  function SettlementStatements(rows: seq<SettlementRow>): seq<Statement> {
    seq(|rows|, i requires 0 <= i < |rows| => InsertSettlement(rows[i]))
  }

  /** The statements of applyBatch, in the order both stores issue them. */
  function BatchStatements(p: BatchParams): seq<Statement> {
    [UpsertCheckpoint(p.lastLedger, p.lastCursor)]
    + WatcherStatements(p.batch.watcherEvents)
    + CheckStatements(p.batch.checks)
    + SlaStatements(p.batch.slas)
    + LifecycleStatements(p.batch.lifecycleEvents)
    + SettlementStatements(p.batch.settlements)
  }

  /** What a committed applyBatch does. */
  ghost function Applied(db: DbState, p: BatchParams): DbState {
    ExecAll(db, BatchStatements(p))
  }

  /** What setSlaQuorumThreshold does. */
  ghost function CacheThreshold(db: DbState, slaId: string, threshold: int): DbState {
    Exec(Exec(db, SetSlaThreshold(threshold, slaId)), FillSettlementThresholds(threshold, slaId))
  }

  /** Which statements of a transaction throw. */
  type Faults = nat -> bool

  ghost predicate FaultFree(faults: Faults, n: nat) {
    forall k: nat :: k < n ==> !faults(k)
  }

  // ---------------------------------------------------------------- IndexerDb

  class IndexerDb {
    var checkpoint: Option<Checkpoint>
    var watchers: map<string, WatcherRow>
    var checks: map<string, CheckRow>
    var slas: map<string, SlaRow>
    var settlements: map<string, SettlementRow>
    var lifecycle: map<string, LifecycleRow>

    constructor ()
      ensures State() == DbState(None, EMPTY_TABLES)
    {
      checkpoint := None;
      watchers, checks, slas, settlements, lifecycle := map[], map[], map[], map[], map[];
    }

    function State(): DbState
      reads this
    {
      DbState(checkpoint, Tables(watchers, checks, slas, settlements, lifecycle))
    }

    /** `statement.run(...)`; a statement that throws changes nothing itself. */
    method Run(s: Statement, faults: Faults, k: nat) returns (ok: bool)
      modifies this
      ensures ok == !faults(k)
      ensures State() == if ok then Exec(old(State()), s) else old(State())
    {
      if faults(k) {
        return false;
      }
      ok := true;
      match s {
        case UpsertCheckpoint(ledger, cursor) => checkpoint := Some(Checkpoint(ledger, cursor));
        case InsertWatcher(address, at) => watchers := UpsertWatcher(watchers, address, at);
        case RemoveWatcher(at, address) => watchers := MarkRemoved(watchers, address, at);
        case InsertCheck(c) => checks := InsertOrIgnore(checks, c.eventId, c);
        case InsertSla(r) => slas := InsertOrIgnore(slas, r.slaId, r);
        case InsertLifecycle(l) => lifecycle := InsertOrIgnore(lifecycle, l.eventId, l);
        case InsertSettlement(r) => settlements := InsertOrIgnore(settlements, r.eventId, r);
        case SetSlaThreshold(q, slaId) => slas := OverwriteThreshold(slas, slaId, q);
        case FillSettlementThresholds(q, slaId) => settlements := FillRows(settlements, slaId, q);
      }
    }

    /** ROLLBACK to the state at BEGIN. */
    method Rollback(saved: DbState)
      modifies this
      ensures State() == saved
    {
      checkpoint := saved.checkpoint;
      watchers, checks := saved.tables.watchers, saved.tables.checks;
      slas, settlements, lifecycle := saved.tables.slas, saved.tables.settlements, saved.tables.lifecycle;
    }

    /** One prepared statement run over a list of rows. */
    method RunEach(stmts: seq<Statement>, faults: Faults, first: nat) returns (ok: bool)
      modifies this
      ensures ok <==> forall k: nat :: first <= k < first + |stmts| ==> !faults(k)
      ensures ok ==> State() == ExecAll(old(State()), stmts)
    {
      for i := 0 to |stmts|
        invariant forall k: nat :: first <= k < first + i ==> !faults(k)
        invariant State() == ExecAll(old(State()), stmts[..i])
      {
        assert stmts[..i + 1] == stmts[..i] + [stmts[i]];
        ExecAllSnoc(old(State()), stmts[..i], stmts[i]);
        ok := Run(stmts[i], faults, first + i);
        if !ok {
          return false;
        }
      }
      assert stmts[..|stmts|] == stmts;
      return true;
    }

    /** applyBatch: one transaction. Either every statement of the batch and the checkpoint
        landed, or nothing did. */
    method ApplyBatch(p: BatchParams, faults: Faults) returns (committed: bool)
      modifies this
      ensures committed <==> FaultFree(faults, |BatchStatements(p)|)
      ensures State() == if committed then Applied(old(State()), p) else old(State())
    {
      var saved := State();
      var checkpointStmt := [UpsertCheckpoint(p.lastLedger, p.lastCursor)];
      var w, c := WatcherStatements(p.batch.watcherEvents), CheckStatements(p.batch.checks);
      var r, l := SlaStatements(p.batch.slas), LifecycleStatements(p.batch.lifecycleEvents);
      var t := SettlementStatements(p.batch.settlements);
      ExecAllConcat(saved, checkpointStmt, w);
      ExecAllConcat(saved, checkpointStmt + w, c);
      ExecAllConcat(saved, checkpointStmt + w + c, r);
      ExecAllConcat(saved, checkpointStmt + w + c + r, l);
      ExecAllConcat(saved, checkpointStmt + w + c + r + l, t);

      committed := RunEach(checkpointStmt, faults, 0);
      if committed {
        committed := RunEach(w, faults, 1);
      }
      if committed {
        committed := RunEach(c, faults, 1 + |w|);
      }
      if committed {
        committed := RunEach(r, faults, 1 + |w| + |c|);
      }
      if committed {
        committed := RunEach(l, faults, 1 + |w| + |c| + |r|);
      }
      if committed {
        committed := RunEach(t, faults, 1 + |w| + |c| + |r| + |l|);
      }
      if !committed {
        Rollback(saved);
      }
    }

    /** getCheckpoint. */
    function GetCheckpoint(): Option<Checkpoint>
      reads this
    {
      checkpoint
    }

    /** setSlaQuorumThreshold, its two updates in one transaction. */
    method SetSlaQuorumThreshold(slaId: string, threshold: int, faults: Faults) returns (committed: bool)
      modifies this
      ensures committed <==> FaultFree(faults, 2)
      ensures State() == if committed then CacheThreshold(old(State()), slaId, threshold) else old(State())
    {
      var saved := State();
      committed := Run(SetSlaThreshold(threshold, slaId), faults, 0);
      if committed {
        committed := Run(FillSettlementThresholds(threshold, slaId), faults, 1);
      }
      if !committed {
        Rollback(saved);
      }
    }
  }

  // ---------------------------------------------------------------- IndexerD1

  /** One statement, on a state held as a value. */
  method ExecOn(db: DbState, s: Statement) returns (after: DbState)
    ensures after == Exec(db, s)
  {
    var t := db.tables;
    match s {
      case UpsertCheckpoint(ledger, cursor) => after := db.(checkpoint := Some(Checkpoint(ledger, cursor)));
      case InsertWatcher(address, at) => after := db.(tables := t.(watchers := UpsertWatcher(t.watchers, address, at)));
      case RemoveWatcher(at, address) => after := db.(tables := t.(watchers := MarkRemoved(t.watchers, address, at)));
      case InsertCheck(c) => after := db.(tables := t.(checks := InsertOrIgnore(t.checks, c.eventId, c)));
      case InsertSla(r) => after := db.(tables := t.(slas := InsertOrIgnore(t.slas, r.slaId, r)));
      case InsertLifecycle(l) => after := db.(tables := t.(lifecycle := InsertOrIgnore(t.lifecycle, l.eventId, l)));
      case InsertSettlement(r) => after := db.(tables := t.(settlements := InsertOrIgnore(t.settlements, r.eventId, r)));
      case SetSlaThreshold(q, slaId) => after := db.(tables := t.(slas := OverwriteThreshold(t.slas, slaId, q)));
      case FillSettlementThresholds(q, slaId) =>
        var filled := FillRows(t.settlements, slaId, q);
        after := db.(tables := t.(settlements := filled));
    }
  }

  /** The D1 binding is foreign: its state is a value, and `batch` runs a statement list as one
      transaction. */
  class IndexerD1 {
    var db: DbState

    constructor ()
      ensures db == DbState(None, EMPTY_TABLES)
    {
      db := DbState(None, EMPTY_TABLES);
    }

    /** `D1Database.batch`. */
    method Batch(stmts: seq<Statement>, faults: Faults) returns (committed: bool)
      modifies this
      ensures committed <==> FaultFree(faults, |stmts|)
      ensures db == if committed then ExecAll(old(db), stmts) else old(db)
    {
      var running := db;
      for i := 0 to |stmts|
        invariant FaultFree(faults, i)
        invariant db == old(db) && running == ExecAll(db, stmts[..i])
      {
        if faults(i) {
          return false;
        }
        assert stmts[..i + 1] == stmts[..i] + [stmts[i]];
        ExecAllSnoc(db, stmts[..i], stmts[i]);
        running := ExecOn(running, stmts[i]);
      }
      assert stmts[..|stmts|] == stmts;
      db := running;
      committed := true;
    }

    /** applyBatch: collects the statements, then runs them in one batch. */
    method ApplyBatch(p: BatchParams, faults: Faults) returns (committed: bool)
      modifies this
      ensures committed <==> FaultFree(faults, |BatchStatements(p)|)
      ensures db == if committed then Applied(old(db), p) else old(db)
    {
      var stmts := [UpsertCheckpoint(p.lastLedger, p.lastCursor)];
      var b := p.batch;
      ghost var start := stmts;
      for i := 0 to |b.watcherEvents|
        invariant stmts == start + WatcherStatements(b.watcherEvents[..i])
      {
        stmts := stmts + [match b.watcherEvents[i]
                          case Registered(address, at) => InsertWatcher(address, at)
                          case Removed(address, at) => RemoveWatcher(at, address)];
      }
      assert b.watcherEvents[..|b.watcherEvents|] == b.watcherEvents;
      start := stmts;
      for i := 0 to |b.checks|
        invariant stmts == start + CheckStatements(b.checks[..i])
      {
        stmts := stmts + [InsertCheck(b.checks[i])];
      }
      assert b.checks[..|b.checks|] == b.checks;
      start := stmts;
      for i := 0 to |b.slas|
        invariant stmts == start + SlaStatements(b.slas[..i])
      {
        stmts := stmts + [InsertSla(b.slas[i])];
      }
      assert b.slas[..|b.slas|] == b.slas;
      start := stmts;
      for i := 0 to |b.lifecycleEvents|
        invariant stmts == start + LifecycleStatements(b.lifecycleEvents[..i])
      {
        stmts := stmts + [InsertLifecycle(b.lifecycleEvents[i])];
      }
      assert b.lifecycleEvents[..|b.lifecycleEvents|] == b.lifecycleEvents;
      start := stmts;
      for i := 0 to |b.settlements|
        invariant stmts == start + SettlementStatements(b.settlements[..i])
      {
        stmts := stmts + [InsertSettlement(b.settlements[i])];
      }
      assert b.settlements[..|b.settlements|] == b.settlements;
      committed := Batch(stmts, faults);
    }

    /** setSlaQuorumThreshold. */
    method SetSlaQuorumThreshold(slaId: string, threshold: int, faults: Faults) returns (committed: bool)
      modifies this
      ensures committed <==> FaultFree(faults, 2)
      ensures db == if committed then CacheThreshold(old(db), slaId, threshold) else old(db)
    {
      var stmts := [SetSlaThreshold(threshold, slaId), FillSettlementThresholds(threshold, slaId)];
      ExecAllSnoc(db, [], stmts[0]);
      ExecAllSnoc(db, [stmts[0]], stmts[1]);
      assert [] + [stmts[0]] == [stmts[0]] && [stmts[0]] + [stmts[1]] == stmts;
      committed := Batch(stmts, faults);
    }
  }
}
