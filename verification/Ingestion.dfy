/** One ingestion cycle of the Node poller (indexer/src/ingest/poller.ts) and of the Cloudflare
    worker (indexer/src/worker/ingest.ts), and runs of either against a growing chain. */
module Ingestion {
  import opened Wrappers
  import opened Arithmetic
  import opened Events
  import opened Store
  import opened Replay
  import Decimal

  // ------------------------------------------------------------- the RPC node

  datatype EventsCursor = FromLedger(startLedger: int) | AfterCursor(cursor: string)

  /** How a getEvents response fills its cursor field. */
  datatype CursorStyle = AtPageEnd | Blank | Missing

  /** One node's answer: it sees the first `visible` events of the chain, closed up to ledger
      `latest`, and scans at most `scan` events per request. */
  datatype RpcNode = RpcNode(up: bool, visible: nat, latest: int, scan: nat, style: CursorStyle)

  datatype Page = Page(events: seq<DecodedEvent>, latestLedger: int, cursor: Option<string>)

  predicate SortedByLedger(log: seq<DecodedEvent>) {
    forall i, j :: 0 <= i < j < |log| ==> log[i].ledger <= log[j].ledger
  }

  /** What the node sees is the part of the chain closed so far. */
  ghost predicate Sees(log: seq<DecodedEvent>, rpc: RpcNode) {
    && rpc.visible <= |log| && rpc.latest >= 1
    && (forall i :: 0 <= i < rpc.visible ==> log[i].ledger <= rpc.latest)
    && (forall i :: rpc.visible <= i < |log| ==> log[i].ledger > rpc.latest)
  }

  /** The position of the first event at or after a ledger. */
  function FirstFrom(log: seq<DecodedEvent>, ledger: int): (p: nat)
    ensures p <= |log|
    ensures forall i :: 0 <= i < p ==> log[i].ledger < ledger
    ensures p < |log| ==> log[p].ledger >= ledger
  {
    if log == [] || log[0].ledger >= ledger then 0 else 1 + FirstFrom(log[1..], ledger)
  }

  function CursorAt(position: nat): (c: string)
    ensures c != ""
  {
    Decimal.Print(position)
  }

  function PositionOf(cursor: string): Option<nat> {
    if cursor != "" && Decimal.AllDigits(cursor) then Some(Decimal.Parse(cursor)) else None
  }

  lemma PositionOfCursorAt(position: nat)
    ensures PositionOf(CursorAt(position)) == Some(position)
  {
    Decimal.ParsePrint(position);
  }

  /** Where a request starts reading; a start past the tip or past what the node sees is
      refused. */
  function StartOf(log: seq<DecodedEvent>, rpc: RpcNode, cursor: EventsCursor): (start: Option<nat>)
    ensures start.Some? ==> start.value <= Min(rpc.visible, |log|)
  {
    var seen := Min(rpc.visible, |log|);
    match cursor
    case FromLedger(l) =>
      if l > rpc.latest || FirstFrom(log, l) > seen then None else Some(FirstFrom(log, l))
    case AfterCursor(c) =>
      match PositionOf(c)
      case None => None
      case Some(p) => if p > seen then None else Some(p)
  }

  function EndOf(log: seq<DecodedEvent>, rpc: RpcNode, start: nat, limit: nat): (end: nat)
    requires start <= Min(rpc.visible, |log|)
    ensures start <= end <= Min(rpc.visible, |log|)
  {
    start + Min(Min(rpc.visible, |log|) - start, Min(limit, rpc.scan))
  }

  function ResponseCursor(style: CursorStyle, end: nat): Option<string> {
    match style
    case AtPageEnd => Some(CursorAt(end))
    case Blank => Some("")
    case Missing => None
  }

  function GetEvents(log: seq<DecodedEvent>, rpc: RpcNode, cursor: EventsCursor, limit: nat): Result<Page, string> {
    var start := StartOf(log, rpc, cursor);
    if !rpc.up || start.None? then Failure("rpc")
    else
      var end := EndOf(log, rpc, start.value, limit);
      Success(Page(log[start.value..end], rpc.latest, ResponseCursor(rpc.style, end)))
  }

  // ---------------------------------------------------------------- one cycle

  datatype Deployment = NodePoller(startLedger: Option<int>, maxPerRequest: nat) | Worker(start: int)

  const WORKER_LIMIT: nat := 50

  function LimitOf(d: Deployment): nat {
    match d
    case NodePoller(_, n) => n
    case Worker(_) => WORKER_LIMIT
  }

  /** What one cycle meets: the node, the tip read before it (None when that read fails), and
      the faults of the store. */
  datatype Env = Env(rpc: RpcNode, tip: Option<int>, faults: Faults)

  /** JavaScript truthiness of the stored cursor. */
  predicate Truthy(cursor: Option<string>) {
    cursor.Some? && cursor.value != ""
  }

  function StoredCursor(cp: Option<Checkpoint>): Option<string> {
    if cp.None? then None else cp.value.lastCursor
  }

  /** Where the next cycle resumes. */
  function ResumeCursor(d: Deployment, cp: Option<Checkpoint>, tip: Option<int>): Result<EventsCursor, string> {
    if Truthy(StoredCursor(cp)) then Success(AfterCursor(StoredCursor(cp).value))
    else
      match d
      case NodePoller(startLedger, _) =>
        if tip.None? then Failure("getLatestLedger")
        else Success(FromLedger(if startLedger.Some? then startLedger.value else tip.value))
      case Worker(start) =>
        if cp.Some? && cp.value.lastLedger != 0 then Success(FromLedger(cp.value.lastLedger + 1))
        else Success(FromLedger(start))
  }

  /** The checkpoint a cycle stores. */
  function NextCheckpoint(d: Deployment, cp: Option<Checkpoint>, page: Page): Checkpoint {
    match d
    case NodePoller(_, _) =>
      Checkpoint(if page.events == [] then page.latestLedger else page.events[|page.events| - 1].ledger, page.cursor)
    case Worker(_) =>
      Checkpoint(page.latestLedger, if page.cursor.Some? then page.cursor else StoredCursor(cp))
  }

  datatype CycleResult =
    | Failed
    | Committed(db: DbState, page: Page)

  /** Classifying and committing a fetched page. */
  ghost function CommitPage(d: Deployment, db: DbState, page: Page, faults: Faults): CycleResult {
    if !AllClassifiable(page.events) then Failed
    else
      var cp := NextCheckpoint(d, db.checkpoint, page);
      var p := BatchParams(cp.lastLedger, cp.lastCursor, BatchOf(page.events));
      if exists k: nat :: k < |BatchStatements(p)| && faults(k) then Failed
      else Committed(Applied(db, p), page)
  }

  /** One cycle as a function of the stored state: it commits a whole page with its checkpoint,
      or it changes nothing. */
  ghost function Cycle(d: Deployment, log: seq<DecodedEvent>, db: DbState, env: Env): CycleResult {
    var cursor := ResumeCursor(d, db.checkpoint, env.tip);
    if cursor.Failure? then Failed
    else
      var page := GetEvents(log, env.rpc, cursor.value, LimitOf(d));
      if page.Failure? then Failed else CommitPage(d, db, page.value, env.faults)
  }

  function After(db: DbState, r: CycleResult): DbState {
    match r
    case Failed => db
    case Committed(db', _) => db'
  }

  /** runOnce from the fetched page on. */
  method StorePage(db: IndexerDb, startLedger: Option<int>, maxPerRequest: nat, page: Page, faults: Faults)
    returns (mayHaveMore: Result<bool, string>)
    modifies db
    ensures var r := CommitPage(NodePoller(startLedger, maxPerRequest), old(db.State()), page, faults);
            && db.State() == After(old(db.State()), r)
            && mayHaveMore.Failure? == (r == Failed)
            && (mayHaveMore.Success? ==> mayHaveMore.value == (page.events != [] && |page.events| >= maxPerRequest))
  {
    hide Classify;
    var events := page.events;
    if events == [] {
      assert BatchOf(events) == EMPTY_BATCH;
      var stored := db.ApplyBatch(BatchParams(page.latestLedger, page.cursor, EMPTY_BATCH), faults);
      return if stored then Success(false) else Failure("applyBatch");
    }
    var batch, _ := ClassifyEvents(events);
    if batch.Failure? {
      return Failure("classifyEvents");
    }
    var committed := db.ApplyBatch(BatchParams(events[|events| - 1].ledger, page.cursor, batch.value), faults);
    return if committed then Success(|events| >= maxPerRequest) else Failure("applyBatch");
  }

  /** runOnce. A failure stands for the exception runForever logs and survives. */
  method RunOnce(db: IndexerDb, startLedger: Option<int>, maxPerRequest: nat, log: seq<DecodedEvent>, env: Env)
    returns (mayHaveMore: Result<bool, string>)
    modifies db
    ensures var r := Cycle(NodePoller(startLedger, maxPerRequest), log, old(db.State()), env);
            && db.State() == After(old(db.State()), r)
            && mayHaveMore.Failure? == (r == Failed)
            && (r.Committed? ==> mayHaveMore == Success(r.page.events != [] && |r.page.events| >= maxPerRequest))
  {
    var checkpoint := db.GetCheckpoint();
    var cursor: EventsCursor;
    if checkpoint.Some? && checkpoint.value.lastCursor.Some? && checkpoint.value.lastCursor.value != "" {
      cursor := AfterCursor(checkpoint.value.lastCursor.value);
    } else {
      if env.tip.None? {
        return Failure("getLatestLedger");
      }
      cursor := FromLedger(if startLedger.Some? then startLedger.value else env.tip.value);
    }
    var page := GetEvents(log, env.rpc, cursor, maxPerRequest);
    if page.Failure? {
      return Failure("getEvents");
    }
    mayHaveMore := StorePage(db, startLedger, maxPerRequest, page.value, env.faults);
  }

  /** runIngestionStep from the response on. */
  method StoreResponse(d1: IndexerD1, start: int, response: Page, faults: Faults) returns (indexed: Result<nat, string>)
    modifies d1
    ensures var r := CommitPage(Worker(start), old(d1.db), response, faults);
            && d1.db == After(old(d1.db), r)
            && indexed.Failure? == (r == Failed)
            && (indexed.Success? ==> indexed.value == |response.events|)
  {
    hide Classify;
    var cp := d1.db.checkpoint;
    var batch, _ := ClassifyEvents(response.events);
    if batch.Failure? {
      return Failure("classifyEvents");
    }
    var lastCursor := if response.cursor.Some? then response.cursor
                      else if cp.Some? then cp.value.lastCursor else None;
    var committed := d1.ApplyBatch(BatchParams(response.latestLedger, lastCursor, batch.value), faults);
    return if committed then Success(|response.events|) else Failure("batch");
  }

  /** runIngestionStep. */
  method RunIngestionStep(d1: IndexerD1, start: int, log: seq<DecodedEvent>, env: Env) returns (indexed: Result<nat, string>)
    modifies d1
    ensures var r := Cycle(Worker(start), log, old(d1.db), env);
            && d1.db == After(old(d1.db), r)
            && indexed.Failure? == (r == Failed)
            && (r.Committed? ==> indexed == Success(|r.page.events|))
  {
    var cp := d1.db.checkpoint;
    var cursor: EventsCursor;
    if cp.Some? && cp.value.lastCursor.Some? && cp.value.lastCursor.value != "" {
      cursor := AfterCursor(cp.value.lastCursor.value);
    } else if cp.Some? && cp.value.lastLedger != 0 {
      cursor := FromLedger(cp.value.lastLedger + 1);
    } else {
      cursor := FromLedger(start);
    }
    var response := GetEvents(log, env.rpc, cursor, WORKER_LIMIT);
    if response.Failure? {
      return Failure("getEvents");
    }
    indexed := StoreResponse(d1, start, response.value, env.faults);
  }

  // ----------------------------------------------------- where a cycle resumes

  /** A committed cycle wrote exactly log[start..end]. */
  lemma CommittedPage(d: Deployment, log: seq<DecodedEvent>, db: DbState, env: Env) returns (start: nat, end: nat)
    requires Cycle(d, log, db, env).Committed?
    ensures start <= end <= env.rpc.visible
    ensures StartOf(log, env.rpc, ResumeCursor(d, db.checkpoint, env.tip).value) == Some(start)
    ensures end == EndOf(log, env.rpc, start, LimitOf(d))
    ensures var r := Cycle(d, log, db, env);
            && r.page == Page(log[start..end], env.rpc.latest, ResponseCursor(env.rpc.style, end))
            && r.db == DbState(Some(NextCheckpoint(d, db.checkpoint, r.page)), Replayed(db.tables, log[start..end]))
  {
    start := StartOf(log, env.rpc, ResumeCursor(d, db.checkpoint, env.tip).value).value;
    end := EndOf(log, env.rpc, start, LimitOf(d));
    var page := Cycle(d, log, db, env).page;
    var cp := NextCheckpoint(d, db.checkpoint, page);
    GroupingInvisible(db, page.events, cp.lastLedger, cp.lastCursor);
  }

  /** What a committed cycle leaves in the checkpoint, which the health route serves. The poller
      stores the ledger of the last event of its page, or the node's latest ledger when the page is
      empty, and the response's cursor whatever it is; the worker always stores the latest ledger, and
      keeps the cursor it had when the response carries none. */
  lemma CheckpointAfter(d: Deployment, log: seq<DecodedEvent>, db: DbState, env: Env) returns (start: nat, end: nat)
    requires Cycle(d, log, db, env).Committed?
    ensures start <= end <= env.rpc.visible && end <= |log| && Cycle(d, log, db, env).page.events == log[start..end]
    ensures Cycle(d, log, db, env).db.checkpoint.Some?
    ensures var cp, cursor := Cycle(d, log, db, env).db.checkpoint.value, ResponseCursor(env.rpc.style, end);
            && cp.lastLedger == (if d.NodePoller? && start < end then log[end - 1].ledger else env.rpc.latest)
            && (d.NodePoller? || cursor.Some? ==> cp.lastCursor == cursor)
            && (d.Worker? && cursor.None? ==>
                  cp.lastCursor == if db.checkpoint.Some? then db.checkpoint.value.lastCursor else None)
  {
    start, end := CommittedPage(d, log, db, env);
    hide Cycle, Replayed;
  }

  /** Where the page of a committed cycle starts and ends in the log. */
  function PageStart(d: Deployment, log: seq<DecodedEvent>, db: DbState, env: Env): nat {
    var cursor := ResumeCursor(d, db.checkpoint, env.tip);
    if cursor.Failure? then 0
    else
      var start := StartOf(log, env.rpc, cursor.value);
      if start.None? then 0 else start.value
  }

  function PageEnd(d: Deployment, log: seq<DecodedEvent>, db: DbState, env: Env): nat {
    var start := PageStart(d, log, db, env);
    if start > Min(env.rpc.visible, |log|) then start else EndOf(log, env.rpc, start, LimitOf(d))
  }

  // --------------------------------------------------------------------- runs

  datatype Turn =
    | Ingest(env: Env)
    | ClearCheckpoint
    | Fill(slaId: string, threshold: int)

  /** The database, with the end of the page committed last and how far ingestion has ever been. */
  datatype Tracked = Tracked(db: DbState, pos: nat, furthest: nat)

  /** An empty database, with the first delivery to come at `base`. */
  function Unused(base: nat): Tracked {
    Tracked(DbState(None, EMPTY_TABLES), base, base)
  }

  ghost function TakeTurn(d: Deployment, log: seq<DecodedEvent>, tr: Tracked, turn: Turn): Tracked {
    match turn
    case Ingest(env) =>
      (match Cycle(d, log, tr.db, env)
       case Failed => tr
       case Committed(db', _) =>
         var end := PageEnd(d, log, tr.db, env);
         Tracked(db', end, Max(tr.furthest, end)))
    case ClearCheckpoint => tr.(db := tr.db.(checkpoint := None))
    case Fill(slaId, threshold) => tr.(db := CacheThreshold(tr.db, slaId, threshold))
  }

  ghost function Run(d: Deployment, log: seq<DecodedEvent>, tr: Tracked, turns: seq<Turn>): Tracked {
    if turns == [] then tr
    else TakeTurn(d, log, Run(d, log, tr, turns[..|turns| - 1]), turns[|turns| - 1])
  }

  /** One committed cycle as a turn. */
  lemma CommittedTurn(d: Deployment, log: seq<DecodedEvent>, tr: Tracked, env: Env)
    requires Cycle(d, log, tr.db, env).Committed?
    ensures var start, end := PageStart(d, log, tr.db, env), PageEnd(d, log, tr.db, env);
            && start <= end <= env.rpc.visible && end <= |log|
            && end == EndOf(log, env.rpc, start, LimitOf(d))
            && StartOf(log, env.rpc, ResumeCursor(d, tr.db.checkpoint, env.tip).value) == Some(start)
            && TakeTurn(d, log, tr, Ingest(env)) ==
               Tracked(DbState(Some(NextCheckpoint(d, tr.db.checkpoint,
                                                   Page(log[start..end], env.rpc.latest, ResponseCursor(env.rpc.style, end)))),
                               Replayed(tr.db.tables, log[start..end])),
                       end, Max(tr.furthest, end))
  {
    var start, end := CommittedPage(d, log, tr.db, env);
  }

  /** A run continued. */
  lemma {:induction false} RunOn(d: Deployment, log: seq<DecodedEvent>, tr: Tracked, first: Turn, turns: seq<Turn>)
    ensures Run(d, log, tr, [first] + turns) == Run(d, log, TakeTurn(d, log, tr, first), turns)
  {
    hide TakeTurn;
    if turns == [] {
      assert ([first] + turns)[..0] == [];
      assert [first] + turns == [first];
    } else {
      var init := turns[..|turns| - 1];
      RunOn(d, log, tr, first, init);
      assert ([first] + turns)[..|turns|] == [first] + init;
    }
  }
}
