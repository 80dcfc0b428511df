/** Applying events one by one, in chain order: the meaning against which batches, pages and
    re-deliveries are measured. */
module Replay {
  import opened Wrappers
  import opened Sequences
  import opened Events
  import opened Store

  // --------------------------------------------------------- one event alone

  /** What an event classified as `o` does alone: the one statement its row amounts to. */
  ghost function Effect(t: Tables, o: Result<Outcome, string>): Tables {
    match o
    case Success(WatcherOutcome(w)) => Alone(t, WatcherStatement(w))
    case Success(CheckOutcome(c)) => Alone(t, InsertCheck(c))
    case Success(SlaOutcome(s)) => Alone(t, InsertSla(s))
    case Success(SettlementOutcome(s)) => Alone(t, InsertSettlement(s))
    case Success(LifecycleOutcome(l)) => Alone(t, InsertLifecycle(l))
    case _ => t
  }

  ghost function Alone(t: Tables, s: Statement): Tables {
    Exec(DbState(None, t), s).tables
  }

  ghost function Step(t: Tables, e: DecodedEvent): Tables {
    Effect(t, Classify(e))
  }

  ghost function Replayed(t: Tables, events: seq<DecodedEvent>): Tables {
    if events == [] then t else Step(Replayed(t, events[..|events| - 1]), events[|events| - 1])
  }

  /** What an outcome does, field by field: it writes the one table its row belongs to. */
  lemma EffectFields(t: Tables, o: Result<Outcome, string>)
    ensures Effect(t, o) ==
            Tables(if WatcherIn(o).Some? then ApplyWatcher(t.watchers, WatcherIn(o).value) else t.watchers,
                   if CheckIn(o).Some? then InsertOrIgnore(t.checks, CheckIn(o).value.eventId, CheckIn(o).value) else t.checks,
                   if SlaIn(o).Some? then InsertOrIgnore(t.slas, SlaIn(o).value.slaId, SlaIn(o).value) else t.slas,
                   if SettlementIn(o).Some?
                   then InsertOrIgnore(t.settlements, SettlementIn(o).value.eventId, SettlementIn(o).value)
                   else t.settlements,
                   if LifecycleIn(o).Some?
                   then InsertOrIgnore(t.lifecycle, LifecycleIn(o).value.eventId, LifecycleIn(o).value)
                   else t.lifecycle)
  {
    hide InsertOrIgnore, UpsertWatcher, MarkRemoved;
  }

  function ApplyWatcher(m: map<string, WatcherRow>, w: WatcherEvent): map<string, WatcherRow> {
    match w
    case Registered(address, at) => UpsertWatcher(m, address, at)
    case Removed(address, at) => MarkRemoved(m, address, at)
  }

  lemma ReplayedSnoc(t: Tables, events: seq<DecodedEvent>, e: DecodedEvent)
    ensures Replayed(t, events + [e]) == Step(Replayed(t, events), e)
  {
    hide Classify;
    assert (events + [e])[..|events|] == events;
  }

  lemma {:induction false} ReplayedConcat(t: Tables, a: seq<DecodedEvent>, b: seq<DecodedEvent>)
    ensures Replayed(t, a + b) == Replayed(Replayed(t, a), b)
  {
    hide Classify;
    if b == [] {
      assert a + b == a;
    } else {
      ReplayedConcat(t, a, b[..|b| - 1]);
      assert (a + b)[..|a + b| - 1] == a + b[..|b| - 1];
    }
  }

  // ------------------------------------------------- a batch, table by table

  function ApplyWatchers(m: map<string, WatcherRow>, ws: seq<WatcherEvent>): map<string, WatcherRow> {
    if ws == [] then m else ApplyWatcher(ApplyWatchers(m, ws[..|ws| - 1]), ws[|ws| - 1])
  }

  function InsertRows<R>(m: map<string, R>, rows: seq<R>, key: R -> string): map<string, R> {
    if rows == [] then m
    else
      var last := rows[|rows| - 1];
      InsertOrIgnore(InsertRows(m, rows[..|rows| - 1], key), key(last), last)
  }

  function CheckKey(c: CheckRow): string { c.eventId }

  function SlaKey(s: SlaRow): string { s.slaId }

  function SettlementKey(s: SettlementRow): string { s.eventId }

  function LifecycleKey(l: LifecycleRow): string { l.eventId }

  function TableByTable(t: Tables, b: Batch): Tables {
    Tables(ApplyWatchers(t.watchers, b.watcherEvents),
           InsertRows(t.checks, b.checks, CheckKey),
           InsertRows(t.slas, b.slas, SlaKey),
           InsertRows(t.settlements, b.settlements, SettlementKey),
           InsertRows(t.lifecycle, b.lifecycleEvents, LifecycleKey))
  }

  lemma {:induction false} RunWatchers(db: DbState, ws: seq<WatcherEvent>)
    ensures ExecAll(db, WatcherStatements(ws))
            == db.(tables := db.tables.(watchers := ApplyWatchers(db.tables.watchers, ws)))
  {
    if ws != [] {
      var init := ws[..|ws| - 1];
      RunWatchers(db, init);
      assert WatcherStatements(ws) == WatcherStatements(init) + [WatcherStatement(ws[|ws| - 1])];
      ExecAllSnoc(db, WatcherStatements(init), WatcherStatement(ws[|ws| - 1]));
    }
  }

  lemma {:induction false} RunChecks(db: DbState, rows: seq<CheckRow>)
    ensures ExecAll(db, CheckStatements(rows))
            == db.(tables := db.tables.(checks := InsertRows(db.tables.checks, rows, CheckKey)))
  {
    if rows != [] {
      var init := rows[..|rows| - 1];
      RunChecks(db, init);
      assert CheckStatements(rows) == CheckStatements(init) + [InsertCheck(rows[|rows| - 1])];
      ExecAllSnoc(db, CheckStatements(init), InsertCheck(rows[|rows| - 1]));
    }
  }

  lemma {:induction false} RunSlas(db: DbState, rows: seq<SlaRow>)
    ensures ExecAll(db, SlaStatements(rows))
            == db.(tables := db.tables.(slas := InsertRows(db.tables.slas, rows, SlaKey)))
  {
    if rows != [] {
      var init := rows[..|rows| - 1];
      RunSlas(db, init);
      assert SlaStatements(rows) == SlaStatements(init) + [InsertSla(rows[|rows| - 1])];
      ExecAllSnoc(db, SlaStatements(init), InsertSla(rows[|rows| - 1]));
    }
  }

  lemma {:induction false} RunLifecycle(db: DbState, rows: seq<LifecycleRow>)
    ensures ExecAll(db, LifecycleStatements(rows))
            == db.(tables := db.tables.(lifecycle := InsertRows(db.tables.lifecycle, rows, LifecycleKey)))
  {
    if rows != [] {
      var init := rows[..|rows| - 1];
      RunLifecycle(db, init);
      assert LifecycleStatements(rows) == LifecycleStatements(init) + [InsertLifecycle(rows[|rows| - 1])];
      ExecAllSnoc(db, LifecycleStatements(init), InsertLifecycle(rows[|rows| - 1]));
    }
  }

  lemma {:induction false} RunSettlements(db: DbState, rows: seq<SettlementRow>)
    ensures ExecAll(db, SettlementStatements(rows))
            == db.(tables := db.tables.(settlements := InsertRows(db.tables.settlements, rows, SettlementKey)))
  {
    if rows != [] {
      var init := rows[..|rows| - 1];
      RunSettlements(db, init);
      assert SettlementStatements(rows) == SettlementStatements(init) + [InsertSettlement(rows[|rows| - 1])];
      ExecAllSnoc(db, SettlementStatements(init), InsertSettlement(rows[|rows| - 1]));
    }
  }

  lemma AppliedTableByTable(db: DbState, p: BatchParams)
    ensures Applied(db, p)
            == DbState(Some(Checkpoint(p.lastLedger, p.lastCursor)), TableByTable(db.tables, p.batch))
  {
    var b := p.batch;
    var head := [UpsertCheckpoint(p.lastLedger, p.lastCursor)];
    var w, c, s, l := WatcherStatements(b.watcherEvents), CheckStatements(b.checks),
                      SlaStatements(b.slas), LifecycleStatements(b.lifecycleEvents);
    var r := SettlementStatements(b.settlements);
    ExecAllConcat(db, head + w + c + s + l, r);
    ExecAllConcat(db, head + w + c + s, l);
    ExecAllConcat(db, head + w + c, s);
    ExecAllConcat(db, head + w, c);
    ExecAllConcat(db, head, w);
    ExecAllSnoc(db, [], head[0]);
    assert [] + head == head;
    var db0 := Exec(db, head[0]);
    RunWatchers(db0, b.watcherEvents);
    var db1 := ExecAll(db0, w);
    RunChecks(db1, b.checks);
    var db2 := ExecAll(db1, c);
    RunSlas(db2, b.slas);
    var db3 := ExecAll(db2, s);
    RunLifecycle(db3, b.lifecycleEvents);
    RunSettlements(ExecAll(db3, l), b.settlements);
  }

  // ------------------------------------------------------ grouping is invisible

  lemma PushRow<R>(m: map<string, R>, rows: seq<R>, o: Option<R>, key: R -> string)
    ensures InsertRows(m, rows + ToSeq(o), key)
            == if o.None? then InsertRows(m, rows, key)
               else InsertOrIgnore(InsertRows(m, rows, key), key(o.value), o.value)
  {
    if o.None? {
      assert rows + ToSeq(o) == rows;
    } else {
      assert (rows + [o.value])[..|rows|] == rows;
    }
  }

  lemma PushWatcher(m: map<string, WatcherRow>, ws: seq<WatcherEvent>, o: Option<WatcherEvent>)
    ensures var before := ApplyWatchers(m, ws);
            ApplyWatchers(m, ws + ToSeq(o))
            == if o.None? then before else ApplyWatcher(before, o.value)
  {
    if o.None? {
      assert ws + ToSeq(o) == ws;
    } else {
      assert (ws + [o.value])[..|ws|] == ws;
    }
  }

  lemma PushIsEffect(t: Tables, b: Batch, o: Result<Outcome, string>)
    ensures TableByTable(t, Push(b, o)) == Effect(TableByTable(t, b), o)
  {
    hide Effect, InsertOrIgnore, ApplyWatcher, InsertRows, ApplyWatchers;
    EffectFields(TableByTable(t, b), o);
    PushWatcher(t.watchers, b.watcherEvents, WatcherIn(o));
    PushRow(t.checks, b.checks, CheckIn(o), CheckKey);
    PushRow(t.slas, b.slas, SlaIn(o), SlaKey);
    PushRow(t.settlements, b.settlements, SettlementIn(o), SettlementKey);
    PushRow(t.lifecycle, b.lifecycleEvents, LifecycleIn(o), LifecycleKey);
  }

  lemma {:induction false} TableByTableIsReplay(t: Tables, events: seq<DecodedEvent>)
    ensures TableByTable(t, BatchOf(events)) == Replayed(t, events)
  {
    hide Classify, Effect;
    if events != [] {
      hide TableByTable, BatchOf, Push, FilterMap, ApplyWatchers, InsertRows;
      var init, e := events[..|events| - 1], events[|events| - 1];
      TableByTableIsReplay(t, init);
      assert events == init + [e];
      BatchOfAppend(init, e);
      PushIsEffect(t, BatchOf(init), Classify(e));
    }
  }

  // ------------------------------------------------------------- first row wins

  /** Row i is the first with its key. */
  ghost predicate FirstWithKey<R(!new)>(rows: seq<R>, key: R -> string, i: nat) {
    i < |rows| && forall j :: 0 <= j < i ==> key(rows[j]) != key(rows[i])
  }

  /** The table holds, under each key, the first row that came with it, and nothing else. */
  ghost predicate HoldsFirst<R(!new)>(table: map<string, R>, rows: seq<R>, key: R -> string) {
    && (forall k :: k in table ==> exists i: nat :: FirstWithKey(rows, key, i) && key(rows[i]) == k && table[k] == rows[i])
    && (forall i :: 0 <= i < |rows| ==> key(rows[i]) in table)
  }

  lemma FirstKept<R(!new)>(rows: seq<R>, last: R, key: R -> string, i: nat)
    requires FirstWithKey(rows, key, i)
    ensures FirstWithKey(rows + [last], key, i) && (rows + [last])[i] == rows[i]
  {
  }

  lemma InsertFirst<R(!new)>(table: map<string, R>, rows: seq<R>, last: R, key: R -> string)
    requires HoldsFirst(table, rows, key)
    ensures HoldsFirst(InsertOrIgnore(table, key(last), last), rows + [last], key)
  {
    var table', rows' := InsertOrIgnore(table, key(last), last), rows + [last];
    forall k | k in table'
      ensures exists i: nat :: FirstWithKey(rows', key, i) && key(rows'[i]) == k && table'[k] == rows'[i]
    {
      if k in table {
        var i: nat :| FirstWithKey(rows, key, i) && key(rows[i]) == k && table[k] == rows[i];
        FirstKept(rows, last, key, i);
      } else {
        assert rows'[|rows|] == last;
        assert FirstWithKey(rows', key, |rows|);
      }
    }
  }

  lemma {:induction false} FirstRowWins<R(!new)>(rows: seq<R>, key: R -> string)
    ensures HoldsFirst(InsertRows(map[], rows, key), rows, key)
  {
    if rows != [] {
      var init, last := rows[..|rows| - 1], rows[|rows| - 1];
      FirstRowWins(init, key);
      hide HoldsFirst;
      InsertFirst(InsertRows(map[], init, key), init, last, key);
      assert init + [last] == rows;
    }
  }

  /** What one pass over a log stores in the four INSERT OR IGNORE tables: for every key the row
      of the first event that carries it, so an SLA is shown as it was first created. */
  lemma FirstEventWins(events: seq<DecodedEvent>)
    ensures var t := Replayed(EMPTY_TABLES, events);
            && HoldsFirst(t.checks, FilterMap(events, CheckOf), CheckKey)
            && HoldsFirst(t.slas, FilterMap(events, SlaOf), SlaKey)
            && HoldsFirst(t.settlements, FilterMap(events, SettlementOf), SettlementKey)
            && HoldsFirst(t.lifecycle, FilterMap(events, LifecycleOf), LifecycleKey)
  {
    hide Classify, Replayed, HoldsFirst, InsertRows, FilterMap;
    TableByTableIsReplay(EMPTY_TABLES, events);
    FirstRowWins(FilterMap(events, CheckOf), CheckKey);
    FirstRowWins(FilterMap(events, SlaOf), SlaKey);
    FirstRowWins(FilterMap(events, SettlementOf), SettlementKey);
    FirstRowWins(FilterMap(events, LifecycleOf), LifecycleKey);
  }

  /** Grouping a page by table changes nothing: committing its batch leaves the tables exactly
      as applying its events one at a time, in chain order, would. */
  lemma GroupingInvisible(db: DbState, events: seq<DecodedEvent>, lastLedger: int, lastCursor: Option<string>)
    ensures Applied(db, BatchParams(lastLedger, lastCursor, BatchOf(events)))
            == DbState(Some(Checkpoint(lastLedger, lastCursor)), Replayed(db.tables, events))
  {
    hide Classify;
    AppliedTableByTable(db, BatchParams(lastLedger, lastCursor, BatchOf(events)));
    TableByTableIsReplay(db.tables, events);
  }

  // --------------------------------------------------- page cuts are invisible

  function Flatten(pages: seq<seq<DecodedEvent>>): seq<DecodedEvent> {
    if pages == [] then [] else Flatten(pages[..|pages| - 1]) + pages[|pages| - 1]
  }

  /** What ingesting a list of pages leaves: the tables, and how many pages went in. */
  datatype Ingested = Ingested(tables: Tables, pages: nat)

  /** Ingesting pages in turn: a page holding an event the classifier throws on fails whole, and
      because its cursor is never stored, no later page is reached. */
  function IngestPages(t: Tables, pages: seq<seq<DecodedEvent>>): (r: Ingested)
    ensures r.pages <= |pages|
  {
    if pages == [] then Ingested(t, 0)
    else
      var before := IngestPages(t, pages[..|pages| - 1]);
      if before.pages == |pages| - 1 && AllClassifiable(pages[|pages| - 1])
      then Ingested(TableByTable(before.tables, BatchOf(pages[|pages| - 1])), |pages|)
      else before
  }

  /** The first `k` pages hold classifiable events only, and the next one, if any, does not. */
  ghost predicate StopsAt(pages: seq<seq<DecodedEvent>>, k: nat) {
    && k <= |pages|
    && (forall i :: 0 <= i < k ==> AllClassifiable(pages[i]))
    && (k < |pages| ==> !AllClassifiable(pages[k]))
  }

  lemma {:induction false} FlattenClassifiable(pages: seq<seq<DecodedEvent>>)
    ensures AllClassifiable(Flatten(pages)) <==> forall i :: 0 <= i < |pages| ==> AllClassifiable(pages[i])
  {
    hide Classifiable;
    if pages != [] {
      var init, page := pages[..|pages| - 1], pages[|pages| - 1];
      FlattenClassifiable(init);
      var all := Flatten(pages);
      assert forall i :: 0 <= i < |Flatten(init)| ==> all[i] == Flatten(init)[i];
      assert forall i :: 0 <= i < |page| ==> all[|Flatten(init)| + i] == page[i];
      assert forall i :: 0 <= i < |init| ==> init[i] == pages[i];
    }
  }

  /** However a log is cut into pages, ingestion stops before the first page with an event the
      classifier throws on, and what it leaves are the tables of one in-order pass over the events
      of the pages before; with no such event it goes through to the end of the log. */
  lemma {:induction false} PagesInvisible(t: Tables, pages: seq<seq<DecodedEvent>>)
    ensures var r := IngestPages(t, pages);
            && StopsAt(pages, r.pages)
            && r.tables == Replayed(t, Flatten(pages[..r.pages]))
            && (r.pages == |pages| <==> AllClassifiable(Flatten(pages)))
  {
    FlattenClassifiable(pages);
    if pages != [] {
      hide Classify, TableByTable, BatchOf, Replayed, AllClassifiable;
      var init, page := pages[..|pages| - 1], pages[|pages| - 1];
      PagesInvisible(t, init);
      var before := IngestPages(t, init);
      assert forall i :: 0 <= i < |init| ==> init[i] == pages[i];
      if before.pages == |init| && AllClassifiable(page) {
        TableByTableIsReplay(before.tables, page);
        ReplayedConcat(t, Flatten(init), page);
        assert init[..|init|] == init && pages[..|pages|] == pages;
      } else {
        assert init[..before.pages] == pages[..before.pages];
      }
    } else {
      assert pages[..0] == [];
    }
  }

  /** The Node poller and the D1 worker use different page sizes on the same chain. Both get
      through it or neither does; when they do their tables agree, and when not, each has the
      tables of one pass over a part of the log that ends before an event the classifier throws
      on. */
  lemma PageSizesAgree(t: Tables, pages: seq<seq<DecodedEvent>>, pages': seq<seq<DecodedEvent>>)
    requires Flatten(pages) == Flatten(pages')
    ensures var r, r' := IngestPages(t, pages), IngestPages(t, pages');
            && (r.pages == |pages| <==> r'.pages == |pages'|)
            && (r.pages == |pages| ==> r.tables == r'.tables == Replayed(t, Flatten(pages)))
            && AllClassifiable(Flatten(pages[..r.pages])) && AllClassifiable(Flatten(pages'[..r'.pages]))
  {
    PagesInvisible(t, pages);
    PagesInvisible(t, pages');
    FlattenClassifiable(pages[..IngestPages(t, pages).pages]);
    FlattenClassifiable(pages'[..IngestPages(t, pages').pages]);
    assert pages[..|pages|] == pages && pages'[..|pages'|] == pages';
  }
}
