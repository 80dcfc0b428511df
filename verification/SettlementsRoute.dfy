/** GET /v1/slas/:slaId/settlements, in the worker (indexer/src/worker/routes.ts) and in the
    Node server (indexer/src/api/routes.ts): the limit rule, the page, the lazy threshold fill,
    the vote counts and the next cursor. */
module SettlementsRoute {
  import opened Wrappers
  import opened Events
  import opened Store
  import opened Replay
  import opened Redelivery
  import opened Thresholds
  import opened Pagination
  import opened Reads
  import opened JsNumbers
  import Decimal
  import LedgerClock

  // ---------------------------------------------------------------- the limit

  predicate IsInteger(r: real) {
    r.Floor as real == r
  }

  /** The limit rule; `query` is None when the parameter is absent. */
  function LimitOf(query: Option<JsNumber>): Result<nat, string> {
    var requested := if query.None? then Finite(20.0) else query.value;
    if requested.MinusInfinity? || (requested.Finite? && requested.r < 0.0) then
      Failure("limit must not be negative")
    else if requested.Finite? && !IsInteger(requested.r) then
      Failure("limit must be an integer")
    else
      match requested
      case NaN => Success(20)
      case PlusInfinity => Success(100)
      case Finite(r) =>
        if r == 0.0 then Success(20) else if r < 100.0 then Success(r.Floor) else Success(100)
  }

  /** Every query string gives a 400 or an integer limit in 1..100; the 400s are exactly the
      negative and the fractional numbers, and an in-range integer is taken as given. */
  lemma LimitRange(query: Option<JsNumber>)
    ensures LimitOf(query).Success? ==> 1 <= LimitOf(query).value <= 100
    ensures LimitOf(query).Failure? <==>
            query.Some? && (query.value.MinusInfinity?
                            || (query.value.Finite? && (query.value.r < 0.0 || !IsInteger(query.value.r))))
    ensures query.Some? && query.value.Finite? && query.value.r >= 0.0 && IsInteger(query.value.r) ==>
              var n := query.value.r.Floor;
              LimitOf(query) == Success(if n == 0 then 20 else if n <= 100 then n else 100)
    ensures LimitOf(None) == LimitOf(Some(NaN)) == Success(20) && LimitOf(Some(PlusInfinity)) == Success(100)
  {
    assert (20 as real).Floor == 20;
  }

  /** What the limit rule makes of the texts a client writes: a whole number in digits is taken as
      given up to 100 and cut to 100 above, zero falls back to 20, and a parameter that is absent,
      blank or not a number falls back to 20 as well. */
  lemma LimitOfText(rn: LedgerClock.Rounding, s: string)
    requires LedgerClock.RoundsToNearest(rn)
    ensures s != "" && Decimal.AllDigits(s) ==>
              var n := Decimal.Parse(s);
              LimitOf(Some(NumberOf(rn, s))) == Success(if n == 0 then 20 else if n <= 100 then n else 100)
    ensures NumberOf(rn, s).NaN? ==> LimitOf(Some(NumberOf(rn, s))) == Success(20)
    ensures LimitOf(None) == Success(20) && LimitOf(Some(NumberOf(rn, ""))) == Success(20)
  {
    assert (20 as real).Floor == 20;
    if s != "" && Decimal.AllDigits(s) {
      var n := Decimal.Parse(s);
      NumberOfDigits(rn, s);
      hide NumberOf, LedgerClock.RoundsToNearest;
      assert (n as real).Floor == n;
    }
  }

  /** A minus sign before a whole number in digits is a 400, unless the number is zero; a plus sign
      changes nothing. */
  lemma LimitOfSigned(rn: LedgerClock.Rounding, digits: string)
    requires LedgerClock.RoundsToNearest(rn) && digits != "" && Decimal.AllDigits(digits)
    ensures if Decimal.Parse(digits) == 0 then LimitOf(Some(NumberOf(rn, "-" + digits))) == Success(20)
            else LimitOf(Some(NumberOf(rn, "-" + digits))).Failure?
    ensures NumberOf(rn, "+" + digits) == NumberOf(rn, digits)
  {
    hide NumberOf, Decimal.AllDigits, Decimal.Parse, OverflowsAt;
    NumberOfSigned(rn, "-", digits);
    NumberOfSigned(rn, "+", digits);
    NumberOfSigned(rn, "", digits);
    Large();
    assert "" + digits == digits;
    var n: int := Decimal.Parse(digits);
    LedgerClock.RoundInteger(rn, -n);
    assert (-n) as real == -(n as real);
    hide LedgerClock.RoundsToNearest;
    assert (20 as real).Floor == 20;
  }

  // ----------------------------------------------------------------- the page

  /** The keys the settlements query ranges over. */
  function StoredKeys(t: Tables, slaId: string): set<Key> {
    set id | id in t.settlements && t.settlements[id].slaId == slaId :: Key(t.settlements[id].ledgerCloseTime, id)
  }

  /** The settlement's place in the order. */
  function KeyAt(t: Tables, id: string): Key
    requires id in t.settlements
  {
    Key(t.settlements[id].ledgerCloseTime, id)
  }

  /** A settlement of this SLA, older than the cursor if one was given. */
  predicate Candidate(t: Tables, slaId: string, before: Option<Key>, id: string) {
    id in t.settlements && t.settlements[id].slaId == slaId && (before.Some? ==> KeyLess(KeyAt(t, id), before.value))
  }

  /** `ids` are the newest `limit` settlements of the SLA below the cursor, newest first, and `more`
      says whether any is left out. */
  ghost predicate NewestOfSla(t: Tables, slaId: string, before: Option<Key>, limit: nat, ids: seq<string>, more: bool) {
    && (forall i :: 0 <= i < |ids| ==> Candidate(t, slaId, before, ids[i]))
    && (forall i, j :: 0 <= i < j < |ids| ==> KeyLess(KeyAt(t, ids[j]), KeyAt(t, ids[i])))
    && (forall id, i :: Candidate(t, slaId, before, id) && id !in ids && 0 <= i < |ids| ==>
          KeyLess(KeyAt(t, id), KeyAt(t, ids[i])))
    && |ids| <= limit && (more ==> |ids| == limit)
    && (more <==> exists id :: Candidate(t, slaId, before, id) && id !in ids)
  }

  function IdsOf(keys: seq<Key>): (ids: seq<string>)
    ensures |ids| == |keys| && forall i :: 0 <= i < |keys| ==> ids[i] == keys[i].id
  {
    seq(|keys|, i requires 0 <= i < |keys| => keys[i].id)
  }

  lemma KeyStored(t: Tables, slaId: string, before: Option<Key>, k: Key)
    ensures k in Pagination.Below(StoredKeys(t, slaId), before) <==> Candidate(t, slaId, before, k.id) && k == KeyAt(t, k.id)
  {
    assert k in StoredKeys(t, slaId) <==>
           k.id in t.settlements && t.settlements[k.id].slaId == slaId && t.settlements[k.id].ledgerCloseTime == k.time;
  }

  /** The query's page is that listing. */
  lemma PageLists(t: Tables, slaId: string, before: Option<Key>, limit: nat)
    ensures var page := PageOf(StoredKeys(t, slaId), before, limit);
            && NewestOfSla(t, slaId, before, limit, IdsOf(page.rows), page.hasMore)
            && forall i :: 0 <= i < |page.rows| ==> page.rows[i] == KeyAt(t, page.rows[i].id)
  {
    PageMeaning(StoredKeys(t, slaId), before, limit);
    hide PageOf, KeyLess, Pagination.Below, StoredKeys;
    var page, below := PageOf(StoredKeys(t, slaId), before, limit), Pagination.Below(StoredKeys(t, slaId), before);
    forall k
      ensures k in below <==> Candidate(t, slaId, before, k.id) && k == KeyAt(t, k.id)
    {
      KeyStored(t, slaId, before, k);
    }
    Listed(t, slaId, before, limit, page, below);
  }

  lemma Listed(t: Tables, slaId: string, before: Option<Key>, limit: nat, page: Page, below: set<Key>)
    requires forall id :: Candidate(t, slaId, before, id) ==> id in t.settlements
    requires forall k :: k in below <==> Candidate(t, slaId, before, k.id) && k == KeyAt(t, k.id)
    requires StrictlyDescending(page.rows) && forall k :: k in page.rows ==> k in below
    requires forall k, r :: k in below && k !in page.rows && r in page.rows ==> KeyLess(k, r)
    requires |page.rows| == (if |below| > limit then limit else |below|) && (page.hasMore <==> |below| > limit)
    requires !page.hasMore ==> forall k :: k in below ==> k in page.rows
    ensures NewestOfSla(t, slaId, before, limit, IdsOf(page.rows), page.hasMore)
    ensures forall i :: 0 <= i < |page.rows| ==> page.rows[i] == KeyAt(t, page.rows[i].id)
  {
    hide KeyLess;
    var ids := IdsOf(page.rows);
    forall i | 0 <= i < |ids|
      ensures Candidate(t, slaId, before, ids[i]) && page.rows[i] == KeyAt(t, ids[i])
    {
      assert page.rows[i] in page.rows;
    }
    forall id | Candidate(t, slaId, before, id)
      ensures KeyAt(t, id) in below && (id in ids <==> KeyAt(t, id) in page.rows)
    {
      assert KeyAt(t, id).id == id;
      if id in ids {
        var i :| 0 <= i < |ids| && ids[i] == id;
        assert page.rows[i] == KeyAt(t, id);
      }
      if KeyAt(t, id) in page.rows {
        var i :| 0 <= i < |page.rows| && page.rows[i] == KeyAt(t, id);
        assert ids[i] == id;
      }
    }
    if page.hasMore {
      LeftOver(below, page.rows);
      var k :| k in below && k !in page.rows;
      assert Candidate(t, slaId, before, k.id) && k.id !in ids;
    }
  }

  /** The rows under these ids. */
  function RowsAt(t: Tables, ids: seq<string>): (rows: seq<SettlementRow>)
    requires forall i :: 0 <= i < |ids| ==> ids[i] in t.settlements
    ensures |rows| == |ids| && forall i :: 0 <= i < |ids| ==> rows[i] == t.settlements[ids[i]]
  {
    seq(|ids|, i requires 0 <= i < |ids| => t.settlements[ids[i]])
  }

  /** Filling thresholds between two requests does not disturb the pages, and ingestion only
      adds keys. */
  lemma KeysOnlyGrow(t: Tables, slaId: string, events: seq<DecodedEvent>, filledSla: string, threshold: int)
    ensures StoredKeys(Filled(t, filledSla, threshold), slaId) == StoredKeys(t, slaId)
    ensures StoredKeys(t, slaId) <= StoredKeys(Replayed(t, events), slaId)
  {
    ReplayGrows(t, events);
    var t', t'' := Filled(t, filledSla, threshold), Replayed(t, events);
    forall k
      ensures k in StoredKeys(t', slaId) <==> k in StoredKeys(t, slaId)
      ensures k in StoredKeys(t, slaId) ==> k in StoredKeys(t'', slaId)
    {
      assert k in StoredKeys(t, slaId) <==>
             k.id in t.settlements && t.settlements[k.id].slaId == slaId && t.settlements[k.id].ledgerCloseTime == k.time;
      assert k in StoredKeys(t', slaId) <==>
             k.id in t'.settlements && t'.settlements[k.id].slaId == slaId && t'.settlements[k.id].ledgerCloseTime == k.time;
      if k in StoredKeys(t, slaId) {
        assert k.id in t''.settlements && t''.settlements[k.id] == t.settlements[k.id];
      }
    }
  }

  /** What happens to the tables between two requests: events are ingested, new or again, and
      thresholds are cached. */
  datatype Change = Ingested(events: seq<DecodedEvent>) | Cached(slaId: string, threshold: int)

  ghost function Changed(t: Tables, changes: seq<Change>): Tables {
    if changes == [] then t
    else
      var before := Changed(t, changes[..|changes| - 1]);
      match changes[|changes| - 1]
      case Ingested(events) => Replayed(before, events)
      case Cached(slaId, threshold) => Filled(before, slaId, threshold)
  }

  lemma {:induction false} ChangesKeepKeys(t: Tables, changes: seq<Change>, slaId: string)
    ensures StoredKeys(t, slaId) <= StoredKeys(Changed(t, changes), slaId)
  {
    hide StoredKeys, Replayed, Filled;
    if changes != [] {
      var before := Changed(t, changes[..|changes| - 1]);
      ChangesKeepKeys(t, changes[..|changes| - 1], slaId);
      match changes[|changes| - 1] {
        case Ingested(events) => KeysOnlyGrow(before, slaId, events, "", 0);
        case Cached(sla, threshold) => KeysOnlyGrow(before, slaId, [], sla, threshold);
      }
    }
  }

  /** The tables at each request, `changes[i]` happening between request i and the next. */
  ghost predicate Unfolds(states: seq<Tables>, changes: seq<seq<Change>>) {
    && |states| == |changes| + 1
    && forall i :: 0 <= i < |changes| ==> states[i + 1] == Changed(states[i], changes[i])
  }

  ghost function KeysAt(states: seq<Tables>, slaId: string): (snaps: seq<set<Key>>)
    ensures |snaps| == |states| && forall i :: 0 <= i < |states| ==> snaps[i] == StoredKeys(states[i], slaId)
  {
    seq(|states|, i requires 0 <= i < |states| => StoredKeys(states[i], slaId))
  }

  lemma {:induction false} KeysGrowAlong(states: seq<Tables>, changes: seq<seq<Change>>, slaId: string, i: nat, j: nat)
    requires Unfolds(states, changes) && i <= j < |states|
    ensures StoredKeys(states[i], slaId) <= StoredKeys(states[j], slaId)
    decreases j - i
  {
    hide StoredKeys, Changed;
    if i < j {
      KeysGrowAlong(states, changes, slaId, i, j - 1);
      ChangesKeepKeys(states[j - 1], changes[j - 1], slaId);
    }
  }

  /** Following next_cursor while the indexer goes on ingesting, re-delivering and caching: no
      settlement is returned twice, all come newest first and are settlements of the SLA, and when
      next_cursor is null every settlement of the SLA stored at the first request has been returned. */
  lemma FollowWhileIngesting(states: seq<Tables>, changes: seq<seq<Change>>, slaId: string, limit: nat)
    requires Unfolds(states, changes) && 1 <= limit
    ensures var c := RequestAll(KeysAt(states, slaId), limit);
            && StrictlyDescending(c.got)
            && (forall i, j :: 0 <= i < j < |c.got| ==> c.got[i] != c.got[j])
            && (forall k :: k in c.got ==>
                  && k.id in states[|states| - 1].settlements && states[|states| - 1].settlements[k.id].slaId == slaId
                  && states[|states| - 1].settlements[k.id].ledgerCloseTime == k.time)
            && (c.next.Done? ==>
                  forall id :: id in states[0].settlements && states[0].settlements[id].slaId == slaId ==>
                    Key(states[0].settlements[id].ledgerCloseTime, id) in c.got)
  {
    var snaps := KeysAt(states, slaId);
    forall i, j | 0 <= i <= j < |snaps|
      ensures snaps[i] <= snaps[j]
    {
      KeysGrowAlong(states, changes, slaId, i, j);
    }
    FollowWhileInserting(snaps, limit);
    assert snaps[0] == StoredKeys(states[0], slaId) && snaps[|snaps| - 1] == StoredKeys(states[|states| - 1], slaId);
  }

  // --------------------------------------------------------------- the answer

  /** The k-th live get_sla read of a request. */
  type LiveReads = nat -> Result<int, string>

  datatype Shown = Shown(row: SettlementRow, votesUp: nat, votesDown: nat)

  datatype Response =
    | BadRequest(message: string)
    | ServerError
    | Answer(data: seq<Shown>, nextCursor: Option<Key>)

  function WithVotes(t: Tables, rows: seq<SettlementRow>): (shown: seq<Shown>)
    ensures |shown| == |rows|
    ensures forall i :: 0 <= i < |rows| ==>
              shown[i] == Shown(rows[i], Votes(t, rows[i].slaId, rows[i].roundId, Up),
                                Votes(t, rows[i].slaId, rows[i].roundId, Down))
  {
    seq(|rows|, i requires 0 <= i < |rows| =>
      Shown(rows[i], Votes(t, rows[i].slaId, rows[i].roundId, Up), Votes(t, rows[i].slaId, rows[i].roundId, Down)))
  }

  /** The stored rows, with the fetched threshold shown wherever a row had none; `from` is the
      first row the fetch was there for. */
  ghost predicate ShowsFilled(stored: seq<SettlementRow>, shown: seq<SettlementRow>, fetched: Option<int>, from: nat) {
    && |shown| == |stored|
    && forall i :: 0 <= i < |stored| ==>
         shown[i] == if stored[i].quorumThreshold == None && i >= from && fetched.Some?
                     then stored[i].(quorumThreshold := fetched) else stored[i]
  }

  /** The live reads of a request: at most one succeeded, and it was the last. */
  ghost predicate LastMaySucceed(live: LiveReads, used: nat, fetched: Option<int>) {
    && (forall k: nat :: k + 1 < used ==> live(k).Failure?)
    && fetched == if used > 0 && live(used - 1).Success? then Some(live(used - 1).value) else None
  }

  /** The answer shows exactly these settlements, in order, with the votes of each row's round and
      the fetched threshold wherever the stored one was missing. */
  ghost predicate ShowsRows(t: Tables, ids: seq<string>, data: seq<Shown>, fetched: Option<int>, from: nat) {
    && |data| == |ids|
    && forall i :: 0 <= i < |ids| ==>
         && ids[i] in t.settlements
         && var stored := t.settlements[ids[i]];
            && data[i].row == (if stored.quorumThreshold == None && i >= from && fetched.Some?
                               then stored.(quorumThreshold := fetched) else stored)
            && data[i].votesUp == Votes(t, stored.slaId, stored.roundId, Up)
            && data[i].votesDown == Votes(t, stored.slaId, stored.roundId, Down)
  }

  lemma ShownRows(t: Tables, t': Tables, ids: seq<string>, rows: seq<SettlementRow>, fetched: Option<int>, from: nat)
    requires forall i :: 0 <= i < |ids| ==> ids[i] in t.settlements
    requires ShowsFilled(RowsAt(t, ids), rows, fetched, from)
    requires t'.checks == t.checks
    ensures ShowsRows(t, ids, WithVotes(t', rows), fetched, from)
  {
    var stored := RowsAt(t, ids);
    forall i | 0 <= i < |rows|
      ensures rows[i].slaId == stored[i].slaId && rows[i].roundId == stored[i].roundId
    {
    }
    assert forall sla, round, status :: VoteIds(t', sla, round, status) == VoteIds(t, sla, round, status);
  }

  /** The page of an answer: the newest settlements of the SLA below the cursor, up to the limit,
      each row one of them, and the cursor of the last one if any is left. */
  ghost predicate AnswersPage(t: Tables, slaId: string, before: Option<Key>, limit: nat, ids: seq<string>,
                              data: seq<Shown>, next: Option<Key>)
  {
    && NewestOfSla(t, slaId, before, limit, ids, next.Some?)
    && (next.Some? ==> ids != [] && next.value == KeyAt(t, ids[|ids| - 1]))
    && |data| == |ids| && forall i :: 0 <= i < |data| ==> data[i].row.slaId == slaId
  }

  lemma PageAnswered(t: Tables, slaId: string, before: Option<Key>, limit: nat, data: seq<Shown>, fetched: Option<int>,
                     from: nat)
    requires limit > 0
    requires var page := PageOf(StoredKeys(t, slaId), before, limit); ShowsRows(t, IdsOf(page.rows), data, fetched, from)
    ensures var page := PageOf(StoredKeys(t, slaId), before, limit);
            AnswersPage(t, slaId, before, limit, IdsOf(page.rows), data, NextCursor(page))
  {
    PageLists(t, slaId, before, limit);
    hide PageOf, StoredKeys, KeyLess, Votes;
  }

  lemma CacheKeepsChecks(db: DbState, slaId: string, threshold: int)
    ensures CacheThreshold(db, slaId, threshold).tables.checks == db.tables.checks
  {
    CacheThresholdFills(db, slaId, threshold);
  }

  lemma ShowsFilledNext(stored: seq<SettlementRow>, shown: seq<SettlementRow>, fetched: Option<int>, from: nat,
                        fetched': Option<int>, from': nat, next: SettlementRow, row: SettlementRow)
    requires ShowsFilled(stored, shown, fetched, from)
    requires (fetched == fetched' && from == from') || (fetched.None? && from' == |stored|)
    requires row == if next.quorumThreshold == None && |stored| >= from' && fetched'.Some?
                    then next.(quorumThreshold := fetched') else next
    ensures ShowsFilled(stored + [next], shown + [row], fetched', from')
  {
  }

  /** How many of the rows have no stored threshold. */
  function NullRows(rows: seq<SettlementRow>): nat {
    if rows == [] then 0
    else NullRows(rows[..|rows| - 1]) + if rows[|rows| - 1].quorumThreshold == None then 1 else 0
  }

  lemma NullRowsNext(rows: seq<SettlementRow>, i: nat)
    requires i < |rows|
    ensures NullRows(rows[..i + 1]) == NullRows(rows[..i]) + if rows[i].quorumThreshold == None then 1 else 0
  {
    assert rows[..i + 1][..i] == rows[..i];
  }

  /** One live read for each row without a threshold, up to and including the first that
      succeeds: that was for row `from`. */
  ghost predicate ReadsEachNull(stored: seq<SettlementRow>, used: nat, fetched: Option<int>, from: nat) {
    if fetched.None? then used == NullRows(stored)
    else from < |stored| && stored[from].quorumThreshold == None && used == NullRows(stored[..from]) + 1
  }

  /** setSlaQuorumThreshold commits. */
  ghost predicate StoreUp(faults: Faults) {
    FaultFree(faults, 2)
  }

  lemma ReadsEachNullNext(stored: seq<SettlementRow>, i: nat, used: nat, fetched: Option<int>, from: nat,
                          used': nat, fetched': Option<int>, from': nat)
    requires i < |stored| && ReadsEachNull(stored[..i], used, fetched, from)
    requires if stored[i].quorumThreshold == None && fetched.None?
             then used' == used + 1 && (fetched'.Some? ==> from' == i)
             else used' == used && fetched' == fetched && from' == from
    ensures ReadsEachNull(stored[..i + 1], used', fetched', from')
    ensures fetched'.Some? ==> from' <= i
  {
    NullRowsNext(stored, i);
    if fetched'.Some? && from' <= i {
      assert stored[..i + 1][..from'] == stored[..i][..from'];
    }
  }

  lemma LastNext(live: LiveReads, used: nat)
    requires LastMaySucceed(live, used, None)
    ensures LastMaySucceed(live, used + 1, if live(used).Success? then Some(live(used).value) else None)
  {
  }

  /** The worker's loop over the page. A failed read is logged and retried at the next row that
      needs one; a failed store is logged too, and the value is shown all the same. */
  method WorkerFill(d1: IndexerD1, slaId: string, stored: seq<SettlementRow>, live: LiveReads, faults: Faults)
    returns (rows: seq<SettlementRow>, used: nat, ghost fetched: Option<int>, ghost from: nat)
    modifies d1
    ensures ShowsFilled(stored, rows, fetched, from)
    ensures LastMaySucceed(live, used, fetched) && ReadsEachNull(stored, used, fetched, from)
    ensures d1.db == if fetched.Some? && StoreUp(faults) then CacheThreshold(old(d1.db), slaId, fetched.value) else old(d1.db)
  {
    used, fetched, from, rows := 0, None, 0, [];
    var cachedThreshold: Option<int> := None;
    assert ShowsFilled(stored[..0], rows, fetched, from) && ReadsEachNull(stored[..0], used, fetched, from);
    assert LastMaySucceed(live, used, fetched);
    hide ShowsFilled, ReadsEachNull, CacheThreshold, FaultFree, LastMaySucceed;
    for i := 0 to |stored|
      invariant |rows| == i
      invariant cachedThreshold == fetched && LastMaySucceed(live, used, fetched)
      invariant ShowsFilled(stored[..i], rows, fetched, from)
      invariant ReadsEachNull(stored[..i], used, fetched, from)
      invariant d1.db == if fetched.Some? && StoreUp(faults) then CacheThreshold(old(d1.db), slaId, fetched.value)
                         else old(d1.db)
    {
      var row := stored[i];
      ghost var fetched0, from0, used0, rows0 := fetched, from, used, rows;
      if row.quorumThreshold == None {
        if cachedThreshold == None {
          var read := live(used);
          LastNext(live, used);
          used := used + 1;
          if read.Success? {
            cachedThreshold := Some(read.value);
            fetched, from := cachedThreshold, i;
            var _ := d1.SetSlaQuorumThreshold(slaId, read.value, faults);
          }
        }
        if cachedThreshold != None {
          row := row.(quorumThreshold := cachedThreshold);
        }
      }
      rows := rows + [row];
      ReadsEachNullNext(stored, i, used0, fetched0, from0, used, fetched, from);
      ShowsFilledNext(stored[..i], rows0, fetched0, from0, fetched, from, stored[i], row);
      assert stored[..i + 1] == stored[..i] + [stored[i]];
    }
    assert stored[..|stored|] == stored;
  }

  /** The worker's settlements branch. */
  method WorkerSettlements(d1: IndexerD1, slaId: string, query: Option<JsNumber>, before: Option<Key>,
                           live: LiveReads, faults: Faults)
    returns (response: Response, used: nat, ghost ids: seq<string>, ghost fetched: Option<int>, ghost from: nat)
    modifies d1
    ensures LastMaySucceed(live, used, fetched)
    ensures d1.db == if fetched.Some? && StoreUp(faults) then CacheThreshold(old(d1.db), slaId, fetched.value) else old(d1.db)
    ensures response.BadRequest? <==> LimitOf(query).Failure?
    ensures response.BadRequest? ==> used == 0
    ensures !response.BadRequest? ==>
              && response.Answer?
              && AnswersPage(old(d1.db.tables), slaId, before, LimitOf(query).value, ids, response.data, response.nextCursor)
              && ShowsRows(old(d1.db.tables), ids, response.data, fetched, from)
              && ReadsEachNull(RowsAt(old(d1.db.tables), ids), used, fetched, from)
              && var page := PageOf(StoredKeys(old(d1.db.tables), slaId), before, LimitOf(query).value);
                 ids == IdsOf(page.rows) && response.nextCursor == NextCursor(page)
    ensures response.Answer? && live(0).Success? ==>
              used <= 1 && forall i :: 0 <= i < |response.data| ==> response.data[i].row.quorumThreshold.Some?
  {
    var limit := LimitOf(query);
    if limit.Failure? {
      return BadRequest(limit.error), 0, [], None, 0;
    }
    LimitRange(query);
    hide PageOf, StoredKeys, CacheThreshold, NullRows, ShowsFilled, ShowsRows, AnswersPage, FaultFree, NewestOfSla,
         ReadsEachNull;
    ghost var db0 := d1.db;
    var t := d1.db.tables;
    var page := PageOf(StoredKeys(t, slaId), before, limit.value);
    PageStored(t, slaId, before, limit.value);
    ids := IdsOf(page.rows);
    var stored, rows := RowsAt(t, IdsOf(page.rows)), [];
    rows, used, fetched, from := WorkerFill(d1, slaId, stored, live, faults);
    if fetched.Some? {
      CacheKeepsChecks(db0, slaId, fetched.value);
    }
    ShownRows(t, d1.db.tables, ids, rows, fetched, from);
    PageAnswered(t, slaId, before, limit.value, WithVotes(d1.db.tables, rows), fetched, from);
    response := Answer(WithVotes(d1.db.tables, rows), NextCursor(page));
    if live(0).Success? {
      FirstReadFills(stored, rows, live, used, fetched, from);
    }
  }

  lemma PageStored(t: Tables, slaId: string, before: Option<Key>, limit: nat)
    ensures forall k :: k in PageOf(StoredKeys(t, slaId), before, limit).rows ==> k.id in t.settlements
  {
    PageMeaning(StoredKeys(t, slaId), before, limit);
  }

  lemma {:induction false} NoNullRows(rows: seq<SettlementRow>)
    ensures NullRows(rows) == 0 <==> forall i :: 0 <= i < |rows| ==> rows[i].quorumThreshold.Some?
  {
    if rows != [] {
      var init := rows[..|rows| - 1];
      NoNullRows(init);
      assert forall i :: 0 <= i < |init| ==> init[i] == rows[i];
    }
  }

  /** When the first live read succeeds, no row is shown without a threshold. */
  lemma FirstReadFills(stored: seq<SettlementRow>, rows: seq<SettlementRow>, live: LiveReads, used: nat,
                       fetched: Option<int>, from: nat)
    requires ShowsFilled(stored, rows, fetched, from) && LastMaySucceed(live, used, fetched)
    requires ReadsEachNull(stored, used, fetched, from) && live(0).Success?
    ensures used <= 1 && forall i :: 0 <= i < |rows| ==> rows[i].quorumThreshold.Some?
  {
    if fetched.None? {
      NoNullRows(stored);
    } else {
      NoNullRows(stored[..from]);
      forall i | 0 <= i < |rows|
        ensures rows[i].quorumThreshold.Some?
      {
        if i < from {
          assert stored[..from][i] == stored[i];
        }
      }
    }
  }

  /** The Node server's loop: a failed read or store is an exception, so the first row that
      needs a threshold decides. */
  method NodeFill(db: IndexerDb, slaId: string, stored: seq<SettlementRow>, live: LiveReads, faults: Faults)
    returns (ok: bool, rows: seq<SettlementRow>, used: nat, ghost fetched: Option<int>)
    modifies db
    ensures used == (if exists i :: 0 <= i < |stored| && stored[i].quorumThreshold == None then 1 else 0)
    ensures LastMaySucceed(live, used, fetched)
    ensures ok <==> used == 0 || (fetched.Some? && StoreUp(faults))
    ensures ok ==> ShowsFilled(stored, rows, fetched, 0)
    ensures db.State() == if fetched.Some? && StoreUp(faults) then CacheThreshold(old(db.State()), slaId, fetched.value)
                          else old(db.State())
  {
    used, fetched, rows := 0, None, [];
    var cachedThreshold: Option<int> := None;
    for i := 0 to |stored|
      invariant |rows| == i
      invariant used == if exists j :: 0 <= j < i && stored[j].quorumThreshold == None then 1 else 0
      invariant cachedThreshold == fetched && LastMaySucceed(live, used, fetched)
      invariant (used == 1 <==> fetched.Some?) && (used == 1 ==> StoreUp(faults))
      invariant ShowsFilled(stored[..i], rows, fetched, 0)
      invariant db.State() == if fetched.Some? then CacheThreshold(old(db.State()), slaId, fetched.value) else old(db.State())
    {
      var row := stored[i];
      ghost var rows0 := rows;
      if row.quorumThreshold == None {
        if cachedThreshold == None {
          var read := live(used);
          used := used + 1;
          if read.Failure? {
            return false, [], used, fetched;
          }
          cachedThreshold := Some(read.value);
          fetched := cachedThreshold;
          var committed := db.SetSlaQuorumThreshold(slaId, read.value, faults);
          if !committed {
            return false, [], used, fetched;
          }
        }
        row := row.(quorumThreshold := cachedThreshold);
      }
      rows := rows + [row];
      FirstFill(stored[..i], rows0, fetched, stored[i], row);
      assert stored[..i + 1] == stored[..i] + [stored[i]];
    }
    assert stored[..|stored|] == stored;
    ok := true;
  }

  lemma FirstFill(stored: seq<SettlementRow>, shown: seq<SettlementRow>, fetched: Option<int>,
                  next: SettlementRow, row: SettlementRow)
    requires ShowsFilled(stored, shown, fetched, 0)
             || (ShowsFilled(stored, shown, None, 0)
                 && forall i :: 0 <= i < |stored| ==> stored[i].quorumThreshold != None)
    requires row == if next.quorumThreshold == None && fetched.Some? then next.(quorumThreshold := fetched) else next
    ensures ShowsFilled(stored + [next], shown + [row], fetched, 0)
  {
  }

  lemma SomeNullRow(rows: seq<SettlementRow>)
    ensures NullRows(rows) > 0 <==> exists i :: 0 <= i < |rows| && rows[i].quorumThreshold == None
  {
    NoNullRows(rows);
  }

  lemma AllFilled(stored: seq<SettlementRow>, rows: seq<SettlementRow>, fetched: Option<int>)
    requires ShowsFilled(stored, rows, fetched, 0) && (fetched.Some? || NullRows(stored) == 0)
    ensures forall i :: 0 <= i < |rows| ==> rows[i].quorumThreshold.Some?
  {
    NoNullRows(stored);
  }

  /** The Node server's settlements route. */
  method NodeSettlements(db: IndexerDb, slaId: string, query: Option<JsNumber>, before: Option<Key>,
                         live: LiveReads, faults: Faults)
    returns (response: Response, used: nat, ghost ids: seq<string>, ghost fetched: Option<int>)
    modifies db
    ensures used <= 1 && LastMaySucceed(live, used, fetched)
    ensures db.State() == if fetched.Some? && StoreUp(faults) then CacheThreshold(old(db.State()), slaId, fetched.value)
                          else old(db.State())
    ensures response.BadRequest? <==> LimitOf(query).Failure?
    ensures response.BadRequest? ==> used == 0
    ensures !response.BadRequest? ==>
              && (exists more :: NewestOfSla(old(db.State()).tables, slaId, before, LimitOf(query).value, ids, more))
              && (used == 1 <==> exists i :: 0 <= i < |ids| && old(db.State()).tables.settlements[ids[i]].quorumThreshold.None?)
    ensures response.ServerError? <==> used == 1 && (fetched.None? || !StoreUp(faults))
    ensures response.Answer? ==>
              && AnswersPage(old(db.State()).tables, slaId, before, LimitOf(query).value, ids, response.data,
                             response.nextCursor)
              && ShowsRows(old(db.State()).tables, ids, response.data, fetched, 0)
              && (forall i :: 0 <= i < |response.data| ==> response.data[i].row.quorumThreshold.Some?)
              && var page := PageOf(StoredKeys(old(db.State()).tables, slaId), before, LimitOf(query).value);
                 ids == IdsOf(page.rows) && response.nextCursor == NextCursor(page)
  {
    var limit := LimitOf(query);
    if limit.Failure? {
      return BadRequest(limit.error), 0, [], None;
    }
    LimitRange(query);
    ghost var db0 := db.State();
    var t := db.State().tables;
    var page := PageOf(StoredKeys(t, slaId), before, limit.value);
    PageStored(t, slaId, before, limit.value);
    PageLists(t, slaId, before, limit.value);
    hide PageOf, StoredKeys, CacheThreshold, NullRows, ShowsFilled, ShowsRows, AnswersPage, FaultFree, NewestOfSla,
         LimitOf, NextCursor, LastMaySucceed, StoreUp, WithVotes, KeyAt, Candidate;
    ids := IdsOf(page.rows);
    assert NewestOfSla(t, slaId, before, limit.value, ids, page.hasMore);
    var stored := RowsAt(t, IdsOf(page.rows));
    SomeNullRow(stored);
    var ok, rows;
    ok, rows, used, fetched := NodeFill(db, slaId, stored, live, faults);
    if !ok {
      return ServerError, used, ids, fetched;
    }
    if fetched.Some? {
      CacheKeepsChecks(db0, slaId, fetched.value);
    }
    AllFilled(stored, rows, fetched);
    ShownRows(t, db.State().tables, ids, rows, fetched, 0);
    PageAnswered(t, slaId, before, limit.value, WithVotes(db.State().tables, rows), fetched, 0);
    response := Answer(WithVotes(db.State().tables, rows), NextCursor(page));
  }
}
