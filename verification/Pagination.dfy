/** Keyset pagination over (ledger_close_time, event_id), newest first
    (indexer/src/db/d1.ts getSettlementsPage, indexer/src/api/pagination.ts), and a client that
    follows next_cursor while rows are being inserted. */
module Pagination {
  import opened Wrappers
  import opened Arithmetic

  // ---------------------------------------------------------------- the order

  /** SQLite's BINARY collation: memcmp order, which on UTF-8 is code point order. */
  predicate TextLess(a: string, b: string) {
    b != [] && (a == [] || a[0] < b[0] || (a[0] == b[0] && TextLess(a[1..], b[1..])))
  }

  datatype Key = Key(time: string, id: string)

  /** Row-value comparison `(ledger_close_time, event_id) < (?, ?)`. */
  predicate KeyLess(a: Key, b: Key) {
    TextLess(a.time, b.time) || (a.time == b.time && TextLess(a.id, b.id))
  }

  /** The texts agree up to character n; there `a` ends, or has the smaller character. */
  ghost predicate LessFrom(a: string, b: string, n: nat) {
    && n <= |a| && n < |b| && (forall j :: 0 <= j < n ==> a[j] == b[j])
    && (n == |a| || a[n] < b[n])
  }

  lemma {:induction false} TextLessMeans(a: string, b: string)
    ensures TextLess(a, b) <==> exists n: nat :: LessFrom(a, b, n)
  {
    if a == [] || b == [] || a[0] != b[0] {
      assert TextLess(a, b) ==> LessFrom(a, b, 0);
    } else {
      TextLessMeans(a[1..], b[1..]);
      if n: nat :| LessFrom(a[1..], b[1..], n) {
        assert LessFrom(a, b, n + 1);
      }
      if n: nat :| LessFrom(a, b, n) {
        assert LessFrom(a[1..], b[1..], n - 1);
      }
    }
  }

  /** The earlier close time is less; among equal times the smaller event id is. A text is less
      than another when it is a proper prefix of it or has the smaller character where they first
      differ. */
  lemma KeyLessMeans(a: Key, b: Key)
    ensures a.time != b.time ==> (KeyLess(a, b) <==> exists n: nat :: LessFrom(a.time, b.time, n))
    ensures a.time == b.time ==> (KeyLess(a, b) <==> exists n: nat :: LessFrom(a.id, b.id, n))
  {
    TextTotal(a.time, b.time);
    TextLessMeans(a.time, b.time);
    TextLessMeans(a.id, b.id);
    hide TextLess;
  }

  lemma {:induction false} TextTotal(a: string, b: string)
    ensures a == b || TextLess(a, b) || TextLess(b, a)
    ensures !(TextLess(a, b) && TextLess(b, a)) && !TextLess(a, a)
  {
    if a != [] && b != [] && a[0] == b[0] {
      TextTotal(a[1..], b[1..]);
      assert a == [a[0]] + a[1..] && b == [b[0]] + b[1..];
    }
    if a != [] {
      TextTotal(a[1..], a[1..]);
    }
  }

  lemma {:induction false} TextTransitive(a: string, b: string, c: string)
    requires TextLess(a, b) && TextLess(b, c)
    ensures TextLess(a, c)
  {
    if a != [] && a[0] == b[0] == c[0] {
      TextTransitive(a[1..], b[1..], c[1..]);
    }
  }

  /** The key order is a strict total order. */
  lemma KeyOrder()
    ensures forall a, b :: a == b || KeyLess(a, b) || KeyLess(b, a)
    ensures forall a, b :: KeyLess(a, b) ==> !KeyLess(b, a) && a != b
    ensures forall a, b, c :: KeyLess(a, b) && KeyLess(b, c) ==> KeyLess(a, c)
  {
    forall a, b
      ensures a == b || KeyLess(a, b) || KeyLess(b, a)
      ensures KeyLess(a, b) ==> !KeyLess(b, a) && a != b
    {
      TextTotal(a.time, b.time);
      TextTotal(a.id, b.id);
    }
    forall a, b, c | KeyLess(a, b) && KeyLess(b, c)
      ensures KeyLess(a, c)
    {
      TextTotal(a.time, b.time);
      if TextLess(a.time, b.time) && TextLess(b.time, c.time) {
        TextTransitive(a.time, b.time, c.time);
      }
      if TextLess(a.id, b.id) && TextLess(b.id, c.id) {
        TextTransitive(a.id, b.id, c.id);
      }
    }
  }

  predicate IsNewest(s: set<Key>, m: Key) {
    m in s && forall k :: k in s ==> k == m || KeyLess(k, m)
  }

  lemma {:induction false} NewestExists(s: set<Key>)
    requires s != {}
    ensures exists m :: IsNewest(s, m)
  {
    KeyOrder();
    var x :| x in s;
    if s - {x} == {} {
      assert s == {x};
      assert IsNewest(s, x);
    } else {
      NewestExists(s - {x});
      var m :| IsNewest(s - {x}, m);
      assert IsNewest(s, if KeyLess(m, x) then x else m);
    }
  }

  /** `ORDER BY ledger_close_time DESC, event_id DESC`. */
  function NewestFirst(s: set<Key>): seq<Key> {
    if s == {} then []
    else
      NewestExists(s);
      KeyOrder();
      var m :| IsNewest(s, m);
      [m] + NewestFirst(s - {m})
  }

  predicate StrictlyDescending(keys: seq<Key>) {
    forall i, j :: 0 <= i < j < |keys| ==> KeyLess(keys[j], keys[i])
  }

  lemma Prepend(m: Key, rest: seq<Key>)
    requires StrictlyDescending(rest) && forall k :: k in rest ==> KeyLess(k, m)
    ensures StrictlyDescending([m] + rest)
  {
    hide KeyLess;
    var all := [m] + rest;
    forall i, j | 0 <= i < j < |all|
      ensures KeyLess(all[j], all[i])
    {
      assert all[j] == rest[j - 1];
    }
  }

  lemma {:induction false} NewestFirstSorted(s: set<Key>)
    ensures StrictlyDescending(NewestFirst(s))
    ensures |NewestFirst(s)| == |s| && forall k :: k in NewestFirst(s) <==> k in s
  {
    hide KeyLess, StrictlyDescending;
    if s == {} {
      EmptyDescends();
    } else {
      var m, rest := NewestFirst(s)[0], NewestFirst(s)[1..];
      assert IsNewest(s, m) && rest == NewestFirst(s - {m});
      NewestFirstSorted(s - {m});
      Prepend(m, rest);
      assert NewestFirst(s) == [m] + rest;
    }
  }

  lemma EmptyDescends()
    ensures StrictlyDescending([])
  {
  }

  /** A set has only one strictly descending listing. */
  lemma {:induction false} SortedUnique(keys: seq<Key>, s: set<Key>)
    requires StrictlyDescending(keys)
    requires forall k :: k in keys <==> k in s
    ensures keys == NewestFirst(s)
  {
    KeyOrder();
    if keys == [] {
      assert s == {};
    } else {
      assert keys[0] in s;
      NewestExists(s);
      assert IsNewest(s, keys[0]) by {
        forall k | k in s
          ensures k == keys[0] || KeyLess(k, keys[0])
        {
          var i :| 0 <= i < |keys| && keys[i] == k;
        }
      }
      var rest := keys[1..];
      assert keys == [keys[0]] + rest;
      forall k
        ensures k in rest <==> k in s - {keys[0]}
      {
        if k in rest {
          var i :| 0 <= i < |rest| && rest[i] == k;
          assert keys[i + 1] == k;
        }
      }
      SortedUnique(rest, s - {keys[0]});
    }
  }

  // ----------------------------------------------------------------- one page

  function Below(s: set<Key>, before: Option<Key>): set<Key> {
    if before.None? then s else set k | k in s && KeyLess(k, before.value)
  }

  datatype Page = Page(rows: seq<Key>, hasMore: bool)

  /** getSettlementsPage: asks for limit + 1 rows and keeps limit of them. */
  function PageOf(s: set<Key>, before: Option<Key>, limit: nat): Page {
    var all := NewestFirst(Below(s, before));
    var rows := if |all| > limit + 1 then all[..limit + 1] else all;
    var hasMore := |rows| > limit;
    Page(if hasMore then rows[..limit] else rows, hasMore)
  }

  function NextCursor(page: Page): Option<Key> {
    if page.hasMore && page.rows != [] then Some(page.rows[|page.rows| - 1]) else None
  }

  /** A page is the newest `limit` keys below the cursor: strictly descending, nothing skipped,
      and hasMore says whether anything is left below it. */
  lemma PageMeaning(s: set<Key>, before: Option<Key>, limit: nat)
    ensures var page := PageOf(s, before, limit);
            && StrictlyDescending(page.rows)
            && (forall k :: k in page.rows ==> k in Below(s, before))
            && (forall k, r :: k in Below(s, before) && k !in page.rows && r in page.rows ==> KeyLess(k, r))
            && |page.rows| == (if |Below(s, before)| > limit then limit else |Below(s, before)|)
            && (page.hasMore <==> |Below(s, before)| > limit)
            && (!page.hasMore ==> forall k :: k in Below(s, before) ==> k in page.rows)
  {
    var b := Below(s, before);
    var all := NewestFirst(b);
    NewestFirstSorted(b);
    var page := PageOf(s, before, limit);
    assert page.rows == if |all| > limit then all[..limit] else all;
    forall k, r | k in b && k !in page.rows && r in page.rows
      ensures KeyLess(k, r)
    {
      var i :| 0 <= i < |all| && all[i] == k;
      var j :| 0 <= j < |page.rows| && page.rows[j] == r;
      assert all[j] == r;
    }
  }

  // ---------------------------------------------------- following next_cursor

  datatype Next = Start | After(key: Key) | Done

  /** A client that requests pages until next_cursor is null. */
  datatype Client = Client(got: seq<Key>, next: Next, requests: nat)

  const FRESH := Client([], Start, 0)

  function CursorOf(next: Next): Option<Key> {
    match next
    case After(k) => Some(k)
    case _ => None
  }

  /** One request, served from the keys stored at that moment. */
  function Request(c: Client, stored: set<Key>, limit: nat): Client {
    if c.next.Done? then c
    else
      var page := PageOf(stored, CursorOf(c.next), limit);
      Client(c.got + page.rows,
             match NextCursor(page) case None => Done case Some(k) => After(k),
             c.requests + 1)
  }

  /** `snaps[i]` are the keys stored when request i is served. */
  function RequestAll(snaps: seq<set<Key>>, limit: nat): Client {
    if snaps == [] then FRESH else Request(RequestAll(snaps[..|snaps| - 1], limit), snaps[|snaps| - 1], limit)
  }

  ghost predicate OnlyInsertions(snaps: seq<set<Key>>) {
    forall i, j :: 0 <= i <= j < |snaps| ==> snaps[i] <= snaps[j]
  }

  /** `first` was stored before the first request, `now` is stored at the last one. */
  ghost predicate ClientInv(first: set<Key>, now: set<Key>, c: Client) {
    && StrictlyDescending(c.got)
    && (forall k :: k in c.got ==> k in now)
    && match c.next
       case Start => c.got == []
       case After(cut) =>
         && (forall k :: k in c.got ==> !KeyLess(k, cut))
         && (forall k :: k in first ==> k in c.got || KeyLess(k, cut))
       case Done => forall k :: k in first ==> k in c.got
  }

  lemma RequestKeeps(first: set<Key>, before: set<Key>, now: set<Key>, c: Client, limit: nat)
    requires ClientInv(first, before, c) && first <= now && before <= now && limit > 0
    ensures ClientInv(first, now, Request(c, now, limit))
  {
    if !c.next.Done? {
      var page, cursor := PageOf(now, CursorOf(c.next), limit), CursorOf(c.next);
      PageMeaning(now, cursor, limit);
      hide PageOf, ClientInv, StrictlyDescending;
      if page.hasMore {
        LastIsLeast(page.rows);
      }
      Absorb(first, now, c, page.rows, NextCursor(page));
    }
  }

  /** What a page with these properties does to the client. */
  lemma Absorb(first: set<Key>, now: set<Key>, c: Client, rows: seq<Key>, next: Option<Key>)
    requires ClientInv(first, now, c) && !c.next.Done? && first <= now
    requires StrictlyDescending(rows) && forall k :: k in rows ==> k in Below(now, CursorOf(c.next))
    requires match next
             case None => forall k :: k in Below(now, CursorOf(c.next)) ==> k in rows
             case Some(cut) =>
               && cut in rows && (forall k :: k in rows ==> !KeyLess(k, cut))
               && (forall k :: k in Below(now, CursorOf(c.next)) && k !in rows ==> KeyLess(k, cut))
    ensures ClientInv(first, now, Client(c.got + rows, match next case None => Done case Some(k) => After(k),
                                         c.requests + 1))
  {
    match c.next {
      case Start =>
        assert c.got + rows == rows;
      case After(cursor) =>
        Appended(c.got, rows, cursor);
        if next.Some? {
          forall k | k in c.got
            ensures !KeyLess(k, next.value)
          {
            TransitiveAt(k, next.value, cursor);
          }
        }
    }
  }

  lemma TransitiveAt(a: Key, b: Key, c: Key)
    requires KeyLess(b, c)
    ensures KeyLess(a, b) ==> KeyLess(a, c)
  {
    KeyOrder();
  }

  lemma LastIsLeast(rows: seq<Key>)
    requires StrictlyDescending(rows) && rows != []
    ensures forall k :: k in rows ==> !KeyLess(k, rows[|rows| - 1])
  {
    KeyOrder();
    forall k | k in rows
      ensures !KeyLess(k, rows[|rows| - 1])
    {
      var i :| 0 <= i < |rows| && rows[i] == k;
    }
  }

  lemma Appended(prior: seq<Key>, rows: seq<Key>, cut: Key)
    requires StrictlyDescending(prior) && StrictlyDescending(rows)
    requires forall k :: k in prior ==> !KeyLess(k, cut)
    requires forall k :: k in rows ==> KeyLess(k, cut)
    ensures StrictlyDescending(prior + rows)
  {
    KeyOrder();
    var all := prior + rows;
    forall i, j | 0 <= i < j < |all|
      ensures KeyLess(all[j], all[i])
    {
      if i < |prior| <= j {
        assert all[i] in prior && all[j] in rows;
      }
    }
  }

  lemma {:induction false} RequestAllInv(snaps: seq<set<Key>>, limit: nat)
    requires snaps != [] && OnlyInsertions(snaps) && limit > 0
    ensures ClientInv(snaps[0], snaps[|snaps| - 1], RequestAll(snaps, limit))
    decreases |snaps|
  {
    var n := |snaps|;
    var init := snaps[..n - 1];
    if init == [] {
      RequestKeeps(snaps[0], {}, snaps[0], FRESH, limit);
      assert RequestAll(init, limit) == FRESH;
    } else {
      RequestAllInv(init, limit);
      assert init[0] == snaps[0] && init[n - 2] == snaps[n - 2];
      RequestKeeps(snaps[0], snaps[n - 2], snaps[n - 1], RequestAll(init, limit), limit);
    }
  }

  /** Rows may be inserted between requests: nothing is ever returned twice, everything comes in
      strictly descending order, every returned row was stored, and once the client sees no
      next_cursor, every row that was there at the start has been returned. */
  lemma FollowWhileInserting(snaps: seq<set<Key>>, limit: nat)
    requires snaps != [] && OnlyInsertions(snaps) && limit > 0
    ensures var c := RequestAll(snaps, limit);
            && StrictlyDescending(c.got)
            && (forall i, j :: 0 <= i < j < |c.got| ==> c.got[i] != c.got[j])
            && (forall k :: k in c.got ==> k in snaps[|snaps| - 1])
            && (c.next.Done? ==> forall k :: k in snaps[0] ==> k in c.got)
  {
    RequestAllInv(snaps, limit);
    KeyOrder();
  }

  // ------------------------------------------------------- on a table at rest

  /** How many requests have been made, and that none was made in vain. */
  ghost predicate Counted(s: set<Key>, c: Client, limit: nat) {
    match c.next
    case Start => c.requests == 0
    case After(_) => |c.got| == c.requests * limit && exists k :: k in s && k !in c.got
    case Done =>
      c.requests > 0 && |c.got| <= c.requests * limit
      && (c.requests > 1 ==> |c.got| > (c.requests - 1) * limit)
  }

  /** A page with more to come leaves a stored key ungot; a page after a cursor that is the last
      one still got something. */
  lemma PageCounts(s: set<Key>, prior: seq<Key>, cursor: Option<Key>, limit: nat)
    requires cursor.Some? ==> exists k :: k in s && k !in prior && k in Below(s, cursor)
    requires forall k :: k in Below(s, cursor) ==> k !in prior
    ensures var page := PageOf(s, cursor, limit);
            && (page.hasMore ==> |page.rows| == limit && exists k :: k in s && k !in prior + page.rows)
            && (!page.hasMore ==> |page.rows| <= limit && (cursor.Some? ==> |page.rows| > 0))
  {
    PageMeaning(s, cursor, limit);
    hide PageOf, StrictlyDescending;
    var page := PageOf(s, cursor, limit);
    if page.hasMore {
      LeftOver(Below(s, cursor), page.rows);
      var k :| k in Below(s, cursor) && k !in page.rows;
      assert k in s && k !in prior + page.rows;
    }
  }

  lemma RequestCounts(s: set<Key>, c: Client, limit: nat)
    requires ClientInv(s, s, c) && Counted(s, c, limit) && limit > 0
    ensures Counted(s, Request(c, s, limit), limit)
  {
    if !c.next.Done? {
      var cursor := CursorOf(c.next);
      if c.next.After? {
        var k :| k in s && k !in c.got;
        assert k in Below(s, cursor);
      }
      PageCounts(s, c.got, cursor, limit);
      CountsAdd(c, s, PageOf(s, cursor, limit), limit);
    }
  }

  lemma CountsAdd(c: Client, s: set<Key>, page: Page, limit: nat)
    requires limit > 0 && Counted(s, c, limit) && !c.next.Done?
    requires c.next.Start? ==> c.got == []
    requires page.hasMore ==> |page.rows| == limit && exists k :: k in s && k !in c.got + page.rows
    requires !page.hasMore ==> |page.rows| <= limit && (c.next.After? ==> |page.rows| > 0)
    ensures var next := match NextCursor(page) case None => Done case Some(k) => After(k);
            Counted(s, Client(c.got + page.rows, next, c.requests + 1), limit)
  {
    assert c.requests * limit + limit == (c.requests + 1) * limit;
    if c.next.Start? {
      assert c.got + page.rows == page.rows;
    }
  }

  lemma LeftOver(b: set<Key>, rows: seq<Key>)
    requires |b| > |rows|
    ensures exists k :: k in b && k !in rows
  {
    if forall k :: k in b ==> k in rows {
      SetOfSeqSize(rows, b);
    }
  }

  lemma {:induction false} SetOfSeqSize(keys: seq<Key>, b: set<Key>)
    requires forall k :: k in b ==> k in keys
    ensures |b| <= |keys|
  {
    if keys == [] {
      assert b == {};
    } else {
      SetOfSeqSize(keys[1..], b - {keys[0]});
      assert |b| <= |b - {keys[0]}| + 1;
    }
  }

  lemma {:induction false} AtRestInv(s: set<Key>, snaps: seq<set<Key>>, limit: nat)
    requires limit > 0 && forall i :: 0 <= i < |snaps| ==> snaps[i] == s
    ensures var c := RequestAll(snaps, limit);
            ClientInv(s, s, c) && Counted(s, c, limit) && (!c.next.Done? ==> c.requests == |snaps|)
    decreases |snaps|
  {
    if snaps != [] {
      var init := snaps[..|snaps| - 1];
      AtRestInv(s, init, limit);
      RequestKeeps(s, s, s, RequestAll(init, limit), limit);
      RequestCounts(s, RequestAll(init, limit), limit);
    }
  }

  function RequestsNeeded(n: nat, limit: nat): nat
    requires limit > 0
  {
    if n == 0 then 1 else (n + limit - 1) / limit
  }

  /** With nothing inserted in between, following next_cursor until it is null returns exactly
      the stored keys, newest first, in max(1, ceil(n / limit)) requests, neither more nor
      fewer. */
  lemma FollowToTheEnd(s: set<Key>, snaps: seq<set<Key>>, limit: nat)
    requires limit > 0 && forall i :: 0 <= i < |snaps| ==> snaps[i] == s
    ensures var c := RequestAll(snaps, limit);
            && (c.next.Done? <==> |snaps| >= RequestsNeeded(|s|, limit))
            && (c.next.Done? ==> c.got == NewestFirst(s) && c.requests == RequestsNeeded(|s|, limit))
  {
    hide RequestAll, KeyLess, RequestsNeeded, NewestFirst, StrictlyDescending;
    var c := RequestAll(snaps, limit);
    AtRestInv(s, snaps, limit);
    RequestsAtMost(snaps, limit);
    DistinctSize(c.got, s);
    if c.next.Done? {
      SortedUnique(c.got, s);
      NewestFirstSorted(s);
    }
    CountNeeded(|s|, limit, c.requests, |c.got|, c.next.Done?);
  }

  lemma CountNeeded(n: nat, limit: nat, requests: nat, got: nat, done: bool)
    requires limit > 0
    requires done ==> got == n && requests > 0 && n <= requests * limit
                      && (requests > 1 ==> n > (requests - 1) * limit)
    requires !done ==> requests == 0 || (got == requests * limit && got < n)
    ensures if done then requests == RequestsNeeded(n, limit) else requests < RequestsNeeded(n, limit)
  {
    if n > 0 {
      Ceiling(n, limit);
      var q := (n + limit - 1) / limit;
      if requests >= q {
        TimesMonotone(q, requests, limit);
      }
      if done {
        TimesMonotone(requests, if q > requests then q - 1 else requests, limit);
        TimesMonotone(q, if requests > q then requests - 1 else q, limit);
      }
    }
  }

  lemma Ceiling(n: nat, limit: nat)
    requires n > 0 && limit > 0
    ensures var q := (n + limit - 1) / limit;
            q > 0 && (q - 1) * limit < n <= q * limit
  {
    var m := n + limit - 1;
    var q := m / limit;
    assert q * limit <= m < q * limit + limit;
    assert q > 0;
    assert (q - 1) * limit == q * limit - limit;
  }

  lemma {:induction false} RequestsAtMost(snaps: seq<set<Key>>, limit: nat)
    ensures RequestAll(snaps, limit).requests <= |snaps|
    decreases |snaps|
  {
    if snaps != [] {
      RequestsAtMost(snaps[..|snaps| - 1], limit);
    }
  }

  /** A duplicate-free listing of part of a set is no longer than the set, and shorter when it
      leaves something out. */
  lemma {:induction false} DistinctSize(got: seq<Key>, s: set<Key>)
    requires StrictlyDescending(got) && forall k :: k in got ==> k in s
    ensures |got| <= |s|
    ensures (exists k :: k in s && k !in got) ==> |got| < |s|
    ensures (forall k :: k in s ==> k in got) ==> |got| == |s|
    decreases |got|
  {
    KeyOrder();
    if got != [] {
      var k0, rest := got[0], got[1..];
      assert forall k :: k in got <==> k == k0 || k in rest;
      assert k0 !in rest by {
        assert forall i :: 0 < i < |got| ==> KeyLess(got[i], got[0]);
      }
      DistinctSize(rest, s - {k0});
      assert |s| == |s - {k0}| + 1;
    }
  }
}
