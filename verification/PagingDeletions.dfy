/** Backward paging while rows are deleted in any way, by count or by age (src/api/events.rs,
  * src/events/store.rs). */
module PagingDeletions {
  import opened Options
  import opened Events
  import opened EventStore
  import opened EventPaging

  // ----- A client over the tables its requests see -----

  /** The i-th request sees the i-th table. */
  function PageBackOver(tables: seq<seq<Event>>, session: Option<string>, cursor: int, limit: Option<int>): seq<Event> {
    if tables == [] then []
    else
      var page := EventsPage(tables[0], session, Some(cursor), limit);
      if page == [] then []
      else PageBackOver(tables[1..], session, CursorBefore(page[0].id), limit) + page
  }

  /** The client reaches an empty page. */
  predicate FinishesOver(tables: seq<seq<Event>>, session: Option<string>, cursor: int, limit: Option<int>) {
    tables != [] &&
    var page := EventsPage(tables[0], session, Some(cursor), limit);
    page == [] || FinishesOver(tables[1..], session, CursorBefore(page[0].id), limit)
  }

  /** The request whose page reaches down to an id. */
  function FetchedAt(tables: seq<seq<Event>>, session: Option<string>, cursor: int, limit: Option<int>, id: int)
    : (i: nat)
    ensures i <= |tables|
  {
    if tables == [] then 0
    else
      var page := EventsPage(tables[0], session, Some(cursor), limit);
      if page == [] || page[0].id <= id then 0
      else 1 + FetchedAt(tables[1..], session, CursorBefore(page[0].id), limit, id)
  }

  /** A row that is in a later table and not in an earlier one has an id above all those of a table as early
    * or earlier. */
  ghost predicate NewIsAbove(earliest: seq<Event>, earlier: seq<Event>, later: seq<Event>) {
    forall x, r :: x in earliest && r in later && r !in earlier ==> x.id < r.id
  }

  /** Rows once deleted never come back, and new ones get new ids. */
  ghost predicate NeverReturn(tables: seq<seq<Event>>) {
    && (forall i :: 0 <= i < |tables| ==> Usable(tables[i]))
    && (forall h, i, j :: 0 <= h <= i < j < |tables| ==> NewIsAbove(tables[h], tables[i], tables[j]))
  }

  predicate IsBound(cursor: int, bound: int) {
    (cursor == -1 && bound == I64_MAX) || (cursor == CursorBefore(bound) && 1 <= bound <= I64_MAX)
  }

  /** A page is the part of the selected rows from its first row on. */
  lemma PageRows(rows: seq<Event>, session: Option<string>, cursor: int, bound: int, limit: Option<int>)
    requires Usable(rows) && IsBound(cursor, bound)
    ensures var page := EventsPage(rows, session, Some(cursor), limit);
            var most := if limit.None? || limit.value <= 0 then 1000
                        else if limit.value < 10_000 then limit.value else 10_000;
            && Ordered(page) && |page| <= most
            && (forall r :: r in page <==> page != [] && page[0].id <= r.id < bound
                                           && r in rows && (session.Some? ==> r.sessionId == session.value))
            && (|page| < most ==>
                  forall r :: r in rows && r.id < bound && (session.Some? ==> r.sessionId == session.value) ==>
                    r in page)
  {
    CursorSelectsPageBefore(rows, session, if cursor == -1 then 1 else bound, limit);
    var selected := Between(rows, session, NO_BOUND, bound);
    BetweenMembers(rows, session, NO_BOUND, bound);
    BetweenIsOrdered(rows, session, NO_BOUND, bound);
    hide EventsPage, Between;
    LastRowsFrom(selected, EventLimit(limit));
  }

  lemma {:induction false} BetweenIsOrdered(rows: seq<Event>, session: Option<string>, lo: int, hi: int)
    requires Ordered(rows)
    ensures Ordered(Between(rows, session, lo, hi))
  {
    if rows == [] {
    } else {
      var rest := Between(rows[1..], session, lo, hi);
      BetweenIsOrdered(rows[1..], session, lo, hi);
      BetweenMembers(rows[1..], session, lo, hi);
      forall x | x in rest ensures rows[0].id < x.id {
        assert x in rows[1..];
      }
      PrependIsOrdered(rows[0], rest);
    }
  }

  lemma LastRowsFrom(rows: seq<Event>, n: nat)
    requires Ordered(rows) && n >= 1
    ensures var last := LastRows(rows, n);
            && Ordered(last) && |last| <= n && (|last| < n ==> last == rows)
            && forall r :: r in last <==> last != [] && r in rows && last[0].id <= r.id
  {
    var last := LastRows(rows, n);
    var k := |rows| - |last|;
    assert 0 <= k <= |rows| && last == rows[k..];
    hide LastRows;
    forall r | r in rows && last != [] && last[0].id <= r.id ensures r in last {
      var i :| 0 <= i < |rows| && rows[i] == r;
      assert rows[k] == last[0] && i >= k;
      assert last[i - k] == r;
    }
  }

  lemma {:induction false} PagesOver(tables: seq<seq<Event>>, session: Option<string>, cursor: int, bound: int,
                                     limit: Option<int>, r: Event)
    requires NeverReturn(tables) && IsBound(cursor, bound) && FinishesOver(tables, session, cursor, limit)
    ensures var i := FetchedAt(tables, session, cursor, limit, r.id);
            r in PageBackOver(tables, session, cursor, limit)
            <==> i < |tables| && r in tables[0] && (session.Some? ==> r.sessionId == session.value) && r.id < bound
                 && r in tables[i]
    decreases |tables|
  {
    var page := EventsPage(tables[0], session, Some(cursor), limit);
    PageRows(tables[0], session, cursor, bound, limit);
    if page == [] {
    } else {
      var b, rest := page[0].id, tables[1..];
      assert page[0] in page && 1 <= b < bound;
      LaterTables(tables);
      FirstPageThenRest(tables, session, cursor, limit, r);
      hide EventsPage, NeverReturn, PageBackOver, FetchedAt, FinishesOver;
      PagesOver(rest, session, CursorBefore(b), b, limit, r);
      var k := FetchedAt(rest, session, CursorBefore(b), limit, r.id);
      if r.id < b && k < |rest| && r in rest[k] {
        StillThere(tables, page[0], r, k);
      }
    }
  }

  lemma FirstPageThenRest(tables: seq<seq<Event>>, session: Option<string>, cursor: int, limit: Option<int>, r: Event)
    requires FinishesOver(tables, session, cursor, limit)
    requires EventsPage(tables[0], session, Some(cursor), limit) != []
    ensures var page := EventsPage(tables[0], session, Some(cursor), limit);
            var next := CursorBefore(page[0].id);
            && FinishesOver(tables[1..], session, next, limit)
            && (r in PageBackOver(tables, session, cursor, limit)
                <==> r in PageBackOver(tables[1..], session, next, limit) || r in page)
            && FetchedAt(tables, session, cursor, limit, r.id)
               == if page[0].id <= r.id then 0 else 1 + FetchedAt(tables[1..], session, next, limit, r.id)
  {
    hide EventsPage;
  }

  lemma LaterTables(tables: seq<seq<Event>>)
    requires NeverReturn(tables) && tables != []
    ensures NeverReturn(tables[1..])
  {
    hide NewIsAbove, Usable;
    var rest := tables[1..];
    forall h, i, j | 0 <= h <= i < j < |rest| ensures NewIsAbove(rest[h], rest[i], rest[j]) {
      assert NewIsAbove(tables[h + 1], tables[i + 1], tables[j + 1]);
    }
  }

  /** A row below one of the first table that is in a later table was in all before. */
  lemma StillThere(tables: seq<seq<Event>>, first: Event, r: Event, k: nat)
    requires NeverReturn(tables) && k + 1 < |tables| && first in tables[0] && r.id < first.id && r in tables[k + 1]
    ensures r in tables[0] && r in tables[1]
  {
    assert NewIsAbove(tables[0], tables[0], tables[k + 1]);
    assert k > 0 ==> NewIsAbove(tables[0], tables[1], tables[k + 1]);
  }

  lemma {:induction false} PagesOverAreOrdered(
    tables: seq<seq<Event>>, session: Option<string>, cursor: int, bound: int, limit: Option<int>)
    requires NeverReturn(tables) && IsBound(cursor, bound) && FinishesOver(tables, session, cursor, limit)
    ensures Ordered(PageBackOver(tables, session, cursor, limit))
    decreases |tables|
  {
    var page := EventsPage(tables[0], session, Some(cursor), limit);
    PageRows(tables[0], session, cursor, bound, limit);
    if page == [] {
    } else {
      var b, rest := page[0].id, tables[1..];
      assert page[0] in page;
      LaterTables(tables);
      hide EventsPage, NeverReturn, Ordered;
      PagesOverAreOrdered(rest, session, CursorBefore(b), b, limit);
      var older := PageBackOver(rest, session, CursorBefore(b), limit);
      forall x | x in older ensures x.id < b {
        PagesOver(rest, session, CursorBefore(b), b, limit, x);
      }
      OlderThenPage(older, page, b);
    }
  }

  lemma OlderThenPage(older: seq<Event>, page: seq<Event>, b: int)
    requires Ordered(older) && (forall x :: x in older ==> x.id < b)
    requires Ordered(page) && (forall x :: x in page ==> x.id >= b)
    ensures Ordered(older + page)
  {
    var all := older + page;
    forall i, j | 0 <= i < j < |all| ensures all[i].id < all[j].id {
      if i < |older| <= j {
        assert older[i] in older && page[j - |older|] in page;
      }
    }
  }

  // ----- Any run of the store -----

  /** What happens to the table: an append, a prune to a row count, or a deletion by any condition. */
  datatype Change = Insert(e: Event) | Trim(maxRows: nat) | Remove(gone: Event -> bool)

  function RowsAfter(rows: seq<Event>, changes: seq<Change>): seq<Event>
    decreases |changes|
  {
    if changes == [] then rows
    else
      var before := RowsAfter(rows, changes[..|changes| - 1]);
      match changes[|changes| - 1]
      case Insert(e) => before + [e]
      case Trim(n) => LastRows(before, n)
      case Remove(gone) => Without(before, gone)
  }

  /** All rows there ever were. */
  function EverAfter(rows: seq<Event>, changes: seq<Change>): seq<Event>
    decreases |changes|
  {
    if changes == [] then rows
    else
      var before, change := EverAfter(rows, changes[..|changes| - 1]), changes[|changes| - 1];
      if change.Insert? then before + [change.e] else before
  }

  /** Appended rows get ids above all there ever were. */
  ghost predicate FreshIds(rows: seq<Event>, changes: seq<Change>)
    decreases |changes|
  {
    changes == [] ||
    (var prefix, change := changes[..|changes| - 1], changes[|changes| - 1];
     && FreshIds(rows, prefix)
     && (change.Insert? ==>
           1 <= change.e.id <= I64_MAX && forall x :: x in EverAfter(rows, prefix) ==> x.id < change.e.id))
  }

  lemma {:induction false} RowsAreEver(rows: seq<Event>, changes: seq<Change>)
    requires Usable(rows) && FreshIds(rows, changes)
    ensures Usable(RowsAfter(rows, changes))
    ensures forall r :: r in RowsAfter(rows, changes) ==> r in EverAfter(rows, changes)
    decreases |changes|
  {
    if changes == [] {
    } else {
      var prefix, change := changes[..|changes| - 1], changes[|changes| - 1];
      RowsAreEver(rows, prefix);
      if change.Remove? {
        WithoutKeepsOrder(RowsAfter(rows, prefix), change.gone);
      }
    }
  }

  lemma {:induction false} EverGrows(rows: seq<Event>, changes: seq<Change>, n: nat)
    requires n <= |changes|
    ensures forall x :: x in EverAfter(rows, changes[..n]) ==> x in EverAfter(rows, changes)
    decreases |changes|
  {
    if n == |changes| {
      assert changes[..n] == changes;
    } else {
      EverGrows(rows, changes[..|changes| - 1], n);
      assert changes[..|changes| - 1][..n] == changes[..n];
    }
  }

  lemma {:induction false} FreshPrefix(rows: seq<Event>, changes: seq<Change>, n: nat)
    requires n <= |changes| && FreshIds(rows, changes)
    ensures FreshIds(rows, changes[..n])
    decreases |changes|
  {
    if n == |changes| {
      assert changes[..n] == changes;
    } else {
      FreshPrefix(rows, changes[..|changes| - 1], n);
      assert changes[..|changes| - 1][..n] == changes[..n];
    }
  }

  /** A row that was not there at an earlier moment was appended since. */
  lemma {:induction false} NewRowsAreAbove(rows: seq<Event>, changes: seq<Change>, n: nat, r: Event, x: Event)
    requires FreshIds(rows, changes) && n <= |changes| && x in EverAfter(rows, changes[..n])
    ensures r in RowsAfter(rows, changes) && r !in RowsAfter(rows, changes[..n]) ==> x.id < r.id
    decreases |changes|
  {
    if n == |changes| {
      assert changes[..n] == changes;
    } else {
      var prefix, change := changes[..|changes| - 1], changes[|changes| - 1];
      assert prefix[..n] == changes[..n];
      NewRowsAreAbove(rows, prefix, n, r, x);
      if change.Insert? {
        EverGrows(rows, prefix, n);
      } else if r !in RowsAfter(rows, prefix) {
        RemovedOnly(RowsAfter(rows, prefix), change, r);
      }
    }
  }

  lemma RemovedOnly(before: seq<Event>, change: Change, r: Event)
    requires r !in before && !change.Insert?
    ensures r !in (if change.Trim? then LastRows(before, change.maxRows) else Without(before, change.gone))
  {
    if change.Remove? {
      WithoutIsPart(before, change.gone);
    }
  }

  lemma {:induction false} WithoutIsPart(rows: seq<Event>, gone: Event -> bool)
    ensures forall e :: e in Without(rows, gone) ==> e in rows
  {
    if rows == [] {
    } else {
      WithoutIsPart(rows[1..], gone);
    }
  }

  ghost predicate RequestTimes(at: seq<nat>, changes: seq<Change>) {
    && (forall i :: 0 <= i < |at| ==> at[i] <= |changes|)
    && (forall i, j :: 0 <= i < j < |at| ==> at[i] <= at[j])
  }

  ghost function TablesAt(rows: seq<Event>, changes: seq<Change>, at: seq<nat>): (tables: seq<seq<Event>>)
    requires RequestTimes(at, changes)
    ensures |tables| == |at|
  {
    seq(|at|, i requires 0 <= i < |at| => RowsAfter(rows, changes[..at[i]]))
  }

  lemma TablesNeverReturn(rows: seq<Event>, changes: seq<Change>, at: seq<nat>)
    requires Usable(rows) && FreshIds(rows, changes) && RequestTimes(at, changes)
    ensures NeverReturn(TablesAt(rows, changes, at))
  {
    var tables := TablesAt(rows, changes, at);
    forall i | 0 <= i < |tables| ensures Usable(tables[i]) {
      FreshPrefix(rows, changes, at[i]);
      RowsAreEver(rows, changes[..at[i]]);
    }
    forall h, i, j | 0 <= h <= i < j < |tables| ensures NewIsAbove(tables[h], tables[i], tables[j]) {
      forall x: Event, r: Event | x in tables[h] && r in tables[j] && r !in tables[i] ensures x.id < r.id {
        NewSince(rows, changes, at, h, i, j, x, r);
      }
    }
  }

  lemma NewSince(rows: seq<Event>, changes: seq<Change>, at: seq<nat>, h: nat, i: nat, j: nat, x: Event, r: Event)
    requires Usable(rows) && FreshIds(rows, changes) && RequestTimes(at, changes) && h <= i < j < |at|
    requires x in RowsAfter(rows, changes[..at[h]]) && r in RowsAfter(rows, changes[..at[j]])
    requires r !in RowsAfter(rows, changes[..at[i]])
    ensures x.id < r.id
  {
    assert at[h] <= at[i] <= at[j];
    FreshPrefix(rows, changes, at[h]);
    FreshPrefix(rows, changes, at[j]);
    RowsAreEver(rows, changes[..at[h]]);
    EverGrows(rows, changes[..at[i]], at[h]);
    assert changes[..at[i]][..at[h]] == changes[..at[h]] && changes[..at[j]][..at[i]] == changes[..at[i]];
    NewRowsAreAbove(rows, changes[..at[j]], at[i], r, x);
  }

  /** Paging back over any run of appends and deletions of any kind: the pages are in order and once each
    * exactly those of the session's rows in the first table that are still there when the page that
    * reaches down to them is fetched. */
  lemma {:induction false} PagingOverDeletions(
    rows: seq<Event>, changes: seq<Change>, at: seq<nat>, session: Option<string>, limit: Option<int>, r: Event)
    requires Usable(rows) && FreshIds(rows, changes) && RequestTimes(at, changes)
    requires FinishesOver(TablesAt(rows, changes, at), session, -1, limit)
    ensures var tables := TablesAt(rows, changes, at);
            var pages, i := PageBackOver(tables, session, -1, limit), FetchedAt(tables, session, -1, limit, r.id);
            && Ordered(pages) && |at| > 0
            && (r in pages <==>
                  && i < |at| && r in RowsAfter(rows, changes[..at[0]]) && r.id < I64_MAX
                  && (session.Some? ==> r.sessionId == session.value)
                  && r in RowsAfter(rows, changes[..at[i]]))
  {
    var tables := TablesAt(rows, changes, at);
    TablesNeverReturn(rows, changes, at);
    hide NeverReturn, PageBackOver, FetchedAt, RowsAfter;
    PagesOverAreOrdered(tables, session, -1, I64_MAX, limit);
    PagesOver(tables, session, -1, I64_MAX, limit, r);
  }
}
