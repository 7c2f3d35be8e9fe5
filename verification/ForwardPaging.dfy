/** A client that polls forwards through the event history over the HTTP cursor (src/api/events.rs,
  * src/events/store.rs), while rows are appended and deleted. */
module ForwardPaging {
  import opened Options
  import opened Events
  import opened EventStore
  import opened EventPaging
  import opened PagingDeletions

  lemma FirstOfOrdered(rows: seq<Event>, n: nat)
    requires Ordered(rows) && n >= 1
    ensures var page := FirstRows(rows, n);
            && Ordered(page) && |page| <= n && (forall e :: e in page ==> e in rows)
            && forall e :: e in rows && e !in page ==> |page| == n && forall x :: x in page ==> x.id < e.id
  {
    var page := FirstRows(rows, n);
    assert page == rows[..|page|];
    assert forall k :: 0 <= k < |page| ==> rows[k] in page;
    forall e | e in rows && e !in page ensures |page| == n && forall x :: x in page ==> x.id < e.id {
      var i :| 0 <= i < |rows| && rows[i] == e;
      assert i >= |page|;
    }
  }

  /** Without a cursor, or with one that is not negative, a page is the first rows above it, of the session if
    * one is named, in order: a row that is left out is above the whole page, and the page is full. A request gets
    * at most 1000 rows, or as many as it asks for, but never more than 10000. */
  lemma ForwardPage(rows: seq<Event>, session: Option<string>, after: Option<int>, limit: Option<int>)
    requires Usable(rows) && (after.Some? ==> after.value >= 0)
    ensures var page, from := EventsPage(rows, session, after, limit), if after.Some? then after.value else 0;
            var most := if limit.None? || limit.value <= 0 then 1000
                        else if limit.value < 10_000 then limit.value else 10_000;
            && Ordered(page) && |page| <= most
            && (forall e :: e in page ==> e in rows && e.id > from && (session.Some? ==> e.sessionId == session.value))
            && (forall e :: e in rows && e.id > from && (session.Some? ==> e.sessionId == session.value) && e !in page
                  ==> |page| == most && forall x :: x in page ==> x.id < e.id)
  {
    var from := if after.Some? then after.value else 0;
    var selected := Between(rows, session, from, I64_MAX + 1);
    BetweenMembers(rows, session, from, I64_MAX + 1);
    BetweenIsOrdered(rows, session, from, I64_MAX + 1);
    assert EventsPage(rows, session, after, limit) == FirstRows(selected, EventLimit(limit));
    hide EventsPage, Between;
    FirstOfOrdered(selected, EventLimit(limit));
  }

  // ----- The polling client -----

  function NextCursor(page: seq<Event>, cursor: int): int {
    if page == [] then cursor else page[|page| - 1].id
  }

  /** A client that asks again behind the last row of each page and appends the pages. The i-th request sees
    * the i-th table. */
  function PageForward(tables: seq<seq<Event>>, session: Option<string>, cursor: int, limit: Option<int>): seq<Event>
    decreases |tables|
  {
    if tables == [] then []
    else
      var page := EventsPage(tables[0], session, Some(cursor), limit);
      page + PageForward(tables[1..], session, NextCursor(page, cursor), limit)
  }

  /** The request whose page reaches up to an id. */
  function ReachedAt(tables: seq<seq<Event>>, session: Option<string>, cursor: int, limit: Option<int>, id: int)
    : (i: nat)
    ensures i <= |tables|
    decreases |tables|
  {
    if tables == [] then 0
    else
      var page := EventsPage(tables[0], session, Some(cursor), limit);
      if id <= NextCursor(page, cursor) then 0
      else 1 + ReachedAt(tables[1..], session, NextCursor(page, cursor), limit, id)
  }

  /** The last request gets an empty page. */
  predicate CatchesUp(tables: seq<seq<Event>>, session: Option<string>, cursor: int, limit: Option<int>)
    decreases |tables|
  {
    tables != [] &&
    var page := EventsPage(tables[0], session, Some(cursor), limit);
    if |tables| == 1 then page == [] else CatchesUp(tables[1..], session, NextCursor(page, cursor), limit)
  }

  lemma NextCursorIsAbove(rows: seq<Event>, session: Option<string>, cursor: int, limit: Option<int>)
    requires Usable(rows) && cursor >= 0
    ensures var page := EventsPage(rows, session, Some(cursor), limit);
            && NextCursor(page, cursor) >= cursor
            && (forall e :: e in page ==> cursor < e.id <= NextCursor(page, cursor))
            && (forall e :: e in page <==> e in rows && (session.Some? ==> e.sessionId == session.value)
                                           && cursor < e.id <= NextCursor(page, cursor))
  {
    ForwardPage(rows, session, Some(cursor), limit);
    hide EventsPage, EventLimit;
    var page := EventsPage(rows, session, Some(cursor), limit);
    if page != [] {
      assert page[|page| - 1] in page;
    }
  }

  /** The pages are in order and once each the rows above the cursor that are in the table when the request
    * that reaches up to them is made. */
  lemma {:induction false} PolledRows(
    tables: seq<seq<Event>>, session: Option<string>, cursor: int, limit: Option<int>, r: Event)
    requires (forall i :: 0 <= i < |tables| ==> Usable(tables[i])) && cursor >= 0
    ensures var i := ReachedAt(tables, session, cursor, limit, r.id);
            r in PageForward(tables, session, cursor, limit)
            <==> i < |tables| && r in tables[i] && r.id > cursor && (session.Some? ==> r.sessionId == session.value)
    decreases |tables|
  {
    if tables == [] {
    } else {
      hide EventsPage, Usable, NextCursor;
      var page := EventsPage(tables[0], session, Some(cursor), limit);
      NextCursorIsAbove(tables[0], session, cursor, limit);
      PolledRows(tables[1..], session, NextCursor(page, cursor), limit, r);
    }
  }

  lemma {:induction false} PolledInOrder(
    tables: seq<seq<Event>>, session: Option<string>, cursor: int, limit: Option<int>)
    requires (forall i :: 0 <= i < |tables| ==> Usable(tables[i])) && cursor >= 0
    ensures Ordered(PageForward(tables, session, cursor, limit))
    ensures forall e :: e in PageForward(tables, session, cursor, limit) ==> e.id > cursor
    decreases |tables|
  {
    if tables == [] {
    } else {
      var page := EventsPage(tables[0], session, Some(cursor), limit);
      var next := NextCursor(page, cursor);
      ForwardPage(tables[0], session, Some(cursor), limit);
      NextCursorIsAbove(tables[0], session, cursor, limit);
      PolledInOrder(tables[1..], session, next, limit);
      hide EventsPage, Usable, Ordered, NextCursor;
      OlderThenPage(page, PageForward(tables[1..], session, next, limit), next + 1);
    }
  }

  /** A client that has caught up has every row of the table above its first cursor. */
  lemma {:induction false} NothingIsPassedOver(
    tables: seq<seq<Event>>, session: Option<string>, cursor: int, limit: Option<int>, r: Event)
    requires NeverReturn(tables) && cursor >= 0 && CatchesUp(tables, session, cursor, limit)
    requires r in tables[|tables| - 1] && r.id > cursor && (session.Some? ==> r.sessionId == session.value)
    ensures r in PageForward(tables, session, cursor, limit)
    decreases |tables|
  {
    var page := EventsPage(tables[0], session, Some(cursor), limit);
    var next := NextCursor(page, cursor);
    assert Usable(tables[0]);
    NextCursorIsAbove(tables[0], session, cursor, limit);
    ForwardPage(tables[0], session, Some(cursor), limit);
    if |tables| > 1 {
      var rest := tables[1..];
      assert NewIsAbove(tables[0], tables[0], tables[|tables| - 1]);
      LaterTables(tables);
      hide EventsPage, NeverReturn;
      if r.id > next {
        NothingIsPassedOver(rest, session, next, limit, r);
      } else {
        assert page[|page| - 1] in page;
        assert r in tables[0];
      }
    }
  }

  lemma Polling(tables: seq<seq<Event>>, session: Option<string>, cursor: int, limit: Option<int>, r: Event)
    requires NeverReturn(tables) && cursor >= 0
    ensures var pages, i := PageForward(tables, session, cursor, limit),
                            ReachedAt(tables, session, cursor, limit, r.id);
            && Ordered(pages)
            && (r in pages <==>
                  i < |tables| && r in tables[i] && r.id > cursor && (session.Some? ==> r.sessionId == session.value))
            && (CatchesUp(tables, session, cursor, limit) && r in tables[|tables| - 1] ==>
                  (r in pages <==> r.id > cursor && (session.Some? ==> r.sessionId == session.value)))
  {
    assert forall i :: 0 <= i < |tables| ==> Usable(tables[i]);
    hide NeverReturn, Usable, PageForward, ReachedAt, CatchesUp, Ordered;
    PolledInOrder(tables, session, cursor, limit);
    PolledRows(tables, session, cursor, limit, r);
    if CatchesUp(tables, session, cursor, limit) && r in tables[|tables| - 1]
       && r.id > cursor && (session.Some? ==> r.sessionId == session.value) {
      NothingIsPassedOver(tables, session, cursor, limit, r);
    }
  }

  /** Polling over any run of appends and deletions of any kind, with the requests at any moments: the pages
    * are in order, once each the rows above the first cursor that are there when the request that reaches up to
    * them is made; and once a page is empty, every row of the session that is in the table is among them. */
  lemma {:induction false} PollingOverAnyRun(rows: seq<Event>, changes: seq<Change>, at: seq<nat>,
                                             session: Option<string>, cursor: int, limit: Option<int>, r: Event)
    requires Usable(rows) && FreshIds(rows, changes) && RequestTimes(at, changes) && cursor >= 0
    ensures var tables := TablesAt(rows, changes, at);
            var pages, i := PageForward(tables, session, cursor, limit),
                            ReachedAt(tables, session, cursor, limit, r.id);
            && Ordered(pages)
            && (r in pages <==> i < |at| && r in RowsAfter(rows, changes[..at[i]])
                                && r.id > cursor && (session.Some? ==> r.sessionId == session.value))
            && (CatchesUp(tables, session, cursor, limit) && r in RowsAfter(rows, changes[..at[|at| - 1]]) ==>
                  (r in pages <==> r.id > cursor && (session.Some? ==> r.sessionId == session.value)))
  {
    TablesNeverReturn(rows, changes, at);
    hide NeverReturn, Usable, PageForward, ReachedAt, CatchesUp, RowsAfter, FreshIds, Ordered;
    Polling(TablesAt(rows, changes, at), session, cursor, limit, r);
  }
}
