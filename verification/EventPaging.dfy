/** Backward paging through the event history over the HTTP cursor (src/api/events.rs,
  * src/events/store.rs). */
module EventPaging {
  import opened Sequences
  import opened Options
  import opened Events
  import opened EventStore

  function EventLimit(limit: Option<int>): int {
    var l := if limit.Some? && limit.value > 0 then limit.value else DEFAULT_EVENT_LIMIT;
    if l < MAX_EVENT_LIMIT then l else MAX_EVENT_LIMIT
  }

  /** `-after` in 64 bits without overflow checks: the least value is its own negative. */
  function Negate64(n: int): int {
    if n == I64_MIN then n else -n
  }

  function SaturatingDecrement(n: int): int {
    if n == I64_MIN then n else n - 1
  }

  /** The query handlers: a negative `after` is a backward cursor. */
  function EventsPage(rows: seq<Event>, session: Option<string>, after: Option<int>, limit: Option<int>): seq<Event> {
    if after.Some? && after.value < 0
    then QueryBefore(rows, session, SaturatingDecrement(Negate64(after.value)), EventLimit(limit))
    else QueryAfter(rows, session, if after.Some? then after.value else 0, EventLimit(limit))
  }

  /** The cursor a client sends to load the page before an event. */
  function CursorBefore(id: int): int {
    -(id + 1)
  }

  /** The encoded cursor of any event selects the rows before it; -1 selects the tail. */
  lemma CursorSelectsPageBefore(rows: seq<Event>, session: Option<string>, id: int, limit: Option<int>)
    requires 1 <= id <= I64_MAX
    ensures I64_MIN <= CursorBefore(id) < 0
    ensures EventsPage(rows, session, Some(CursorBefore(id)), limit)
         == LastRows(Between(rows, session, I64_MIN - 1, id), EventLimit(limit))
    ensures EventsPage(rows, session, Some(-1), limit)
         == LastRows(Between(rows, session, I64_MIN - 1, I64_MAX), EventLimit(limit))
    ensures 1 <= EventLimit(limit) <= MAX_EVENT_LIMIT
  {
  }

  // ----- A table seen at different times -----

  /** The table at one moment is a window of the history of all rows ever appended: appending moves the
    * upper end, pruning to a row count the lower end. */
  datatype Window = Window(from: nat, to: nat)

  ghost predicate IsWindowOf(w: Window, history: seq<Event>) {
    w.from <= w.to <= |history|
  }

  function TableAt(history: seq<Event>, w: Window): seq<Event>
    requires w.from <= w.to <= |history|
  {
    history[w.from..w.to]
  }

  ghost predicate Advancing(history: seq<Event>, ws: seq<Window>) {
    && (forall i :: 0 <= i < |ws| ==> IsWindowOf(ws[i], history))
    && (forall i, j :: 0 <= i < j < |ws| ==> ws[i].from <= ws[j].from && ws[i].to <= ws[j].to)
  }

  function Grown(w: Window): Window {
    w.(to := w.to + 1)
  }

  function Shrunk(w: Window, maxRows: nat): Window
    requires w.from <= w.to
  {
    if w.to - w.from <= maxRows then w else w.(from := w.to - maxRows)
  }

  /** Both operations move a window of the history, never outside it. */
  lemma StoreKeepsWindow(history: seq<Event>, w: Window, e: Event, maxRows: nat)
    requires IsWindowOf(w, history) && w.to == |history|
    ensures TableAt(history, w) + [e] == TableAt(history + [e], Grown(w))
    ensures IsWindowOf(Shrunk(w, maxRows), history)
            && LastRows(TableAt(history, w), maxRows) == TableAt(history, Shrunk(w, maxRows))
  {
  }

  /** What happens to the table between requests. */
  datatype TableOp = Grow(e: Event) | Shrink(maxRows: nat)

  function TableAfter(rows: seq<Event>, ops: seq<TableOp>): seq<Event>
    decreases |ops|
  {
    if ops == [] then rows
    else
      var before := TableAfter(rows, ops[..|ops| - 1]);
      match ops[|ops| - 1]
      case Grow(e) => before + [e]
      case Shrink(n) => LastRows(before, n)
  }

  function HistoryAfter(rows: seq<Event>, ops: seq<TableOp>): seq<Event>
    decreases |ops|
  {
    if ops == [] then rows
    else
      var before := HistoryAfter(rows, ops[..|ops| - 1]);
      match ops[|ops| - 1]
      case Grow(e) => before + [e]
      case Shrink(_) => before
  }

  function WindowAfter(rows: seq<Event>, ops: seq<TableOp>): (w: Window)
    ensures w.from <= w.to
    decreases |ops|
  {
    if ops == [] then Window(0, |rows|)
    else
      var before := WindowAfter(rows, ops[..|ops| - 1]);
      match ops[|ops| - 1]
      case Grow(_) => Grown(before)
      case Shrink(n) => Shrunk(before, n)
  }

  /** Appended rows get ids above all earlier ones. */
  ghost predicate NewIds(rows: seq<Event>, ops: seq<TableOp>)
    decreases |ops|
  {
    ops == [] ||
    (var prefix, op := ops[..|ops| - 1], ops[|ops| - 1];
     && NewIds(rows, prefix)
     && (op.Grow? ==> 1 <= op.e.id <= I64_MAX && forall x :: x in HistoryAfter(rows, prefix) ==> x.id < op.e.id))
  }

  /** After any appends and row-count prunes the table is a window of the history. */
  lemma {:induction false} TableIsWindow(rows: seq<Event>, ops: seq<TableOp>)
    ensures var history, w := HistoryAfter(rows, ops), WindowAfter(rows, ops);
            IsWindowOf(w, history) && w.to == |history| && TableAfter(rows, ops) == TableAt(history, w)
    decreases |ops|
  {
    if ops == [] {
      assert rows[0..|rows|] == rows;
    } else {
      var prefix, op := ops[..|ops| - 1], ops[|ops| - 1];
      TableIsWindow(rows, prefix);
      match op
      case Grow(e) => StoreKeepsWindow(HistoryAfter(rows, prefix), WindowAfter(rows, prefix), e, 0);
      case Shrink(n) =>
        if HistoryAfter(rows, prefix) != [] {
          StoreKeepsWindow(HistoryAfter(rows, prefix), WindowAfter(rows, prefix), HistoryAfter(rows, prefix)[0], n);
        }
    }
  }

  lemma {:induction false} HistoryIsUsable(rows: seq<Event>, ops: seq<TableOp>)
    requires Usable(rows) && NewIds(rows, ops)
    ensures Usable(HistoryAfter(rows, ops))
    decreases |ops|
  {
    if ops == [] {
    } else {
      HistoryIsUsable(rows, ops[..|ops| - 1]);
    }
  }

  /** Later operations only extend the history and only move the window forwards. */
  lemma {:induction false} WindowsMoveForward(rows: seq<Event>, ops: seq<TableOp>, n: nat)
    requires n <= |ops|
    ensures HistoryAfter(rows, ops[..n]) <= HistoryAfter(rows, ops)
    ensures WindowAfter(rows, ops[..n]).from <= WindowAfter(rows, ops).from
    ensures WindowAfter(rows, ops[..n]).to <= WindowAfter(rows, ops).to
    decreases |ops|
  {
    if n == |ops| {
      assert ops[..n] == ops;
    } else {
      var prefix := ops[..|ops| - 1];
      WindowsMoveForward(rows, prefix, n);
      assert prefix[..n] == ops[..n];
    }
  }

  /** Requests made after more and more operations. */
  ghost predicate Moments(at: seq<nat>, ops: seq<TableOp>) {
    && (forall i :: 0 <= i < |at| ==> at[i] <= |ops|)
    && (forall i, j :: 0 <= i < j < |at| ==> at[i] <= at[j])
  }

  lemma WindowsFit(rows: seq<Event>, ops: seq<TableOp>, at: seq<nat>)
    requires Moments(at, ops)
    ensures forall i :: 0 <= i < |at| ==> IsWindowOf(WindowAfter(rows, ops[..at[i]]), HistoryAfter(rows, ops))
  {
    forall i | 0 <= i < |at| ensures IsWindowOf(WindowAfter(rows, ops[..at[i]]), HistoryAfter(rows, ops)) {
      WindowsMoveForward(rows, ops, at[i]);
      TableIsWindow(rows, ops[..at[i]]);
    }
  }

  ghost function WindowsAt(rows: seq<Event>, ops: seq<TableOp>, at: seq<nat>): (ws: seq<Window>)
    requires Moments(at, ops)
    ensures |ws| == |at| && forall i :: 0 <= i < |ws| ==> ws[i].from <= ws[i].to <= |HistoryAfter(rows, ops)|
  {
    WindowsFit(rows, ops, at);
    seq(|at|, i requires 0 <= i < |at| => WindowAfter(rows, ops[..at[i]]))
  }

  /** The tables that requests at any moments of any run see are advancing windows of its history. */
  lemma {:induction false} RunsAdvance(rows: seq<Event>, ops: seq<TableOp>, at: seq<nat>)
    requires Moments(at, ops)
    ensures Advancing(HistoryAfter(rows, ops), WindowsAt(rows, ops, at))
    ensures forall i :: 0 <= i < |at| ==>
              TableAt(HistoryAfter(rows, ops), WindowsAt(rows, ops, at)[i]) == TableAfter(rows, ops[..at[i]])
  {
    var history, ws := HistoryAfter(rows, ops), WindowsAt(rows, ops, at);
    forall i | 0 <= i < |at|
      ensures IsWindowOf(ws[i], history) && TableAt(history, ws[i]) == TableAfter(rows, ops[..at[i]])
    {
      WindowsMoveForward(rows, ops, at[i]);
      TableIsWindow(rows, ops[..at[i]]);
      var early := HistoryAfter(rows, ops[..at[i]]);
      assert early == history[..|early|];
    }
    forall i, j | 0 <= i < j < |at| ensures ws[i].from <= ws[j].from && ws[i].to <= ws[j].to {
      WindowsMoveForward(rows, ops[..at[j]], at[i]);
      assert ops[..at[j]][..at[i]] == ops[..at[i]];
    }
  }

  // ----- The paging client -----

  /** A client that starts at a cursor, asks again before the first row of each page, stops at an empty
    * page and prepends the pages. The i-th request sees the i-th window. */
  function PageBack(history: seq<Event>, ws: seq<Window>, session: Option<string>, cursor: int, limit: Option<int>)
    : seq<Event>
    requires forall i :: 0 <= i < |ws| ==> ws[i].from <= ws[i].to <= |history|
    decreases |ws|
  {
    if ws == [] then []
    else
      var page := EventsPage(TableAt(history, ws[0]), session, Some(cursor), limit);
      if page == [] then []
      else PageBack(history, ws[1..], session, CursorBefore(page[0].id), limit) + page
  }

  /** The client reaches an empty page. */
  predicate Finishes(history: seq<Event>, ws: seq<Window>, session: Option<string>, cursor: int, limit: Option<int>)
    requires forall i :: 0 <= i < |ws| ==> ws[i].from <= ws[i].to <= |history|
    decreases |ws|
  {
    ws != [] &&
    var page := EventsPage(TableAt(history, ws[0]), session, Some(cursor), limit);
    page == [] || Finishes(history, ws[1..], session, CursorBefore(page[0].id), limit)
  }

  // ----- Lemmas about selections -----

  const NO_BOUND := I64_MIN - 1

  lemma {:induction false} BetweenSplits(a: seq<Event>, b: seq<Event>, session: Option<string>, lo: int, hi: int)
    ensures Between(a + b, session, lo, hi) == Between(a, session, lo, hi) + Between(b, session, lo, hi)
  {
    if a == [] {
      assert a + b == b;
    } else {
      BetweenSplits(a[1..], b, session, lo, hi);
      assert (a + b)[0] == a[0] && (a + b)[1..] == a[1..] + b;
      var first := if InSession(a[0], session) && lo < a[0].id < hi then [a[0]] else [];
      Regroup(first, Between(a[1..], session, lo, hi), Between(b, session, lo, hi));
    }
  }

  lemma {:induction false} BetweenMembers(rows: seq<Event>, session: Option<string>, lo: int, hi: int)
    ensures forall e :: e in Between(rows, session, lo, hi) <==> e in rows && InSession(e, session) && lo < e.id < hi
  {
    if rows == [] {
    } else {
      BetweenMembers(rows[1..], session, lo, hi);
    }
  }

  /** A bound that all rows respect can be replaced by another such bound. */
  lemma {:induction false} BoundIsIrrelevant(rows: seq<Event>, session: Option<string>, lo: int, hi: int, hi': int)
    requires forall e :: e in rows ==> e.id < hi && e.id < hi'
    ensures Between(rows, session, lo, hi) == Between(rows, session, lo, hi')
  {
    if rows == [] {
    } else {
      BoundIsIrrelevant(rows[1..], session, lo, hi, hi');
    }
  }

  lemma {:induction false} NothingBelow(rows: seq<Event>, session: Option<string>, lo: int, hi: int)
    requires forall e :: e in rows ==> e.id >= hi
    ensures Between(rows, session, lo, hi) == []
  {
    if rows == [] {
    } else {
      NothingBelow(rows[1..], session, lo, hi);
    }
  }

  lemma LastOfLonger(first: seq<Event>, rest: seq<Event>, n: nat)
    requires |first| <= 1 && n >= 1
    ensures |rest| >= n ==> LastRows(first + rest, n) == LastRows(rest, n)
    ensures |rest| < n ==> LastRows(first + rest, n) == first + rest
    ensures |rest| < n ==> LastRows(rest, n) == rest
  {
  }

  /** The last n selected rows are the selection of a suffix that starts at the first of them. */
  lemma {:induction false} LastRowsOfSuffix(rows: seq<Event>, session: Option<string>, lo: int, hi: int, n: nat)
    returns (k: nat)
    requires n >= 1 && Between(rows, session, lo, hi) != []
    ensures k < |rows| && LastRows(Between(rows, session, lo, hi), n) == Between(rows[k..], session, lo, hi)
    ensures Between(rows[k..], session, lo, hi) != [] && Between(rows[k..], session, lo, hi)[0] == rows[k]
  {
    var rest := Between(rows[1..], session, lo, hi);
    var first := if InSession(rows[0], session) && lo < rows[0].id < hi then [rows[0]] else [];
    assert Between(rows, session, lo, hi) == first + rest;
    hide Between, InSession;
    LastOfLonger(first, rest, n);
    hide LastRows;
    if |rest| >= n {
      k := LastRowsOfSuffix(rows[1..], session, lo, hi, n);
      k := k + 1;
      assert rows[1..][k - 1..] == rows[k..];
    } else if first != [] {
      k := 0;
      assert rows[0..] == rows;
    } else {
      assert first + rest == rest;
      k := LastRowsOfSuffix(rows[1..], session, lo, hi, n);
      k := k + 1;
      assert rows[1..][k - 1..] == rows[k..];
    }
  }

  /** Below the id of row p, the rows from c on are the rows between c and p. */
  lemma BelowRow(history: seq<Event>, session: Option<string>, c: nat, p: nat, to: nat)
    requires Ordered(history) && c <= to <= |history| && p < to
    ensures Between(history[c..to], session, NO_BOUND, history[p].id)
         == if c <= p then Between(history[c..p], session, NO_BOUND, history[p].id) else []
  {
    if c <= p {
      assert history[c..to] == history[c..p] + history[p..to];
      BetweenSplits(history[c..p], history[p..to], session, NO_BOUND, history[p].id);
      NothingBelow(history[p..to], session, NO_BOUND, history[p].id);
    } else {
      NothingBelow(history[c..to], session, NO_BOUND, history[p].id);
    }
  }

  // ----- Reassembly -----

  ghost predicate Usable(history: seq<Event>) {
    Ordered(history) && forall e :: e in history ==> 1 <= e.id <= I64_MAX
  }

  /** The cursors a client uses: the tail, or the one before a row it has seen. */
  ghost predicate IsCursor(history: seq<Event>, cursor: int, bound: int) {
    (cursor == -1 && bound == I64_MAX) || (cursor == CursorBefore(bound) && exists e :: e in history && e.id == bound)
  }

  /** One request: the rows of a suffix of the window, starting with the first row of the page. */
  lemma OnePage(history: seq<Event>, w: Window, session: Option<string>, cursor: int, bound: int,
                limit: Option<int>)
    returns (p: nat)
    requires Usable(history) && IsWindowOf(w, history) && IsCursor(history, cursor, bound)
    requires EventsPage(TableAt(history, w), session, Some(cursor), limit) != []
    ensures w.from <= p < w.to
    ensures var page := EventsPage(TableAt(history, w), session, Some(cursor), limit);
            page == Between(history[p..w.to], session, NO_BOUND, bound) && page[0] == history[p]
    ensures history[p].id < bound && InSession(history[p], session)
  {
    CursorSelectsPageBefore(TableAt(history, w), session, if cursor == -1 then 1 else bound, limit);
    var k := LastRowsOfSuffix(TableAt(history, w), session, NO_BOUND, bound, EventLimit(limit));
    p := w.from + k;
    assert TableAt(history, w)[k..] == history[p..w.to];
    BetweenMembers(history[p..w.to], session, NO_BOUND, bound);
  }

  lemma EmptyPage(history: seq<Event>, w: Window, session: Option<string>, cursor: int, bound: int, limit: Option<int>)
    requires Usable(history) && IsWindowOf(w, history) && IsCursor(history, cursor, bound)
    ensures EventsPage(TableAt(history, w), session, Some(cursor), limit) == []
       <==> Between(TableAt(history, w), session, NO_BOUND, bound) == []
  {
    CursorSelectsPageBefore(TableAt(history, w), session, if cursor == -1 then 1 else bound, limit);
  }

  /** A page in front of the rows already known to lie below its first row. */
  lemma PageExtends(history: seq<Event>, session: Option<string>, d: nat, p: nat, to: nat, to': nat, bound: int)
    requires Usable(history) && d <= p < to <= to' <= |history| && history[p].id < bound
    ensures Between(history[d..to'], session, NO_BOUND, history[p].id)
            + Between(history[p..to], session, NO_BOUND, bound)
         == Between(history[d..to], session, NO_BOUND, bound)
  {
    BelowRow(history, session, d, p, to');
    assert history[d..to] == history[d..p] + history[p..to];
    BetweenSplits(history[d..p], history[p..to], session, NO_BOUND, bound);
    BoundIsIrrelevant(history[d..p], session, NO_BOUND, history[p].id, bound);
  }

  /** The selected rows from place `c` to the end of a window, none if pruning went past the window. */
  ghost function From(history: seq<Event>, c: nat, to: nat, session: Option<string>, bound: int): seq<Event>
    requires to <= |history|
  {
    if c <= to then Between(history[c..to], session, NO_BOUND, bound) else []
  }

  lemma RestAndPage(history: seq<Event>, session: Option<string>, d: nat, p: nat, to: nat, to': nat, bound: int)
    returns (c: nat)
    requires Usable(history) && p < to <= to' <= |history| && history[p].id < bound
    ensures From(history, d, to', session, history[p].id) + Between(history[p..to], session, NO_BOUND, bound)
         == From(history, c, to, session, bound)
    ensures c == if d <= p then d else p
  {
    var page := Between(history[p..to], session, NO_BOUND, bound);
    if d <= p {
      c := d;
      PageExtends(history, session, d, p, to, to', bound);
    } else {
      c := p;
      if d <= to' {
        BelowRow(history, session, d, p, to');
      }
      assert [] + page == page;
    }
  }

  lemma PageBackStep(history: seq<Event>, ws: seq<Window>, session: Option<string>, cursor: int, limit: Option<int>)
    requires Advancing(history, ws) && Finishes(history, ws, session, cursor, limit)
    ensures ws != []
    ensures var page := EventsPage(TableAt(history, ws[0]), session, Some(cursor), limit);
            if page == [] then PageBack(history, ws, session, cursor, limit) == []
            else
              Finishes(history, ws[1..], session, CursorBefore(page[0].id), limit) && |ws| >= 2
              && PageBack(history, ws, session, cursor, limit)
                 == PageBack(history, ws[1..], session, CursorBefore(page[0].id), limit) + page
  {
    hide EventsPage;
  }

  /** What the client has collected from a cursor on: the selected rows of the first window from some
    * place `c` on, where `c` moves past the start of that window only as far as pruning went. */
  lemma {:induction false} PagesFit(history: seq<Event>, ws: seq<Window>, session: Option<string>, cursor: int,
      bound: int, limit: Option<int>)
    returns (c: nat)
    requires Usable(history) && Advancing(history, ws) && IsCursor(history, cursor, bound)
    requires Finishes(history, ws, session, cursor, limit)
    ensures ws[0].from <= c <= ws[|ws| - 1].from
    ensures PageBack(history, ws, session, cursor, limit) == From(history, c, ws[0].to, session, bound)
    decreases |ws|
  {
    var w := ws[0];
    EmptyPage(history, w, session, cursor, bound, limit);
    PageBackStep(history, ws, session, cursor, limit);
    hide EventsPage, PageBack, Finishes, Usable, Between;
    if EventsPage(TableAt(history, w), session, Some(cursor), limit) == [] {
      c := w.from;
    } else {
      var p := OnePage(history, w, session, cursor, bound, limit);
      assert IsCursor(history, CursorBefore(history[p].id), history[p].id);
      assert Advancing(history, ws[1..]) && ws[1..][|ws| - 2] == ws[|ws| - 1];
      var d := PagesFit(history, ws[1..], session, CursorBefore(history[p].id), history[p].id, limit);
      c := RestAndPage(history, session, d, p, w.to, ws[1].to, bound);
    }
  }

  /** Paging back until an empty page yields exactly the session's rows that were in the table at the
    * first request, in order and once each, although rows were appended meanwhile; pruning in between
    * can cut off the oldest of them but leaves no hole, and never takes a row that is still there at
    * the last request. (A row with the largest 64-bit id is below no cursor.) */
  lemma PagingReassemblesHistory(history: seq<Event>, ws: seq<Window>, session: Option<string>, limit: Option<int>)
    returns (c: nat)
    requires Usable(history) && Advancing(history, ws) && Finishes(history, ws, session, -1, limit)
    ensures ws[0].from <= c <= ws[|ws| - 1].from
    ensures PageBack(history, ws, session, -1, limit)
         == From(history, c, ws[0].to, session, I64_MAX)
    ensures ws[|ws| - 1].from == ws[0].from ==>
              PageBack(history, ws, session, -1, limit) == Between(TableAt(history, ws[0]), session, NO_BOUND, I64_MAX)
  {
    c := PagesFit(history, ws, session, -1, I64_MAX, limit);
  }

  /** The same said of any run of appends and row-count prunes, with requests at any moments of it. */
  lemma {:induction false} PagingOverAnyRun(
    rows: seq<Event>, ops: seq<TableOp>, at: seq<nat>, session: Option<string>, limit: Option<int>)
    returns (c: nat)
    requires Usable(rows) && NewIds(rows, ops) && Moments(at, ops) && at != []
    requires Finishes(HistoryAfter(rows, ops), WindowsAt(rows, ops, at), session, -1, limit)
    ensures var history, ws := HistoryAfter(rows, ops), WindowsAt(rows, ops, at);
            && Advancing(history, ws)
            && ws[0].from <= c <= ws[|ws| - 1].from
            && PageBack(history, ws, session, -1, limit) == From(history, c, ws[0].to, session, I64_MAX)
            && (ws[|ws| - 1].from == ws[0].from ==>
                  PageBack(history, ws, session, -1, limit)
                  == Between(TableAfter(rows, ops[..at[0]]), session, NO_BOUND, I64_MAX))
  {
    RunsAdvance(rows, ops, at);
    HistoryIsUsable(rows, ops);
    c := PagingReassemblesHistory(HistoryAfter(rows, ops), WindowsAt(rows, ops, at), session, limit);
  }

  /** The client reaches an empty page as soon as it may ask once more than there are rows. */
  lemma {:induction false} PagingTerminates(history: seq<Event>, ws: seq<Window>, session: Option<string>,
      cursor: int, bound: int, limit: Option<int>)
    requires Usable(history) && Advancing(history, ws) && IsCursor(history, cursor, bound)
    requires ws != [] && |ws| > |Between(TableAt(history, ws[0]), session, NO_BOUND, bound)|
    ensures Finishes(history, ws, session, cursor, limit)
    decreases |ws|
  {
    var w := ws[0];
    var page := EventsPage(TableAt(history, w), session, Some(cursor), limit);
    EmptyPage(history, w, session, cursor, bound, limit);
    if page == [] {
    } else {
      var p := OnePage(history, w, session, cursor, bound, limit);
      var w' := ws[1];
      assert IsCursor(history, CursorBefore(history[p].id), history[p].id);
      FewerRowsLeft(history, w, w', session, p, bound);
      PagingTerminates(history, ws[1..], session, CursorBefore(history[p].id), history[p].id, limit);
    }
  }

  lemma RowsUpTo(history: seq<Event>, w: Window, session: Option<string>, p: nat, bound: int)
    requires Usable(history) && IsWindowOf(w, history) && w.from <= p < w.to
    requires history[p].id < bound && InSession(history[p], session)
    ensures |Between(history[w.from..p], session, NO_BOUND, bound)|
          < |Between(TableAt(history, w), session, NO_BOUND, bound)|
  {
    var rest := [history[p]] + history[p + 1..w.to];
    assert history[w.from..w.to] == history[w.from..p] + rest;
    BetweenSplits(history[w.from..p], rest, session, NO_BOUND, bound);
    assert rest[0] == history[p] && history[p] in history;
  }

  lemma RowsCutOff(history: seq<Event>, session: Option<string>, from: nat, from': nat, p: nat, bound: int)
    requires Usable(history) && from <= from' <= p < |history| && history[p].id < bound
    ensures |Between(history[from'..p], session, NO_BOUND, history[p].id)|
         <= |Between(history[from..p], session, NO_BOUND, bound)|
  {
    assert history[from..p] == history[from..from'] + history[from'..p];
    BetweenSplits(history[from..from'], history[from'..p], session, NO_BOUND, bound);
    BoundIsIrrelevant(history[from'..p], session, NO_BOUND, history[p].id, bound);
  }

  lemma FewerRowsLeft(history: seq<Event>, w: Window, w': Window, session: Option<string>, p: nat, bound: int)
    requires Usable(history) && IsWindowOf(w, history) && IsWindowOf(w', history)
    requires w.from <= w'.from && w.to <= w'.to && w.from <= p < w.to
    requires history[p].id < bound && InSession(history[p], session)
    ensures |Between(TableAt(history, w'), session, NO_BOUND, history[p].id)|
          < |Between(TableAt(history, w), session, NO_BOUND, bound)|
  {
    BelowRow(history, session, w'.from, p, w'.to);
    RowsUpTo(history, w, session, p, bound);
    if w'.from <= p {
      RowsCutOff(history, session, w.from, w'.from, p, bound);
    }
  }
}
