/** The append-only event table and its queries (src/events/store.rs, src/api/events.rs). */
module EventStore {
  import opened Options
  import opened Timestamps
  import opened Events

  const DEFAULT_QUERY_LIMIT := 1000
  const DEFAULT_EVENT_LIMIT := 1000
  const MAX_EVENT_LIMIT := 10_000
  const I64_MAX := 0x7fff_ffff_ffff_ffff
  const I64_MIN := -0x8000_0000_0000_0000
  const GO_ZERO_TIME := Stamp(1, 1, 1, 0, 0, 0, 0)

  datatype StoreError = TableFull | NonPositiveRows | ZeroAge

  // ----- Selections -----

  predicate InSession(e: Event, session: Option<string>) {
    session.None? || e.sessionId == session.value
  }

  /** The rows of a session, or of all, with an id strictly between two bounds, in table order. */
  function Between(rows: seq<Event>, session: Option<string>, lo: int, hi: int): seq<Event> {
    if rows == [] then []
    else (if InSession(rows[0], session) && lo < rows[0].id < hi then [rows[0]] else [])
         + Between(rows[1..], session, lo, hi)
  }

  function FirstRows(rows: seq<Event>, n: nat): seq<Event> {
    if |rows| <= n then rows else rows[..n]
  }

  function LastRows(rows: seq<Event>, n: nat): seq<Event> {
    if |rows| <= n then rows else rows[|rows| - n..]
  }

  function RowLimit(limit: int): nat {
    if limit <= 0 then DEFAULT_QUERY_LIMIT else limit
  }

  /** `query` and `query_all`: the first rows after an id. */
  function QueryAfter(rows: seq<Event>, session: Option<string>, afterId: int, limit: int): seq<Event> {
    FirstRows(Between(rows, session, afterId, I64_MAX + 1), RowLimit(limit))
  }

  /** `query_before` and `query_all_before`: the last rows before an id, ascending. */
  function QueryBefore(rows: seq<Event>, session: Option<string>, beforeId: int, limit: int): seq<Event> {
    LastRows(Between(rows, session, I64_MIN - 1, if beforeId <= 0 then I64_MAX else beforeId), RowLimit(limit))
  }

  // ----- The store -----

  /** `DELETE`: the rows for which the condition does not hold. */
  function Without(rows: seq<Event>, gone: Event -> bool): seq<Event> {
    if rows == [] then [] else (if gone(rows[0]) then [] else [rows[0]]) + Without(rows[1..], gone)
  }

  /** The condition of the age query: the stored text sorts before the text of the cutoff. */
  function StoredBefore(cutoff: Stamp): Event -> bool {
    (e: Event) => TextBefore(ToRfc3339(e.timestamp), ToRfc3339(cutoff))
  }

  /** What it stands for: the event is older than a point on the time line. */
  function OlderThan(nanos: int): Event -> bool {
    (e: Event) => Nanos(e.timestamp) < nanos
  }

  predicate YearsInRange(rows: seq<Event>) {
    forall e :: e in rows ==> e.timestamp.year <= 9999
  }

  ghost predicate IsTable(rows: seq<Event>, lastId: int) {
    && Ordered(rows) && 0 <= lastId <= I64_MAX
    && forall e :: e in rows ==> 1 <= e.id <= lastId && IsStamp(e.timestamp)
  }

  class Store {
    var rows: seq<Event>
    var lastId: int  // ids are never reused

    ghost predicate Valid()
      reads this
    {
      IsTable(rows, lastId)
    }

    /** The database file may exist already, with rows and used ids; a new one has no rows and 0. */
    constructor Open(existing: seq<Event>, usedIds: int)
      requires IsTable(existing, usedIds)
      ensures Valid() && rows == existing && lastId == usedIds
    {
      rows, lastId := existing, usedIds;
    }

    method Append(event: Event, now: Stamp) returns (r: Result<Event, StoreError>)
      requires Valid() && IsStamp(event.timestamp) && IsStamp(now)
      modifies this
      ensures Valid()
      ensures if old(lastId) == I64_MAX then r == Err(TableFull) && rows == old(rows) && lastId == old(lastId)
              else r.Ok? && r.value == event.(id := old(lastId) + 1,
                                              timestamp := if event.timestamp == Stamp(1, 1, 1, 0, 0, 0, 0)
                                                           then now else event.timestamp)
                   && rows == old(rows) + [r.value] && lastId == old(lastId) + 1
    {
      if lastId == I64_MAX {
        return Err(TableFull);
      }
      var e := event;
      if e.timestamp == GO_ZERO_TIME {
        e := e.(timestamp := now);
      }
      lastId := lastId + 1;
      e := e.(id := lastId);
      rows := rows + [e];
      return Ok(e);
    }

    /** Keeps the `maxRows` rows with the largest ids. */
    method Prune(maxRows: int) returns (r: Result<int, StoreError>)
      requires Valid()
      modifies this`rows
      ensures Valid()
      ensures if maxRows <= 0 then r == Err(NonPositiveRows) && rows == old(rows)
              else rows == LastRows(old(rows), maxRows) && r == Ok(|old(rows)| - |rows|)
    {
      if maxRows <= 0 {
        return Err(NonPositiveRows);
      }
      var before := |rows|;
      if before > maxRows {
        rows := rows[before - maxRows..];
      }
      return Ok(before - |rows|);
    }

    method Delete(gone: Event -> bool)
      requires Valid()
      modifies this`rows
      ensures Valid() && rows == Without(old(rows), gone)
    {
      WithoutKeepsOrder(rows, gone);
      rows := Without(rows, gone);
    }

    /** `maxAge` in nanoseconds; `cutoff` is `now` minus `maxAge`, as the clock library subtracts them. */
    method PruneOlderThan(maxAge: nat, now: Stamp, cutoff: Stamp) returns (r: Result<int, StoreError>)
      requires Valid() && IsStamp(now) && IsStamp(cutoff) && Nanos(cutoff) == Nanos(now) - maxAge
      modifies this`rows
      ensures Valid()
      ensures if maxAge == 0 then r == Err(ZeroAge) && rows == old(rows)
              else rows == Without(old(rows), StoredBefore(cutoff)) && r == Ok(|old(rows)| - |rows|)
      ensures maxAge > 0 && 0 <= cutoff.year <= 9999 ==>
                (rows == Without(old(rows), OlderThan(Nanos(now) - maxAge)) <==> YearsInRange(old(rows)))
    {
      hide Nanos, ToRfc3339, TextBefore, Without, IsStamp;
      if maxAge == 0 {
        return Err(ZeroAge);
      }
      var before := |rows|;
      Delete(StoredBefore(cutoff));
      AgeCondition(old(rows), Nanos(now) - maxAge, cutoff);
      return Ok(before - |rows|);
    }
  }

  lemma PrependIsOrdered(e: Event, rows: seq<Event>)
    requires Ordered(rows) && forall x :: x in rows ==> e.id < x.id
    ensures Ordered([e] + rows)
  {
  }

  lemma {:induction false} WithoutKeepsOrder(rows: seq<Event>, gone: Event -> bool)
    requires Ordered(rows)
    ensures Ordered(Without(rows, gone))
    ensures forall e :: e in Without(rows, gone) <==> e in rows && !gone(e)
  {
    if rows == [] {
    } else {
      WithoutKeepsOrder(rows[1..], gone);
      forall x | x in Without(rows[1..], gone) ensures rows[0].id < x.id {
        assert x in rows[1..];
      }
      PrependIsOrdered(rows[0], Without(rows[1..], gone));
    }
  }

  /** A weaker condition deletes at least as much, and the same exactly if it agrees on every row. */
  lemma {:induction false} WeakerDeletesMore(rows: seq<Event>, weak: Event -> bool, strong: Event -> bool)
    requires forall e :: e in rows && strong(e) ==> weak(e)
    ensures |Without(rows, weak)| <= |Without(rows, strong)|
    ensures Without(rows, weak) == Without(rows, strong) <==> forall e :: e in rows ==> weak(e) == strong(e)
  {
    if rows == [] {
    } else {
      var e, rest := rows[0], rows[1..];
      assert rows == [e] + rest;
      WeakerDeletesMore(rest, weak, strong);
      assert (forall x :: x in rows ==> weak(x) == strong(x))
        <==> weak(e) == strong(e) && forall x :: x in rest ==> weak(x) == strong(x);
      if weak(e) != strong(e) {
        assert |Without(rows, weak)| < |Without(rows, strong)|;
      } else if !weak(e) {
        assert Without(rows, weak)[1..] == Without(rest, weak);
        assert Without(rows, strong)[1..] == Without(rest, strong);
      } else {
        assert Without(rows, weak) == Without(rest, weak) && Without(rows, strong) == Without(rest, strong);
      }
    }
  }

  /** Deleting by text order deletes exactly the older rows if and only if no stored year exceeds 9999. */
  lemma AgePruningIsChronological(rows: seq<Event>, cutoff: Stamp)
    requires forall e :: e in rows ==> IsStamp(e.timestamp)
    requires IsStamp(cutoff) && 0 <= cutoff.year <= 9999
    ensures Without(rows, StoredBefore(cutoff)) == Without(rows, OlderThan(Nanos(cutoff)))
       <==> YearsInRange(rows)
  {
    forall e | e in rows
      ensures StoredBefore(cutoff)(e) <==> OlderThan(Nanos(cutoff))(e) || e.timestamp.year > 9999
      ensures e.timestamp.year > 9999 ==> !OlderThan(Nanos(cutoff))(e)
    {
      TextOrderIsChronological(e.timestamp, cutoff);
      EarlierIsChronological(e.timestamp, cutoff);
    }
    WeakerDeletesMore(rows, StoredBefore(cutoff), OlderThan(Nanos(cutoff)));
  }

  lemma AgeCondition(rows: seq<Event>, nanos: int, cutoff: Stamp)
    requires forall e :: e in rows ==> IsStamp(e.timestamp)
    requires IsStamp(cutoff) && Nanos(cutoff) == nanos
    ensures 0 <= cutoff.year <= 9999 ==>
              (Without(rows, StoredBefore(cutoff)) == Without(rows, OlderThan(nanos)) <==> YearsInRange(rows))
  {
    if 0 <= cutoff.year <= 9999 {
      AgePruningIsChronological(rows, cutoff);
    }
  }

  /** A row of a later year is deleted although it is newer than the cutoff. */
  lemma LateRowIsPruned(e: Event, cutoff: Stamp)
    requires IsStamp(e.timestamp) && e.timestamp.year > 9999
    requires IsStamp(cutoff) && 0 <= cutoff.year <= 9999
    ensures Nanos(e.timestamp) > Nanos(cutoff)
    ensures Without([e], StoredBefore(cutoff)) == [] && Without([e], OlderThan(Nanos(cutoff))) == [e]
  {
    assert Earlier(cutoff, e.timestamp);
    hide Nanos, ToRfc3339, TextBefore, IsStamp, Earlier;
    TextOrderIsChronological(e.timestamp, cutoff);
    EarlierIsChronological(cutoff, e.timestamp);
    assert [e][1..] == [];
  }

  const YEAR_10000 := Stamp(10_000, 1, 1, 0, 0, 0, 0)
  const YEAR_2024 := Stamp(2024, 1, 1, 0, 0, 0, 0)

  lemma YearsAreStamps()
    ensures IsStamp(YEAR_10000) && IsStamp(YEAR_2024) && YEAR_10000.year == 10_000 && YEAR_2024.year == 2024
  {
  }

  /** For example a row of the year 10000, deleted as older than 2024. */
  lemma Year10000IsPruned(e: Event)
    requires e.timestamp == YEAR_10000
    ensures Without([e], StoredBefore(YEAR_2024)) == []
  {
    YearsAreStamps();
    hide *;
    LateRowIsPruned(e, YEAR_2024);
  }
}
