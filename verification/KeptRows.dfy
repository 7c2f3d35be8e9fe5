/** Selections of log rows by a range of ids and a set of ids left out. */
module KeptRows {
  import opened Sequences
  import opened Events
  import opened EventStore

  /** The rows with lo < id <= hi, without some ids. */
  function Kept(rows: seq<Event>, lo: int, hi: int, skips: set<int>): seq<Event> {
    if rows == [] then []
    else (if lo < rows[0].id <= hi && rows[0].id !in skips then [rows[0]] else []) + Kept(rows[1..], lo, hi, skips)
  }

  // ----- Lemmas about Kept -----

  lemma {:induction false} KeptMembers(rows: seq<Event>, lo: int, hi: int, skips: set<int>)
    ensures forall e :: e in Kept(rows, lo, hi, skips) <==> e in rows && lo < e.id <= hi && e.id !in skips
  {
    if rows == [] {
    } else {
      KeptMembers(rows[1..], lo, hi, skips);
    }
  }

  lemma {:induction false} KeptAppend(rows: seq<Event>, more: seq<Event>, lo: int, hi: int, skips: set<int>)
    ensures Kept(rows + more, lo, hi, skips) == Kept(rows, lo, hi, skips) + Kept(more, lo, hi, skips)
  {
    if rows == [] {
      assert rows + more == more;
    } else {
      KeptAppend(rows[1..], more, lo, hi, skips);
      assert (rows + more)[0] == rows[0] && (rows + more)[1..] == rows[1..] + more;
      var first := if lo < rows[0].id <= hi && rows[0].id !in skips then [rows[0]] else [];
      Regroup(first, Kept(rows[1..], lo, hi, skips), Kept(more, lo, hi, skips));
    }
  }

  lemma {:induction false} KeptNone(rows: seq<Event>, lo: int, hi: int, skips: set<int>)
    requires forall e :: e in rows && lo < e.id <= hi ==> e.id in skips
    ensures Kept(rows, lo, hi, skips) == []
  {
    if rows == [] {
    } else {
      KeptNone(rows[1..], lo, hi, skips);
    }
  }

  /** Two skip sets that agree on a range keep the same rows of it. */
  lemma {:induction false} KeptAgrees(rows: seq<Event>, lo: int, hi: int, a: set<int>, b: set<int>)
    requires forall e :: e in rows && lo < e.id <= hi ==> (e.id in a <==> e.id in b)
    ensures Kept(rows, lo, hi, a) == Kept(rows, lo, hi, b)
  {
    if rows == [] {
    } else {
      KeptAgrees(rows[1..], lo, hi, a, b);
    }
  }

  lemma {:induction false} KeptSplits(rows: seq<Event>, lo: int, mid: int, hi: int, skips: set<int>)
    requires Ordered(rows) && lo <= mid <= hi
    ensures Kept(rows, lo, hi, skips) == Kept(rows, lo, mid, skips) + Kept(rows, mid, hi, skips)
  {
    if rows == [] {
    } else {
      var e, rest := rows[0], rows[1..];
      KeptSplits(rest, lo, mid, hi, skips);
      assert [] + Kept(rest, mid, hi, skips) == Kept(rest, mid, hi, skips);
      if e.id <= mid {
        var first := if lo < e.id && e.id !in skips then [e] else [];
        Regroup(first, Kept(rest, lo, mid, skips), Kept(rest, mid, hi, skips));
      } else {
        KeptNone(rest, lo, mid, skips);
      }
    }
  }

  lemma {:induction false} KeptOrdered(rows: seq<Event>, lo: int, hi: int, skips: set<int>)
    requires Ordered(rows)
    ensures Ordered(Kept(rows, lo, hi, skips))
  {
    if rows == [] {
    } else {
      KeptOrdered(rows[1..], lo, hi, skips);
      KeptMembers(rows[1..], lo, hi, skips);
      forall x | x in Kept(rows[1..], lo, hi, skips) ensures rows[0].id < x.id {
        assert x in rows[1..];
      }
      PrependIsOrdered(rows[0], Kept(rows[1..], lo, hi, skips));
    }
  }

  /** From a bound to the id of row p there is only row p, if the rows before it are skipped. */
  lemma KeptOne(rows: seq<Event>, p: nat, lo: int, skips: set<int>)
    requires Ordered(rows) && p < |rows| && rows[p].id > lo && rows[p].id !in skips
    requires forall i :: 0 <= i < p && rows[i].id > lo ==> rows[i].id in skips
    ensures Kept(rows, lo, rows[p].id, skips) == [rows[p]]
  {
    assert rows == rows[..p] + ([rows[p]] + rows[p + 1..]);
    KeptAppend(rows[..p], [rows[p]] + rows[p + 1..], lo, rows[p].id, skips);
    KeptNone(rows[..p], lo, rows[p].id, skips);
    KeptNone(rows[p + 1..], lo, rows[p].id, skips);
    assert ([rows[p]] + rows[p + 1..])[1..] == rows[p + 1..];
  }

  /** A set of ids changes nothing exactly if it meets no row of the range. */
  lemma NothingSkippedIff(rows: seq<Event>, lo: int, hi: int, skips: set<int>)
    ensures Kept(rows, lo, hi, skips) == Kept(rows, lo, hi, {})
       <==> forall e :: e in rows && lo < e.id <= hi ==> e.id !in skips
  {
    KeptMembers(rows, lo, hi, skips);
    KeptMembers(rows, lo, hi, {});
    if forall e :: e in rows && lo < e.id <= hi ==> e.id !in skips {
      KeptAgrees(rows, lo, hi, skips, {});
    }
    hide Kept;
  }

  /** Rows in id order are determined by which rows they are. */
  lemma {:induction false} SameRows(a: seq<Event>, b: seq<Event>)
    requires Ordered(a) && Ordered(b) && forall e :: e in a <==> e in b
    ensures a == b
  {
    assert |b| > 0 ==> b[0] in b;
    if a == [] {
    } else {
      assert a[0] in b && b != [] && b[0] in a;
      assert a[0] == b[0];
      forall e ensures e in a[1..] <==> e in b[1..] {
        assert e in a <==> e == a[0] || e in a[1..];
        assert e in b <==> e == b[0] || e in b[1..];
        assert forall x :: x in a[1..] || x in b[1..] ==> x.id > a[0].id;
      }
      SameRows(a[1..], b[1..]);
    }
  }

  lemma KeptIs(rows: seq<Event>, kept: seq<Event>, lo: int, hi: int, skips: set<int>)
    requires Ordered(rows) && Ordered(kept)
    requires forall e :: e in kept <==> e in rows && lo < e.id <= hi && e.id !in skips
    ensures kept == Kept(rows, lo, hi, skips)
  {
    KeptOrdered(rows, lo, hi, skips);
    KeptMembers(rows, lo, hi, skips);
    hide Kept, Ordered;
    SameRows(kept, Kept(rows, lo, hi, skips));
  }

  /** The part of the range up to its first row. */
  lemma KeptFirst(rows: seq<Event>, lo: int, hi: int, skips: set<int>)
    requires Ordered(rows) && Kept(rows, lo, hi, skips) != []
    ensures var kept := Kept(rows, lo, hi, skips);
            && lo < kept[0].id <= hi && kept[0].id !in skips && kept[0] in rows
            && Kept(rows, lo, kept[0].id, skips) == [kept[0]] && Kept(rows, kept[0].id, hi, skips) == kept[1..]
  {
    var kept := Kept(rows, lo, hi, skips);
    KeptOrdered(rows, lo, hi, skips);
    KeptMembers(rows, lo, hi, skips);
    assert kept[0] in kept && kept == [kept[0]] + kept[1..];
    hide Kept;
    forall e ensures e in [kept[0]] <==> e in rows && lo < e.id <= kept[0].id && e.id !in skips {
      if e in kept && e != kept[0] {
        assert e in kept[1..];
      }
    }
    KeptIs(rows, [kept[0]], lo, kept[0].id, skips);
    forall e ensures e in kept[1..] <==> e in rows && kept[0].id < e.id <= hi && e.id !in skips {
      if e in kept && e != kept[0] {
        assert e in kept[1..];
      }
    }
    KeptIs(rows, kept[1..], kept[0].id, hi, skips);
  }
}
