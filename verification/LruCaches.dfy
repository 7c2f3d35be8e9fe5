/** The bounded recency list of the `lru` crate, by its documented behaviour: `put` and `get` move an
  * entry to the front, `peek` does not, and a `put` into a full cache drops the last entry. */
module LruCaches {
  import opened Options

  datatype Lru<K(==), V> = Lru(capacity: nat, entries: seq<(K, V)>) {

    ghost predicate Valid() {
      1 <= capacity && |entries| <= capacity && Distinct(entries)
    }

    function Peek(k: K): Option<V> {
      Lookup(entries, k)
    }

    function Put(k: K, v: V): Lru<K, V> {
      var moved := [(k, v)] + Without(entries, k);
      Lru(capacity, if |moved| > capacity then moved[..capacity] else moved)
    }

    function Get(k: K): (Option<V>, Lru<K, V>) {
      var found := Lookup(entries, k);
      (found, if found.Some? then Lru(capacity, [(k, found.value)] + Without(entries, k)) else this)
    }

    function Pop(k: K): Lru<K, V> {
      Lru(capacity, Without(entries, k))
    }
  }

  ghost predicate Distinct<K, V>(es: seq<(K, V)>) {
    forall i, j :: 0 <= i < j < |es| ==> es[i].0 != es[j].0
  }

  function Lookup<K(==), V>(es: seq<(K, V)>, k: K): Option<V> {
    if es == [] then None else if es[0].0 == k then Some(es[0].1) else Lookup(es[1..], k)
  }

  function Without<K(==), V>(es: seq<(K, V)>, k: K): seq<(K, V)> {
    if es == [] then [] else if es[0].0 == k then Without(es[1..], k) else [es[0]] + Without(es[1..], k)
  }

  lemma {:induction false} LookupIsMembership<K, V>(es: seq<(K, V)>, k: K, v: V)
    requires Distinct(es)
    ensures Lookup(es, k) == Some(v) <==> (k, v) in es
  {
    if es == [] {
    } else {
      LookupIsMembership(es[1..], k, v);
    }
  }

  lemma {:induction false} WithoutMembership<K, V>(es: seq<(K, V)>, k: K, e: (K, V))
    ensures e in Without(es, k) <==> e in es && e.0 != k
  {
    if es == [] {
    } else {
      WithoutMembership(es[1..], k, e);
    }
  }

  lemma ConsIsDistinct<K, V>(e: (K, V), es: seq<(K, V)>)
    requires Distinct(es) && forall x :: x in es ==> x.0 != e.0
    ensures Distinct([e] + es)
  {
  }

  lemma {:induction false} WithoutIsDistinct<K, V>(es: seq<(K, V)>, k: K)
    requires Distinct(es)
    ensures Distinct(Without(es, k)) && |Without(es, k)| <= |es|
    ensures Lookup(es, k).Some? ==> |Without(es, k)| < |es|
  {
    if es == [] {
    } else {
      WithoutIsDistinct(es[1..], k);
      if es[0].0 != k {
        forall x | x in Without(es[1..], k) ensures x.0 != es[0].0 {
          WithoutMembership(es[1..], k, x);
        }
        ConsIsDistinct(es[0], Without(es[1..], k));
      }
    }
  }

  /** Moving a key to the front. */
  lemma MovedToFront<K, V>(es: seq<(K, V)>, k: K, v: V)
    requires Distinct(es)
    ensures Distinct([(k, v)] + Without(es, k))
    ensures |Without(es, k)| <= |es| && (Lookup(es, k).Some? ==> |Without(es, k)| < |es|)
  {
    WithoutIsDistinct(es, k);
    forall x | x in Without(es, k) ensures x.0 != k {
      WithoutMembership(es, k, x);
    }
    ConsIsDistinct((k, v), Without(es, k));
  }

  /** The cache never exceeds its capacity and never holds a key twice. */
  lemma OperationsKeepValid<K, V>(c: Lru<K, V>, k: K, v: V)
    requires c.Valid()
    ensures c.Put(k, v).Valid() && c.Get(k).1.Valid() && c.Pop(k).Valid()
  {
    MovedToFront(c.entries, k, v);
    WithoutIsDistinct(c.entries, k);
    if Lookup(c.entries, k).Some? {
      MovedToFront(c.entries, k, Lookup(c.entries, k).value);
    }
  }

  /** What `put` leaves in the cache: the new entry first, and nothing else that was not there. */
  lemma EntriesAfterPut<K, V>(c: Lru<K, V>, k: K, v: V, e: (K, V))
    requires c.Valid()
    ensures c.Put(k, v).entries != [] && c.Put(k, v).entries[0] == (k, v)
    ensures e in c.Put(k, v).entries ==> e == (k, v) || (e in c.entries && e.0 != k)
  {
    WithoutMembership(c.entries, k, e);
  }

  lemma PutIsPeeked<K, V>(c: Lru<K, V>, k: K, v: V)
    requires c.Valid()
    ensures c.Put(k, v).Peek(k) == Some(v)
  {
    EntriesAfterPut(c, k, v, (k, v));
  }

  lemma {:induction false} WithoutAbsent<K, V>(es: seq<(K, V)>, k: K)
    requires forall i :: 0 <= i < |es| ==> es[i].0 != k
    ensures Without(es, k) == es
  {
    if es == [] {
    } else {
      WithoutAbsent(es[1..], k);
    }
  }

  /** A put changes nothing exactly if it puts what is already the most recent entry. */
  lemma PutChangesNothingIff<K, V>(c: Lru<K, V>, k: K, v: V)
    requires c.Valid()
    ensures c.Put(k, v) == c <==> c.entries != [] && c.entries[0] == (k, v)
  {
    EntriesAfterPut(c, k, v, (k, v));
    if c.entries != [] && c.entries[0] == (k, v) {
      WithoutAbsent(c.entries[1..], k);
      assert c.entries == [(k, v)] + c.entries[1..];
    }
  }

  /** `get` reorders, `pop` removes one key. */
  lemma EntriesAfterGetAndPop<K, V>(c: Lru<K, V>, k: K, e: (K, V))
    requires c.Valid()
    ensures e in c.Get(k).1.entries <==> e in c.entries
    ensures e in c.Pop(k).entries <==> e in c.entries && e.0 != k
  {
    WithoutMembership(c.entries, k, e);
    if Lookup(c.entries, k).Some? {
      var v := Lookup(c.entries, k).value;
      LookupIsMembership(c.entries, k, v);
      if e.0 == k {
        LookupIsMembership(c.entries, k, e.1);
      }
    }
  }

  lemma {:induction false} WithoutAt<K, V>(es: seq<(K, V)>, i: nat)
    requires Distinct(es) && i < |es|
    ensures Without(es, es[i].0) == es[..i] + es[i + 1..] && Lookup(es, es[i].0) == Some(es[i].1)
  {
    if i == 0 {
      WithoutAbsent(es[1..], es[0].0);
    } else {
      WithoutAt(es[1..], i - 1);
      assert es[..i] == [es[0]] + es[1..][..i - 1];
    }
  }

  lemma LookupAbsent<K, V>(es: seq<(K, V)>, k: K)
    requires forall i :: 0 <= i < |es| ==> es[i].0 != k
    ensures Lookup(es, k) == None
  {
    if es != [] {
      LookupAbsent(es[1..], k);
    }
  }

  /** What the operations on a key do to the recency order, if its entry is at place `i`: `get` and `put` move
    * it to the front, `pop` takes it out, `peek` leaves it there, and the others keep their order. */
  lemma OrderAfterHit<K, V>(c: Lru<K, V>, i: nat, v: V)
    requires c.Valid() && i < |c.entries|
    ensures var e, others := c.entries[i], c.entries[..i] + c.entries[i + 1..];
            && c.Peek(e.0) == Some(e.1)
            && c.Get(e.0) == (Some(e.1), Lru(c.capacity, [e] + others))
            && c.Put(e.0, v) == Lru(c.capacity, [(e.0, v)] + others)
            && c.Pop(e.0) == Lru(c.capacity, others)
  {
    WithoutAt(c.entries, i);
  }

  /** On a key without an entry `get`, `peek` and `pop` change nothing; `put` goes in front of all others, and
    * only if the cache was full the last of them is dropped. */
  lemma OrderAfterMiss<K, V>(c: Lru<K, V>, k: K, v: V)
    requires c.Valid() && forall i :: 0 <= i < |c.entries| ==> c.entries[i].0 != k
    ensures c.Peek(k) == None && c.Get(k) == (None, c) && c.Pop(k) == c
    ensures var kept := if |c.entries| < c.capacity then c.entries else c.entries[..c.capacity - 1];
            c.Put(k, v) == Lru(c.capacity, [(k, v)] + kept)
  {
    WithoutAbsent(c.entries, k);
    LookupAbsent(c.entries, k);
  }

  /** A valid cache holds as many keys as entries. */
  lemma {:induction false} DistinctKeyCount<K, V>(es: seq<(K, V)>)
    requires Distinct(es)
    ensures |set e | e in es :: e.0| == |es|
  {
    if es == [] {
    } else {
      DistinctKeyCount(es[1..]);
      assert (set e | e in es :: e.0) == {es[0].0} + (set e | e in es[1..] :: e.0) by {
        assert es == [es[0]] + es[1..];
      }
    }
  }
}
