/** Per-peer token buckets in front of the unauthenticated pairing endpoints
  * (src/api/pair.rs). Instants and token counts are reals. */
module PairRate {

  const PAIR_RATE_PER_MINUTE := 5.0
  const PAIR_RATE_BURST := 5.0
  const PAIR_RATE_IDLE_TTL := 60.0
  const PAIR_RATE_EVICT_THRESHOLD := 1024

  datatype Bucket = Bucket(tokens: real, updatedAt: real)

  type Table = map<string, Bucket>

  datatype Request = Request(peer: string, at: real)

  /** `Instant::duration_since`, which saturates at zero. */
  function Elapsed(now: real, since: real): real {
    if now >= since then now - since else 0.0
  }

  function Evict(t: Table, now: real): Table {
    map p | p in t && Elapsed(now, t[p].updatedAt) < PAIR_RATE_IDLE_TTL :: t[p]
  }

  /** The bucket a peer is charged against: its own, or a full one made now. */
  function BucketOf(t: Table, peer: string, now: real): Bucket {
    if peer in t then t[peer] else Bucket(PAIR_RATE_BURST, now)
  }

  function Refilled(b: Bucket, now: real): real {
    var tokens := b.tokens + Elapsed(now, b.updatedAt) * PAIR_RATE_PER_MINUTE / 60.0;
    if tokens < PAIR_RATE_BURST then tokens else PAIR_RATE_BURST
  }

  /** One request against a table from which nothing is ever evicted. */
  function Charge(t: Table, peer: string, now: real): (bool, Table) {
    var tokens := Refilled(BucketOf(t, peer, now), now);
    if tokens < 1.0 then (false, t[peer := Bucket(tokens, now)])
    else (true, t[peer := Bucket(tokens - 1.0, now)])
  }

  /** One request as the daemon handles it: idle buckets go first when the table is large. */
  function Allow(t: Table, peer: string, now: real): (bool, Table) {
    Charge(if |t| > PAIR_RATE_EVICT_THRESHOLD then Evict(t, now) else t, peer, now)
  }

  /** The shared `pair_rate` map behind its mutex. */
  class PairLimiter {
    var buckets: Table

    constructor ()
      ensures buckets == map[]
    {
      buckets := map[];
    }

    method AllowPairRequest(peer: string, now: real) returns (allowed: bool)
      modifies this
      ensures (allowed, buckets) == Allow(old(buckets), peer, now)
    {
      if |buckets| > PAIR_RATE_EVICT_THRESHOLD {
        buckets := map p | p in buckets && Elapsed(now, buckets[p].updatedAt) < PAIR_RATE_IDLE_TTL :: buckets[p];
      }
      if peer !in buckets {
        buckets := buckets[peer := Bucket(PAIR_RATE_BURST, now)];
      }
      var bucket := buckets[peer];
      var tokens := bucket.tokens + Elapsed(now, bucket.updatedAt) * PAIR_RATE_PER_MINUTE / 60.0;
      if tokens >= PAIR_RATE_BURST {
        tokens := PAIR_RATE_BURST;
      }
      if tokens < 1.0 {
        buckets := buckets[peer := Bucket(tokens, now)];
        return false;
      }
      buckets := buckets[peer := Bucket(tokens - 1.0, now)];
      assert forall t: Table, b: Bucket, b': Bucket {:trigger t[peer := b][peer := b']} ::
        t[peer := b][peer := b'] == t[peer := b'];
      return true;
    }
  }

  // ----- Schedules -----

  function TableAfter(t: Table, reqs: seq<Request>): Table
    decreases |reqs|
  {
    if reqs == [] then t else TableAfter(Allow(t, reqs[0].peer, reqs[0].at).1, reqs[1..])
  }

  /** The accept/reject answers of the daemon over a schedule. */
  function Trace(t: Table, reqs: seq<Request>): (answers: seq<bool>)
    ensures |answers| == |reqs|
    decreases |reqs|
  {
    if reqs == [] then []
    else
      var (ok, t') := Allow(t, reqs[0].peer, reqs[0].at);
      [ok] + Trace(t', reqs[1..])
  }

  /** The answers of a table that never evicts. */
  function KeepingTrace(t: Table, reqs: seq<Request>): (answers: seq<bool>)
    ensures |answers| == |reqs|
    decreases |reqs|
  {
    if reqs == [] then []
    else
      var (ok, t') := Charge(t, reqs[0].peer, reqs[0].at);
      [ok] + KeepingTrace(t', reqs[1..])
  }

  /** The clock is read under the lock, so request times never decrease. */
  ghost predicate Chronological(reqs: seq<Request>, now: real) {
    reqs == [] || (now <= reqs[0].at && Chronological(reqs[1..], reqs[0].at))
  }

  /** Every bucket holds between 0 and 5 tokens and was charged in the past. */
  ghost predicate Sane(t: Table, now: real) {
    forall p :: p in t ==> 0.0 <= t[p].tokens <= PAIR_RATE_BURST && t[p].updatedAt <= now
  }

  /** `e` is `k` without some buckets that have been idle for the whole TTL. */
  ghost predicate Shadows(e: Table, k: Table, now: real) {
    && (forall p :: p in e ==> p in k && e[p] == k[p])
    && (forall p :: p in k && p !in e ==> Elapsed(now, k[p].updatedAt) >= PAIR_RATE_IDLE_TTL)
  }

  lemma AllowIsSane(t: Table, peer: string, before: real, now: real)
    requires before <= now && Sane(t, before)
    ensures Sane(Charge(t, peer, now).1, now)
    ensures Sane(Allow(t, peer, now).1, now)
  {
  }

  /** Charging a table with idle buckets dropped and charging the whole one agree:
    * a bucket idle for 60 seconds is full again, like the fresh one replacing it. */
  lemma StepAgrees(e: Table, k: Table, peer: string, before: real, now: real)
    requires before <= now && Sane(k, before) && Shadows(e, k, before)
    ensures Allow(e, peer, now).0 == Charge(k, peer, now).0
    ensures Shadows(Allow(e, peer, now).1, Charge(k, peer, now).1, now)
  {
    var e' := if |e| > PAIR_RATE_EVICT_THRESHOLD then Evict(e, now) else e;
    assert Shadows(e', k, now);
    assert Refilled(BucketOf(e', peer, now), now) == Refilled(BucketOf(k, peer, now), now);
  }

  lemma {:induction false} TracesAgree(e: Table, k: Table, reqs: seq<Request>, now: real)
    requires Sane(k, now) && Shadows(e, k, now) && Chronological(reqs, now)
    ensures Trace(e, reqs) == KeepingTrace(k, reqs)
    decreases |reqs|
  {
    if reqs == [] {
    } else {
      var r := reqs[0];
      StepAgrees(e, k, r.peer, now, r.at);
      AllowIsSane(k, r.peer, now, r.at);
      TracesAgree(Allow(e, r.peer, r.at).1, Charge(k, r.peer, r.at).1, reqs[1..], r.at);
    }
  }

  /** Evicting idle buckets never changes an answer, for any schedule over any number of peers. */
  lemma EvictionIsInvisible(t: Table, reqs: seq<Request>, now: real)
    requires Sane(t, now) && Chronological(reqs, now)
    ensures Trace(t, reqs) == KeepingTrace(t, reqs)
  {
    TracesAgree(t, t, reqs, now);
  }

  // ----- The rate bound -----

  /** How many requests of `peer` made in [from, to] were accepted. */
  function Accepted(reqs: seq<Request>, answers: seq<bool>, peer: string, from: real, to: real): nat
    requires |answers| == |reqs|
  {
    if reqs == [] then 0
    else
      (if answers[0] && reqs[0].peer == peer && from <= reqs[0].at <= to then 1 else 0)
      + Accepted(reqs[1..], answers[1..], peer, from, to)
  }

  /** Tokens the peer could spend at `now`. */
  ghost function Level(k: Table, peer: string, now: real): real {
    Refilled(BucketOf(k, peer, now), now)
  }

  lemma LevelRises(k: Table, peer: string, now: real, later: real)
    requires now <= later && Sane(k, now)
    ensures 0.0 <= Level(k, peer, now) <= 5.0
    ensures var risen := Level(k, peer, now) + (later - now) / 12.0;
            Level(k, peer, later) == if risen < 5.0 then risen else 5.0
  {
  }

  lemma LevelAfterCharge(k: Table, charged: string, peer: string, now: real)
    requires Sane(k, now)
    ensures var (ok, k') := Charge(k, charged, now);
            Level(k', peer, now) == Level(k, peer, now) - (if ok && charged == peer then 1.0 else 0.0)
  {
  }

  /** From a state holding x tokens at `now`, at most x plus one per 12 seconds are accepted. */
  lemma {:induction false} AcceptedFromLevel(k: Table, reqs: seq<Request>, peer: string, from: real, now: real,
      to: real)
    requires now <= to && Sane(k, now) && Chronological(reqs, now)
    ensures Accepted(reqs, KeepingTrace(k, reqs), peer, from, to) as real <= Level(k, peer, now) + (to - now) / 12.0
    decreases |reqs|
  {
    if reqs == [] {
      LevelRises(k, peer, now, to);
    } else {
      var r := reqs[0];
      var (ok, k') := Charge(k, r.peer, r.at);
      AllowIsSane(k, r.peer, now, r.at);
      if r.at > to {
        LateRequestsDoNotCount(reqs, KeepingTrace(k, reqs), peer, from, to, now);
        LevelRises(k, peer, now, to);
      } else {
        AcceptedFromLevel(k', reqs[1..], peer, from, r.at, to);
        LevelRises(k, peer, now, r.at);
        LevelAfterCharge(k, r.peer, peer, r.at);
        assert KeepingTrace(k, reqs)[1..] == KeepingTrace(k', reqs[1..]);
      }
    }
  }

  lemma {:induction false} LateRequestsDoNotCount(reqs: seq<Request>, answers: seq<bool>, peer: string, from: real,
      to: real, now: real)
    requires |answers| == |reqs| && Chronological(reqs, now)
    requires reqs != [] && reqs[0].at > to
    ensures Accepted(reqs, answers, peer, from, to) == 0
  {
    if |reqs| <= 1 {
    } else {
      LateRequestsDoNotCount(reqs[1..], answers[1..], peer, from, to, reqs[0].at);
    }
  }

  lemma {:induction false} KeepingRateBound(k: Table, reqs: seq<Request>, peer: string, from: real, to: real, now: real)
    requires from <= to && Sane(k, now) && Chronological(reqs, now)
    ensures Accepted(reqs, KeepingTrace(k, reqs), peer, from, to) as real <= PAIR_RATE_BURST + (to - from) / 12.0
    decreases |reqs|
  {
    if reqs == [] {
    } else {
      var r := reqs[0];
      AllowIsSane(k, r.peer, now, r.at);
      if r.at < from {
        var (ok, k') := Charge(k, r.peer, r.at);
        assert KeepingTrace(k, reqs)[1..] == KeepingTrace(k', reqs[1..]);
        KeepingRateBound(k', reqs[1..], peer, from, to, r.at);
      } else if r.at > to {
        LateRequestsDoNotCount(reqs, KeepingTrace(k, reqs), peer, from, to, now);
      } else {
        AcceptedFromLevel(k, reqs, peer, from, r.at, to);
        LevelRises(k, peer, r.at, to);
      }
    }
  }

  /** Whatever the schedule, at most 5 + T/12 requests of one peer are accepted in T seconds. */
  lemma RateBound(t: Table, reqs: seq<Request>, peer: string, from: real, to: real, now: real)
    requires from <= to && Sane(t, now) && Chronological(reqs, now)
    ensures Accepted(reqs, Trace(t, reqs), peer, from, to) as real <= PAIR_RATE_BURST + (to - from) / 12.0
  {
    EvictionIsInvisible(t, reqs, now);
    KeepingRateBound(t, reqs, peer, from, to, now);
  }

  // ----- No starvation -----

  ghost predicate SilentSince(reqs: seq<Request>, peer: string, last: real) {
    forall i :: 0 <= i < |reqs| && reqs[i].peer == peer ==> reqs[i].at <= last
  }

  lemma {:induction false} SilentBucketIsOld(t: Table, reqs: seq<Request>, peer: string, last: real, now: real,
      end: real)
    requires Sane(t, now) && Chronological(reqs, now) && now <= end
    requires forall i :: 0 <= i < |reqs| ==> reqs[i].at <= end
    requires peer in t ==> t[peer].updatedAt <= last
    requires SilentSince(reqs, peer, last)
    ensures Sane(TableAfter(t, reqs), end)
    ensures var t' := TableAfter(t, reqs); peer in t' ==> t'[peer].updatedAt <= last
    decreases |reqs|
  {
    if reqs == [] {
    } else {
      var r := reqs[0];
      AllowIsSane(t, r.peer, now, r.at);
      assert forall i :: 0 <= i < |reqs[1..]| ==> reqs[1..][i] == reqs[i + 1];
      SilentBucketIsOld(Allow(t, r.peer, r.at).1, reqs[1..], peer, last, r.at, end);
    }
  }

  /** After any schedule, a peer that has been silent for 12 seconds is let through. */
  lemma SilentPeerIsAccepted(reqs: seq<Request>, peer: string, start: real, now: real)
    requires Chronological(reqs, start) && start <= now
    requires forall i :: 0 <= i < |reqs| ==> reqs[i].at <= now
    requires SilentSince(reqs, peer, now - 12.0)
    ensures Allow(TableAfter(map[], reqs), peer, now).0
  {
    SilentBucketIsOld(map[], reqs, peer, now - 12.0, start, now);
  }

  lemma {:induction false} BurstFrom(t: Table, reqs: seq<Request>, peer: string, now: real, spent: nat)
    requires forall i :: 0 <= i < |reqs| ==> reqs[i] == Request(peer, now)
    requires spent <= 5 && Refilled(BucketOf(t, peer, now), now) == 5.0 - spent as real
    ensures forall i :: 0 <= i < |reqs| ==> KeepingTrace(t, reqs)[i] == (spent + i < 5)
    decreases |reqs|
  {
    if reqs == [] {
    } else {
      var (ok, t') := Charge(t, peer, now);
      BurstFrom(t', reqs[1..], peer, now, if ok then spent + 1 else spent);
      assert forall i :: 1 <= i < |reqs| ==> KeepingTrace(t, reqs)[i] == KeepingTrace(t', reqs[1..])[i - 1];
    }
  }

  lemma {:induction false} SimultaneousIsChronological(reqs: seq<Request>, now: real)
    requires forall i :: 0 <= i < |reqs| ==> reqs[i].at == now
    ensures Chronological(reqs, now)
    decreases |reqs|
  {
    if reqs == [] {
    } else {
      SimultaneousIsChronological(reqs[1..], now);
    }
  }

  /** Of any number of simultaneous requests from a new peer exactly the first five pass. */
  lemma BurstOfFive(reqs: seq<Request>, peer: string, now: real)
    requires forall i :: 0 <= i < |reqs| ==> reqs[i] == Request(peer, now)
    ensures forall i :: 0 <= i < |reqs| ==> Trace(map[], reqs)[i] == (i < 5)
  {
    SimultaneousIsChronological(reqs, now);
    EvictionIsInvisible(map[], reqs, now);
    BurstFrom(map[], reqs, peer, now, 0);
  }

  // ----- Exactly which requests are accepted -----

  function KeepingAfter(k: Table, reqs: seq<Request>): Table
    decreases |reqs|
  {
    if reqs == [] then k else KeepingAfter(Charge(k, reqs[0].peer, reqs[0].at).1, reqs[1..])
  }

  ghost predicate NoneAfter(reqs: seq<Request>, to: real) {
    forall i :: 0 <= i < |reqs| ==> reqs[i].at <= to
  }

  lemma {:induction false} TablesAgree(e: Table, k: Table, reqs: seq<Request>, now: real, end: real)
    requires Sane(k, now) && Shadows(e, k, now) && Chronological(reqs, now) && now <= end && NoneAfter(reqs, end)
    ensures Sane(KeepingAfter(k, reqs), end) && Shadows(TableAfter(e, reqs), KeepingAfter(k, reqs), end)
    decreases |reqs|
  {
    if reqs == [] {
    } else {
      var r := reqs[0];
      StepAgrees(e, k, r.peer, now, r.at);
      AllowIsSane(k, r.peer, now, r.at);
      assert forall i :: 0 <= i < |reqs[1..]| ==> reqs[1..][i] == reqs[i + 1];
      TablesAgree(Allow(e, r.peer, r.at).1, Charge(k, r.peer, r.at).1, reqs[1..], r.at, end);
    }
  }

  /** One request: what is left of the level, and whether it counts as accepted. */
  lemma FirstCharge(k: Table, reqs: seq<Request>, peer: string, from: real, now: real, to: real)
    requires reqs != [] && Sane(k, now) && Chronological(reqs, now) && NoneAfter(reqs, to)
    ensures var r, answers := reqs[0], KeepingTrace(k, reqs);
            var k' := Charge(k, r.peer, r.at).1;
            var spent := if answers[0] && r.peer == peer then 1 else 0;
            && now <= r.at <= to && Sane(k', r.at) && Chronological(reqs[1..], r.at) && NoneAfter(reqs[1..], to)
            && Level(k', peer, r.at) == Level(k, peer, r.at) - spent as real
            && Accepted(reqs, answers, peer, from, to)
               == (if from <= r.at then spent else 0) + Accepted(reqs[1..], KeepingTrace(k', reqs[1..]), peer, from, to)
  {
    var r := reqs[0];
    AllowIsSane(k, r.peer, now, r.at);
    AllowIsSane(k, r.peer, r.at, r.at);
    LevelAfterCharge(k, r.peer, peer, r.at);
    assert KeepingTrace(k, reqs)[1..] == KeepingTrace(Charge(k, r.peer, r.at).1, reqs[1..]);
    assert forall i :: 0 <= i < |reqs[1..]| ==> reqs[1..][i] == reqs[i + 1];
  }

  lemma {:induction false} SpentFromLevel(k: Table, reqs: seq<Request>, peer: string, from: real, now: real, to: real)
    requires now <= to && Sane(k, now) && Chronological(reqs, now) && NoneAfter(reqs, to)
    ensures Level(KeepingAfter(k, reqs), peer, to) + Accepted(reqs, KeepingTrace(k, reqs), peer, from, to) as real
         <= Level(k, peer, now) + (to - now) / 12.0
    decreases |reqs|
  {
    if reqs == [] {
      LevelRises(k, peer, now, to);
    } else {
      var r := reqs[0];
      FirstCharge(k, reqs, peer, from, now, to);
      LevelRises(k, peer, now, r.at);
      hide Level, Accepted, KeepingTrace, Charge, Sane, Chronological;
      SpentFromLevel(Charge(k, r.peer, r.at).1, reqs[1..], peer, from, r.at, to);
    }
  }

  /** What is left and what was accepted since any earlier moment never exceed five and one per twelve seconds. */
  lemma {:induction false} LevelIsBounded(k: Table, reqs: seq<Request>, peer: string, from: real, now: real, to: real)
    requires now <= to && from <= to && Sane(k, now) && Chronological(reqs, now) && NoneAfter(reqs, to)
    ensures Level(KeepingAfter(k, reqs), peer, to) + Accepted(reqs, KeepingTrace(k, reqs), peer, from, to) as real
         <= 5.0 + (to - from) / 12.0
    decreases |reqs|
  {
    if reqs == [] {
      LevelRises(k, peer, now, to);
      LevelRises(k, peer, to, to);
    } else {
      var r := reqs[0];
      FirstCharge(k, reqs, peer, from, now, to);
      if r.at < from {
        hide Level, Accepted, KeepingTrace, Charge, Sane, Chronological;
        LevelIsBounded(Charge(k, r.peer, r.at).1, reqs[1..], peer, from, r.at, to);
      } else {
        LevelRises(k, peer, r.at, r.at);
        SpentFromLevel(k, reqs, peer, from, r.at, to);
      }
    }
  }

  lemma {:induction false} AcceptedSinceStart(reqs: seq<Request>, answers: seq<bool>, peer: string, from: real,
                                              start: real, to: real)
    requires |answers| == |reqs| && Chronological(reqs, start) && from <= start
    ensures Accepted(reqs, answers, peer, from, to) == Accepted(reqs, answers, peer, start, to)
  {
    if reqs == [] {
    } else {
      AcceptedSinceStart(reqs[1..], answers[1..], peer, from, reqs[0].at, to);
      AcceptedSinceStart(reqs[1..], answers[1..], peer, start, reqs[0].at, to);
    }
  }

  /** And they reach that bound, counted from the last moment the bucket was full, or from the start. */
  lemma {:induction false} BoundIsReached(k: Table, reqs: seq<Request>, peer: string, now: real, to: real)
    returns (from: real)
    requires now <= to && Sane(k, now) && Chronological(reqs, now) && NoneAfter(reqs, to)
    ensures now <= from <= to
    ensures Level(KeepingAfter(k, reqs), peer, to) + Accepted(reqs, KeepingTrace(k, reqs), peer, from, to) as real
         == (if from == now then Level(k, peer, now) else 5.0) + (to - from) / 12.0
    decreases |reqs|
  {
    if reqs == [] {
      LevelRises(k, peer, now, to);
      from := if Level(k, peer, now) + (to - now) / 12.0 < 5.0 then now else to;
    } else {
      var r, rest := reqs[0], reqs[1..];
      var k' := Charge(k, r.peer, r.at).1;
      FirstCharge(k, reqs, peer, now, now, to);
      LevelRises(k, peer, now, r.at);
      from := BoundIsReached(k', rest, peer, r.at, to);
      FirstCharge(k, reqs, peer, from, now, to);
      if from == r.at && Level(k, peer, now) + (r.at - now) / 12.0 < 5.0 {
        AcceptedSinceStart(rest, KeepingTrace(k', rest), peer, now, r.at, to);
        from := now;
      }
    }
  }

  lemma AnswerIsLevel(reqs: seq<Request>, peer: string, start: real, now: real)
    requires Chronological(reqs, start) && start <= now && NoneAfter(reqs, now)
    ensures Trace(map[], reqs) == KeepingTrace(map[], reqs)
    ensures Allow(TableAfter(map[], reqs), peer, now).0 <==> Level(KeepingAfter(map[], reqs), peer, now) >= 1.0
  {
    EvictionIsInvisible(map[], reqs, start);
    TablesAgree(map[], map[], reqs, start, now);
    StepAgrees(TableAfter(map[], reqs), KeepingAfter(map[], reqs), peer, now, now);
  }

  /** After any schedule from the empty table, a request is accepted exactly if with it at most 5 + T/12 of the
    * peer's requests have been accepted in the last T seconds, for every T back to the start. */
  lemma {:induction false} AcceptedIff(reqs: seq<Request>, peer: string, start: real, now: real)
    requires Chronological(reqs, start) && start <= now && NoneAfter(reqs, now)
    ensures Allow(TableAfter(map[], reqs), peer, now).0
       <==> forall from: real :: start <= from <= now ==>
              Accepted(reqs, Trace(map[], reqs), peer, from, now) as real + 1.0 <= 5.0 + (now - from) / 12.0
  {
    AnswerIsLevel(reqs, peer, start, now);
    assert Level(map[], peer, start) == 5.0;
    hide Allow, TableAfter, KeepingAfter, KeepingTrace, Trace, Level, Accepted, Chronological;
    forall from: real | start <= from <= now
      ensures Level(KeepingAfter(map[], reqs), peer, now) + Accepted(reqs, Trace(map[], reqs), peer, from, now) as real
           <= 5.0 + (now - from) / 12.0
    {
      LevelIsBounded(map[], reqs, peer, from, start, now);
    }
    var from := BoundIsReached(map[], reqs, peer, start, now);
  }

  // ----- What eviction does -----

  /** A request drops the buckets of other peers that were idle for sixty seconds, if there are more than 1024
    * in all, and touches no other. */
  lemma OthersAfterRequest(t: Table, peer: string, now: real, other: string)
    requires other != peer
    ensures var t' := Allow(t, peer, now).1;
            && peer in t' && t'[peer].updatedAt == now
            && (other in t' <==> other in t && (|t| <= 1024 || now - t[other].updatedAt < 60.0))
            && (other in t' ==> t'[other] == t[other])
  {
  }
}
