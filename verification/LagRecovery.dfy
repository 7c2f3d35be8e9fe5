/** What a client that re-subscribes after every lag misses: exactly the rows above a subscription's cursor
  * that its replay leaves out although they lie below its end or had been published before its
  * receiver was registered (src/events/publisher.rs). */
module LagRecovery {
  import opened Events
  import opened EventStore
  import opened Publisher
  import opened Handoff
  import opened KeptRows

  // ----- Hypotheses the code does not enforce -----

  /** Publishes happen in id order, each event once, and reads are strict. The first `base` rows were
    * appended before the bus existed. */
  ghost predicate Tame(w: World, step: Step, base: nat) {
    match step
    case Publish(e) => base + |w.channel.sent| < |w.history| && e == w.history[base + |w.channel.sent|]
    case Read(strict) => strict
    case _ => true
  }

  ghost predicate TameRun(w: World, steps: seq<Step>, base: nat)
    decreases |steps|
  {
    steps == [] ||
    (TameRun(w, steps[..|steps| - 1], base) && Tame(Run(w, steps[..|steps| - 1]), steps[|steps| - 1], base))
  }

  /** Where the replay of a subscription ends. */
  function ReplayEnd(w: World): int
    requires w.phase.Registered?
  {
    MaxId(Replay(w), w.phase.cursor)
  }

  function Replay(w: World): seq<Event>
    requires w.phase.Registered?
  {
    FirstRows(Backlog(w.rows, w.phase.cursor), w.limit)
  }

  /** The rows above the cursor that are not replayed and will not come live: they lie below the end of
    * the replay, or had been published when the receiver was registered. */
  ghost predicate IsSkipped(w: World, base: nat, i: nat)
    requires w.phase.Registered? && i < |w.history|
  {
    && w.history[i].id > w.phase.cursor && w.history[i] !in Replay(w)
    && (w.history[i].id <= ReplayEnd(w) || i < base + w.phase.position)
  }

  ghost function SkippedBy(w: World, base: nat): set<int>
    requires w.phase.Registered?
  {
    set i | 0 <= i < |w.history| && IsSkipped(w, base, i) :: w.history[i].id
  }

  /** What the subscriptions of a run skip; a later subscription replays again what lies above its
    * cursor. */
  ghost function Skips(w: World, steps: seq<Step>, base: nat): set<int>
    decreases |steps|
  {
    if steps == [] then {}
    else
      var now := Run(w, steps[..|steps| - 1]);
      var before := Skips(w, steps[..|steps| - 1], base);
      if steps[|steps| - 1].Query? && now.phase.Registered? then SkipsAfterQuery(now, base, before) else before
  }

  /** Earlier skips at or below the cursor, and those of the new subscription. */
  ghost function SkipsAfterQuery(w: World, base: nat, skips: set<int>): set<int>
    requires w.phase.Registered?
  {
    (set s | s in skips && s <= w.phase.cursor) + SkippedBy(w, base)
  }

  // ----- The invariant -----

  /** The channel carries the log from `base` on. */
  ghost predicate LogInv(w: World, base: nat) {
    IsLog(w.history) && IsChannelOf(w.channel.sent, w.history, base)
  }

  ghost predicate IsLog(history: seq<Event>) {
    Ordered(history) && forall e :: e in history ==> 1 <= e.id <= I64_MAX
  }

  ghost predicate IsChannelOf(sent: seq<Event>, history: seq<Event>, base: nat) {
    base + |sent| <= |history| && sent == history[base..base + |sent|]
  }

  /** How much of the channel the client has read or passed over. */
  function Reach(w: World): nat {
    match w.phase
    case Idle(_) => |w.channel.sent|
    case Registered(_, p) => p
    case Live(sub) => sub.position
  }

  /** Skipped rows lie in what was published or below the cursor; above the cursor, what was published
    * and passed over is skipped. */
  ghost predicate SkipInv(w: World, after: int, base: nat, skips: set<int>)
    requires base + |w.channel.sent| <= |w.history|
  {
    && Reach(w) <= |w.channel.sent|
    && (forall s :: s in skips ==> after < s && IsRowBehind(w, base, s))
    && (w.phase.Live? ==>
          forall i :: 0 <= i < base + Reach(w) && w.history[i].id > Cursor(w) ==> w.history[i].id in skips)
  }

  ghost predicate IsRowBehind(w: World, base: nat, s: int) {
    exists i :: 0 <= i < |w.history| && w.history[i].id == s && (i < base + Reach(w) || s <= Cursor(w))
  }

  ghost predicate RecoveryInv(w: World, after: int, base: nat, skips: set<int>) {
    && DeliveryInv(w, after)
    && LogInv(w, base)
    && SkipInv(w, after, base, skips)
    && w.delivered == Kept(w.history, after, Frontier(w, after), skips)
    && Undelivered(w) == Kept(w.history, Frontier(w, after), Cursor(w), skips)
  }

  ghost predicate StartsOnLog(w: World, after: int, base: nat) {
    Starts(w, after) && LogInv(w, base)
  }

  lemma FrontierBounds(w: World, after: int)
    requires DeliveryInv(w, after)
    ensures after <= Frontier(w, after) <= Cursor(w)
    ensures Undelivered(w) == [] ==> Frontier(w, after) == Cursor(w)
    ensures forall e :: e in Undelivered(w) ==> Frontier(w, after) < e.id <= Cursor(w)
  {
    var all := w.delivered + Undelivered(w);
    MaxIdIsLast(all, after);
    if w.delivered != [] {
      assert all[|w.delivered| - 1] == w.delivered[|w.delivered| - 1];
      assert w.delivered[|w.delivered| - 1] in all;
    }
    forall e | e in Undelivered(w) ensures Frontier(w, after) < e.id <= Cursor(w) {
      var i :| 0 <= i < |Undelivered(w)| && Undelivered(w)[i] == e;
      assert all[|w.delivered| + i] == e && e in all;
    }
    if Undelivered(w) == [] {
      assert all == w.delivered;
    }
  }

  /** Both ends of what the client has or is about to get are rows of the log, or its first cursor. */
  lemma BoundsAreRows(w: World, e: Event, after: int, base: nat, skips: set<int>)
    requires RecoveryInv(w, after, base, skips) && forall x :: x in w.history ==> x.id < e.id
    ensures !(after < e.id <= Frontier(w, after)) && !(Frontier(w, after) < e.id <= Cursor(w))
  {
    FrontierBounds(w, after);
    KeptMembers(w.history, after, Frontier(w, after), skips);
    KeptMembers(w.history, Frontier(w, after), Cursor(w), skips);
    if w.delivered != [] {
      assert w.delivered[|w.delivered| - 1] in w.history;
    }
    if Undelivered(w) != [] {
      var all := w.delivered + Undelivered(w);
      assert all[|all| - 1] == Undelivered(w)[|Undelivered(w)| - 1];
      assert Undelivered(w)[|Undelivered(w)| - 1] in w.history;
    }
  }

  lemma LogGrows(history: seq<Event>, sent: seq<Event>, e: Event, base: nat)
    requires IsLog(history) && IsChannelOf(sent, history, base)
    requires 1 <= e.id <= I64_MAX && forall x :: x in history ==> x.id < e.id
    ensures IsLog(history + [e]) && IsChannelOf(sent, history + [e], base)
  {
    assert (history + [e])[base..base + |sent|] == history[base..base + |sent|];
  }

  /** Skips refer to rows already in the log, which an append leaves in place. */
  lemma SkipInvCarries(w: World, w': World, after: int, base: nat, skips: set<int>)
    requires base + |w.channel.sent| <= |w.history| && SkipInv(w, after, base, skips)
    requires w.history <= w'.history && |w.channel.sent| <= |w'.channel.sent|
            && base + |w'.channel.sent| <= |w'.history|
    requires Cursor(w') == Cursor(w)
    requires Reach(w) <= Reach(w') <= |w'.channel.sent|
    requires w'.phase.Live? ==> w.phase.Live? && Reach(w') == Reach(w)
    ensures SkipInv(w', after, base, skips)
  {
    hide Cursor, Reach;
    forall s | s in skips ensures after < s && IsRowBehind(w', base, s) {
      assert IsRowBehind(w, base, s);
      var i :| 0 <= i < |w.history| && w.history[i].id == s && (i < base + Reach(w) || s <= Cursor(w));
      assert w'.history[i].id == s;
    }
    if w'.phase.Live? {
      forall i | 0 <= i < base + Reach(w') && w'.history[i].id > Cursor(w') ensures w'.history[i].id in skips {
        assert w.history[i] == w'.history[i];
      }
    }
  }

  lemma KeptWithoutLast(history: seq<Event>, e: Event, lo: int, hi: int, skips: set<int>)
    requires !(lo < e.id <= hi)
    ensures Kept(history + [e], lo, hi, skips) == Kept(history, lo, hi, skips)
  {
    KeptAppend(history, [e], lo, hi, skips);
    assert Kept([e], lo, hi, skips) == [];
  }

  lemma AppendOutcome(w: World, e: Event)
    requires Enabled(w, Append(e))
    ensures var w' := Apply(w, Append(e));
            && w'.history == w.history + [e] && w'.channel == w.channel && w'.phase == w.phase
                && w'.delivered == w.delivered
            && Undelivered(w') == Undelivered(w) && Cursor(w') == Cursor(w) && Reach(w') == Reach(w)
    ensures 1 <= e.id <= I64_MAX && forall x :: x in w.history ==> x.id < e.id
  {
  }

  lemma AppendKeepsRecovery(w: World, e: Event, after: int, base: nat, skips: set<int>)
    requires RecoveryInv(w, after, base, skips) && Enabled(w, Append(e))
    ensures RecoveryInv(Apply(w, Append(e)), after, base, skips)
  {
    hide Enabled, Apply, DeliveryInv, SkipInv, IsLog, IsChannelOf, Kept, Undelivered, Cursor, Reach;
    var w' := Apply(w, Append(e));
    AppendOutcome(w, e);
    BoundsAreRows(w, e, after, base, skips);
    StepKeepsDelivery(w, Append(e), after);
    LogGrows(w.history, w.channel.sent, e, base);
    SkipBounds(w, after, base, skips);
    SkipInvCarries(w, w', after, base, skips);
    KeptWithoutLast(w.history, e, after, Frontier(w, after), skips);
    KeptWithoutLast(w.history, e, Frontier(w, after), Cursor(w), skips);
  }

  lemma SkipBounds(w: World, after: int, base: nat, skips: set<int>)
    requires RecoveryInv(w, after, base, skips)
    ensures base + |w.channel.sent| <= |w.history| && Reach(w) <= |w.channel.sent|
  {
  }

  /** A step that touches neither the log, nor what was delivered or is about to be, nor the cursor. */
  lemma QuietStepKeepsRecovery(w: World, w': World, after: int, base: nat, skips: set<int>)
    requires RecoveryInv(w, after, base, skips)
    requires w'.history == w.history && w'.delivered == w.delivered && Undelivered(w') == Undelivered(w)
            && Cursor(w') == Cursor(w)
    requires DeliveryInv(w', after) && LogInv(w', base)
    requires |w.channel.sent| <= |w'.channel.sent| && Reach(w) <= Reach(w') <= |w'.channel.sent|
    requires w'.phase.Live? ==> w.phase.Live? && Reach(w') == Reach(w)
    ensures RecoveryInv(w', after, base, skips)
  {
    hide DeliveryInv, Undelivered, Kept, Cursor, Reach, SkipInv, IsLog;
    SkipInvCarries(w, w', after, base, skips);
  }

  lemma ChannelGrows(sent: seq<Event>, history: seq<Event>, e: Event, base: nat)
    requires IsChannelOf(sent, history, base) && base + |sent| < |history| && e == history[base + |sent|]
    ensures IsChannelOf(sent + [e], history, base)
  {
    assert history[base..base + |sent| + 1] == history[base..base + |sent|] + [e];
  }

  lemma PublishOutcome(w: World, e: Event, base: nat)
    requires LogInv(w, base) && Tame(w, Publish(e), base)
    ensures var w' := Apply(w, Publish(e));
            && w'.history == w.history && w'.delivered == w.delivered && w'.phase == w.phase
            && |w'.channel.sent| == |w.channel.sent| + 1
            && Undelivered(w') == Undelivered(w) && Cursor(w') == Cursor(w) && LogInv(w', base)
            && (if w.phase.Idle? then Reach(w') == Reach(w) + 1 else Reach(w') == Reach(w))
  {
    hide IsLog, IsChannelOf;
    ChannelGrows(w.channel.sent, w.history, e, base);
  }

  lemma PublishKeepsRecovery(w: World, e: Event, after: int, base: nat, skips: set<int>)
    requires RecoveryInv(w, after, base, skips) && Tame(w, Publish(e), base) && Enabled(w, Publish(e))
    ensures RecoveryInv(Apply(w, Publish(e)), after, base, skips)
  {
    hide LogInv, DeliveryInv, SkipInv, Apply, Enabled, Tame, Undelivered, Kept, Reach, Cursor;
    var w' := Apply(w, Publish(e));
    StepKeepsDelivery(w, Publish(e), after);
    SkipBounds(w, after, base, skips);
    PublishOutcome(w, e, base);
    if w.phase.Idle? {
      IdleReach(w);
    }
    QuietStepKeepsRecovery(w, w', after, base, skips);
  }

  lemma IdleReach(w: World)
    requires w.phase.Idle?
    ensures Reach(w) == |w.channel.sent|
  {
  }

  predicate IsQuiet(step: Step) {
    step.Prune? || step.PruneOlder? || step.Shut? || step.Register?
  }

  lemma QuietOutcome(w: World, step: Step, base: nat)
    requires LogInv(w, base) && Enabled(w, step) && IsQuiet(step) && Reach(w) <= |w.channel.sent|
    ensures var w' := Apply(w, step);
            && w'.history == w.history && w'.delivered == w.delivered && w'.channel.sent == w.channel.sent
            && Undelivered(w') == Undelivered(w) && Cursor(w') == Cursor(w) && LogInv(w', base)
            && Reach(w) <= Reach(w') <= |w'.channel.sent|
            && (w'.phase.Live? ==> w.phase.Live? && Reach(w') == Reach(w))
  {
    hide IsLog, IsChannelOf;
  }

  lemma QuietKeepsRecovery(w: World, step: Step, after: int, base: nat, skips: set<int>)
    requires RecoveryInv(w, after, base, skips) && Enabled(w, step) && IsQuiet(step)
    ensures RecoveryInv(Apply(w, step), after, base, skips)
  {
    hide LogInv, DeliveryInv, SkipInv, Apply, Enabled, Undelivered, Kept, Reach, Cursor, IsQuiet;
    StepKeepsDelivery(w, step, after);
    SkipBounds(w, after, base, skips);
    QuietOutcome(w, step, base);
    QuietStepKeepsRecovery(w, Apply(w, step), after, base, skips);
  }

  // ----- The query -----

  /** What is replayed: rows of the table above the cursor, in order, up to the end of the replay. */
  lemma ReplayRows(w: World)
    requires w.phase.Registered? && Ordered(w.rows)
    ensures Ordered(Replay(w)) && ReplayEnd(w) == LastId(Replay(w), w.phase.cursor) >= w.phase.cursor
    ensures forall e :: e in Replay(w) ==> e in w.rows && w.phase.cursor < e.id <= ReplayEnd(w)
  {
    ReplayIsOrdered(w.rows, w.limit, w.phase.cursor);
    MaxIdIsLast(Replay(w), w.phase.cursor);
    if Replay(w) != [] {
      assert Replay(w)[|Replay(w)| - 1] in Replay(w);
    }
  }

  /** Between registration and query nothing is undelivered, and the cursor is the last id handed out. */
  lemma RegisteredState(w: World, after: int, base: nat, skips: set<int>)
    requires RecoveryInv(w, after, base, skips) && w.phase.Registered?
    ensures after <= w.phase.cursor == Frontier(w, after)
    ensures Ordered(w.rows) && Ordered(w.history) && forall e :: e in w.rows ==> e in w.history
    ensures base + w.phase.position <= base + |w.channel.sent| <= |w.history|
    ensures forall s :: s in skips ==> after < s && IsRowBehind(w, base, s)
  {
    FrontierBounds(w, after);
    assert Undelivered(w) == [];
    hide Kept, Ordered, IsRowBehind;
  }

  lemma QueryMovesPhase(w: World, after: int)
    requires w.phase.Registered?
    ensures var w' := Apply(w, Query);
            && Cursor(w') == ReplayEnd(w) && Undelivered(w') == Replay(w) && Frontier(w', after) == Frontier(w, after)
            && w'.phase.Live? && w'.history == w.history && w'.channel == w.channel && w'.delivered == w.delivered
            && Reach(w') == w.phase.position
  {
    QueryOutcome(w);
    hide MaxId, Backlog, FirstRows;
  }

  /** The state after the query. */
  lemma QueriedState(w: World, after: int, base: nat, skips: set<int>)
    requires RecoveryInv(w, after, base, skips) && w.phase.Registered?
    ensures var w' := Apply(w, Query);
            && after <= w.phase.cursor == Frontier(w, after) <= Cursor(w') == ReplayEnd(w)
                && Frontier(w', after) == Frontier(w, after)
            && Undelivered(w') == Replay(w) && w'.phase.Live? && w'.history == w.history && w'.channel == w.channel
            && w'.delivered == w.delivered && Reach(w') == w.phase.position
    ensures Ordered(w.history) && base + w.phase.position <= base + |w.channel.sent| <= |w.history|
    ensures forall e :: e in Replay(w) ==> e in w.history && w.phase.cursor < e.id <= ReplayEnd(w)
    ensures Ordered(Replay(w))
    ensures forall s :: s in skips ==> after < s && IsRowBehind(w, base, s)
  {
    hide *;
    RegisteredState(w, after, base, skips);
    QueryMovesPhase(w, after);
    ReplayRows(w);
  }

  /** The replay is exactly the log from the cursor to the end of the replay without the skips. */
  lemma ReplayIsKept(w: World, after: int, base: nat, skips: set<int>)
    requires RecoveryInv(w, after, base, skips) && w.phase.Registered?
    ensures Replay(w) == Kept(w.history, w.phase.cursor, ReplayEnd(w), SkipsAfterQuery(w, base, skips))
  {
    QueriedState(w, after, base, skips);
    hide RecoveryInv, Kept, Replay, ReplayEnd, Apply, Undelivered, Cursor, Reach, SkippedBy, Ordered;
    var skips' := SkipsAfterQuery(w, base, skips);
    forall e ensures e in Replay(w) <==> e in w.history && w.phase.cursor < e.id <= ReplayEnd(w) && e.id !in skips' {
      if e in w.history && w.phase.cursor < e.id <= ReplayEnd(w) {
        ReplayedIffNotSkipped(w, base, e);
      }
    }
    KeptIs(w.history, Replay(w), w.phase.cursor, ReplayEnd(w), skips');
  }

  lemma ReplayedIffNotSkipped(w: World, base: nat, e: Event)
    requires w.phase.Registered? && Ordered(w.history) && e in w.history && w.phase.cursor < e.id <= ReplayEnd(w)
    ensures e in Replay(w) <==> e.id !in SkippedBy(w, base)
  {
    hide Replay, ReplayEnd;
    var i :| 0 <= i < |w.history| && w.history[i] == e;
    if e in Replay(w) {
      assert forall j :: 0 <= j < |w.history| && IsSkipped(w, base, j) ==> w.history[j].id != e.id;
    } else {
      assert IsSkipped(w, base, i);
    }
  }

  lemma QuerySkipInv(w: World, after: int, base: nat, skips: set<int>)
    requires RecoveryInv(w, after, base, skips) && w.phase.Registered?
    ensures base + |Apply(w, Query).channel.sent| <= |Apply(w, Query).history|
    ensures SkipInv(Apply(w, Query), after, base, SkipsAfterQuery(w, base, skips))
  {
    QueriedState(w, after, base, skips);
    hide Apply, Undelivered, Cursor, Replay, ReplayEnd, RecoveryInv, Reach, Ordered;
    var w', skips' := Apply(w, Query), SkipsAfterQuery(w, base, skips);
    forall s | s in skips' ensures after < s && IsRowBehind(w', base, s) {
      if s in SkippedBy(w, base) {
        var i :| 0 <= i < |w.history| && IsSkipped(w, base, i) && w.history[i].id == s;
        assert w'.history[i].id == s;
      } else {
        assert IsRowBehind(w, base, s);
        var i :| 0 <= i < |w.history| && w.history[i].id == s;
        assert w'.history[i].id == s;
      }
    }
    forall i | 0 <= i < base + Reach(w') && w'.history[i].id > Cursor(w') ensures w'.history[i].id in skips' {
      assert IsSkipped(w, base, i);
    }
  }

  lemma SkipsAboveFrontierDoNotMatter(w: World, after: int, base: nat, skips: set<int>)
    requires RecoveryInv(w, after, base, skips) && w.phase.Registered?
    ensures Kept(w.history, after, Frontier(w, after), skips)
            == Kept(w.history, after, Frontier(w, after), SkipsAfterQuery(w, base, skips))
  {
    QueriedState(w, after, base, skips);
    hide Apply, Undelivered, Cursor, Replay, ReplayEnd, RecoveryInv, Reach, Ordered, Kept;
    KeptAgrees(w.history, after, Frontier(w, after), skips, SkipsAfterQuery(w, base, skips));
  }

  lemma QueryKeepsRecovery(w: World, after: int, base: nat, skips: set<int>)
    requires RecoveryInv(w, after, base, skips) && w.phase.Registered?
    ensures RecoveryInv(Apply(w, Query), after, base, SkipsAfterQuery(w, base, skips))
  {
    StepKeepsDelivery(w, Query, after);
    QuerySkipInv(w, after, base, skips);
    QueriedState(w, after, base, skips);
    ReplayIsKept(w, after, base, skips);
    SkipsAboveFrontierDoNotMatter(w, after, base, skips);
    hide Apply, Undelivered, Cursor, Replay, ReplayEnd, DeliveryInv, Reach, IsLog, IsChannelOf, Kept, SkipsAfterQuery,
        SkipInv;
  }

  // ----- Reads -----

  /** The next replayed row extends what was kept by exactly itself. */
  lemma NextReplayed(history: seq<Event>, after: int, f: int, c: int, skips: set<int>)
    requires Ordered(history) && after <= f && Kept(history, f, c, skips) != []
    ensures var next := Kept(history, f, c, skips)[0];
            && Kept(history, after, next.id, skips) == Kept(history, after, f, skips) + [next]
            && Kept(history, next.id, c, skips) == Kept(history, f, c, skips)[1..]
  {
    KeptFirst(history, f, c, skips);
    KeptSplits(history, after, f, Kept(history, f, c, skips)[0].id, skips);
  }

  lemma ReplayReadOutcome(w: World)
    requires w.phase.Live? && w.phase.sub.replayIdx < |w.phase.sub.replay|
    ensures var w' := AfterRead(w, true);
            && Undelivered(w) != [] && w'.delivered == w.delivered + [Undelivered(w)[0]]
                && Undelivered(w') == Undelivered(w)[1..]
            && w'.phase.Live? && w'.history == w.history && w'.rows == w.rows && w'.channel == w.channel
                && Reach(w') == Reach(w)
  {
  }

  lemma ReplayReadKeepsRecovery(w: World, after: int, base: nat, skips: set<int>)
    requires RecoveryInv(w, after, base, skips) && w.phase.Live? && w.phase.sub.replayIdx < |w.phase.sub.replay|
    ensures RecoveryInv(AfterRead(w, true), after, base, skips)
  {
    var w', next := AfterRead(w, true), Undelivered(w)[0];
    FrontierBounds(w, after);
    ReplayReadKeepsDelivery(w, after, true);
    ReplayReadOutcome(w);
    SkipBounds(w, after, base, skips);
    assert Ordered(w.history);
    hide DeliveryInv, Kept, AfterRead, Undelivered, Ordered, SkipInv, Cursor, Reach, IsChannelOf;
    SkipInvCarries(w, w', after, base, skips);
    assert Frontier(w', after) == next.id;
    NextReplayed(w.history, after, Frontier(w, after), Cursor(w), skips);
  }

  lemma LiveReadPosition(w: World)
    requires w.phase.Live? && w.phase.sub.replayIdx >= |w.phase.sub.replay| && w.phase.sub.position <= |w.channel.sent|
    ensures var w', p := AfterRead(w, true), w.phase.sub.position;
            && p <= Reach(w') <= |w.channel.sent|
            && (w'.delivered != w.delivered ==> w'.phase.Live? && Reach(w') == p + 1)
            && (w'.delivered == w.delivered && w'.phase.Live? ==>
                  Reach(w') == p || (Reach(w') == p + 1 && w.channel.sent[p].id <= Cursor(w)))
  {
  }

  lemma LiveReadKeepsSkips(w: World, after: int, base: nat, skips: set<int>)
    requires LogInv(w, base) && SkipInv(w, after, base, skips)
    requires w.phase.Live? && w.phase.sub.replayIdx >= |w.phase.sub.replay|
    ensures base + |AfterRead(w, true).channel.sent| <= |AfterRead(w, true).history|
    ensures SkipInv(AfterRead(w, true), after, base, skips)
  {
    var w', p := AfterRead(w, true), w.phase.sub.position;
    assert Reach(w) == p <= |w.channel.sent|;
    hide AfterRead, ReadOnce, Undelivered, Cursor, LogInv, Reach;
    LiveReadOutcome(w, true);
    LiveReadPosition(w);
    LiveReadPlace(w, base);
    RowsStayBehind(w, w', after, base, skips);
    if w'.phase.Live? {
      PassedRowsAreSkipped(w, w', base, skips);
    }
  }

  /** Skipped rows stay behind when the client only moves on. */
  lemma RowsStayBehind(w: World, w': World, after: int, base: nat, skips: set<int>)
    requires forall s :: s in skips ==> after < s && IsRowBehind(w, base, s)
    requires w'.history == w.history && Cursor(w) <= Cursor(w') && Reach(w) <= Reach(w')
    ensures forall s :: s in skips ==> after < s && IsRowBehind(w', base, s)
  {
    hide Cursor, Reach;
    forall s | s in skips ensures after < s && IsRowBehind(w', base, s) {
      assert IsRowBehind(w, base, s);
      var i :| 0 <= i < |w.history| && w.history[i].id == s && (i < base + Reach(w) || s <= Cursor(w));
      assert w'.history[i].id == s;
    }
  }

  /** At most the row just read is passed, and it does not lie above the new cursor. */
  lemma PassedRowsAreSkipped(w: World, w': World, base: nat, skips: set<int>)
    requires Reach(w) <= Reach(w') && base + Reach(w') <= |w.history|
    requires w'.history == w.history && Cursor(w) <= Cursor(w')
    requires forall i :: 0 <= i < base + Reach(w) && w.history[i].id > Cursor(w) ==> w.history[i].id in skips
    requires Reach(w') == Reach(w) || (Reach(w') == Reach(w) + 1 && w.history[base + Reach(w)].id <= Cursor(w'))
    ensures forall i :: 0 <= i < base + Reach(w') && w'.history[i].id > Cursor(w') ==> w'.history[i].id in skips
  {
    hide Cursor, Reach;
  }

  /** The message at the position of a live client is the row at that place of the log. */
  lemma LiveReadPlace(w: World, base: nat)
    requires LogInv(w, base) && w.phase.Live?
    ensures base + |w.channel.sent| <= |w.history|
    ensures w.phase.sub.position < |w.channel.sent| ==>
              w.channel.sent[w.phase.sub.position] == w.history[base + w.phase.sub.position]
  {
  }

  /** A live event above the frontier, when all rows before it are handed out or skipped. */
  lemma LiveEventIsNext(history: seq<Event>, p: nat, after: int, f: int, skips: set<int>)
    requires Ordered(history) && p < |history| && after <= f < history[p].id && history[p].id !in skips
    requires forall i :: 0 <= i < p && history[i].id > f ==> history[i].id in skips
    ensures Kept(history, after, history[p].id, skips) == Kept(history, after, f, skips) + [history[p]]
    ensures Kept(history, history[p].id, history[p].id, skips) == []
  {
    KeptOne(history, p, f, skips);
    KeptSplits(history, after, f, history[p].id, skips);
    KeptNone(history, history[p].id, history[p].id, skips);
  }

  /** Of the rows before the next live event, those above the cursor are skipped; it is not. */
  lemma LiveEventIsNew(w: World, after: int, base: nat, skips: set<int>)
    requires LogInv(w, base) && SkipInv(w, after, base, skips) && w.phase.Live?
            && w.phase.sub.position < |w.channel.sent|
    ensures Ordered(w.history) && base + w.phase.sub.position < |w.history|
    ensures var p := base + w.phase.sub.position;
            && (w.history[p].id > Cursor(w) ==> w.history[p].id !in skips)
            && forall i :: 0 <= i < p && w.history[i].id > Cursor(w) ==> w.history[i].id in skips
  {
    hide Cursor;
    var p := base + w.phase.sub.position;
    forall s | s in skips && s > Cursor(w) ensures s != w.history[p].id {
      assert IsRowBehind(w, base, s);
      var i :| 0 <= i < |w.history| && w.history[i].id == s && i < base + Reach(w);
    }
  }

  /** The next live event above the cursor is the next row that is kept. */
  lemma LiveEventIsKept(w: World, after: int, base: nat, skips: set<int>)
    requires LogInv(w, base) && SkipInv(w, after, base, skips) && w.phase.Live? && after <= Cursor(w)
    requires w.phase.sub.position < |w.channel.sent| && w.channel.sent[w.phase.sub.position].id > Cursor(w)
    ensures var e := w.channel.sent[w.phase.sub.position];
            && Kept(w.history, after, e.id, skips) == Kept(w.history, after, Cursor(w), skips) + [e]
            && Kept(w.history, e.id, e.id, skips) == []
  {
    LiveReadPlace(w, base);
    hide LogInv, SkipInv, Kept, Cursor;
    LiveEventIsNew(w, after, base, skips);
    LiveEventIsNext(w.history, base + w.phase.sub.position, after, Cursor(w), skips);
  }

  lemma SameFrontier(w: World, w': World, after: int)
    requires w'.delivered == w.delivered
    ensures Frontier(w', after) == Frontier(w, after)
  {
  }

  lemma NextFrontier(w: World, w': World, after: int, e: Event)
    requires w'.delivered == w.delivered + [e]
    ensures Frontier(w', after) == e.id
  {
  }

  lemma LiveReadKeepsRows(w: World, after: int, base: nat, skips: set<int>)
    requires RecoveryInv(w, after, base, skips) && w.phase.Live? && w.phase.sub.replayIdx >= |w.phase.sub.replay|
    ensures var w' := AfterRead(w, true);
            && w'.delivered == Kept(w'.history, after, Frontier(w', after), skips)
            && Undelivered(w') == Kept(w'.history, Frontier(w', after), Cursor(w'), skips)
  {
    var w', p := AfterRead(w, true), w.phase.sub.position;
    assert Undelivered(w) == [];
    FrontierBounds(w, after);
    LiveReadOutcome(w, true);
    hide AfterRead, Undelivered, DeliveryInv, LogInv, Kept, SkipInv, Cursor, Frontier;
    if w'.delivered == w.delivered {
      SameFrontier(w, w', after);
    } else {
      NextFrontier(w, w', after, w.channel.sent[p]);
      LiveEventIsKept(w, after, base, skips);
    }
  }

  lemma LiveReadKeepsLog(w: World, base: nat)
    requires LogInv(w, base) && w.phase.Live?
    ensures LogInv(AfterRead(w, true), base)
  {
  }

  lemma ReadKeepsRecovery(w: World, after: int, base: nat, skips: set<int>)
    requires RecoveryInv(w, after, base, skips) && w.phase.Live?
    ensures RecoveryInv(AfterRead(w, true), after, base, skips)
  {
    hide AfterRead, DeliveryInv, SkipInv, LogInv, Kept, Undelivered, Frontier, Cursor;
    if w.phase.sub.replayIdx < |w.phase.sub.replay| {
      ReplayReadKeepsRecovery(w, after, base, skips);
    } else {
      LiveReadKeepsDelivery(w, after, true);
      LiveReadKeepsLog(w, base);
      LiveReadKeepsSkips(w, after, base, skips);
      LiveReadKeepsRows(w, after, base, skips);
    }
  }

  lemma {:induction false} StepKeepsRecovery(w: World, step: Step, after: int, base: nat, skips: set<int>)
    requires RecoveryInv(w, after, base, skips) && Enabled(w, step) && Tame(w, step, base)
    ensures step.Query? ==>
              w.phase.Registered? && RecoveryInv(Apply(w, step), after, base, SkipsAfterQuery(w, base, skips))
    ensures !step.Query? ==> RecoveryInv(Apply(w, step), after, base, skips)
  {
    hide RecoveryInv, SkipsAfterQuery, AfterRead;
    match step
    case Append(e) => AppendKeepsRecovery(w, e, after, base, skips);
    case Publish(e) => PublishKeepsRecovery(w, e, after, base, skips);
    case Query => QueryKeepsRecovery(w, after, base, skips);
    case Read(_) => ReadKeepsRecovery(w, after, base, skips);
    case _ => QuietKeepsRecovery(w, step, after, base, skips);
  }

  lemma InitialRecovery(w: World, after: int, base: nat)
    requires StartsOnLog(w, after, base)
    ensures RecoveryInv(w, after, base, {})
  {
    assert w.delivered + Undelivered(w) == [];
    KeptNone(w.history, after, after, {});
  }

  lemma {:induction false} RecoveryInvHolds(w: World, steps: seq<Step>, after: int, base: nat)
    requires StartsOnLog(w, after, base) && Legal(w, steps) && TameRun(w, steps, base)
    ensures RecoveryInv(Run(w, steps), after, base, Skips(w, steps, base))
    decreases |steps|
  {
    hide RecoveryInv, Apply, Enabled, Tame, SkipsAfterQuery, StartsOnLog;
    if steps == [] {
      InitialRecovery(w, after, base);
    } else {
      RecoveryInvHolds(w, steps[..|steps| - 1], after, base);
      var prefix := steps[..|steps| - 1];
      StepKeepsRecovery(Run(w, prefix), steps[|steps| - 1], after, base, Skips(w, prefix, base));
    }
  }

  /** Over any run with any number of lags, each answered by a subscription from the last seen id, and
    * with any pruning, the client has been handed exactly the rows of the log from its first cursor
    * to the last id handed out, except the skipped ones: each once, in order. */
  lemma {:induction false} DeliveredIsLogWithoutSkips(w: World, steps: seq<Step>, after: int, base: nat)
    requires StartsOnLog(w, after, base) && Legal(w, steps) && TameRun(w, steps, base)
    ensures var end := Run(w, steps);
            end.delivered == Kept(end.history, after, Frontier(end, after), Skips(w, steps, base))
  {
    RecoveryInvHolds(w, steps, after, base);
  }

  /** Subscribed, replay drained, everything appended also published and read. */
  ghost predicate CaughtUp(w: World, base: nat) {
    w.phase.Live? && Undelivered(w) == [] && base + w.phase.sub.position == |w.history|
  }

  /** Every row above what a caught-up client was handed is skipped. */
  lemma CaughtUpState(w: World, after: int, base: nat, skips: set<int>)
    requires RecoveryInv(w, after, base, skips) && CaughtUp(w, base)
    ensures Ordered(w.history) && after <= Frontier(w, after)
    ensures forall e :: e in w.history ==> e.id <= I64_MAX
    ensures forall e :: e in w.history && e.id > Frontier(w, after) ==> e.id in skips
    ensures forall s :: s in skips ==> exists e :: e in w.history && after < e.id <= I64_MAX && e.id == s
  {
    FrontierBounds(w, after);
    hide DeliveryInv, Kept, IsChannelOf, Undelivered, Cursor;
    forall e | e in w.history && e.id > Frontier(w, after) ensures e.id in skips {
      var i :| 0 <= i < |w.history| && w.history[i] == e;
    }
    forall s | s in skips ensures exists e :: e in w.history && after < e.id <= I64_MAX && e.id == s {
      assert IsRowBehind(w, base, s);
      var i :| 0 <= i < |w.history| && w.history[i].id == s;
      assert w.history[i] in w.history;
    }
  }

  /** Rows above a frontier that are all skipped do not matter. */
  lemma KeptBeyondFrontier(history: seq<Event>, after: int, f: int, skips: set<int>)
    requires Ordered(history) && after <= f && forall e :: e in history ==> e.id <= I64_MAX
    requires forall e :: e in history && e.id > f ==> e.id in skips
    ensures Kept(history, after, f, skips) == Kept(history, after, if after < I64_MAX then I64_MAX else after, skips)
  {
    var top := if after < I64_MAX then I64_MAX else after;
    if f <= top {
      KeptSplits(history, after, f, top, skips);
      KeptNone(history, f, top, skips);
    } else {
      KeptSplits(history, after, top, f, skips);
      KeptNone(history, top, f, skips);
    }
  }

  lemma MissesExactly(history: seq<Event>, delivered: seq<Event>, after: int, f: int, skips: set<int>)
    requires Ordered(history) && after <= f && after <= I64_MAX && forall e :: e in history ==> e.id <= I64_MAX
    requires forall e :: e in history && e.id > f ==> e.id in skips
    requires forall s :: s in skips ==> exists e :: e in history && after < e.id <= I64_MAX && e.id == s
    requires delivered == Kept(history, after, f, skips)
    ensures delivered == Kept(history, after, I64_MAX, skips)
    ensures delivered == Kept(history, after, I64_MAX, {}) <==> skips == {}
  {
    hide Kept, Ordered;
    KeptBeyondFrontier(history, after, f, skips);
    NothingSkippedIff(history, after, I64_MAX, skips);
    if exists s :: s in skips {
      var s :| s in skips;
      assert exists e :: e in history && after < e.id <= I64_MAX && e.id in skips;
    } else {
      assert skips == {};
    }
  }

  /** A client that has caught up has been handed the whole log above its first cursor except the
    * skipped ids, and it has missed nothing exactly if nothing was skipped. */
  lemma {:induction false} CaughtUpMissesExactlyTheSkips(w: World, steps: seq<Step>, after: int, base: nat)
    requires StartsOnLog(w, after, base) && Legal(w, steps) && TameRun(w, steps, base)
    requires CaughtUp(Run(w, steps), base) && after <= I64_MAX
    ensures var end := Run(w, steps);
            && end.delivered == Kept(end.history, after, I64_MAX, Skips(w, steps, base))
            && (end.delivered == Kept(end.history, after, I64_MAX, {}) <==> Skips(w, steps, base) == {})
  {
    RecoveryInvHolds(w, steps, after, base);
    var end, skips := Run(w, steps), Skips(w, steps, base);
    CaughtUpState(end, after, base, skips);
    DeliveredIsLogWithoutSkips(w, steps, after, base);
    hide *;
    MissesExactly(end.history, end.delivered, after, Frontier(end, after), skips);
  }
}
