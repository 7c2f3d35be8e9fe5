/** Exactly when the replay limit of a subscription loses rows for good (src/events/publisher.rs). */
module ReplayLimit {
  import opened Events
  import opened EventStore
  import opened Publisher
  import opened Handoff
  import opened KeptRows
  import opened LagRecovery

  // ----- When the replay limit loses rows -----

  /** Pruning has left every row above the cursor in the table. */
  ghost predicate TableComplete(w: World)
    requires w.phase.Registered?
  {
    forall e :: e in w.history && e.id > w.phase.cursor ==> e in w.rows
  }

  /** The rows above the cursor that had been published when the receiver was registered. */
  function PublishedBacklog(w: World, base: nat): seq<Event>
    requires w.phase.Registered? && base + w.phase.position <= |w.history|
  {
    Kept(w.history[..base + w.phase.position], w.phase.cursor, I64_MAX, {})
  }

  ghost predicate IsShort(w: World, base: nat)
    requires w.phase.Registered?
  {
    base + w.phase.position <= |w.history| && |PublishedBacklog(w, base)| > w.limit
  }

  lemma CompleteBacklog(w: World, base: nat)
    requires w.phase.Registered? && TableComplete(w) && IsLog(w.history)
    requires Ordered(w.rows) && (forall e :: e in w.rows ==> e in w.history) && base + w.phase.position <= |w.history|
    ensures Backlog(w.rows, w.phase.cursor) == Kept(w.history, w.phase.cursor, I64_MAX, {})
         == PublishedBacklog(w, base) + Kept(w.history[base + w.phase.position..], w.phase.cursor, I64_MAX, {})
  {
    var c, n := w.phase.cursor, base + w.phase.position;
    BacklogMembers(w.rows, c);
    KeptIs(w.history, Backlog(w.rows, c), c, I64_MAX, {});
    assert w.history == w.history[..n] + w.history[n..];
    KeptAppend(w.history[..n], w.history[n..], c, I64_MAX, {});
  }

  /** What is replayed of a complete backlog that starts with the published part. */
  lemma ReplayOfBacklog(w: World, base: nat)
    requires w.phase.Registered? && TableComplete(w) && IsLog(w.history)
    requires Ordered(w.rows) && (forall e :: e in w.rows ==> e in w.history) && base + w.phase.position <= |w.history|
    ensures var all := Backlog(w.rows, w.phase.cursor);
            PublishedBacklog(w, base) <= all && Ordered(all) && Replay(w) == FirstRows(all, w.limit)
    ensures forall e :: e in w.history && w.phase.cursor < e.id <= ReplayEnd(w) ==> e in Replay(w)
  {
    var all := Backlog(w.rows, w.phase.cursor);
    CompleteBacklog(w, base);
    ReplayRows(w);
    BacklogMembers(w.rows, w.phase.cursor);
    assert Replay(w) == FirstRows(all, w.limit);
    hide Kept, Backlog, MaxId, FirstRows, ReplayEnd, Ordered;
    RowsToReplayEnd(w, all);
  }

  lemma PublishedRows(w: World, base: nat)
    requires w.phase.Registered? && IsLog(w.history) && base + w.phase.position <= |w.history|
    ensures forall i :: 0 <= i < base + w.phase.position && w.history[i].id > w.phase.cursor ==>
              w.history[i] in PublishedBacklog(w, base)
    ensures forall e :: e in PublishedBacklog(w, base) ==>
              e.id > w.phase.cursor && exists i :: 0 <= i < base + w.phase.position && w.history[i] == e
  {
    var published := w.history[..base + w.phase.position];
    KeptMembers(published, w.phase.cursor, I64_MAX, {});
    hide Kept, Ordered;
    forall i | 0 <= i < base + w.phase.position && w.history[i].id > w.phase.cursor
      ensures w.history[i] in PublishedBacklog(w, base)
    {
      assert published[i] == w.history[i];
    }
  }

  /** The exact condition, which can be told before the query: a subscription skips nothing if and only
    * if the rows above its cursor that were published before its registration fit the limit. */
  lemma {:induction false} SkipsNothingIffNotShort(w: World, base: nat)
    requires w.phase.Registered? && TableComplete(w) && IsLog(w.history)
    requires Ordered(w.rows) && (forall e :: e in w.rows ==> e in w.history) && base + w.phase.position <= |w.history|
    ensures SkippedBy(w, base) == {} <==> |PublishedBacklog(w, base)| <= w.limit
    ensures forall s :: s in SkippedBy(w, base) ==> s > ReplayEnd(w)
  {
    ReplayOfBacklog(w, base);
    PublishedRows(w, base);
    hide Backlog, PublishedBacklog, Replay, ReplayEnd, Ordered, TableComplete, IsLog;
    var published, all := PublishedBacklog(w, base), Backlog(w.rows, w.phase.cursor);
    if |published| <= w.limit {
      PrefixIsReplayed(published, all, w.limit);
      assert forall i :: 0 <= i < |w.history| ==> !IsSkipped(w, base, i);
    } else {
      var e := published[w.limit];
      BeyondLimit(all, w.limit);
      assert e in published && e == all[w.limit];
      var i :| 0 <= i < base + w.phase.position && w.history[i] == e;
      assert IsSkipped(w, base, i);
      assert e.id in SkippedBy(w, base);
    }
  }

  lemma BeyondLimit(all: seq<Event>, limit: nat)
    requires Ordered(all) && limit < |all|
    ensures all[limit] !in FirstRows(all, limit)
  {
  }

  /** Every row of the log between the cursor and the end of the replay is replayed. */
  lemma RowsToReplayEnd(w: World, all: seq<Event>)
    requires w.phase.Registered? && Ordered(all) && Replay(w) == FirstRows(all, w.limit)
    requires ReplayEnd(w) == LastId(Replay(w), w.phase.cursor)
    requires forall e :: e in w.history && w.phase.cursor < e.id <= I64_MAX <==> e in all
    requires forall e :: e in w.history ==> e.id <= I64_MAX
    ensures forall e :: e in w.history && w.phase.cursor < e.id <= ReplayEnd(w) ==> e in Replay(w)
  {
    hide Replay, ReplayEnd;
    forall e | e in w.history && w.phase.cursor < e.id <= ReplayEnd(w) ensures e in Replay(w) {
      var i :| 0 <= i < |all| && all[i] == e;
      assert |Replay(w)| > 0 && all[|Replay(w)| - 1].id == ReplayEnd(w);
      assert Replay(w)[i] == e;
    }
  }

  lemma PrefixIsReplayed(published: seq<Event>, all: seq<Event>, limit: nat)
    requires published <= all && |published| <= limit
    ensures forall e :: e in published ==> e in FirstRows(all, limit)
  {
    forall e | e in published ensures e in FirstRows(all, limit) {
      var i :| 0 <= i < |published| && published[i] == e;
      assert FirstRows(all, limit)[i] == e;
    }
  }

  lemma RowsAreOfLog(w: World, after: int, base: nat, skips: set<int>)
    requires RecoveryInv(w, after, base, skips) && w.phase.Registered?
    ensures IsLog(w.history) && Ordered(w.rows) && (forall e :: e in w.rows ==> e in w.history)
    ensures base + w.phase.position <= |w.history|
  {
  }

  /** At every query of the run the table holds all rows above the cursor. */
  ghost predicate TablesComplete(w: World, steps: seq<Step>)
    decreases |steps|
  {
    steps == [] ||
    (TablesComplete(w, steps[..|steps| - 1]) &&
     var now := Run(w, steps[..|steps| - 1]);
     steps[|steps| - 1].Query? && now.phase.Registered? ==> TableComplete(now))
  }

  /** `short`: the last subscription had more published rows to replay than its limit. `lost`: an event
    * was handed out live on such a subscription, so that no later one can make up for it. */
  datatype Loss = Loss(lost: bool, short: bool)

  /** A live event was handed out. */
  ghost predicate HandsOutLive(w: World, step: Step) {
    && step.Read? && w.phase.Live? && w.phase.sub.replayIdx >= |w.phase.sub.replay|
    && AfterRead(w, step.strict).delivered != w.delivered
  }

  ghost function LossStep(w: World, step: Step, base: nat, before: Loss): Loss {
    if step.Query? && w.phase.Registered? then before.(short := IsShort(w, base))
    else if HandsOutLive(w, step) then before.(lost := before.lost || before.short)
    else before
  }

  ghost function LossAfter(w: World, steps: seq<Step>, base: nat): Loss
    decreases |steps|
  {
    if steps == [] then Loss(false, false)
    else
      LossStep(Run(w, steps[..|steps| - 1]), steps[|steps| - 1], base, LossAfter(w, steps[..|steps| - 1], base))
  }

  ghost predicate LossInv(w: World, skips: set<int>, loss: Loss) {
    && (loss.lost <==> exists s :: s in skips && s <= Cursor(w))
    && (w.phase.Live? && !loss.lost ==> (loss.short <==> skips != {}))
  }

  lemma QueryKeepsLoss(w: World, after: int, base: nat, skips: set<int>, loss: Loss)
    requires RecoveryInv(w, after, base, skips) && LossInv(w, skips, loss)
    requires w.phase.Registered? && TableComplete(w)
    ensures LossInv(Apply(w, Query), SkipsAfterQuery(w, base, skips), loss.(short := IsShort(w, base)))
  {
    QueriedState(w, after, base, skips);
    RowsAreOfLog(w, after, base, skips);
    SkipsNothingIffNotShort(w, base);
    assert Cursor(w) == w.phase.cursor;
    hide Apply, RecoveryInv, Cursor, Replay, ReplayEnd, TableComplete, PublishedBacklog, SkippedBy, Undelivered,
        Reach, Ordered, IsLog;
    var w', skips' := Apply(w, Query), SkipsAfterQuery(w, base, skips);
    if loss.lost {
      var s :| s in skips && s <= Cursor(w);
      assert s in skips' && s <= Cursor(w');
    } else {
      assert forall s :: s in skips' ==> s in SkippedBy(w, base);
    }
  }

  lemma LiveReadKeepsLoss(w: World, after: int, base: nat, skips: set<int>, loss: Loss)
    requires RecoveryInv(w, after, base, skips) && LossInv(w, skips, loss) && HandsOutLive(w, Read(true))
    ensures LossInv(AfterRead(w, true), skips, loss.(lost := loss.lost || loss.short))
  {
    var w', p := AfterRead(w, true), w.phase.sub.position;
    LiveReadOutcome(w, true);
    LiveReadPosition(w);
    SkipBounds(w, after, base, skips);
    LiveReadPlace(w, base);
    forall s | s in skips ensures s <= Cursor(w') {
      assert IsRowBehind(w, base, s);
      var i :| 0 <= i < |w.history| && w.history[i].id == s && (i < base + p || s <= Cursor(w));
      assert i < base + p ==> w.history[i].id < w.history[base + p].id;
    }
    hide AfterRead, RecoveryInv, Cursor;
  }

  lemma QuietReadKeepsLoss(w: World, after: int, base: nat, skips: set<int>, loss: Loss)
    requires RecoveryInv(w, after, base, skips) && LossInv(w, skips, loss) && w.phase.Live?
            && !HandsOutLive(w, Read(true))
    ensures LossInv(AfterRead(w, true), skips, loss)
  {
    if w.phase.sub.replayIdx >= |w.phase.sub.replay| {
      LiveReadOutcome(w, true);
    } else {
      ReplayReadKeepsDelivery(w, after, true);
    }
    assert Cursor(AfterRead(w, true)) == Cursor(w);
    hide AfterRead, Cursor;
  }

  lemma OtherStepKeepsLoss(w: World, step: Step, skips: set<int>, loss: Loss)
    requires LossInv(w, skips, loss) && Enabled(w, step) && !step.Query? && !step.Read?
    ensures LossInv(Apply(w, step), skips, loss)
  {
    assert Cursor(Apply(w, step)) == Cursor(w);
    assert Apply(w, step).phase.Live? ==> w.phase.Live?;
    hide Apply, Cursor, Enabled;
  }

  lemma StepKeepsLoss(w: World, step: Step, after: int, base: nat, skips: set<int>, loss: Loss)
    requires RecoveryInv(w, after, base, skips) && LossInv(w, skips, loss) && Enabled(w, step) && Tame(w, step, base)
    requires step.Query? && w.phase.Registered? ==> TableComplete(w)
    ensures step.Query? ==>
              && w.phase.Registered?
              && LossInv(Apply(w, step), SkipsAfterQuery(w, base, skips), LossStep(w, step, base, loss))
    ensures !step.Query? ==> LossInv(Apply(w, step), skips, LossStep(w, step, base, loss))
  {
    hide RecoveryInv, LossInv, SkipsAfterQuery, AfterRead, TableComplete, IsShort;
    match step
    case Query => QueryKeepsLoss(w, after, base, skips, loss);
    case Read(_) =>
      if HandsOutLive(w, step) {
        LiveReadKeepsLoss(w, after, base, skips, loss);
      } else {
        QuietReadKeepsLoss(w, after, base, skips, loss);
      }
    case _ => OtherStepKeepsLoss(w, step, skips, loss);
  }

  lemma {:induction false} LossInvHolds(w: World, steps: seq<Step>, after: int, base: nat)
    requires StartsOnLog(w, after, base) && Legal(w, steps) && TameRun(w, steps, base) && TablesComplete(w, steps)
    ensures LossInv(Run(w, steps), Skips(w, steps, base), LossAfter(w, steps, base))
    decreases |steps|
  {
    if steps == [] {
    } else {
      hide RecoveryInv, LossInv, Apply, Enabled, Tame, SkipsAfterQuery, StartsOnLog, TableComplete, LossStep;
      var prefix := steps[..|steps| - 1];
      RecoveryInvHolds(w, prefix, after, base);
      LossInvHolds(w, prefix, after, base);
      var skips, loss := Skips(w, prefix, base), LossAfter(w, prefix, base);
      StepKeepsLoss(Run(w, prefix), steps[|steps| - 1], after, base, skips, loss);
    }
  }

  /** A client that has caught up has been handed the whole log above its first cursor if and only if
    * its current subscription was not short and no earlier short one handed out a live event. */
  lemma {:induction false} CaughtUpMissesNothingIff(w: World, steps: seq<Step>, after: int, base: nat)
    requires StartsOnLog(w, after, base) && Legal(w, steps) && TameRun(w, steps, base) && TablesComplete(w, steps)
    requires CaughtUp(Run(w, steps), base) && after <= I64_MAX
    ensures var end, loss := Run(w, steps), LossAfter(w, steps, base);
            end.delivered == Kept(end.history, after, I64_MAX, {}) <==> !loss.lost && !loss.short
  {
    CaughtUpMissesExactlyTheSkips(w, steps, after, base);
    LossInvHolds(w, steps, after, base);
    assert Run(w, steps).phase.Live?;
    hide Kept, Run, Skips, LossAfter, Cursor;
  }

  /** Every subscription of the run is made on a complete table and is not short. */
  ghost predicate ReplaysCover(w: World, steps: seq<Step>, base: nat)
    decreases |steps|
  {
    steps == [] ||
    (ReplaysCover(w, steps[..|steps| - 1], base) &&
     var now := Run(w, steps[..|steps| - 1]);
     steps[|steps| - 1].Query? && now.phase.Registered? ==> TableComplete(now) && !IsShort(now, base))
  }

  lemma {:induction false} CoveredRunsSkipNothing(w: World, steps: seq<Step>, after: int, base: nat)
    requires StartsOnLog(w, after, base) && Legal(w, steps) && TameRun(w, steps, base) && ReplaysCover(w, steps, base)
    ensures Skips(w, steps, base) == {}
    decreases |steps|
  {
    if steps == [] {
    } else {
      var prefix := steps[..|steps| - 1];
      CoveredRunsSkipNothing(w, prefix, after, base);
      RecoveryInvHolds(w, prefix, after, base);
      var now := Run(w, prefix);
      hide RecoveryInv, Run, Enabled, Tame, StartsOnLog, TableComplete, PublishedBacklog;
      if steps[|steps| - 1].Query? && now.phase.Registered? {
        RowsAreOfLog(now, after, base, {});
        SkipsNothingIffNotShort(now, base);
      }
    }
  }

  /** No gap in the handoff: when no replay is short, a client handed ids up to n has been handed exactly
    * the rows of the log above its first cursor up to n, also those appended or published between
    * registration and query. */
  lemma {:induction false} NoGapInHandoff(w: World, steps: seq<Step>, after: int, base: nat)
    requires StartsOnLog(w, after, base) && Legal(w, steps) && TameRun(w, steps, base) && ReplaysCover(w, steps, base)
    requires after <= I64_MAX
    ensures var end := Run(w, steps);
            && end.delivered == Kept(end.history, after, Frontier(end, after), {})
            && (CaughtUp(end, base) ==> end.delivered == Kept(end.history, after, I64_MAX, {}))
  {
    CoveredRunsSkipNothing(w, steps, after, base);
    DeliveredIsLogWithoutSkips(w, steps, after, base);
    if CaughtUp(Run(w, steps), base) {
      CaughtUpMissesExactlyTheSkips(w, steps, after, base);
    }
  }

  // ----- A run that loses a row to the replay limit -----

  ghost predicate Reaches(w: World, steps: seq<Step>, end: World) {
    Legal(w, steps) && TameRun(w, steps, 0) && Run(w, steps) == end
  }

  lemma ReachesNext(w: World, steps: seq<Step>, now: World, step: Step)
    requires Reaches(w, steps, now) && Enabled(now, step) && Tame(now, step, 0)
    ensures Reaches(w, steps + [step], Apply(now, step))
  {
    hide Enabled, Apply, Tame;
    assert (steps + [step])[..|steps|] == steps;
  }

  /** All rows published before the client comes. */
  ghost function Published(rows: seq<Event>): World {
    World(rows, rows, Channel(rows, BROADCAST_CAPACITY, true), DEFAULT_QUERY_LIMIT, Idle(0), [])
  }

  /** The client has read `k` rows of its replay. */
  ghost function Reading(rows: seq<Event>, k: nat): World
    requires |rows| == DEFAULT_QUERY_LIMIT + 1 && k <= DEFAULT_QUERY_LIMIT
  {
    var sub := Subscription(rows[..DEFAULT_QUERY_LIMIT], k, rows[DEFAULT_QUERY_LIMIT - 1].id, |rows|);
    Published(rows).(phase := Live(sub), delivered := rows[..k])
  }

  lemma SubscriptionIsMade(rows: seq<Event>)
    requires IsLog(rows) && |rows| == DEFAULT_QUERY_LIMIT + 1
    ensures Apply(Apply(Published(rows), Register), Query) == Reading(rows, 0)
  {
    FirstReplay(rows);
    hide Backlog, MaxId, IsLog;
  }

  lemma FirstReplay(rows: seq<Event>)
    requires IsLog(rows) && |rows| == DEFAULT_QUERY_LIMIT + 1
    ensures Backlog(rows, 0) == rows && MaxId(rows[..DEFAULT_QUERY_LIMIT], 0) == rows[DEFAULT_QUERY_LIMIT - 1].id
  {
    hide Backlog, MaxId;
    BacklogMembers(rows, 0);
    SameRows(Backlog(rows, 0), rows);
    var replay := rows[..DEFAULT_QUERY_LIMIT];
    assert forall e :: e in replay ==> e in rows;
    assert Ordered(replay);
    hide Ordered, IsLog;
    MaxIdIsLast(replay, 0);
  }

  lemma NextRead(rows: seq<Event>, k: nat)
    requires IsLog(rows) && |rows| == DEFAULT_QUERY_LIMIT + 1 && k < DEFAULT_QUERY_LIMIT
    ensures Enabled(Reading(rows, k), Read(true)) && Tame(Reading(rows, k), Read(true), 0)
    ensures Apply(Reading(rows, k), Read(true)) == Reading(rows, k + 1)
  {
    assert rows[..k] + [rows[k]] == rows[..k + 1];
    assert rows[..DEFAULT_QUERY_LIMIT][k] == rows[k];
    assert rows[k].id <= rows[DEFAULT_QUERY_LIMIT - 1].id;
  }

  ghost function Reads(k: nat): seq<Step> {
    seq(k, _ => Read(true))
  }

  lemma {:induction false} ReadsReach(rows: seq<Event>, k: nat)
    requires IsLog(rows) && |rows| == DEFAULT_QUERY_LIMIT + 1 && k <= DEFAULT_QUERY_LIMIT
    ensures Reaches(Published(rows), [Register, Query] + Reads(k), Reading(rows, k))
  {
    if k == 0 {
      SubscriptionReached(rows);
    } else {
      hide Reading, Published, Reaches, IsLog, Apply, Enabled, Tame, Reads;
      var w, steps, now := Published(rows), [Register, Query] + Reads(k - 1), Reading(rows, k - 1);
      ReadsReach(rows, k - 1);
      NextRead(rows, k - 1);
      ReachesNext(w, steps, now, Read(true));
      OneMoreRead(k - 1);
    }
  }

  lemma OneMoreRead(k: nat)
    ensures [Register, Query] + Reads(k) + [Read(true)] == [Register, Query] + Reads(k + 1)
  {
    assert Reads(k) + [Read(true)] == Reads(k + 1);
  }

  lemma SubscriptionReached(rows: seq<Event>)
    requires IsLog(rows) && |rows| == DEFAULT_QUERY_LIMIT + 1
    ensures Reaches(Published(rows), [Register, Query] + Reads(0), Reading(rows, 0))
  {
    var w := Published(rows);
    SubscriptionIsMade(rows);
    assert Reaches(w, [], w) && Enabled(Apply(w, Register), Query);
    assert [] + [Register] == [Register] && [Register] + [Query] == [Register, Query] + Reads(0);
    hide Reaches, Apply, Reading;
    ReachesNext(w, [], w, Register);
    ReachesNext(w, [Register], Apply(w, Register), Query);
  }

  /** What follows: one more row is appended, published and read. */
  ghost function LimitScript(e: Event): seq<Step> {
    [Register, Query] + Reads(DEFAULT_QUERY_LIMIT) + [Append(e)] + [Publish(e)] + [Read(true)]
  }

  lemma LastReads(rows: seq<Event>, e: Event)
    requires IsLog(rows + [e]) && |rows| == DEFAULT_QUERY_LIMIT + 1
    ensures var now := Reading(rows, DEFAULT_QUERY_LIMIT);
            var end := Apply(Apply(Apply(now, Append(e)), Publish(e)), Read(true));
            && Enabled(now, Append(e)) && Enabled(Apply(now, Append(e)), Publish(e))
                && Tame(Apply(now, Append(e)), Publish(e), 0)
            && Enabled(Apply(Apply(now, Append(e)), Publish(e)), Read(true))
            && end.delivered == rows[..DEFAULT_QUERY_LIMIT] + [e] && end.history == rows + [e] && CaughtUp(end, 0)
  {
    var all := rows + [e];
    assert all[|rows|] == e && e in all;
    forall x | x in rows ensures x.id < e.id {
      var i :| 0 <= i < |rows| && rows[i] == x;
      assert all[i] == x;
    }
    assert rows[DEFAULT_QUERY_LIMIT - 1] in rows;
  }

  /** The row behind the limit is lost without any lag, crossing or pruning: a thousand and one rows are
    * appended and published before the client comes; it reads everything, also a row that comes
    * later, and is never handed row 1001. */
  lemma ReplayLimitLosesARow(rows: seq<Event>, e: Event)
    requires |rows| == 1001 && IsLog(rows + [e])
    ensures StartsOnLog(Published(rows), 0, 0) && Legal(Published(rows), LimitScript(e))
            && TameRun(Published(rows), LimitScript(e), 0)
    ensures var end := Run(Published(rows), LimitScript(e));
            && CaughtUp(end, 0) && end.history == rows + [e]
            && end.delivered == rows[..1000] + [e]
            && rows[1000] !in end.delivered
  {
    LogBeforeLast(rows, e);
    hide Reading, Published, Enabled, Apply, Tame, CaughtUp, StartsOnLog, Reads, IsLog;
    ReadsReach(rows, DEFAULT_QUERY_LIMIT);
    LastReads(rows, e);
    var w, now := Published(rows), Reading(rows, DEFAULT_QUERY_LIMIT);
    var steps := [Register, Query] + Reads(DEFAULT_QUERY_LIMIT);
    AlwaysTame(Apply(Apply(now, Append(e)), Publish(e)), now, e);
    ReachesNext(w, steps, now, Append(e));
    ReachesNext(w, steps + [Append(e)], Apply(now, Append(e)), Publish(e));
    ReachesNext(w, steps + [Append(e)] + [Publish(e)], Apply(Apply(now, Append(e)), Publish(e)), Read(true));
  }

  lemma LogBeforeLast(rows: seq<Event>, e: Event)
    requires IsLog(rows + [e]) && |rows| == DEFAULT_QUERY_LIMIT + 1
    ensures IsLog(rows) && StartsOnLog(Published(rows), 0, 0)
    ensures rows[DEFAULT_QUERY_LIMIT] !in rows[..DEFAULT_QUERY_LIMIT] + [e]
  {
    var all := rows + [e];
    assert forall i :: 0 <= i < |rows| ==> all[i] == rows[i];
    assert forall x :: x in rows ==> x in all;
    assert rows[0..|rows|] == rows && all[|rows|] == e;
  }

  lemma AlwaysTame(w: World, now: World, e: Event)
    ensures Tame(w, Read(true), 0) && Tame(now, Append(e), 0)
  {
  }
}
