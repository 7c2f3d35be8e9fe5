/** What a subscription hands out live when publishes happen in any order, and exactly which order loses
  * events (src/events/publisher.rs). */
module PublishOrder {
  import opened Sequences
  import opened Events
  import opened EventStore
  import opened Publisher
  import opened Handoff
  import opened KeptRows
  import opened LagRecovery
  import opened ReplayLimit

  // ----- Running maxima -----

  /** The events whose id exceeds the floor and every id before it. */
  function Records(es: seq<Event>, floor: int): seq<Event>
    decreases |es|
  {
    if es == [] then []
    else
      var before, last := Records(es[..|es| - 1], floor), es[|es| - 1];
      before + (if last.id > LastId(before, floor) then [last] else [])
  }

  /** A higher id was published earlier. */
  ghost predicate Overtaken(es: seq<Event>, e: Event) {
    exists i, j :: 0 <= i < j < |es| && es[j] == e && es[i].id > e.id
  }

  /** The ids above the floor are in increasing order. */
  ghost predicate InOrder(es: seq<Event>, floor: int) {
    forall i, j :: 0 <= i < j < |es| && es[i].id > floor && es[j].id > floor ==> es[i].id < es[j].id
  }

  ghost predicate DistinctIds(es: seq<Event>) {
    forall i, j :: 0 <= i < j < |es| ==> es[i].id != es[j].id
  }

  lemma {:induction false} RecordsReachMax(es: seq<Event>, floor: int)
    ensures floor <= LastId(Records(es, floor), floor)
    ensures forall e :: e in es ==> e.id <= LastId(Records(es, floor), floor)
    ensures LastId(Records(es, floor), floor) > floor ==>
              exists e :: e in es && e.id == LastId(Records(es, floor), floor)
    decreases |es|
  {
    if es == [] {
    } else {
      var front, last := es[..|es| - 1], es[|es| - 1];
      RecordsReachMax(front, floor);
      assert es == front + [last];
      if LastId(Records(front, floor), floor) > floor {
        var e :| e in front && e.id == LastId(Records(front, floor), floor);
        assert e in es;
      }
      assert last in es;
    }
  }

  /** Between different ids, the records are the events above the floor that were not overtaken. */
  lemma {:induction false} RecordsAreNotOvertaken(es: seq<Event>, floor: int, e: Event)
    requires DistinctIds(es)
    ensures e in Records(es, floor) <==> e in es && e.id > floor && !Overtaken(es, e)
    decreases |es|
  {
    if es == [] {
    } else {
      var front, last := es[..|es| - 1], es[|es| - 1];
      assert es == front + [last];
      RecordsAreNotOvertaken(front, floor, e);
      RecordsReachMax(front, floor);
      OvertakenAtEnd(front, last, e);
      if e == last {
        LastIsRecordOrOvertaken(front, last, floor);
      }
    }
  }

  lemma LastHasNewId(front: seq<Event>, last: Event)
    requires DistinctIds(front + [last])
    ensures forall x :: x in front ==> x.id != last.id
  {
    var es := front + [last];
    forall x | x in front ensures x.id != last.id {
      var i :| 0 <= i < |front| && front[i] == x;
      assert es[i] == x && es[|front|] == last;
    }
  }

  lemma OvertakenAtEnd(front: seq<Event>, last: Event, e: Event)
    requires DistinctIds(front + [last])
    ensures e != last && e in front ==> (Overtaken(front + [last], e) <==> Overtaken(front, e))
    ensures last !in front
    ensures Overtaken(front + [last], last) <==> exists x :: x in front && x.id > last.id
  {
    var es := front + [last];
    assert es[|front|] == last;
    LastHasNewId(front, last);
    if e in front && Overtaken(front, e) {
      var i, j :| 0 <= i < j < |front| && front[j] == e && front[i].id > e.id;
      assert es[j] == e && es[i].id > e.id;
    }
    if e != last && Overtaken(es, e) {
      var i, j :| 0 <= i < j < |es| && es[j] == e && es[i].id > e.id;
      assert front[j] == e && front[i].id > e.id;
    }
    if Overtaken(es, last) {
      var i, j :| 0 <= i < j < |es| && es[j] == last && es[i].id > last.id;
      assert front[i] in front;
    }
    if exists x :: x in front && x.id > last.id {
      var x :| x in front && x.id > last.id;
      var i :| 0 <= i < |front| && front[i] == x;
      assert es[i].id > last.id && i < |front|;
    }
  }

  lemma LastIsRecordOrOvertaken(front: seq<Event>, last: Event, floor: int)
    requires DistinctIds(front + [last])
    ensures last.id > floor ==> (last.id > LastId(Records(front, floor), floor) <==> !Overtaken(front + [last], last))
    ensures last !in Records(front, floor) || last in front
  {
    RecordsReachMax(front, floor);
    OvertakenAtEnd(front, last, last);
    LastHasNewId(front, last);
    RecordsAreEvents(front, floor);
  }

  lemma {:induction false} RecordsAreEvents(es: seq<Event>, floor: int)
    ensures forall e :: e in Records(es, floor) ==> e in es && e.id > floor
    decreases |es|
  {
    if es == [] {
    } else {
      RecordsAreEvents(es[..|es| - 1], floor);
      RecordsReachMax(es[..|es| - 1], floor);
    }
  }

  /** Nothing above the floor is overtaken if and only if it is published in order. */
  lemma InOrderIffNoneOvertaken(es: seq<Event>, floor: int)
    requires DistinctIds(es)
    ensures InOrder(es, floor) <==> forall e :: e in es && e.id > floor ==> !Overtaken(es, e)
  {
    if InOrder(es, floor) {
      forall e | e in es && e.id > floor ensures !Overtaken(es, e) {
      }
    } else {
      var i, j :| 0 <= i < j < |es| && es[i].id > floor && es[j].id > floor && es[i].id >= es[j].id;
      assert es[j] in es && Overtaken(es, es[j]);
    }
  }

  // ----- The current subscription -----

  /** How the current subscription was made: what had been handed out, its cursor and position, its
    * replay, and whether that reaches all rows published before the registration. */
  datatype Origin = NoOrigin | Origin(before: seq<Event>, cursor: int, position: nat, replay: seq<Event>, covers: bool)

  /** The rows from the cursor to the last one published before the registration fit the limit. */
  ghost predicate Covers(w: World)
    requires w.phase.Registered? && w.phase.position <= |w.channel.sent|
  {
    |Kept(w.history, w.phase.cursor, MaxId(w.channel.sent[..w.phase.position], w.phase.cursor), {})| <= w.limit
  }

  ghost function OriginStep(w: World, step: Step, before: Origin): Origin {
    if step.Query? && w.phase.Registered? && w.phase.position <= |w.channel.sent|
    then Origin(w.delivered, w.phase.cursor, w.phase.position, Replay(w), Covers(w))
    else before
  }

  ghost function Current(w: World, steps: seq<Step>): Origin
    decreases |steps|
  {
    if steps == [] then NoOrigin
    else OriginStep(Run(w, steps[..|steps| - 1]), steps[|steps| - 1], Current(w, steps[..|steps| - 1]))
  }

  /** Where its replay ends. */
  function Floor(o: Origin): int
    requires o.Origin?
  {
    LastId(o.replay, o.cursor)
  }

  ghost predicate StrictReads(steps: seq<Step>) {
    forall i :: 0 <= i < |steps| && steps[i].Read? ==> steps[i].strict
  }

  ghost predicate RecordsInv(w: World, o: Origin) {
    && Reach(w) <= |w.channel.sent|
    && (w.phase.Live? ==>
          && o.Origin? && o.position <= w.phase.sub.position
          && HandedOut(w, o, w.phase.sub.position)
          && (w.phase.sub.replayIdx < |w.phase.sub.replay| ==> w.phase.sub.position == o.position))
  }

  /** Up to `position` of the channel. */
  ghost predicate HandedOut(w: World, o: Origin, position: nat)
    requires o.Origin? && o.position <= position <= |w.channel.sent|
  {
    var live := Records(w.channel.sent[o.position..position], Floor(o));
    w.delivered + Undelivered(w) == o.before + o.replay + live && Cursor(w) == LastId(live, Floor(o))
  }

  lemma QueryStartsRecords(w: World, after: int, o: Origin)
    requires DeliveryInv(w, after) && RecordsInv(w, o) && w.phase.Registered?
    ensures RecordsInv(Apply(w, Query), OriginStep(w, Query, o))
  {
    var w', o' := Apply(w, Query), OriginStep(w, Query, o);
    ReplayRows(w);
    QueryOutcome(w);
    assert w'.phase.sub.position == w.phase.position && w'.channel == w.channel && w'.phase.Live?;
    assert Cursor(w') == Floor(o') && Undelivered(w') == o'.replay && o'.before == w.delivered == w'.delivered;
    assert w.channel.sent[o'.position..o'.position] == [];
    hide Replay, MaxId, Backlog, FirstRows, Covers, Undelivered, Cursor;
    assert w.delivered + o'.replay == o'.before + o'.replay + [];
  }

  lemma ReplayReadKeepsRecords(w: World, after: int, o: Origin)
    requires DeliveryInv(w, after) && RecordsInv(w, o) && w.phase.Live? && w.phase.sub.replayIdx < |w.phase.sub.replay|
    ensures RecordsInv(AfterRead(w, true), o)
  {
    ReplayReadKeepsDelivery(w, after, true);
    ReplayReadOutcome(w);
    assert AfterRead(w, true).phase.sub.position == w.phase.sub.position;
    hide AfterRead, Undelivered, Cursor, DeliveryInv, Records, Floor;
  }

  lemma RecordsOneMore(es: seq<Event>, e: Event, floor: int)
    ensures Records(es + [e], floor)
         == Records(es, floor) + (if e.id > LastId(Records(es, floor), floor) then [e] else [])
  {
    assert (es + [e])[..|es|] == es;
  }

  lemma LiveReadKeepsRecords(w: World, o: Origin)
    requires RecordsInv(w, o) && w.phase.Live? && w.phase.sub.replayIdx >= |w.phase.sub.replay|
    ensures RecordsInv(AfterRead(w, true), o)
  {
    var w', p, sent := AfterRead(w, true), w.phase.sub.position, w.channel.sent;
    assert Undelivered(w) == [];
    LiveReadOutcome(w, true);
    LiveReadPosition(w);
    LiveReadLeavesNoReplay(w);
    if w'.phase.Live? && Reach(w') == p + 1 {
      var read, floor := sent[o.position..p], Floor(o);
      assert sent[o.position..p + 1] == read + [sent[p]];
      RecordsOneMore(read, sent[p], floor);
      hide AfterRead, Undelivered, Cursor, Records, Floor;
      GrowsByOne(w.delivered, o.before + o.replay, Records(read, floor), sent[p]);
    }
  }

  lemma GrowsByOne(delivered: seq<Event>, start: seq<Event>, live: seq<Event>, e: Event)
    requires delivered + [] == start + live
    ensures delivered + [e] + [] == start + (live + [e]) && delivered + [] == start + (live + [])
    ensures live + [] == live
  {
    assert delivered + [] == delivered;
    Regroup(start, live, [e]);
  }

  lemma LiveReadLeavesNoReplay(w: World)
    requires w.phase.Live? && w.phase.sub.replayIdx >= |w.phase.sub.replay|
    ensures AfterRead(w, true).phase.Live? ==> AfterRead(w, true).phase.sub.replay == []
  {
  }

  lemma OtherStepKeepsRecords(w: World, step: Step, o: Origin)
    requires RecordsInv(w, o) && Enabled(w, step) && !step.Query? && !step.Read?
    ensures RecordsInv(Apply(w, step), o)
  {
    var w' := Apply(w, step);
    assert w.channel.sent <= w'.channel.sent && w'.delivered == w.delivered;
    assert Undelivered(w') == Undelivered(w) && Cursor(w') == Cursor(w);
    assert w'.phase.Live? ==> w'.phase == w.phase;
    assert Reach(w') <= |w'.channel.sent|;
    assert w.phase.Live? ==> o.position <= w.phase.sub.position <= |w.channel.sent|;
    hide Apply, Enabled, Undelivered, Cursor, Records, Reach;
    if w'.phase.Live? {
      var p := w.phase.sub.position;
      assert w'.channel.sent[o.position..p] == w.channel.sent[o.position..p];
    }
  }

  lemma StepKeepsRecords(w: World, step: Step, after: int, o: Origin)
    requires DeliveryInv(w, after) && RecordsInv(w, o) && Enabled(w, step) && (step.Read? ==> step.strict)
    ensures RecordsInv(Apply(w, step), OriginStep(w, step, o))
  {
    hide DeliveryInv, RecordsInv, AfterRead;
    match step
    case Query => QueryStartsRecords(w, after, o);
    case Read(_) =>
      if w.phase.sub.replayIdx < |w.phase.sub.replay| {
        ReplayReadKeepsRecords(w, after, o);
      } else {
        LiveReadKeepsRecords(w, o);
      }
    case _ => OtherStepKeepsRecords(w, step, o);
  }

  lemma {:induction false} RecordsInvHolds(w: World, steps: seq<Step>, after: int)
    requires Starts(w, after) && Legal(w, steps) && StrictReads(steps)
    ensures RecordsInv(Run(w, steps), Current(w, steps))
    decreases |steps|
  {
    if steps == [] {
    } else {
      var prefix := steps[..|steps| - 1];
      assert steps[|steps| - 1].Read? ==> steps[|steps| - 1].strict;
      DeliveryInvHolds(w, prefix, after);
      RecordsInvHolds(w, prefix, after);
      hide DeliveryInv, RecordsInv, Apply, Enabled, OriginStep, Starts;
      StepKeepsRecords(Run(w, prefix), steps[|steps| - 1], after, Current(w, prefix));
    }
  }

  /** Whatever is published, in any order, and after any number of lags: what the current subscription
    * has handed out or is about to is its replay followed by the running maxima, above the end of the
    * replay, of the messages it has read. */
  lemma {:induction false} LiveDeliveriesAreRecords(w: World, steps: seq<Step>, after: int)
    requires Starts(w, after) && Legal(w, steps) && StrictReads(steps) && Run(w, steps).phase.Live?
    ensures var end, o := Run(w, steps), Current(w, steps);
            && o.Origin? && o.position <= end.phase.sub.position <= |end.channel.sent|
            && end.delivered + Undelivered(end)
               == o.before + o.replay + Records(end.channel.sent[o.position..end.phase.sub.position], Floor(o))
  {
    RecordsInvHolds(w, steps, after);
  }

  // ----- Which order loses events -----

  /** Each event is published at most once, after it was appended; in any order. */
  ghost predicate PublishesOnce(w: World, steps: seq<Step>)
    decreases |steps|
  {
    steps == [] ||
    (PublishesOnce(w, steps[..|steps| - 1])
     && (steps[|steps| - 1].Publish? ==> IsNewPublish(Run(w, steps[..|steps| - 1]), steps[|steps| - 1].e)))
  }

  ghost predicate IsNewPublish(w: World, e: Event) {
    e in w.history && e !in w.channel.sent
  }

  ghost predicate IsPublished(w: World) {
    IsLog(w.history) && DistinctIds(w.channel.sent) && forall e :: e in w.channel.sent ==> e in w.history
  }

  ghost predicate OriginInv(w: World, o: Origin) {
    o.Origin? ==>
      && o.position <= |w.channel.sent|
      && (forall e :: e in w.history && o.cursor < e.id <= Floor(o) <==> e in o.replay)
      && (o.covers <==> forall e :: e in w.channel.sent[..o.position] ==> e.id <= Floor(o))
  }

  lemma {:induction false} MaxIdFacts(es: seq<Event>, floor: int)
    ensures floor <= MaxId(es, floor) && forall e :: e in es ==> e.id <= MaxId(es, floor)
    ensures MaxId(es, floor) > floor ==> exists e :: e in es && e.id == MaxId(es, floor)
  {
    if es == [] {
    } else {
      MaxIdFacts(es[1..], if es[0].id > floor then es[0].id else floor);
      assert es[0] in es;
    }
  }

  lemma ReplayOfLog(w: World)
    requires w.phase.Registered? && TableComplete(w) && IsLog(w.history)
    requires Ordered(w.rows) && forall e :: e in w.rows ==> e in w.history
    ensures Replay(w) == FirstRows(Kept(w.history, w.phase.cursor, I64_MAX, {}), w.limit)
    ensures ReplayEnd(w) == LastId(Replay(w), w.phase.cursor) >= w.phase.cursor
    ensures forall e :: e in w.history && w.phase.cursor < e.id <= ReplayEnd(w) <==> e in Replay(w)
  {
    var all := Backlog(w.rows, w.phase.cursor);
    BacklogMembers(w.rows, w.phase.cursor);
    assert Replay(w) == FirstRows(all, w.limit);
    ReplayRows(w);
    hide Backlog, MaxId, Replay, ReplayEnd, Kept;
    KeptIs(w.history, all, w.phase.cursor, I64_MAX, {});
    RowsToReplayEnd(w, all);
  }

  /** The replay reaches the row with the highest id published before if the rows up to it fit. */
  lemma CoversIff(w: World)
    requires w.phase.Registered? && TableComplete(w) && IsPublished(w) && w.phase.position <= |w.channel.sent|
    requires Ordered(w.rows) && forall e :: e in w.rows ==> e in w.history
    ensures Covers(w) <==> forall e :: e in w.channel.sent[..w.phase.position] ==> e.id <= ReplayEnd(w)
  {
    var c, early := w.phase.cursor, w.channel.sent[..w.phase.position];
    var top := MaxId(early, c);
    ReplayOfLog(w);
    MaxIdFacts(early, c);
    assert forall e :: e in early ==> e in w.channel.sent;
    hide MaxId, Replay, ReplayEnd, Kept, TableComplete, Ordered;
    if top == c {
      KeptNone(w.history, c, c, {});
    } else {
      var m :| m in early && m.id == top;
      FitsIffReached(w.history, c, m, w.limit);
    }
  }

  lemma FitsIffReached(history: seq<Event>, c: int, m: Event, limit: nat)
    requires IsLog(history) && m in history && m.id > c
    ensures |Kept(history, c, m.id, {})| <= limit <==> m in FirstRows(Kept(history, c, I64_MAX, {}), limit)
  {
    var a, b := Kept(history, c, m.id, {}), Kept(history, m.id, I64_MAX, {});
    KeptSplits(history, c, m.id, I64_MAX, {});
    KeptMembers(history, c, m.id, {});
    KeptMembers(history, c, I64_MAX, {});
    KeptOrdered(history, c, I64_MAX, {});
    hide Kept;
    LastOfRange(a, b, m, limit);
  }

  lemma LastOfRange(a: seq<Event>, b: seq<Event>, m: Event, limit: nat)
    requires Ordered(a + b) && m in a && forall e :: e in a ==> e.id <= m.id
    ensures |a| <= limit <==> m in FirstRows(a + b, limit)
  {
    var i :| 0 <= i < |a| && a[i] == m;
    assert forall k :: 0 <= k < |a| ==> (a + b)[k] == a[k] && a[k] in a;
    assert (a + b)[|a| - 1].id <= m.id == (a + b)[i].id;
    assert i == |a| - 1;
    if |a| <= limit {
      assert FirstRows(a + b, limit)[i] == m;
    } else {
      assert forall k :: 0 <= k < limit ==> (a + b)[k].id < (a + b)[i].id;
    }
  }

  lemma QueryStartsOrigin(w: World, after: int, o: Origin)
    requires DeliveryInv(w, after) && IsPublished(w) && RecordsInv(w, o) && w.phase.Registered? && TableComplete(w)
    ensures OriginInv(Apply(w, Query), OriginStep(w, Query, o))
  {
    QueryLeavesLog(w, after, o);
    hide *;
    ReplayOfLog(w);
    CoversIff(w);
    OriginOfQuery(Apply(w, Query), OriginStep(w, Query, o), Replay(w), ReplayEnd(w));
  }

  lemma QueryLeavesLog(w: World, after: int, o: Origin)
    requires DeliveryInv(w, after) && IsPublished(w) && RecordsInv(w, o) && w.phase.Registered?
    ensures w.phase.position <= |w.channel.sent| && Ordered(w.rows) && IsLog(w.history)
    ensures forall e :: e in w.rows ==> e in w.history
    ensures Apply(w, Query).history == w.history && Apply(w, Query).channel == w.channel
    ensures OriginStep(w, Query, o) == Origin(w.delivered, w.phase.cursor, w.phase.position, Replay(w), Covers(w))
  {
    hide Covers, Replay;
  }

  lemma OriginOfQuery(w: World, o: Origin, replay: seq<Event>, end: int)
    requires o.Origin? && o.replay == replay && end == LastId(replay, o.cursor) && o.position <= |w.channel.sent|
    requires forall e :: e in w.history && o.cursor < e.id <= end <==> e in replay
    requires o.covers <==> forall e :: e in w.channel.sent[..o.position] ==> e.id <= end
    ensures OriginInv(w, o)
  {
  }

  lemma StepKeepsOrigin(w: World, step: Step, o: Origin)
    requires IsPublished(w) && OriginInv(w, o) && Enabled(w, step) && !step.Query?
    requires step.Publish? ==> IsNewPublish(w, step.e)
    ensures OriginInv(Apply(w, step), o)
  {
    var w' := Apply(w, step);
    LogOnlyGrows(w, step);
    if o.Origin? {
      assert w'.channel.sent[..o.position] == w.channel.sent[..o.position];
      if step.Append? {
        assert o.replay != [] ==> o.replay[|o.replay| - 1] in o.replay;
      }
    }
    hide Apply, Enabled;
  }

  lemma LogOnlyGrows(w: World, step: Step)
    requires Enabled(w, step)
    ensures w.channel.sent <= Apply(w, step).channel.sent
    ensures if step.Append? then Apply(w, step).history == w.history + [step.e] else Apply(w, step).history == w.history
    ensures Apply(w, step).channel.sent == w.channel.sent + (if step.Publish? then [step.e] else [])
    ensures step.Append? ==> 1 <= step.e.id <= I64_MAX && forall x :: x in w.history ==> x.id < step.e.id
  {
  }

  lemma StepKeepsPublished(w: World, step: Step)
    requires IsPublished(w) && Enabled(w, step) && (step.Publish? ==> IsNewPublish(w, step.e))
    ensures IsPublished(Apply(w, step))
  {
    LogOnlyGrows(w, step);
    hide Apply, Enabled;
    if step.Publish? {
      forall i | 0 <= i < |w.channel.sent| ensures w.channel.sent[i].id != step.e.id {
        var x := w.channel.sent[i];
        assert x in w.channel.sent && x in w.history;
      }
    }
  }

  lemma {:induction false} OriginInvHolds(w: World, steps: seq<Step>, after: int)
    requires Starts(w, after) && IsPublished(w) && Legal(w, steps) && StrictReads(steps)
    requires PublishesOnce(w, steps) && TablesComplete(w, steps)
    ensures IsPublished(Run(w, steps)) && OriginInv(Run(w, steps), Current(w, steps))
    decreases |steps|
  {
    if steps == [] {
    } else {
      var prefix, step := steps[..|steps| - 1], steps[|steps| - 1];
      var now := Run(w, prefix);
      OriginInvHolds(w, prefix, after);
      DeliveryInvHolds(w, prefix, after);
      RecordsInvHolds(w, prefix, after);
      hide DeliveryInv, IsPublished, OriginInv, RecordsInv, Apply, OriginStep, Starts, IsNewPublish, TableComplete;
      StepKeepsPublished(now, step);
      if step.Query? {
        QueryStartsOrigin(now, after, Current(w, prefix));
      } else {
        StepKeepsOrigin(now, step, Current(w, prefix));
        NoNewOrigin(now, step, Current(w, prefix));
      }
    }
  }

  lemma NoNewOrigin(w: World, step: Step, o: Origin)
    requires !step.Query?
    ensures OriginStep(w, step, o) == o
  {
  }

  /** Subscribed, replay drained, everything sent read, and every row behind the replay sent. */
  ghost predicate ReadEverything(w: World, o: Origin) {
    && w.phase.Live? && Undelivered(w) == [] && w.phase.sub.position == |w.channel.sent|
    && o.Origin? && forall e :: e in w.history && e.id > Floor(o) ==> e in w.channel.sent
  }

  /** Published too early to come live, and not replayed; or overtaken. */
  ghost predicate Misses(w: World, o: Origin, e: Event)
    requires o.Origin? && o.position <= |w.channel.sent|
  {
    e.id > Floor(o) && (e in w.channel.sent[..o.position] || Overtaken(w.channel.sent[o.position..], e))
  }

  /** What the current subscription has handed out. */
  function Handed(w: World, o: Origin): seq<Event>
    requires o.Origin? && |o.before| <= |w.delivered|
  {
    w.delivered[|o.before|..]
  }

  lemma HandedState(w: World, o: Origin)
    requires RecordsInv(w, o) && ReadEverything(w, o)
    ensures o.position <= |w.channel.sent| && o.before <= w.delivered
    ensures Handed(w, o) == o.replay + Records(w.channel.sent[o.position..], Floor(o))
  {
    var live := Records(w.channel.sent[o.position..|w.channel.sent|], Floor(o));
    assert w.channel.sent[o.position..|w.channel.sent|] == w.channel.sent[o.position..];
    assert w.delivered + [] == w.delivered == o.before + (o.replay + live) by {
      Regroup(o.before, o.replay, live);
    }
    hide Records, Floor, Undelivered;
  }

  lemma MissedIff(w: World, o: Origin, e: Event)
    requires RecordsInv(w, o) && IsPublished(w) && OriginInv(w, o) && ReadEverything(w, o)
    requires e in w.history && e.id > o.cursor
    ensures o.position <= |w.channel.sent| && o.before <= w.delivered
    ensures e !in Handed(w, o) <==> Misses(w, o, e)
  {
    HandedState(w, o);
    RecordsAreEvents(w.channel.sent[o.position..], Floor(o));
    hide Records, Floor, Handed, RecordsInv, Undelivered, Overtaken;
    if e.id > Floor(o) {
      MissedLiveIff(w.channel.sent, o.position, Floor(o), e);
    }
  }

  /** Of what was sent, the records from a position on leave out what came before it or was overtaken. */
  lemma MissedLiveIff(sent: seq<Event>, p: nat, floor: int, e: Event)
    requires DistinctIds(sent) && p <= |sent| && e in sent && e.id > floor
    ensures e !in Records(sent[p..], floor) <==> e in sent[..p] || Overtaken(sent[p..], e)
  {
    RecordsAreNotOvertaken(sent[p..], floor, e);
    assert sent == sent[..p] + sent[p..];
    hide Records;
    if e in sent[..p] {
      NotInBothParts(sent, p, e);
    }
  }

  lemma NotInBothParts(sent: seq<Event>, p: nat, e: Event)
    requires p <= |sent| && DistinctIds(sent) && e in sent[..p]
    ensures e !in sent[p..]
  {
    var i :| 0 <= i < p && sent[i] == e;
    assert forall j :: 0 <= j < |sent[p..]| ==> sent[p..][j].id != e.id;
  }

  lemma HandedIsLogIff(w: World, after: int, o: Origin)
    requires DeliveryInv(w, after) && RecordsInv(w, o) && IsPublished(w) && OriginInv(w, o) && ReadEverything(w, o)
    ensures o.position <= |w.channel.sent| && o.before <= w.delivered
    ensures Handed(w, o) == Kept(w.history, o.cursor, I64_MAX, {})
       <==> o.covers && InOrder(w.channel.sent[o.position..], Floor(o))
  {
    HandedState(w, o);
    HandedRows(w, after, o);
    forall e | e in w.history && e.id > o.cursor ensures e !in Handed(w, o) <==> Misses(w, o, e) {
      MissedIff(w, o, e);
    }
    assert DistinctIds(w.channel.sent[o.position..]);
    hide Kept, RecordsInv, DeliveryInv, Floor, Misses, Handed, InOrder, Ordered, Overtaken, OriginInv, ReadEverything,
        DistinctIds;
    InOrderIffNoneOvertaken(w.channel.sent[o.position..], Floor(o));
    MissesNothingIff(w, o);
    SameAsLogIff(Handed(w, o), w.history, o.cursor);
  }

  lemma SameAsLogIff(handed: seq<Event>, history: seq<Event>, c: int)
    requires Ordered(handed) && IsLog(history) && forall e :: e in handed ==> e in history && c < e.id <= I64_MAX
    ensures handed == Kept(history, c, I64_MAX, {}) <==> forall e :: e in history && e.id > c ==> e in handed
  {
    KeptMembers(history, c, I64_MAX, {});
    if forall e :: e in history && e.id > c ==> e in handed {
      KeptIs(history, handed, c, I64_MAX, {});
    }
  }

  lemma HandedRows(w: World, after: int, o: Origin)
    requires DeliveryInv(w, after) && RecordsInv(w, o) && IsPublished(w) && OriginInv(w, o) && ReadEverything(w, o)
    requires |o.before| <= |w.delivered|
    ensures Ordered(Handed(w, o)) && forall e :: e in Handed(w, o) ==> e in w.history && o.cursor < e.id <= I64_MAX
    ensures Floor(o) >= o.cursor
  {
    HandedState(w, o);
    assert w.delivered + [] == w.delivered;
    RecordsAreEvents(w.channel.sent[o.position..], Floor(o));
    assert Floor(o) >= o.cursor by {
      if o.replay != [] {
        assert o.replay[|o.replay| - 1] in o.replay;
      }
    }
    hide Records, Floor, RecordsInv;
  }

  lemma MissesNothingIff(w: World, o: Origin)
    requires IsPublished(w) && OriginInv(w, o) && ReadEverything(w, o) && Floor(o) >= o.cursor
    ensures o.position <= |w.channel.sent|
    ensures (forall e :: e in w.history && e.id > o.cursor ==> !Misses(w, o, e))
       <==> o.covers
            && forall e :: e in w.channel.sent[o.position..] && e.id > Floor(o) ==>
                 !Overtaken(w.channel.sent[o.position..], e)
  {
    var sent, p := w.channel.sent, o.position;
    assert sent == sent[..p] + sent[p..];
    hide Floor, Undelivered;
    forall e | Overtaken(sent[p..], e) ensures e in sent[p..] {
      var i, j :| 0 <= i < j < |sent[p..]| && sent[p..][j] == e && sent[p..][i].id > e.id;
    }
  }

  /** What the current subscription misses, for any order of publishes and any number of earlier lags:
    * a row above its cursor is never handed out if and only if its id exceeds the end of the replay
    * and it was published before the registration, or after a higher id. */
  lemma {:induction false} SubscriptionMissesExactly(w: World, steps: seq<Step>, after: int, e: Event)
    requires Starts(w, after) && IsPublished(w) && Legal(w, steps) && StrictReads(steps)
    requires PublishesOnce(w, steps) && TablesComplete(w, steps) && ReadEverything(Run(w, steps), Current(w, steps))
    requires e in Run(w, steps).history && e.id > Current(w, steps).cursor
    ensures var end, o := Run(w, steps), Current(w, steps);
            && o.position <= |end.channel.sent| && o.before <= end.delivered
            && (e !in Handed(end, o) <==> Misses(end, o, e))
  {
    RecordsInvHolds(w, steps, after);
    OriginInvHolds(w, steps, after);
    MissedIff(Run(w, steps), Current(w, steps), e);
  }

  /** A subscription whose replay covers what was published before misses exactly the overtaken rows. */
  lemma {:induction false} CoveredMissesTheOvertaken(w: World, steps: seq<Step>, after: int, e: Event)
    requires Starts(w, after) && IsPublished(w) && Legal(w, steps) && StrictReads(steps)
    requires PublishesOnce(w, steps) && TablesComplete(w, steps) && ReadEverything(Run(w, steps), Current(w, steps))
    requires Current(w, steps).covers && e in Run(w, steps).history && e.id > Current(w, steps).cursor
    ensures var end, o := Run(w, steps), Current(w, steps);
            && o.position <= |end.channel.sent| && o.before <= end.delivered
            && (e !in Handed(end, o) <==> e.id > Floor(o) && Overtaken(end.channel.sent[o.position..], e))
  {
    SubscriptionMissesExactly(w, steps, after, e);
    OriginInvHolds(w, steps, after);
    hide Run, Current, Handed, Floor, Overtaken;
  }

  /** It hands out the whole log above its cursor if and only if the rows published before its
    * registration fit its replay and, from there on, the ids above the end of the replay were
    * published in increasing order. */
  lemma {:induction false} SubscriptionIsCompleteIff(w: World, steps: seq<Step>, after: int)
    requires Starts(w, after) && IsPublished(w) && Legal(w, steps) && StrictReads(steps)
    requires PublishesOnce(w, steps) && TablesComplete(w, steps) && ReadEverything(Run(w, steps), Current(w, steps))
    ensures var end, o := Run(w, steps), Current(w, steps);
            && o.position <= |end.channel.sent| && o.before <= end.delivered
            && (Handed(end, o) == Kept(end.history, o.cursor, I64_MAX, {})
                <==> o.covers && InOrder(end.channel.sent[o.position..], Floor(o)))
  {
    DeliveryInvHolds(w, steps, after);
    RecordsInvHolds(w, steps, after);
    OriginInvHolds(w, steps, after);
    HandedIsLogIff(Run(w, steps), after, Current(w, steps));
  }

  // ----- A run with one subscription -----

  ghost predicate NeverLags(w: World, steps: seq<Step>)
    decreases |steps|
  {
    steps == [] ||
    (NeverLags(w, steps[..|steps| - 1])
     && (Run(w, steps[..|steps| - 1]).phase.Live? ==> Run(w, steps).phase.Live?))
  }

  ghost predicate FirstSubscription(w: World, o: Origin, after: int) {
    && (w.phase.Live? ==> o.Origin? && o.before == [] && o.cursor == after)
    && (!w.phase.Live? ==> w.phase.cursor == after && w.delivered == [])
  }

  lemma StepKeepsFirst(w: World, step: Step, o: Origin, after: int)
    requires FirstSubscription(w, o, after) && Enabled(w, step) && RecordsInv(w, o)
    requires w.phase.Live? ==> Apply(w, step).phase.Live?
    ensures FirstSubscription(Apply(w, step), OriginStep(w, step, o), after)
  {
    hide Covers, Replay, ReadOnce, Subscribed;
  }

  lemma {:induction false} OneSubscription(w: World, steps: seq<Step>, after: int)
    requires Starts(w, after) && Legal(w, steps) && StrictReads(steps) && NeverLags(w, steps)
    ensures FirstSubscription(Run(w, steps), Current(w, steps), after)
    decreases |steps|
  {
    if steps == [] {
    } else {
      var prefix := steps[..|steps| - 1];
      OneSubscription(w, prefix, after);
      RecordsInvHolds(w, prefix, after);
      hide FirstSubscription, RecordsInv, Apply, Enabled, OriginStep, Starts;
      StepKeepsFirst(Run(w, prefix), steps[|steps| - 1], Current(w, prefix), after);
    }
  }

  /** For a client that never lags and has read everything: it has been handed the whole log above its
    * cursor if and only if its replay covers what was published before its registration and the ids
    * above the replay were published in order from then on. */
  lemma {:induction false} NothingIsLostIff(w: World, steps: seq<Step>, after: int)
    requires Starts(w, after) && IsPublished(w) && Legal(w, steps) && StrictReads(steps) && NeverLags(w, steps)
    requires PublishesOnce(w, steps) && TablesComplete(w, steps) && ReadEverything(Run(w, steps), Current(w, steps))
    ensures var end, o := Run(w, steps), Current(w, steps);
            && o.position <= |end.channel.sent|
            && (end.delivered == Kept(end.history, after, I64_MAX, {})
                <==> o.covers && InOrder(end.channel.sent[o.position..], Floor(o)))
  {
    SubscriptionIsCompleteIff(w, steps, after);
    OneSubscription(w, steps, after);
    hide Current, Run, Kept, InOrder, Floor;
    assert Run(w, steps).delivered[0..] == Run(w, steps).delivered;
  }
}
