/** Replay-to-live handoff and lag recovery over whole runs (src/events/publisher.rs,
  * src/events/store.rs): any interleaving of appends, publishes, prunes and the reads of one client
  * that subscribes again from its last seen id whenever it is told that it lagged. */
module Handoff {
  import opened Options
  import opened Timestamps
  import opened Events
  import opened EventStore
  import opened Publisher

  /** The client between subscriptions, between the two halves of `subscribe`, and subscribed. */
  datatype Phase = Idle(cursor: int) | Registered(cursor: int, position: nat) | Live(sub: Subscription)

  /** `history` is every row ever appended, `delivered` everything the client was handed. */
  datatype World = World(
    history: seq<Event>,
    rows: seq<Event>,
    channel: Channel,
    limit: nat,
    phase: Phase,
    delivered: seq<Event>)

  /** A strict read answers a lag by a new subscription; the best-effort one goes on reading. */
  datatype Step =
    | Append(e: Event)
    | Publish(e: Event)
    | Prune(maxRows: nat)
    | PruneOlder(cutoff: Stamp)
    | Shut
    | Register
    | Query
    | Read(strict: bool)

  ghost predicate Enabled(w: World, step: Step) {
    match step
    case Append(e) => 1 <= e.id <= I64_MAX && forall x :: x in w.history ==> x.id < e.id
    case Publish(e) => e.id != 0
    case Prune(n) => n >= 1
    case PruneOlder(_) => true
    case Shut => true
    case Register => w.phase.Idle?
    case Query => w.phase.Registered?
    case Read(_) => w.phase.Live?
  }

  function Apply(w: World, step: Step): World {
    match step
    case Append(e) => w.(history := w.history + [e], rows := w.rows + [e])
    case Publish(e) => w.(channel := w.channel.(sent := w.channel.sent + [e]))
    case Prune(n) => w.(rows := LastRows(w.rows, n))
    case PruneOlder(cutoff) => w.(rows := Without(w.rows, StoredBefore(cutoff)))
    case Shut => w.(channel := w.channel.(open := false))
    case Register => if w.phase.Idle? then w.(phase := Registered(w.phase.cursor, |w.channel.sent|)) else w
    case Query =>
      if w.phase.Registered?
      then w.(phase := Live(Subscribed(w.rows, w.limit, w.phase.cursor, w.phase.position)))
      else w
    case Read(strict) => if w.phase.Live? then AfterRead(w, strict) else w
  }

  function AfterRead(w: World, strict: bool): World
    requires w.phase.Live?
  {
    var (r, sub) := ReadOnce(w.channel, w.phase.sub);
    match r
    case Some(Delivered(e)) => w.(phase := Live(sub), delivered := w.delivered + [e])
    case Some(Lagged(_)) => w.(phase := if strict then Idle(sub.lastSeenId) else Live(sub))
    case _ => w.(phase := Live(sub))
  }

  ghost predicate Legal(w: World, steps: seq<Step>)
    decreases |steps|
  {
    steps == [] ||
    (Legal(w, steps[..|steps| - 1]) && Enabled(Run(w, steps[..|steps| - 1]), steps[|steps| - 1]))
  }

  function Run(w: World, steps: seq<Step>): World
    decreases |steps|
  {
    if steps == [] then w else Apply(Run(w, steps[..|steps| - 1]), steps[|steps| - 1])
  }

  // ----- Exactly-once, ordered delivery, whatever is published -----

  /** Replayed events not yet handed out. */
  function Undelivered(w: World): seq<Event> {
    if w.phase.Live? && w.phase.sub.replayIdx <= |w.phase.sub.replay|
    then w.phase.sub.replay[w.phase.sub.replayIdx..]
    else []
  }

  /** What `last_seen_id` would return, or the cursor of the subscription being made. */
  function Cursor(w: World): int {
    if w.phase.Live? then w.phase.sub.lastSeenId else w.phase.cursor
  }

  function LastId(es: seq<Event>, floor: int): int {
    if es == [] then floor else es[|es| - 1].id
  }

  /** The highest id handed to the client so far. */
  function Frontier(w: World, after: int): int {
    LastId(w.delivered, after)
  }

  ghost predicate DeliveryInv(w: World, after: int) {
    && Ordered(w.rows) && (forall e :: e in w.rows ==> e in w.history)
    && Ordered(w.delivered + Undelivered(w))
    && (forall e :: e in w.delivered + Undelivered(w) ==> e.id > after)
    && Cursor(w) == LastId(w.delivered + Undelivered(w), after)
  }

  /** A client that has not been handed anything, on a store with any rows. */
  ghost predicate Starts(w: World, after: int) {
    w.phase == Idle(after) && w.delivered == [] && Ordered(w.rows) && forall e :: e in w.rows ==> e in w.history
  }

  lemma {:induction false} BacklogMembers(rows: seq<Event>, after: int)
    requires Ordered(rows)
    ensures Ordered(Backlog(rows, after))
    ensures forall e :: e in Backlog(rows, after) <==> e in rows && after < e.id <= I64_MAX
  {
    if rows == [] {
    } else {
      BacklogMembers(rows[1..], after);
      assert rows == [rows[0]] + rows[1..];
      forall x | x in Backlog(rows[1..], after) ensures rows[0].id < x.id {
        assert x in rows[1..];
      }
      PrependIsOrdered(rows[0], Backlog(rows[1..], after));
    }
  }

  lemma {:induction false} MaxIdIsLast(es: seq<Event>, floor: int)
    requires Ordered(es) && forall e :: e in es ==> e.id > floor
    ensures MaxId(es, floor) == LastId(es, floor)
    ensures forall e :: e in es ==> e.id <= LastId(es, floor)
  {
    if es == [] {
    } else {
      assert forall e :: e in es[1..] ==> e.id > es[0].id;
      MaxIdIsLast(es[1..], es[0].id);
    }
  }

  lemma ReplayIsOrdered(rows: seq<Event>, limit: nat, after: int)
    requires Ordered(rows)
    ensures var replay := FirstRows(Backlog(rows, after), limit);
            && Ordered(replay) && (forall e :: e in replay ==> e in rows && e.id > after)
            && MaxId(replay, after) == LastId(replay, after)
  {
    BacklogMembers(rows, after);
    MaxIdIsLast(FirstRows(Backlog(rows, after), limit), after);
  }

  lemma ConcatIsOrdered(a: seq<Event>, b: seq<Event>, floor: int)
    requires Ordered(a) && (forall e :: e in a ==> e.id > floor)
    requires Ordered(b) && (forall e :: e in b ==> e.id > LastId(a, floor))
    ensures Ordered(a + b) && (forall e :: e in a + b ==> e.id > floor)
    ensures LastId(a + b, floor) == LastId(b, LastId(a, floor))
  {
    MaxIdIsLast(a, floor);
    if a != [] {
      assert a[|a| - 1] in a;
    }
    forall i, j | 0 <= i < j < |a + b| ensures (a + b)[i].id < (a + b)[j].id {
      if i < |a| <= j {
        assert a[i] in a && b[j - |a|] in b;
      }
    }
    if b == [] {
      assert a + b == a;
    }
  }

  lemma QueryOutcome(w: World)
    requires w.phase.Registered?
    ensures var w', replay := Apply(w, Query), FirstRows(Backlog(w.rows, w.phase.cursor), w.limit);
            && Undelivered(w) == [] && Undelivered(w') == replay && Cursor(w') == MaxId(replay, w.phase.cursor)
            && w'.rows == w.rows && w'.history == w.history && w'.delivered == w.delivered
  {
    hide Backlog, FirstRows, MaxId;
  }

  lemma QueryKeepsDelivery(w: World, after: int)
    requires DeliveryInv(w, after) && w.phase.Registered?
    ensures DeliveryInv(Apply(w, Query), after)
  {
    QueryOutcome(w);
    ReplayIsOrdered(w.rows, w.limit, w.phase.cursor);
    hide Apply, Undelivered, Backlog, FirstRows, MaxId, Ordered;
    assert w.delivered + [] == w.delivered;
    ConcatIsOrdered(w.delivered, Undelivered(Apply(w, Query)), after);
  }

  /** Handing out the next replayed event. */
  lemma ReplayReadKeepsDelivery(w: World, after: int, strict: bool)
    requires DeliveryInv(w, after) && w.phase.Live? && w.phase.sub.replayIdx < |w.phase.sub.replay|
    ensures DeliveryInv(AfterRead(w, strict), after)
    ensures AfterRead(w, strict).delivered + Undelivered(AfterRead(w, strict)) == w.delivered + Undelivered(w)
    ensures Cursor(AfterRead(w, strict)) == Cursor(w)
  {
    var w', sub := AfterRead(w, strict), w.phase.sub;
    var e := sub.replay[sub.replayIdx];
    MaxIdIsLast(w.delivered + Undelivered(w), after);
    assert e in w.delivered + Undelivered(w) by {
      assert (w.delivered + Undelivered(w))[|w.delivered|] == e;
    }
    assert w'.delivered + Undelivered(w') == w.delivered + Undelivered(w);
  }

  /** Once the replay is drained a read hands out a live event with a new highest id, or nothing. */
  lemma LiveReadOutcome(w: World, strict: bool)
    requires w.phase.Live? && w.phase.sub.replayIdx >= |w.phase.sub.replay|
    ensures var w' := AfterRead(w, strict);
            && Undelivered(w') == [] && w'.rows == w.rows && w'.history == w.history && w'.channel == w.channel
            && w'.limit == w.limit && !w'.phase.Registered? && (w'.phase.Idle? ==> w'.delivered == w.delivered)
            && (|| (w'.delivered == w.delivered && Cursor(w') == Cursor(w))
                || (var p := w.phase.sub.position;
                    p < |w.channel.sent| && w.channel.sent[p].id > Cursor(w) == w.phase.sub.lastSeenId
                    && w'.delivered == w.delivered + [w.channel.sent[p]] && Cursor(w') == w.channel.sent[p].id))
  {
  }

  lemma OneMoreIsOrdered(es: seq<Event>, e: Event, floor: int)
    requires Ordered(es) && (forall x :: x in es ==> x.id > floor) && e.id > LastId(es, floor)
    ensures Ordered(es + [e]) && forall x :: x in es + [e] ==> x.id > floor
  {
    MaxIdIsLast(es, floor);
  }

  lemma LiveReadKeepsDelivery(w: World, after: int, strict: bool)
    requires DeliveryInv(w, after) && w.phase.Live? && w.phase.sub.replayIdx >= |w.phase.sub.replay|
    ensures DeliveryInv(AfterRead(w, strict), after)
  {
    var w' := AfterRead(w, strict);
    LiveReadOutcome(w, strict);
    assert Undelivered(w) == [];
    hide AfterRead, Undelivered, ReadOnce;
    assert w.delivered + Undelivered(w) == w.delivered && w'.delivered + Undelivered(w') == w'.delivered;
    if w'.delivered != w.delivered {
      OneMoreIsOrdered(w.delivered, w.channel.sent[w.phase.sub.position], after);
    }
  }

  /** A step that concerns the table or the channel. */
  lemma TableStepKeepsDelivery(w: World, w': World, after: int)
    requires DeliveryInv(w, after)
    requires w'.delivered == w.delivered && Undelivered(w') == Undelivered(w) && Cursor(w') == Cursor(w)
    requires Ordered(w'.rows) && forall e :: e in w'.rows ==> e in w'.history
    ensures DeliveryInv(w', after)
  {
  }

  lemma AppendKeepsDelivery(w: World, e: Event, after: int)
    requires DeliveryInv(w, after) && Enabled(w, Append(e))
    ensures DeliveryInv(Apply(w, Append(e)), after)
  {
    var w' := Apply(w, Append(e));
    assert w'.rows == w.rows + [e] && w'.history == w.history + [e] && w'.delivered == w.delivered;
    assert Undelivered(w') == Undelivered(w) && Cursor(w') == Cursor(w);
    assert forall x :: x in w.rows ==> x.id < e.id;
    hide Apply, Enabled, Undelivered, Cursor;
    TableStepKeepsDelivery(w, w', after);
  }

  /** What pruning leaves is ordered and was there before. */
  lemma PrunedRows(w: World, step: Step)
    requires Ordered(w.rows) && Enabled(w, step) && (step.Prune? || step.PruneOlder?)
    ensures Ordered(Apply(w, step).rows) && forall e :: e in Apply(w, step).rows ==> e in w.rows
  {
    hide StoredBefore;
    match step
    case Prune(n) => LastRowsAreOrdered(w.rows, n);
    case PruneOlder(cutoff) => WithoutKeepsOrder(w.rows, StoredBefore(cutoff));
  }

  lemma LastRowsAreOrdered(rows: seq<Event>, n: nat)
    requires Ordered(rows)
    ensures Ordered(LastRows(rows, n)) && forall e :: e in LastRows(rows, n) ==> e in rows
  {
  }

  lemma PruneKeepsDelivery(w: World, step: Step, after: int)
    requires DeliveryInv(w, after) && Enabled(w, step) && (step.Prune? || step.PruneOlder?)
    ensures DeliveryInv(Apply(w, step), after)
  {
    var w' := Apply(w, step);
    PruneLeavesClient(w, step);
    PrunedRows(w, step);
    assert forall e :: e in w.rows ==> e in w.history;
    hide Apply, Enabled, Undelivered, Cursor, Ordered;
    TableStepKeepsDelivery(w, w', after);
  }

  lemma PruneLeavesClient(w: World, step: Step)
    requires Enabled(w, step) && (step.Prune? || step.PruneOlder?)
    ensures var w' := Apply(w, step);
            && Undelivered(w') == Undelivered(w) && Cursor(w') == Cursor(w)
            && w'.history == w.history && w'.delivered == w.delivered
  {
    hide LastRows, Without, StoredBefore;
  }

  lemma ChannelStepKeepsDelivery(w: World, step: Step, after: int)
    requires DeliveryInv(w, after) && Enabled(w, step) && (step.Publish? || step.Shut? || step.Register?)
    ensures DeliveryInv(Apply(w, step), after)
  {
    var w' := Apply(w, step);
    assert Undelivered(w') == Undelivered(w) && Cursor(w') == Cursor(w);
    assert w'.rows == w.rows && w'.history == w.history && w'.delivered == w.delivered;
    hide Apply, Enabled, Undelivered, Cursor;
    TableStepKeepsDelivery(w, w', after);
  }

  lemma ReadKeepsDelivery(w: World, strict: bool, after: int)
    requires DeliveryInv(w, after) && w.phase.Live?
    ensures DeliveryInv(AfterRead(w, strict), after)
  {
    hide AfterRead;
    if w.phase.sub.replayIdx < |w.phase.sub.replay| {
      ReplayReadKeepsDelivery(w, after, strict);
    } else {
      LiveReadKeepsDelivery(w, after, strict);
    }
  }

  lemma StepKeepsDelivery(w: World, step: Step, after: int)
    requires DeliveryInv(w, after) && Enabled(w, step)
    ensures DeliveryInv(Apply(w, step), after)
  {
    match step
    case Append(e) => AppendKeepsDelivery(w, e, after);
    case Prune(_) => PruneKeepsDelivery(w, step, after);
    case PruneOlder(_) => PruneKeepsDelivery(w, step, after);
    case Query => QueryKeepsDelivery(w, after);
    case Read(strict) => ReadKeepsDelivery(w, strict, after);
    case _ => ChannelStepKeepsDelivery(w, step, after);
  }

  lemma {:induction false} DeliveryInvHolds(w: World, steps: seq<Step>, after: int)
    requires Starts(w, after) && Legal(w, steps)
    ensures DeliveryInv(Run(w, steps), after)
    decreases |steps|
  {
    if steps == [] {
      assert w.delivered + Undelivered(w) == [];
    } else {
      DeliveryInvHolds(w, steps[..|steps| - 1], after);
      StepKeepsDelivery(Run(w, steps[..|steps| - 1]), steps[|steps| - 1], after);
    }
  }

  /** With no hypothesis on publish order, duplicates, pruning or lag, and through any number of new
    * subscriptions, the client is handed strictly increasing ids above its first cursor. */
  lemma {:induction false} DeliveryIsStrictlyIncreasing(w: World, steps: seq<Step>, after: int)
    requires Starts(w, after) && Legal(w, steps)
    ensures Ordered(Run(w, steps).delivered)
    ensures forall e :: e in Run(w, steps).delivered ==> e.id > after
  {
    DeliveryInvHolds(w, steps, after);
    var end := Run(w, steps);
    assert forall i :: 0 <= i < |end.delivered| ==> (end.delivered + Undelivered(end))[i] == end.delivered[i];
    assert forall e :: e in end.delivered ==> e in end.delivered + Undelivered(end);
  }

  /** `last_seen_id` is the last delivered id exactly when the replay is drained; before that it is
    * already the id of the last replayed event, which the client has not been handed. */
  lemma {:induction false} LastSeenIsDeliveredIffDrained(w: World, steps: seq<Step>, after: int)
    requires Starts(w, after) && Legal(w, steps) && Run(w, steps).phase.Live?
    ensures var end := Run(w, steps);
            end.phase.sub.lastSeenId == Frontier(end, after) <==> Undelivered(end) == []
  {
    DeliveryInvHolds(w, steps, after);
    hide Run, Legal;
    var end := Run(w, steps);
    var all := end.delivered + Undelivered(end);
    if Undelivered(end) == [] {
      assert all == end.delivered;
    } else {
      assert all[|all| - 1] in all;
      if end.delivered != [] {
        assert all[|end.delivered| - 1] == end.delivered[|end.delivered| - 1];
      }
    }
  }

  lemma BacklogOfOne(rows: seq<Event>)
    requires |rows| == 1 && 1 <= rows[0].id <= I64_MAX
    ensures Backlog(rows, 0) == rows && MaxId(rows, 0) == rows[0].id
  {
    assert Between(rows[1..], None, 0, I64_MAX + 1) == [];
    assert MaxId(rows[1..], rows[0].id) == rows[0].id;
  }

  ghost function OneRowWorld(e: Event): World {
    World([e], [e], Channel([], BROADCAST_CAPACITY, true), DEFAULT_QUERY_LIMIT, Idle(0), [])
  }

  /** For example a subscription made over one row, before its first read. */
  lemma UndrainedCursorIsAhead(e: Event)
    requires 1 <= e.id <= I64_MAX
    ensures Starts(OneRowWorld(e), 0) && Legal(OneRowWorld(e), [Register, Query])
    ensures var end := Run(OneRowWorld(e), [Register, Query]);
            end.phase.Live? && end.delivered == [] && end.phase.sub.lastSeenId == e.id > Frontier(end, 0)
  {
    var w, steps := OneRowWorld(e), [Register, Query];
    assert steps[..1] == [Register] && steps[..1][..0] == [];
    assert Run(w, []) == w && Run(w, [Register]) == Apply(w, Register);
    assert Run(w, steps) == Apply(Apply(w, Register), Query);
    BacklogOfOne([e]);
  }

  // ----- Persist before publish -----

  /** Every publish is of an event appended before, as in `append_and_publish`. */
  ghost predicate PublishesPersisted(w: World, steps: seq<Step>)
    decreases |steps|
  {
    steps == [] ||
    (PublishesPersisted(w, steps[..|steps| - 1])
     && (steps[|steps| - 1].Publish? ==> steps[|steps| - 1].e in Run(w, steps[..|steps| - 1]).history))
  }

  ghost predicate AllPersisted(w: World) {
    && (forall e :: e in w.rows ==> e in w.history)
    && (forall e :: e in w.channel.sent ==> e in w.history)
    && (forall e :: e in w.delivered ==> e in w.history)
    && (forall e :: e in Undelivered(w) ==> e in w.history)
  }

  lemma PersistedRead(w: World, strict: bool, after: int)
    requires AllPersisted(w) && DeliveryInv(w, after) && w.phase.Live?
    ensures AllPersisted(AfterRead(w, strict))
  {
    if w.phase.sub.replayIdx < |w.phase.sub.replay| {
      ReplayReadKeepsDelivery(w, after, strict);
      var w' := AfterRead(w, strict);
      assert w'.rows == w.rows && w'.channel == w.channel && w'.history == w.history;
      assert forall e :: e in w'.delivered + Undelivered(w') ==> e in w.delivered + Undelivered(w);
    } else {
      LiveReadOutcome(w, strict);
    }
  }

  lemma PersistedStep(w: World, step: Step, after: int)
    requires AllPersisted(w) && DeliveryInv(w, after) && Enabled(w, step)
    requires step.Publish? ==> step.e in w.history
    ensures AllPersisted(Apply(w, step))
  {
    match step
    case Prune(_) => PersistedPrune(w, step, after);
    case PruneOlder(_) => PersistedPrune(w, step, after);
    case Query => PersistedQuery(w, after);
    case Read(strict) => PersistedRead(w, strict, after);
    case _ =>
  }

  lemma PersistedPrune(w: World, step: Step, after: int)
    requires AllPersisted(w) && DeliveryInv(w, after) && Enabled(w, step) && (step.Prune? || step.PruneOlder?)
    ensures AllPersisted(Apply(w, step))
  {
    assert Ordered(w.rows) && Apply(w, step).channel == w.channel;
    hide Apply, Undelivered, Cursor, DeliveryInv, Ordered;
    PruneLeavesClient(w, step);
    PrunedRows(w, step);
  }

  lemma PersistedQuery(w: World, after: int)
    requires AllPersisted(w) && DeliveryInv(w, after) && w.phase.Registered?
    ensures AllPersisted(Apply(w, Query))
  {
    assert Ordered(w.rows) && Apply(w, Query).channel == w.channel;
    QueryOutcome(w);
    ReplayIsOrdered(w.rows, w.limit, w.phase.cursor);
    hide Apply, Undelivered, Cursor, DeliveryInv, Backlog, FirstRows, Ordered;
  }

  /** With writers that persist first, everything handed to the client, at any moment, is in the log at
    * that moment: the log got it before the client did. */
  lemma {:induction false} DeliveredIsPersisted(w: World, steps: seq<Step>, after: int)
    requires Starts(w, after) && Legal(w, steps) && PublishesPersisted(w, steps)
    requires forall e :: e in w.channel.sent ==> e in w.history
    ensures AllPersisted(Run(w, steps))
    decreases |steps|
  {
    if steps == [] {
    } else {
      DeliveredIsPersisted(w, steps[..|steps| - 1], after);
      DeliveryInvHolds(w, steps[..|steps| - 1], after);
      PersistedStep(Run(w, steps[..|steps| - 1]), steps[|steps| - 1], after);
    }
  }
}
