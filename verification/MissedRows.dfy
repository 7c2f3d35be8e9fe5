/** What a client misses over a whole run, with any number of lags and new subscriptions, publishes in any
  * order and any pruning (src/events/publisher.rs). */
module MissedRows {
  import opened Sequences
  import opened Events
  import opened EventStore
  import opened Publisher
  import opened Handoff
  import opened KeptRows
  import opened LagRecovery
  import opened ReplayLimit
  import opened PublishOrder

  /** The rows a query leaves out below the end of its replay: they are no longer in the table. */
  ghost function Deleted(w: World): set<int>
    requires w.phase.Registered?
  {
    set e | e in w.history && w.phase.cursor < e.id <= ReplayEnd(w) && e !in Replay(w) :: e.id
  }

  /** The rows that the next live event passes over: between the cursor and its id, published before the
    * subscription was registered or not before the event. */
  ghost predicate IsPassedOver(w: World, o: Origin, e: Event)
    requires w.phase.Live? && w.phase.sub.position < |w.channel.sent| && o.Origin? && o.position <= w.phase.sub.position
  {
    var sent, p := w.channel.sent, w.phase.sub.position;
    && e in w.history && Cursor(w) < e.id < sent[p].id
    && (e in sent[..o.position] || e !in sent[..p])
  }

  ghost function PassedOver(w: World, o: Origin): set<int>
    requires w.phase.Live? && w.phase.sub.position < |w.channel.sent| && o.Origin? && o.position <= w.phase.sub.position
  {
    set e | e in w.history && IsPassedOver(w, o, e) :: e.id
  }

  ghost predicate CanPass(w: World, step: Step, o: Origin) {
    && HandsOutLive(w, step) && w.phase.sub.position < |w.channel.sent|
    && o.Origin? && o.position <= w.phase.sub.position
  }

  ghost function MissedStep(w: World, step: Step, o: Origin, before: set<int>): set<int> {
    if step.Query? && w.phase.Registered? then before + Deleted(w)
    else if CanPass(w, step, o) then before + PassedOver(w, o)
    else before
  }

  /** What has been missed so far below the cursor. */
  ghost function Missed(w: World, steps: seq<Step>): set<int>
    decreases |steps|
  {
    if steps == [] then {}
    else
      var prefix := steps[..|steps| - 1];
      MissedStep(Run(w, prefix), steps[|steps| - 1], Current(w, prefix), Missed(w, prefix))
  }

  /** All that was sent is in the log. */
  ghost predicate SentIsLogged(w: World) {
    IsLog(w.history) && forall e :: e in w.channel.sent ==> e in w.history
  }

  /** What the client has or is about to get is the log up to its cursor without the missed rows. */
  ghost predicate MissedInv(w: World, after: int, missed: set<int>) {
    && after <= Cursor(w)
    && w.delivered + Undelivered(w) == Kept(w.history, after, Cursor(w), missed)
    && (forall s :: s in missed ==> after < s <= Cursor(w) && exists e :: e in w.history && e.id == s)
    && (Cursor(w) > after ==> exists e :: e in w.history && e.id == Cursor(w))
  }

  lemma MissedAtStart(w: World, after: int)
    requires Starts(w, after)
    ensures MissedInv(w, after, {})
  {
    assert w.delivered + Undelivered(w) == [];
    KeptNone(w.history, after, after, {});
  }

  /** More of the log, up to a higher cursor, with more rows missed in between. */
  lemma Extended(history: seq<Event>, after: int, c: int, c': int, missed: set<int>, more: set<int>, handed: seq<Event>)
    requires Ordered(history) && after <= c <= c'
    requires (forall s :: s in missed ==> s <= c) && (forall s :: s in more ==> c < s)
    requires handed == Kept(history, c, c', more)
    ensures Kept(history, after, c', missed + more) == Kept(history, after, c, missed) + handed
  {
    KeptSplits(history, after, c, c', missed + more);
    hide Kept, Ordered;
    KeptAgrees(history, after, c, missed, missed + more);
    KeptAgrees(history, c, c', more, missed + more);
  }

  lemma ReplayWithoutDeleted(w: World, after: int)
    requires DeliveryInv(w, after) && SentIsLogged(w) && w.phase.Registered?
    ensures Replay(w) == Kept(w.history, w.phase.cursor, ReplayEnd(w), Deleted(w))
    ensures w.phase.cursor <= ReplayEnd(w)
    ensures ReplayEnd(w) > w.phase.cursor ==> exists e :: e in w.history && e.id == ReplayEnd(w)
  {
    ReplayRows(w);
    assert forall e :: e in Replay(w) ==> e in w.history;
    if ReplayEnd(w) > w.phase.cursor {
      assert Replay(w)[|Replay(w)| - 1] in Replay(w);
    }
    hide Replay, ReplayEnd, DeliveryInv;
    forall e
      ensures e in Replay(w) <==> e in w.history && w.phase.cursor < e.id <= ReplayEnd(w) && e.id !in Deleted(w)
    {
      if e in w.history && w.phase.cursor < e.id <= ReplayEnd(w) {
        OneRowPerId(w.history, e);
      }
    }
    hide Deleted;
    KeptIs(w.history, Replay(w), w.phase.cursor, ReplayEnd(w), Deleted(w));
  }

  lemma OneRowPerId(history: seq<Event>, e: Event)
    requires Ordered(history) && e in history
    ensures forall x :: x in history && x.id == e.id ==> x == e
  {
  }

  lemma DeletedRows(w: World)
    requires w.phase.Registered?
    ensures forall s :: s in Deleted(w) ==>
              w.phase.cursor < s <= ReplayEnd(w) && exists e :: e in w.history && e.id == s
  {
    hide Replay, ReplayEnd;
  }

  /** The client moves on to a higher cursor, getting part of the log in between. */
  lemma MovesOn(w: World, w': World, after: int, missed: set<int>, more: set<int>, handed: seq<Event>)
    requires MissedInv(w, after, missed) && Ordered(w.history) && w'.history == w.history && Cursor(w) <= Cursor(w')
    requires w'.delivered + Undelivered(w') == w.delivered + Undelivered(w) + handed
    requires handed == Kept(w.history, Cursor(w), Cursor(w'), more)
    requires forall s :: s in more ==> Cursor(w) < s <= Cursor(w') && exists e :: e in w.history && e.id == s
    requires Cursor(w') > Cursor(w) ==> exists e :: e in w.history && e.id == Cursor(w')
    ensures MissedInv(w', after, missed + more)
  {
    hide Cursor, Undelivered, Kept, Ordered;
    Extended(w.history, after, Cursor(w), Cursor(w'), missed, more, handed);
  }

  lemma QueryKeepsMissed(w: World, after: int, missed: set<int>)
    requires DeliveryInv(w, after) && SentIsLogged(w) && MissedInv(w, after, missed) && w.phase.Registered?
    ensures MissedInv(Apply(w, Query), after, missed + Deleted(w))
  {
    assert Cursor(w) == w.phase.cursor && Undelivered(w) == [] && Ordered(w.history);
    assert w.delivered + [] + Replay(w) == w.delivered + Replay(w);
    hide Apply, Kept, Cursor, Undelivered, Replay, ReplayEnd, Deleted, DeliveryInv, Ordered, MissedInv;
    QueryMovesPhase(w, after);
    ReplayWithoutDeleted(w, after);
    DeletedRows(w);
    MovesOn(w, Apply(w, Query), after, missed, Deleted(w), Replay(w));
  }

  /** What lies between the cursor and a live event was not read by this subscription. */
  lemma GapIsPassedOver(w: World, o: Origin, e: Event)
    requires RecordsInv(w, o) && w.phase.Live? && w.phase.sub.position < |w.channel.sent|
    requires e in w.history && Cursor(w) < e.id < w.channel.sent[w.phase.sub.position].id
    ensures IsPassedOver(w, o, e)
  {
    var sent, p := w.channel.sent, w.phase.sub.position;
    RecordsReachMax(sent[o.position..p], Floor(o));
    assert sent[..p] == sent[..o.position] + sent[o.position..p];
    hide Records, Undelivered;
  }

  lemma LiveEventPasses(w: World, o: Origin)
    requires RecordsInv(w, o) && SentIsLogged(w) && w.phase.Live? && w.phase.sub.position < |w.channel.sent|
    requires w.channel.sent[w.phase.sub.position].id > Cursor(w)
    ensures var e := w.channel.sent[w.phase.sub.position];
            [e] == Kept(w.history, Cursor(w), e.id, PassedOver(w, o))
  {
    var e := w.channel.sent[w.phase.sub.position];
    assert e in w.channel.sent && e in w.history && o.Origin? && o.position <= w.phase.sub.position;
    forall x ensures x in [e] <==> x in w.history && Cursor(w) < x.id <= e.id && x.id !in PassedOver(w, o) {
      if x in w.history && Cursor(w) < x.id < e.id {
        GapIsPassedOver(w, o, x);
      }
      if x in w.history && x.id == e.id {
        OneRowPerId(w.history, e);
      }
    }
    hide PassedOver, RecordsInv, Cursor;
    KeptIs(w.history, [e], Cursor(w), e.id, PassedOver(w, o));
  }

  lemma LiveReadFacts(w: World)
    requires HandsOutLive(w, Read(true))
    ensures var w', p := AfterRead(w, true), w.phase.sub.position;
            && p < |w.channel.sent| && w.channel.sent[p].id > Cursor(w) && Cursor(w') == w.channel.sent[p].id
            && w'.delivered == w.delivered + [w.channel.sent[p]] && w'.history == w.history
            && Undelivered(w) == [] && Undelivered(w') == []
  {
    LiveReadOutcome(w, true);
    assert Undelivered(w) == [];
    hide AfterRead, Undelivered, Cursor;
  }

  lemma LiveReadKeepsMissed(w: World, o: Origin, after: int, missed: set<int>)
    requires RecordsInv(w, o) && SentIsLogged(w) && MissedInv(w, after, missed) && HandsOutLive(w, Read(true))
    ensures CanPass(w, Read(true), o) && MissedInv(AfterRead(w, true), after, missed + PassedOver(w, o))
  {
    LiveReadFacts(w);
    var w', e := AfterRead(w, true), w.channel.sent[w.phase.sub.position];
    assert CanPass(w, Read(true), o) && Ordered(w.history) && e in w.channel.sent && e in w.history;
    hide AfterRead, HandsOutLive, Kept, Cursor, Undelivered, PassedOver, RecordsInv, Ordered, MissedInv;
    assert w.delivered + [e] + [] == w.delivered + [] + [e];
    LiveEventPasses(w, o);
    PassedRows(w, o);
    MovesOn(w, w', after, missed, PassedOver(w, o), [e]);
  }

  lemma PassedRows(w: World, o: Origin)
    requires w.phase.Live? && w.phase.sub.position < |w.channel.sent| && o.Origin? && o.position <= w.phase.sub.position
    ensures forall s :: s in PassedOver(w, o) ==>
              Cursor(w) < s <= w.channel.sent[w.phase.sub.position].id && exists e :: e in w.history && e.id == s
  {
    hide Cursor;
  }

  lemma AppendKeepsMissed(w: World, e: Event, after: int, missed: set<int>)
    requires SentIsLogged(w) && MissedInv(w, after, missed) && Enabled(w, Append(e))
    ensures MissedInv(Apply(w, Append(e)), after, missed)
  {
    AppendOutcome(w, e);
    hide Apply, Enabled, Kept, Cursor, Undelivered;
    KeptWithoutLast(w.history, e, after, Cursor(w), missed);
  }

  /** A step that changes neither the log nor what the client has, is about to get or asks from. */
  lemma QuietKeepsMissed(w: World, w': World, after: int, missed: set<int>)
    requires MissedInv(w, after, missed)
    requires w'.history == w.history && Cursor(w') == Cursor(w)
    requires w'.delivered + Undelivered(w') == w.delivered + Undelivered(w)
    ensures MissedInv(w', after, missed)
  {
    hide Cursor, Undelivered, Kept;
  }

  lemma ReadKeepsMissed(w: World, o: Origin, after: int, missed: set<int>)
    requires DeliveryInv(w, after) && RecordsInv(w, o) && SentIsLogged(w)
    requires MissedInv(w, after, missed) && w.phase.Live?
    ensures MissedInv(AfterRead(w, true), after, MissedStep(w, Read(true), o, missed))
  {
    if HandsOutLive(w, Read(true)) {
      LiveReadKeepsMissed(w, o, after, missed);
    } else {
      QuietRead(w, after);
      hide AfterRead, MissedInv, DeliveryInv, RecordsInv, Cursor, Undelivered;
      QuietKeepsMissed(w, AfterRead(w, true), after, missed);
    }
  }

  lemma QuietRead(w: World, after: int)
    requires DeliveryInv(w, after) && w.phase.Live? && !HandsOutLive(w, Read(true))
    ensures var w' := AfterRead(w, true);
            && w'.history == w.history && Cursor(w') == Cursor(w)
            && w'.delivered + Undelivered(w') == w.delivered + Undelivered(w)
  {
    if w.phase.sub.replayIdx < |w.phase.sub.replay| {
      ReplayReadKeepsDelivery(w, after, true);
      ReplayReadOutcome(w);
    } else {
      LiveReadOutcome(w, true);
      assert Undelivered(w) == [];
    }
  }

  lemma OtherStepIsQuiet(w: World, step: Step)
    requires Enabled(w, step) && !step.Append? && !step.Query? && !step.Read?
    ensures var w' := Apply(w, step);
            && w'.history == w.history && Cursor(w') == Cursor(w)
            && w'.delivered == w.delivered && Undelivered(w') == Undelivered(w)
  {
    hide LastRows, Without, StoredBefore;
  }

  lemma StepKeepsMissed(w: World, step: Step, o: Origin, after: int, missed: set<int>)
    requires DeliveryInv(w, after) && RecordsInv(w, o) && SentIsLogged(w) && MissedInv(w, after, missed)
    requires Enabled(w, step) && (step.Read? ==> step.strict)
    ensures MissedInv(Apply(w, step), after, MissedStep(w, step, o, missed))
  {
    hide DeliveryInv, RecordsInv, SentIsLogged, MissedInv, AfterRead, Deleted, PassedOver;
    match step
    case Append(e) => AppendKeepsMissed(w, e, after, missed);
    case Query => QueryKeepsMissed(w, after, missed);
    case Read(_) => ReadKeepsMissed(w, o, after, missed);
    case _ =>
      OtherStepIsQuiet(w, step);
      hide Apply, Cursor, Undelivered;
      QuietKeepsMissed(w, Apply(w, step), after, missed);
  }

  lemma StepKeepsLogged(w: World, step: Step)
    requires SentIsLogged(w) && Enabled(w, step) && (step.Publish? ==> step.e in w.history)
    ensures SentIsLogged(Apply(w, step))
  {
    LogOnlyGrows(w, step);
    hide Apply, Enabled;
  }

  lemma {:induction false} MissedInvHolds(w: World, steps: seq<Step>, after: int)
    requires Starts(w, after) && SentIsLogged(w) && Legal(w, steps)
    requires StrictReads(steps) && PublishesPersisted(w, steps)
    ensures SentIsLogged(Run(w, steps)) && MissedInv(Run(w, steps), after, Missed(w, steps))
    decreases |steps|
  {
    if steps == [] {
      MissedAtStart(w, after);
    } else {
      var prefix, step := steps[..|steps| - 1], steps[|steps| - 1];
      assert step.Read? ==> step.strict;
      MissedInvHolds(w, prefix, after);
      DeliveryInvHolds(w, prefix, after);
      RecordsInvHolds(w, prefix, after);
      hide DeliveryInv, RecordsInv, SentIsLogged, MissedInv, MissedStep, Apply, Enabled, Starts;
      StepKeepsMissed(Run(w, prefix), step, Current(w, prefix), after, Missed(w, prefix));
      StepKeepsLogged(Run(w, prefix), step);
    }
  }

  /** Over any run of persisted publishes and strict reads the client has been handed, or is about to be,
    * exactly the log from its first cursor to its present one without the missed rows: those deleted
    * from the table below the end of a replay, and those a live event passed over because they were
    * published before the subscription was registered or not before the event. */
  lemma {:induction false} DeliveredIsLogWithoutMissed(w: World, steps: seq<Step>, after: int)
    requires Starts(w, after) && SentIsLogged(w) && Legal(w, steps)
    requires StrictReads(steps) && PublishesPersisted(w, steps)
    ensures var end := Run(w, steps);
            end.delivered + Undelivered(end) == Kept(end.history, after, Cursor(end), Missed(w, steps))
  {
    MissedInvHolds(w, steps, after);
  }

  /** Rows above the cursor that will not come any more: they were published before the registration. */
  ghost function TooEarly(w: World, o: Origin): set<int>
    requires o.Origin? && o.position <= |w.channel.sent|
  {
    set e | e in w.history && e.id > Cursor(w) && e in w.channel.sent[..o.position] :: e.id
  }

  lemma RowsAboveCursor(w: World, o: Origin)
    requires RecordsInv(w, o) && ReadEverything(w, o)
    ensures o.position <= |w.channel.sent|
    ensures forall e :: e in w.history && e.id > Cursor(w) ==> e.id in TooEarly(w, o)
  {
    var sent, p := w.channel.sent, o.position;
    RecordsReachMax(sent[p..|sent|], Floor(o));
    assert sent == sent[..p] + sent[p..|sent|];
    hide Records, Undelivered;
  }

  /** A client that has read everything has been handed the whole log above its first cursor without the
    * missed rows, and has missed nothing exactly if there are none. */
  lemma {:induction false} ReadEverythingMissesExactly(w: World, steps: seq<Step>, after: int)
    requires Starts(w, after) && SentIsLogged(w) && Legal(w, steps)
    requires StrictReads(steps) && PublishesPersisted(w, steps)
    requires ReadEverything(Run(w, steps), Current(w, steps)) && after <= I64_MAX
    ensures var end, o := Run(w, steps), Current(w, steps);
            && o.position <= |end.channel.sent|
            && var missed := Missed(w, steps) + TooEarly(end, o);
               && end.delivered == Kept(end.history, after, I64_MAX, missed)
               && (end.delivered == Kept(end.history, after, I64_MAX, {}) <==> missed == {})
  {
    MissedInvHolds(w, steps, after);
    RecordsInvHolds(w, steps, after);
    var end, o, missed := Run(w, steps), Current(w, steps), Missed(w, steps);
    RowsAboveCursor(end, o);
    assert end.delivered + [] == end.delivered;
    assert forall s :: s in TooEarly(end, o) ==> s > Cursor(end) && exists e :: e in end.history && e.id == s;
    hide Run, Current, Missed, RecordsInv, TooEarly, Cursor, Undelivered, Starts, Legal;
    WholeLog(end.history, end.delivered, after, Cursor(end), missed, TooEarly(end, o));
  }

  lemma WholeLog(history: seq<Event>, delivered: seq<Event>, after: int, c: int, missed: set<int>, early: set<int>)
    requires IsLog(history) && after <= c && after <= I64_MAX && delivered == Kept(history, after, c, missed)
    requires forall s :: s in missed ==> after < s <= c && exists e :: e in history && e.id == s
    requires forall s :: s in early ==> s > c && exists e :: e in history && e.id == s
    requires forall e :: e in history && e.id > c ==> e.id in early
    ensures delivered == Kept(history, after, I64_MAX, missed + early)
    ensures delivered == Kept(history, after, I64_MAX, {}) <==> missed + early == {}
  {
    var all := missed + early;
    KeptMembers(history, after, c, missed);
    KeptOrdered(history, after, c, missed);
    hide Kept, Ordered;
    KeptIs(history, delivered, after, I64_MAX, all);
    NothingSkippedIff(history, after, I64_MAX, all);
    if all != {} {
      var s :| s in all;
      var e :| e in history && e.id == s;
    }
  }
}
