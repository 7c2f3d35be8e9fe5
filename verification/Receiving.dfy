/** What one call of `recv_or_lag` answers, and that it is a run of single reads (src/events/publisher.rs). */
module Receiving {
  import opened Options
  import opened Events
  import opened Publisher
  import opened Handoff

  /** Place `k` holds the first message from `from` on whose id is above `seen`. */
  ghost predicate FirstAbove(sent: seq<Event>, from: nat, seen: int, k: nat) {
    from <= k < |sent| && sent[k].id > seen && forall j :: from <= j < k ==> sent[j].id <= seen
  }

  ghost predicate NothingAbove(sent: seq<Event>, from: nat, seen: int) {
    forall j :: from <= j < |sent| ==> sent[j].id <= seen
  }

  /** As long as there is replay left, a call hands out its next event and does not look at the channel. */
  lemma ReplayComesFirst(ch: Channel, s: Subscription)
    requires s.replayIdx < |s.replay|
    ensures var e := s.replay[s.replayIdx];
            NextOutcome(ch, s)
            == (Delivered(e), s.(replayIdx := s.replayIdx + 1,
                                 lastSeenId := if e.id > s.lastSeenId then e.id else s.lastSeenId))
  {
  }

  /** With the replay drained: lag exactly if messages from the position on have left the ring, and then how
    * many; else an event exactly if one of them has an id above the last seen one, and then the first; else
    * the call waits while the channel is open. */
  lemma {:induction false} LiveAnswer(ch: Channel, s: Subscription)
    requires s.replayIdx >= |s.replay|
    ensures var r, lost := NextOutcome(ch, s).0, s.position + ch.capacity < |ch.sent|;
            && (r.Lagged? <==> lost)
            && (lost ==> r.skipped == |ch.sent| - ch.capacity - s.position)
            && (r.Delivered? <==> !lost && !NothingAbove(ch.sent, s.position, s.lastSeenId))
            && (r.Pending? <==> !lost && NothingAbove(ch.sent, s.position, s.lastSeenId) && ch.open)
            && (r.Closed? <==> !lost && NothingAbove(ch.sent, s.position, s.lastSeenId) && !ch.open)
    decreases if s.position < |ch.sent| then |ch.sent| - s.position else 0
  {
    if s.position + ch.capacity >= |ch.sent| && s.position < |ch.sent| {
      var next := ReadOnce(ch, s).1;
      if ch.sent[s.position].id > s.lastSeenId {
        assert !NothingAbove(ch.sent, s.position, s.lastSeenId);
      } else {
        LiveAnswer(ch, next);
        PassedOver(ch.sent, s.position, s.lastSeenId);
      }
    }
  }

  lemma PassedOver(sent: seq<Event>, from: nat, seen: int)
    requires from < |sent| && sent[from].id <= seen
    ensures forall k :: FirstAbove(sent, from, seen, k) <==> FirstAbove(sent, from + 1, seen, k)
    ensures NothingAbove(sent, from, seen) <==> NothingAbove(sent, from + 1, seen)
  {
  }

  /** Where the subscription stands afterwards: just behind the event handed out, at the oldest message still
    * in the ring after a lag, at the end otherwise. The last seen id changes only to the event's. */
  lemma {:induction false} LiveState(ch: Channel, s: Subscription)
    requires s.replayIdx >= |s.replay|
    ensures var (r, s') := NextOutcome(ch, s);
            && s'.replay == [] && s'.replayIdx == s.replayIdx
            && s'.lastSeenId == (if r.Delivered? then r.e.id else s.lastSeenId)
            && (r.Delivered? ==> s'.position > 0 && FirstAbove(ch.sent, s.position, s.lastSeenId, s'.position - 1)
                                 && r.e == ch.sent[s'.position - 1])
            && (r.Lagged? ==> s'.position == |ch.sent| - ch.capacity)
            && (r.Pending? || r.Closed? ==> s'.position == if s.position < |ch.sent| then |ch.sent| else s.position)
    decreases if s.position < |ch.sent| then |ch.sent| - s.position else 0
  {
    if s.position + ch.capacity >= |ch.sent| && s.position < |ch.sent| && ch.sent[s.position].id <= s.lastSeenId {
      LiveState(ch, ReadOnce(ch, s).1);
      PassedOver(ch.sent, s.position, s.lastSeenId);
    }
  }

  // ----- One call as steps of a run -----

  function Reads(n: nat): seq<Step> {
    seq(n, i requires 0 <= i < n => Read(true))
  }

  lemma {:induction false} StepsAfterFirst(w: World, first: Step, steps: seq<Step>)
    requires Enabled(w, first) && Legal(Apply(w, first), steps)
    ensures Legal(w, [first] + steps) && Run(w, [first] + steps) == Run(Apply(w, first), steps)
    decreases |steps|
  {
    hide Enabled, Apply;
    var all := [first] + steps;
    if steps == [] {
      assert all == [first] && all[..0] == [];
      assert Run(w, []) == w;
    } else {
      var front := steps[..|steps| - 1];
      StepsAfterFirst(w, first, front);
      assert all[..|all| - 1] == [first] + front && all[|all| - 1] == steps[|steps| - 1];
    }
  }

  lemma OneRead(w: World)
    requires w.phase.Live?
    ensures Enabled(w, Read(true)) && Apply(w, Read(true)) == AfterRead(w, true)
    ensures var (r, sub) := ReadOnce(w.channel, w.phase.sub);
            AfterRead(w, true)
            == w.(phase := if r.Some? && r.value.Lagged? then Idle(sub.lastSeenId) else Live(sub),
                  delivered := w.delivered + (if r.Some? && r.value.Delivered? then [r.value.e] else []))
  {
    assert w.delivered + [] == w.delivered;
  }

  /** What the client has after one call: the event it answered, and nothing else, in addition. */
  function AfterCall(w: World): World
    requires w.phase.Live?
  {
    var (r, sub) := NextOutcome(w.channel, w.phase.sub);
    w.(phase := if r.Lagged? then Idle(sub.lastSeenId) else Live(sub),
       delivered := w.delivered + (if r.Delivered? then [r.e] else []))
  }

  lemma NextIsFirstOf(w: World)
    requires w.phase.Live?
    ensures var (r, sub) := ReadOnce(w.channel, w.phase.sub);
            && (r.Some? ==> AfterCall(w) == AfterRead(w, true))
            && (r.None? ==> AfterRead(w, true) == w.(phase := Live(sub))
                            && AfterCall(w) == AfterCall(AfterRead(w, true)))
    ensures ReadOnce(w.channel, w.phase.sub).0.None? ==>
              w.phase.sub.position < |w.channel.sent|
              && ReadOnce(w.channel, w.phase.sub).1.position == w.phase.sub.position + 1
  {
    OneRead(w);
    hide AfterRead;
  }

  /** One call with nothing in between is a run of strict reads, and hands out exactly the event it answers. */
  lemma {:induction false} CallIsReads(w: World) returns (n: nat)
    requires w.phase.Live?
    ensures n >= 1 && Legal(w, Reads(n)) && Run(w, Reads(n)) == AfterCall(w)
    decreases if w.phase.sub.position < |w.channel.sent| then |w.channel.sent| - w.phase.sub.position else 0
  {
    OneRead(w);
    NextIsFirstOf(w);
    var next := AfterRead(w, true);
    hide AfterCall, AfterRead, Enabled;
    if ReadOnce(w.channel, w.phase.sub).0.Some? {
      n := 1;
      assert Legal(next, []) && Run(next, []) == next;
      StepsAfterFirst(w, Read(true), []);
      assert Reads(1) == [Read(true)] + [];
    } else {
      n := CallIsReads(next);
      StepsAfterFirst(w, Read(true), Reads(n));
      assert Reads(n + 1) == [Read(true)] + Reads(n);
      n := n + 1;
    }
  }
}
