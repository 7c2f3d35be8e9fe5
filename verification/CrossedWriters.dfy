/** Why the order of publishes matters: a run in which two writers cross (src/events/publisher.rs). */
module CrossedWriters {
  import opened Events
  import opened EventStore
  import opened Publisher
  import opened Handoff

  lemma RunNothing(w: World)
    ensures Legal(w, []) && PublishesPersisted(w, []) && Run(w, []) == w
  {
  }

  lemma RunOneMore(w: World, steps: seq<Step>, step: Step)
    requires Legal(w, steps) && PublishesPersisted(w, steps) && Enabled(Run(w, steps), step)
    requires step.Publish? ==> step.e in Run(w, steps).history
    ensures Run(w, steps + [step]) == Apply(Run(w, steps), step)
    ensures Legal(w, steps + [step]) && PublishesPersisted(w, steps + [step])
  {
    assert (steps + [step])[..|steps|] == steps;
  }

  /** The states of the run below. */
  ghost function Crossed(e1: Event, e2: Event, n: nat): World
    requires n <= 8
  {
    var w := World([], [], Channel([], BROADCAST_CAPACITY, true), 0, Idle(0), []);
    var waiting := w.(phase := Live(Subscription([], 0, 0, 0)));
    var both := waiting.(history := [e1, e2], rows := [e1, e2]);
    var sent := both.(channel := w.channel.(sent := [e2, e1]));
    if n == 0 then w
    else if n == 1 then w.(phase := Registered(0, 0))
    else if n == 2 then waiting
    else if n == 3 then waiting.(history := [e1], rows := [e1])
    else if n == 4 then both
    else if n == 5 then both.(channel := w.channel.(sent := [e2]))
    else if n == 6 then sent
    else sent.(delivered := [e2], phase := Live(Subscription([], 0, e2.id, n - 6)))
  }

  ghost function CrossedScript(e1: Event, e2: Event): seq<Step> {
    [Register, Query, Append(e1), Append(e2), Publish(e2), Publish(e1), Read(true), Read(true)]
  }

  lemma CrossedStep(e1: Event, e2: Event, n: nat)
    requires 1 <= e1.id < e2.id <= I64_MAX && n < 8
    ensures var now, step := Crossed(e1, e2, n), CrossedScript(e1, e2)[n];
            && Enabled(now, step) && Apply(now, step) == Crossed(e1, e2, n + 1)
            && (step.Publish? ==> step.e in now.history)
  {
    if n < 4 {
      CrossedAppends(e1, e2, n);
    } else if n < 6 {
      CrossedPublishes(e1, e2, n);
    } else {
      CrossedReads(e1, e2, n);
    }
  }

  lemma CrossedAppends(e1: Event, e2: Event, n: nat)
    requires 1 <= e1.id < e2.id <= I64_MAX && n < 4
    ensures var now, step := Crossed(e1, e2, n), CrossedScript(e1, e2)[n];
            Enabled(now, step) && Apply(now, step) == Crossed(e1, e2, n + 1) && !step.Publish?
  {
    if n == 1 {
      assert Backlog([], 0) == [];
    } else if n == 2 {
      assert [] + [e1] == [e1];
    } else if n == 3 {
      assert [e1] + [e2] == [e1, e2];
    }
  }

  lemma CrossedPublishes(e1: Event, e2: Event, n: nat)
    requires 1 <= e1.id < e2.id <= I64_MAX && 4 <= n < 6
    ensures var now, step := Crossed(e1, e2, n), CrossedScript(e1, e2)[n];
            && Enabled(now, step) && Apply(now, step) == Crossed(e1, e2, n + 1)
            && step.Publish? && step.e in now.history
  {
    if n == 4 {
      assert [] + [e2] == [e2];
    } else {
      assert [e2] + [e1] == [e2, e1];
    }
  }

  lemma CrossedReads(e1: Event, e2: Event, n: nat)
    requires 1 <= e1.id < e2.id <= I64_MAX && 6 <= n < 8
    ensures var now, step := Crossed(e1, e2, n), CrossedScript(e1, e2)[n];
            Enabled(now, step) && Apply(now, step) == Crossed(e1, e2, n + 1) && !step.Publish?
  {
    if n == 6 {
      assert [] + [e2] == [e2];
    }
  }

  lemma CrossedScriptLength(e1: Event, e2: Event)
    ensures |CrossedScript(e1, e2)| == 8
  {
  }

  lemma {:induction false} CrossedRun(e1: Event, e2: Event, n: nat)
    requires 1 <= e1.id < e2.id <= I64_MAX && n <= |CrossedScript(e1, e2)| == 8
    ensures var w, steps := Crossed(e1, e2, 0), CrossedScript(e1, e2)[..n];
            Legal(w, steps) && PublishesPersisted(w, steps) && Run(w, steps) == Crossed(e1, e2, n)
  {
    hide Crossed, CrossedScript, Apply, Enabled, Run, Legal, PublishesPersisted;
    var steps := CrossedScript(e1, e2);
    if n == 0 {
      RunNothing(Crossed(e1, e2, 0));
      assert steps[..0] == [];
    } else {
      CrossedRun(e1, e2, n - 1);
      CrossedStep(e1, e2, n - 1);
      RunOneMore(Crossed(e1, e2, 0), steps[..n - 1], steps[n - 1]);
      assert steps[..n - 1] + [steps[n - 1]] == steps[..n];
    }
  }

  /** Two writers that cross: both persist, then publish in the opposite order. Nothing lags, nothing is
    * pruned, and the subscribed client reads everything, yet it is never handed the first event. */
  lemma CrossedPublishesLoseAnEvent(e1: Event, e2: Event)
    requires 1 <= e1.id < e2.id <= I64_MAX
    ensures var w, steps := Crossed(e1, e2, 0), CrossedScript(e1, e2);
            && Starts(w, 0) && Legal(w, steps) && PublishesPersisted(w, steps)
            && var end := Run(w, steps);
               end.rows == [e1, e2] && end.channel.sent == [e2, e1] && end.phase.Live? && end.phase.sub.position == 2
               && end.delivered == [e2]
  {
    hide Run, Legal, PublishesPersisted, CrossedScript;
    CrossedScriptLength(e1, e2);
    CrossedRun(e1, e2, 8);
    assert CrossedScript(e1, e2)[..8] == CrossedScript(e1, e2);
  }
}
