/** Interleaved saves behave like calls on one compare-and-set register (src/files/mod.rs). */
module FileRegister {
  import opened Options
  import opened FileSaves

  datatype Call =
    | SaveCall(t: TaskId, key: Key, expected: int, outcome: Outcome)
    | ReadCall(key: Key, revision: int)
    | TrackCall(key: Key)

  /** One call on a compare-and-set register, or nothing if the register would not answer like this. */
  function Serial(reg: map<Key, int>, c: Call): Option<map<Key, int>> {
    match c
    case SaveCall(_, key, expected, Saved(r)) =>
      if key !in reg then (if r == 1 then Some(reg[key := 1]) else None)
      else if reg[key] == expected && r == expected + 1 then Some(reg[key := r]) else None
    case SaveCall(_, key, expected, StaleRevision) =>
      if key in reg && reg[key] != expected then Some(reg) else None
    case SaveCall(_, key, expected, WriteFailed) =>
      if key in reg && reg[key] != expected then None else Some(reg)
    case SaveCall(_, _, _, Cancelled) => None
    case ReadCall(key, r) =>
      if r == (if key in reg then reg[key] else 0) then Some(reg) else None
    case TrackCall(key) => Some(if key in reg then reg else reg[key := 1])
  }

  function Replay(reg: map<Key, int>, calls: seq<Call>): Option<map<Key, int>> {
    if calls == [] then Some(reg)
    else
      var before := Replay(reg, calls[..|calls| - 1]);
      if before.Some? then Serial(before.value, calls[|calls| - 1]) else None
  }

  /** What takes effect in one step: a save when its revision is set, when it is found stale, or
    * when its write fails; a read when the map is read; a tracking when it finds the file tracked or
    * assigns the revision. */
  ghost function TakesEffect(s: Sync, step: Step): seq<Call>
    requires Enabled(s, step)
  {
    match step
    case Check(t) =>
      var req := s.tasks[t].req;
      if IsStale(At(s.revisions, req.key), req.expected)
      then [SaveCall(t, req.key, req.expected, StaleRevision)] else []
    case WriteDisk(t, ok, _) =>
      var req := s.tasks[t].req;
      if s.tasks[t].phase.Writing? && !ok then [SaveCall(t, req.key, req.expected, WriteFailed)] else []
    case SetRev(t) =>
      var req := s.tasks[t].req;
      [SaveCall(t, req.key, req.expected, Saved(NextRevision(s.tasks[t].phase.current)))]
    case ReadRevision(key) => [ReadCall(key, if key in s.revisions then s.revisions[key] else 0)]
    case TrackLook(_, key, _) => if key in s.revisions then [TrackCall(key)] else []
    case TrackAssign(u) => [TrackCall(s.trackers[u].key)]
    case _ => []
  }

  /** The serial order of a run. */
  ghost function Effects(s: Sync, steps: seq<Step>): seq<Call>
    requires Legal(s, steps)
    decreases |steps|
  {
    if steps == [] then []
    else
      var prefix := steps[..|steps| - 1];
      Effects(s, prefix) + TakesEffect(Run(s, prefix), steps[|steps| - 1])
  }

  // ----- When trackings overlap saves -----

  /** What a save has read when it was checked was not stale, and holds until it sets the revision unless a
    * tracking has put the revision to 1. */
  ghost predicate RevisionInv(s: Sync) {
    forall t :: t in s.tasks && IsChecked(s.tasks[t].phase) ==> ReadHolds(s, s.tasks[t])
  }

  predicate IsChecked(p: Phase) {
    p.Writing? || p.Written?
  }

  ghost predicate ReadHolds(s: Sync, task: Task)
    requires IsChecked(task.phase)
  {
    && !IsStale(task.phase.current, task.req.expected)
    && (At(s.revisions, task.req.key) == task.phase.current || At(s.revisions, task.req.key) == Some(1))
  }

  /** A step that leaves the revisions alone and checks no save. */
  lemma ReadsStillHold(s: Sync, s': Sync)
    requires RevisionInv(s) && s'.revisions == s.revisions
    requires forall t :: t in s'.tasks && IsChecked(s'.tasks[t].phase) ==>
               t in s.tasks && IsChecked(s.tasks[t].phase) && s'.tasks[t].phase.current == s.tasks[t].phase.current
               && s'.tasks[t].req == s.tasks[t].req
    ensures RevisionInv(s')
  {
    forall t | t in s'.tasks && IsChecked(s'.tasks[t].phase) ensures ReadHolds(s', s'.tasks[t]) {
      assert ReadHolds(s, s.tasks[t]);
    }
  }

  /** Which tasks are between check and assignment, and what they read, after a step that does not check. */
  lemma CheckedBefore(s: Sync, step: Step, t: TaskId)
    requires Enabled(s, step) && !step.Check? && t in Apply(s, step).tasks && IsChecked(Apply(s, step).tasks[t].phase)
    ensures t in s.tasks && IsChecked(s.tasks[t].phase) && Apply(s, step).tasks[t].req == s.tasks[t].req
    ensures Apply(s, step).tasks[t].phase.current == s.tasks[t].phase.current
  {
    if t !in s.tasks {
      NewTaskWaits(s, step, t);
    } else if !(MovesSave(step) && step.t == t) {
      OtherTasksStay(s, step, t);
    } else if step.Cancel? {
      CancelOutcome(s, t);
      hide Apply;
    } else if IsLate(step) {
      LateStepMovesOne(s, step);
    }
  }

  lemma CheckKeepsReads(s: Sync, t: TaskId)
    requires RevisionInv(s) && Enabled(s, Check(t))
    ensures RevisionInv(Apply(s, Check(t)))
  {
    var s' := Apply(s, Check(t));
    forall u | u in s'.tasks && IsChecked(s'.tasks[u].phase) ensures ReadHolds(s', s'.tasks[u]) {
      if u != t {
        assert ReadHolds(s, s.tasks[u]);
      }
    }
  }

  lemma SetRevKeepsReads(s: Sync, t: TaskId)
    requires LockInv(s) && RevisionInv(s) && Enabled(s, SetRev(t))
    ensures RevisionInv(Apply(s, SetRev(t)))
  {
    var s' := Apply(s, SetRev(t));
    forall u | u in s'.tasks && IsChecked(s'.tasks[u].phase) ensures ReadHolds(s', s'.tasks[u]) {
      assert u != t && ReadHolds(s, s.tasks[u]);
      if s.tasks[u].req.key == s.tasks[t].req.key {
        SameKeySameTask(s, t, u);
      }
    }
  }

  lemma AssignKeepsReads(s: Sync, u: TaskId)
    requires RevisionInv(s) && Enabled(s, TrackAssign(u))
    ensures RevisionInv(Apply(s, TrackAssign(u)))
  {
    var s' := Apply(s, TrackAssign(u));
    forall t | t in s'.tasks && IsChecked(s'.tasks[t].phase) ensures ReadHolds(s', s'.tasks[t]) {
      assert ReadHolds(s, s.tasks[t]);
    }
  }

  lemma RevisionsStay(s: Sync, step: Step)
    requires Enabled(s, step) && !step.SetRev? && !step.TrackAssign?
    ensures Apply(s, step).revisions == s.revisions
  {
    if IsEarly(step) {
      EarlyStepMovesOne(s, step);
      hide Apply;
    } else if IsLate(step) {
      LateStepMovesOne(s, step);
      hide Apply;
    }
  }

  lemma RevisionInvStep(s: Sync, step: Step)
    requires LockInv(s) && RevisionInv(s) && Enabled(s, step)
    ensures RevisionInv(Apply(s, step))
  {
    hide LockInv, RevisionInv, Apply;
    match step
    case Check(t) => CheckKeepsReads(s, t);
    case SetRev(t) => SetRevKeepsReads(s, t);
    case TrackAssign(u) => AssignKeepsReads(s, u);
    case _ =>
      RevisionsStay(s, step);
      var s' := Apply(s, step);
      forall t | t in s'.tasks && IsChecked(s'.tasks[t].phase)
        ensures t in s.tasks && IsChecked(s.tasks[t].phase) && s'.tasks[t].phase.current == s.tasks[t].phase.current
             && s'.tasks[t].req == s.tasks[t].req
      {
        CheckedBefore(s, step, t);
      }
      ReadsStillHold(s, s');
  }

  lemma {:induction false} RevisionInvHolds(s: Sync, steps: seq<Step>)
    requires Initial(s) && Legal(s, steps)
    ensures RevisionInv(Run(s, steps))
    decreases |steps|
  {
    hide LockInv, Enabled, Apply;
    if steps == [] {
    } else {
      var prefix := steps[..|steps| - 1];
      LockInvHolds(s, prefix);
      RevisionInvHolds(s, prefix);
      RevisionInvStep(Run(s, prefix), steps[|steps| - 1]);
    }
  }

  /** What a step must find for the register to follow: a tracking finds its file untracked or at revision
    * 1; a save that sets its revision finds the one it read; one whose write fails finds one it expects. */
  ghost predicate RegisterFollows(s: Sync, step: Step)
    requires Enabled(s, step)
  {
    match step
    case TrackAssign(u) =>
      var key := s.trackers[u].key;
      key !in s.revisions || s.revisions[key] == 1
    case SetRev(t) => At(s.revisions, s.tasks[t].req.key) == s.tasks[t].phase.current
    case WriteDisk(t, ok, _) =>
      s.tasks[t].phase.Writing? && !ok ==> !IsStale(At(s.revisions, s.tasks[t].req.key), s.tasks[t].req.expected)
    case _ => true
  }

  /** Assigning revision 1 late, as `track_file` does after looking, is what the register does exactly
    * when the file is still untracked or at revision 1; above that it takes the revision down. */
  lemma LateTrackIsSerial(reg: map<Key, int>, key: Key)
    ensures Serial(reg, TrackCall(key)) == Some(reg[key := 1]) <==> key !in reg || reg[key] == 1
  {
    if key in reg && reg[key] != 1 {
      assert reg[key := 1][key] != reg[key];
    } else if key in reg {
      assert reg[key := 1] == reg;
    }
  }

  /** Setting the revision after a check is what the register does exactly when the read still holds. */
  lemma LateSetIsSerial(reg: map<Key, int>, t: TaskId, req: Request, current: Option<int>)
    requires !IsStale(current, req.expected) && (At(reg, req.key) == current || At(reg, req.key) == Some(1))
    ensures var rev := NextRevision(current);
             Serial(reg, SaveCall(t, req.key, req.expected, Saved(rev))) == Some(reg[req.key := rev])
             <==> At(reg, req.key) == current
  {
  }

  /** One step is one step of the register exactly under that condition. */
  lemma StepIsSerialIff(s: Sync, step: Step)
    requires RevisionInv(s) && Enabled(s, step)
    ensures |TakesEffect(s, step)| <= 1
    ensures ReplayNow(s.revisions, TakesEffect(s, step)) == Some(Apply(s, step).revisions) <==> RegisterFollows(s, step)
  {
    match step
    case TrackAssign(u) => LateTrackIsSerial(s.revisions, s.trackers[u].key);
    case SetRev(t) =>
      assert ReadHolds(s, s.tasks[t]);
      LateSetIsSerial(s.revisions, t, s.tasks[t].req, s.tasks[t].phase.current);
    case _ =>
      RevisionsStay(s, step);
      hide Apply, RevisionInv;
  }

  function ReplayNow(reg: map<Key, int>, calls: seq<Call>): Option<map<Key, int>>
    requires |calls| <= 1
  {
    if calls == [] then Some(reg) else Serial(reg, calls[0])
  }

  lemma ReplayOneMore(reg: map<Key, int>, calls: seq<Call>, now: seq<Call>)
    requires |now| <= 1 && Replay(reg, calls).Some?
    ensures Replay(reg, calls + now) == ReplayNow(Replay(reg, calls).value, now)
  {
    if now == [] {
      assert calls + now == calls;
    } else {
      assert (calls + now)[..|calls|] == calls;
    }
  }

  /** At every step of the run. */
  ghost predicate AlwaysFollows(s: Sync, steps: seq<Step>)
    requires Legal(s, steps)
    decreases |steps|
  {
    steps == [] ||
    (AlwaysFollows(s, steps[..|steps| - 1]) && RegisterFollows(Run(s, steps[..|steps| - 1]), steps[|steps| - 1]))
  }

  /** The serial history up to now ends in the revisions the run has now. */
  ghost predicate IsSerial(s: Sync, steps: seq<Step>)
    requires Legal(s, steps)
  {
    Replay(s.revisions, Effects(s, steps)) == Some(Run(s, steps).revisions)
  }

  ghost predicate AlwaysSerial(s: Sync, steps: seq<Step>)
    requires Legal(s, steps)
    decreases |steps|
  {
    IsSerial(s, steps) && (steps == [] || AlwaysSerial(s, steps[..|steps| - 1]))
  }

  /** Every interleaving of saves, cancellations, reads and trackings is at every moment a serial history
    * of the compare-and-set register that ends in the current revisions, if and only if no tracking
    * has interfered with a save. */
  lemma {:induction false} SavesRefineRegister(s: Sync, steps: seq<Step>)
    requires Initial(s) && Legal(s, steps)
    ensures AlwaysSerial(s, steps) <==> AlwaysFollows(s, steps)
    decreases |steps|
  {
    hide Replay, RegisterFollows, TakesEffect, Serial, Enabled, Apply, RevisionInv, Initial;
    if steps == [] {
      NoEffects(s);
    } else {
      var prefix, step := steps[..|steps| - 1], steps[|steps| - 1];
      SavesRefineRegister(s, prefix);
      RevisionInvHolds(s, prefix);
      StepIsSerialIff(Run(s, prefix), step);
      if AlwaysSerial(s, prefix) {
        assert IsSerial(s, prefix);
        ReplayOneMore(s.revisions, Effects(s, prefix), TakesEffect(Run(s, prefix), step));
      }
    }
  }

  lemma NoEffects(s: Sync)
    ensures IsSerial(s, []) && AlwaysFollows(s, [])
  {
  }

  /** No save of the file is in its guarded section. */
  ghost predicate IsUnguarded(s: Sync, key: Key) {
    forall t :: t in s.tasks && s.tasks[t].req.key == key ==> !Guarded(s.tasks[t].phase)
  }

  /** Every tracking assigns its revision while its file is untracked or at revision 1 and no save of it is
    * in its guarded section. */
  ghost predicate TracksApart(s: Sync, steps: seq<Step>)
    requires Legal(s, steps)
    decreases |steps|
  {
    steps == [] ||
    (var now, step := Run(s, steps[..|steps| - 1]), steps[|steps| - 1];
     && TracksApart(s, steps[..|steps| - 1])
     && (step.TrackAssign? ==>
           var key := now.trackers[step.u].key;
           IsUnguarded(now, key) && (key !in now.revisions || now.revisions[key] == 1)))
  }

  ghost predicate ReadsExact(s: Sync) {
    forall t :: t in s.tasks && IsChecked(s.tasks[t].phase) ==>
      At(s.revisions, s.tasks[t].req.key) == s.tasks[t].phase.current
  }

  lemma ApartStep(s: Sync, step: Step)
    requires LockInv(s) && RevisionInv(s) && ReadsExact(s) && Enabled(s, step)
    requires step.TrackAssign? ==> IsUnguarded(s, s.trackers[step.u].key)
    ensures ReadsExact(Apply(s, step))
  {
    var s' := Apply(s, step);
    forall t | t in s'.tasks && IsChecked(s'.tasks[t].phase)
      ensures At(s'.revisions, s'.tasks[t].req.key) == s'.tasks[t].phase.current
    {
      if step.Check? {
        assert s'.revisions == s.revisions;
      } else {
        CheckedBefore(s, step, t);
        if step.SetRev? && s.tasks[t].req.key == s.tasks[step.t].req.key {
          SameKeySameTask(s, t, step.t);
        }
        if !step.SetRev? && !step.TrackAssign? {
          RevisionsStay(s, step);
        }
      }
    }
  }

  lemma {:induction false} ApartFollows(s: Sync, steps: seq<Step>)
    requires Initial(s) && Legal(s, steps) && TracksApart(s, steps)
    ensures ReadsExact(Run(s, steps)) && AlwaysFollows(s, steps)
    decreases |steps|
  {
    if steps == [] {
    } else {
      var prefix, step := steps[..|steps| - 1], steps[|steps| - 1];
      LockInvHolds(s, prefix);
      RevisionInvHolds(s, prefix);
      ApartFollows(s, prefix);
      hide LockInv, Apply, Initial, IsUnguarded;
      ApartStep(Run(s, prefix), step);
      ExactFollows(Run(s, prefix), step);
    }
  }

  lemma ExactFollows(s: Sync, step: Step)
    requires RevisionInv(s) && ReadsExact(s) && Enabled(s, step)
    requires step.TrackAssign? ==>
               var key := s.trackers[step.u].key;
               key !in s.revisions || s.revisions[key] == 1
    ensures RegisterFollows(s, step)
  {
    if step.WriteDisk? && s.tasks[step.t].phase.Writing? {
      assert ReadHolds(s, s.tasks[step.t]);
    }
  }

  /** A run in which trackings stay apart from saves is serial at every moment. */
  lemma {:induction false} ApartTrackingsAreSerial(s: Sync, steps: seq<Step>)
    requires Initial(s) && Legal(s, steps) && TracksApart(s, steps)
    ensures AlwaysSerial(s, steps)
  {
    ApartFollows(s, steps);
    SavesRefineRegister(s, steps);
  }

  // ----- Every caller gets the outcome of its own place in the serial order -----

  ghost function CallsOf(calls: seq<Call>, t: TaskId): seq<Call> {
    if calls == [] then []
    else
      var last := calls[|calls| - 1];
      CallsOf(calls[..|calls| - 1], t) + (if last.SaveCall? && last.t == t then [last] else [])
  }

  /** The part of the serial order that belongs to a save in a given phase. */
  ghost predicate Accounts(task: Task, t: TaskId, calls: seq<Call>) {
    var p := task.phase;
    match p
    case Waiting(_) => calls == []
    case Locked(_) => calls == []
    case Writing(_, _) => calls == []
    case Written(_, _) => calls == []
    case Detached(_) => calls == []
    case Recorded(_, current) => calls == [SaveCall(t, task.req.key, task.req.expected, Saved(NextRevision(current)))]
    case Finishing(_, o, _) => AccountsFor(task.req, t, o, calls)
    case Unlocked(_, o, _) => AccountsFor(task.req, t, o, calls)
    case Collecting(o) => AccountsFor(task.req, t, o, calls)
    case Done(o) => AccountsFor(task.req, t, o, calls)
  }

  /** A finished save stands in the order exactly once, with the outcome its caller sees; a cancelled
    * one at most once, as a save that went through. */
  ghost predicate AccountsFor(req: Request, t: TaskId, o: Outcome, calls: seq<Call>) {
    if o.Cancelled? then
      calls == [] || (exists r :: calls == [SaveCall(t, req.key, req.expected, Saved(r))])
    else calls == [SaveCall(t, req.key, req.expected, o)]
  }

  ghost predicate Accounted(s: Sync, t: TaskId, calls: seq<Call>) {
    if t in s.tasks then Accounts(s.tasks[t], t, calls) else calls == []
  }

  lemma AccountsStep(s: Sync, step: Step, t: TaskId, calls: seq<Call>)
    requires Enabled(s, step) && Accounted(s, t, calls)
    ensures |TakesEffect(s, step)| <= 1
    ensures Accounted(Apply(s, step), t, calls + CallsOf(TakesEffect(s, step), t))
  {
    if t in s.tasks && MovesSave(step) && step.t == t {
      OwnStepAccounts(s, step, calls);
    } else {
      NoCallOfOthers(s, step, t);
      hide Apply, Enabled, TakesEffect, CallsOf;
      assert calls + [] == calls;
      if t in s.tasks {
        OtherTasksStay(s, step, t);
      } else if t in Apply(s, step).tasks {
        NewTaskWaits(s, step, t);
      }
    }
  }

  lemma NoCallOfOthers(s: Sync, step: Step, t: TaskId)
    requires Enabled(s, step) && !(t in s.tasks && MovesSave(step) && step.t == t)
    ensures |TakesEffect(s, step)| <= 1 && CallsOf(TakesEffect(s, step), t) == []
  {
    var now := TakesEffect(s, step);
    if now != [] {
      assert now[..0] == [] && !(now[0].SaveCall? && now[0].t == t);
    }
  }

  lemma OwnStepAccounts(s: Sync, step: Step, calls: seq<Call>)
    requires Enabled(s, step) && MovesSave(step) && Accounted(s, step.t, calls)
    ensures |TakesEffect(s, step)| <= 1
    ensures Accounted(Apply(s, step), step.t, calls + CallsOf(TakesEffect(s, step), step.t))
  {
    assert calls + [] == calls;
    if IsEarly(step) {
      EarlyStepAccounts(s, step, calls);
    } else if step.Cancel? {
      CancelOutcome(s, step.t);
      hide Apply;
    } else if step.Collect? {
      CollectOutcome(s, step.t);
      hide Apply;
    } else {
      DropOutcome(s, step);
      hide Apply;
    }
  }

  lemma EarlyStepAccounts(s: Sync, step: Step, calls: seq<Call>)
    requires Enabled(s, step) && IsEarly(step) && Accounted(s, step.t, calls)
    ensures |TakesEffect(s, step)| <= 1
    ensures Accounted(Apply(s, step), step.t, calls + CallsOf(TakesEffect(s, step), step.t))
  {
    CallsOfShort(calls, TakesEffect(s, step), step.t);
    EarlyPhase(s, step, calls);
    hide CallsOf, Apply;
  }

  lemma CallsOfShort(calls: seq<Call>, now: seq<Call>, t: TaskId)
    requires |now| <= 1
    ensures now == [] || (now[0].SaveCall? && now[0].t == t && calls == []) ==> calls + CallsOf(now, t) == calls + now
    ensures calls + [] == calls && [] + now == now
  {
    if now != [] {
      assert now[..0] == [] && now == [now[0]];
    }
  }

  /** How an early step moves a save on, and which call it adds. */
  lemma EarlyPhase(s: Sync, step: Step, calls: seq<Call>)
    requires Enabled(s, step) && IsEarly(step) && Accounted(s, step.t, calls)
    ensures var now, task := TakesEffect(s, step), Apply(s, step).tasks[step.t];
            && step.t in Apply(s, step).tasks && task.req == s.tasks[step.t].req
            && |now| <= 1 && (now == [] || (now[0].SaveCall? && now[0].t == step.t && calls == []))
            && Accounts(task, step.t, calls + now)
  {
    assert calls + [] == calls;
    match step
    case Check(t) => assert calls == [];
    case WriteDisk(t, _, _) => assert calls == [];
    case SetRev(t) => assert calls == [];
    case _ =>
  }

  lemma {:induction false} EachSaveTakesEffectOnce(s: Sync, steps: seq<Step>, t: TaskId)
    requires Initial(s) && Legal(s, steps)
    ensures Accounted(Run(s, steps), t, CallsOf(Effects(s, steps), t))
    decreases |steps|
  {
    if steps == [] {
    } else {
      var prefix := steps[..|steps| - 1];
      EachSaveTakesEffectOnce(s, prefix, t);
      AccountsStep(Run(s, prefix), steps[|steps| - 1], t, CallsOf(Effects(s, prefix), t));
      hide Accounted, Apply, Enabled, TakesEffect, CallsOf;
      CallsOfOneMore(Effects(s, prefix), TakesEffect(Run(s, prefix), steps[|steps| - 1]), t);
    }
  }

  lemma CallsOfOneMore(calls: seq<Call>, now: seq<Call>, t: TaskId)
    requires |now| <= 1
    ensures CallsOf(calls + now, t) == CallsOf(calls, t) + CallsOf(now, t)
  {
    if now == [] {
      assert calls + now == calls;
    } else {
      assert (calls + now)[..|calls|] == calls && now[..0] == [];
    }
  }

  /** A caller that was answered got the answer of its one place in the serial order. */
  lemma {:induction false} AnswersAreSerial(s: Sync, steps: seq<Step>, t: TaskId)
    requires Initial(s) && Legal(s, steps)
    requires t in Run(s, steps).tasks && Run(s, steps).tasks[t].phase.Done?
            && !Run(s, steps).tasks[t].phase.outcome.Cancelled?
    ensures var task := Run(s, steps).tasks[t];
            CallsOf(Effects(s, steps), t) == [SaveCall(t, task.req.key, task.req.expected, task.phase.outcome)]
  {
    EachSaveTakesEffectOnce(s, steps, t);
  }

  lemma {:induction false} EffectsExtend(s: Sync, steps: seq<Step>, n: nat)
    requires Legal(s, steps) && n <= |steps|
    ensures Legal(s, steps[..n]) && Effects(s, steps[..n]) <= Effects(s, steps)
    decreases |steps|
  {
    if n == |steps| {
      assert steps[..n] == steps;
    } else {
      EffectsExtend(s, steps[..|steps| - 1], n);
      assert steps[..|steps| - 1][..n] == steps[..n];
    }
  }

  lemma {:induction false} NoCallsNoEntry(calls: seq<Call>, t: TaskId, i: nat)
    requires i < |calls| && calls[i].SaveCall? && calls[i].t == t
    ensures CallsOf(calls, t) != []
    decreases |calls|
  {
    if i == |calls| - 1 {
    } else {
      NoCallsNoEntry(calls[..|calls| - 1], t, i);
    }
  }

  lemma {:induction false} EntryAddsCall(calls: seq<Call>, n: nat, t: TaskId, i: nat)
    requires n <= i < |calls| && calls[i].SaveCall? && calls[i].t == t
    ensures |CallsOf(calls[..n], t)| < |CallsOf(calls, t)|
    decreases |calls|
  {
    var prefix := calls[..|calls| - 1];
    assert prefix[..n] == calls[..n];
    if i < |calls| - 1 {
      EntryAddsCall(prefix, n, t, i);
    } else {
      CallsGrow(prefix, n, t);
    }
  }

  lemma {:induction false} CallsGrow(calls: seq<Call>, n: nat, t: TaskId)
    requires n <= |calls|
    ensures |CallsOf(calls[..n], t)| <= |CallsOf(calls, t)|
    decreases |calls|
  {
    if n == |calls| {
      assert calls[..n] == calls;
    } else {
      CallsGrow(calls[..|calls| - 1], n, t);
      assert calls[..|calls| - 1][..n] == calls[..n];
    }
  }

  lemma DoneStaysDone(s: Sync, step: Step, t: TaskId)
    requires Enabled(s, step) && t in s.tasks && s.tasks[t].phase.Done?
    ensures t in Apply(s, step).tasks && Apply(s, step).tasks[t] == s.tasks[t]
  {
    assert !(MovesSave(step) && step.t == t);
    hide Apply, Enabled;
    OtherTasksStay(s, step, t);
  }

  lemma {:induction false} AnswerIsFinal(s: Sync, steps: seq<Step>, n: nat, t: TaskId)
    requires Legal(s, steps) && n <= |steps| && Legal(s, steps[..n])
    requires t in Run(s, steps[..n]).tasks && Run(s, steps[..n]).tasks[t].phase.Done?
    ensures t in Run(s, steps).tasks && Run(s, steps).tasks[t] == Run(s, steps[..n]).tasks[t]
    decreases |steps|
  {
    if n == |steps| {
      assert steps[..n] == steps;
    } else {
      var prefix := steps[..|steps| - 1];
      assert prefix[..n] == steps[..n];
      AnswerIsFinal(s, prefix, n, t);
      DoneStaysDone(Run(s, prefix), steps[|steps| - 1], t);
    }
  }

  /** The serial order respects real time: if one save was answered before another began, its place in
    * the order is the earlier one. */
  lemma {:induction false} OrderRespectsRealTime(
    s: Sync, steps: seq<Step>, n: nat, first: TaskId, later: TaskId, i: nat, j: nat)
    requires Initial(s) && Legal(s, steps) && n <= |steps| && Legal(s, steps[..n])
    requires first in Run(s, steps[..n]).tasks && later !in Run(s, steps[..n]).tasks
    requires Run(s, steps[..n]).tasks[first].phase.Done? && !Run(s, steps[..n]).tasks[first].phase.outcome.Cancelled?
    requires i < |Effects(s, steps)| && j < |Effects(s, steps)|
    requires Effects(s, steps)[i].SaveCall? && Effects(s, steps)[i].t == first
    requires Effects(s, steps)[j].SaveCall? && Effects(s, steps)[j].t == later
    ensures i < j
  {
    hide Initial, Legal, Effects, Run;
    AnsweredIsPlaced(s, steps, n, first, i);
    UnbegunIsLater(s, steps, n, later, j);
  }

  /** The place in the serial order of the call that takes effect in step `n`. A read is one step; a
    * tracking takes effect in one of its own steps. */
  ghost function PlaceOf(s: Sync, steps: seq<Step>, n: nat): nat
    requires Legal(s, steps) && n <= |steps|
  {
    EffectsExtend(s, steps, n);
    |Effects(s, steps[..n])|
  }

  ghost predicate TakesEffectAt(s: Sync, steps: seq<Step>, n: nat)
    requires Legal(s, steps) && n < |steps|
  {
    EffectsExtend(s, steps, n);
    EffectsExtend(s, steps, n + 1);
    assert steps[..n + 1][..n] == steps[..n];
    TakesEffect(Run(s, steps[..n]), steps[n]) != []
  }

  lemma EffectPlace(s: Sync, steps: seq<Step>, n: nat)
    requires Legal(s, steps) && n < |steps| && TakesEffectAt(s, steps, n)
    ensures Legal(s, steps[..n]) && Enabled(Run(s, steps[..n]), steps[n])
    ensures PlaceOf(s, steps, n) < PlaceOf(s, steps, n + 1) <= |Effects(s, steps)|
    ensures Effects(s, steps)[PlaceOf(s, steps, n)] == TakesEffect(Run(s, steps[..n]), steps[n])[0]
  {
    EffectsExtend(s, steps, n);
    EffectsExtend(s, steps, n + 1);
    assert steps[..n + 1][..n] == steps[..n] && steps[..n + 1][n] == steps[n];
    hide TakesEffect, Enabled, Apply;
    var early, now := Effects(s, steps[..n]), TakesEffect(Run(s, steps[..n]), steps[n]);
    assert Effects(s, steps[..n + 1]) == early + now && (early + now)[|early|] == now[0];
  }

  /** Reads and trackings keep their real-time order, among themselves and with saves: a save answered
    * before the step has an earlier place, one that begins after it a later one. */
  lemma {:induction false} InstantCallsRespectRealTime(s: Sync, steps: seq<Step>, n: nat, t: TaskId, i: nat)
    requires Initial(s) && Legal(s, steps) && n < |steps| && TakesEffectAt(s, steps, n)
    requires i < |Effects(s, steps)| && Effects(s, steps)[i].SaveCall? && Effects(s, steps)[i].t == t
    ensures Legal(s, steps[..n]) && Legal(s, steps[..n + 1])
    ensures var before := Run(s, steps[..n]);
            t in before.tasks && before.tasks[t].phase.Done? && !before.tasks[t].phase.outcome.Cancelled? ==>
              i < PlaceOf(s, steps, n)
    ensures t !in Run(s, steps[..n + 1]).tasks ==> PlaceOf(s, steps, n) < i
    ensures forall m :: n < m < |steps| && TakesEffectAt(s, steps, m) ==> PlaceOf(s, steps, n) < PlaceOf(s, steps, m)
  {
    EffectPlace(s, steps, n);
    EffectsExtend(s, steps, n);
    EffectsExtend(s, steps, n + 1);
    hide TakesEffect, Enabled, Apply, Initial, TakesEffectAt, Effects;
    var before := Run(s, steps[..n]);
    if t in before.tasks && before.tasks[t].phase.Done? && !before.tasks[t].phase.outcome.Cancelled? {
      AnsweredIsPlaced(s, steps, n, t, i);
    }
    if t !in Run(s, steps[..n + 1]).tasks {
      UnbegunIsLater(s, steps, n + 1, t, i);
    }
    forall m | n < m < |steps| && TakesEffectAt(s, steps, m) ensures PlaceOf(s, steps, n) < PlaceOf(s, steps, m) {
      PlacesGrow(s, steps, n + 1, m);
    }
  }

  lemma PlacesGrow(s: Sync, steps: seq<Step>, n: nat, m: nat)
    requires Legal(s, steps) && n <= m <= |steps|
    ensures PlaceOf(s, steps, n) <= PlaceOf(s, steps, m)
  {
    hide Legal, Effects;
    EffectsExtend(s, steps, m);
    EffectsExtend(s, steps[..m], n);
    assert steps[..m][..n] == steps[..n];
  }

  lemma UnbegunIsLater(s: Sync, steps: seq<Step>, n: nat, t: TaskId, i: nat)
    requires Initial(s) && Legal(s, steps) && n <= |steps| && Legal(s, steps[..n]) && t !in Run(s, steps[..n]).tasks
    requires i < |Effects(s, steps)| && Effects(s, steps)[i].SaveCall? && Effects(s, steps)[i].t == t
    ensures i >= |Effects(s, steps[..n])|
  {
    var calls, early := Effects(s, steps), Effects(s, steps[..n]);
    EffectsExtend(s, steps, n);
    assert calls[..|early|] == early;
    EachSaveTakesEffectOnce(s, steps[..n], t);
    if i < |early| {
      NoCallsNoEntry(early, t, i);
    }
  }

  lemma AnsweredIsPlaced(s: Sync, steps: seq<Step>, n: nat, t: TaskId, i: nat)
    requires Initial(s) && Legal(s, steps) && n <= |steps| && Legal(s, steps[..n])
    requires t in Run(s, steps[..n]).tasks && Run(s, steps[..n]).tasks[t].phase.Done?
    requires !Run(s, steps[..n]).tasks[t].phase.outcome.Cancelled?
    requires i < |Effects(s, steps)| && Effects(s, steps)[i].SaveCall? && Effects(s, steps)[i].t == t
    ensures i < |Effects(s, steps[..n])|
  {
    var calls, early := Effects(s, steps), Effects(s, steps[..n]);
    EffectsExtend(s, steps, n);
    assert calls[..|early|] == early;
    EachSaveTakesEffectOnce(s, steps[..n], t);
    AnswerIsFinal(s, steps, n, t);
    EachSaveTakesEffectOnce(s, steps, t);
    if |early| <= i {
      EntryAddsCall(calls, |early|, t, i);
    }
  }

  // ----- What the serial register guarantees -----

  function SavesOf(calls: seq<Call>, key: Key): nat {
    if calls == [] then 0
    else
      var last := calls[|calls| - 1];
      SavesOf(calls[..|calls| - 1], key) + (if last.SaveCall? && last.key == key && last.outcome.Saved? then 1 else 0)
  }

  lemma {:induction false} ReplayPrefix(reg: map<Key, int>, calls: seq<Call>, n: nat)
    requires Replay(reg, calls).Some? && n <= |calls|
    ensures Replay(reg, calls[..n]).Some?
    decreases |calls|
  {
    if n == |calls| {
      assert calls[..n] == calls;
    } else {
      ReplayPrefix(reg, calls[..|calls| - 1], n);
      assert calls[..|calls| - 1][..n] == calls[..n];
    }
  }

  /** The register before call `n` of a serial history. */
  ghost function RegisterAt(reg: map<Key, int>, calls: seq<Call>, n: nat): map<Key, int>
    requires Replay(reg, calls).Some? && n <= |calls|
  {
    ReplayPrefix(reg, calls, n);
    Replay(reg, calls[..n]).value
  }

  /** From the moment a key is tracked its revision grows by one with every successful save. */
  lemma {:induction false} RevisionCountsSaves(reg: map<Key, int>, calls: seq<Call>, n: nat, key: Key)
    requires Replay(reg, calls).Some? && n <= |calls| && key in RegisterAt(reg, calls, n)
    ensures var end := Replay(reg, calls).value;
            && SavesOf(calls[..n], key) <= SavesOf(calls, key)
            && key in end && end[key] == RegisterAt(reg, calls, n)[key] + SavesOf(calls, key) - SavesOf(calls[..n], key)
    decreases |calls|
  {
    if n == |calls| {
      assert calls[..n] == calls;
    } else {
      var prefix := calls[..|calls| - 1];
      assert prefix[..n] == calls[..n];
      RevisionCountsSaves(reg, prefix, n, key);
    }
  }

  /** The successful saves of a tracked key expect strictly increasing revisions, so at most one save
    * per expected revision succeeds. */
  lemma OneSavePerExpectedRevision(reg: map<Key, int>, calls: seq<Call>, i: nat, j: nat)
    requires Replay(reg, calls).Some? && i < j < |calls|
    requires calls[i].SaveCall? && calls[j].SaveCall? && calls[i].outcome.Saved? && calls[j].outcome.Saved?
    requires calls[i].key == calls[j].key && calls[i].key in RegisterAt(reg, calls, i)
    ensures calls[i].expected < calls[j].expected
  {
    var key := calls[i].key;
    ReplayPrefix(reg, calls, i + 1);
    ReplayPrefix(reg, calls, j);
    ReplayPrefix(reg, calls, j + 1);
    assert calls[..i + 1][..i] == calls[..i] && calls[..j + 1][..j] == calls[..j];
    assert calls[..j][..i + 1] == calls[..i + 1];
    RevisionCountsSaves(reg, calls[..j], i + 1, key);
  }

  ghost predicate SuccessOf(c: Call, key: Key) {
    c.SaveCall? && c.key == key && c.outcome.Saved?
  }

  /** In any run that is a serial history of the register, a file tracked before place `i` of the serial
    * order ends at the revision it had there plus the number of successful saves since, and two saves
    * that went through from there on never expected the same revision. */
  lemma {:induction false} TrackedFilesAreCompareAndSet(s: Sync, steps: seq<Step>, key: Key, i: nat)
    requires Initial(s) && Legal(s, steps) && IsSerial(s, steps) && i <= |Effects(s, steps)|
    requires Replay(s.revisions, Effects(s, steps)).Some? && key in RegisterAt(s.revisions, Effects(s, steps), i)
    ensures var calls, end := Effects(s, steps), Run(s, steps).revisions;
            key in end
            && end[key] == RegisterAt(s.revisions, calls, i)[key] + SavesOf(calls, key) - SavesOf(calls[..i], key)
    ensures var calls := Effects(s, steps);
            forall j, k :: i <= j < k < |calls| && SuccessOf(calls[j], key) && SuccessOf(calls[k], key) ==>
              calls[j].expected < calls[k].expected
  {
    var calls := Effects(s, steps);
    RevisionCountsSaves(s.revisions, calls, i, key);
    forall j, k | i <= j < k < |calls| && SuccessOf(calls[j], key) && SuccessOf(calls[k], key)
      ensures calls[j].expected < calls[k].expected
    {
      ReplayPrefix(s.revisions, calls, j);
      assert calls[..j][..i] == calls[..i];
      RevisionCountsSaves(s.revisions, calls[..j], i, key);
      OneSavePerExpectedRevision(s.revisions, calls, j, k);
    }
  }
}
