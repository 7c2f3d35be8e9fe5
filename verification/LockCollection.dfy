/** Exactly which lock entries stay behind (src/files/mod.rs). */
module LockCollection {
  import opened Options
  import opened LruCaches
  import opened FileSaves
  import opened FileSync

  /** Some save of the key has a reference to its mutex. */
  ghost predicate Referenced(s: Sync, k: Key) {
    exists t :: t in s.tasks && s.tasks[t].req.key == k && HasArc(s.tasks[t].phase)
  }

  /** The step in which a save gives up its last reference. */
  ghost predicate GivesUp(s: Sync, step: Step)
    requires Enabled(s, step)
  {
    step.DropArc? || (step.WriteDisk? && s.tasks[step.t].phase.Detached?)
  }

  /** Of the references to the key's mutex given up and the collections of the key so far, the last was a
    * reference; at the beginning, whether there is an entry. */
  ghost predicate LastGivenUp(s: Sync, steps: seq<Step>, k: Key)
    requires Legal(s, steps)
    decreases |steps|
  {
    if steps == [] then k in s.locks
    else
      GivenUpAfter(Run(s, steps[..|steps| - 1]), steps[|steps| - 1], k, LastGivenUp(s, steps[..|steps| - 1], k))
  }

  ghost predicate GivenUpAfter(s: Sync, step: Step, k: Key, before: bool)
    requires Enabled(s, step)
  {
    if GivesUp(s, step) && s.tasks[step.t].req.key == k then true
    else if step.Collect? && s.tasks[step.t].req.key == k then false
    else before
  }

  ghost predicate EntryInv(s: Sync, k: Key, givenUp: bool) {
    k in s.locks <==> Referenced(s, k) || givenUp
  }

  lemma ReferencedHasEntry(s: Sync, k: Key)
    requires LockInv(s) && Referenced(s, k)
    ensures k in s.locks
  {
    var t :| t in s.tasks && s.tasks[t].req.key == k && HasArc(s.tasks[t].phase);
    assert TaskHolds(s, t);
  }

  /** Without references of its saves the entry's mutex has no clone at all. */
  lemma UnreferencedHasNoClones(s: Sync, k: Key)
    requires LockInv(s) && k in s.locks && !Referenced(s, k)
    ensures StrongCount(s, s.locks[k]) == 1
  {
    forall t | t in s.tasks && HasArc(s.tasks[t].phase) ensures s.tasks[t].phase.m != s.locks[k] {
      assert TaskHolds(s, t);
    }
    hide StrongCount;
    NoClonesNoCount(s, k);
  }

  /** A task of the key after the step with a reference, or one before. */
  lemma ReferencesStay(s: Sync, s': Sync, k: Key)
    requires forall t :: t in s.tasks ==> t in s'.tasks && s'.tasks[t].req == s.tasks[t].req
    requires forall t :: t in s'.tasks && HasArc(s'.tasks[t].phase) && s'.tasks[t].req.key == k ==> t in s.tasks
    requires forall t :: t in s.tasks && s.tasks[t].req.key == k ==>
               (HasArc(s.tasks[t].phase) <==> HasArc(s'.tasks[t].phase))
    ensures Referenced(s', k) <==> Referenced(s, k)
  {
    hide HasArc;
    if Referenced(s, k) {
      var t :| t in s.tasks && s.tasks[t].req.key == k && HasArc(s.tasks[t].phase);
      assert t in s'.tasks && s'.tasks[t].req.key == k && HasArc(s'.tasks[t].phase);
    }
    if Referenced(s', k) {
      var t :| t in s'.tasks && s'.tasks[t].req.key == k && HasArc(s'.tasks[t].phase);
      assert t in s.tasks && s.tasks[t].req.key == k && HasArc(s.tasks[t].phase);
    }
  }

  lemma BeginKeepsEntry(s: Sync, t: TaskId, req: Request, k: Key, givenUp: bool)
    requires EntryInv(s, k, givenUp) && Enabled(s, Begin(t, req))
    ensures EntryInv(Apply(s, Begin(t, req)), k, givenUp)
  {
    var s' := Apply(s, Begin(t, req));
    assert s'.tasks[t].req == req && HasArc(s'.tasks[t].phase);
    assert t !in s.tasks && s'.tasks == s.tasks[t := s'.tasks[t]];
    if k == req.key {
      assert k in s'.locks;
    } else {
      assert k in s'.locks <==> k in s.locks;
      hide HasArc, Apply, LockFor;
      ReferencesStay(s, s', k);
    }
  }

  lemma GiveUpKeepsEntry(s: Sync, step: Step, k: Key, givenUp: bool)
    requires LockInv(s) && EntryInv(s, k, givenUp) && Enabled(s, step) && GivesUp(s, step)
    ensures EntryInv(Apply(s, step), k, GivenUpAfter(s, step, k, givenUp))
  {
    var s', t := Apply(s, step), step.t;
    GiveUpOutcome(s, step);
    if s.tasks[t].req.key == k {
      assert TaskHolds(s, t);
    } else {
      hide HasArc, Apply;
      ReferencesStay(s, s', k);
    }
  }

  lemma GiveUpOutcome(s: Sync, step: Step)
    requires Enabled(s, step) && GivesUp(s, step)
    ensures HasArc(s.tasks[step.t].phase) && Apply(s, step).locks == s.locks
    ensures Apply(s, step).tasks == s.tasks[step.t := Apply(s, step).tasks[step.t]]
    ensures Apply(s, step).tasks[step.t].req == s.tasks[step.t].req
  {
    if step.DropArc? {
      DropOutcome(s, step);
    } else {
      EarlyStepMovesOne(s, step);
    }
  }

  lemma CollectKeepsEntry(s: Sync, t: TaskId, k: Key, givenUp: bool)
    requires LockInv(s) && EntryInv(s, k, givenUp) && Enabled(s, Collect(t))
    ensures EntryInv(Apply(s, Collect(t)), k, GivenUpAfter(s, Collect(t), k, givenUp))
  {
    var s' := Apply(s, Collect(t));
    CollectOutcome(s, t);
    CollectedEntry(s, t, k);
    assert !HasArc(s.tasks[t].phase) && !HasArc(s'.tasks[t].phase);
    hide HasArc, Apply, StrongCount;
    ReferencesStay(s, s', k);
    if s.tasks[t].req.key == k && k in s.locks {
      if Referenced(s, k) {
        ReferencedIsCounted(s, k);
      } else {
        UnreferencedHasNoClones(s, k);
      }
    }
  }

  lemma CollectedEntry(s: Sync, t: TaskId, k: Key)
    requires Enabled(s, Collect(t))
    ensures k in Apply(s, Collect(t)).locks
       <==> k in s.locks && !(s.tasks[t].req.key == k && StrongCount(s, s.locks[k]) == 1)
  {
    hide StrongCount;
  }

  /** A reference of a save of the key counts. */
  lemma ReferencedIsCounted(s: Sync, k: Key)
    requires LockInv(s) && Referenced(s, k) && k in s.locks
    ensures StrongCount(s, s.locks[k]) != 1
  {
    var t :| t in s.tasks && s.tasks[t].req.key == k && HasArc(s.tasks[t].phase);
    assert TaskHolds(s, t);
    hide StrongCount;
    if StrongCount(s, s.locks[k]) == 1 {
      SoleCountMeansNoClones(s, k);
    }
  }

  /** A step that neither begins, gives up nor collects leaves every reference where it is. */
  lemma OtherStepKeepsEntry(s: Sync, step: Step, k: Key, givenUp: bool)
    requires EntryInv(s, k, givenUp) && Enabled(s, step)
    requires !step.Begin? && !step.Collect? && !GivesUp(s, step)
    ensures EntryInv(Apply(s, step), k, givenUp)
  {
    var s' := Apply(s, step);
    LocksStay(s, step);
    forall t | t in s.tasks
      ensures t in s'.tasks && s'.tasks[t].req == s.tasks[t].req
      ensures HasArc(s.tasks[t].phase) <==> HasArc(s'.tasks[t].phase)
    {
      ReferenceStays(s, step, t);
    }
    forall t | t in s'.tasks ensures t in s.tasks {
      if t !in s.tasks {
        NewTaskWaits(s, step, t);
      }
    }
    hide HasArc, Apply, Enabled, GivesUp;
    ReferencesStay(s, s', k);
  }

  lemma LocksStay(s: Sync, step: Step)
    requires Enabled(s, step) && !step.Begin? && !step.Collect?
    ensures Apply(s, step).locks == s.locks
  {
    if IsEarly(step) {
      EarlyStepMovesOne(s, step);
      hide Apply;
    } else if IsLate(step) {
      LateStepMovesOne(s, step);
      hide Apply;
    }
  }

  lemma ReferenceStays(s: Sync, step: Step, t: TaskId)
    requires Enabled(s, step) && t in s.tasks && !step.Begin? && !step.Collect? && !GivesUp(s, step)
    ensures t in Apply(s, step).tasks && Apply(s, step).tasks[t].req == s.tasks[t].req
    ensures HasArc(Apply(s, step).tasks[t].phase) <==> HasArc(s.tasks[t].phase)
  {
    if !(MovesSave(step) && step.t == t) {
      OtherTasksStay(s, step, t);
      hide Apply, Enabled, HasArc;
    } else if IsEarly(step) {
      EarlyStepKeepsArc(s, step);
    } else if step.Cancel? {
      CancelOutcome(s, t);
      hide Apply;
    } else {
      DropOutcome(s, step);
      hide Apply;
    }
  }

  lemma StepKeepsEntry(s: Sync, step: Step, k: Key, givenUp: bool)
    requires LockInv(s) && EntryInv(s, k, givenUp) && Enabled(s, step)
    ensures EntryInv(Apply(s, step), k, GivenUpAfter(s, step, k, givenUp))
  {
    hide LockInv, EntryInv, Apply, Enabled;
    match step
    case Begin(t, req) => BeginKeepsEntry(s, t, req, k, givenUp);
    case Collect(t) => CollectKeepsEntry(s, t, k, givenUp);
    case _ =>
      if GivesUp(s, step) {
        GiveUpKeepsEntry(s, step, k, givenUp);
      } else {
        OtherStepKeepsEntry(s, step, k, givenUp);
      }
  }

  /** In every reachable state a key has a lock entry if and only if a save of it has a reference, or the
    * last thing that happened to its mutex is that a reference was given up and not that a save that went
    * through called `gc_lock`. */
  lemma {:induction false} EntryStaysIff(s: Sync, steps: seq<Step>, k: Key)
    requires Initial(s) && Legal(s, steps)
    ensures k in Run(s, steps).locks <==> Referenced(Run(s, steps), k) || LastGivenUp(s, steps, k)
    decreases |steps|
  {
    hide LockInv, Apply, Enabled, GivenUpAfter;
    if steps == [] {
      NothingReferenced(s, k);
    } else {
      var prefix := steps[..|steps| - 1];
      LockInvHolds(s, prefix);
      EntryStaysIff(s, prefix, k);
      StepKeepsEntry(Run(s, prefix), steps[|steps| - 1], k, LastGivenUp(s, prefix, k));
    }
  }

  lemma NothingReferenced(s: Sync, k: Key)
    requires Initial(s)
    ensures !Referenced(s, k)
  {
  }

  // ----- An entry that a save that went through leaves behind -----

  /** One save goes through up to its `gc_lock`; a stale one of the same file begins before that call and is
    * answered after it. */
  ghost function Overlapped(s: Sync, first: TaskId, later: TaskId, req: Request, stale: Request): (r: Sync)
    requires CanOverlap(s, first, later, req, stale)
  {
    OverlapIsEnabled(s, first, later, req, stale);
    Released(Apply(Prepared(ThroughSave(s, first, req), later, stale), Collect(first)), later)
  }

  /** The key's mutex is free, the first save expects the current revision, the later one another. */
  ghost predicate CanOverlap(s: Sync, first: TaskId, later: TaskId, req: Request, stale: Request) {
    && first !in s.tasks && later !in s.tasks && first != later
    && stale.key == req.key && LockIsFree(s, req.key) && (forall m :: m in s.held ==> m < s.nextMutex)
    && !IsStale(At(s.revisions, req.key), req.expected)
    && stale.expected != NextRevision(At(s.revisions, req.key))
  }

  lemma OverlapIsEnabled(s: Sync, first: TaskId, later: TaskId, req: Request, stale: Request)
    requires CanOverlap(s, first, later, req, stale)
    ensures var through := ThroughSave(s, first, req);
            && later !in through.tasks && LockIsFree(through, stale.key)
            && IsStale(At(through.revisions, stale.key), stale.expected)
            && var checked := Prepared(through, later, stale);
               && Enabled(checked, Collect(first)) && checked.tasks[first].phase.outcome.Saved?
               && checked.tasks[later].phase.Finishing? && checked.tasks[later].req == stale
               && req.key in checked.locks && checked.tasks[later].phase.m == checked.locks[req.key]
               && !checked.tasks[later].phase.gc && checked.tasks[later].phase.outcome == StaleRevision
               && Enabled(Apply(checked, Collect(first)), DropGuard(later))
  {
    FreeAfterThrough(s, first, later, req, stale);
    hide ThroughSave, Prepared, Apply;
    StaleIsChecked(ThroughSave(s, first, req), first, later, req, stale);
  }

  lemma FreeAfterThrough(s: Sync, first: TaskId, later: TaskId, req: Request, stale: Request)
    requires CanOverlap(s, first, later, req, stale)
    ensures var through := ThroughSave(s, first, req);
            && later !in through.tasks && LockIsFree(through, stale.key) && stale.key in through.locks
            && IsStale(At(through.revisions, stale.key), stale.expected)
            && first in through.tasks && through.tasks[first].phase.Collecting?
            && through.tasks[first].phase.outcome.Saved?
    ensures first != later && stale.key == req.key
  {
    ThroughSaveState(s, first, req);
    hide ThroughSave;
  }

  /** A stale save that has been checked, beside one that is about to collect. */
  lemma StaleIsChecked(s: Sync, first: TaskId, later: TaskId, req: Request, stale: Request)
    requires first in s.tasks && s.tasks[first].phase.Collecting? && s.tasks[first].phase.outcome.Saved?
    requires later !in s.tasks && first != later && stale.key == req.key
    requires LockIsFree(s, stale.key) && stale.key in s.locks && IsStale(At(s.revisions, stale.key), stale.expected)
    ensures var checked := Prepared(s, later, stale);
            && Enabled(checked, Collect(first)) && checked.tasks[first].phase.outcome.Saved?
            && checked.tasks[later].phase.Finishing? && checked.tasks[later].req == stale
            && req.key in checked.locks && checked.tasks[later].phase.m == checked.locks[req.key]
            && !checked.tasks[later].phase.gc && checked.tasks[later].phase.outcome == StaleRevision
            && Enabled(Apply(checked, Collect(first)), DropGuard(later))
  {
    PreparedState(s, later, stale);
    hide Prepared, Apply, LockIsFree, IsStale;
    CollectOutcome(Prepared(s, later, stale), first);
  }

  /** Both saves are over, the first went through, and the entry stays, also when nobody else uses it. */
  lemma OverlappedEntryStays(s: Sync, first: TaskId, later: TaskId, req: Request, stale: Request)
    requires CanOverlap(s, first, later, req, stale)
    ensures var end := Overlapped(s, first, later, req, stale);
            && first in end.tasks && end.tasks[first].phase.Done? && end.tasks[first].phase.outcome.Saved?
            && later in end.tasks && end.tasks[later].phase == Done(StaleRevision)
            && req.key in end.locks
  {
    OverlapIsEnabled(s, first, later, req, stale);
    var checked := Prepared(ThroughSave(s, first, req), later, stale);
    CollectOutcome(checked, first);
    CollectedEntry(checked, first, req.key);
    assert HasArc(checked.tasks[later].phase);
    hide ThroughSave, Prepared, Apply, Released, StrongCount;
    if StrongCount(checked, checked.locks[req.key]) == 1 {
      SoleCountMeansNoClones(checked, req.key);
    }
    ReleasedState(Apply(checked, Collect(first)), later);
  }
}
