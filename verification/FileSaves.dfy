/** Optimistic saves under per-file mutexes (src/files/mod.rs): many saves run interleaved, each a
  * program counter that advances at the points where the code can be interrupted. */
module FileSaves {
  import opened Options
  import opened LruCaches

  type Key = string
  type Mutex = nat
  type TaskId = nat

  datatype Request = Request(key: Key, content: string, expected: int)

  datatype Outcome = Saved(revision: int) | StaleRevision | WriteFailed | Cancelled

  /** Where a save is. `current` is the revision found by the check, absent for an untracked file. */
  datatype Phase =
    | Waiting(m: Mutex)                                // has its Arc, queued for the mutex
    | Locked(m: Mutex)                                 // owns the guard
    | Writing(m: Mutex, current: Option<int>)          // check passed, blocking write not finished
    | Written(m: Mutex, current: Option<int>)          // bytes are on disk
    | Recorded(m: Mutex, current: Option<int>)         // revision is set
    | Finishing(m: Mutex, outcome: Outcome, gc: bool)  // about to drop the guard
    | Unlocked(m: Mutex, outcome: Outcome, gc: bool)   // guard dropped, Arc not yet
    | Collecting(outcome: Outcome)                     // Arc dropped, about to call gc_lock
    | Detached(m: Mutex)                               // future dropped, blocking write still owns the guard
    | Done(outcome: Outcome)

  datatype Task = Task(req: Request, phase: Phase)

  /** Where a `track_file` is: it has found the file untracked, has assigned the revision, or is done. One
    * that is cancelled stops where it is. */
  datatype TrackPhase = Found | Assigned | Tracked

  datatype Tracker = Tracker(key: Key, content: string, phase: TrackPhase)

  /** The shared maps, the owner of each locked mutex, the disk, the saves and the trackings. */
  datatype Sync = Sync(
    locks: map<Key, Mutex>,
    held: map<Mutex, TaskId>,
    revisions: map<Key, int>,
    contents: Lru<Key, string>,
    disk: map<Key, string>,
    tasks: map<TaskId, Task>,
    trackers: map<TaskId, Tracker>,
    nextMutex: Mutex)

  datatype Step =
    | Begin(t: TaskId, req: Request)
    | Acquire(t: TaskId)
    | Check(t: TaskId)
    | WriteDisk(t: TaskId, ok: bool, left: Option<string>)  // `left` is on disk after a failed write
    | SetRev(t: TaskId)
    | PutCache(t: TaskId)
    | DropGuard(t: TaskId)
    | DropArc(t: TaskId)
    | Collect(t: TaskId)
    | Cancel(t: TaskId)
    | ReadRevision(key: Key)
    | GetBase(key: Key)
    | Forget(key: Key)
    | TrackLook(u: TaskId, key: Key, content: string)
    | TrackAssign(u: TaskId)
    | TrackPut(u: TaskId)
    | OutsideWrite(key: Key, left: Option<string>)

  function At<V>(m: map<Key, V>, k: Key): Option<V> {
    if k in m then Some(m[k]) else None
  }

  function Put<V>(m: map<Key, V>, k: Key, v: Option<V>): map<Key, V> {
    if v.Some? then m[k := v.value] else m - {k}
  }

  function NextRevision(current: Option<int>): int {
    if current.Some? then current.value + 1 else 1
  }

  function IsStale(current: Option<int>, expected: int): bool {
    current.Some? && current.value != expected
  }

  predicate Guarded(p: Phase) {
    p.Locked? || p.Writing? || p.Written? || p.Recorded? || p.Finishing? || p.Detached?
  }

  /** The local `lock` clone of the Arc. */
  predicate HasLocalArc(p: Phase) {
    p.Waiting? || p.Unlocked? || (Guarded(p) && !p.Detached?)
  }

  /** The clone inside the guard, or inside the future that waits for it. */
  predicate HasOwnedArc(p: Phase) {
    p.Waiting? || Guarded(p)
  }

  predicate HasArc(p: Phase) {
    HasLocalArc(p) || HasOwnedArc(p)
  }

  /** `Arc::strong_count`: the map entry and every clone. */
  ghost function StrongCount(s: Sync, m: Mutex): nat {
    |set k | k in s.locks && s.locks[k] == m|
    + |set t | t in s.tasks && HasLocalArc(s.tasks[t].phase) && s.tasks[t].phase.m == m|
    + |set t | t in s.tasks && HasOwnedArc(s.tasks[t].phase) && s.tasks[t].phase.m == m|
  }

  function Moved(s: Sync, t: TaskId, p: Phase): Sync
    requires t in s.tasks
  {
    s.(tasks := s.tasks[t := s.tasks[t].(phase := p)])
  }

  function TrackerMoved(s: Sync, u: TaskId, p: TrackPhase): Sync
    requires u in s.trackers
  {
    s.(trackers := s.trackers[u := s.trackers[u].(phase := p)])
  }

  /** Which steps can happen. `track_file` takes no file lock, so its steps fall anywhere. */
  ghost predicate Enabled(s: Sync, step: Step) {
    match step
    case Begin(t, _) => t !in s.tasks
    case Acquire(t) => t in s.tasks && s.tasks[t].phase.Waiting? && s.tasks[t].phase.m !in s.held
    case Check(t) => t in s.tasks && s.tasks[t].phase.Locked?
    case WriteDisk(t, _, _) => t in s.tasks && (s.tasks[t].phase.Writing? || s.tasks[t].phase.Detached?)
    case SetRev(t) => t in s.tasks && s.tasks[t].phase.Written?
    case PutCache(t) => t in s.tasks && s.tasks[t].phase.Recorded?
    case DropGuard(t) => t in s.tasks && s.tasks[t].phase.Finishing?
    case DropArc(t) => t in s.tasks && s.tasks[t].phase.Unlocked?
    case Collect(t) => t in s.tasks && s.tasks[t].phase.Collecting?
    case Cancel(t) => t in s.tasks && Interruptible(s.tasks[t].phase)
    case TrackLook(u, _, _) => u !in s.trackers
    case TrackAssign(u) => u in s.trackers && s.trackers[u].phase.Found?
    case TrackPut(u) => u in s.trackers && s.trackers[u].phase.Assigned?
    case _ => true
  }

  /** A future can be dropped only where it awaits. */
  predicate Interruptible(p: Phase) {
    p.Waiting? || p.Locked? || p.Writing? || p.Written? || p.Recorded?
  }

  /** `lock_for`: the mutex of a key, made on first use. */
  function LockFor(locks: map<Key, Mutex>, nextMutex: Mutex, key: Key): (Mutex, map<Key, Mutex>, Mutex) {
    if key in locks then (locks[key], locks, nextMutex)
    else (nextMutex, locks[key := nextMutex], nextMutex + 1)
  }

  ghost function Apply(s: Sync, step: Step): Sync
    requires Enabled(s, step)
  {
    match step
    case Begin(t, req) =>
      var (m, locks, next) := LockFor(s.locks, s.nextMutex, req.key);
      s.(locks := locks, nextMutex := next, tasks := s.tasks[t := Task(req, Waiting(m))])
    case Acquire(t) =>
      var m := s.tasks[t].phase.m;
      Moved(s.(held := s.held[m := t]), t, Locked(m))
    case Check(t) =>
      var m, req := s.tasks[t].phase.m, s.tasks[t].req;
      var current := At(s.revisions, req.key);
      Moved(s, t, if IsStale(current, req.expected) then Finishing(m, StaleRevision, false) else Writing(m, current))
    case WriteDisk(t, ok, left) =>
      var p, req := s.tasks[t].phase, s.tasks[t].req;
      var s' := s.(disk := Put(s.disk, req.key, if ok then Some(req.content) else left));
      if p.Detached? then Moved(s'.(held := s.held - {p.m}), t, Done(Cancelled))
      else Moved(s', t, if ok then Written(p.m, p.current) else Finishing(p.m, WriteFailed, false))
    case SetRev(t) =>
      var p := s.tasks[t].phase;
      Moved(s.(revisions := s.revisions[s.tasks[t].req.key := NextRevision(p.current)]), t, Recorded(p.m, p.current))
    case PutCache(t) =>
      var p, req := s.tasks[t].phase, s.tasks[t].req;
      var done := Finishing(p.m, Saved(NextRevision(p.current)), true);
      Moved(s.(contents := s.contents.Put(req.key, req.content)), t, done)
    case DropGuard(t) =>
      var p := s.tasks[t].phase;
      Moved(s.(held := s.held - {p.m}), t, Unlocked(p.m, p.outcome, p.gc))
    case DropArc(t) =>
      var p := s.tasks[t].phase;
      Moved(s, t, if p.gc then Collecting(p.outcome) else Done(p.outcome))
    case Collect(t) =>
      var key := s.tasks[t].req.key;
      var sole := key in s.locks && StrongCount(s, s.locks[key]) == 1;
      Moved(if sole then s.(locks := s.locks - {key}) else s, t, Done(s.tasks[t].phase.outcome))
    case Cancel(t) =>
      var p := s.tasks[t].phase;
      if p.Writing? then Moved(s, t, Detached(p.m))
      else if p.Waiting? then Moved(s, t, Unlocked(p.m, Cancelled, false))
      else Moved(s.(held := s.held - {p.m}), t, Unlocked(p.m, Cancelled, false))
    case ReadRevision(key) => s
    case GetBase(key) => s.(contents := s.contents.Get(key).1)
    case Forget(key) => s.(contents := s.contents.Pop(key))
    case TrackLook(u, key, content) =>
      s.(trackers := s.trackers[u := Tracker(key, content, if key in s.revisions then Tracked else Found)])
    case TrackAssign(u) =>
      TrackerMoved(s.(revisions := s.revisions[s.trackers[u].key := 1]), u, Assigned)
    case TrackPut(u) =>
      TrackerMoved(s.(contents := s.contents.Put(s.trackers[u].key, s.trackers[u].content)), u, Tracked)
    case OutsideWrite(key, left) => s.(disk := Put(s.disk, key, left))
  }

  ghost predicate Legal(s: Sync, steps: seq<Step>)
    decreases |steps|, 0
  {
    steps == [] ||
    (Legal(s, steps[..|steps| - 1]) && Enabled(Run(s, steps[..|steps| - 1]), steps[|steps| - 1]))
  }

  ghost function Run(s: Sync, steps: seq<Step>): Sync
    requires Legal(s, steps)
    decreases |steps|, 1
  {
    if steps == [] then s else Apply(Run(s, steps[..|steps| - 1]), steps[|steps| - 1])
  }

  // ----- The lock discipline -----

  ghost predicate TaskHolds(s: Sync, t: TaskId)
    requires t in s.tasks
  {
    var p, k := s.tasks[t].phase, s.tasks[t].req.key;
    && (HasArc(p) ==> k in s.locks && s.locks[k] == p.m)
    && (Guarded(p) ==> p.m in s.held && s.held[p.m] == t)
  }

  ghost predicate LockInv(s: Sync) {
    && (forall t :: t in s.tasks ==> TaskHolds(s, t))
    && (forall k :: k in s.locks ==> s.locks[k] < s.nextMutex)
    && (forall k, k' :: k in s.locks && k' in s.locks && s.locks[k] == s.locks[k'] ==> k == k')
  }

  /** No save has begun and nothing is cached; lock entries may be left over. */
  ghost predicate Initial(s: Sync) {
    s.tasks == map[] && s.trackers == map[] && LockInv(s) && 1 <= s.contents.capacity && s.contents.entries == []
  }

  lemma SoleCountMeansNoClones(s: Sync, k: Key)
    requires k in s.locks && StrongCount(s, s.locks[k]) == 1
    ensures forall t :: t in s.tasks && HasArc(s.tasks[t].phase) ==> s.tasks[t].phase.m != s.locks[k]
  {
    var m := s.locks[k];
    var entries := set k' | k' in s.locks && s.locks[k'] == m;
    assert k in entries;
    var local := set t | t in s.tasks && HasLocalArc(s.tasks[t].phase) && s.tasks[t].phase.m == m;
    var owned := set t | t in s.tasks && HasOwnedArc(s.tasks[t].phase) && s.tasks[t].phase.m == m;
    assert local == {} && owned == {};
    forall t | t in s.tasks && HasArc(s.tasks[t].phase) ensures s.tasks[t].phase.m != m {
      assert t !in local && t !in owned;
    }
  }

  /** Moving one save on keeps the invariant if it keeps at most the Arc it had, and if ownership of
    * a mutex changes only by this save taking a free one or giving up its own. */
  lemma PhaseMoveKeepsLockInv(s: Sync, s': Sync, t: TaskId, p: Phase)
    requires LockInv(s) && t in s.tasks
    requires s'.locks == s.locks && s'.nextMutex == s.nextMutex
    requires s'.tasks == s.tasks[t := s.tasks[t].(phase := p)]
    requires var q := s.tasks[t].phase;
             && (HasArc(p) ==> HasArc(q) && p.m == q.m)
             && (|| (s'.held == s.held && (Guarded(p) ==> Guarded(q)))
                 || (Guarded(q) && !Guarded(p) && s'.held == s.held - {q.m})
                 || (HasArc(q) && q.m !in s.held && s'.held == s.held[q.m := t]))
    ensures LockInv(s')
  {
    assert TaskHolds(s, t);
    forall u | u in s'.tasks ensures TaskHolds(s', u) {
      assert TaskHolds(s, u);
    }
  }

  lemma BeginKeepsLockInv(s: Sync, t: TaskId, req: Request)
    requires LockInv(s) && t !in s.tasks
    ensures LockInv(Apply(s, Begin(t, req)))
  {
    var s' := Apply(s, Begin(t, req));
    forall u | u in s'.tasks ensures TaskHolds(s', u) {
      assert u != t ==> TaskHolds(s, u);
    }
  }

  /** Removing an entry with no clones takes it from nobody. */
  lemma CollectKeepsLockInv(s: Sync, t: TaskId)
    requires LockInv(s) && Enabled(s, Collect(t))
    ensures LockInv(Apply(s, Collect(t)))
  {
    var k := s.tasks[t].req.key;
    var s' := Apply(s, Collect(t));
    if k in s.locks && StrongCount(s, s.locks[k]) == 1 {
      SoleCountMeansNoClones(s, k);
    }
    forall u | u in s'.tasks ensures TaskHolds(s', u) {
      assert TaskHolds(s, u);
    }
  }

  /** A step of something else than a save. */
  predicate IsMapStep(step: Step) {
    step.ReadRevision? || step.GetBase? || step.Forget? || step.OutsideWrite?
    || step.TrackLook? || step.TrackAssign? || step.TrackPut?
  }

  lemma MapStepKeepsLockInv(s: Sync, step: Step)
    requires LockInv(s) && Enabled(s, step)
    requires IsMapStep(step)
    ensures LockInv(Apply(s, step))
  {
    var s' := Apply(s, step);
    assert s'.tasks == s.tasks && s'.locks == s.locks && s'.held == s.held && s'.nextMutex == s.nextMutex;
    forall t | t in s'.tasks ensures TaskHolds(s', t) {
      assert TaskHolds(s, t);
    }
  }

  lemma EarlyStepKeepsLockInv(s: Sync, step: Step)
    requires LockInv(s) && Enabled(s, step) && IsEarly(step)
    ensures LockInv(Apply(s, step))
  {
    assert TaskHolds(s, step.t);
    hide LockInv;
    PhaseMoveKeepsLockInv(s, Apply(s, step), step.t, Apply(s, step).tasks[step.t].phase);
  }

  lemma LateStepKeepsLockInv(s: Sync, step: Step)
    requires LockInv(s) && Enabled(s, step) && IsLate(step) && !step.Collect?
    ensures LockInv(Apply(s, step))
  {
    assert TaskHolds(s, step.t);
    hide LockInv;
    PhaseMoveKeepsLockInv(s, Apply(s, step), step.t, Apply(s, step).tasks[step.t].phase);
  }

  lemma LockInvStep(s: Sync, step: Step)
    requires LockInv(s) && Enabled(s, step)
    ensures LockInv(Apply(s, step))
  {
    hide LockInv, Apply;
    match step
    case Begin(t, req) => BeginKeepsLockInv(s, t, req);
    case Collect(t) => CollectKeepsLockInv(s, t);
    case ReadRevision(_) | GetBase(_) | Forget(_) | OutsideWrite(_, _) => MapStepKeepsLockInv(s, step);
    case TrackLook(_, _, _) | TrackAssign(_) | TrackPut(_) => MapStepKeepsLockInv(s, step);
    case DropGuard(_) | DropArc(_) | Cancel(_) => LateStepKeepsLockInv(s, step);
    case _ => EarlyStepKeepsLockInv(s, step);
  }

  lemma {:induction false} LockInvHolds(s: Sync, steps: seq<Step>)
    requires Initial(s) && Legal(s, steps)
    ensures LockInv(Run(s, steps))
    decreases |steps|
  {
    if steps == [] {
    } else {
      LockInvHolds(s, steps[..|steps| - 1]);
      LockInvStep(Run(s, steps[..|steps| - 1]), steps[|steps| - 1]);
    }
  }

  lemma SameKeySameTask(s: Sync, t: TaskId, u: TaskId)
    requires LockInv(s) && t in s.tasks && u in s.tasks
    requires Guarded(s.tasks[t].phase) && Guarded(s.tasks[u].phase) && s.tasks[t].req.key == s.tasks[u].req.key
    ensures t == u
  {
    assert TaskHolds(s, t) && TaskHolds(s, u);
  }

  /** Mutual exclusion survives lock collection and cancellation: in every reachable state the map
    * entry of a key is the mutex of every save that has a reference to one for that key, and no two
    * saves are inside the guarded section of one key. */
  lemma {:induction false} MutualExclusion(s: Sync, steps: seq<Step>, t: TaskId, u: TaskId)
    requires Initial(s) && Legal(s, steps)
    requires t in Run(s, steps).tasks && u in Run(s, steps).tasks
    requires Run(s, steps).tasks[t].req.key == Run(s, steps).tasks[u].req.key
    ensures var s' := Run(s, steps);
            && (HasArc(s'.tasks[t].phase) ==> At(s'.locks, s'.tasks[t].req.key) == Some(s'.tasks[t].phase.m))
            && (Guarded(s'.tasks[t].phase) && Guarded(s'.tasks[u].phase) ==> t == u)
  {
    LockInvHolds(s, steps);
    var s' := Run(s, steps);
    assert TaskHolds(s', t);
    if Guarded(s'.tasks[t].phase) && Guarded(s'.tasks[u].phase) {
      SameKeySameTask(s', t, u);
    }
  }

  // ----- Lock collection -----

  ghost predicate KeepsLock(task: Task, k: Key) {
    var p := task.phase;
    task.req.key == k && (HasArc(p) || p.Collecting? || (p.Done? && !p.outcome.Saved?))
  }

  /** The garbage collector is called exactly by saves that went through. */
  ghost predicate CollectsOnSuccess(p: Phase) {
    && (p.Finishing? || p.Unlocked? ==> (p.gc <==> p.outcome.Saved?))
    && (p.Collecting? ==> p.outcome.Saved?)
  }

  ghost predicate CollectInv(s: Sync) {
    && (forall t :: t in s.tasks ==> CollectsOnSuccess(s.tasks[t].phase))
    && (forall k :: k in s.locks ==> exists t :: t in s.tasks && KeepsLock(s.tasks[t], k))
  }

  lemma NoClonesNoCount(s: Sync, k: Key)
    requires LockInv(s) && k in s.locks
    requires forall t :: t in s.tasks && HasArc(s.tasks[t].phase) ==> s.tasks[t].phase.m != s.locks[k]
    ensures StrongCount(s, s.locks[k]) == 1
  {
    var m := s.locks[k];
    var entries := set k' | k' in s.locks && s.locks[k'] == m;
    var local := set t | t in s.tasks && HasLocalArc(s.tasks[t].phase) && s.tasks[t].phase.m == m;
    var owned := set t | t in s.tasks && HasOwnedArc(s.tasks[t].phase) && s.tasks[t].phase.m == m;
    assert entries == {k} && local == {} && owned == {};
  }

  lemma StepKeepsLock(s: Sync, step: Step, t: TaskId, k: Key)
    requires Enabled(s, step) && t in s.tasks && CollectsOnSuccess(s.tasks[t].phase)
    requires KeepsLock(s.tasks[t], k) && step != Collect(t)
    ensures t in Apply(s, step).tasks && KeepsLock(Apply(s, step).tasks[t], k)
  {
    if MovesSave(step) && step.t == t {
      OwnStepKeepsLock(s, step, k);
    } else {
      OtherTasksStay(s, step, t);
      hide Apply, Enabled, KeepsLock, MovesSave;
    }
  }

  /** A step that moves a save that has begun. */
  predicate MovesSave(step: Step) {
    IsEarly(step) || IsLate(step)
  }

  predicate IsEarly(step: Step) {
    step.Acquire? || step.Check? || step.WriteDisk? || step.SetRev? || step.PutCache?
  }

  predicate IsLate(step: Step) {
    step.DropGuard? || step.DropArc? || step.Collect? || step.Cancel?
  }

  lemma OtherTasksStay(s: Sync, step: Step, t: TaskId)
    requires Enabled(s, step) && t in s.tasks && !(MovesSave(step) && step.t == t)
    ensures t in Apply(s, step).tasks && Apply(s, step).tasks[t] == s.tasks[t]
  {
    if IsEarly(step) {
      EarlyStepMovesOne(s, step);
      hide Apply, Enabled;
    } else if IsLate(step) {
      LateStepMovesOne(s, step);
      hide Apply, Enabled;
    }
  }

  lemma EarlyStepMovesOne(s: Sync, step: Step)
    requires Enabled(s, step) && IsEarly(step)
    ensures step.t in Apply(s, step).tasks
    ensures Apply(s, step).tasks == s.tasks[step.t := s.tasks[step.t].(phase := Apply(s, step).tasks[step.t].phase)]
    ensures Apply(s, step).locks == s.locks && (!step.SetRev? ==> Apply(s, step).revisions == s.revisions)
  {
  }

  lemma LateStepMovesOne(s: Sync, step: Step)
    requires Enabled(s, step) && IsLate(step)
    ensures step.t in Apply(s, step).tasks
    ensures Apply(s, step).tasks == s.tasks[step.t := s.tasks[step.t].(phase := Apply(s, step).tasks[step.t].phase)]
    ensures (!step.Collect? ==> Apply(s, step).locks == s.locks) && Apply(s, step).revisions == s.revisions
  {
    match step
    case Cancel(t) => CancelOutcome(s, t);
    case Collect(t) => CollectOutcome(s, t);
    case _ => DropOutcome(s, step);
  }

  lemma CancelOutcome(s: Sync, t: TaskId)
    requires Enabled(s, Cancel(t))
    ensures var s', p := Apply(s, Cancel(t)), s.tasks[t].phase;
            && s'.locks == s.locks && s'.revisions == s.revisions
            && s'.tasks == s.tasks[t := s.tasks[t].(phase :=
                 if p.Writing? then Detached(p.m) else Unlocked(p.m, Cancelled, false))]
  {
    hide StrongCount;
    var s' := Apply(s, Cancel(t));
    if s.tasks[t].phase.Writing? {
      assert s' == Moved(s, t, Detached(s.tasks[t].phase.m));
    } else {
      assert s' == Moved(s.(held := s'.held), t, Unlocked(s.tasks[t].phase.m, Cancelled, false));
    }
  }

  lemma CollectOutcome(s: Sync, t: TaskId)
    requires Enabled(s, Collect(t))
    ensures Apply(s, Collect(t)).revisions == s.revisions
    ensures Apply(s, Collect(t)).tasks == s.tasks[t := s.tasks[t].(phase := Done(s.tasks[t].phase.outcome))]
  {
    hide StrongCount;
  }

  lemma DropOutcome(s: Sync, step: Step)
    requires Enabled(s, step) && (step.DropGuard? || step.DropArc?)
    ensures var s', t, p := Apply(s, step), step.t, s.tasks[step.t].phase;
            && s'.locks == s.locks && s'.revisions == s.revisions
            && s'.tasks == s.tasks[t := s.tasks[t].(phase :=
                 if step.DropGuard? then Unlocked(p.m, p.outcome, p.gc)
                 else if p.gc then Collecting(p.outcome)
                 else Done(p.outcome))]
  {
  }

  lemma OwnStepKeepsLock(s: Sync, step: Step, k: Key)
    requires Enabled(s, step) && MovesSave(step) && !step.Collect?
    requires CollectsOnSuccess(s.tasks[step.t].phase) && KeepsLock(s.tasks[step.t], k)
    ensures step.t in Apply(s, step).tasks && KeepsLock(Apply(s, step).tasks[step.t], k)
  {
    if IsEarly(step) {
      EarlyStepKeepsArc(s, step);
      hide Apply;
    } else if step.Cancel? {
      CancelOutcome(s, step.t);
      hide Apply;
    } else {
      DropOutcome(s, step);
      hide Apply;
    }
  }

  lemma EarlyStepKeepsArc(s: Sync, step: Step)
    requires Enabled(s, step) && IsEarly(step)
    ensures step.t in Apply(s, step).tasks
    ensures var p := Apply(s, step).tasks[step.t].phase;
            (HasArc(p) || p == Done(Cancelled)) && Apply(s, step).tasks[step.t].req == s.tasks[step.t].req
  {
  }

  lemma StepCollectsOnSuccess(s: Sync, step: Step, t: TaskId)
    requires Enabled(s, step) && t in Apply(s, step).tasks
    requires t in s.tasks ==> CollectsOnSuccess(s.tasks[t].phase)
    ensures CollectsOnSuccess(Apply(s, step).tasks[t].phase)
  {
    hide Apply, Enabled;
    if t !in s.tasks {
      NewTaskWaits(s, step, t);
    } else if !(MovesSave(step) && step.t == t) {
      OtherTasksStay(s, step, t);
    } else if IsEarly(step) {
      EarlyStepCollects(s, step);
    } else {
      LateStepCollects(s, step);
    }
  }

  lemma NewTaskWaits(s: Sync, step: Step, t: TaskId)
    requires Enabled(s, step) && t !in s.tasks && t in Apply(s, step).tasks
    ensures step.Begin? && step.t == t && Apply(s, step).tasks[t].req == step.req
            && Apply(s, step).tasks[t].phase.Waiting?
  {
    if IsEarly(step) {
      EarlyStepMovesOne(s, step);
    } else if IsLate(step) {
      LateStepMovesOne(s, step);
    }
  }

  lemma EarlyStepCollects(s: Sync, step: Step)
    requires Enabled(s, step) && IsEarly(step)
    ensures step.t in Apply(s, step).tasks && CollectsOnSuccess(Apply(s, step).tasks[step.t].phase)
  {
  }

  lemma LateStepCollects(s: Sync, step: Step)
    requires Enabled(s, step) && IsLate(step) && CollectsOnSuccess(s.tasks[step.t].phase)
    ensures step.t in Apply(s, step).tasks && CollectsOnSuccess(Apply(s, step).tasks[step.t].phase)
  {
    match step
    case Cancel(t) => CancelOutcome(s, t);
      hide Apply;
    case Collect(t) => CollectOutcome(s, t);
      hide Apply;
    case _ => DropOutcome(s, step);
      hide Apply;
  }

  lemma EntriesAfterStep(s: Sync, step: Step, k: Key)
    requires Enabled(s, step) && k in Apply(s, step).locks
    ensures k in s.locks || (step.Begin? && step.req.key == k)
    ensures step.Collect? && s.tasks[step.t].req.key == k ==> StrongCount(s, s.locks[k]) != 1
  {
    hide StrongCount;
    if IsEarly(step) {
      EarlyStepMovesOne(s, step);
      hide Apply, Enabled;
    } else if IsLate(step) && !step.Collect? {
      LateStepMovesOne(s, step);
      hide Apply, Enabled;
    }
  }

  /** When the count is not one, somebody holds a clone, and it is a save of the same key. */
  lemma CloneHolder(s: Sync, k: Key) returns (u: TaskId)
    requires LockInv(s) && k in s.locks && StrongCount(s, s.locks[k]) != 1
    ensures u in s.tasks && HasArc(s.tasks[u].phase) && s.tasks[u].req.key == k
  {
    if forall t :: t in s.tasks && HasArc(s.tasks[t].phase) ==> s.tasks[t].phase.m != s.locks[k] {
      NoClonesNoCount(s, k);
      assert false;
    }
    u :| u in s.tasks && HasArc(s.tasks[u].phase) && s.tasks[u].phase.m == s.locks[k];
    assert TaskHolds(s, u);
  }

  /** A task that keeps the entry of `k` after the step. */
  lemma KeeperAfterStep(s: Sync, step: Step, k: Key) returns (u: TaskId)
    requires LockInv(s) && CollectInv(s) && Enabled(s, step) && k in Apply(s, step).locks
    ensures u in Apply(s, step).tasks && KeepsLock(Apply(s, step).tasks[u], k)
  {
    hide Apply, Enabled, StrongCount, LockInv;
    EntriesAfterStep(s, step, k);
    if k !in s.locks {
      u := step.t;
      BeginKeepsLock(s, u, step.req);
    } else {
      u :| u in s.tasks && KeepsLock(s.tasks[u], k);
      if step == Collect(u) {
        CollectingKeepsCount(s, u, k);
        u := CloneHolder(s, k);
        HolderIsNotCollecting(s.tasks[u].phase, s, step, u);
      }
      StepKeepsLock(s, step, u, k);
    }
  }

  lemma BeginKeepsLock(s: Sync, t: TaskId, req: Request)
    requires Enabled(s, Begin(t, req))
    ensures t in Apply(s, Begin(t, req)).tasks && KeepsLock(Apply(s, Begin(t, req)).tasks[t], req.key)
  {
  }

  lemma HolderIsNotCollecting(p: Phase, s: Sync, step: Step, u: TaskId)
    requires Enabled(s, step) && u in s.tasks && s.tasks[u].phase == p && HasArc(p)
    ensures step != Collect(u)
  {
  }

  lemma CollectingKeepsCount(s: Sync, u: TaskId, k: Key)
    requires CollectInv(s) && Enabled(s, Collect(u)) && KeepsLock(s.tasks[u], k)
    ensures s.tasks[u].req.key == k
  {
  }

  lemma CollectInvStep(s: Sync, step: Step)
    requires LockInv(s) && CollectInv(s) && Enabled(s, step)
    ensures CollectInv(Apply(s, step))
  {
    var s' := Apply(s, step);
    forall t | t in s'.tasks ensures CollectsOnSuccess(s'.tasks[t].phase) {
      StepCollectsOnSuccess(s, step, t);
    }
    forall k | k in s'.locks ensures exists t :: t in s'.tasks && KeepsLock(s'.tasks[t], k) {
      var u := KeeperAfterStep(s, step, k);
    }
  }

  lemma {:induction false} CollectInvHolds(s: Sync, steps: seq<Step>)
    requires Initial(s) && s.locks == map[] && Legal(s, steps)
    ensures CollectInv(Run(s, steps))
    decreases |steps|
  {
    if steps == [] {
    } else {
      var prefix := steps[..|steps| - 1];
      LockInvHolds(s, prefix);
      CollectInvHolds(s, prefix);
      CollectInvStep(Run(s, prefix), steps[|steps| - 1]);
    }
  }

  /** No idle lock entry stays behind a successful save: in every run from an empty map each entry
    * belongs to a save still in progress, or to one that ended stale, failed or cancelled. */
  lemma {:induction false} LocksAreCollected(s: Sync, steps: seq<Step>, k: Key)
    requires Initial(s) && s.locks == map[] && Legal(s, steps)
    requires k in Run(s, steps).locks
    ensures var tasks := Run(s, steps).tasks;
            exists t :: t in tasks && tasks[t].req.key == k && !SucceededAt(tasks[t].phase)
  {
    CollectInvHolds(s, steps);
    var t :| t in Run(s, steps).tasks && KeepsLock(Run(s, steps).tasks[t], k);
  }

  predicate SucceededAt(p: Phase) {
    p.Done? && p.outcome.Saved?
  }
}
