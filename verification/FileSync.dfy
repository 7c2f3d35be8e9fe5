/** The `FileSync` object and its methods, called without interference (src/files/mod.rs). */
module FileSync {
  import opened Options
  import opened LruCaches
  import opened FileSaves

  /** The three maps of the object and the disk it writes to. */
  datatype Maps = Maps(
    locks: map<Key, Mutex>,
    revisions: map<Key, int>,
    contents: Lru<Key, string>,
    disk: map<Key, string>)

  /** What a save amounts to when nothing runs beside it. `shared` says whether other tasks hold a clone
    * of the key's mutex. A save that does not go through leaves its lock entry behind. */
  function SaveMaps(m: Maps, nextMutex: Mutex, shared: bool, req: Request, ok: bool, left: Option<string>)
    : (Outcome, Maps)
  {
    var current := At(m.revisions, req.key);
    var locks := LockFor(m.locks, nextMutex, req.key).1;
    if IsStale(current, req.expected) then (StaleRevision, m.(locks := locks))
    else if !ok then (WriteFailed, m.(locks := locks, disk := Put(m.disk, req.key, left)))
    else
      (Saved(NextRevision(current)),
       Maps(if shared then locks else locks - {req.key},
            m.revisions[req.key := NextRevision(current)],
            m.contents.Put(req.key, req.content),
            m.disk[req.key := req.content]))
  }

  /** What `track_file` does once it has found the file untracked, whenever it comes to it. */
  function LateTracking(m: Maps, key: Key, content: string): Maps {
    m.(revisions := m.revisions[key := 1], contents := m.contents.Put(key, content))
  }

  /** A tracking that nothing interrupts. */
  function AtomicTracking(m: Maps, key: Key, content: string): Maps {
    if key in m.revisions then m else LateTracking(m, key, content)
  }

  /** The late half is what an uninterrupted tracking would do at that moment exactly if the file is still
    * untracked, or is at revision 1 with this very content as the most recent entry of the cache. */
  lemma LateTrackIsAtomicIff(m: Maps, key: Key, content: string)
    requires m.contents.Valid()
    ensures LateTracking(m, key, content) == AtomicTracking(m, key, content)
       <==> key !in m.revisions
            || (m.revisions[key] == 1 && m.contents.entries != [] && m.contents.entries[0] == (key, content))
  {
    PutChangesNothingIff(m.contents, key, content);
    if key in m.revisions {
      assert m.revisions[key] == 1 ==> m.revisions[key := 1] == m.revisions;
      assert m.revisions[key] != 1 ==> m.revisions[key := 1][key] != m.revisions[key];
    }
  }

  class FileSync {
    var locks: map<Key, Mutex>
    var clones: map<Mutex, nat>  // Arc clones outside the map
    var nextMutex: Mutex
    var revisions: map<Key, int>
    var contents: Lru<Key, string>
    var disk: map<Key, string>

    ghost function View(): Maps
      reads this
    {
      Maps(locks, revisions, contents, disk)
    }

    ghost predicate Valid()
      reads this
    {
      && (forall k :: k in locks ==> locks[k] in clones)
      && (forall m :: m in clones ==> m < nextMutex)
    }

    ghost predicate Shared(key: Key)
      reads this
    {
      key in locks && locks[key] in clones && clones[locks[key]] > 0
    }

    /** `with_capacity`: the cache holds at least one entry. */
    constructor WithCapacity(capacity: nat, files: map<Key, string>)
      ensures Valid() && contents.Valid()
      ensures View() == Maps(map[], map[], Lru(if capacity > 1 then capacity else 1, []), files)
    {
      locks, clones, nextMutex := map[], map[], 0;
      revisions := map[];
      contents := Lru(if capacity > 1 then capacity else 1, []);
      disk := files;
    }

    method LockFor(key: Key) returns (m: Mutex)
      requires Valid()
      modifies this`locks, this`clones, this`nextMutex
      ensures Valid() && key in locks && locks[key] == m
      ensures (m, locks, nextMutex) == FileSaves.LockFor(old(locks), old(nextMutex), key)
      ensures m in clones && clones[m] == (if old(key in locks) then old(clones)[m] else 0) + 1
      ensures clones.Keys == old(clones).Keys + {m} && forall x :: x in clones && x != m ==> clones[x] == old(clones)[x]
    {
      if key !in locks {
        locks := locks[key := nextMutex];
        clones := clones[nextMutex := 0];
        nextMutex := nextMutex + 1;
      }
      m := locks[key];
      CloneArc(m);
    }

    method CloneArc(m: Mutex)
      requires m in clones
      modifies this`clones
      ensures clones.Keys == old(clones).Keys && clones[m] == old(clones)[m] + 1
      ensures forall x :: x in clones && x != m ==> clones[x] == old(clones)[x]
    {
      clones := clones[m := clones[m] + 1];
    }

    method DropArc(m: Mutex)
      requires m in clones && clones[m] > 0
      modifies this`clones
      ensures clones.Keys == old(clones).Keys && clones[m] == old(clones)[m] - 1
      ensures forall x :: x in clones && x != m ==> clones[x] == old(clones)[x]
    {
      clones := clones[m := clones[m] - 1];
    }

    method GcLock(key: Key)
      requires Valid()
      modifies this`locks
      ensures Valid()
      ensures locks == if old(key in locks && clones[locks[key]] == 0) then old(locks) - {key} else old(locks)
    {
      if key in locks && clones[locks[key]] == 0 {
        locks := locks - {key};
      }
    }

    method CurrentRev(key: Key) returns (rev: int, exists_: bool)
      ensures exists_ <==> key in revisions
      ensures rev == if key in revisions then revisions[key] else 0
    {
      exists_ := key in revisions;
      rev := if exists_ then revisions[key] else 0;
    }

    method SetRev(key: Key, rev: int)
      modifies this`revisions
      ensures revisions == old(revisions)[key := rev]
    {
      revisions := revisions[key := rev];
    }

    /** The part of `save_inner` between taking and dropping the guard. `ok` and `left` are what the
      * blocking write reports and, if it failed, leaves on disk. */
    method SaveGuarded(req: Request, ok: bool, left: Option<string>) returns (r: Outcome)
      modifies this`revisions, this`contents, this`disk
      ensures var (outcome, after) := SaveMaps(old(View()), nextMutex, true, req, ok, left);
              r == outcome && View() == after.(locks := locks)
    {
      var currentRev, tracked := CurrentRev(req.key);
      if tracked && currentRev != req.expected {
        return StaleRevision;
      }
      if !ok {
        disk := Put(disk, req.key, left);
        return WriteFailed;
      }
      disk := disk[req.key := req.content];
      var newRev := if tracked then currentRev + 1 else 1;
      SetRev(req.key, newRev);
      contents := contents.Put(req.key, req.content);
      return Saved(newRev);
    }

    method SaveInner(req: Request, ok: bool, left: Option<string>) returns (r: Outcome)
      requires Valid()
      modifies this
      ensures Valid()
      ensures (r, View()) == SaveMaps(old(View()), old(nextMutex), old(Shared(req.key)), req, ok, left)
      ensures forall m :: m in old(clones) ==> m in clones && clones[m] == old(clones)[m]
    {
      hide At, IsStale, NextRevision, Put, Without;
      var lock := LockFor(req.key);
      CloneArc(lock);  // owned by the guard
      r := SaveGuarded(req, ok, left);
      DropArc(lock);
      DropArc(lock);
      if r.Saved? {
        GcLock(req.key);
      }
    }

    method CurrentRevision(key: Key) returns (rev: int)
      ensures rev == if key in revisions then revisions[key] else 0
    {
      var exists_;
      rev, exists_ := CurrentRev(key);
    }

    method TrackFile(key: Key, content: string)
      modifies this`revisions, this`contents
      ensures View() == AtomicTracking(old(View()), key, content)
    {
      var rev, tracked := CurrentRev(key);
      if !tracked {
        TrackUntracked(key, content);
      }
    }

    /** The half of `track_file` behind its look. */
    method TrackUntracked(key: Key, content: string)
      modifies this`revisions, this`contents
      ensures View() == LateTracking(old(View()), key, content)
    {
      SetRev(key, 1);
      contents := contents.Put(key, content);
    }

    method GetBaseContent(key: Key) returns (content: Option<string>)
      modifies this`contents
      ensures content == old(contents).Peek(key)
      ensures contents == old(contents).Get(key).1
    {
      var (found, cache) := contents.Get(key);
      contents := cache;
      return found;
    }

    method Forget(key: Key)
      modifies this`contents
      ensures contents == old(contents).Pop(key)
    {
      contents := contents.Pop(key);
    }
  }

  /** Two saves slip between the look and the rest of `track_file`, which takes no file lock: the revision
    * they raised to 2 falls back to 1, and the cache shows the content read before both. */
  method TrackFileOverlappingSaves(fs: FileSync, key: Key, read: string, first: string, second: string)
    returns (one: Outcome, two: Outcome)
    requires fs.Valid() && fs.contents.Valid() && key !in fs.revisions
    modifies fs
    ensures one == Saved(1) && two == Saved(2) && key in fs.revisions && fs.revisions[key] == 1
    ensures fs.contents.Peek(key) == Some(read) && At(fs.disk, key) == Some(second)
  {
    var rev, tracked := fs.CurrentRev(key);
    OperationsKeepValid(fs.contents, key, first);
    one := fs.SaveInner(Request(key, first, 0), true, None);
    OperationsKeepValid(fs.contents, key, second);
    two := fs.SaveInner(Request(key, second, 1), true, None);
    if !tracked {
      PutIsPeeked(fs.contents, key, read);
      fs.TrackUntracked(key, read);
    }
  }

  /** One save slips in: the revision is right, but the cache shows what was read before the save while the
    * disk holds what was saved. */
  method TrackFileOverlappingOneSave(fs: FileSync, key: Key, read: string, saved: string) returns (one: Outcome)
    requires fs.Valid() && fs.contents.Valid() && key !in fs.revisions
    modifies fs
    ensures one == Saved(1) && key in fs.revisions && fs.revisions[key] == 1
    ensures fs.contents.Peek(key) == Some(read) && At(fs.disk, key) == Some(saved)
  {
    var rev, tracked := fs.CurrentRev(key);
    OperationsKeepValid(fs.contents, key, saved);
    one := fs.SaveInner(Request(key, saved, 0), true, None);
    if !tracked {
      PutIsPeeked(fs.contents, key, read);
      fs.TrackUntracked(key, read);
    }
  }

  // ----- An uninterrupted save of the interleaving model is the method -----

  ghost function MapsOf(s: Sync): Maps {
    Maps(s.locks, s.revisions, s.contents, s.disk)
  }

  /** The steps of an uninterrupted tracking compute what the method computes. */
  lemma TrackAloneIsTrackFile(s: Sync, u: TaskId, key: Key, content: string)
    requires u !in s.trackers
    ensures var looked := Apply(s, TrackLook(u, key, content));
            if key in s.revisions then MapsOf(looked) == AtomicTracking(MapsOf(s), key, content)
            else
              && Enabled(looked, TrackAssign(u)) && Enabled(Apply(looked, TrackAssign(u)), TrackPut(u))
              && MapsOf(Apply(Apply(looked, TrackAssign(u)), TrackPut(u))) == AtomicTracking(MapsOf(s), key, content)
  {
  }

  /** The key's mutex is free, and so is the one that would be made for it. */
  ghost predicate LockIsFree(s: Sync, key: Key) {
    (key in s.locks ==> s.locks[key] !in s.held) && s.nextMutex !in s.held
  }

  /** Begun, locked and checked. */
  ghost function Prepared(s: Sync, t: TaskId, req: Request): (r: Sync)
    requires t !in s.tasks && LockIsFree(s, req.key)
    ensures t in r.tasks
    ensures var p := r.tasks[t].phase;
            if IsStale(At(s.revisions, req.key), req.expected) then p.Finishing? else p.Writing?
  {
    Apply(Apply(Apply(s, Begin(t, req)), Acquire(t)), Check(t))
  }

  ghost function Released(s: Sync, t: TaskId): (r: Sync)
    requires Enabled(s, DropGuard(t))
    ensures t in r.tasks && if s.tasks[t].phase.gc then r.tasks[t].phase.Collecting? else r.tasks[t].phase.Done?
  {
    Apply(Apply(s, DropGuard(t)), DropArc(t))
  }

  /** The state just before `gc_lock`, for a save that goes through. */
  ghost function ThroughSave(s: Sync, t: TaskId, req: Request): (r: Sync)
    requires t !in s.tasks && LockIsFree(s, req.key) && !IsStale(At(s.revisions, req.key), req.expected)
    ensures t in r.tasks && r.tasks[t].phase.Collecting?
  {
    Released(Apply(Apply(Apply(Prepared(s, t, req), WriteDisk(t, true, None)), SetRev(t)), PutCache(t)), t)
  }

  /** All steps of one save, one after the other. */
  ghost function SaveAlone(s: Sync, t: TaskId, req: Request, ok: bool, left: Option<string>): (r: Sync)
    requires t !in s.tasks && LockIsFree(s, req.key)
    ensures t in r.tasks && r.tasks[t].phase.Done?
  {
    if IsStale(At(s.revisions, req.key), req.expected) then Released(Prepared(s, t, req), t)
    else if !ok then Released(Apply(Prepared(s, t, req), WriteDisk(t, false, left)), t)
    else Apply(ThroughSave(s, t, req), Collect(t))
  }

  lemma CountsWithoutClonesOf(s: Sync, s': Sync, t: TaskId, m: Mutex)
    requires t !in s.tasks && t in s'.tasks && !HasArc(s'.tasks[t].phase)
    requires s'.tasks == s.tasks[t := s'.tasks[t]]
    requires forall k :: (k in s.locks && s.locks[k] == m) <==> (k in s'.locks && s'.locks[k] == m)
    ensures StrongCount(s', m) == StrongCount(s, m)
  {
    assert (set k | k in s.locks && s.locks[k] == m) == (set k | k in s'.locks && s'.locks[k] == m);
    assert (set u | u in s.tasks && HasLocalArc(s.tasks[u].phase) && s.tasks[u].phase.m == m)
        == (set u | u in s'.tasks && HasLocalArc(s'.tasks[u].phase) && s'.tasks[u].phase.m == m);
    assert (set u | u in s.tasks && HasOwnedArc(s.tasks[u].phase) && s.tasks[u].phase.m == m)
        == (set u | u in s'.tasks && HasOwnedArc(s'.tasks[u].phase) && s'.tasks[u].phase.m == m);
  }

  /** A mutex just made has no other clones. */
  lemma FreshMutexCount(s: Sync, s': Sync, t: TaskId, key: Key, m: Mutex)
    requires LockInv(s) && key !in s.locks && m == s.nextMutex && t !in s.tasks
    requires s'.locks == s.locks[key := m] && s'.nextMutex == m + 1
    requires t in s'.tasks && !HasArc(s'.tasks[t].phase) && s'.tasks == s.tasks[t := s'.tasks[t]]
    ensures StrongCount(s', m) == 1
  {
    assert (set k | k in s'.locks && s'.locks[k] == m) == {key};
    forall u | u in s'.tasks && HasArc(s'.tasks[u].phase) ensures s'.tasks[u].phase.m != m {
      assert TaskHolds(s, u);
    }
    assert (set u | u in s'.tasks && HasLocalArc(s'.tasks[u].phase) && s'.tasks[u].phase.m == m) == {};
    assert (set u | u in s'.tasks && HasOwnedArc(s'.tasks[u].phase) && s'.tasks[u].phase.m == m) == {};
  }

  /** `gc_lock` after a save that went through removes the entry unless somebody else holds a clone. */
  lemma CollectAfterSave(s: Sync, s': Sync, t: TaskId, key: Key, o: Outcome)
    requires LockInv(s) && t !in s.tasks
    requires t in s'.tasks && s'.tasks[t].phase == Collecting(o) && s'.tasks[t].req.key == key
    requires s'.tasks == s.tasks[t := s'.tasks[t]]
    requires s'.locks == LockFor(s.locks, s.nextMutex, key).1 && s'.nextMutex == LockFor(s.locks, s.nextMutex, key).2
    ensures var shared := key in s.locks && StrongCount(s, s.locks[key]) > 1;
            Apply(s', Collect(t)).locks == if shared then s'.locks else s'.locks - {key}
  {
    if key in s.locks {
      CountsWithoutClonesOf(s, s', t, s.locks[key]);
      var entries := set k | k in s.locks && s.locks[k] == s.locks[key];
      assert key in entries;
    } else {
      FreshMutexCount(s, s', t, key, s.nextMutex);
    }
  }

  /** From a passed check to the cache put. */
  lemma GuardedSteps(s: Sync, t: TaskId)
    requires Enabled(s, WriteDisk(t, true, None)) && s.tasks[t].phase.Writing?
    ensures Enabled(Apply(s, WriteDisk(t, true, None)), SetRev(t))
    ensures Enabled(Apply(Apply(s, WriteDisk(t, true, None)), SetRev(t)), PutCache(t))
    ensures var req, p, rev := s.tasks[t].req, s.tasks[t].phase, NextRevision(s.tasks[t].phase.current);
            Apply(Apply(Apply(s, WriteDisk(t, true, None)), SetRev(t)), PutCache(t))
            == s.(disk := s.disk[req.key := req.content], revisions := s.revisions[req.key := rev],
                  contents := s.contents.Put(req.key, req.content),
                  tasks := s.tasks[t := Task(req, Finishing(p.m, Saved(rev), true))])
  {
    var req, p := s.tasks[t].req, s.tasks[t].phase;
    var written := Apply(s, WriteDisk(t, true, None));
    assert written == Moved(s.(disk := s.disk[req.key := req.content]), t, Written(p.m, p.current));
    assert Apply(written, SetRev(t))
        == Moved(written.(revisions := s.revisions[req.key := NextRevision(p.current)]), t, Recorded(p.m, p.current));
  }

  lemma ReleasedForCollection(s: Sync, t: TaskId)
    requires Enabled(s, DropGuard(t)) && s.tasks[t].phase.gc
    ensures var p := s.tasks[t].phase;
            Released(s, t)
            == s.(held := s.held - {p.m}, tasks := s.tasks[t := s.tasks[t].(phase := Collecting(p.outcome))])
  {
  }

  lemma ThroughSaveState(s: Sync, t: TaskId, req: Request)
    requires t !in s.tasks && LockIsFree(s, req.key) && !IsStale(At(s.revisions, req.key), req.expected)
    ensures var s', rev := ThroughSave(s, t, req), NextRevision(At(s.revisions, req.key));
            && s'.tasks == s.tasks[t := Task(req, Collecting(Saved(rev)))]
            && s'.held == s.held && s'.nextMutex == LockFor(s.locks, s.nextMutex, req.key).2
            && MapsOf(s') == Maps(LockFor(s.locks, s.nextMutex, req.key).1, s.revisions[req.key := rev],
                                  s.contents.Put(req.key, req.content), s.disk[req.key := req.content])
  {
    hide Apply, Prepared, Released, LockFor, NextRevision;
    PreparedState(s, t, req);
    var prepared := Prepared(s, t, req);
    GuardedSteps(prepared, t);
    var cached := Apply(Apply(Apply(prepared, WriteDisk(t, true, None)), SetRev(t)), PutCache(t));
    ReleasedForCollection(cached, t);
    assert ThroughSave(s, t, req) == Released(cached, t);
  }

  lemma PreparedState(s: Sync, t: TaskId, req: Request)
    requires t !in s.tasks && LockIsFree(s, req.key)
    ensures var s', current := Prepared(s, t, req), At(s.revisions, req.key);
            var (m, locks, next) := LockFor(s.locks, s.nextMutex, req.key);
            && s' == s.(locks := locks, nextMutex := next, held := s.held[m := t],
                        tasks := s.tasks[t := Task(req, if IsStale(current, req.expected)
                                                         then Finishing(m, StaleRevision, false)
                                                         else Writing(m, current))])
            && m !in s.held
  {
  }

  lemma ReleasedState(s: Sync, t: TaskId)
    requires Enabled(s, DropGuard(t)) && !s.tasks[t].phase.gc
    ensures var p := s.tasks[t].phase;
            Released(s, t) == s.(held := s.held - {p.m}, tasks := s.tasks[t := s.tasks[t].(phase := Done(p.outcome))])
  {
  }

  /** The steps of an undisturbed save that is stale or cannot write compute what the method computes;
    * the lock entry stays, whether or not anybody else holds a clone. */
  lemma SaveAloneStops(s: Sync, t: TaskId, req: Request, shared: bool, ok: bool, left: Option<string>)
    requires t !in s.tasks && LockIsFree(s, req.key) && (IsStale(At(s.revisions, req.key), req.expected) || !ok)
    ensures var s' := SaveAlone(s, t, req, ok, left);
            && (s'.tasks[t].phase.outcome, MapsOf(s')) == SaveMaps(MapsOf(s), s.nextMutex, shared, req, ok, left)
            && s'.held == s.held && req.key in s'.locks
  {
    hide Prepared, Released;
    PreparedState(s, t, req);
    if IsStale(At(s.revisions, req.key), req.expected) {
      ReleasedState(Prepared(s, t, req), t);
    } else {
      ReleasedState(Apply(Prepared(s, t, req), WriteDisk(t, false, left)), t);
    }
  }

  lemma CollectedMaps(s: Sync, s': Sync, t: TaskId, req: Request)
    requires LockInv(s) && t !in s.tasks && !IsStale(At(s.revisions, req.key), req.expected)
    requires var rev := NextRevision(At(s.revisions, req.key));
             && s'.tasks == s.tasks[t := Task(req, Collecting(Saved(rev)))]
             && s'.nextMutex == LockFor(s.locks, s.nextMutex, req.key).2
             && MapsOf(s') == Maps(LockFor(s.locks, s.nextMutex, req.key).1, s.revisions[req.key := rev],
                                   s.contents.Put(req.key, req.content), s.disk[req.key := req.content])
    ensures var shared := req.key in s.locks && StrongCount(s, s.locks[req.key]) > 1;
            var end := Apply(s', Collect(t));
            && (end.tasks[t].phase.outcome, MapsOf(end)) == SaveMaps(MapsOf(s), s.nextMutex, shared, req, true, None)
            && end.held == s'.held
  {
    hide Apply, StrongCount, LockInv, NextRevision;
    CollectAfterSave(s, s', t, req.key, Saved(NextRevision(At(s.revisions, req.key))));
    CollectOutcome(s', t);
    CollectLeavesMaps(s', t);
  }

  lemma CollectLeavesMaps(s: Sync, t: TaskId)
    requires Enabled(s, Collect(t))
    ensures var s' := Apply(s, Collect(t));
            s'.revisions == s.revisions && s'.contents == s.contents && s'.disk == s.disk && s'.held == s.held
  {
    hide StrongCount;
  }

  /** The steps of an undisturbed save that goes through compute what the method computes. */
  lemma SaveAloneSucceeds(s: Sync, t: TaskId, req: Request, left: Option<string>)
    requires LockInv(s) && t !in s.tasks && LockIsFree(s, req.key) && !IsStale(At(s.revisions, req.key), req.expected)
    ensures var shared := req.key in s.locks && StrongCount(s, s.locks[req.key]) > 1;
            var s' := SaveAlone(s, t, req, true, left);
            && (s'.tasks[t].phase.outcome, MapsOf(s')) == SaveMaps(MapsOf(s), s.nextMutex, shared, req, true, None)
            && s'.held == s.held
  {
    ThroughSaveState(s, t, req);
    CollectedMaps(s, ThroughSave(s, t, req), t, req);
  }
}
