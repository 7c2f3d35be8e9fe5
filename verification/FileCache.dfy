/** The base-content cache of the saves (src/files/mod.rs). */
module FileCache {
  import opened Options
  import opened LruCaches
  import opened FileSaves

  /** Keys whose disk content was last touched by something other than a save that reached the cache:
    * a cancelled or failed save, a writer outside the daemon, or a tracking that put other content in the
    * cache after the last save did. */
  ghost function Astray(s: Sync, steps: seq<Step>): set<Key>
    requires Legal(s, steps)
    decreases |steps|
  {
    if steps == [] then {}
    else
      var prefix := steps[..|steps| - 1];
      AstrayAfter(Run(s, prefix), steps[|steps| - 1], Astray(s, prefix))
  }

  ghost function AstrayAfter(s: Sync, step: Step, astray: set<Key>): set<Key>
    requires Enabled(s, step)
  {
    match step
    case WriteDisk(t, ok, _) =>
      if ok && s.tasks[t].phase.Writing? then astray - {s.tasks[t].req.key} else astray + {s.tasks[t].req.key}
    case Cancel(t) =>
      if BetweenDiskAndCache(s.tasks[t].phase) then astray + {s.tasks[t].req.key} else astray
    case OutsideWrite(key, _) => astray + {key}
    case TrackPut(u) =>
      var key := s.trackers[u].key;
      if !Settled(s, key) then astray
      else if At(s.disk, key) == Some(s.trackers[u].content) then astray - {key} else astray + {key}
    case _ => astray
  }

  predicate BetweenDiskAndCache(p: Phase) {
    p.Written? || p.Recorded?
  }

  ghost predicate Settled(s: Sync, key: Key) {
    forall t :: t in s.tasks && s.tasks[t].req.key == key ==> !BetweenDiskAndCache(s.tasks[t].phase)
  }

  ghost predicate CacheInv(s: Sync, astray: set<Key>) {
    && s.contents.Valid()
    && (forall t :: t in s.tasks && BetweenDiskAndCache(s.tasks[t].phase) && s.tasks[t].req.key !in astray ==>
          At(s.disk, s.tasks[t].req.key) == Some(s.tasks[t].req.content))
    && (forall e :: e in s.contents.entries && e.0 !in astray && Settled(s, e.0) ==> At(s.disk, e.0) == Some(e.1))
  }

  lemma CacheInvStep(s: Sync, step: Step, astray: set<Key>)
    requires LockInv(s) && CacheInv(s, astray) && Enabled(s, step)
    ensures CacheInv(Apply(s, step), AstrayAfter(s, step, astray))
  {
    var s', a' := Apply(s, step), AstrayAfter(s, step, astray);
    match step
    case PutCache(t) => PutCacheKeepsInv(s, t, astray);
    case WriteDisk(t, ok, left) => WriteDiskKeepsInv(s, t, ok, left, astray);
    case GetBase(key) =>
      OperationsKeepValid(s.contents, key, "");
      forall e | e in s'.contents.entries && e.0 !in a' && Settled(s', e.0) ensures At(s'.disk, e.0) == Some(e.1) {
        EntriesAfterGetAndPop(s.contents, key, e);
        assert Settled(s, e.0);
      }
    case Forget(key) =>
      OperationsKeepValid(s.contents, key, "");
      forall e | e in s'.contents.entries && e.0 !in a' && Settled(s', e.0) ensures At(s'.disk, e.0) == Some(e.1) {
        EntriesAfterGetAndPop(s.contents, key, e);
        assert Settled(s, e.0);
      }
    case TrackPut(u) => TrackPutKeepsInv(s, u, astray);
    case OutsideWrite(key, left) =>
      forall e | e in s'.contents.entries && e.0 !in a' && Settled(s', e.0) ensures At(s'.disk, e.0) == Some(e.1) {
        assert Settled(s, e.0);
      }
    case _ =>
      MoveKeepsCacheInv(s, step, astray);
  }

  predicate MovesOneSave(step: Step) {
    step.Begin? || step.Acquire? || step.Check? || step.SetRev?
    || step.DropGuard? || step.DropArc? || step.Collect? || step.Cancel?
    || step.ReadRevision? || step.TrackLook? || step.TrackAssign?
  }

  lemma MoveState(s: Sync, step: Step, astray: set<Key>)
    requires Enabled(s, step) && MovesOneSave(step)
    ensures Apply(s, step).contents == s.contents && Apply(s, step).disk == s.disk
            && astray <= AstrayAfter(s, step, astray)
  {
  }

  lemma MoveOfTask(s: Sync, step: Step, astray: set<Key>, t: TaskId)
    requires Enabled(s, step) && MovesOneSave(step)
    ensures var s', a' := Apply(s, step), AstrayAfter(s, step, astray);
            && (t in s.tasks ==> t in s'.tasks && s'.tasks[t].req == s.tasks[t].req)
            && (t in s'.tasks && BetweenDiskAndCache(s'.tasks[t].phase)
                ==> t in s.tasks && BetweenDiskAndCache(s.tasks[t].phase))
            && (t in s.tasks && BetweenDiskAndCache(s.tasks[t].phase) && s.tasks[t].req.key !in a' ==>
                  BetweenDiskAndCache(s'.tasks[t].phase))
  {
  }

  lemma MoveKeepsCacheInv(s: Sync, step: Step, astray: set<Key>)
    requires CacheInv(s, astray) && Enabled(s, step) && MovesOneSave(step)
    ensures CacheInv(Apply(s, step), AstrayAfter(s, step, astray))
  {
    hide Enabled, Apply, AstrayAfter, BetweenDiskAndCache, MovesOneSave;
    var s', a' := Apply(s, step), AstrayAfter(s, step, astray);
    MoveState(s, step, astray);
    forall t | t in s'.tasks && BetweenDiskAndCache(s'.tasks[t].phase) && s'.tasks[t].req.key !in a'
      ensures At(s'.disk, s'.tasks[t].req.key) == Some(s'.tasks[t].req.content)
    {
      MoveOfTask(s, step, astray, t);
    }
    forall e | e in s'.contents.entries && e.0 !in a' && Settled(s', e.0) ensures At(s'.disk, e.0) == Some(e.1) {
      forall t | t in s.tasks && s.tasks[t].req.key == e.0 ensures !BetweenDiskAndCache(s.tasks[t].phase) {
        MoveOfTask(s, step, astray, t);
      }
      assert Settled(s, e.0);
    }
  }

  lemma TrackPutKeepsInv(s: Sync, u: TaskId, astray: set<Key>)
    requires CacheInv(s, astray) && Enabled(s, TrackPut(u))
    ensures CacheInv(Apply(s, TrackPut(u)), AstrayAfter(s, TrackPut(u), astray))
  {
    var s', a' := Apply(s, TrackPut(u)), AstrayAfter(s, TrackPut(u), astray);
    var key, content := s.trackers[u].key, s.trackers[u].content;
    OperationsKeepValid(s.contents, key, content);
    assert s'.tasks == s.tasks && s'.disk == s.disk && s'.contents == s.contents.Put(key, content);
    forall t | t in s'.tasks && BetweenDiskAndCache(s'.tasks[t].phase) && s'.tasks[t].req.key !in a'
      ensures At(s'.disk, s'.tasks[t].req.key) == Some(s'.tasks[t].req.content)
    {
      assert s.tasks[t].req.key == key ==> !Settled(s, key);
    }
    hide Enabled, Apply;
    forall e | e in s'.contents.entries && e.0 !in a' && Settled(s', e.0) ensures At(s'.disk, e.0) == Some(e.1) {
      EntriesAfterPut(s.contents, key, content, e);
      assert Settled(s, e.0);
    }
  }

  /** The put of a tracking leaves the cache in agreement with the disk exactly if the content it was
    * called with is still what is on disk. */
  lemma TrackPutAgreesIff(s: Sync, u: TaskId)
    requires s.contents.Valid() && Enabled(s, TrackPut(u))
    ensures var s', key := Apply(s, TrackPut(u)), s.trackers[u].key;
            && s'.contents.Peek(key) == Some(s.trackers[u].content)
            && (At(s'.disk, key) == s'.contents.Peek(key) <==> At(s.disk, key) == Some(s.trackers[u].content))
  {
    PutIsPeeked(s.contents, s.trackers[u].key, s.trackers[u].content);
  }

  lemma PutCacheKeepsInv(s: Sync, t: TaskId, astray: set<Key>)
    requires LockInv(s) && CacheInv(s, astray) && Enabled(s, PutCache(t))
    ensures CacheInv(Apply(s, PutCache(t)), astray)
  {
    var s', req := Apply(s, PutCache(t)), s.tasks[t].req;
    OperationsKeepValid(s.contents, req.key, req.content);
    forall e | e in s'.contents.entries && e.0 !in astray && Settled(s', e.0) ensures At(s'.disk, e.0) == Some(e.1) {
      EntriesAfterPut(s.contents, req.key, req.content, e);
      if e != (req.key, req.content) {
        forall u | u in s.tasks && s.tasks[u].req.key == e.0 ensures !BetweenDiskAndCache(s.tasks[u].phase) {
          assert u in s'.tasks && s'.tasks[u].req == s.tasks[u].req;
        }
        assert Settled(s, e.0);
      }
    }
  }

  /** Only a save in its guarded section writes, so a save between its write and its cache put is the
    * only one of its file there. */
  lemma WriteDiskKeepsInv(s: Sync, t: TaskId, ok: bool, left: Option<string>, astray: set<Key>)
    requires LockInv(s) && CacheInv(s, astray) && Enabled(s, WriteDisk(t, ok, left))
    ensures CacheInv(Apply(s, WriteDisk(t, ok, left)), AstrayAfter(s, WriteDisk(t, ok, left), astray))
  {
    var s', a' := Apply(s, WriteDisk(t, ok, left)), AstrayAfter(s, WriteDisk(t, ok, left), astray);
    var key := s.tasks[t].req.key;
    forall u | u in s'.tasks && BetweenDiskAndCache(s'.tasks[u].phase) && s'.tasks[u].req.key !in a'
      ensures At(s'.disk, s'.tasks[u].req.key) == Some(s'.tasks[u].req.content)
    {
      if u != t && s.tasks[u].req.key == key {
        SameKeySameTask(s, t, u);
      }
    }
    assert key in a' || !Settled(s', key) by {
      assert s'.tasks[t].req.key == key;
    }
    forall e | e in s'.contents.entries && e.0 !in a' && Settled(s', e.0) ensures At(s'.disk, e.0) == Some(e.1) {
      if e.0 != key {
        forall u | u in s.tasks && s.tasks[u].req.key == e.0 ensures !BetweenDiskAndCache(s.tasks[u].phase) {
          assert u in s'.tasks && s'.tasks[u] == s.tasks[u];
        }
        assert Settled(s, e.0);
      }
    }
  }

  lemma {:induction false} CacheInvHolds(s: Sync, steps: seq<Step>)
    requires Initial(s) && Legal(s, steps)
    ensures CacheInv(Run(s, steps), Astray(s, steps))
    ensures Run(s, steps).contents.capacity == s.contents.capacity
    decreases |steps|
  {
    if steps == [] {
    } else {
      var prefix := steps[..|steps| - 1];
      LockInvHolds(s, prefix);
      CacheInvHolds(s, prefix);
      CacheInvStep(Run(s, prefix), steps[|steps| - 1], Astray(s, prefix));
    }
  }

  /** In every reachable state the cache is within its capacity, and a cached file that no save is
    * between writing and caching agrees with the disk unless something went astray on it. */
  lemma {:induction false} CacheAgreesWithDisk(s: Sync, steps: seq<Step>, key: Key)
    requires Initial(s) && Legal(s, steps)
    ensures |Run(s, steps).contents.entries| <= s.contents.capacity
    ensures var s' := Run(s, steps);
            s'.contents.Peek(key).Some? && Settled(s', key) && key !in Astray(s, steps)
            ==> At(s'.disk, key) == s'.contents.Peek(key)
  {
    CacheInvHolds(s, steps);
    var s' := Run(s, steps);
    if s'.contents.Peek(key).Some? {
      LookupIsMembership(s'.contents.entries, key, s'.contents.Peek(key).value);
    }
  }

  /** The content a step puts in the cache for `key`. */
  ghost function PutBy(s: Sync, step: Step, key: Key): Option<string>
    requires Enabled(s, step)
  {
    if step.PutCache? && s.tasks[step.t].req.key == key then Some(s.tasks[step.t].req.content)
    else if step.TrackPut? && s.trackers[step.u].key == key then Some(s.trackers[step.u].content)
    else None
  }

  /** The content last put in the cache for a key, by a save that completed or by a tracking. */
  ghost function LastCompleted(s: Sync, steps: seq<Step>, key: Key): Option<string>
    requires Legal(s, steps)
    decreases |steps|
  {
    if steps == [] then None
    else
      var prefix := steps[..|steps| - 1];
      var put := PutBy(Run(s, prefix), steps[|steps| - 1], key);
      if put.Some? then put else LastCompleted(s, prefix, key)
  }

  lemma EntryComesFrom(s: Sync, step: Step, e: (Key, string))
    requires s.contents.Valid() && Enabled(s, step) && e in Apply(s, step).contents.entries
    ensures PutBy(s, step, e.0) == Some(e.1) || (PutBy(s, step, e.0) == None && e in s.contents.entries)
  {
    match step
    case PutCache(t) => EntriesAfterPut(s.contents, s.tasks[t].req.key, s.tasks[t].req.content, e);
    case TrackPut(u) => EntriesAfterPut(s.contents, s.trackers[u].key, s.trackers[u].content, e);
    case GetBase(key) => EntriesAfterGetAndPop(s.contents, key, e);
    case Forget(key) => EntriesAfterGetAndPop(s.contents, key, e);
    case _ =>
  }

  /** Evictions, reads and forgets never make the cache show other content than that of the last completed
    * save or tracking. */
  lemma {:induction false} CacheShowsLastCompletedSave(s: Sync, steps: seq<Step>, e: (Key, string))
    requires Initial(s) && Legal(s, steps)
    requires e in Run(s, steps).contents.entries
    ensures LastCompleted(s, steps, e.0) == Some(e.1)
    decreases |steps|
  {
    if steps == [] {
    } else {
      var prefix := steps[..|steps| - 1];
      CacheInvHolds(s, prefix);
      EntryComesFrom(Run(s, prefix), steps[|steps| - 1], e);
      if PutBy(Run(s, prefix), steps[|steps| - 1], e.0) == None {
        CacheShowsLastCompletedSave(s, prefix, e);
      }
    }
  }
}
