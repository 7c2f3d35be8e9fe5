/** Which verdict a path of an event gets, read off the operations of a run (src/fswatch/mod.rs). */
module FswatchVerdicts {
  import opened Options
  import opened LruCaches
  import opened Fswatch

  // ----- What the verdict depends on -----

  ghost predicate SameLetter(a: char, b: char) {
    a == b || ('A' <= a <= 'Z' && b as int == a as int + 32) || ('A' <= b <= 'Z' && a as int == b as int + 32)
  }

  /** The components of the root in front of the path; where case is folded, its text up to letter case, ended
    * by the end of the path, a slash or a backslash. */
  ghost predicate LiesUnder(path: Path, root: Path, foldsCase: bool) {
    if foldsCase then
      var p, r := TextOf(path), TextOf(root);
      && |r| <= |p| && (forall i :: 0 <= i < |r| ==> SameLetter(p[i], r[i]))
      && (|p| == |r| || p[|r|] == '/' || p[|r|] == '\\')
    else |root| <= |path| && forall i :: 0 <= i < |root| ==> path[i] == root[i]
  }

  ghost predicate IsPassedOver(t: Touched) {
    || t.isNewSymlink || t.isDir
    || exists c :: c in t.path && c in {".git", "node_modules", "vendor", "dist", "build", ".next", "target",
                                        ".cache", "coverage", "out"}
  }

  /** Operation `k` registered a root that is neither removed nor replaced before place `i`. */
  ghost predicate Registers(ops: seq<Op>, k: nat, i: nat)
    requires i <= |ops|
  {
    && k < i && ops[k].OpAddWorkspace?
    && forall j :: k < j < i ==>
         !(ops[j].OpAddWorkspace? && ops[j].id == ops[k].id) && !(ops[j].OpRemoveWorkspace? && ops[j].id == ops[k].id)
  }

  ghost predicate HasRoot(ops: seq<Op>, i: nat, path: Path, foldsCase: bool)
    requires i <= |ops|
  {
    exists k: nat :: Registers(ops, k, i) && LiesUnder(path, ops[k].root, foldsCase)
  }

  ghost predicate IsWriteOf(ops: seq<Op>, k: nat, i: nat, path: Path)
    requires i <= |ops|
  {
    k < i && ops[k].OpNoteAppWrite? && ops[k].path == path
  }

  /** The app noted a write of the path less than two seconds before `now`, or later. */
  ghost predicate WroteRecently(ops: seq<Op>, i: nat, path: Path, now: int)
    requires i <= |ops|
  {
    exists k: nat :: IsWriteOf(ops, k, i, path) && now - ops[k].at < 2_000_000_000
  }

  ghost predicate IsPassOf(out: seq<Option<Outcome>>, k: nat, i: nat, path: Path)
    requires i <= |out|
  {
    k < i && out[k] == Some(Outcome(path, Pass))
  }

  /** The path was passed by an event with a reading less than 300 ms before `now`. */
  ghost predicate PassedRecently(start: int, ops: seq<Op>, out: seq<Option<Outcome>>, i: nat, path: Path, now: int)
    requires i <= |ops| == |out|
  {
    exists k: nat :: IsPassOf(out, k, i, path) && now - Reading(start, ops, k) < 300_000_000
  }

  ghost predicate ClosedBefore(ops: seq<Op>, i: nat)
    requires i <= |ops|
  {
    exists j :: 0 <= j < i && ops[j].OpClose?
  }

  /** The event begun by operation `k` has not returned before place `i`. */
  ghost predicate OpenSince(ops: seq<Op>, out: seq<Option<Outcome>>, k: nat, i: nat)
    requires i <= |ops| == |out|
  {
    && k < i && ops[k].OpBeginEvent?
    && forall j :: k < j < i ==>
         !ops[j].OpBeginEvent? && !ops[j].OpEndEvent? && (out[j].Some? ==> out[j].value.verdict == Pass)
  }

  /** Clock readings do not decrease, and none is before the start. */
  ghost predicate Clocked(start: int, ops: seq<Op>) {
    && (forall i :: 0 <= i < |ops| ==> start <= TimeOf(ops[i], start))
    && (forall i, j :: 0 <= i < j < |ops| && (ops[j].OpNoteAppWrite? || ops[j].OpBeginEvent?) ==>
          TimeOf(ops[i], start) <= TimeOf(ops[j], start))
  }

  // ----- The state in front of each operation -----

  ghost function IdealAt(u: IdealSession, ops: seq<Op>, i: nat): IdealSession
    requires i <= |ops|
  {
    if i == 0 then u else IdealStep(IdealAt(u, ops, i - 1), ops[i - 1]).0
  }

  lemma {:induction false} IdealAtShifts(u: IdealSession, ops: seq<Op>, i: nat)
    requires 1 <= i <= |ops|
    ensures IdealAt(u, ops, i) == IdealAt(IdealStep(u, ops[0]).0, ops[1..], i - 1)
  {
    hide IdealStep;
    if i == 1 {
    } else {
      IdealAtShifts(u, ops, i - 1);
    }
  }

  lemma {:induction false} TraceAt(u: IdealSession, ops: seq<Op>, i: nat)
    requires i < |ops|
    ensures IdealTrace(u, ops)[i] == IdealStep(IdealAt(u, ops, i), ops[i]).1
    decreases i
  {
    hide IdealStep;
    if i == 0 {
    } else {
      TraceAt(IdealStep(u, ops[0]).0, ops[1..], i - 1);
      IdealAtShifts(u, ops, i);
    }
  }

  lemma {:induction false} FeasibleIsClocked(u: IdealSession, ops: seq<Op>, clock: int, cap: nat)
    requires Feasible(u, ops, clock, cap)
    ensures Clocked(clock, ops)
    decreases |ops|
  {
    if ops == [] {
    } else {
      FeasibleFirst(u, ops, clock, cap);
      hide Feasible, IdealStep;
      var t := TimeOf(ops[0], clock);
      FeasibleIsClocked(IdealStep(u, ops[0]).0, ops[1..], t, cap);
      forall i | 0 <= i < |ops| ensures clock <= TimeOf(ops[i], clock) {
        if i > 0 {
          assert ops[i] == ops[1..][i - 1];
        }
      }
      forall i, j | 0 <= i < j < |ops| && (ops[j].OpNoteAppWrite? || ops[j].OpBeginEvent?)
        ensures TimeOf(ops[i], clock) <= TimeOf(ops[j], clock)
      {
        assert ops[j] == ops[1..][j - 1] && TimeOf(ops[j], t) == TimeOf(ops[j], clock);
        if i > 0 {
          assert ops[i] == ops[1..][i - 1];
        }
      }
    }
  }

  lemma {:induction false} ReadingBehind(last: int, ops: seq<Op>, i: nat)
    requires i < |ops|
    ensures Reading(last, ops, i + 1) == if ops[i].OpBeginEvent? then ops[i].at else Reading(last, ops, i)
    decreases i
  {
    if i == 0 {
    } else {
      ReadingBehind(if ops[0].OpBeginEvent? then ops[0].at else last, ops[1..], i - 1);
    }
  }

  lemma {:induction false} ReadingsRise(start: int, ops: seq<Op>, k: nat, i: nat)
    requires Clocked(start, ops) && k <= i <= |ops|
    ensures start <= Reading(start, ops, k) <= Reading(start, ops, i)
    ensures forall j :: i <= j < |ops| && ops[j].OpBeginEvent? ==> Reading(start, ops, i) <= ops[j].at
    decreases i
  {
    if i == 0 {
    } else {
      ReadingBehind(start, ops, i - 1);
      ReadingsRise(start, ops, if k < i then k else i - 1, i - 1);
      assert start <= TimeOf(ops[i - 1], start);
    }
  }

  lemma {:induction false} ClosedAt(foldsCase: bool, ops: seq<Op>, i: nat)
    requires i <= |ops|
    ensures IdealAt(IdealStarted(foldsCase), ops, i).ideal.closed <==> ClosedBefore(ops, i)
    ensures IdealAt(IdealStarted(foldsCase), ops, i).ideal.foldsCase == foldsCase
  {
    if i == 0 {
    } else {
      ClosedAt(foldsCase, ops, i - 1);
    }
  }

  lemma {:induction false} RootIsRegistered(foldsCase: bool, ops: seq<Op>, i: nat, id: string) returns (k: nat)
    requires i <= |ops| && !ClosedBefore(ops, i) && id in IdealAt(IdealStarted(foldsCase), ops, i).ideal.roots
    ensures Registers(ops, k, i) && ops[k].id == id
    ensures ops[k].root == IdealAt(IdealStarted(foldsCase), ops, i).ideal.roots[id]
  {
    ClosedAt(foldsCase, ops, i - 1);
    if ops[i - 1].OpAddWorkspace? && ops[i - 1].id == id {
      k := i - 1;
    } else {
      k := RootIsRegistered(foldsCase, ops, i - 1, id);
    }
  }

  lemma {:induction false} RegisteredIsRoot(foldsCase: bool, ops: seq<Op>, i: nat, k: nat)
    requires i <= |ops| && !ClosedBefore(ops, i) && Registers(ops, k, i)
    ensures var roots := IdealAt(IdealStarted(foldsCase), ops, i).ideal.roots;
            ops[k].id in roots && roots[ops[k].id] == ops[k].root
  {
    ClosedAt(foldsCase, ops, i - 1);
    if k < i - 1 {
      RegisteredIsRoot(foldsCase, ops, i - 1, k);
    }
  }

  lemma {:induction false} WriteIsNoted(foldsCase: bool, ops: seq<Op>, i: nat, p: Path) returns (k: nat)
    requires i <= |ops| && p in IdealAt(IdealStarted(foldsCase), ops, i).ideal.appWrites
    ensures IsWriteOf(ops, k, i, p) && ops[k].at == IdealAt(IdealStarted(foldsCase), ops, i).ideal.appWrites[p]
  {
    var before := IdealAt(IdealStarted(foldsCase), ops, i - 1).ideal;
    if ops[i - 1].OpNoteAppWrite? && ops[i - 1].path == p && !before.closed {
      k := i - 1;
    } else {
      k := WriteIsNoted(foldsCase, ops, i - 1, p);
    }
  }

  lemma {:induction false} NotedIsWrite(foldsCase: bool, start: int, ops: seq<Op>, i: nat, k: nat, p: Path)
    requires i <= |ops| && !ClosedBefore(ops, i) && Clocked(start, ops) && IsWriteOf(ops, k, i, p)
    ensures var m := IdealAt(IdealStarted(foldsCase), ops, i).ideal.appWrites; p in m && m[p] >= ops[k].at
  {
    ClosedAt(foldsCase, ops, i - 1);
    if k < i - 1 {
      NotedIsWrite(foldsCase, start, ops, i - 1, k, p);
    }
  }

  lemma {:induction false} EventReading(foldsCase: bool, start: int, ops: seq<Op>, i: nat)
    requires i <= |ops|
    ensures var e := IdealAt(IdealStarted(foldsCase), ops, i).event; e.Some? ==> e.value == Reading(start, ops, i)
  {
    if i == 0 {
    } else {
      EventReading(foldsCase, start, ops, i - 1);
      ReadingBehind(start, ops, i - 1);
    }
  }

  lemma {:induction false} EmitIsPass(foldsCase: bool, start: int, ops: seq<Op>, i: nat, p: Path) returns (k: nat)
    requires i <= |ops| && p in IdealAt(IdealStarted(foldsCase), ops, i).ideal.lastEmit
    ensures IsPassOf(IdealTrace(IdealStarted(foldsCase), ops), k, i, p)
    ensures Reading(start, ops, k) == IdealAt(IdealStarted(foldsCase), ops, i).ideal.lastEmit[p]
  {
    var u := IdealStarted(foldsCase);
    PassOfStep(IdealAt(u, ops, i - 1), ops[i - 1], p);
    TraceAt(u, ops, i - 1);
    EventReading(foldsCase, start, ops, i - 1);
    hide IdealStep, IdealTrace, Reading;
    if IdealTrace(u, ops)[i - 1] == Some(Outcome(p, Pass)) {
      k := i - 1;
    } else {
      k := EmitIsPass(foldsCase, start, ops, i - 1, p);
    }
  }

  lemma {:induction false} PassIsEmit(foldsCase: bool, start: int, ops: seq<Op>, i: nat, k: nat, p: Path)
    requires i <= |ops| && Clocked(start, ops) && IsPassOf(IdealTrace(IdealStarted(foldsCase), ops), k, i, p)
    ensures var m := IdealAt(IdealStarted(foldsCase), ops, i).ideal.lastEmit; p in m && m[p] >= Reading(start, ops, k)
  {
    var u := IdealStarted(foldsCase);
    PassOfStep(IdealAt(u, ops, i - 1), ops[i - 1], p);
    TraceAt(u, ops, i - 1);
    EventReading(foldsCase, start, ops, i - 1);
    ReadingsRise(start, ops, k, i - 1);
    hide IdealStep, IdealTrace, Reading, Clocked;
    if k < i - 1 {
      PassIsEmit(foldsCase, start, ops, i - 1, k, p);
    }
  }

  lemma {:induction false} OpenIsEvent(foldsCase: bool, ops: seq<Op>, k: nat, i: nat)
    requires i <= |ops| && OpenSince(ops, IdealTrace(IdealStarted(foldsCase), ops), k, i)
    ensures IdealAt(IdealStarted(foldsCase), ops, i).event == Some(ops[k].at)
  {
    var u := IdealStarted(foldsCase);
    TraceAt(u, ops, i - 1);
    hide IdealTrace;
    if k < i - 1 {
      OpenIsEvent(foldsCase, ops, k, i - 1);
    }
  }

  lemma {:induction false} EventIsOpen(foldsCase: bool, ops: seq<Op>, i: nat) returns (k: nat)
    requires i <= |ops| && IdealAt(IdealStarted(foldsCase), ops, i).event.Some?
    ensures OpenSince(ops, IdealTrace(IdealStarted(foldsCase), ops), k, i)
  {
    var u := IdealStarted(foldsCase);
    TraceAt(u, ops, i - 1);
    hide IdealTrace;
    if ops[i - 1].OpBeginEvent? {
      k := i - 1;
    } else {
      k := EventIsOpen(foldsCase, ops, i - 1);
    }
  }

  // ----- The four conditions -----

  lemma LoweredText(p: string, r: string)
    ensures |LowerText(p)| == |p|
    ensures LowerText(r) <= LowerText(p) <==> |r| <= |p| && forall i :: 0 <= i < |r| ==> SameLetter(p[i], r[i])
    ensures forall i :: 0 <= i < |p| ==> (LowerText(p)[i] == '/' <==> p[i] == '/')
    ensures forall i :: 0 <= i < |p| ==> (LowerText(p)[i] == '\\' <==> p[i] == '\\')
  {
    assert forall i :: 0 <= i < |r| && i < |p| ==> (LowerText(p)[i] == LowerText(r)[i] <==> SameLetter(p[i], r[i]));
  }

  lemma OneMoreLetter(p: string, r: string, c: char)
    ensures r + [c] <= p <==> r <= p && |r| < |p| && p[|r|] == c
  {
    if r <= p && |r| < |p| {
      assert p[..|r| + 1] == r + [p[|r|]];
    }
  }

  lemma {:induction false} SlashedLonger(path: Path, c: string)
    ensures Slashed(path + [c]) == Slashed(path) + ("/" + c)
  {
    if path == [] {
      assert Slashed([c]) == "/" + c + Slashed([c][1..]);
    } else {
      SlashedLonger(path[1..], c);
      assert (path + [c])[1..] == path[1..] + [c];
    }
  }

  /** The text of a path: a slash in front of each component. */
  lemma TextOfLonger(path: Path, c: string)
    ensures TextOf([]) == "/"
    ensures TextOf(path + [c]) == (if path == [] then "" else TextOf(path)) + ("/" + c)
  {
    SlashedLonger(path, c);
  }

  lemma UnderRootIff(path: Path, root: Path, foldsCase: bool)
    ensures UnderRoot(path, root, foldsCase) <==> LiesUnder(path, root, foldsCase)
  {
    if foldsCase {
      var p, r := TextOf(path), TextOf(root);
      LoweredText(p, r);
      LoweredText(r, p);
      hide LowerText, TextOf, SameLetter;
      OneMoreLetter(LowerText(p), LowerText(r), '/');
      OneMoreLetter(LowerText(p), LowerText(r), '\\');
    }
  }

  lemma OwnedIff(foldsCase: bool, ops: seq<Op>, i: nat, path: Path)
    requires i <= |ops| && !ClosedBefore(ops, i)
    ensures Owned(IdealAt(IdealStarted(foldsCase), ops, i).ideal.roots, path, foldsCase)
       <==> HasRoot(ops, i, path, foldsCase)
  {
    hide UnderRoot, LiesUnder, IdealAt, ClosedBefore;
    var roots := IdealAt(IdealStarted(foldsCase), ops, i).ideal.roots;
    if Owned(roots, path, foldsCase) {
      var id :| id in roots && UnderRoot(path, roots[id], foldsCase);
      UnderRootIff(path, roots[id], foldsCase);
      var k := RootIsRegistered(foldsCase, ops, i, id);
    }
    if HasRoot(ops, i, path, foldsCase) {
      var k: nat :| Registers(ops, k, i) && LiesUnder(path, ops[k].root, foldsCase);
      RegisteredIsRoot(foldsCase, ops, i, k);
      UnderRootIff(path, ops[k].root, foldsCase);
    }
  }

  lemma WroteIff(foldsCase: bool, start: int, ops: seq<Op>, i: nat, path: Path, now: int)
    requires i <= |ops| && !ClosedBefore(ops, i) && Clocked(start, ops)
    ensures var written := At(IdealAt(IdealStarted(foldsCase), ops, i).ideal.appWrites, path);
            written.Some? && Age(now, written.value) < APP_WRITE_SUPPRESSION <==> WroteRecently(ops, i, path, now)
  {
    hide IdealAt, ClosedBefore, Clocked;
    var writes := IdealAt(IdealStarted(foldsCase), ops, i).ideal.appWrites;
    if path in writes {
      var k := WriteIsNoted(foldsCase, ops, i, path);
    }
    if WroteRecently(ops, i, path, now) {
      var k: nat :| IsWriteOf(ops, k, i, path) && now - ops[k].at < 2_000_000_000;
      NotedIsWrite(foldsCase, start, ops, i, k, path);
    }
  }

  lemma PassedIff(foldsCase: bool, start: int, ops: seq<Op>, i: nat, path: Path, now: int)
    requires i <= |ops| && Clocked(start, ops)
    ensures var u := IdealStarted(foldsCase);
            var passed := At(IdealAt(u, ops, i).ideal.lastEmit, path);
            passed.Some? && Age(now, passed.value) < EMIT_THROTTLE
            <==> PassedRecently(start, ops, IdealTrace(u, ops), i, path, now)
  {
    hide IdealAt, IdealTrace, Clocked, Reading;
    var out := IdealTrace(IdealStarted(foldsCase), ops);
    var emits := IdealAt(IdealStarted(foldsCase), ops, i).ideal.lastEmit;
    if path in emits {
      var k := EmitIsPass(foldsCase, start, ops, i, path);
    }
    if PassedRecently(start, ops, out, i, path, now) {
      var k: nat :| IsPassOf(out, k, i, path) && now - Reading(start, ops, k) < 300_000_000;
      PassIsEmit(foldsCase, start, ops, i, k, path);
    }
  }

  ghost function Expected(foldsCase: bool, start: int, ops: seq<Op>, out: seq<Option<Outcome>>, i: nat, path: Path,
                          now: int): Verdict
    requires i <= |ops| == |out|
  {
    if ClosedBefore(ops, i) then Closed
    else if !HasRoot(ops, i, path, foldsCase) then Unowned
    else if WroteRecently(ops, i, path, now) then Suppressed
    else if PassedRecently(start, ops, out, i, path, now) then Throttled
    else Pass
  }

  lemma PassedOverIff(t: Touched)
    ensures SkipsPath(t) <==> IsPassedOver(t)
  {
    if i :| 0 <= i < |t.path| && t.path[i] in IGNORE_DIRS {
      assert t.path[i] in t.path;
    } else {
      assert forall c :: c in t.path ==> c !in IGNORE_DIRS;
    }
  }

  lemma IdealVerdict(foldsCase: bool, start: int, ops: seq<Op>, i: nat, k: nat)
    requires Clocked(start, ops) && i < |ops| && ops[i].OpPath?
    requires OpenSince(ops, IdealTrace(IdealStarted(foldsCase), ops), k, i) && !IsPassedOver(ops[i].t)
    ensures var out, path := IdealTrace(IdealStarted(foldsCase), ops), ops[i].t.path;
            out[i] == Some(Outcome(path, Expected(foldsCase, start, ops, out, i, path, ops[k].at)))
  {
    var path, now := ops[i].t.path, ops[k].at;
    TraceAt(IdealStarted(foldsCase), ops, i);
    OpenIsEvent(foldsCase, ops, k, i);
    ClosedAt(foldsCase, ops, i);
    PassedIff(foldsCase, start, ops, i, path, now);
    PassedOverIff(ops[i].t);
    hide IdealAt, IdealTrace, OpenSince, SkipsPath, IsPassedOver, ClosedBefore, HasRoot, WroteRecently, PassedRecently;
    if !ClosedBefore(ops, i) {
      OwnedIff(foldsCase, ops, i, path);
      WroteIff(foldsCase, start, ops, i, path, now);
    }
  }

  /** A path that is not passed over, of an event that has not returned: closed if the watcher is; else unowned
    * exactly if no registered root has it; else suppressed exactly if the app noted a write of it less than two
    * seconds before the event's reading or later; else throttled exactly if it was passed less than 300 ms
    * before; else passed. */
  lemma {:induction false} VerdictOfPath(foldsCase: bool, start: int, ops: seq<Op>, i: nat, k: nat)
    requires Feasible(IdealStarted(foldsCase), ops, start, STATE_CAP) && i < |ops| && ops[i].OpPath?
    requires OpenSince(ops, Trace(Started(foldsCase, start), ops), k, i) && !IsPassedOver(ops[i].t)
    ensures var out, path := Trace(Started(foldsCase, start), ops), ops[i].t.path;
            out[i] == Some(Outcome(path, Expected(foldsCase, start, ops, out, i, path, ops[k].at)))
  {
    WatcherDecidesLikeUnboundedMaps(foldsCase, ops, start);
    FeasibleIsClocked(IdealStarted(foldsCase), ops, start, STATE_CAP);
    IdealVerdict(foldsCase, start, ops, i, k);
  }

  /** There is no verdict exactly if the path is passed over or no event is being handled. */
  lemma {:induction false} NoVerdictIff(foldsCase: bool, start: int, ops: seq<Op>, i: nat)
    requires Feasible(IdealStarted(foldsCase), ops, start, STATE_CAP) && i < |ops| && ops[i].OpPath?
    ensures var out := Trace(Started(foldsCase, start), ops);
            out[i].None? <==> IsPassedOver(ops[i].t) || forall k: nat :: !OpenSince(ops, out, k, i)
  {
    var u := IdealStarted(foldsCase);
    WatcherDecidesLikeUnboundedMaps(foldsCase, ops, start);
    TraceAt(u, ops, i);
    var e := IdealAt(u, ops, i).event;
    PassedOverIff(ops[i].t);
    hide Trace, IdealTrace, IdealAt, OpenSince, SkipsPath, IsPassedOver;
    if e.Some? {
      var k := EventIsOpen(foldsCase, ops, i);
    } else if k: nat :| OpenSince(ops, IdealTrace(u, ops), k, i) {
      OpenIsEvent(foldsCase, ops, k, i);
      assert false;
    }
  }

  // ----- What the verdict leaves behind -----

  /** A cleanup keeps exactly the writes of the last two seconds and the passes of the last thirty, and the
    * roots as they are. */
  lemma CleanedIsRecent(w: Watch, now: int, e: (Path, int))
    ensures var c := Cleaned(w, now);
            && (e in c.appWrites.entries <==> e in w.appWrites.entries && now - e.1 <= 2_000_000_000)
            && (e in c.lastEmit.entries <==> e in w.lastEmit.entries && now - e.1 <= 30_000_000_000)
            && c.lastCleanup == now && c.roots == w.roots && c.closed == w.closed
  {
    YoungMembership(w.appWrites.entries, now, APP_WRITE_SUPPRESSION, e);
    YoungMembership(w.lastEmit.entries, now, CLEANUP_INTERVAL, e);
  }

  lemma PathOutcome(w: Watch, t: Touched, now: int)
    requires !IsPassedOver(t) && !w.closed
    ensures var (w', v) := HandledPath(w, t, now);
            && v.Some?
            && w' == var w1 := if now - w.lastCleanup > 30_000_000_000 then Cleaned(w, now) else w;
                     if v == Some(Pass) then w1.(lastEmit := w1.lastEmit.Put(t.path, now)) else w1
  {
    PassedOverIff(t);
    hide Cleaned, Owned, IsPassedOver, SkipsPath, Decide;
  }

  /** Handling a path cleans up first when the last cleanup is more than thirty seconds old, and adds the path
    * to the passes exactly if the verdict is to pass it. A path that is passed over, or that comes after close,
    * leaves everything as it is. */
  lemma StateAfterPath(w: Watch, t: Touched, now: int)
    requires w.appWrites.Valid() && w.lastEmit.Valid()
    ensures var (w', v) := HandledPath(w, t, now);
            if IsPassedOver(t) || w.closed then w' == w && v == if IsPassedOver(t) then None else Some(Closed)
            else
              && w'.roots == w.roots && !w'.closed
              && w'.lastCleanup == (if now - w.lastCleanup > 30_000_000_000 then now else w.lastCleanup)
              && (now - w.lastCleanup > 30_000_000_000 ==> forall e :: e in w'.appWrites.entries ==>
                    e in w.appWrites.entries && now - e.1 <= 2_000_000_000)
              && (now - w.lastCleanup <= 30_000_000_000 ==> w'.appWrites == w.appWrites)
              && (v == Some(Pass) ==> w'.lastEmit.Peek(t.path) == Some(now))
              && (v != Some(Pass) ==> forall e :: e in w'.lastEmit.entries ==> e in w.lastEmit.entries)
  {
    PassedOverIff(t);
    if !IsPassedOver(t) && !w.closed {
      var w1 := if now - w.lastCleanup > 30_000_000_000 then Cleaned(w, now) else w;
      PathOutcome(w, t, now);
      forall e ensures e in Cleaned(w, now).appWrites.entries
                    <==> e in w.appWrites.entries && now - e.1 <= 2_000_000_000
      {
        CleanedIsRecent(w, now, e);
      }
      forall e ensures e in Cleaned(w, now).lastEmit.entries
                    <==> e in w.lastEmit.entries && now - e.1 <= 30_000_000_000
      {
        CleanedIsRecent(w, now, e);
      }
      CleanedIsRecent(w, now, (t.path, now));
      ExpireKeepsValid(w.lastEmit, now, CLEANUP_INTERVAL);
      assert w1.lastEmit.Valid();
      hide HandledPath, IsPassedOver, SkipsPath, Cleaned;
      PutIsPeeked(w1.lastEmit, t.path, now);
    }
  }
}
