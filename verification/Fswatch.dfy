/** Bookkeeping that decides which on-disk changes are surfaced (src/fswatch/mod.rs).
  * Instants are integer nanoseconds; a path is the sequence of its components. */
module Fswatch {
  import opened Options
  import opened LruCaches

  const APP_WRITE_SUPPRESSION := 2_000_000_000
  const EMIT_THROTTLE := 300_000_000
  const CLEANUP_INTERVAL := 30_000_000_000
  const STATE_CAP: nat := 4096
  const IGNORE_DIRS :=
    {".git", "node_modules", "vendor", "dist", "build", ".next", "target", ".cache", "coverage", "out"}

  type Path = seq<string>

  /** One path of a debounced event with what the disk says about it. */
  datatype Touched = Touched(path: Path, isNewSymlink: bool, isDir: bool)

  datatype Verdict = Closed | Unowned | Suppressed | Throttled | Pass

  datatype Outcome = Outcome(path: Path, verdict: Verdict)

  /** `Instant::duration_since`, which saturates at zero. */
  function Age(now: int, since: int): nat {
    if now >= since then now - since else 0
  }

  /** Paths passed over without ending the event. */
  predicate SkipsPath(t: Touched) {
    t.isNewSymlink || t.isDir || exists i :: 0 <= i < |t.path| && t.path[i] in IGNORE_DIRS
  }

  function LowerText(s: string): string {
    seq(|s|, i requires 0 <= i < |s| => if 'A' <= s[i] <= 'Z' then (s[i] as int + 32) as char else s[i])
  }

  function Slashed(path: Path): string {
    if path == [] then "" else "/" + path[0] + Slashed(path[1..])
  }

  function TextOf(path: Path): string {
    if path == [] then "/" else Slashed(path)
  }

  /** `path_under_root`: by components; on platforms that fold letter case by text, where a slash or a
    * backslash may follow the root. */
  predicate UnderRoot(path: Path, root: Path, foldsCase: bool) {
    if foldsCase then
      var p, r := LowerText(TextOf(path)), LowerText(TextOf(root));
      p == r || r + "/" <= p || r + "\\" <= p
    else root <= path
  }

  predicate Owned(roots: map<string, Path>, path: Path, foldsCase: bool) {
    exists id :: id in roots && UnderRoot(path, roots[id], foldsCase)
  }

  /** The rules in the order the code applies them. */
  function Decide(owned: bool, appWrite: Option<int>, lastEmit: Option<int>, now: int): Verdict {
    if !owned then Unowned
    else if appWrite.Some? && Age(now, appWrite.value) < APP_WRITE_SUPPRESSION then Suppressed
    else if lastEmit.Some? && Age(now, lastEmit.value) < EMIT_THROTTLE then Throttled
    else Pass
  }

  // ----- The bounded state -----

  datatype Watch = Watch(
    foldsCase: bool,
    roots: map<string, Path>,
    appWrites: Lru<Path, int>,
    lastEmit: Lru<Path, int>,
    lastCleanup: int,
    closed: bool)

  function Young(es: seq<(Path, int)>, now: int, maxAge: int): seq<(Path, int)> {
    if es == [] then []
    else if Age(now, es[0].1) > maxAge then Young(es[1..], now, maxAge)
    else [es[0]] + Young(es[1..], now, maxAge)
  }

  function Expire(c: Lru<Path, int>, now: int, maxAge: int): Lru<Path, int> {
    Lru(c.capacity, Young(c.entries, now, maxAge))
  }

  function Cleaned(w: Watch, now: int): Watch {
    w.(appWrites := Expire(w.appWrites, now, APP_WRITE_SUPPRESSION),
       lastEmit := Expire(w.lastEmit, now, CLEANUP_INTERVAL),
       lastCleanup := now)
  }

  /** One path under the state lock: nothing for a skipped path, else the verdict on it. */
  function HandledPath(w: Watch, t: Touched, now: int): (Watch, Option<Verdict>) {
    if SkipsPath(t) then (w, None)
    else if w.closed then (w, Some(Closed))
    else
      var w1 := if Age(now, w.lastCleanup) > CLEANUP_INTERVAL then Cleaned(w, now) else w;
      var v := Decide(Owned(w1.roots, t.path, w1.foldsCase), w1.appWrites.Peek(t.path), w1.lastEmit.Peek(t.path), now);
      (if v == Pass then w1.(lastEmit := w1.lastEmit.Put(t.path, now)) else w1, Some(v))
  }

  /** The paths of one event, in order; the first path that is not passed ends the event. */
  function Handled(w: Watch, paths: seq<Touched>, now: int): (Watch, seq<Outcome>)
    decreases |paths|
  {
    if paths == [] then (w, [])
    else
      var (w1, v) := HandledPath(w, paths[0], now);
      if v.Some? && v.value != Pass then (w1, [Outcome(paths[0].path, v.value)])
      else
        var (w2, rest) := Handled(w1, paths[1..], now);
        (w2, Emitted(paths[0], v) + rest)
  }

  /** The path at `i` in front of the later paths, behind the outcomes `out` of the earlier ones. */
  lemma HandledStep(w: Watch, paths: seq<Touched>, i: nat, now: int, out: seq<Outcome>)
    requires i < |paths|
    ensures var (w1, v) := HandledPath(w, paths[i], now);
            var (w2, all) := Handled(w, paths[i..], now);
            var (w3, rest) := Handled(w1, paths[i + 1..], now);
            && out + all == out + Emitted(paths[i], v) + (if v.Some? && v.value != Pass then [] else rest)
            && w2 == if v.Some? && v.value != Pass then w1 else w3
  {
    assert paths[i..][0] == paths[i] && paths[i..][1..] == paths[i + 1..];
  }

  function Noted(w: Watch, path: Path, at: int): Watch {
    if w.closed then w else w.(appWrites := w.appWrites.Put(path, at))
  }

  function WithRoot(w: Watch, id: string, root: Path): Watch {
    if w.closed then w else w.(roots := w.roots[id := root])
  }

  function WithoutRoot(w: Watch, id: string): Watch {
    if w.closed then w else w.(roots := w.roots - {id})
  }

  function Emitted(t: Touched, v: Option<Verdict>): seq<Outcome> {
    if v.Some? then [Outcome(t.path, v.value)] else []
  }

  function NewWatch(foldsCase: bool, now: int): Watch {
    Watch(foldsCase, map[], Lru(STATE_CAP, []), Lru(STATE_CAP, []), now, false)
  }

  /** The mutex-protected `SharedState`. */
  class SharedState {
    const foldsCase: bool
    var roots: map<string, Path>
    var appWrites: Lru<Path, int>
    var lastEmit: Lru<Path, int>
    var lastCleanup: int
    var closed: bool

    ghost function View(): Watch
      reads this
    {
      Watch(foldsCase, roots, appWrites, lastEmit, lastCleanup, closed)
    }

    constructor (foldsCase: bool, now: int)
      ensures View() == NewWatch(foldsCase, now)
    {
      this.foldsCase := foldsCase;
      roots := map[];
      appWrites := Lru(STATE_CAP, []);
      lastEmit := Lru(STATE_CAP, []);
      lastCleanup := now;
      closed := false;
    }

    method AddWorkspace(id: string, path: Path)
      modifies this
      ensures View() == WithRoot(old(View()), id, path)
    {
      if closed {
        return;
      }
      roots := roots[id := path];
    }

    method RemoveWorkspace(id: string)
      modifies this
      ensures View() == WithoutRoot(old(View()), id)
    {
      if closed {
        return;
      }
      roots := roots - {id};
    }

    method NoteAppWrite(path: Path, now: int)
      modifies this
      ensures View() == Noted(old(View()), path, now)
    {
      if closed {
        return;
      }
      appWrites := appWrites.Put(path, now);
    }

    method Close()
      modifies this
      ensures View() == old(View()).(closed := true)
    {
      closed := true;
    }

    /** Collects the expired keys, then pops them one by one. */
    static method PopExpired(cache: Lru<Path, int>, now: int, maxAge: int) returns (r: Lru<Path, int>)
      requires cache.Valid()
      ensures r == Expire(cache, now, maxAge)
    {
      var expired: seq<Path> := [];
      for i := 0 to |cache.entries|
        invariant forall p :: p in expired <==>
                    exists j :: 0 <= j < i && cache.entries[j].0 == p && Age(now, cache.entries[j].1) > maxAge
      {
        if Age(now, cache.entries[i].1) > maxAge {
          expired := expired + [cache.entries[i].0];
        }
      }
      r := cache;
      ghost var none: seq<Path> := expired[..0];
      WithoutAllOfNone(cache.entries);
      for i := 0 to |expired|
        invariant r == Lru(cache.capacity, WithoutAll(cache.entries, expired[..i]))
      {
        r := r.Pop(expired[i]);
        WithoutOneMore(cache.entries, expired[..i], expired[i]);
        assert expired[..i + 1] == expired[..i] + [expired[i]];
      }
      assert expired[..|expired|] == expired;
      WithoutExpiredIsYoung(cache.entries, expired, now, maxAge);
    }

    method Cleanup(now: int)
      requires appWrites.Valid() && lastEmit.Valid()
      modifies this
      ensures View() == Cleaned(old(View()), now)
    {
      appWrites := PopExpired(appWrites, now, APP_WRITE_SUPPRESSION);
      lastEmit := PopExpired(lastEmit, now, CLEANUP_INTERVAL);
      lastCleanup := now;
    }

    /** The part of `handle_event` that runs under the lock for one path. */
    method HandlePath(t: Touched, now: int) returns (v: Option<Verdict>)
      requires appWrites.Valid() && lastEmit.Valid()
      modifies this
      ensures (View(), v) == HandledPath(old(View()), t, now)
      ensures appWrites.Valid() && lastEmit.Valid()
    {
      if SkipsPath(t) {
        return None;
      }
      if closed {
        return Some(Closed);
      }
      if Age(now, lastCleanup) > CLEANUP_INTERVAL {
        ExpireKeepsValid(appWrites, now, APP_WRITE_SUPPRESSION);
        ExpireKeepsValid(lastEmit, now, CLEANUP_INTERVAL);
        Cleanup(now);
      }
      if !Owned(roots, t.path, foldsCase) {
        return Some(Unowned);
      }
      var written := appWrites.Peek(t.path);
      if written.Some? && Age(now, written.value) < APP_WRITE_SUPPRESSION {
        return Some(Suppressed);
      }
      var emitted := lastEmit.Peek(t.path);
      if emitted.Some? && Age(now, emitted.value) < EMIT_THROTTLE {
        return Some(Throttled);
      }
      OperationsKeepValid(lastEmit, t.path, now);
      lastEmit := lastEmit.Put(t.path, now);
      return Some(Pass);
    }

    /** `surfaced` is false for access and attribute events. */
    method HandleEvent(surfaced: bool, paths: seq<Touched>, now: int) returns (out: seq<Outcome>)
      requires appWrites.Valid() && lastEmit.Valid()
      modifies this
      ensures (View(), out) == if surfaced then Handled(old(View()), paths, now) else (old(View()), [])
      ensures appWrites.Valid() && lastEmit.Valid()
    {
      out := [];
      if !surfaced {
        return;
      }
      assert paths[0..] == paths;
      assert out + Handled(View(), paths, now).1 == Handled(View(), paths, now).1;
      for i := 0 to |paths|
        invariant appWrites.Valid() && lastEmit.Valid()
        invariant Handled(old(View()), paths, now)
               == (Handled(View(), paths[i..], now).0, out + Handled(View(), paths[i..], now).1)
      {
        hide Handled, HandledPath;
        HandledStep(View(), paths, i, now, out);
        var v := HandlePath(paths[i], now);
        out := out + Emitted(paths[i], v);
        if v.Some? && v.value != Pass {
          return;
        }
      }
      assert paths[|paths|..] == [];
      assert out + [] == out;
    }
  }

  ghost function WithoutAll(es: seq<(Path, int)>, keys: seq<Path>): seq<(Path, int)> {
    if es == [] then []
    else if es[0].0 in keys then WithoutAll(es[1..], keys)
    else [es[0]] + WithoutAll(es[1..], keys)
  }

  lemma {:induction false} WithoutAllOfNone(es: seq<(Path, int)>)
    ensures WithoutAll(es, []) == es
  {
    if es == [] {
    } else {
      WithoutAllOfNone(es[1..]);
    }
  }

  lemma {:induction false} WithoutOneMore(es: seq<(Path, int)>, keys: seq<Path>, k: Path)
    ensures Without(WithoutAll(es, keys), k) == WithoutAll(es, keys + [k])
  {
    if es == [] {
    } else {
      WithoutOneMore(es[1..], keys, k);
    }
  }

  lemma {:induction false} WithoutExpiredIsYoung(es: seq<(Path, int)>, keys: seq<Path>, now: int, maxAge: int)
    requires forall i :: 0 <= i < |es| ==> (es[i].0 in keys <==> Age(now, es[i].1) > maxAge)
    ensures WithoutAll(es, keys) == Young(es, now, maxAge)
  {
    if es == [] {
    } else {
      assert forall i :: 0 <= i < |es[1..]| ==> es[1..][i] == es[i + 1];
      WithoutExpiredIsYoung(es[1..], keys, now, maxAge);
    }
  }

  // ----- The unbounded state it stands for -----

  /** Two maps that never evict and are never cleaned. */
  datatype Ideal = Ideal(
    foldsCase: bool,
    roots: map<string, Path>,
    appWrites: map<Path, int>,
    lastEmit: map<Path, int>,
    closed: bool)

  function NewIdeal(foldsCase: bool): Ideal {
    Ideal(foldsCase, map[], map[], map[], false)
  }

  function At(m: map<Path, int>, p: Path): Option<int> {
    if p in m then Some(m[p]) else None
  }

  function IdealHandledPath(w: Ideal, t: Touched, now: int): (Ideal, Option<Verdict>) {
    if SkipsPath(t) then (w, None)
    else if w.closed then (w, Some(Closed))
    else
      var v := Decide(Owned(w.roots, t.path, w.foldsCase), At(w.appWrites, t.path), At(w.lastEmit, t.path), now);
      (if v == Pass then w.(lastEmit := w.lastEmit[t.path := now]) else w, Some(v))
  }

  // ----- Runs -----

  /** The state lock is taken once per path, and the clock is read before, when the event begins; anything
    * else can happen between. Events are handled one after the other, by one thread. */
  datatype Op =
    | OpAddWorkspace(id: string, root: Path)
    | OpRemoveWorkspace(id: string)
    | OpNoteAppWrite(path: Path, at: int)
    | OpClose
    | OpBeginEvent(at: int)
    | OpPath(t: Touched)
    | OpEndEvent

  /** The clock reading of the event being handled, if it has not returned. */
  datatype Session = Session(watch: Watch, event: Option<int>)

  datatype IdealSession = IdealSession(ideal: Ideal, event: Option<int>)

  /** The event returns at the first path that is neither skipped nor passed. */
  function EventAfter(event: Option<int>, v: Option<Verdict>): Option<int> {
    if v.Some? && v.value != Pass then None else event
  }

  function OutcomeOf(t: Touched, v: Option<Verdict>): Option<Outcome> {
    if v.Some? then Some(Outcome(t.path, v.value)) else None
  }

  function Step(s: Session, op: Op): (Session, Option<Outcome>) {
    match op
    case OpAddWorkspace(id, root) => (s.(watch := WithRoot(s.watch, id, root)), None)
    case OpRemoveWorkspace(id) => (s.(watch := WithoutRoot(s.watch, id)), None)
    case OpNoteAppWrite(path, at) => (s.(watch := Noted(s.watch, path, at)), None)
    case OpClose => (s.(watch := s.watch.(closed := true)), None)
    case OpBeginEvent(at) => (s.(event := Some(at)), None)
    case OpPath(t) =>
      if s.event.None? then (s, None)
      else
        var (w, v) := HandledPath(s.watch, t, s.event.value);
        (Session(w, EventAfter(s.event, v)), OutcomeOf(t, v))
    case OpEndEvent => (s.(event := None), None)
  }

  function IdealStep(s: IdealSession, op: Op): (IdealSession, Option<Outcome>) {
    var w := s.ideal;
    match op
    case OpAddWorkspace(id, root) => (s.(ideal := if w.closed then w else w.(roots := w.roots[id := root])), None)
    case OpRemoveWorkspace(id) => (s.(ideal := if w.closed then w else w.(roots := w.roots - {id})), None)
    case OpNoteAppWrite(path, at) =>
      (s.(ideal := if w.closed then w else w.(appWrites := w.appWrites[path := at])), None)
    case OpClose => (s.(ideal := w.(closed := true)), None)
    case OpBeginEvent(at) => (s.(event := Some(at)), None)
    case OpPath(t) =>
      if s.event.None? then (s, None)
      else
        var (w', v) := IdealHandledPath(w, t, s.event.value);
        (IdealSession(w', EventAfter(s.event, v)), OutcomeOf(t, v))
    case OpEndEvent => (s.(event := None), None)
  }

  /** The outcomes of a run, at most one per operation. */
  function Trace(s: Session, ops: seq<Op>): (out: seq<Option<Outcome>>)
    ensures |out| == |ops|
    decreases |ops|
  {
    if ops == [] then [] else [Step(s, ops[0]).1] + Trace(Step(s, ops[0]).0, ops[1..])
  }

  function IdealTrace(s: IdealSession, ops: seq<Op>): (out: seq<Option<Outcome>>)
    ensures |out| == |ops|
    decreases |ops|
  {
    if ops == [] then [] else [IdealStep(s, ops[0]).1] + IdealTrace(IdealStep(s, ops[0]).0, ops[1..])
  }

  function After(s: Session, ops: seq<Op>): Session
    decreases |ops|
  {
    if ops == [] then s else After(Step(s, ops[0]).0, ops[1..])
  }

  function Outcomes(out: seq<Option<Outcome>>): seq<Outcome> {
    if out == [] then [] else (if out[0].Some? then [out[0].value] else []) + Outcomes(out[1..])
  }

  function PathOps(paths: seq<Touched>): seq<Op> {
    if paths == [] then [OpEndEvent] else [OpPath(paths[0])] + PathOps(paths[1..])
  }

  lemma {:induction false} ReturnedEventDoesNothing(s: Session, paths: seq<Touched>)
    requires s.event.None?
    ensures After(s, PathOps(paths)) == s && Outcomes(Trace(s, PathOps(paths))) == []
  {
    var ops := PathOps(paths);
    if paths != [] {
      assert ops[1..] == PathOps(paths[1..]);
      ReturnedEventDoesNothing(s, paths[1..]);
      assert Trace(s, ops)[1..] == Trace(s, ops[1..]);
    } else {
      assert ops[1..] == [];
    }
  }

  /** An event that nothing comes between is the loop of `handle_event`. */
  lemma {:induction false} EventIsItsSteps(w: Watch, paths: seq<Touched>, now: int)
    ensures After(Session(w, Some(now)), PathOps(paths)) == Session(Handled(w, paths, now).0, None)
    ensures Outcomes(Trace(Session(w, Some(now)), PathOps(paths))) == Handled(w, paths, now).1
    decreases |paths|
  {
    var s, ops := Session(w, Some(now)), PathOps(paths);
    if paths == [] {
      assert ops[1..] == [];
      assert Trace(s, ops) == [None] && [None][1..] == Trace(Step(s, ops[0]).0, []);
    } else {
      assert ops[1..] == PathOps(paths[1..]);
      var (w1, v) := HandledPath(w, paths[0], now);
      var s' := Step(s, ops[0]).0;
      assert Trace(s, ops)[1..] == Trace(s', ops[1..]);
      if v.Some? && v.value != Pass {
        ReturnedEventDoesNothing(s', paths[1..]);
      } else {
        EventIsItsSteps(w1, paths[1..], now);
      }
    }
  }

  function TimeOf(op: Op, clock: int): int {
    if op.OpNoteAppWrite? || op.OpBeginEvent? then op.at else clock
  }

  ghost function Recent(m: map<Path, int>, now: int, window: int): set<Path> {
    set p | p in m && Age(now, m[p]) < window
  }

  /** What the decisions to come will count ages from at least: the reading of the event being handled, or
    * else the clock. */
  function Horizon(event: Option<int>, clock: int): int {
    if event.Some? then event.value else clock
  }

  /** Clock readings do not decrease in the order in which they are taken; and at any time at most `cap`
    * distinct paths recorded in a map are inside its own window, counted from the horizon. */
  ghost predicate Feasible(u: IdealSession, ops: seq<Op>, clock: int, cap: nat)
    decreases |ops|
  {
    ops == [] ||
    (var t := TimeOf(ops[0], clock);
     var u' := IdealStep(u, ops[0]).0;
     && clock <= t
     && |Recent(u'.ideal.appWrites, Horizon(u'.event, t), APP_WRITE_SUPPRESSION)| <= cap
     && |Recent(u'.ideal.lastEmit, Horizon(u'.event, t), EMIT_THROTTLE)| <= cap
     && Feasible(u', ops[1..], t, cap))
  }

  // ----- Agreement of a bounded map with an unbounded one -----

  ghost predicate NewestFirst(es: seq<(Path, int)>) {
    forall i, j :: 0 <= i < j < |es| ==> es[i].1 >= es[j].1
  }

  /** The cache holds part of the map, newest first, and all of it that is inside the window counted from
    * `now`; nothing was recorded after `latest`. */
  ghost predicate Agrees(c: Lru<Path, int>, m: map<Path, int>, now: int, window: int, latest: int) {
    && c.Valid()
    && NewestFirst(c.entries)
    && (forall p :: p in m ==> m[p] <= latest)
    && (forall e :: e in c.entries ==> e.0 in m && m[e.0] == e.1)
    && (forall p :: p in Recent(m, now, window) ==> (p, m[p]) in c.entries)
  }

  lemma AgreesLater(c: Lru<Path, int>, m: map<Path, int>, now: int, later: int, window: int, latest: int, latest': int)
    requires now <= later && latest <= latest' && Agrees(c, m, now, window, latest)
    ensures Agrees(c, m, later, window, latest')
  {
    assert Recent(m, later, window) <= Recent(m, now, window);
  }

  lemma PeekAgrees(c: Lru<Path, int>, m: map<Path, int>, now: int, window: int, latest: int, p: Path)
    requires Agrees(c, m, now, window, latest)
    ensures (c.Peek(p).Some? && Age(now, c.Peek(p).value) < window) <==> p in Recent(m, now, window)
  {
    if c.Peek(p).Some? {
      LookupIsMembership(c.entries, p, c.Peek(p).value);
    }
    if p in m {
      LookupIsMembership(c.entries, p, m[p]);
    }
  }

  lemma {:induction false} WithoutIsNewestFirst(es: seq<(Path, int)>, k: Path)
    requires NewestFirst(es)
    ensures NewestFirst(Without(es, k))
  {
    if es == [] {
    } else {
      WithoutIsNewestFirst(es[1..], k);
      forall e | e in Without(es[1..], k) ensures e.1 <= es[0].1 {
        WithoutMembership(es[1..], k, e);
      }
    }
  }

  /** The whole recency list before eviction agrees with the updated map. */
  lemma PutBeforeEviction(c: Lru<Path, int>, m: map<Path, int>, now: int, window: int, latest: int, k: Path, at: int)
    requires Agrees(c, m, now, window, latest) && latest <= at
    ensures var moved, m' := [(k, at)] + Without(c.entries, k), m[k := at];
            && Distinct(moved) && NewestFirst(moved)
            && (forall e :: e in moved ==> e.0 in m' && m'[e.0] == e.1)
            && (forall p :: p in Recent(m', now, window) ==> (p, m'[p]) in moved)
            && |moved| <= c.capacity + 1
  {
    var m' := m[k := at];
    MovedToFront(c.entries, k, at);
    WithoutIsNewestFirst(c.entries, k);
    forall e ensures e in Without(c.entries, k) <==> e in c.entries && e.0 != k {
      WithoutMembership(c.entries, k, e);
    }
    forall p | p in Recent(m', now, window) ensures (p, m'[p]) in [(k, at)] + Without(c.entries, k) {
      if p != k {
        assert p in Recent(m, now, window);
      }
    }
  }

  /** When the list overflows, its last entry has left the window: otherwise more than `capacity`
    * distinct paths would be inside it. */
  lemma EvictedIsOld(moved: seq<(Path, int)>, m: map<Path, int>, now: int, window: int, capacity: nat)
    requires |moved| == capacity + 1 && Distinct(moved) && NewestFirst(moved)
    requires forall e :: e in moved ==> e.0 in m && m[e.0] == e.1
    requires |Recent(m, now, window)| <= capacity
    ensures Age(now, moved[capacity].1) >= window
  {
    if Age(now, moved[capacity].1) < window {
      var keys := set e | e in moved :: e.0;
      DistinctKeyCount(moved);
      forall p | p in keys ensures p in Recent(m, now, window) {
        var i :| 0 <= i < |moved| && moved[i].0 == p;
        assert moved[i] in moved && moved[i].1 >= moved[capacity].1;
      }
      SubsetIsSmaller(keys, Recent(m, now, window));
    }
  }

  lemma {:induction false} SubsetIsSmaller(a: set<Path>, b: set<Path>)
    requires a <= b
    ensures |a| <= |b|
    decreases |a|
  {
    if a == {} {
    } else {
      var x :| x in a;
      SubsetIsSmaller(a - {x}, b - {x});
    }
  }

  lemma PutAgrees(c: Lru<Path, int>, m: map<Path, int>, now: int, window: int, latest: int, k: Path, at: int)
    requires Agrees(c, m, now, window, latest) && latest <= at
    requires |Recent(m[k := at], now, window)| <= c.capacity
    ensures Agrees(c.Put(k, at), m[k := at], now, window, at)
  {
    var moved, m' := [(k, at)] + Without(c.entries, k), m[k := at];
    PutBeforeEviction(c, m, now, window, latest, k, at);
    OperationsKeepValid(c, k, at);
    hide Distinct, Without, NewestFirst;
    if |moved| > c.capacity {
      EvictedIsOld(moved, m', now, window, c.capacity);
      CutAgrees(moved, m', now, window, c.capacity);
    }
  }

  lemma CutAgrees(moved: seq<(Path, int)>, m: map<Path, int>, now: int, window: int, capacity: nat)
    requires |moved| == capacity + 1 && NewestFirst(moved) && Age(now, moved[capacity].1) >= window
    requires forall e :: e in moved ==> e.0 in m && m[e.0] == e.1
    requires forall p :: p in Recent(m, now, window) ==> (p, m[p]) in moved
    ensures NewestFirst(moved[..capacity])
    ensures forall e :: e in moved[..capacity] ==> e.0 in m && m[e.0] == e.1
    ensures forall p :: p in Recent(m, now, window) ==> (p, m[p]) in moved[..capacity]
  {
    assert moved == moved[..capacity] + [moved[capacity]];
  }

  lemma {:induction false} YoungMembership(es: seq<(Path, int)>, now: int, maxAge: int, e: (Path, int))
    ensures e in Young(es, now, maxAge) <==> e in es && Age(now, e.1) <= maxAge
  {
    if es == [] {
    } else {
      YoungMembership(es[1..], now, maxAge, e);
    }
  }

  lemma {:induction false} YoungIsOrdered(es: seq<(Path, int)>, now: int, maxAge: int)
    requires Distinct(es)
    ensures Distinct(Young(es, now, maxAge)) && |Young(es, now, maxAge)| <= |es|
    ensures NewestFirst(es) ==> NewestFirst(Young(es, now, maxAge))
  {
    if es == [] {
    } else {
      YoungIsOrdered(es[1..], now, maxAge);
      var rest := Young(es[1..], now, maxAge);
      forall e | e in rest ensures e.0 != es[0].0 && (NewestFirst(es) ==> e.1 <= es[0].1) {
        YoungMembership(es[1..], now, maxAge, e);
      }
      ConsIsDistinct(es[0], rest);
    }
  }

  lemma ExpireKeepsValid(c: Lru<Path, int>, now: int, maxAge: int)
    requires c.Valid()
    ensures Expire(c, now, maxAge).Valid()
  {
    YoungIsOrdered(c.entries, now, maxAge);
  }

  lemma ExpireAgrees(c: Lru<Path, int>, m: map<Path, int>, now: int, window: int, latest: int, maxAge: int)
    requires Agrees(c, m, now, window, latest) && window <= maxAge + 1
    ensures Agrees(Expire(c, now, maxAge), m, now, window, latest)
  {
    YoungIsOrdered(c.entries, now, maxAge);
    forall e ensures e in Young(c.entries, now, maxAge) <==> e in c.entries && Age(now, e.1) <= maxAge {
      YoungMembership(c.entries, now, maxAge, e);
    }
  }

  /** Emits are recorded under the reading of their event, app writes under later ones too. */
  ghost predicate Matches(w: Watch, u: Ideal, now: int, clock: int, cap: nat) {
    && w.foldsCase == u.foldsCase && w.roots == u.roots && w.closed == u.closed
    && w.appWrites.capacity == cap && w.lastEmit.capacity == cap
    && Agrees(w.appWrites, u.appWrites, now, APP_WRITE_SUPPRESSION, clock)
    && Agrees(w.lastEmit, u.lastEmit, now, EMIT_THROTTLE, now)
  }

  ghost predicate SessionsMatch(s: Session, u: IdealSession, clock: int, cap: nat) {
    && s.event == u.event && Horizon(u.event, clock) <= clock
    && Matches(s.watch, u.ideal, Horizon(u.event, clock), clock, cap)
  }

  lemma MatchesLater(w: Watch, u: Ideal, now: int, clock: int, cap: nat, later: int, clock': int)
    requires Matches(w, u, now, clock, cap) && now <= later && clock <= clock'
    ensures Matches(w, u, later, clock', cap)
  {
    AgreesLater(w.appWrites, u.appWrites, now, later, APP_WRITE_SUPPRESSION, clock, clock');
    AgreesLater(w.lastEmit, u.lastEmit, now, later, EMIT_THROTTLE, now, later);
  }

  lemma CleanedMatches(w: Watch, u: Ideal, now: int, clock: int, cap: nat)
    requires Matches(w, u, now, clock, cap)
    ensures Matches(Cleaned(w, now), u, now, clock, cap)
  {
    ExpireAgrees(w.appWrites, u.appWrites, now, APP_WRITE_SUPPRESSION, clock, APP_WRITE_SUPPRESSION);
    ExpireAgrees(w.lastEmit, u.lastEmit, now, EMIT_THROTTLE, now, CLEANUP_INTERVAL);
  }

  lemma DecisionsMatch(w: Watch, u: Ideal, now: int, clock: int, cap: nat, p: Path)
    requires Matches(w, u, now, clock, cap)
    ensures Decide(Owned(w.roots, p, w.foldsCase), w.appWrites.Peek(p), w.lastEmit.Peek(p), now)
         == Decide(Owned(u.roots, p, u.foldsCase), At(u.appWrites, p), At(u.lastEmit, p), now)
  {
    PeekAgrees(w.appWrites, u.appWrites, now, APP_WRITE_SUPPRESSION, clock, p);
    PeekAgrees(w.lastEmit, u.lastEmit, now, EMIT_THROTTLE, now, p);
  }

  lemma HandledPathMatches(w: Watch, u: Ideal, t: Touched, now: int, clock: int, cap: nat)
    requires Matches(w, u, now, clock, cap)
    requires IdealHandledPath(u, t, now).1 == Some(Pass) ==>
               |Recent(IdealHandledPath(u, t, now).0.lastEmit, now, EMIT_THROTTLE)| <= cap
    ensures HandledPath(w, t, now).1 == IdealHandledPath(u, t, now).1
    ensures Matches(HandledPath(w, t, now).0, IdealHandledPath(u, t, now).0, now, clock, cap)
  {
    if !SkipsPath(t) && !w.closed {
      CleanedMatches(w, u, now, clock, cap);
      var w1 := if Age(now, w.lastCleanup) > CLEANUP_INTERVAL then Cleaned(w, now) else w;
      DecisionsMatch(w1, u, now, clock, cap, t.path);
      if IdealHandledPath(u, t, now).1 == Some(Pass) {
        PutAgrees(w1.lastEmit, u.lastEmit, now, EMIT_THROTTLE, now, t.path, now);
      }
    }
  }

  lemma PathStepMatches(s: Session, u: IdealSession, t: Touched, clock: int, cap: nat)
    requires SessionsMatch(s, u, clock, cap) && Feasible(u, [OpPath(t)], clock, cap)
    ensures Step(s, OpPath(t)).1 == IdealStep(u, OpPath(t)).1
    ensures SessionsMatch(Step(s, OpPath(t)).0, IdealStep(u, OpPath(t)).0, clock, cap)
  {
    if s.event.Some? {
      var now := s.event.value;
      HandledPathMatches(s.watch, u.ideal, t, now, clock, cap);
      hide HandledPath, IdealHandledPath, Matches;
      var s', u' := Step(s, OpPath(t)).0, IdealStep(u, OpPath(t)).0;
      if s'.event.None? {
        MatchesLater(s'.watch, u'.ideal, now, clock, cap, clock, clock);
      }
    }
  }

  lemma NoteStepMatches(s: Session, u: IdealSession, path: Path, at: int, clock: int, cap: nat)
    requires SessionsMatch(s, u, clock, cap) && Feasible(u, [OpNoteAppWrite(path, at)], clock, cap)
    ensures SessionsMatch(Step(s, OpNoteAppWrite(path, at)).0, IdealStep(u, OpNoteAppWrite(path, at)).0, at, cap)
  {
    var now := Horizon(u.event, at);
    MatchesLater(s.watch, u.ideal, Horizon(u.event, clock), clock, cap, now, clock);
    if s.watch.closed {
      MatchesLater(s.watch, u.ideal, now, clock, cap, now, at);
    } else {
      PutAgrees(s.watch.appWrites, u.ideal.appWrites, now, APP_WRITE_SUPPRESSION, clock, path, at);
    }
  }

  lemma StepMatches(s: Session, u: IdealSession, op: Op, clock: int, cap: nat)
    requires SessionsMatch(s, u, clock, cap) && Feasible(u, [op], clock, cap)
    ensures Step(s, op).1 == IdealStep(u, op).1
    ensures SessionsMatch(Step(s, op).0, IdealStep(u, op).0, TimeOf(op, clock), cap)
  {
    match op
    case OpPath(t) => PathStepMatches(s, u, t, clock, cap);
    case OpNoteAppWrite(path, at) => NoteStepMatches(s, u, path, at, clock, cap);
    case OpBeginEvent(at) => MatchesLater(s.watch, u.ideal, Horizon(u.event, clock), clock, cap, at, at);
    case OpEndEvent => MatchesLater(s.watch, u.ideal, Horizon(u.event, clock), clock, cap, clock, clock);
    case _ =>
  }

  lemma FeasibleFirst(u: IdealSession, ops: seq<Op>, clock: int, cap: nat)
    requires ops != [] && Feasible(u, ops, clock, cap)
    ensures Feasible(u, [ops[0]], clock, cap)
    ensures Feasible(IdealStep(u, ops[0]).0, ops[1..], TimeOf(ops[0], clock), cap) && clock <= TimeOf(ops[0], clock)
  {
    assert [ops[0]][1..] == [];
  }

  /** The bounded, cleaned maps decide every path of every run as unbounded ones would. */
  lemma {:induction false} BoundedMapsDecideAlike(s: Session, u: IdealSession, ops: seq<Op>, clock: int, cap: nat)
    requires SessionsMatch(s, u, clock, cap) && Feasible(u, ops, clock, cap)
    ensures Trace(s, ops) == IdealTrace(u, ops)
    decreases |ops|
  {
    if ops == [] {
    } else {
      FeasibleFirst(u, ops, clock, cap);
      hide SessionsMatch, Feasible, Step, IdealStep;
      StepMatches(s, u, ops[0], clock, cap);
      BoundedMapsDecideAlike(Step(s, ops[0]).0, IdealStep(u, ops[0]).0, ops[1..], TimeOf(ops[0], clock), cap);
    }
  }

  function Started(foldsCase: bool, now: int): Session {
    Session(NewWatch(foldsCase, now), None)
  }

  function IdealStarted(foldsCase: bool): IdealSession {
    IdealSession(NewIdeal(foldsCase), None)
  }

  /** The same from the state `SharedState` starts in, at its real capacity. */
  lemma {:induction false} WatcherDecidesLikeUnboundedMaps(foldsCase: bool, ops: seq<Op>, start: int)
    requires Feasible(IdealStarted(foldsCase), ops, start, STATE_CAP)
    ensures Trace(Started(foldsCase, start), ops) == IdealTrace(IdealStarted(foldsCase), ops)
  {
    BoundedMapsDecideAlike(Started(foldsCase, start), IdealStarted(foldsCase), ops, start, STATE_CAP);
  }

  // ----- Spacing of surfaced changes -----

  /** The clock reading of the last event begun before place `i`, `last` if there is none. */
  function Reading(last: int, ops: seq<Op>, i: nat): int
    requires i <= |ops|
    decreases i
  {
    if i == 0 then last else Reading(if ops[0].OpBeginEvent? then ops[0].at else last, ops[1..], i - 1)
  }

  /** The readings of the events that passed path `p` on, read off a trace. */
  ghost function PassTimes(last: int, ops: seq<Op>, out: seq<Option<Outcome>>, p: Path): seq<int>
    requires |out| == |ops|
    decreases |ops|
  {
    if ops == [] then []
    else
      (if out[0] == Some(Outcome(p, Pass)) then [last] else [])
      + PassTimes(if ops[0].OpBeginEvent? then ops[0].at else last, ops[1..], out[1..], p)
  }

  /** All gaps of a list of times are at least the throttle, also from an earlier time if there is one. */
  ghost predicate Spaced(before: Option<int>, ts: seq<int>) {
    && (before.Some? && ts != [] ==> Age(ts[0], before.value) >= EMIT_THROTTLE)
    && (forall i, j :: 0 <= i < j < |ts| ==> ts[j] - ts[i] >= EMIT_THROTTLE)
  }

  /** A step passes a path only if that is not within the throttle of its last pass. */
  lemma PassOfStep(u: IdealSession, op: Op, p: Path)
    ensures var (u', out) := IdealStep(u, op);
            if out == Some(Outcome(p, Pass)) then
              && u.event.Some? && At(u'.ideal.lastEmit, p) == u.event && u'.event == u.event
              && (p in u.ideal.lastEmit ==> Age(u.event.value, u.ideal.lastEmit[p]) >= EMIT_THROTTLE)
            else At(u'.ideal.lastEmit, p) == At(u.ideal.lastEmit, p)
  {
  }

  lemma EventOfStep(u: IdealSession, op: Op, last: int)
    requires u.event.Some? ==> u.event.value == last
    ensures var u' := IdealStep(u, op).0;
            u'.event.Some? ==> u'.event.value == if op.OpBeginEvent? then op.at else last
  {
  }

  lemma {:induction false} PassesAfter(u: IdealSession, ops: seq<Op>, last: int, p: Path)
    requires u.event.Some? ==> u.event.value == last
    ensures Spaced(At(u.ideal.lastEmit, p), PassTimes(last, ops, IdealTrace(u, ops), p))
    decreases |ops|
  {
    if ops == [] {
    } else {
      var (u', out) := IdealStep(u, ops[0]);
      var last' := if ops[0].OpBeginEvent? then ops[0].at else last;
      EventOfStep(u, ops[0], last);
      PassOfStep(u, ops[0], p);
      PassesAfter(u', ops[1..], last', p);
      FirstPassTime(u, ops, last, p);
      hide IdealStep, IdealTrace, PassTimes, Spaced;
      var rest := PassTimes(last', ops[1..], IdealTrace(u', ops[1..]), p);
      if out == Some(Outcome(p, Pass)) {
        SpacedOneMore(At(u.ideal.lastEmit, p), last, rest);
      } else {
        assert [] + rest == rest;
      }
    }
  }

  lemma FirstPassTime(u: IdealSession, ops: seq<Op>, last: int, p: Path)
    requires ops != []
    ensures var (u', out) := IdealStep(u, ops[0]);
            PassTimes(last, ops, IdealTrace(u, ops), p)
            == (if out == Some(Outcome(p, Pass)) then [last] else [])
               + PassTimes(if ops[0].OpBeginEvent? then ops[0].at else last, ops[1..], IdealTrace(u', ops[1..]), p)
  {
    hide IdealStep;
    assert IdealTrace(u, ops)[1..] == IdealTrace(IdealStep(u, ops[0]).0, ops[1..]);
  }

  lemma SpacedOneMore(before: Option<int>, t: int, rest: seq<int>)
    requires Spaced(Some(t), rest) && (before.Some? ==> Age(t, before.value) >= EMIT_THROTTLE)
    ensures Spaced(before, [t] + rest)
  {
    forall j | 0 <= j < |rest| ensures rest[j] - t >= EMIT_THROTTLE {
      assert j > 0 ==> rest[j] - rest[0] >= EMIT_THROTTLE;
    }
  }

  /** Changes of one path are surfaced at least 300 ms apart, by the readings of their events, in every run
    * of the watcher. */
  lemma {:induction false} PassesAreThrottled(foldsCase: bool, ops: seq<Op>, start: int, p: Path)
    requires Feasible(IdealStarted(foldsCase), ops, start, STATE_CAP)
    ensures var ts := PassTimes(start, ops, Trace(Started(foldsCase, start), ops), p);
            forall i, j :: 0 <= i < j < |ts| ==> ts[j] - ts[i] >= EMIT_THROTTLE
  {
    WatcherDecidesLikeUnboundedMaps(foldsCase, ops, start);
    PassesAfter(IdealStarted(foldsCase), ops, start, p);
  }

  /** The app wrote `p` at `at` or later, or the watcher is closed. */
  ghost predicate Wrote(u: IdealSession, p: Path, at: int) {
    u.ideal.closed || (p in u.ideal.appWrites && u.ideal.appWrites[p] >= at)
  }

  lemma WroteStays(u: IdealSession, op: Op, p: Path, at: int)
    requires Wrote(u, p, at) && (op.OpNoteAppWrite? ==> op.at >= at)
    ensures Wrote(IdealStep(u, op).0, p, at)
  {
  }

  lemma {:induction false} SuppressedAfterWrite(
    u: IdealSession, ops: seq<Op>, last: int, clock: int, cap: nat, i: nat, p: Path, at: int)
    requires Feasible(u, ops, clock, cap) && at <= clock && Wrote(u, p, at)
    requires u.event.Some? ==> u.event.value == last
    requires i < |ops| && ops[i].OpPath? && Age(Reading(last, ops, i), at) < APP_WRITE_SUPPRESSION
    ensures IdealTrace(u, ops)[i] != Some(Outcome(p, Pass))
    decreases i
  {
    if i == 0 {
    } else {
      var last' := if ops[0].OpBeginEvent? then ops[0].at else last;
      FeasibleFirst(u, ops, clock, cap);
      WroteStays(u, ops[0], p, at);
      EventOfStep(u, ops[0], last);
      hide IdealStep, Feasible, Wrote;
      SuppressedAfterWrite(IdealStep(u, ops[0]).0, ops[1..], last', TimeOf(ops[0], clock), cap, i - 1, p, at);
    }
  }

  lemma {:induction false} SuppressedFrom(u: IdealSession, ops: seq<Op>, last: int, clock: int, cap: nat,
                                           k: nat, i: nat, p: Path)
    requires Feasible(u, ops, clock, cap) && (u.event.Some? ==> u.event.value == last)
    requires k < i < |ops| && ops[i].OpPath?
    requires ops[k].OpNoteAppWrite? && ops[k].path == p && Age(Reading(last, ops, i), ops[k].at) < APP_WRITE_SUPPRESSION
    ensures IdealTrace(u, ops)[i] != Some(Outcome(p, Pass))
    decreases k
  {
    var u' := IdealStep(u, ops[0]).0;
    var last' := if ops[0].OpBeginEvent? then ops[0].at else last;
    FeasibleFirst(u, ops, clock, cap);
    EventOfStep(u, ops[0], last);
    if k == 0 {
      assert Wrote(u', p, ops[0].at);
      hide IdealStep, Feasible, Wrote;
      SuppressedAfterWrite(u', ops[1..], last', ops[0].at, cap, i - 1, p, ops[0].at);
    } else {
      hide IdealStep, Feasible;
      SuppressedFrom(u', ops[1..], last', TimeOf(ops[0], clock), cap, k - 1, i - 1, p);
    }
  }

  /** A change is never surfaced when the app has noted a write of that path before the lock was taken for
    * it, less than two seconds before the event's clock reading or after it. */
  lemma {:induction false} AppWritesAreSuppressed(foldsCase: bool, ops: seq<Op>, start: int, k: nat, i: nat, p: Path)
    requires Feasible(IdealStarted(foldsCase), ops, start, STATE_CAP)
    requires k < i < |ops| && ops[i].OpPath?
    requires ops[k].OpNoteAppWrite? && ops[k].path == p
            && Age(Reading(start, ops, i), ops[k].at) < APP_WRITE_SUPPRESSION
    ensures Trace(Started(foldsCase, start), ops)[i] != Some(Outcome(p, Pass))
  {
    WatcherDecidesLikeUnboundedMaps(foldsCase, ops, start);
    SuppressedFrom(IdealStarted(foldsCase), ops, start, start, STATE_CAP, k, i, p);
  }
}
