/** The path budget shared by open and recently edited files in a prompt (src/acp/context.rs). */
module PromptContext {
  import opened Sequences
  import opened Options

  /** src/config/model.rs: the upper bound on paths in a prompt. */
  const MAX_PROMPT_CONTEXT_PATHS := 100

  function Min(a: nat, b: nat): nat {
    if a < b then a else b
  }

  // ----- Relative paths -----

  function FirstSlash(path: string): (n: nat)
    ensures n <= |path| && '/' !in path[..n] && (n < |path| ==> path[n] == '/')
  {
    if path == "" || path[0] == '/' then 0
    else
      var n := 1 + FirstSlash(path[1..]);
      assert path[..n] == [path[0]] + path[1..][..n - 1];
      n
  }

  /** The pieces between slashes. */
  function Pieces(path: string): seq<string>
    decreases |path|
  {
    var n := FirstSlash(path);
    [path[..n]] + (if n < |path| then Pieces(path[n + 1..]) else [])
  }

  predicate IsRelative(path: string) {
    path != "" && path[0] != '/' && ".." !in Pieces(path)
  }

  /** The path itself unless it is empty, absolute or has a parent component. */
  function RelativePath(path: string): Option<string> {
    if IsRelative(path) then Some(path) else None
  }

  function RelativePaths(paths: seq<string>): seq<string> {
    if paths == [] then [] else (if IsRelative(paths[0]) then [paths[0]] else []) + RelativePaths(paths[1..])
  }

  // ----- One pass -----

  /** The first occurrences, in order. */
  function Deduplicated(s: seq<string>): seq<string> {
    if s == [] then []
    else
      var front, last := s[..|s| - 1], s[|s| - 1];
      Deduplicated(front) + (if last in front then [] else [last])
  }

  function FirstOf(s: seq<string>, n: nat): seq<string> {
    s[..Min(n, |s|)]
  }

  /** What a single budget over a single list would disclose. */
  function Budgeted(paths: seq<string>, limit: nat): seq<string> {
    FirstOf(Deduplicated(RelativePaths(paths)), limit)
  }

  function Elements(s: seq<string>): set<string> {
    set x | x in s
  }

  // ----- Two passes over a shared set -----

  /** `filter_map(relative_path).filter(seen.insert).take(limit)`: the chain is lazy, so nothing behind the
    * last path taken is looked at. `passed` is the number of paths consumed. */
  method BoundedRelativePaths(paths: seq<string>, limit: nat, seen: set<string>)
    returns (taken: seq<string>, seenAfter: set<string>, passed: nat)
    ensures passed <= |paths| && |taken| <= limit && (|taken| < limit ==> passed == |paths|)
    ensures taken == NewPaths(RelativePaths(paths[..passed]), seen)
    ensures seenAfter == seen + Elements(taken)
  {
    taken, seenAfter, passed := [], seen, 0;
    while passed < |paths| && |taken| < limit
      invariant passed <= |paths| && |taken| <= limit
      invariant taken == NewPaths(RelativePaths(paths[..passed]), seen)
      invariant seenAfter == seen + Elements(taken)
    {
      OnePathMore(paths, passed, seen);
      var relative := RelativePath(paths[passed]);
      if relative.Some? && relative.value !in seenAfter {
        seenAfter := seenAfter + {relative.value};
        taken := taken + [relative.value];
      }
      passed := passed + 1;
    }
    assert paths[..|paths|] == paths;
  }

  /** The first occurrences of the elements that are not in `seen`. */
  ghost function NewPaths(s: seq<string>, seen: set<string>): seq<string> {
    if s == [] then []
    else
      var front, last := s[..|s| - 1], s[|s| - 1];
      NewPaths(front, seen) + (if last in front || last in seen then [] else [last])
  }

  lemma OnePathMore(paths: seq<string>, n: nat, seen: set<string>)
    requires n < |paths|
    ensures var taken := NewPaths(RelativePaths(paths[..n]), seen);
            && NewPaths(RelativePaths(paths[..n + 1]), seen)
               == (if IsRelative(paths[n]) && paths[n] !in seen + Elements(taken) then taken + [paths[n]] else taken)
  {
    hide IsRelative;
    var front := RelativePaths(paths[..n]);
    assert paths[..n + 1] == paths[..n] + [paths[n]];
    RelativePathsAppend(paths[..n], [paths[n]]);
    assert RelativePaths([paths[n]]) == if IsRelative(paths[n]) then [paths[n]] else [];
    NewPathsAreElements(front, seen);
    if IsRelative(paths[n]) {
      assert (front + [paths[n]])[..|front|] == front;
    } else {
      assert front + [] == front;
    }
  }

  /** The budget part of `prepare`. Whatever is open and recent, both sections together are what one pass
    * over both lists would select, and the open files come first. */
  method SharedBudget(openFiles: seq<string>, recentEdits: seq<string>, openFileLimit: nat)
    returns (open: seq<string>, recent: seq<string>)
    ensures open + recent == Budgeted(openFiles + recentEdits, if openFileLimit < 100 then openFileLimit else 100)
    ensures open == Budgeted(openFiles, if openFileLimit < 100 then openFileLimit else 100)
  {
    var pathLimit := Min(openFileLimit, MAX_PROMPT_CONTEXT_PATHS);
    var seen: set<string> := {};
    var passed, passedRecent;
    open, seen, passed := BoundedRelativePaths(openFiles, pathLimit, seen);
    recent, seen, passedRecent := BoundedRelativePaths(recentEdits,
        if |open| < pathLimit then pathLimit - |open| else 0, seen);
    TwoPassesAreOne(openFiles, recentEdits, pathLimit, open, passed, recent, passedRecent);
  }

  lemma TwoPassesAreOne(openFiles: seq<string>, recentEdits: seq<string>, limit: nat,
                        open: seq<string>, passed: nat, recent: seq<string>, passedRecent: nat)
    requires passed <= |openFiles| && |open| <= limit && (|open| < limit ==> passed == |openFiles|)
    requires passedRecent <= |recentEdits| && |open| + |recent| <= limit
    requires |open| + |recent| < limit ==> passedRecent == |recentEdits|
    requires open == NewPaths(RelativePaths(openFiles[..passed]), {})
    requires recent == NewPaths(RelativePaths(recentEdits[..passedRecent]), {} + Elements(open))
    ensures open == Budgeted(openFiles, limit)
    ensures open + recent == Budgeted(openFiles + recentEdits, limit)
  {
    hide IsRelative, Budgeted, NewPaths, Deduplicated, RelativePaths;
    var a, b := RelativePaths(openFiles[..passed]), RelativePaths(recentEdits[..passedRecent]);
    NothingSeen(a);
    BudgetOfPrefix(openFiles, passed, limit, open);
    if |open| == limit {
      assert recent == [] && open + recent == open;
      assert (openFiles + recentEdits)[..passed] == openFiles[..passed];
      BudgetOfPrefix(openFiles + recentEdits, passed, limit, open);
    } else {
      assert openFiles[..passed] == openFiles;
      assert (openFiles + recentEdits)[..passed + passedRecent] == openFiles + recentEdits[..passedRecent];
      RelativePathsAppend(openFiles, recentEdits[..passedRecent]);
      assert {} + Elements(open) == Elements(open);
      DeduplicatedAppend(a, b);
      BudgetOfPrefix(openFiles + recentEdits, passed + passedRecent, limit, open + recent);
    }
  }

  lemma {:induction false} RelativePathsAppend(a: seq<string>, b: seq<string>)
    ensures RelativePaths(a + b) == RelativePaths(a) + RelativePaths(b)
  {
    if a == [] {
      assert a + b == b;
    } else {
      RelativePathsAppend(a[1..], b);
      assert (a + b)[0] == a[0] && (a + b)[1..] == a[1..] + b;
      var first := if IsRelative(a[0]) then [a[0]] else [];
      Regroup(first, RelativePaths(a[1..]), RelativePaths(b));
    }
  }

  lemma {:induction false} NewPathsAreElements(s: seq<string>, seen: set<string>)
    ensures forall x :: x in NewPaths(s, seen) <==> x in s && x !in seen
  {
    if s == [] {
    } else {
      NewPathsAreElements(s[..|s| - 1], seen);
      assert s == s[..|s| - 1] + [s[|s| - 1]];
    }
  }

  lemma {:induction false} NothingSeen(s: seq<string>)
    ensures NewPaths(s, {}) == Deduplicated(s)
  {
    if s == [] {
    } else {
      NothingSeen(s[..|s| - 1]);
    }
  }

  /** The second pass goes on where the first stopped. */
  lemma {:induction false} DeduplicatedAppend(a: seq<string>, b: seq<string>)
    ensures Deduplicated(a + b) == Deduplicated(a) + NewPaths(b, Elements(Deduplicated(a)))
  {
    if b == [] {
      assert a + b == a;
    } else {
      var front, last := b[..|b| - 1], b[|b| - 1];
      DeduplicatedAppend(a, front);
      assert (a + b)[..|a + b| - 1] == a + front;
      NothingSeen(a);
      NewPathsAreElements(a, {});
    }
  }

  /** Reading on can only add behind what is there. */
  lemma {:induction false} DeduplicatedGrows(a: seq<string>, b: seq<string>)
    ensures |Deduplicated(a)| <= |Deduplicated(a + b)| && Deduplicated(a + b)[..|Deduplicated(a)|] == Deduplicated(a)
  {
    DeduplicatedAppend(a, b);
  }

  /** It is enough to read until the budget is spent. */
  lemma BudgetOfPrefix(paths: seq<string>, passed: nat, limit: nat, taken: seq<string>)
    requires passed <= |paths|
    requires taken == Deduplicated(RelativePaths(paths[..passed]))
    requires |taken| == limit || (|taken| < limit && passed == |paths|)
    ensures taken == Budgeted(paths, limit)
  {
    hide IsRelative, Deduplicated;
    if |taken| == limit {
      var a, b := RelativePaths(paths[..passed]), RelativePaths(paths[passed..]);
      assert paths == paths[..passed] + paths[passed..];
      RelativePathsAppend(paths[..passed], paths[passed..]);
      DeduplicatedGrows(a, b);
    } else {
      assert paths[..passed] == paths;
    }
  }

  // ----- What the one pass means -----

  predicate NoDuplicates(s: seq<string>) {
    forall i, j :: 0 <= i < j < |s| ==> s[i] != s[j]
  }

  /** The deduplication keeps every path once, at the place of its first occurrence. */
  lemma {:induction false} DeduplicatedKeepsFirsts(s: seq<string>)
    ensures NoDuplicates(Deduplicated(s))
    ensures Elements(Deduplicated(s)) == Elements(s)
  {
    NothingSeen(s);
    NewPathsAreElements(s, {});
    if s == [] {
    } else {
      DeduplicatedKeepsFirsts(s[..|s| - 1]);
      NothingSeen(s[..|s| - 1]);
      NewPathsAreElements(s[..|s| - 1], {});
    }
  }

  /** What is disclosed: at most the limit, no path twice, only relative paths from the lists; and if there
    * is room left, all of them. */
  lemma BudgetedIsBounded(paths: seq<string>, limit: nat)
    ensures var r := Budgeted(paths, limit);
            && |r| <= limit && NoDuplicates(r) && (forall x :: x in r ==> x in paths && IsRelative(x))
            && (|r| < limit ==> forall x :: x in paths && IsRelative(x) ==> x in r)
  {
    var rel := RelativePaths(paths);
    DeduplicatedKeepsFirsts(rel);
    assert forall x :: x in Deduplicated(rel) <==> x in Elements(Deduplicated(rel));
    assert forall x :: x in rel <==> x in Elements(rel);
    RelativePathsAreElements(paths);
  }

  lemma {:induction false} RelativePathsAreElements(paths: seq<string>)
    ensures forall x :: x in RelativePaths(paths) <==> x in paths && IsRelative(x)
  {
    if paths == [] {
    } else {
      RelativePathsAreElements(paths[1..]);
      assert paths == [paths[0]] + paths[1..];
    }
  }

  // ----- What is disclosed first -----

  /** Where a path stands first; the length of the list if nowhere. */
  function FirstIndex(s: seq<string>, x: string): nat {
    if s == [] || s[0] == x then 0 else 1 + FirstIndex(s[1..], x)
  }

  lemma {:induction false} FirstIndexInFront(front: seq<string>, last: string, x: string)
    ensures x in front ==> FirstIndex(front + [last], x) == FirstIndex(front, x) < |front|
    ensures x !in front ==> FirstIndex(front + [last], x) == if x == last then |front| else |front| + 1
  {
    if front == [] {
      assert [last][1..] == [];
    } else {
      FirstIndexInFront(front[1..], last, x);
      assert (front + [last])[1..] == front[1..] + [last];
    }
  }

  /** The relative paths of a list, once each. */
  function Disclosable(paths: seq<string>): seq<string> {
    Deduplicated(RelativePaths(paths))
  }

  lemma DisclosableOneMore(front: seq<string>, last: string)
    ensures Disclosable(front + [last])
         == Disclosable(front) + (if IsRelative(last) && last !in front then [last] else [])
    ensures forall x :: x in Disclosable(front) <==> x in front && IsRelative(x)
  {
    hide IsRelative;
    RelativePathsAppend(front, [last]);
    RelativePathsAreElements(front);
    DeduplicatedKeepsFirsts(RelativePaths(front));
    assert forall x :: x in Disclosable(front) <==> x in Elements(RelativePaths(front));
    assert RelativePaths([last]) == if IsRelative(last) then [last] else [];
    if IsRelative(last) {
      assert (RelativePaths(front) + [last])[..|RelativePaths(front)|] == RelativePaths(front);
    } else {
      assert RelativePaths(front) + [] == RelativePaths(front);
    }
  }

  ghost predicate InOrderOf(paths: seq<string>, d: seq<string>) {
    forall i, j :: 0 <= i < j < |d| ==> FirstIndex(paths, d[i]) < FirstIndex(paths, d[j])
  }

  lemma OneMoreInOrder(front: seq<string>, last: string, d: seq<string>)
    requires InOrderOf(front, d) && (forall x :: x in d ==> x in front)
    ensures InOrderOf(front + [last], d)
    ensures last !in front ==> InOrderOf(front + [last], d + [last])
  {
    forall i | 0 <= i < |d|
      ensures FirstIndex(front + [last], d[i]) == FirstIndex(front, d[i]) < |front|
    {
      assert d[i] in d;
      FirstIndexInFront(front, last, d[i]);
    }
    FirstIndexInFront(front, last, last);
  }

  lemma {:induction false} DisclosableInOrder(paths: seq<string>)
    ensures InOrderOf(paths, Disclosable(paths))
  {
    if paths == [] {
    } else {
      var front, last := paths[..|paths| - 1], paths[|paths| - 1];
      assert paths == front + [last];
      DisclosableInOrder(front);
      DisclosableOneMore(front, last);
      hide Disclosable, InOrderOf, IsRelative;
      OneMoreInOrder(front, last, Disclosable(front));
      assert Disclosable(front) + [] == Disclosable(front);
    }
  }

  /** The paths disclosed are the earliest: they stand in the order of their first occurrences, and a relative
    * path is left out only if the budget is spent on paths that occur before it. */
  lemma BudgetedIsEarliest(paths: seq<string>, limit: nat)
    ensures var r := Budgeted(paths, limit);
            && (forall i, j :: 0 <= i < j < |r| ==> FirstIndex(paths, r[i]) < FirstIndex(paths, r[j]))
            && (forall x :: x in paths && IsRelative(x) && x !in r ==>
                  |r| == limit && forall y :: y in r ==> FirstIndex(paths, y) < FirstIndex(paths, x))
  {
    var d, r := Disclosable(paths), Budgeted(paths, limit);
    DisclosableInOrder(paths);
    DisclosableElements(paths);
    assert r == d[..|r|] && |r| <= limit && (|r| < limit ==> r == d);
    hide Budgeted, Disclosable, FirstIndex, IsRelative;
    forall x | x in paths && IsRelative(x) && x !in r
      ensures |r| == limit && forall y :: y in r ==> FirstIndex(paths, y) < FirstIndex(paths, x)
    {
      assert x in d;
      var j :| 0 <= j < |d| && d[j] == x;
      assert forall k :: 0 <= k < |r| ==> d[k] in r;
      assert j >= |r|;
    }
  }

  lemma DisclosableElements(paths: seq<string>)
    ensures forall x :: x in Disclosable(paths) <==> x in paths && IsRelative(x)
  {
    DisclosableOneMore(paths, "");
  }

  /** Two dots between slashes or ends at place `k`. */
  ghost predicate IsParentAt(path: string, k: int) {
    && 0 <= k && k + 2 <= |path| && path[k] == '.' && path[k + 1] == '.'
    && (k == 0 || path[k - 1] == '/') && (k + 2 == |path| || path[k + 2] == '/')
  }

  lemma ParentInFirst(path: string, n: nat)
    requires n <= |path| && '/' !in path[..n] && (n < |path| ==> path[n] == '/')
    ensures path[..n] == ".." <==> IsParentAt(path, 0)
    ensures forall k :: 0 < k <= n ==> !IsParentAt(path, k)
  {
    assert forall i :: 0 <= i < n ==> path[i] in path[..n];
  }

  lemma ParentInRest(path: string, n: nat, k: nat)
    requires n < |path| && path[n] == '/'
    ensures IsParentAt(path, n + 1 + k) <==> IsParentAt(path[n + 1..], k)
  {
    var rest := path[n + 1..];
    assert forall i :: 0 <= i < |rest| ==> rest[i] == path[n + 1 + i];
  }

  ghost predicate HasParent(path: string, from: int) {
    exists k :: from <= k && IsParentAt(path, k)
  }

  lemma ParentsInRest(path: string, n: nat)
    requires n < |path| && path[n] == '/'
    ensures HasParent(path[n + 1..], 0) <==> HasParent(path, n + 1)
  {
    var rest := path[n + 1..];
    if HasParent(rest, 0) {
      var k :| 0 <= k && IsParentAt(rest, k);
      ParentInRest(path, n, k);
    }
    if HasParent(path, n + 1) {
      var k :| n + 1 <= k && IsParentAt(path, k);
      ParentInRest(path, n, k - n - 1);
    }
  }

  lemma {:induction false} ParentPieceIff(path: string)
    ensures ".." in Pieces(path) <==> HasParent(path, 0)
    decreases |path|
  {
    var n := FirstSlash(path);
    ParentInFirst(path, n);
    if n < |path| {
      ParentPieceIff(path[n + 1..]);
      ParentsInRest(path, n);
      hide IsParentAt;
      assert HasParent(path, 0) <==> IsParentAt(path, 0) || HasParent(path, n + 1);
    }
  }

  /** A path is relative unless it is empty, starts with a slash, or has two dots between slashes or ends. */
  lemma RelativeIff(path: string)
    ensures IsRelative(path) <==> path != "" && path[0] != '/' && forall k :: !IsParentAt(path, k)
  {
    ParentPieceIff(path);
  }
}
