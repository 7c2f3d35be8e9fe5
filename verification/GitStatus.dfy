/** The NUL-separated status parser of `status` (src/git/repo.rs), on bytes. */
module GitStatus {
  import opened Sequences
  import opened Options
  import opened Utf8

  type Bytes = seq<Byte>

  const NUL: Byte := 0
  const BLANK: Byte := ' ' as int
  const QUERY: Byte := '?' as int
  const SLASH: Byte := '/' as int
  const BACKSLASH: Byte := '\\' as int

  datatype FileStatus = FileStatus(path: Bytes, oldPath: Option<Bytes>, status: string, staged: bool)

  predicate IsRename(code: Byte) {
    code == 'R' as int || code == 'C' as int
  }

  /** `replace('\\', "/")`. */
  function Slashed(path: Bytes): (r: Bytes)
    ensures |r| == |path|
    ensures r == path <==> BACKSLASH !in path
  {
    seq(|path|, i requires 0 <= i < |path| => if path[i] == BACKSLASH then SLASH else path[i])
  }

  function StatusFor(code: Byte): string {
    if code == 'A' as int then "added"
    else if code == 'D' as int then "deleted"
    else if IsRename(code) then "renamed"
    else if code == 'U' as int then "conflicted"
    else "modified"
  }

  function FirstNul(bs: Bytes): (n: nat)
    ensures n <= |bs| && NUL !in bs[..n] && (n < |bs| ==> bs[n] == NUL)
  {
    if bs == [] || bs[0] == NUL then 0
    else
      var n := 1 + FirstNul(bs[1..]);
      assert bs[..n] == [bs[0]] + bs[1..][..n - 1];
      n
  }

  /** The pieces between NUL bytes that are not empty. */
  function Fields(bs: Bytes): seq<Bytes>
    decreases |bs|
  {
    if bs == [] then []
    else
      var n := FirstNul(bs);
      (if n > 0 then [bs[..n]] else []) + (if n < |bs| then Fields(bs[n + 1..]) else [])
  }

  /** The rows of one entry. */
  function Rows(x: Byte, y: Byte, path: Bytes, oldPath: Option<Bytes>): seq<FileStatus> {
    if x == QUERY && y == QUERY then [FileStatus(path, None, "untracked", false)]
    else
      (if x != BLANK then [FileStatus(path, oldPath, StatusFor(x), true)] else [])
      + (if y != BLANK then [FileStatus(path, oldPath, StatusFor(y), false)] else [])
  }

  function Prefixed(rows: seq<FileStatus>, rest: Option<seq<FileStatus>>): Option<seq<FileStatus>> {
    if rest.Some? then Some(rows + rest.value) else None
  }

  /** What the loop makes of the fields still ahead of it; None is the panic of a slice that splits a
    * character. */
  function ParseFields(fs: seq<Bytes>): Option<seq<FileStatus>>
    decreases |fs|
  {
    if fs == [] then Some([])
    else if |fs[0]| < 3 then ParseFields(fs[1..])
    else if !IsCharBoundary(fs[0], 2) || !IsCharBoundary(fs[0], 3) then None
    else
      var x, y := fs[0][0], fs[0][1];
      var taken := IsRename(x) && |fs| > 1;
      var rest := ParseFields(if taken then fs[2..] else fs[1..]);
      Prefixed(Rows(x, y, Slashed(fs[0][3..]), if taken then Some(Slashed(fs[1])) else None), rest)
  }

  /** The fields as text: what is not valid UTF-8 is replaced. */
  function Entries(output: Bytes): seq<Bytes> {
    LossyAll(Fields(output))
  }

  function LossyAll(fs: seq<Bytes>): seq<Bytes> {
    seq(|fs|, i requires 0 <= i < |fs| => Lossy(fs[i]))
  }

  function Parsed(output: Bytes): Option<seq<FileStatus>> {
    ParseFields(Entries(output))
  }

  /** The loop of `status`. */
  method ParseStatus(output: Bytes) returns (r: Option<seq<FileStatus>>)
    ensures r == Parsed(output)
  {
    var files: seq<FileStatus> := [];
    var entries := Entries(output);
    var index := 0;
    NothingPrefixed(ParseFields(entries));
    assert entries[0..] == entries;
    while index < |entries|
      invariant 0 <= index <= |entries| + 1
      invariant ParseFields(entries)
              == Prefixed(files, ParseFields(if index <= |entries| then entries[index..] else []))
    {
      ghost var ahead, before := entries[index..], files;
      var entry := entries[index];
      if |entry| < 3 {
        assert ahead[1..] == entries[index + 1..];
        index := index + 1;
        continue;
      }
      if !IsCharBoundary(entry, 2) || !IsCharBoundary(entry, 3) {
        return None;
      }
      var xy := entry[..2];
      var path := Slashed(entry[3..]);
      var rename := IsRename(xy[0]);
      var oldPath := None;
      if rename {
        index := index + 1;
        oldPath := if index < |entries| then Some(Slashed(entries[index])) else None;
      }
      if xy == [QUERY, QUERY] {
        files := files + [FileStatus(path, None, "untracked", false)];
      } else {
        if xy[0] != BLANK {
          files := files + [FileStatus(path, oldPath, StatusFor(xy[0]), true)];
        }
        if xy[1] != BLANK {
          files := files + [FileStatus(path, oldPath, StatusFor(xy[1]), false)];
        }
      }
      assert files == before + Rows(xy[0], xy[1], path, oldPath);
      index := index + 1;
      StepAhead(before, ahead, if index <= |entries| then entries[index..] else []);
    }
    r := Some(files);
    assert files + [] == files;
  }

  lemma NothingPrefixed(rest: Option<seq<FileStatus>>)
    ensures Prefixed([], rest) == rest
  {
    if rest.Some? {
      assert [] + rest.value == rest.value;
    }
  }

  lemma StepAhead(before: seq<FileStatus>, ahead: seq<Bytes>, next: seq<Bytes>)
    requires ahead != [] && |ahead[0]| >= 3 && IsCharBoundary(ahead[0], 2) && IsCharBoundary(ahead[0], 3)
    requires next == if IsRename(ahead[0][0]) && |ahead| > 1 then ahead[2..] else ahead[1..]
    ensures var oldPath := if IsRename(ahead[0][0]) && |ahead| > 1 then Some(Slashed(ahead[1])) else None;
              Prefixed(before, ParseFields(ahead))
              == Prefixed(before + Rows(ahead[0][0], ahead[0][1], Slashed(ahead[0][3..]), oldPath), ParseFields(next))
  {
    var oldPath := if IsRename(ahead[0][0]) && |ahead| > 1 then Some(Slashed(ahead[1])) else None;
    PrefixedTwice(before, Rows(ahead[0][0], ahead[0][1], Slashed(ahead[0][3..]), oldPath), ParseFields(next));
  }

  lemma PrefixedTwice(a: seq<FileStatus>, b: seq<FileStatus>, rest: Option<seq<FileStatus>>)
    ensures Prefixed(a, Prefixed(b, rest)) == Prefixed(a + b, rest)
  {
    if rest.Some? {
      Regroup(a, b, rest.value);
    }
  }

  // ----- Printing -----

  /** One record of a status listing: index code, worktree code, path and, after a rename, the path it
    * came from. */
  datatype Record = Record(x: Byte, y: Byte, path: Bytes, orig: Option<Bytes>)

  /** A name that can stand in the listing; it need not be text. */
  predicate IsName(bs: Bytes) {
    bs != [] && NUL !in bs
  }

  /** What git lists: two ASCII codes, not both blank, and an original path when the index code is a
    * rename or copy; possibly also one when only the worktree code is. */
  predicate WellFormed(r: Record) {
    && 0 < r.x < 0x80 && 0 < r.y < 0x80 && !(r.x == BLANK && r.y == BLANK)
    && IsName(r.path)
    && (IsRename(r.x) ==> r.orig.Some?)
    && (r.orig.Some? ==> IsName(r.orig.value) && (IsRename(r.x) || IsRename(r.y)))
  }

  /** A name the parser leaves as it is. */
  predicate IsPlain(name: Bytes) {
    ValidUtf8(name) && BACKSLASH !in name
  }

  /** The condition under which the parser understands a record. */
  predicate Readable(r: Record) {
    && IsPlain(r.path)
    && (r.orig.Some? ==> IsRename(r.x) && IsPlain(r.orig.value))
  }

  /** What becomes of a name: invalid bytes are replaced, then backslashes. */
  function ReadAs(name: Bytes): Bytes {
    Slashed(Lossy(name))
  }

  function ReadAsOption(name: Option<Bytes>): Option<Bytes> {
    if name.Some? then Some(ReadAs(name.value)) else None
  }

  function Print(rs: seq<Record>): Bytes {
    if rs == [] then []
    else
      [rs[0].x, rs[0].y, BLANK] + rs[0].path + [NUL]
      + (if rs[0].orig.Some? then rs[0].orig.value + [NUL] else []) + Print(rs[1..])
  }

  /** The rows a listing stands for. */
  function Listed(rs: seq<Record>): seq<FileStatus> {
    if rs == [] then [] else Rows(rs[0].x, rs[0].y, rs[0].path, rs[0].orig) + Listed(rs[1..])
  }

  function PrintedFields(r: Record): seq<Bytes> {
    [[r.x, r.y, BLANK] + r.path] + (if r.orig.Some? then [r.orig.value] else [])
  }

  lemma {:induction false} FirstNulOf(f: Bytes, rest: Bytes)
    requires NUL !in f
    ensures FirstNul(f + [NUL] + rest) == |f|
  {
    if f == [] {
    } else {
      FirstNulOf(f[1..], rest);
      assert (f + [NUL] + rest)[1..] == f[1..] + [NUL] + rest;
      assert (f + [NUL] + rest)[0] == f[0] && f[0] in f;
    }
  }

  lemma FieldsOfField(f: Bytes, rest: Bytes)
    requires f != [] && NUL !in f
    ensures Fields(f + [NUL] + rest) == [f] + Fields(rest)
  {
    var bs := f + [NUL] + rest;
    FirstNulOf(f, rest);
    assert bs[..|f|] == f && bs[|f| + 1..] == rest;
  }

  lemma HeadHasNoNul(r: Record)
    requires WellFormed(r)
    ensures NUL !in [r.x, r.y, BLANK] + r.path
  {
  }

  lemma RawFieldsOfRecord(rs: seq<Record>)
    requires rs != [] && WellFormed(rs[0])
    ensures Fields(Print(rs)) == PrintedFields(rs[0]) + Fields(Print(rs[1..]))
  {
    hide ValidUtf8, Fields, IsRename;
    var r, rest := rs[0], Print(rs[1..]);
    var head := [r.x, r.y, BLANK] + r.path;
    HeadHasNoNul(r);
    if r.orig.Some? {
      var orig := r.orig.value;
      assert Print(rs) == head + [NUL] + (orig + [NUL] + rest);
      FieldsOfField(head, orig + [NUL] + rest);
      FieldsOfField(orig, rest);
      assert PrintedFields(r) == [head] + [orig];
      assert [head] + ([orig] + Fields(rest)) == [head] + [orig] + Fields(rest);
    } else {
      assert Print(rs) == head + [NUL] + rest;
      FieldsOfField(head, rest);
      assert PrintedFields(r) == [head];
    }
  }

  lemma {:induction false} AsciiIsValid(s: Bytes)
    requires forall i :: 0 <= i < |s| ==> s[i] < 0x80
    ensures ValidUtf8(s)
  {
    if s == [] {
    } else {
      AsciiIsValid(s[1..]);
    }
  }

  /** The fields of a record as text. */
  function TextFields(r: Record): seq<Bytes> {
    [[r.x, r.y, BLANK] + Lossy(r.path)] + (if r.orig.Some? then [Lossy(r.orig.value)] else [])
  }

  lemma LossyBehindAscii(b: Byte, s: Bytes)
    requires b < 0x80
    ensures Lossy([b] + s) == [b] + Lossy(s)
  {
    assert ([b] + s)[..1] == [b] && ([b] + s)[1..] == s;
  }

  lemma FieldsAreReplaced(r: Record)
    requires WellFormed(r)
    ensures LossyAll(PrintedFields(r)) == TextFields(r)
  {
    var head := [r.x, r.y, BLANK] + r.path;
    assert head == [r.x] + ([r.y] + ([BLANK] + r.path));
    hide Lossy;
    LossyBehindAscii(r.x, [r.y] + ([BLANK] + r.path));
    LossyBehindAscii(r.y, [BLANK] + r.path);
    LossyBehindAscii(BLANK, r.path);
    assert [r.x] + ([r.y] + ([BLANK] + Lossy(r.path))) == [r.x, r.y, BLANK] + Lossy(r.path);
    assert PrintedFields(r)[0] == head;
    assert r.orig.Some? ==> PrintedFields(r)[1] == r.orig.value;
  }

  lemma FieldsOfRecord(rs: seq<Record>)
    requires rs != [] && WellFormed(rs[0])
    ensures Entries(Print(rs)) == TextFields(rs[0]) + Entries(Print(rs[1..]))
  {
    RawFieldsOfRecord(rs);
    FieldsAreReplaced(rs[0]);
    hide Lossy, Fields, Print, WellFormed, PrintedFields, TextFields;
    LossyAllSplits(PrintedFields(rs[0]), Fields(Print(rs[1..])));
  }

  lemma LossyAllSplits(a: seq<Bytes>, b: seq<Bytes>)
    ensures LossyAll(a + b) == LossyAll(a) + LossyAll(b)
  {
    hide Lossy;
  }

  /** Replaced text is not empty and does not begin inside a character. */
  lemma LossyStartsWell(s: Bytes)
    requires s != []
    ensures Lossy(s) != [] && !IsTail(Lossy(s)[0])
  {
    LossyIsValid(s);
  }

  lemma HeadOfRecord(r: Record)
    requires WellFormed(r)
    ensures var head := [r.x, r.y, BLANK] + Lossy(r.path);
            |head| > 3 && IsCharBoundary(head, 2) && IsCharBoundary(head, 3) && head[3..] == Lossy(r.path)
  {
    LossyStartsWell(r.path);
    hide Lossy;
    assert ([r.x, r.y, BLANK] + Lossy(r.path))[3..] == Lossy(r.path);
  }

  /** A record whose original path is where the parser looks for it is parsed to its rows under the names
    * as read, without panic, and the parser goes on exactly behind it. */
  lemma ParsedRecord(rs: seq<Record>)
    requires rs != [] && WellFormed(rs[0]) && (rs[0].orig.Some? ==> IsRename(rs[0].x))
    ensures Parsed(Print(rs))
         == Prefixed(Rows(rs[0].x, rs[0].y, ReadAs(rs[0].path), ReadAsOption(rs[0].orig)), Parsed(Print(rs[1..])))
  {
    hide Rows, IsName, Lossy, Print, Entries, IsCharBoundary, Slashed;
    var r, rest := rs[0], Entries(Print(rs[1..]));
    FieldsOfRecord(rs);
    HeadOfRecord(r);
    var fs := TextFields(r) + rest;
    assert fs[0] == [r.x, r.y, BLANK] + Lossy(r.path);
    assert IsRename(r.x) <==> r.orig.Some?;
    if r.orig.Some? {
      assert fs[1] == Lossy(r.orig.value) && fs[2..] == rest;
    } else {
      assert fs[1..] == rest;
    }
  }

  /** Fields shorter than the two codes and the blank are passed over. */
  lemma ShortFieldIsSkipped(f: Bytes, rest: Bytes)
    requires NUL !in f && |Lossy(f)| < 3
    ensures Parsed(f + [NUL] + rest) == Parsed(rest)
  {
    if f == [] {
      var bs := f + [NUL] + rest;
      FirstNulOf(f, rest);
      assert bs[0 + 1..] == rest;
      assert [] + Fields(rest) == Fields(rest);
    } else {
      FieldsOfField(f, rest);
      hide Lossy, Fields;
      LossyAllSplits([f], Fields(rest));
      assert LossyAll([f]) == [Lossy(f)];
      assert ([Lossy(f)] + Entries(rest))[1..] == Entries(rest);
    }
  }

  /** A rename with nothing behind it is listed without an original path. */
  lemma LastRenameHasNoOrigin(x: Byte, y: Byte, path: Bytes)
    requires 0 < x < 0x80 && 0 < y < 0x80 && IsRename(x) && IsName(path)
    ensures Parsed([x, y, BLANK] + path + [NUL]) == Some(Rows(x, y, ReadAs(path), None))
  {
    var r := Record(x, y, path, Some(path));
    var head := [x, y, BLANK] + path;
    assert WellFormed(r);
    HeadHasNoNul(r);
    HeadOfRecord(r);
    FieldsAreReplaced(r);
    FieldsOfField(head, []);
    assert head + [NUL] + [] == head + [NUL];
    hide Lossy, Fields, Slashed, Rows, IsCharBoundary;
    var fs := [[x, y, BLANK] + Lossy(path)];
    assert PrintedFields(r)[0] == head && LossyAll(PrintedFields(r))[0] == Lossy(head) == fs[0];
    assert Entries(head + [NUL]) == fs;
    assert fs[1..] == [] && ParseFields([]) == Some([]);
    assert Rows(x, y, ReadAs(path), None) + [] == Rows(x, y, ReadAs(path), None);
  }

  /** Turning backslashes into slashes leaves text text. */
  lemma {:induction false} SlashedKeepsValid(s: Bytes)
    requires ValidUtf8(s)
    ensures ValidUtf8(Slashed(s))
    decreases |s|
  {
    if s == [] {
    } else {
      var n := LeadLength(s);
      LeadLengthFits(s);
      LeadOfSlashed(s);
      SlashedKeepsValid(s[n..]);
      assert Slashed(s)[n..] == Slashed(s[n..]);
    }
  }

  lemma LeadOfSlashed(s: Bytes)
    requires s != [] && LeadLength(s) > 0
    ensures LeadLength(Slashed(s)) == LeadLength(s)
  {
    assert forall i :: 0 <= i < |s| && s[i] >= 0x80 ==> Slashed(s)[i] == s[i];
    assert Slashed(s)[0] == s[0] || (s[0] == BACKSLASH && Slashed(s)[0] == SLASH);
  }

  /** A name is read as it is exactly if it is plain. */
  lemma ReadAsIff(name: Bytes)
    ensures ReadAs(name) == name <==> IsPlain(name)
  {
    LossyIsValid(name);
    LossyKeepsExactlyValid(name);
    SlashedKeepsValid(Lossy(name));
    hide Lossy, ValidUtf8;
  }

  /** A readable record is parsed to its rows, and the parser goes on exactly behind it. */
  lemma ReadableRecord(rs: seq<Record>)
    requires rs != [] && WellFormed(rs[0]) && Readable(rs[0])
    ensures Parsed(Print(rs)) == Prefixed(Rows(rs[0].x, rs[0].y, rs[0].path, rs[0].orig), Parsed(Print(rs[1..])))
  {
    ParsedRecord(rs);
    ReadAsIff(rs[0].path);
    if rs[0].orig.Some? {
      ReadAsIff(rs[0].orig.value);
    }
    hide Rows, Print, Parsed, ReadAs;
  }

  /** What the parser makes of a record's own field and of the one behind it. */
  function FirstRows(r: Record, fs: seq<Bytes>): seq<FileStatus> {
    Rows(r.x, r.y, ReadAs(r.path), if IsRename(r.x) && |fs| > 1 then Some(Slashed(fs[1])) else None)
  }

  lemma FirstRowsAreParsed(r: Record, fs: seq<Bytes>)
    requires WellFormed(r) && fs != [] && fs[0] == [r.x, r.y, BLANK] + Lossy(r.path)
    ensures ParseFields(fs).Some? ==> FirstRows(r, fs) <= ParseFields(fs).value
  {
    hide Rows, Slashed, IsName, IsCharBoundary, Lossy;
    HeadOfRecord(r);
  }

  lemma UnreadableRowsDiffer(r: Record, fs: seq<Bytes>)
    requires WellFormed(r) && !Readable(r) && |fs| >= |TextFields(r)| && fs[..|TextFields(r)|] == TextFields(r)
    ensures var listed := Rows(r.x, r.y, r.path, r.orig);
            |FirstRows(r, fs)| == |listed| && FirstRows(r, fs) != listed
  {
    ReadAsIff(r.path);
    if r.orig.Some? {
      ReadAsIff(r.orig.value);
      assert fs[1] == TextFields(r)[1] == Lossy(r.orig.value);
    }
    hide StatusFor, IsName, Lossy, Slashed, ValidUtf8, IsPlain;
    var found, listed := FirstRows(r, fs)[0], Rows(r.x, r.y, r.path, r.orig)[0];
    if ReadAs(r.path) != r.path {
      assert found.path != listed.path;
    } else {
      assert found.oldPath != listed.oldPath;
    }
  }

  /** An unreadable record either panics the parser or yields rows that are not the ones listed. */
  lemma UnreadableRecord(rs: seq<Record>)
    requires rs != [] && WellFormed(rs[0]) && !Readable(rs[0])
    ensures Parsed(Print(rs)) != Some(Listed(rs))
  {
    hide Rows, Print, Entries, ParseFields, WellFormed, Readable, FirstRows;
    var r := rs[0];
    FieldsOfRecord(rs);
    var fs := TextFields(r) + Entries(Print(rs[1..]));
    var listed := Rows(r.x, r.y, r.path, r.orig);
    FirstRowsAreParsed(r, fs);
    UnreadableRowsDiffer(r, fs);
    assert Listed(rs)[..|listed|] == listed;
  }

  /** Parsing undoes printing exactly when every record is readable: its names are valid UTF-8 without a
    * backslash (the parser replaces both), and there is no original path after a record whose index
    * code is not a rename (the parser takes that path for a record of its own). */
  lemma {:induction false} ParsingUndoesPrinting(rs: seq<Record>)
    requires forall i :: 0 <= i < |rs| ==> WellFormed(rs[i])
    ensures Parsed(Print(rs)) == Some(Listed(rs)) <==> forall i :: 0 <= i < |rs| ==> Readable(rs[i])
  {
    if rs == [] {
    } else {
      if Readable(rs[0]) {
        ReadableRecord(rs);
        ParsingUndoesPrinting(rs[1..]);
        SamePrefix(Rows(rs[0].x, rs[0].y, rs[0].path, rs[0].orig), Parsed(Print(rs[1..])), Listed(rs[1..]));
        AllSplits(rs);
      } else {
        UnreadableRecord(rs);
      }
    }
  }

  lemma AllSplits(rs: seq<Record>)
    requires rs != []
    ensures (forall i :: 0 <= i < |rs| ==> Readable(rs[i]))
       <==> Readable(rs[0]) && forall i :: 0 <= i < |rs[1..]| ==> Readable(rs[1..][i])
  {
    hide Readable;
    if Readable(rs[0]) && forall i :: 0 <= i < |rs[1..]| ==> Readable(rs[1..][i]) {
      forall i | 0 <= i < |rs| ensures Readable(rs[i]) {
        assert i > 0 ==> rs[i] == rs[1..][i - 1];
      }
    }
  }

  lemma SamePrefix(rows: seq<FileStatus>, found: Option<seq<FileStatus>>, listed: seq<FileStatus>)
    ensures Prefixed(rows, found) == Some(rows + listed) <==> found == Some(listed)
  {
    if Prefixed(rows, found) == Some(rows + listed) {
      assert found.value == (rows + found.value)[|rows|..] == (rows + listed)[|rows|..] == listed;
    }
  }

  ghost const WORKTREE_RENAME := Record(BLANK, 'R' as int, ['n' as int], Some(['M' as int, BLANK, BLANK, 'a' as int]))

  /** A rename that only the worktree shows: git adds the original path, and the parser misreads it. */
  lemma WorktreeRenameIsMisread()
    ensures WellFormed(WORKTREE_RENAME)
    ensures Listed([WORKTREE_RENAME]) == [FileStatus(WORKTREE_RENAME.path, WORKTREE_RENAME.orig, "renamed", false)]
    ensures Parsed(Print([WORKTREE_RENAME]))
         == Some([FileStatus(WORKTREE_RENAME.path, None, "renamed", false),
                  FileStatus(['a' as int], None, "modified", true)])
  {
    var r := WORKTREE_RENAME;
    var orig := r.orig.value;
    AsciiIsValid(r.path);
    AsciiIsValid(orig);
    LossyKeepsExactlyValid(r.path);
    LossyKeepsExactlyValid(orig);
    FieldsOfRecord([r]);
    hide Lossy, ValidUtf8;
    var fs := [[r.x, r.y, BLANK] + r.path, orig];
    assert Entries(Print([r])) == fs;
    assert fs[1..] == [orig];
    assert fs[0][3..] == r.path && orig[3..] == ['a' as int];
    assert Slashed(r.path) == r.path && Slashed(orig[3..]) == orig[3..];
    OneRow(orig);
    var first := FileStatus(r.path, None, "renamed", false);
    assert ParseFields(fs) == Prefixed(Rows(r.x, r.y, r.path, None), ParseFields([orig]));
    assert Rows(r.x, r.y, r.path, None) == [first];
    var second := FileStatus(['a' as int], None, "modified", true);
    assert ParseFields([orig]) == Some([second]);
    assert [first] + [second] == [first, second];
  }

  lemma OneRow(f: Bytes)
    requires |f| >= 3 && f[0] == 'M' as int && f[1] == BLANK && IsCharBoundary(f, 2) && IsCharBoundary(f, 3)
    ensures ParseFields([f]) == Some([FileStatus(Slashed(f[3..]), None, "modified", true)])
  {
    assert [f][1..] == [];
    assert ParseFields([]) == Some([]);
    assert Rows(f[0], f[1], Slashed(f[3..]), None) == [FileStatus(Slashed(f[3..]), None, "modified", true)];
  }

  ghost const EURO: Bytes := [0xE2, 0x82, 0xAC]

  ghost const STRAY_EURO := Record(BLANK, 'R' as int, ['n' as int], Some(EURO))

  lemma EuroIsText()
    ensures ValidUtf8(EURO) && !IsCharBoundary(EURO, 2)
  {
    assert LeadLength(EURO) == 3 && EURO[3..] == [];
  }

  /** A stray original path can even panic the parser: it is sliced inside its first character. */
  lemma StrayNamePanics()
    ensures WellFormed(STRAY_EURO) && Parsed(Print([STRAY_EURO])) == None
  {
    var r := STRAY_EURO;
    EuroIsText();
    AsciiIsValid(r.path);
    LossyKeepsExactlyValid(r.path);
    LossyKeepsExactlyValid(EURO);
    FieldsOfRecord([r]);
    hide Lossy, ValidUtf8;
    var fs := [[r.x, r.y, BLANK] + r.path, EURO];
    assert Entries(Print([r])) == fs && fs[1..] == [EURO];
    assert ParseFields([EURO]) == None;
  }

  ghost const INVALID_NAME := Record(BLANK, 'M' as int, [0xFF], None)

  lemma InvalidByteIsReplaced()
    ensures Lossy([0xFF]) == REPLACEMENT && !ValidUtf8([0xFF]) && Slashed(REPLACEMENT) == REPLACEMENT
  {
    var s: Bytes := [0xFF];
    assert LeadLength(s) == 0 && BadLength(s) == 1 && s[1..] == [];
  }

  /** A name that is not valid UTF-8, which git prints as it is: the row shows another one. */
  lemma InvalidNameIsReplaced()
    ensures WellFormed(INVALID_NAME) && BACKSLASH !in INVALID_NAME.path
    ensures Listed([INVALID_NAME]) == [FileStatus([0xFF], None, "modified", false)]
    ensures Parsed(Print([INVALID_NAME])) == Some([FileStatus(REPLACEMENT, None, "modified", false)])
  {
    InvalidByteIsReplaced();
    var r := INVALID_NAME;
    ParsedRecord([r]);
    assert [r][1..] == [] && Print([]) == [] && Parsed([]) == Some([]);
    assert ReadAs(r.path) == REPLACEMENT && ReadAsOption(r.orig) == None;
    hide Lossy, Print, Slashed, Parsed, ReadAs;
    var row, read := FileStatus([0xFF], None, "modified", false), FileStatus(REPLACEMENT, None, "modified", false);
    assert Rows(r.x, r.y, r.path, r.orig) == [row] && [row] + Listed([]) == [row];
    assert Rows(r.x, r.y, REPLACEMENT, None) == [read] && [read] + [] == [read];
  }

  // ----- What the rows say -----

  predicate IsUntracked(r: Record) {
    r.x == QUERY && r.y == QUERY
  }

  /** The rows of one kind, in order. */
  function OfKind(rows: seq<FileStatus>, staged: bool): seq<FileStatus> {
    if rows == [] then [] else (if rows[0].staged == staged then [rows[0]] else []) + OfKind(rows[1..], staged)
  }

  function IndexChanges(rs: seq<Record>): seq<FileStatus> {
    if rs == [] then []
    else
      (if rs[0].x != BLANK && !IsUntracked(rs[0])
       then [FileStatus(rs[0].path, rs[0].orig, StatusFor(rs[0].x), true)]
       else [])
      + IndexChanges(rs[1..])
  }

  function WorktreeChanges(rs: seq<Record>): seq<FileStatus> {
    if rs == [] then []
    else
      (if IsUntracked(rs[0]) then [FileStatus(rs[0].path, None, "untracked", false)]
       else if rs[0].y != BLANK then [FileStatus(rs[0].path, rs[0].orig, StatusFor(rs[0].y), false)] else [])
      + WorktreeChanges(rs[1..])
  }

  lemma {:induction false} OfKindAppend(a: seq<FileStatus>, b: seq<FileStatus>, staged: bool)
    ensures OfKind(a + b, staged) == OfKind(a, staged) + OfKind(b, staged)
  {
    if a == [] {
      assert a + b == b;
    } else {
      OfKindAppend(a[1..], b, staged);
      assert (a + b)[0] == a[0] && (a + b)[1..] == a[1..] + b;
      var first := if a[0].staged == staged then [a[0]] else [];
      assert OfKind(a, staged) == first + OfKind(a[1..], staged);
      assert OfKind(a + b, staged) == first + OfKind(a[1..] + b, staged);
      Regroup(first, OfKind(a[1..], staged), OfKind(b, staged));
    }
  }

  lemma OfKindShort(row: FileStatus, staged: bool)
    ensures OfKind([row], staged) == if row.staged == staged then [row] else []
  {
    assert OfKind([row][1..], staged) == [];
  }

  lemma KindsOfRows(r: Record)
    ensures var rows, untracked := Rows(r.x, r.y, r.path, r.orig), FileStatus(r.path, None, "untracked", false);
            && OfKind(rows, true) == (if r.x != BLANK && !IsUntracked(r)
                                      then [FileStatus(r.path, r.orig, StatusFor(r.x), true)]
                                      else [])
            && OfKind(rows, false) == (if IsUntracked(r) then [untracked]
                                       else if r.y != BLANK
                                       then [FileStatus(r.path, r.orig, StatusFor(r.y), false)]
                                       else [])
  {
    hide StatusFor, OfKind;
    OfKindShort(FileStatus(r.path, None, "untracked", false), true);
    OfKindShort(FileStatus(r.path, None, "untracked", false), false);
    var a := if r.x != BLANK then [FileStatus(r.path, r.orig, StatusFor(r.x), true)] else [];
    var b := if r.y != BLANK then [FileStatus(r.path, r.orig, StatusFor(r.y), false)] else [];
    OfKindAppend(a, b, true);
    OfKindAppend(a, b, false);
    OfNone(true);
    OfNone(false);
    OfKindShort(FileStatus(r.path, r.orig, StatusFor(r.x), true), true);
    OfKindShort(FileStatus(r.path, r.orig, StatusFor(r.x), true), false);
    OfKindShort(FileStatus(r.path, r.orig, StatusFor(r.y), false), true);
    OfKindShort(FileStatus(r.path, r.orig, StatusFor(r.y), false), false);
  }

  lemma OfNone(staged: bool)
    ensures OfKind([], staged) == []
  {
  }

  /** The staged rows are the index changes and the others the worktree changes, in listing order. */
  lemma {:induction false} RowsAreGrouped(rs: seq<Record>)
    ensures OfKind(Listed(rs), true) == IndexChanges(rs)
    ensures OfKind(Listed(rs), false) == WorktreeChanges(rs)
  {
    hide Rows, StatusFor;
    if rs == [] {
    } else {
      var rows := Rows(rs[0].x, rs[0].y, rs[0].path, rs[0].orig);
      RowsAreGrouped(rs[1..]);
      KindsOfRows(rs[0]);
      OfKindAppend(rows, Listed(rs[1..]), true);
      OfKindAppend(rows, Listed(rs[1..]), false);
    }
  }

  /** What a status code says. */
  ghost predicate CodeMeans(code: Byte, status: string) {
    && (status == "added" <==> code == 'A' as int)
    && (status == "deleted" <==> code == 'D' as int)
    && (status == "renamed" <==> code == 'R' as int || code == 'C' as int)
    && (status == "conflicted" <==> code == 'U' as int)
    && status in {"added", "deleted", "renamed", "conflicted", "modified"}
  }

  /** A row of a record: the untracked file, or the change that one of the two codes says. */
  ghost predicate IsRowOf(row: FileStatus, r: Record) {
    && row.path == r.path
    && (if r.x == '?' as int && r.y == '?' as int
        then row.status == "untracked" && !row.staged && row.oldPath == None
        else
          var code := if row.staged then r.x else r.y;
          code != ' ' as int && CodeMeans(code, row.status) && row.oldPath == r.orig)
  }

  lemma RowsOfRecord(r: Record, row: FileStatus)
    ensures row in Rows(r.x, r.y, r.path, r.orig) <==> IsRowOf(row, r)
  {
    assert forall code: Byte :: CodeMeans(code, row.status) <==> row.status == StatusFor(code);
  }

  /** A readable listing is parsed to exactly the rows its records stand for, with the status that the code of
    * the row's side says. */
  lemma {:induction false} ParsedRowsMean(rs: seq<Record>, row: FileStatus)
    requires forall i :: 0 <= i < |rs| ==> WellFormed(rs[i]) && Readable(rs[i])
    ensures Parsed(Print(rs)).Some?
    ensures row in Parsed(Print(rs)).value <==> exists i :: 0 <= i < |rs| && IsRowOf(row, rs[i])
  {
    ParsingUndoesPrinting(rs);
    ListedRowsMean(rs, row);
  }

  lemma {:induction false} ListedRowsMean(rs: seq<Record>, row: FileStatus)
    ensures row in Listed(rs) <==> exists i :: 0 <= i < |rs| && IsRowOf(row, rs[i])
  {
    if rs == [] {
    } else {
      RowsOfRecord(rs[0], row);
      ListedRowsMean(rs[1..], row);
      hide Rows, IsRowOf;
      if i :| 0 <= i < |rs| && IsRowOf(row, rs[i]) {
        assert i > 0 ==> rs[1..][i - 1] == rs[i];
      }
      if i :| 0 <= i < |rs[1..]| && IsRowOf(row, rs[1..][i]) {
        assert rs[i + 1] == rs[1..][i];
      }
    }
  }
}
