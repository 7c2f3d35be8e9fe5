/** UTF-8 byte strings as RFC 3629 section 4 defines them, and cutting them at character boundaries. */
module Utf8 {

  type Byte = b: int | 0 <= b < 256

  predicate IsTail(b: Byte) {
    0x80 <= b < 0xC0
  }

  /** Whether the byte after a lead byte can belong to it. */
  predicate FitsLead(lead: Byte, next: Byte) {
    if lead == 0xE0 then 0xA0 <= next < 0xC0
    else if lead == 0xED then 0x80 <= next < 0xA0
    else if lead == 0xF0 then 0x90 <= next < 0xC0
    else if lead == 0xF4 then 0x80 <= next < 0x90
    else IsTail(next)
  }

  /** Length of the well-formed sequence at the front, 0 if there is none. */
  function LeadLength(s: seq<Byte>): (n: nat)
    requires s != []
    ensures n <= 4 && n <= |s|
  {
    var b := s[0];
    if b < 0x80 then 1
    else if 0xC2 <= b < 0xE0 then (if |s| >= 2 && IsTail(s[1]) then 2 else 0)
    else if 0xE0 <= b < 0xF0 then
      (if |s| >= 3 && FitsLead(b, s[1]) && IsTail(s[2]) then 3 else 0)
    else if 0xF0 <= b < 0xF5 then
      (if |s| >= 4 && FitsLead(b, s[1]) && IsTail(s[2]) && IsTail(s[3]) then 4 else 0)
    else 0
  }

  predicate ValidUtf8(s: seq<Byte>) {
    s == [] || (LeadLength(s) > 0 && ValidUtf8(s[LeadLength(s)..]))
  }

  /** `str::is_char_boundary`. */
  predicate IsCharBoundary(s: seq<Byte>, i: nat) {
    i == 0 || i == |s| || (i < |s| && !IsTail(s[i]))
  }

  lemma LeadLengthOfPrefix(s: seq<Byte>, i: nat)
    requires s != [] && 0 < i <= |s| && LeadLength(s) > 0
    ensures LeadLength(s[..i]) == if i < LeadLength(s) then 0 else LeadLength(s)
    ensures forall k :: 0 < k < LeadLength(s) ==> IsTail(s[k])
  {
  }

  /** In a valid string the boundaries are exactly the places where the prefix is valid. */
  lemma {:induction false} BoundaryIffPrefixValid(s: seq<Byte>, i: nat)
    requires ValidUtf8(s) && i <= |s|
    ensures IsCharBoundary(s, i) <==> ValidUtf8(s[..i])
    decreases |s|
  {
    if i == 0 {
    } else {
      var n := LeadLength(s);
      LeadLengthOfPrefix(s, i);
      if i >= n {
        BoundaryIffPrefixValid(s[n..], i - n);
        assert s[..i][n..] == s[n..][..i - n];
      }
    }
  }

  lemma ValidBehindFirst(s: seq<Byte>)
    requires s != []
    ensures ValidUtf8(s) <==> LeadLength(s) > 0 && ValidUtf8(s[LeadLength(s)..])
  {
    hide LeadLength;
  }

  lemma LeadLengthFits(s: seq<Byte>)
    requires s != []
    ensures LeadLength(s) <= |s|
  {
    hide LeadLength;
  }

  lemma SliceOfConcat(a: seq<Byte>, b: seq<Byte>, n: nat)
    requires n <= |a|
    ensures (a + b)[n..] == a[n..] + b
  {
  }

  lemma LeadLengthExtends(a: seq<Byte>, b: seq<Byte>)
    requires a != [] && LeadLength(a) > 0
    ensures LeadLength(a + b) == LeadLength(a)
  {
    assert forall i :: 0 <= i < |a| ==> (a + b)[i] == a[i];
  }

  lemma {:induction false} ValidConcat(a: seq<Byte>, b: seq<Byte>)
    requires ValidUtf8(a) && ValidUtf8(b)
    ensures ValidUtf8(a + b)
    decreases |a|
  {
    if a == [] {
      assert a + b == b;
    } else {
      var n := LeadLength(a);
      LeadLengthFits(a);
      SliceOfConcat(a, b, n);
      hide LeadLength, ValidUtf8;
      ValidBehindFirst(a);
      ValidBehindFirst(a + b);
      LeadLengthExtends(a, b);
      ValidConcat(a[n..], b);
    }
  }

  /** Where the loop of `truncate_utf8` stops when it starts at `n`. */
  function BoundaryAtOrBelow(s: seq<Byte>, n: nat): (k: nat)
    ensures k <= n
  {
    if n == 0 || IsCharBoundary(s, n) then n else BoundaryAtOrBelow(s, n - 1)
  }

  /** It is the last boundary not above `n`. */
  lemma {:induction false} BoundaryIsLast(s: seq<Byte>, n: nat)
    ensures IsCharBoundary(s, BoundaryAtOrBelow(s, n))
    ensures forall k :: BoundaryAtOrBelow(s, n) < k <= n ==> !IsCharBoundary(s, k)
  {
    if n == 0 || IsCharBoundary(s, n) {
    } else {
      BoundaryIsLast(s, n - 1);
    }
  }

  lemma {:induction false} BoundaryBehindSequence(s: seq<Byte>, n: nat)
    requires ValidUtf8(s) && s != [] && LeadLength(s) <= n <= |s|
    ensures BoundaryAtOrBelow(s, n) == LeadLength(s) + BoundaryAtOrBelow(s[LeadLength(s)..], n - LeadLength(s))
    decreases n
  {
    var m := LeadLength(s);
    LeadLengthOfPrefix(s, m);
    if n == m {
      if m < |s| {
        assert LeadLength(s[m..]) > 0;
      }
    } else if !IsCharBoundary(s, n) {
      BoundaryBehindSequence(s, n - 1);
    }
  }

  /** The loop steps back at most three times. */
  lemma {:induction false} AtMostThreeStepsBack(s: seq<Byte>, n: nat)
    requires ValidUtf8(s) && n <= |s|
    ensures n - BoundaryAtOrBelow(s, n) <= 3
    decreases |s|
  {
    if n <= 3 {
    } else {
      var m := LeadLength(s);
      BoundaryBehindSequence(s, n);
      AtMostThreeStepsBack(s[m..], n - m);
    }
  }

  /** `truncate_utf8`: the longest valid prefix of at most `maxBytes` bytes. */
  method TruncateUtf8(input: seq<Byte>, maxBytes: nat) returns (r: seq<Byte>)
    requires ValidUtf8(input)
    ensures r == Truncated(input, maxBytes)
  {
    var end := if maxBytes < |input| then maxBytes else |input|;
    while end > 0 && !IsCharBoundary(input, end)
      invariant 0 <= end <= |input|
      invariant BoundaryAtOrBelow(input, end)
              == BoundaryAtOrBelow(input, if maxBytes < |input| then maxBytes else |input|)
    {
      end := end - 1;
    }
    return input[..end];
  }

  function Truncated(input: seq<Byte>, maxBytes: nat): seq<Byte> {
    input[..BoundaryAtOrBelow(input, if maxBytes < |input| then maxBytes else |input|)]
  }

  /** The result is valid, fits, is a prefix, no longer valid prefix fits, and at most three bytes of
    * the room are left when the input did not fit. */
  lemma TruncatedIsLongestValidPrefix(input: seq<Byte>, maxBytes: nat)
    requires ValidUtf8(input)
    ensures var r := Truncated(input, maxBytes);
            && ValidUtf8(r) && |r| <= maxBytes && r <= input
            && (|input| <= maxBytes ==> r == input)
            && (|input| > maxBytes ==> |r| + 3 >= maxBytes)
    ensures forall k :: |Truncated(input, maxBytes)| < k <= |input| && k <= maxBytes ==> !ValidUtf8(input[..k])
  {
    var n := if maxBytes < |input| then maxBytes else |input|;
    BoundaryIsLast(input, n);
    AtMostThreeStepsBack(input, n);
    BoundaryIffPrefixValid(input, BoundaryAtOrBelow(input, n));
    forall k | BoundaryAtOrBelow(input, n) < k <= n ensures !ValidUtf8(input[..k]) {
      BoundaryIffPrefixValid(input, k);
    }
    if |input| <= maxBytes {
      assert input[..|input|] == input;
    }
  }

  // ----- Replacing what is not valid -----

  /** How many bytes at the front are replaced together: the longest start of a sequence that could still
    * have become well-formed, at least one. */
  function BadLength(s: seq<Byte>): (n: nat)
    requires s != [] && LeadLength(s) == 0
    ensures 1 <= n <= 3 && n <= |s|
  {
    if 0xE0 <= s[0] < 0xF5 && |s| >= 2 && FitsLead(s[0], s[1])
    then (if s[0] >= 0xF0 && |s| >= 3 && IsTail(s[2]) then 3 else 2)
    else 1
  }

  const REPLACEMENT: seq<Byte> := [0xEF, 0xBF, 0xBD]

  /** `String::from_utf8_lossy`. */
  function Lossy(s: seq<Byte>): seq<Byte> {
    if s == [] then []
    else if LeadLength(s) > 0 then s[..LeadLength(s)] + Lossy(s[LeadLength(s)..])
    else REPLACEMENT + Lossy(s[BadLength(s)..])
  }

  /** These bytes are a proper start of some well-formed sequence. */
  ghost predicate CanBegin(start: seq<Byte>) {
    exists rest :: start + rest != [] && LeadLength(start + rest) > |start|
  }

  lemma FirstBytesDecide(start: seq<Byte>, rest: seq<Byte>)
    requires start + rest != [] && LeadLength(start + rest) > |start| >= 2
    ensures FitsLead(start[0], start[1]) && 0xE0 <= start[0] < 0xF5
    ensures |start| >= 3 ==> IsTail(start[2]) && start[0] >= 0xF0
    ensures |start| <= 3
  {
    assert forall i :: 0 <= i < |start| ==> (start + rest)[i] == start[i];
  }

  lemma StartContinues(start: seq<Byte>) returns (rest: seq<Byte>)
    requires 2 <= |start| <= 3 && 0xE0 <= start[0] < 0xF5 && FitsLead(start[0], start[1])
    requires |start| == 3 ==> IsTail(start[2]) && start[0] >= 0xF0
    ensures LeadLength(start + rest) > |start|
  {
    rest := [0x80, 0x80];
    assert forall i :: 0 <= i < |start| ==> (start + rest)[i] == start[i];
    assert (start + rest)[|start|] == 0x80 && (start + rest)[|start| + 1] == 0x80;
  }

  /** Bytes that begin no well-formed sequence are replaced by one character as far as they could have begun
    * one, and at least the first of them; then replacing goes on. */
  lemma ReplacedTogether(s: seq<Byte>) returns (n: nat)
    requires s != [] && LeadLength(s) == 0
    ensures 1 <= n <= |s| && Lossy(s) == [0xEF, 0xBF, 0xBD] + Lossy(s[n..])
    ensures n > 1 ==> CanBegin(s[..n])
    ensures forall m :: n < m <= |s| ==> !CanBegin(s[..m])
  {
    n := BadLength(s);
    if n > 1 {
      var rest := StartContinues(s[..n]);
    }
    forall m | n < m <= |s| ensures !CanBegin(s[..m]) {
      if CanBegin(s[..m]) {
        var rest :| s[..m] + rest != [] && LeadLength(s[..m] + rest) > |s[..m]|;
        FirstBytesDecide(s[..m], rest);
        assert false;
      }
    }
  }

  lemma OneSequenceIsValid(s: seq<Byte>)
    requires s != [] && LeadLength(s) > 0
    ensures ValidUtf8(s[..LeadLength(s)])
  {
    var n := LeadLength(s);
    LeadLengthOfPrefix(s, n);
    assert s[..n][n..] == [];
  }

  lemma {:induction false} LossyIsValid(s: seq<Byte>)
    ensures ValidUtf8(Lossy(s))
    decreases |s|
  {
    if s == [] {
    } else {
      if LeadLength(s) > 0 {
        OneSequenceIsValid(s);
        LossyIsValid(s[LeadLength(s)..]);
        ValidConcat(s[..LeadLength(s)], Lossy(s[LeadLength(s)..]));
      } else {
        assert LeadLength(REPLACEMENT) == 3 && REPLACEMENT[3..] == [];
        LossyIsValid(s[BadLength(s)..]);
        ValidConcat(REPLACEMENT, Lossy(s[BadLength(s)..]));
      }
    }
  }

  /** Valid text, and only that, is left as it is. */
  lemma {:induction false} LossyKeepsExactlyValid(s: seq<Byte>)
    ensures Lossy(s) == s <==> ValidUtf8(s)
    decreases |s|
  {
    LossyIsValid(s);
    if s == [] || !ValidUtf8(s) {
    } else {
      LossyKeepsExactlyValid(s[LeadLength(s)..]);
    }
  }

  // ----- Encoding characters -----

  function EncodeChar(c: char): seq<Byte> {
    var n := c as int;
    if n < 0x80 then [n]
    else if n < 0x800 then [0xC0 + n / 64, 0x80 + n % 64]
    else if n < 0x1_0000 then [0xE0 + n / 4096, 0x80 + n / 64 % 64, 0x80 + n % 64]
    else [0xF0 + n / 262_144, 0x80 + n / 4096 % 64, 0x80 + n / 64 % 64, 0x80 + n % 64]
  }

  function Encode(s: string): seq<Byte> {
    if s == [] then [] else EncodeChar(s[0]) + Encode(s[1..])
  }

  /** The encoding of any text is valid: a character never encodes to a surrogate or an overlong form. */
  lemma {:induction false} EncodeIsValid(s: string)
    ensures ValidUtf8(Encode(s))
  {
    if s == [] {
    } else {
      EncodeCharIsValid(s[0]);
      EncodeIsValid(s[1..]);
      ValidConcat(EncodeChar(s[0]), Encode(s[1..]));
    }
  }

  lemma EncodeCharIsValid(c: char)
    ensures ValidUtf8(EncodeChar(c))
  {
    var e := EncodeChar(c);
    assert LeadLength(e) == |e|;
    assert e[|e|..] == [];
  }

  /** The number in the sequence at the front: the payload bits of its bytes, high ones first. */
  function CodePoint(s: seq<Byte>): int
    requires s != [] && LeadLength(s) > 0
  {
    match LeadLength(s)
    case 1 => s[0] as int
    case 2 => (s[0] as int - 0xC0) * 64 + Payload(s[1])
    case 3 => (s[0] as int - 0xE0) * 4096 + Payload(s[1]) * 64 + Payload(s[2])
    case _ => (s[0] as int - 0xF0) * 262_144 + Payload(s[1]) * 4096 + Payload(s[2]) * 64 + Payload(s[3])
  }

  function Payload(tail: int): int {
    tail - 0x80
  }

  function Decoded(s: seq<Byte>): seq<int>
    requires ValidUtf8(s)
  {
    if s == [] then [] else [CodePoint(s)] + Decoded(s[LeadLength(s)..])
  }

  function CodePoints(s: string): seq<int> {
    seq(|s|, i requires 0 <= i < |s| => s[i] as int)
  }

  lemma CharIsOneSequence(c: char)
    ensures |EncodeChar(c)| > 0 && LeadLength(EncodeChar(c)) == |EncodeChar(c)|
  {
  }

  lemma Base64Digits(n: nat)
    ensures n / 64 * 64 + n % 64 == n
    ensures n / 4096 * 4096 + n / 64 % 64 * 64 + n % 64 == n
    ensures n / 262_144 * 262_144 + n / 4096 % 64 * 4096 + n / 64 % 64 * 64 + n % 64 == n
  {
    assert n / 4096 == n / 64 / 64 && n / 262_144 == n / 4096 / 64;
  }

  lemma CharIsDecoded(c: char)
    ensures |EncodeChar(c)| > 0 && LeadLength(EncodeChar(c)) > 0 && CodePoint(EncodeChar(c)) == c as int
  {
    CharIsOneSequence(c);
    Base64Digits(c as int);
    hide LeadLength;
    var n := c as int;
    if n < 0x80 {
    } else if n < 0x800 {
    } else if n < 0x1_0000 {
    } else {
    }
  }

  lemma CodePointExtends(a: seq<Byte>, b: seq<Byte>)
    requires a != [] && LeadLength(a) > 0
    ensures LeadLength(a + b) == LeadLength(a) && CodePoint(a + b) == CodePoint(a)
  {
    LeadLengthExtends(a, b);
    hide LeadLength;
    assert forall i :: 0 <= i < |a| ==> (a + b)[i] == a[i];
  }

  lemma DecodedOneMore(first: seq<Byte>, rest: seq<Byte>)
    requires first != [] && LeadLength(first) == |first| && ValidUtf8(rest)
    ensures ValidUtf8(first + rest) && Decoded(first + rest) == [CodePoint(first)] + Decoded(rest)
  {
    CodePointExtends(first, rest);
    hide CodePoint, LeadLength;
    assert (first + rest)[|first|..] == rest;
  }

  /** Decoding gives back the text that was encoded. */
  lemma {:induction false} DecodingUndoesEncoding(s: string)
    ensures ValidUtf8(Encode(s)) && Decoded(Encode(s)) == CodePoints(s)
  {
    if s == "" {
    } else {
      CharIsOneSequence(s[0]);
      CharIsDecoded(s[0]);
      DecodingUndoesEncoding(s[1..]);
      DecodedOneMore(EncodeChar(s[0]), Encode(s[1..]));
      hide EncodeChar, CodePoint, LeadLength, ValidUtf8, Decoded;
      assert CodePoints(s) == [s[0] as int] + CodePoints(s[1..]);
    }
  }
}
