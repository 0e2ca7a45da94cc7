/**
  From byte offsets to lines and columns: the table of line starts and its lookup.
*/
module LineIndex {
  newtype byte = b: int | 0 <= b < 256

  type Bytes = seq<byte>

  const NEWLINE: byte := 10

  const U32: nat := 0x1_0000_0000

  /** A cast that keeps the low 32 bits. */
  function AsU32(n: nat): (r: nat)
    ensures r < U32 && (n < U32 ==> r == n)
  {
    n % U32
  }

  predicate Continuation(b: byte) { 0x80 <= b < 0xC0 }

  /** How many bytes a character takes, by its first byte; zero for bytes that start none. */
  function CharLength(b: byte): nat {
    if b < 0x80 then 1
    else if 0xC2 <= b < 0xE0 then 2
    else if 0xE0 <= b < 0xF0 then 3
    else if 0xF0 <= b < 0xF5 then 4
    else 0
  }

  /** A sequence of characters, each a first byte and its continuation bytes. */
  predicate Utf8(s: Bytes) {
    s == [] ||
    (var n := CharLength(s[0]);
     1 <= n <= |s| && (forall i | 1 <= i < n :: Continuation(s[i])) && Utf8(s[n..]))
  }

  predicate Boundary(s: Bytes, o: nat) {
    o <= |s| && (o == 0 || o == |s| || !Continuation(s[o]))
  }

  // ---------------------------------------------------------------------------
  // The table and its lookup
  // ---------------------------------------------------------------------------

  /** Starts of the lines after the newlines from `i` on, as 32-bit numbers. */
  function StartsFrom(s: Bytes, i: nat): seq<nat>
    requires i <= |s|
    decreases |s| - i
  {
    if i == |s| then [] else (if s[i] == NEWLINE then [AsU32(i + 1)] else []) + StartsFrom(s, i + 1)
  }

  function LineStarts(s: Bytes): seq<nat> { [0] + StartsFrom(s, 0) }

  /** How many leading starts are not beyond the offset. */
  function PartitionPoint(starts: seq<nat>, offset: nat): (n: nat)
    ensures n <= |starts|
  {
    if starts == [] || starts[0] > offset then 0 else 1 + PartitionPoint(starts[1..], offset)
  }

  function PreviousBoundary(s: Bytes, o: nat): (p: nat)
    requires o <= |s|
    ensures p <= o && Boundary(s, p) && forall k | p < k <= o :: !Boundary(s, k)
  {
    if Boundary(s, o) then o else PreviousBoundary(s, o - 1)
  }

  /** Characters that start in a stretch of bytes. */
  function Chars(s: Bytes, a: nat, b: nat): nat
    requires b <= |s|
    decreases b - a
  {
    if a >= b then 0 else (if Continuation(s[a]) then 0 else 1) + Chars(s, a + 1, b)
  }

  class SourceFile {
    const content: Bytes
    const lineStarts: seq<nat>

    constructor (content: Bytes)
      ensures this.content == content && lineStarts == LineStarts(content)
    {
      this.content, lineStarts := content, LineStarts(content);
    }

    /** Line and column, both from one. */
    method LineCol(offset: nat) returns (line: nat, col: nat)
      requires Utf8(content) && |content| < U32 && lineStarts == LineStarts(content)
      ensures (line, col) == Position(content, offset)
    {
      hide LineStarts, PartitionPoint, LineStart, PreviousBoundary, Utf8, Chars, Newlines;
      var o := if offset <= |content| then offset else |content|;
      StartFound(content, o);
      var index := PartitionPoint(lineStarts, o) - 1;
      var lineStart := lineStarts[index];
      var p := FindPreviousBoundary(content, o);
      StartIsBoundary(content, o);
      var text := content[lineStart..p];
      CharsOfSlice(content, lineStart, p);
      return index + 1, Chars(text, 0, |text|) + 1;
    }
  }

  method FindPreviousBoundary(s: Bytes, start: nat) returns (o: nat)
    requires start <= |s|
    ensures o == PreviousBoundary(s, start)
  {
    o := start;
    while o > 0 && !Boundary(s, o)
      invariant o <= |s| && PreviousBoundary(s, start) == PreviousBoundary(s, o)
    {
      o := o - 1;
    }
  }

  // ---------------------------------------------------------------------------
  // What a position is
  // ---------------------------------------------------------------------------

  function Newlines(s: Bytes, a: nat, b: nat): nat
    requires b <= |s|
    decreases b - a
  {
    if a >= b then 0 else (if s[a] == NEWLINE then 1 else 0) + Newlines(s, a + 1, b)
  }

  /** Just after the last newline before `o`, or the beginning. */
  function LineStart(s: Bytes, o: nat): (p: nat)
    requires o <= |s|
    ensures p <= o && (p > 0 ==> s[p - 1] == NEWLINE) && forall k | p <= k < o :: s[k] != NEWLINE
  {
    if o == 0 || s[o - 1] == NEWLINE then o else LineStart(s, o - 1)
  }

  /** One plus the newlines before the offset, one plus the characters since the last of them. */
  function Position(s: Bytes, offset: nat): (nat, nat) {
    var o := if offset <= |s| then offset else |s|;
    (1 + Newlines(s, 0, o), 1 + Chars(s, LineStart(s, o), PreviousBoundary(s, o)))
  }

  lemma {:induction false} NoNewlines(s: Bytes, a: nat, b: nat)
    requires b <= |s|
    ensures Newlines(s, a, b) == 0 <==> forall k | a <= k < b :: s[k] != NEWLINE
    decreases b - a
  {
    if a < b { NoNewlines(s, a + 1, b); }
  }

  lemma {:induction false} StartsBeyond(s: Bytes, i: nat, o: nat)
    requires o <= i <= |s| < U32
    ensures PartitionPoint(StartsFrom(s, i), o) == 0
    decreases |s| - i
  {
    if i < |s| { StartsBeyond(s, i + 1, o); }
  }

  lemma StartsStep(s: Bytes, i: nat)
    requires i < |s| < U32
    ensures StartsFrom(s, i) == (if s[i] == NEWLINE then [i + 1] else []) + StartsFrom(s, i + 1)
  {
    hide AsU32;
  }

  lemma PartitionCons(x: nat, rest: seq<nat>, o: nat)
    ensures PartitionPoint([x] + rest, o) == if x > o then 0 else 1 + PartitionPoint(rest, o)
  {
    assert ([x] + rest)[1..] == rest;
  }

  /** The table from `i` on, looked up at `o`: as many starts as newlines, the last at the line's start. */
  lemma {:induction false} StartsFound(s: Bytes, i: nat, o: nat)
    requires i <= o <= |s| < U32
    ensures PartitionPoint(StartsFrom(s, i), o) == Newlines(s, i, o)
    ensures Newlines(s, i, o) > 0 ==> Newlines(s, i, o) <= |StartsFrom(s, i)| && StartsFrom(s, i)[Newlines(s, i, o) - 1] == LineStart(s, o)
    decreases o - i
  {
    hide StartsFrom, PartitionPoint, LineStart;
    if i == o {
      StartsBeyond(s, i, o);
    } else {
      StartsFound(s, i + 1, o);
      StartsStep(s, i);
      var more := StartsFrom(s, i + 1);
      if s[i] == NEWLINE {
        PartitionCons(i + 1, more, o);
        NoNewlines(s, i + 1, o);
        if Newlines(s, i + 1, o) == 0 { UniqueLineStart(s, o, i + 1); }
      } else {
        assert [] + more == more;
      }
    }
  }

  lemma {:induction false} UniqueLineStart(s: Bytes, o: nat, p: nat)
    requires p <= o <= |s| && (p > 0 ==> s[p - 1] == NEWLINE) && forall k | p <= k < o :: s[k] != NEWLINE
    ensures LineStart(s, o) == p
  {
    if p < o { UniqueLineStart(s, o - 1, p); }
  }

  lemma StartFound(s: Bytes, o: nat)
    requires o <= |s| < U32
    ensures PartitionPoint(LineStarts(s), o) == 1 + Newlines(s, 0, o) && LineStarts(s)[Newlines(s, 0, o)] == LineStart(s, o)
  {
    StartsFound(s, 0, o);
    assert LineStarts(s)[1..] == StartsFrom(s, 0);
    NoNewlines(s, 0, o);
    if Newlines(s, 0, o) == 0 { UniqueLineStart(s, o, 0); }
  }

  /** After a newline a character starts. */
  lemma {:induction false} AfterNewline(s: Bytes, i: nat)
    requires Utf8(s) && i < |s| && s[i] == NEWLINE
    ensures Boundary(s, i + 1)
    decreases |s|
  {
    var n := CharLength(s[0]);
    if i == 0 {
      if |s| > 1 { assert s[1..][0] == s[1]; }
    } else {
      assert i >= n;
      assert s[n..][i - n] == s[i];
      AfterNewline(s[n..], i - n);
      if i + 1 < |s| { assert s[n..][i + 1 - n] == s[i + 1]; }
    }
  }

  /** So rounding an offset down stays on its line. */
  lemma StartIsBoundary(s: Bytes, o: nat)
    requires Utf8(s) && o <= |s|
    ensures Boundary(s, LineStart(s, o)) && LineStart(s, o) <= PreviousBoundary(s, o)
  {
    var p := LineStart(s, o);
    if p > 0 { AfterNewline(s, p - 1); }
  }

  lemma {:induction false} CharsOfSlice(s: Bytes, a: nat, b: nat)
    requires a <= b <= |s|
    ensures Chars(s[a..b], 0, b - a) == Chars(s, a, b)
  {
    CharsShift(s, a, b, 0);
  }

  lemma {:induction false} CharsShift(s: Bytes, a: nat, b: nat, k: nat)
    requires a + k <= b <= |s|
    ensures Chars(s[a..b], k, b - a) == Chars(s, a + k, b)
    decreases b - a - k
  {
    if a + k < b { CharsShift(s, a, b, k + 1); }
  }

  // ---------------------------------------------------------------------------
  // Positions are ordered like offsets
  // ---------------------------------------------------------------------------

  predicate Before(x: (nat, nat), y: (nat, nat)) { x.0 < y.0 || (x.0 == y.0 && x.1 < y.1) }

  lemma {:induction false} NewlinesSplit(s: Bytes, a: nat, m: nat, b: nat)
    requires a <= m <= b <= |s|
    ensures Newlines(s, a, b) == Newlines(s, a, m) + Newlines(s, m, b)
    decreases m - a
  {
    if a < m { NewlinesSplit(s, a + 1, m, b); }
  }

  lemma {:induction false} CharsSplit(s: Bytes, a: nat, m: nat, b: nat)
    requires a <= m <= b <= |s|
    ensures Chars(s, a, b) == Chars(s, a, m) + Chars(s, m, b)
    decreases m - a
  {
    if a < m { CharsSplit(s, a + 1, m, b); }
  }

  lemma BoundaryStartsChar(s: Bytes, o: nat)
    requires Utf8(s) && o < |s| && Boundary(s, o)
    ensures !Continuation(s[o])
  {
  }

  /** On character boundaries, later offsets have strictly later positions: no two share one. */
  lemma PositionsIncrease(s: Bytes, a: nat, b: nat)
    requires Utf8(s) && a < b <= |s| && Boundary(s, a) && Boundary(s, b)
    ensures Before(Position(s, a), Position(s, b))
  {
    NewlinesSplit(s, 0, a, b);
    NoNewlines(s, a, b);
    if Newlines(s, a, b) == 0 {
      var p := LineStart(s, a);
      UniqueLineStart(s, b, p);
      CharsSplit(s, p, a, b);
      BoundaryStartsChar(s, a);
    }
  }

  lemma BoundaryIsPrevious(s: Bytes, p: nat)
    requires p <= |s| && Boundary(s, p)
    ensures PreviousBoundary(s, p) == p
  {
  }

  /** Inside a character, and past the end, the position is that of the boundary before. */
  lemma PositionRoundsDown(s: Bytes, offset: nat)
    requires Utf8(s)
    ensures Position(s, offset) == Position(s, PreviousBoundary(s, if offset <= |s| then offset else |s|))
  {
    hide Utf8, Chars, Newlines, LineStart, PreviousBoundary;
    var o := if offset <= |s| then offset else |s|;
    var p := PreviousBoundary(s, o);
    StartIsBoundary(s, o);
    BoundaryIsPrevious(s, p);
    NewlinesSplit(s, 0, p, o);
    InsideCharacter(s, p, o);
    NoNewlines(s, p, o);
    UniqueLineStart(s, p, LineStart(s, o));
  }

  lemma InsideCharacter(s: Bytes, p: nat, o: nat)
    requires Utf8(s) && o <= |s| && p == PreviousBoundary(s, o)
    ensures forall k | p <= k < o :: s[k] != NEWLINE
  {
    forall k | p <= k < o ensures s[k] != NEWLINE {
      if s[k] == NEWLINE { AfterNewline(s, k); }
    }
  }
}
