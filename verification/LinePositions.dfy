/** Positions of a file given as characters: lines and columns counted in characters, for its UTF-8 bytes. */
module LinePositions {
  import opened LineIndex

  const CODE_POINTS: nat := 0x11_0000

  /** The UTF-8 bytes of a character, by its code point. */
  function Encode(c: nat): (r: Bytes)
    requires c < CODE_POINTS
    ensures r != []
  {
    if c < 0x80 then [c as byte]
    else if c < 0x800 then [(0xC0 + c / 0x40) as byte, (0x80 + c % 0x40) as byte]
    else if c < 0x1_0000 then [(0xE0 + c / 0x1000) as byte, (0x80 + c / 0x40 % 0x40) as byte, (0x80 + c % 0x40) as byte]
    else [(0xF0 + c / 0x4_0000) as byte, (0x80 + c / 0x1000 % 0x40) as byte, (0x80 + c / 0x40 % 0x40) as byte, (0x80 + c % 0x40) as byte]
  }

  predicate Text(cs: seq<nat>) { forall i | 0 <= i < |cs| :: cs[i] < CODE_POINTS }

  function EncodeAll(cs: seq<nat>): Bytes
    requires Text(cs)
  {
    if cs == [] then [] else EncodeAll(cs[..|cs| - 1]) + Encode(cs[|cs| - 1])
  }

  /** One plus the characters after the last newline. */
  function Column(cs: seq<nat>): nat {
    if cs == [] || cs[|cs| - 1] == 10 then 1 else 1 + Column(cs[..|cs| - 1])
  }

  /** A first byte that starts a character, continuation bytes, and a newline only for the newline. */
  lemma EncodeIsCharacter(c: nat)
    requires c < CODE_POINTS
    ensures
      var r := Encode(c);
      && CharLength(r[0]) == |r| && !Continuation(r[0]) && (forall i | 1 <= i < |r| :: Continuation(r[i]))
      && (c == 10 ==> r == [NEWLINE]) && (c != 10 ==> forall i | 0 <= i < |r| :: r[i] != NEWLINE)
  {
    if 0x80 <= c < 0x800 { assert 2 <= c / 0x40 < 0x20; }
    if 0x800 <= c < 0x1_0000 { assert c / 0x1000 < 0x10; }
    if 0x1_0000 <= c { assert c / 0x4_0000 < 5; }
  }

  lemma EncodeLast(cs: seq<nat>, k: nat)
    requires Text(cs) && k < |cs|
    ensures EncodeAll(cs[..k + 1]) == EncodeAll(cs[..k]) + Encode(cs[k])
  {
    assert cs[..k + 1][..k] == cs[..k];
  }

  /** Where a character's bytes lie. */
  lemma {:induction false} BytesLie(cs: seq<nat>, k: nat)
    requires Text(cs) && k < |cs|
    ensures
      var s, o := EncodeAll(cs), |EncodeAll(cs[..k])|;
      o + |Encode(cs[k])| == |EncodeAll(cs[..k + 1])| <= |s| && s[o..o + |Encode(cs[k])|] == Encode(cs[k])
  {
    hide Encode, EncodeAll;
    EncodeLast(cs, k);
    var n := |cs| - 1;
    assert cs[..n + 1] == cs;
    if k < n {
      var front := cs[..n];
      BytesLie(front, k);
      assert front[..k] == cs[..k] && front[..k + 1] == cs[..k + 1];
      EncodeLast(cs, n);
    }
  }

  lemma {:induction false} Utf8Append(a: Bytes, b: Bytes)
    requires Utf8(a) && Utf8(b)
    ensures Utf8(a + b)
  {
    if a == [] {
      assert a + b == b;
    } else {
      var n := CharLength(a[0]);
      assert (a + b)[n..] == a[n..] + b;
      Utf8Append(a[n..], b);
    }
  }

  /** What is encoded is a file the lookup accepts. */
  lemma {:induction false} EncodedIsUtf8(cs: seq<nat>)
    requires Text(cs)
    ensures Utf8(EncodeAll(cs))
  {
    if cs != [] {
      hide Encode;
      var n := |cs| - 1;
      EncodedIsUtf8(cs[..n]);
      EncodeIsCharacter(cs[n]);
      var r := Encode(cs[n]);
      assert r[|r|..] == [];
      assert Utf8(r);
      Utf8Append(EncodeAll(cs[..n]), r);
    }
  }

  /** A character is one character, and a newline exactly if it is the newline. */
  lemma {:induction false} OneCharacter(s: Bytes, o: nat, c: nat)
    requires c < CODE_POINTS && o + |Encode(c)| <= |s| && s[o..o + |Encode(c)|] == Encode(c)
    ensures
      var e := o + |Encode(c)|;
      && Chars(s, o, e) == 1 && Newlines(s, o, e) == (if c == 10 then 1 else 0)
      && (c == 10 ==> e == o + 1 && s[o] == NEWLINE) && (c != 10 ==> forall k | o <= k < e :: s[k] != NEWLINE)
      && Boundary(s, o)
  {
    hide Encode, CharLength;
    EncodeIsCharacter(c);
    var r, e := Encode(c), o + |Encode(c)|;
    forall k | o <= k < e ensures s[k] == r[k - o] { assert s[k] == s[o..e][k - o]; }
    assert s[o] == r[0];
    NoChars(s, o + 1, e);
    if c != 10 { NoNewlines(s, o, e); }
  }

  lemma {:induction false} NoChars(s: Bytes, a: nat, b: nat)
    requires b <= |s| && forall k | a <= k < b :: Continuation(s[k])
    ensures Chars(s, a, b) == 0
    decreases b - a
  {
    if a < b { NoChars(s, a + 1, b); }
  }

  /** Up to the `k`th character. */
  ghost predicate Counted(cs: seq<nat>, k: nat)
    requires Text(cs) && k <= |cs|
  {
    var s, o := EncodeAll(cs), |EncodeAll(cs[..k])|;
    && o <= |s| && Newlines(s, 0, o) == multiset(cs[..k])[10]
    && 1 + Chars(s, LineStart(s, o), o) == Column(cs[..k])
  }

  lemma {:induction false} CountedTo(cs: seq<nat>, k: nat)
    requires Text(cs) && k <= |cs|
    ensures Counted(cs, k)
  {
    if k == 0 {
      NothingCounted(cs);
    } else {
      CountedTo(cs, k - 1);
      CountedNext(cs, k - 1);
    }
  }

  lemma NothingCounted(cs: seq<nat>)
    requires Text(cs)
    ensures Counted(cs, 0)
  {
    assert cs[..0] == [];
  }

  lemma CountedNext(cs: seq<nat>, k: nat)
    requires Text(cs) && k < |cs| && Counted(cs, k)
    ensures Counted(cs, k + 1)
  {
    hide Encode, EncodeAll, LineStart, Chars, Newlines, Continuation, Column;
    var s, c := EncodeAll(cs), cs[k];
    var o, e := |EncodeAll(cs[..k])|, |EncodeAll(cs[..k + 1])|;
    BytesLie(cs, k);
    ColumnNext(cs, k);
    OneCharacter(s, o, c);
    NewlinesSplit(s, 0, o, e);
    NextLineStart(s, o, e, c == 10);
    if c != 10 { CharsSplit(s, LineStart(s, o), o, e); }
  }

  lemma ColumnNext(cs: seq<nat>, k: nat)
    requires k < |cs|
    ensures Column(cs[..k + 1]) == if cs[k] == 10 then 1 else 1 + Column(cs[..k])
    ensures multiset(cs[..k + 1])[10] == multiset(cs[..k])[10] + if cs[k] == 10 then 1 else 0
  {
    assert cs[..k + 1] == cs[..k] + [cs[k]] && cs[..k + 1][..k] == cs[..k];
  }

  lemma NextLineStart(s: Bytes, o: nat, e: nat, newline: bool)
    requires o < e <= |s| && (newline ==> e == o + 1 && s[o] == NEWLINE) && (!newline ==> forall k | o <= k < e :: s[k] != NEWLINE)
    ensures LineStart(s, e) == if newline then e else LineStart(s, o)
    ensures newline ==> Chars(s, LineStart(s, e), e) == 0
  {
    UniqueLineStart(s, e, if newline then e else LineStart(s, o));
  }

  /**
    The position of the `k`th character of a file: one plus the newlines before it, and one plus
    the characters between the last of them and it.
  */
  lemma {:induction false} CharacterPosition(cs: seq<nat>, k: nat)
    requires Text(cs) && k <= |cs|
    ensures Position(EncodeAll(cs), |EncodeAll(cs[..k])|) == (1 + multiset(cs[..k])[10], Column(cs[..k]))
  {
    hide Encode, LineStart, Chars, Newlines, Column;
    CountedTo(cs, k);
    var s, o := EncodeAll(cs), |EncodeAll(cs[..k])|;
    if k < |cs| {
      BytesLie(cs, k);
      OneCharacter(s, o, cs[k]);
    } else {
      assert cs[..k] == cs;
    }
    BoundaryIsPrevious(s, o);
  }
}
