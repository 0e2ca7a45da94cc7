/** Byte order on strings, and stable insertion into sorted sequences. */
module Sorting {
  /** `a` sorts before `b` or equals it. */
  predicate Lex(a: string, b: string) {
    a == "" || (b != "" && (a[0] < b[0] || (a[0] == b[0] && Lex(a[1..], b[1..]))))
  }

  lemma {:induction false} LexReflexive(a: string)
    ensures Lex(a, a)
  {
    if a != "" { LexReflexive(a[1..]); }
  }

  lemma {:induction false} LexTotal(a: string, b: string)
    ensures Lex(a, b) || Lex(b, a)
  {
    if a != "" && b != "" && a[0] == b[0] { LexTotal(a[1..], b[1..]); }
  }

  lemma {:induction false} LexAntisymmetric(a: string, b: string)
    requires Lex(a, b) && Lex(b, a)
    ensures a == b
  {
    if a != "" && b != "" {
      LexAntisymmetric(a[1..], b[1..]);
      assert a == [a[0]] + a[1..] && b == [b[0]] + b[1..];
    }
  }

  lemma {:induction false} LexTransitive(a: string, b: string, c: string)
    requires Lex(a, b) && Lex(b, c)
    ensures Lex(a, c)
  {
    if a != "" && b != "" && c != "" && a[0] == b[0] == c[0] { LexTransitive(a[1..], b[1..], c[1..]); }
  }

  /** Text order: a proper prefix, or the smaller character where the two first differ. */
  ghost predicate Before(a: string, b: string) {
    exists i: nat :: Parts(a, b, i)
  }

  /** `a` and `b` agree up to `i`, and there `a` ends first or has the smaller character. */
  predicate Parts(a: string, b: string, i: nat) {
    i <= |a| && i < |b| && a[..i] == b[..i] && (i < |a| ==> a[i] < b[i])
  }

  lemma PartsCons(a: string, b: string, i: nat)
    requires a != "" && b != "" && a[0] == b[0]
    ensures Parts(a, b, i + 1) <==> Parts(a[1..], b[1..], i)
  {
    if i + 1 <= |a| && i + 1 <= |b| {
      assert a[..i + 1] == [a[0]] + a[1..][..i] && b[..i + 1] == [b[0]] + b[1..][..i];
      assert a[..i + 1][1..] == a[1..][..i] && b[..i + 1][1..] == b[1..][..i];
    }
  }

  lemma BeforeCons(a: string, b: string)
    requires a != "" && b != "" && a[0] == b[0]
    ensures Before(a, b) <==> Before(a[1..], b[1..])
  {
    assert !Parts(a, b, 0);
    hide Parts;
    if i: nat :| Parts(a, b, i) { PartsCons(a, b, i - 1); }
    if i: nat :| Parts(a[1..], b[1..], i) {
      PartsCons(a, b, i);
      assert Parts(a, b, i + 1);
    }
  }

  lemma BeforeAtOnce(a: string, b: string)
    requires a != b && (a == "" || b == "" || a[0] != b[0])
    ensures Before(a, b) <==> b != "" && (a == "" || a[0] < b[0])
  {
    assert Parts(a, b, 0) <==> b != "" && (a == "" || a[0] < b[0]);
    forall i: nat | i > 0 ensures !Parts(a, b, i) {
      if i <= |a| && i <= |b| { assert a[..i][0] == a[0] && b[..i][0] == b[0]; }
    }
  }

  lemma NotBeforeItself(a: string)
    ensures !Before(a, a)
  {
  }

  /** The comparison by characters is text order. */
  lemma {:induction false} LexIsTextOrder(a: string, b: string)
    ensures Lex(a, b) <==> a == b || Before(a, b)
  {
    hide Before;
    if a == b {
      LexReflexive(a);
    } else if a == "" || b == "" || a[0] != b[0] {
      BeforeAtOnce(a, b);
    } else {
      assert a == [a[0]] + a[1..] && b == [b[0]] + b[1..];
      LexIsTextOrder(a[1..], b[1..]);
      BeforeCons(a, b);
    }
  }

  // ---------------------------------------------------------------------------
  // Sorting under any total preorder
  // ---------------------------------------------------------------------------

  ghost predicate Preorder<T(!new)>(le: (T, T) -> bool) {
    && (forall x, y :: le(x, y) || le(y, x))
    && (forall x, y, z :: le(x, y) && le(y, z) ==> le(x, z))
  }

  lemma LexPreorder()
    ensures Preorder(Lex)
  {
    forall a, b ensures Lex(a, b) || Lex(b, a) { LexTotal(a, b); }
    forall a, b, c | Lex(a, b) && Lex(b, c) ensures Lex(a, c) { LexTransitive(a, b, c); }
  }

  predicate Sorted<T>(le: (T, T) -> bool, s: seq<T>) {
    forall i, j | 0 <= i < j < |s| :: le(s[i], s[j])
  }

  /** Puts `x` before the first element it is not above. */
  function Insert<T>(le: (T, T) -> bool, x: T, s: seq<T>): (r: seq<T>)
    ensures multiset(r) == multiset(s) + multiset{x}
  {
    if s == [] || le(x, s[0]) then [x] + s
    else
      assert s == [s[0]] + s[1..];
      [s[0]] + Insert(le, x, s[1..])
  }

  /** The stable sort of `s`. */
  function Sort<T>(le: (T, T) -> bool, s: seq<T>): (r: seq<T>)
    ensures multiset(r) == multiset(s)
  {
    if s == [] then []
    else
      assert s == [s[0]] + s[1..];
      Insert(le, s[0], Sort(le, s[1..]))
  }

  lemma {:induction false} InsertSorted<T(!new)>(le: (T, T) -> bool, x: T, s: seq<T>)
    requires Preorder(le) && Sorted(le, s)
    ensures Sorted(le, Insert(le, x, s))
  {
    if s != [] && !le(x, s[0]) {
      var rest := Insert(le, x, s[1..]);
      InsertSorted(le, x, s[1..]);
      assert le(s[0], x);
      forall i | 0 <= i < |rest| ensures le(s[0], rest[i]) {
        assert rest[i] in multiset(rest);
        assert rest[i] == x || rest[i] in s[1..];
      }
    }
  }

  lemma {:induction false} SortSorts<T(!new)>(le: (T, T) -> bool, s: seq<T>)
    requires Preorder(le)
    ensures Sorted(le, Sort(le, s))
  {
    if s != [] {
      SortSorts(le, s[1..]);
      InsertSorted(le, s[0], Sort(le, s[1..]));
    }
  }

  predicate Distinct<T(==)>(s: seq<T>) { forall i, j | 0 <= i < j < |s| :: s[i] != s[j] }

  lemma Twice<T>(s: seq<T>, i: nat, j: nat)
    requires i < j < |s| && s[i] == s[j]
    ensures multiset(s)[s[i]] >= 2
  {
    assert s == s[..j] + s[j..] && s[i] in s[..j] && s[j] in s[j..];
  }

  ghost predicate OnlyEqualTie<T>(le: (T, T) -> bool, s: seq<T>) {
    forall i, j | 0 <= i < |s| && 0 <= j < |s| :: le(s[i], s[j]) && le(s[j], s[i]) ==> s[i] == s[j]
  }

  lemma SameHead<T(!new)>(le: (T, T) -> bool, a: seq<T>, b: seq<T>)
    requires Preorder(le) && Sorted(le, a) && Sorted(le, b) && OnlyEqualTie(le, a)
    requires a != [] && b != [] && multiset(a) == multiset(b)
    ensures a[0] == b[0]
  {
    assert a[0] in multiset(b) && b[0] in multiset(a);
    var i :| 0 <= i < |b| && b[i] == a[0];
    var j :| 0 <= j < |a| && a[j] == b[0];
    assert le(a[0], a[0]) && le(b[0], b[0]);
    assert le(b[0], b[i]) && le(a[0], a[j]);
  }

  lemma SameTail<T>(a: seq<T>, b: seq<T>)
    requires a != [] && b != [] && multiset(a) == multiset(b) && a[0] == b[0]
    ensures multiset(a[1..]) == multiset(b[1..])
  {
    assert a == [a[0]] + a[1..] && b == [b[0]] + b[1..];
    assert multiset(a[1..]) == multiset(a) - multiset{a[0]};
    assert multiset(b[1..]) == multiset(b) - multiset{b[0]};
  }

  /** Sorted sequences with the same elements are equal when only equal elements tie. */
  lemma {:induction false} SortedUnique<T(!new)>(le: (T, T) -> bool, a: seq<T>, b: seq<T>)
    requires Preorder(le) && Sorted(le, a) && Sorted(le, b) && OnlyEqualTie(le, a)
    requires multiset(a) == multiset(b)
    ensures a == b
  {
    hide Preorder;
    assert |a| == |multiset(a)| == |multiset(b)| == |b|;
    if a != [] {
      SameHead(le, a, b);
      SameTail(a, b);
      SortedUnique(le, a[1..], b[1..]);
      assert a == [a[0]] + a[1..] && b == [b[0]] + b[1..];
    }
  }

  /** The order in which elements arrive does not matter. */
  lemma SortIgnoresOrder<T(!new)>(le: (T, T) -> bool, a: seq<T>, b: seq<T>)
    requires Preorder(le) && multiset(a) == multiset(b) && OnlyEqualTie(le, a)
    ensures Sort(le, a) == Sort(le, b)
  {
    var s := Sort(le, a);
    SortSorts(le, a);
    SortSorts(le, b);
    forall i, j | 0 <= i < |s| && 0 <= j < |s| && le(s[i], s[j]) && le(s[j], s[i]) ensures s[i] == s[j] {
      assert s[i] in multiset(a) && s[j] in multiset(a);
    }
    SortedUnique(le, s, Sort(le, b));
  }
}
