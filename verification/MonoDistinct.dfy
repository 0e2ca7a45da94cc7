/** When the names of generic instances are distinct. */
module MonoDistinct {
  import opened Wrappers
  import opened Hir
  import opened TypeInference
  import opened CallInference
  import opened MonoNames
  import opened Monomorph
  import opened MonoSpelling
  import opened Text

  // ---------------------------------------------------------------------------
  // Names of keys
  // ---------------------------------------------------------------------------

  ghost predicate PlainKey(k: MonoKey) {
    forall i | 0 <= i < |k.args| :: Ground(k.args[i].1)
  }

  /** The key with the constants in its types named in lower case. */
  function FoldedItems(items: seq<(nat, Ty)>): seq<(nat, Ty)> {
    seq(|items|, i requires 0 <= i < |items| => (items[i].0, Folded(items[i].1)))
  }

  function FoldedKey(k: MonoKey): MonoKey { MonoKey(k.name, FoldedItems(k.args)) }

  function Piece(item: (nat, Ty)): string { "t" + Decimal(item.0) + "_" + Spelling(item.1) }

  function Pieces(items: seq<(nat, Ty)>): seq<string> {
    seq(|items|, i requires 0 <= i < |items| => Piece(items[i]))
  }

  function Suffix(items: seq<(nat, Ty)>): string { Join(Pieces(items), "_") }

  lemma SuffixOfKey(k: MonoKey)
    ensures MonoSuffix(k) == Suffix(k.args)
  {
    assert seq(|k.args|, i requires 0 <= i < |k.args| =>
               "t" + Decimal(k.args[i].0) + "_" + SanitizeTypeKey(Display(k.args[i].1))) == Pieces(k.args);
  }

  function AfterPiece(items: seq<(nat, Ty)>): string
    requires items != []
  {
    if |items| == 1 then "" else "_" + Suffix(items[1..])
  }

  lemma SuffixSplits(items: seq<(nat, Ty)>)
    requires items != []
    ensures Suffix(items) == "t" + Decimal(items[0].0) + ("_" + (Spelling(items[0].1) + AfterPiece(items)))
    ensures MarkTail(AfterPiece(items))
  {
    hide Spelling, Decimal;
    assert Pieces(items)[0] == Piece(items[0]) && Pieces(items)[1..] == Pieces(items[1..]);
    var mark, s := "t" + Decimal(items[0].0), Spelling(items[0].1);
    if |items| > 1 {
      Assoc(mark + "_" + s, "_", Suffix(items[1..]));
      Assoc(mark + "_", s, AfterPiece(items));
      Assoc(mark, "_", s + AfterPiece(items));
      SuffixIsMarked(items[1..]);
    } else {
      Assoc(mark, "_", s);
      assert s + "" == s;
    }
  }

  lemma SuffixIsMarked(items: seq<(nat, Ty)>)
    requires items != []
    ensures Marked(Suffix(items))
  {
    DecimalIsWord(items[0].0);
    hide Spelling, Decimal;
    var piece := Piece(items[0]);
    assert piece[0] == 't' && piece[1] == Decimal(items[0].0)[0];
    assert Pieces(items)[0] == piece;
    assert |items| > 1 ==> Suffix(items)[0] == piece[0] && Suffix(items)[1] == piece[1];
  }

  lemma MarkIsWord(n: nat)
    ensures Word("t" + Decimal(n))
  {
    DecimalIsWord(n);
    hide Decimal;
  }

  lemma {:induction false} SameSuffix(a: seq<(nat, Ty)>, b: seq<(nat, Ty)>)
    requires (forall i | 0 <= i < |a| :: Ground(a[i].1)) && (forall i | 0 <= i < |b| :: Ground(b[i].1))
    requires Suffix(a) == Suffix(b)
    ensures FoldedItems(a) == FoldedItems(b)
  {
    hide Spelling, Decimal, Ground, Folded, Suffix, Word, FoldedItems;
    if a != [] && b != [] {
      SuffixSplits(a);
      SuffixSplits(b);
      MarkIsWord(a[0].0);
      MarkIsWord(b[0].0);
      var x, y := Spelling(a[0].1) + AfterPiece(a), Spelling(b[0].1) + AfterPiece(b);
      WordCancel("t" + Decimal(a[0].0), "t" + Decimal(b[0].0), "_" + x, "_" + y);
      PrefixCancel("t", Decimal(a[0].0), Decimal(b[0].0));
      DecimalInjective(a[0].0, b[0].0);
      PrefixCancel("_", x, y);
      MarkCancel(a[0].1, b[0].1, AfterPiece(a), AfterPiece(b));
      SameSpelling(a[0].1, b[0].1);
      if |a| > 1 && |b| > 1 {
        PrefixCancel("_", Suffix(a[1..]), Suffix(b[1..]));
        SameSuffix(a[1..], b[1..]);
      }
      FoldedCons(a);
      FoldedCons(b);
    } else if a != [] {
      SuffixIsMarked(a);
      NoSuffix();
    } else if b != [] {
      SuffixIsMarked(b);
      NoSuffix();
    }
  }

  lemma FoldedCons(items: seq<(nat, Ty)>)
    requires items != []
    ensures FoldedItems(items) == [(items[0].0, Folded(items[0].1))] + FoldedItems(items[1..])
  {
    hide Folded;
  }

  lemma NoSuffix()
    ensures Suffix([]) == "" && FoldedItems([]) == []
  {
  }

  lemma FoldedSuffix(a: seq<(nat, Ty)>, b: seq<(nat, Ty)>)
    requires (forall i | 0 <= i < |a| :: Ground(a[i].1)) && (forall i | 0 <= i < |b| :: Ground(b[i].1))
    requires FoldedItems(a) == FoldedItems(b)
    ensures Suffix(a) == Suffix(b)
  {
    hide Spelling, Decimal, Ground, Folded;
    assert |a| == |FoldedItems(a)| && |b| == |FoldedItems(b)|;
    forall i | 0 <= i < |a| ensures Pieces(a)[i] == Pieces(b)[i] {
      assert FoldedItems(a)[i] == FoldedItems(b)[i];
      SameSpelling(a[i].1, b[i].1);
    }
    assert Pieces(a) == Pieces(b);
  }

  // ---------------------------------------------------------------------------
  // The template's name
  // ---------------------------------------------------------------------------

  predicate NoDot(s: string) { '.' !in s }

  lemma {:induction false} TrimLeftNoDot(s: string)
    requires NoDot(s)
    ensures NoDot(TrimLeft(s))
  {
    if s != "" && s[0] == '_' { TrimLeftNoDot(s[1..]); }
  }

  lemma {:induction false} TrimRightNoDot(s: string)
    requires NoDot(s)
    ensures NoDot(TrimRight(s))
  {
    if s != "" && s[|s| - 1] == '_' { TrimRightNoDot(s[..|s| - 1]); }
  }

  lemma {:induction false} SuffixNoDot(items: seq<(nat, Ty)>)
    ensures NoDot(Suffix(items))
  {
    hide Decimal, SanitizeTypeKey;
    if items != [] {
      SuffixSplits(items);
      DecimalIsWord(items[0].0);
      SpellingNoDot(items[0].1);
      if |items| > 1 { SuffixNoDot(items[1..]); }
    }
  }

  lemma SpellingNoDot(t: Ty)
    ensures NoDot(Spelling(t))
  {
    var text := Display(t);
    hide Display;
    assert NoDot(Cleaned(text));
    TrimLeftNoDot(Cleaned(text));
    TrimRightNoDot(TrimLeft(Cleaned(text)));
  }

  /** Names agree exactly when template and suffix do: a suffix holds no dot. */
  lemma NameIsTemplateAndSuffix(a: MonoKey, b: MonoKey)
    ensures InstanceName(a) == InstanceName(b) <==> a.name == b.name && MonoSuffix(a) == MonoSuffix(b)
  {
    hide MonoSuffix;
    SuffixOfKey(a);
    SuffixOfKey(b);
    SuffixNoDot(a.args);
    SuffixNoDot(b.args);
    var x, y := "__mono_" + MonoSuffix(a), "__mono_" + MonoSuffix(b);
    assert NoDot(x) && NoDot(y);
    assert InstanceName(a) == a.name + ("." + x) && InstanceName(b) == b.name + ("." + y);
    if InstanceName(a) == InstanceName(b) {
      LastDot(a.name, b.name, x, y);
      PrefixCancel("__mono_", MonoSuffix(a), MonoSuffix(b));
    }
  }

  lemma LastDot(v: string, w: string, x: string, y: string)
    requires NoDot(x) && NoDot(y) && v + ("." + x) == w + ("." + y)
    ensures v == w && x == y
  {
    if |v| < |w| { LaterDot(v, w, x, y); } else if |w| < |v| { LaterDot(w, v, y, x); }
    assert v == (v + ("." + x))[..|v|] && w == (w + ("." + y))[..|w|];
    PrefixCancel(v, "." + x, "." + y);
    PrefixCancel(".", x, y);
  }

  lemma LaterDot(v: string, w: string, x: string, y: string)
    requires NoDot(x) && |v| < |w|
    ensures v + ("." + x) != w + ("." + y)
  {
    var i := |w| - |v| - 1;
    assert (w + ("." + y))[|w|] == '.';
    assert i < |x| ==> (v + ("." + x))[|w|] == x[i];
  }

  /**
    Instances with plain type arguments share a name exactly when they are of one template and
    their type arguments differ at most in the case of constant names.
  */
  lemma PlainNamesCollideExactly(a: MonoKey, b: MonoKey)
    requires PlainKey(a) && PlainKey(b)
    ensures InstanceName(a) == InstanceName(b) <==> FoldedKey(a) == FoldedKey(b)
  {
    hide InstanceName, MonoSuffix;
    NameIsTemplateAndSuffix(a, b);
    SuffixOfKey(a);
    SuffixOfKey(b);
    if Suffix(a.args) == Suffix(b.args) { SameSuffix(a.args, b.args); }
    if FoldedItems(a.args) == FoldedItems(b.args) { FoldedSuffix(a.args, b.args); }
  }
}
