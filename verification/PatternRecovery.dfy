/** What the pattern parser makes of text it reports: where recovery stops, and what removed syntax stands for. */
module PatternRecovery {
  import opened Wrappers
  import opened PatternParser
  import G = PatternGrammar

  // ---------------------------------------------------------------------------
  // Recovery inside a payload
  // ---------------------------------------------------------------------------

  /** How many parentheses are opened and not closed. */
  function Surplus(ts: seq<Token>): int {
    multiset(ts)[LParen] as int - multiset(ts)[RParen] as int
  }

  /** A comma or closing parenthesis of the payload itself stands at `n`. */
  predicate Delimits(ts: seq<Token>, n: nat, parens: nat) {
    n < |ts| && (ts[n] == Comma || ts[n] == RParen) && parens + Surplus(ts[..n]) == 0
  }

  lemma SurplusCons(ts: seq<Token>, k: nat)
    requires k < |ts|
    ensures Surplus(ts[..k + 1]) == Surplus([ts[0]]) + Surplus(ts[1..][..k])
  {
    assert ts[..k + 1] == [ts[0]] + ts[1..][..k];
  }

  lemma DelimitsCons(ts: seq<Token>, k: nat, parens: nat, inner: nat)
    requires ts != [] && inner == parens + Surplus([ts[0]])
    ensures Delimits(ts, k + 1, parens) <==> Delimits(ts[1..], k, inner)
  {
    hide Surplus;
    if k + 1 < |ts| { SurplusCons(ts, k); }
  }

  /** Recovery skips to the first such place, or to the end, and changes nothing else. */
  lemma {:induction false} RecoverStops(s: State, parens: nat) returns (n: nat)
    ensures n <= |s.tokens| && Recover(s, parens) == G.Rest(s, s.tokens[n..])
    ensures n < |s.tokens| ==> Delimits(s.tokens, n, parens)
    ensures forall k: nat | k < n :: !Delimits(s.tokens, k, parens)
    decreases |s.tokens|
  {
    n := 0;
    hide Delimits, Surplus, Recover, Skip, G.Rest;
    if s.tokens == [] || Delimits(s.tokens, 0, parens) {
      RecoverStays(s, parens);
    } else {
      RecoverSkips(s, parens);
      var inner := parens + Surplus([s.tokens[0]]);
      SkipRest(s);
      var m := RecoverStops(Skip(s), inner);
      n := m + 1;
      DelimitsCons(s.tokens, m, parens, inner);
      NoneBefore(s.tokens, m, parens, inner);
    }
  }

  lemma NoneBefore(ts: seq<Token>, m: nat, parens: nat, inner: nat)
    requires ts != [] && inner == parens + Surplus([ts[0]]) && !Delimits(ts, 0, parens)
    requires forall k: nat | k < m :: !Delimits(ts[1..], k, inner)
    ensures forall k: nat | k < m + 1 :: !Delimits(ts, k, parens)
  {
    hide Delimits, Surplus;
    forall k: nat | k < m + 1 ensures !Delimits(ts, k, parens) {
      if k > 0 { DelimitsCons(ts, k - 1, parens, inner); }
    }
  }

  lemma RecoverStays(s: State, parens: nat)
    requires s.tokens == [] || Delimits(s.tokens, 0, parens)
    ensures Recover(s, parens) == G.Rest(s, s.tokens[0..])
  {
    assert s.tokens[..0] == [];
    assert s.tokens[0..] == s.tokens;
  }

  lemma SkipRest(s: State)
    requires s.tokens != []
    ensures Skip(s).tokens == s.tokens[1..]
    ensures forall m | 0 <= m <= |s.tokens| - 1 :: G.Rest(Skip(s), Skip(s).tokens[m..]) == G.Rest(s, s.tokens[m + 1..])
  {
    forall m | 0 <= m <= |s.tokens| - 1 ensures Skip(s).tokens[m..] == s.tokens[m + 1..] {}
  }

  lemma RecoverSkips(s: State, parens: nat)
    requires s.tokens != [] && !Delimits(s.tokens, 0, parens)
    ensures parens + Surplus([s.tokens[0]]) >= 0 && Recover(s, parens) == Recover(Skip(s), parens + Surplus([s.tokens[0]]))
  {
    assert s.tokens[..0] == [];
  }

  // ---------------------------------------------------------------------------
  // Removed syntax
  // ---------------------------------------------------------------------------

  /** The spelling that `ok` and `err` patterns once had. */
  function Removed(w: Wrapper): Token
    requires w != WrapSome
  {
    if w == WrapOk then SuccessRemoved else ErrorRemoved
  }

  lemma {:induction false} RemovedIsWrapped(w: Wrapper, depth: nat, s: State)
    requires w != WrapSome && s.tokens != [] && s.tokens[0] == Removed(w)
    ensures Alternative(s, depth) == Wrapped(Emit(Skip(s), ResultCtorRenamed), depth, w)
  {
    hide Wrapped, ByKind, Alternative;
    G.AlternativeCases(s, depth);
    ByKindCases(s, depth);
  }

  /** With the removed spelling the pattern is the one the new spelling gives, and the renaming is reported. */
  lemma {:induction false} RemovedSpellingMeans(e: G.Tree, depth: nat, s: State, rest: seq<Token>)
    requires e.TWrap? && e.w != WrapSome && G.FitsAsAlternative(e, depth, G.HostOf(s), rest)
    requires s.tokens == [Removed(e.w)] + G.Text(e)[1..] + rest
    ensures Alternative(s, depth) == Parsed(Some(G.Meaning(e)), Emit(G.Rest(s, rest), ResultCtorRenamed))
  {
    assert |G.Text(e)| > 0;
    hide Wrapped, Alternative, G.FitsAsAlternative, G.Text, G.Meaning;
    var renamed := Emit(G.Rest(s, G.Text(e) + rest), ResultCtorRenamed);
    assert G.HostOf(renamed) == G.HostOf(s);
    G.CompleteWrap(e, depth, renamed, rest);
    RemovedIsWrapped(e.w, depth, s);
    assert Skip(renamed).tokens == G.Text(e)[1..] + rest == Skip(s).tokens;
  }

  lemma {:induction false} DotIsDropped(name: string, depth: nat, s: State)
    requires |s.tokens| >= 2 && s.tokens[0] == Dot && s.tokens[1] == Ident(name)
    ensures Alternative(s, depth) == Variant(Skip(Emit(Skip(s), CaseDotRemoved)), depth, name)
  {
    hide Variant, ByKind, Alternative;
    G.AlternativeCases(s, depth);
    ByKindCases(s, depth);
  }

  /** With the removed leading dot a variant is what it is without, and the dot is reported. */
  lemma {:induction false} LeadingDotMeans(e: G.Tree, depth: nat, s: State, rest: seq<Token>)
    requires e.TVariant? && G.FitsAsAlternative(e, depth, G.HostOf(s), rest) && s.tokens == [Dot] + G.Text(e) + rest
    ensures Alternative(s, depth) == Parsed(Some(G.Meaning(e)), Emit(G.Rest(s, rest), CaseDotRemoved))
  {
    assert |G.Text(e)| > 0 && G.Text(e)[0] == Ident(e.name);
    hide Variant, Alternative, G.FitsAsAlternative, G.Text, G.Meaning;
    var bare := Emit(G.Rest(s, G.Text(e) + rest), CaseDotRemoved);
    assert G.HostOf(bare) == G.HostOf(s);
    assert Emit(Skip(s), CaseDotRemoved) == bare;
    DotIsDropped(e.name, depth, s);
    G.CompleteVariant(e, depth, bare, rest);
  }

  /** A dotted name without a payload is a variant, where the bare name would be a binding. */
  lemma {:induction false} DottedNameIsUnit(name: string, depth: nat, s: State, rest: seq<Token>)
    requires s.tokens == [Dot, Ident(name)] + rest && (rest != [] ==> rest[0] != LParen)
    ensures Alternative(s, depth) == Parsed(Some(VariantUnit(name)), Emit(G.Rest(s, rest), CaseDotRemoved))
  {
    DotIsDropped(name, depth, s);
    var bare := Emit(Skip(s), CaseDotRemoved);
    assert bare.tokens == [Ident(name)] + rest && Skip(bare) == Emit(G.Rest(s, rest), CaseDotRemoved);
  }
}
