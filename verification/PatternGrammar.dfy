/**
  The grammar of patterns as concrete trees, and the proof that the parser accepts, without
  a diagnostic, exactly the texts of these trees.
*/
module PatternGrammar {
  import opened Wrappers
  import opened PatternParser

  /** A pattern as written: with optional trailing commas and short or long fields. */
  datatype Tree =
    | TWild | TNone | TLit(token: Token) | TNegated(operand: seq<Token>) | TName(name: string)
    | TWrap(w: Wrapper, inner: Tree)
    | TTuple(items: seq<Tree>, trailing: bool)
    | TVariant(name: string, fields: seq<TField>, trailing: bool)
    | TOr(alternatives: seq<Tree>)

  datatype TField = Short(name: string) | Long(name: string, pattern: Tree)

  // ---------------------------------------------------------------------------
  // Text and meaning
  // ---------------------------------------------------------------------------

  function Keyword(w: Wrapper): Token {
    match w
    case WrapSome => KwSome
    case WrapOk => Ident("ok")
    case WrapErr => Ident("err")
  }

  function Text(e: Tree): (ts: seq<Token>) {
    match e
    case TWild => [Ident("_")]
    case TNone => [KwNone]
    case TLit(t) => [t]
    case TNegated(operand) => [Minus] + operand
    case TName(name) => [Ident(name)]
    case TWrap(w, inner) => [Keyword(w), LParen] + Text(inner) + [RParen]
    case TTuple(items, trailing) => [KwTuple, LParen] + ItemsText(items, trailing) + [RParen]
    case TVariant(name, fields, trailing) => [Ident(name), LParen] + FieldsText(fields, trailing) + [RParen]
    case TOr(alternatives) => if alternatives == [] then [] else Text(alternatives[0]) + OrText(alternatives[1..])
  }

  function ItemsText(items: seq<Tree>, trailing: bool): seq<Token>
    decreases items, 1
  {
    if items == [] then [] else Text(items[0]) + MoreItems(items, trailing)
  }

  /** What follows the first item. */
  function MoreItems(items: seq<Tree>, trailing: bool): seq<Token>
    requires items != []
    decreases items, 0
  {
    if |items| > 1 || trailing then [Comma] + ItemsText(items[1..], trailing) else []
  }

  function FieldsText(fields: seq<TField>, trailing: bool): seq<Token>
    decreases fields, 1
  {
    if fields == [] then [] else FieldText(fields[0]) + MoreFields(fields, trailing)
  }

  function MoreFields(fields: seq<TField>, trailing: bool): seq<Token>
    requires fields != []
    decreases fields, 0
  {
    if |fields| > 1 || trailing then [Comma] + FieldsText(fields[1..], trailing) else []
  }

  function FieldText(f: TField): seq<Token> {
    match f
    case Short(name) => [Ident(name)]
    case Long(name, pattern) => [Ident(name), Colon] + Text(pattern)
  }

  function OrText(alternatives: seq<Tree>): seq<Token> {
    if alternatives == [] then [] else [KwOr] + Text(alternatives[0]) + OrText(alternatives[1..])
  }

  function Meaning(e: Tree): Pattern {
    match e
    case TWild => Wildcard
    case TNone => NoneOf
    case TLit(t) => Lit(Plain(t))
    case TNegated(operand) => Lit(Negated(operand))
    case TName(name) => Binding(name)
    case TWrap(w, inner) => Wrap(w, Meaning(inner))
    case TTuple(items, _) => Tuple(Meanings(items))
    case TVariant(name, fields, _) => VariantNamed(name, FieldMeanings(fields))
    case TOr(alternatives) => Or(Meanings(alternatives))
  }

  function Meanings(es: seq<Tree>): (ps: seq<Pattern>)
    ensures |ps| == |es|
  {
    if es == [] then [] else [Meaning(es[0])] + Meanings(es[1..])
  }

  function FieldMeanings(fs: seq<TField>): seq<Field> {
    if fs == [] then [] else [FieldMeaning(fs[0])] + FieldMeanings(fs[1..])
  }

  function FieldMeaning(f: TField): Field {
    match f
    case Short(name) => Field(name, Binding(name))
    case Long(name, pattern) => Field(name, Meaning(pattern))
  }

  /** How operands are read: the expression parser, and whether the nesting bound was reported. */
  datatype Host = Host(primary: Primary, reported: bool)

  function HostOf(s: State): Host { Host(s.primary, s.depthReported) }

  /** Before `rest` the expression parser takes just these tokens and reports nothing. */
  predicate IsOperand(operand: seq<Token>, depth: nat, h: Host, rest: seq<Token>) {
    var o := ReadOperand(h.primary, operand + rest, depth, h.reported);
    o.ok && o.emitted == [] && o.used == |operand|
  }

  /** A whole pattern entered at nesting `depth`, with `rest` after it. */
  predicate Fits(e: Tree, depth: nat, h: Host, rest: seq<Token>)
    decreases e, 1
  {
    && depth < MAX_NESTING_DEPTH
    && if e.TOr? then |e.alternatives| >= 2 && FitAsAlternatives(e.alternatives, depth + 1, h, rest)
       else FitsAsAlternative(e, depth + 1, h, rest)
  }

  predicate FitsAsAlternative(e: Tree, depth: nat, h: Host, rest: seq<Token>)
    decreases e, 0
  {
    match e
    case TWild => true
    case TNone => true
    case TLit(t) => t.Literal?
    case TNegated(operand) => IsOperand(operand, depth, h, rest)
    case TName(name) => name != "_"
    case TWrap(_, inner) => Fits(inner, depth, h, [RParen] + rest)
    case TTuple(items, trailing) => AllFit(items, trailing, depth, h, [RParen] + rest)
    case TVariant(name, fields, trailing) => name != "_" && name != "ok" && name != "err" && FieldsFit(fields, trailing, depth, h, [RParen] + rest)
    case TOr(_) => false
  }

  predicate FitAsAlternatives(es: seq<Tree>, depth: nat, h: Host, rest: seq<Token>)
    decreases es
  {
    es == [] || (FitsAsAlternative(es[0], depth, h, OrText(es[1..]) + rest) && FitAsAlternatives(es[1..], depth, h, rest))
  }

  predicate AllFit(es: seq<Tree>, trailing: bool, depth: nat, h: Host, rest: seq<Token>)
    decreases es
  {
    es == [] || (Fits(es[0], depth, h, MoreItems(es, trailing) + rest) && AllFit(es[1..], trailing, depth, h, rest))
  }

  predicate FieldsFit(fs: seq<TField>, trailing: bool, depth: nat, h: Host, rest: seq<Token>)
    decreases fs
  {
    fs == [] || (FieldFits(fs[0], depth, h, MoreFields(fs, trailing) + rest) && FieldsFit(fs[1..], trailing, depth, h, rest))
  }

  predicate FieldFits(f: TField, depth: nat, h: Host, rest: seq<Token>)
    decreases f
  {
    match f
    case Short(_) => true
    case Long(_, pattern) => Fits(pattern, depth, h, rest)
  }

  /** A bare name must not be followed by a parenthesis, */
  predicate StopsName(e: Tree, rest: seq<Token>) {
    e.TName? && rest != [] ==> rest[0] != LParen
  }

  /** and a whole pattern not by another `or`. */
  predicate Stops(e: Tree, rest: seq<Token>) {
    && (rest != [] ==> rest[0] != KwOr)
    && StopsName(if e.TOr? && e.alternatives != [] then e.alternatives[|e.alternatives| - 1] else e, rest)
  }

  // ---------------------------------------------------------------------------
  // Every tree's text parses to its meaning
  // ---------------------------------------------------------------------------

  lemma {:induction false} TextNonEmpty(e: Tree, depth: nat, h: Host, rest: seq<Token>)
    requires Fits(e, depth, h, rest) || FitsAsAlternative(e, depth, h, rest)
    ensures Text(e) != [] && Text(e)[0] != RParen && Text(e)[0] != KwOr
  {
    if e.TOr? {
      var after := OrText(e.alternatives[1..]) + rest;
      assert FitAsAlternatives(e.alternatives, depth + 1, h, rest);
      assert FitsAsAlternative(e.alternatives[0], depth + 1, h, after);
      TextNonEmpty(e.alternatives[0], depth + 1, h, after);
    }
  }

  function Rest(s: State, rest: seq<Token>): State { s.(tokens := rest) }

  lemma {:induction false} Complete(e: Tree, depth: nat, s: State, rest: seq<Token>)
    requires Fits(e, depth, HostOf(s), rest) && s.tokens == Text(e) + rest && Stops(e, rest)
    ensures Pat(s, depth) == Parsed(Some(Meaning(e)), Rest(s, rest))
    decreases e, 1
  {
    hide Alternative;
    if e.TOr? {
      var first, others := e.alternatives[0], e.alternatives[1..];
      assert s.tokens == Text(first) + (OrText(others) + rest);
      CompleteAlternative(first, depth + 1, s, OrText(others) + rest);
      CompleteOr(others, depth + 1, Rest(s, OrText(others) + rest), rest);
    } else {
      CompleteAlternative(e, depth + 1, s, rest);
    }
  }

  lemma {:induction false} CompleteOr(es: seq<Tree>, depth: nat, s: State, rest: seq<Token>)
    requires FitAsAlternatives(es, depth, HostOf(s), rest) && s.tokens == OrText(es) + rest
    requires (rest != [] ==> rest[0] != KwOr) && (es != [] ==> StopsName(es[|es| - 1], rest))
    ensures OrElse(s, depth) == Parsed(Some(Meanings(es)), Rest(s, rest))
    decreases es
  {
    hide Alternative;
    if es != [] {
      var more := OrText(es[1..]) + rest;
      assert s.tokens == [KwOr] + (Text(es[0]) + more);
      CompleteAlternative(es[0], depth, Skip(s), more);
      CompleteOr(es[1..], depth, Rest(s, more), rest);
    }
  }

  lemma {:induction false} CompleteAlternative(e: Tree, depth: nat, s: State, rest: seq<Token>)
    requires FitsAsAlternative(e, depth, HostOf(s), rest) && s.tokens == Text(e) + rest && StopsName(e, rest)
    ensures Alternative(s, depth) == Parsed(Some(Meaning(e)), Rest(s, rest))
    decreases e, 0
  {
    hide Wrapped, TupleOf, Variant, AfterMinus, ByKind, Alternative;
    assert Text(e) != [] && s.tokens[0] == Text(e)[0];
    AlternativeCases(s, depth);
    ByKindCases(s, depth);
    match e
    case TWrap(_, _) => CompleteWrap(e, depth, s, rest);
    case TTuple(_, _) => CompleteTuple(e, depth, s, rest);
    case TVariant(name, _, _) =>
      CompleteVariant(e, depth, s, rest);
      assert AfterName(Skip(s), depth, name) == Variant(Skip(s), depth, name);
    case TName(name) => assert AfterName(Skip(s), depth, name) == Parsed(Some(Binding(name)), Skip(s));
    case TNegated(_) => CompleteNegated(e, depth, s, rest);
    case _ =>
  }

  lemma AlternativeCases(s: State, depth: nat)
    requires s.tokens != []
    ensures Alternative(s, depth) ==
      if s.tokens[0] == Ident("_") then Parsed(Some(Wildcard), Skip(s))
      else if Soft(s).Some? then Wrapped(Skip(s), depth, Soft(s).value)
      else ByKind(s, depth)
  {
    hide Wrapped, ByKind;
  }

  lemma CompleteNegated(e: Tree, depth: nat, s: State, rest: seq<Token>)
    requires e.TNegated? && IsOperand(e.operand, depth, HostOf(s), rest) && s.tokens == Text(e) + rest
    ensures s.tokens[0] == Minus && AfterMinus(Skip(s), depth) == Parsed(Some(Meaning(e)), Rest(s, rest))
  {
    assert Skip(s).tokens == e.operand + rest;
    assert (e.operand + rest)[..|e.operand|] == e.operand && (e.operand + rest)[|e.operand|..] == rest;
    assert s.diagnostics + [] == s.diagnostics;
  }

  lemma {:induction false} CompleteWrap(e: Tree, depth: nat, s: State, rest: seq<Token>)
    requires e.TWrap? && FitsAsAlternative(e, depth, HostOf(s), rest) && s.tokens == Text(e) + rest
    ensures s.tokens[0] == Keyword(e.w) && s.tokens[1] == LParen
    ensures Wrapped(Skip(s), depth, e.w) == Parsed(Some(Meaning(e)), Rest(s, rest))
    decreases e, 0, 0
  {
    hide Pat;
    var inner := Text(e.inner) + ([RParen] + rest);
    assert s.tokens == [Keyword(e.w), LParen] + inner;
    assert Skip(Skip(s)) == Rest(s, inner) && Skip(Rest(s, [RParen] + rest)) == Rest(s, rest);
    Complete(e.inner, depth, Rest(s, inner), [RParen] + rest);
  }

  lemma {:induction false} CompleteTuple(e: Tree, depth: nat, s: State, rest: seq<Token>)
    requires e.TTuple? && FitsAsAlternative(e, depth, HostOf(s), rest) && s.tokens == Text(e) + rest
    ensures s.tokens[0] == KwTuple && TupleOf(Skip(s), depth) == Parsed(Some(Meaning(e)), Rest(s, rest))
    decreases e, 0, 0
  {
    hide Items;
    var inner := ItemsText(e.items, e.trailing) + ([RParen] + rest);
    assert s.tokens == [KwTuple, LParen] + inner;
    assert Skip(Skip(s)) == Rest(s, inner) && Skip(Rest(s, [RParen] + rest)) == Rest(s, rest);
    CompleteItems(e.items, e.trailing, depth, Rest(s, inner), [RParen] + rest);
  }

  lemma {:induction false} CompleteVariant(e: Tree, depth: nat, s: State, rest: seq<Token>)
    requires e.TVariant? && FitsAsAlternative(e, depth, HostOf(s), rest) && s.tokens == Text(e) + rest
    ensures s.tokens[0] == Ident(e.name) && At(Skip(s), LParen)
    ensures Variant(Skip(s), depth, e.name) == Parsed(Some(Meaning(e)), Rest(s, rest))
    decreases e, 0, 0
  {
    hide Fields;
    var inner := FieldsText(e.fields, e.trailing) + ([RParen] + rest);
    assert s.tokens == [Ident(e.name), LParen] + inner;
    assert Skip(Skip(s)) == Rest(s, inner) && Skip(Rest(s, [RParen] + rest)) == Rest(s, rest);
    CompleteFields(e.fields, e.trailing, depth, Rest(s, inner), [RParen] + rest);
  }

  /** The text of a list is that of its first item and what follows it. */
  lemma SplitItems(items: seq<Tree>, trailing: bool, rest: seq<Token>)
    requires items != []
    ensures ItemsText(items, trailing) + rest == Text(items[0]) + (MoreItems(items, trailing) + rest)
    ensures MoreItems(items, trailing) + rest == if |items| > 1 || trailing then [Comma] + (ItemsText(items[1..], trailing) + rest) else rest
  {
    hide Text;
  }

  lemma StopsInside(e: Tree, t: seq<Token>)
    requires t != [] && (t[0] == Comma || t[0] == RParen)
    ensures Stops(e, t)
  {
  }

  lemma {:induction false} CompleteItems(items: seq<Tree>, trailing: bool, depth: nat, s: State, rest: seq<Token>)
    requires AllFit(items, trailing, depth, HostOf(s), rest) && s.tokens == ItemsText(items, trailing) + rest && rest != [] && rest[0] == RParen
    ensures Items(s, depth) == Parsed(Some(Meanings(items)), Rest(s, rest))
    decreases items
  {
    hide Pat, Text, Stops, Fits, Meaning;
    if items != [] {
      var t := MoreItems(items, trailing) + rest;
      TextNonEmpty(items[0], depth, HostOf(s), t);
      SplitItems(items, trailing, rest);
      StopsInside(items[0], t);
      Complete(items[0], depth, s, t);
      if |items| > 1 || trailing {
        CompleteItems(items[1..], trailing, depth, Rest(s, ItemsText(items[1..], trailing) + rest), rest);
      } else {
        assert items[1..] == [];
      }
    }
  }

  lemma {:induction false} CompleteField(f: TField, depth: nat, s: State, rest: seq<Token>)
    requires FieldFits(f, depth, HostOf(s), rest) && s.tokens == FieldText(f) + rest && rest != [] && (rest[0] == RParen || rest[0] == Comma)
    ensures OneField(Skip(s), depth, f.name) == Parsed(Some(FieldMeaning(f)), Rest(s, rest)) && s.tokens[0] == Ident(f.name)
    decreases f
  {
    hide Pat;
    if f.Long? {
      assert s.tokens == [Ident(f.name), Colon] + (Text(f.pattern) + rest);
      Complete(f.pattern, depth, Rest(s, Text(f.pattern) + rest), rest);
      assert Skip(Skip(s)) == Rest(s, Text(f.pattern) + rest);
    }
  }

  lemma SplitFields(fields: seq<TField>, trailing: bool, rest: seq<Token>)
    requires fields != []
    ensures FieldsText(fields, trailing) + rest == FieldText(fields[0]) + (MoreFields(fields, trailing) + rest)
    ensures MoreFields(fields, trailing) + rest == if |fields| > 1 || trailing then [Comma] + (FieldsText(fields[1..], trailing) + rest) else rest
  {
    hide FieldText;
  }

  lemma {:induction false} CompleteFields(fields: seq<TField>, trailing: bool, depth: nat, s: State, rest: seq<Token>)
    requires FieldsFit(fields, trailing, depth, HostOf(s), rest) && s.tokens == FieldsText(fields, trailing) + rest && rest != [] && rest[0] == RParen
    ensures Fields(s, depth) == Parsed(Some(FieldMeanings(fields)), Rest(s, rest))
    decreases fields
  {
    hide OneField, FieldText, FieldFits, FieldMeaning;
    if fields != [] {
      SplitFields(fields, trailing, rest);
      CompleteField(fields[0], depth, s, MoreFields(fields, trailing) + rest);
      if |fields| > 1 || trailing {
        CompleteFields(fields[1..], trailing, depth, Rest(s, FieldsText(fields[1..], trailing) + rest), rest);
      } else {
        assert fields[1..] == [];
      }
    }
  }

  // ---------------------------------------------------------------------------
  // Whatever parses cleanly is some tree's text
  // ---------------------------------------------------------------------------

  /** The parse succeeded and reported nothing. */
  predicate Clean<T>(s: State, r: Parsed<T>) {
    r.value.Some? && |r.state.diagnostics| == |s.diagnostics|
  }

  lemma {:induction false} Sound(s: State, depth: nat) returns (e: Tree)
    requires Clean(s, Pat(s, depth))
    ensures
      var r := Pat(s, depth);
      Fits(e, depth, HostOf(s), r.state.tokens) && HostOf(r.state) == HostOf(s)
      && s.tokens == Text(e) + r.state.tokens && Meaning(e) == r.value.value && Stops(e, r.state.tokens)
    decreases |s.tokens|, 2
  {
    hide Alternative, OrElse, Text, Fits, Meaning, FitsAsAlternative;
    var first := Alternative(s, depth + 1);
    e := SoundAlternative(s, depth + 1);
    if At(first.state, KwOr) {
      var others := SoundOr(first.state, depth + 1);
      OrElseStarts(first.state, depth + 1, others);
      TreeOfAlternatives(e, others, depth, HostOf(s), first.state.tokens, OrElse(first.state, depth + 1).state.tokens);
      e := TOr([e] + others);
    } else {
      TreeOfOne(e, depth, HostOf(s), first.state.tokens);
    }
  }

  lemma TreeOfAlternatives(e: Tree, others: seq<Tree>, depth: nat, h: Host, t: seq<Token>, rest: seq<Token>)
    requires others != [] && depth < MAX_NESTING_DEPTH && t == OrText(others) + rest
    requires FitsAsAlternative(e, depth + 1, h, t) && FitAsAlternatives(others, depth + 1, h, rest)
    ensures
      var all := TOr([e] + others);
      && Fits(all, depth, h, rest) && Text(e) + t == Text(all) + rest && Meaning(all) == Or([Meaning(e)] + Meanings(others))
      && all.alternatives[|all.alternatives| - 1] == others[|others| - 1]
  {
    hide FitsAsAlternative;
    var all := [e] + others;
    assert all[0] == e && all[1..] == others && all[|others|] == others[|others| - 1];
    assert Text(TOr(all)) == Text(e) + OrText(others);
  }

  lemma TreeOfOne(e: Tree, depth: nat, h: Host, rest: seq<Token>)
    requires depth < MAX_NESTING_DEPTH && FitsAsAlternative(e, depth + 1, h, rest)
    ensures Fits(e, depth, h, rest) && !e.TOr?
  {
  }

  lemma OrElseStarts(s: State, depth: nat, es: seq<Tree>)
    requires At(s, KwOr) && Clean(s, OrElse(s, depth)) && s.tokens == OrText(es) + OrElse(s, depth).state.tokens
    requires |Meanings(es)| == |OrElse(s, depth).value.value|
    ensures es != []
  {
    assert |OrElse(s, depth).value.value| > 0;
  }

  lemma OrTextNil(rest: seq<Token>)
    ensures rest == OrText([]) + rest
  {
  }

  lemma OrTextCons(e: Tree, others: seq<Tree>, rest: seq<Token>)
    ensures [KwOr] + (Text(e) + (OrText(others) + rest)) == OrText([e] + others) + rest
    ensures others == [] ==> OrText(others) + rest == rest
  {
    assert ([e] + others)[1..] == others;
  }

  lemma ItemsTextCons(e: Tree, others: seq<Tree>, trailing: bool, rest: seq<Token>)
    ensures Text(e) + ([Comma] + (ItemsText(others, trailing) + rest)) == ItemsText([e] + others, others == [] || trailing) + rest
    ensures MoreItems([e] + others, others == [] || trailing) + rest == [Comma] + (ItemsText(others, trailing) + rest)
  {
    hide Text;
    assert ([e] + others)[1..] == others;
    assert MoreItems([e] + others, others == [] || trailing) == [Comma] + ItemsText(others, trailing);
  }

  lemma FieldsTextCons(f: TField, others: seq<TField>, trailing: bool, rest: seq<Token>)
    ensures FieldText(f) + ([Comma] + (FieldsText(others, trailing) + rest)) == FieldsText([f] + others, others == [] || trailing) + rest
    ensures MoreFields([f] + others, others == [] || trailing) + rest == [Comma] + (FieldsText(others, trailing) + rest)
  {
    hide Text, FieldText;
    assert ([f] + others)[1..] == others;
    assert MoreFields([f] + others, others == [] || trailing) == [Comma] + FieldsText(others, trailing);
  }

  lemma {:induction false} SoundOr(s: State, depth: nat) returns (es: seq<Tree>)
    requires Clean(s, OrElse(s, depth))
    ensures
      var r := OrElse(s, depth);
      && FitAsAlternatives(es, depth, HostOf(s), r.state.tokens) && HostOf(r.state) == HostOf(s) && s.tokens == OrText(es) + r.state.tokens && Meanings(es) == r.value.value
      && (r.state.tokens != [] ==> r.state.tokens[0] != KwOr) && (es != [] ==> StopsName(es[|es| - 1], r.state.tokens))
    decreases |s.tokens|, 0
  {
    hide Alternative, Text, OrText, FitsAsAlternative, StopsName;
    if !At(s, KwOr) {
      es := [];
      OrTextNil(s.tokens);
    } else {
      var t := Alternative(Skip(s), depth).state;
      var e := SoundAlternative(Skip(s), depth);
      var others := SoundOr(t, depth);
      es := [e] + others;
      assert es[1..] == others;
      assert s.tokens == [KwOr] + Skip(s).tokens;
      OrTextCons(e, others, OrElse(t, depth).state.tokens);
    }
  }

  lemma {:induction false} SoundAlternative(s: State, depth: nat) returns (e: Tree)
    requires Clean(s, Alternative(s, depth))
    ensures
      var r := Alternative(s, depth);
      FitsAsAlternative(e, depth, HostOf(s), r.state.tokens) && HostOf(r.state) == HostOf(s)
      && s.tokens == Text(e) + r.state.tokens && Meaning(e) == r.value.value && StopsName(e, r.state.tokens)
    decreases |s.tokens|, 0
  {
    hide ByKind, Wrapped;
    if s.tokens[0] == Ident("_") {
      e := TWild;
    } else if Soft(s).Some? {
      e := SoundWrap(s, Skip(s), depth, Soft(s).value);
    } else {
      e := SoundByKind(s, depth);
    }
  }

  lemma {:induction false} SoundByKind(s: State, depth: nat) returns (e: Tree)
    requires s.tokens != [] && s.tokens[0] != Ident("_") && Soft(s).None? && Clean(s, ByKind(s, depth))
    ensures
      var r := ByKind(s, depth);
      FitsAsAlternative(e, depth, HostOf(s), r.state.tokens) && HostOf(r.state) == HostOf(s)
      && s.tokens == Text(e) + r.state.tokens && Meaning(e) == r.value.value && StopsName(e, r.state.tokens)
    decreases |s.tokens|, 0, 1
  {
    hide Wrapped, TupleOf, Variant, AfterDot, AfterMinus, ByKind, Text, Fits, Meaning, FitsAsAlternative;
    ByKindCases(s, depth);
    match s.tokens[0]
    case KwNone => e := SoundLeaf(s, depth);
    case KwSome => e := SoundWrap(s, Skip(s), depth, WrapSome);
    case KwTuple => e := SoundTuple(s, depth);
    case Literal(_) => e := SoundLeaf(s, depth);
    case Minus => e := SoundNegated(s, depth);
    case Ident(name) => if At(Skip(s), LParen) { e := SoundVariant(s, depth); } else { e := SoundLeaf(s, depth); }
    case _ => e := TNone;
  }

  lemma SoundLeaf(s: State, depth: nat) returns (e: Tree)
    requires s.tokens != [] && s.tokens[0] != Ident("_")
    requires s.tokens[0].KwNone? || s.tokens[0].Literal? || (s.tokens[0].Ident? && !At(Skip(s), LParen))
    ensures
      var r := ByKind(s, depth);
      FitsAsAlternative(e, depth, HostOf(s), r.state.tokens) && HostOf(r.state) == HostOf(s)
      && r.value.Some? && s.tokens == Text(e) + r.state.tokens && Meaning(e) == r.value.value && StopsName(e, r.state.tokens)
  {
    hide ByKind, Variant;
    ByKindCases(s, depth);
    if s.tokens[0].KwNone? { e := TNone; }
    else if s.tokens[0].Literal? { e := TLit(s.tokens[0]); }
    else { e := TName(s.tokens[0].text); }
    assert s.tokens == [s.tokens[0]] + Skip(s).tokens;
  }

  lemma SoundNegated(s: State, depth: nat) returns (e: Tree)
    requires s.tokens != [] && s.tokens[0] == Minus && Clean(s, AfterMinus(Skip(s), depth))
    ensures
      var r := AfterMinus(Skip(s), depth);
      e.TNegated? && FitsAsAlternative(e, depth, HostOf(s), r.state.tokens) && HostOf(r.state) == HostOf(s)
      && s.tokens == Text(e) + r.state.tokens && Meaning(e) == r.value.value
  {
    var o := ReadOperand(s.primary, Skip(s).tokens, depth, s.depthReported);
    e := TNegated(Skip(s).tokens[..o.used]);
    assert Skip(s).tokens == Skip(s).tokens[..o.used] + Skip(s).tokens[o.used..];
    assert s.tokens == [Minus] + Skip(s).tokens;
  }

  lemma {:induction false} SoundWrap(s: State, t: State, depth: nat, w: Wrapper) returns (e: Tree)
    requires s.tokens != [] && s.tokens[0] == Keyword(w) && t == Skip(s) && Clean(t, Wrapped(t, depth, w))
    ensures
      var r := Wrapped(t, depth, w);
      e.TWrap? && FitsAsAlternative(e, depth, HostOf(s), r.state.tokens) && HostOf(r.state) == HostOf(s)
      && s.tokens == Text(e) + r.state.tokens && Meaning(e) == r.value.value
    decreases |s.tokens|, 0, 0
  {
    hide Pat, Stops;
    var inner := Sound(Skip(t), depth);
    e := TWrap(w, inner);
    var close := Pat(Skip(t), depth).state;
    assert s.tokens == [Keyword(w), LParen] + Skip(t).tokens;
    assert close.tokens == [RParen] + Skip(close).tokens;
    assert s.tokens == [Keyword(w), LParen] + Text(inner) + [RParen] + Skip(close).tokens;
  }

  lemma {:induction false} SoundTuple(s: State, depth: nat) returns (e: Tree)
    requires s.tokens != [] && s.tokens[0] == KwTuple && Clean(s, TupleOf(Skip(s), depth))
    ensures
      var r := TupleOf(Skip(s), depth);
      e.TTuple? && FitsAsAlternative(e, depth, HostOf(s), r.state.tokens) && HostOf(r.state) == HostOf(s)
      && s.tokens == Text(e) + r.state.tokens && Meaning(e) == r.value.value
    decreases |s.tokens|, 0, 0
  {
    hide Items, AllFit, ItemsText, Meanings;
    var t := Skip(Skip(s));
    var items, trailing := SoundItems(t, depth);
    e := TTuple(items, trailing);
    var close := Items(t, depth).state;
    assert s.tokens == [KwTuple, LParen] + t.tokens && close.tokens == [RParen] + Skip(close).tokens;
  }

  lemma ConsItems(item: Tree, others: seq<Tree>, trailing: bool, depth: nat, h: Host, t: seq<Token>, rest: seq<Token>)
    requires t == [Comma] + (ItemsText(others, trailing) + rest)
    requires Fits(item, depth, h, t) && AllFit(others, trailing, depth, h, rest)
    ensures
      var all, more := [item] + others, others == [] || trailing;
      AllFit(all, more, depth, h, rest) && Text(item) + t == ItemsText(all, more) + rest && Meanings(all) == [Meaning(item)] + Meanings(others)
  {
    hide Fits, Text;
    ItemsTextCons(item, others, trailing, rest);
    assert ([item] + others)[1..] == others;
  }

  lemma LastItem(item: Tree, depth: nat, h: Host, rest: seq<Token>)
    requires Fits(item, depth, h, rest)
    ensures AllFit([item], false, depth, h, rest) && Text(item) + rest == ItemsText([item], false) + rest && Meanings([item]) == [Meaning(item)]
  {
    hide Fits, Text;
    assert MoreItems([item], false) + rest == rest;
  }

  lemma {:induction false} SoundItems(s: State, depth: nat) returns (items: seq<Tree>, trailing: bool)
    requires Clean(s, Items(s, depth))
    ensures
      var r := Items(s, depth);
      AllFit(items, trailing, depth, HostOf(s), r.state.tokens) && HostOf(r.state) == HostOf(s)
      && s.tokens == ItemsText(items, trailing) + r.state.tokens && Meanings(items) == r.value.value
    decreases |s.tokens|, 3
  {
    hide Pat, Fits, Text, Stops, MoreItems;
    if s.tokens == [] || At(s, RParen) {
      items, trailing := [], false;
    } else {
      hide AllFit, ItemsText, Meanings;
      var item := Sound(s, depth);
      var t := Pat(s, depth).state;
      if At(t, Comma) {
        var others;
        others, trailing := SoundItems(Skip(t), depth);
        assert t.tokens == [Comma] + Skip(t).tokens;
        ConsItems(item, others, trailing, depth, HostOf(s), t.tokens, Items(Skip(t), depth).state.tokens);
        items, trailing := [item] + others, others == [] || trailing;
      } else {
        items, trailing := [item], false;
        LastItem(item, depth, HostOf(s), t.tokens);
      }
    }
  }

  lemma {:induction false} SoundVariant(s: State, depth: nat) returns (e: Tree)
    requires |s.tokens| > 1 && s.tokens[0].Ident? && s.tokens[0] != Ident("_") && s.tokens[1] == LParen && Soft(s).None?
    requires Clean(s, Variant(Skip(s), depth, s.tokens[0].text))
    ensures
      var r := Variant(Skip(s), depth, s.tokens[0].text);
      e.TVariant? && FitsAsAlternative(e, depth, HostOf(s), r.state.tokens) && HostOf(r.state) == HostOf(s)
      && s.tokens == Text(e) + r.state.tokens && Meaning(e) == r.value.value
    decreases |s.tokens|, 0, 0
  {
    hide Fields, FieldsFit, FieldsText, FieldMeanings;
    var t := Skip(Skip(s));
    var fields, trailing := SoundFields(t, depth);
    e := TVariant(s.tokens[0].text, fields, trailing);
    var close := Fields(t, depth).state;
    assert s.tokens == [s.tokens[0], LParen] + t.tokens && close.tokens == [RParen] + Skip(close).tokens;
  }

  lemma {:induction false} SoundField(s: State, depth: nat) returns (f: TField)
    requires s.tokens != [] && s.tokens[0].Ident? && Clean(s, OneField(Skip(s), depth, s.tokens[0].text))
    ensures
      var r := OneField(Skip(s), depth, s.tokens[0].text);
      FieldFits(f, depth, HostOf(s), r.state.tokens) && HostOf(r.state) == HostOf(s)
      && s.tokens == FieldText(f) + r.state.tokens && FieldMeaning(f) == r.value.value
    decreases |s.tokens|, 2
  {
    hide Pat;
    var name := s.tokens[0].text;
    if At(Skip(s), Colon) {
      var pattern := Sound(Skip(Skip(s)), depth);
      f := Long(name, pattern);
      assert s.tokens == [Ident(name), Colon] + Skip(Skip(s)).tokens;
    } else {
      f := Short(name);
      assert s.tokens == [Ident(name)] + Skip(s).tokens;
    }
  }

  lemma ConsFields(f: TField, others: seq<TField>, trailing: bool, depth: nat, h: Host, t: seq<Token>, rest: seq<Token>)
    requires t == [Comma] + (FieldsText(others, trailing) + rest)
    requires FieldFits(f, depth, h, t) && FieldsFit(others, trailing, depth, h, rest)
    ensures
      var all, more := [f] + others, others == [] || trailing;
      FieldsFit(all, more, depth, h, rest) && FieldText(f) + t == FieldsText(all, more) + rest && FieldMeanings(all) == [FieldMeaning(f)] + FieldMeanings(others)
  {
    hide FieldFits, FieldText;
    FieldsTextCons(f, others, trailing, rest);
    assert ([f] + others)[1..] == others;
  }

  lemma LastField(f: TField, depth: nat, h: Host, rest: seq<Token>)
    requires FieldFits(f, depth, h, rest)
    ensures FieldsFit([f], false, depth, h, rest) && FieldText(f) + rest == FieldsText([f], false) + rest && FieldMeanings([f]) == [FieldMeaning(f)]
  {
    hide FieldFits, FieldText;
    assert MoreFields([f], false) + rest == rest;
  }

  lemma {:induction false} SoundFields(s: State, depth: nat) returns (fields: seq<TField>, trailing: bool)
    requires Clean(s, Fields(s, depth))
    ensures
      var r := Fields(s, depth);
      FieldsFit(fields, trailing, depth, HostOf(s), r.state.tokens) && HostOf(r.state) == HostOf(s)
      && s.tokens == FieldsText(fields, trailing) + r.state.tokens && FieldMeanings(fields) == r.value.value
    decreases |s.tokens|, 3
  {
    hide OneField, Recover, FieldFits, FieldText, MoreFields;
    if s.tokens == [] || At(s, RParen) {
      fields, trailing := [], false;
    } else {
      hide FieldsFit, FieldsText, FieldMeanings;
      var field := SoundField(s, depth);
      var t := OneField(Skip(s), depth, s.tokens[0].text).state;
      if At(t, Comma) {
        var others;
        others, trailing := SoundFields(Skip(t), depth);
        assert t.tokens == [Comma] + Skip(t).tokens;
        ConsFields(field, others, trailing, depth, HostOf(s), t.tokens, Fields(Skip(t), depth).state.tokens);
        fields, trailing := [field] + others, others == [] || trailing;
      } else {
        fields, trailing := [field], false;
        LastField(field, depth, HostOf(s), t.tokens);
      }
    }
  }

  ghost predicate Reads(e: Tree, s: State, depth: nat, p: Pattern, rest: seq<Token>) {
    Fits(e, depth, HostOf(s), rest) && s.tokens == Text(e) + rest && Meaning(e) == p && Stops(e, rest)
  }

  /** The parser returns `p` without a diagnostic exactly when a tree with that meaning stands there. */
  lemma ParserIsExact(s: State, depth: nat, p: Pattern, rest: seq<Token>)
    ensures (Clean(s, Pat(s, depth)) && Pat(s, depth).value == Some(p) && Pat(s, depth).state.tokens == rest)
       <==> exists e :: Reads(e, s, depth, p, rest)
  {
    if Clean(s, Pat(s, depth)) {
      var e := Sound(s, depth);
      assert Reads(e, s, depth, Pat(s, depth).value.value, Pat(s, depth).state.tokens);
    }
    if e :| Reads(e, s, depth, p, rest) {
      Complete(e, depth, s, rest);
    }
  }

  // ---------------------------------------------------------------------------
  // A printer the parser undoes
  // ---------------------------------------------------------------------------

  function Print(p: Pattern): Tree {
    match p
    case Wildcard => TWild
    case NoneOf => TNone
    case Lit(Plain(t)) => TLit(t)
    case Lit(Negated(operand)) => TNegated(operand)
    case Binding(name) => TName(name)
    case VariantUnit(name) => TVariant(name, [], false)
    case VariantNamed(name, fields) => TVariant(name, PrintFields(fields), false)
    case SomeOf(inner) => TWrap(WrapSome, Print(inner))
    case OkOf(inner) => TWrap(WrapOk, Print(inner))
    case ErrOf(inner) => TWrap(WrapErr, Print(inner))
    case Tuple(items) => TTuple(PrintAll(items), false)
    case Or(alternatives) => TOr(PrintAll(alternatives))
  }

  function PrintAll(ps: seq<Pattern>): (es: seq<Tree>)
    ensures |es| == |ps|
  {
    if ps == [] then [] else [Print(ps[0])] + PrintAll(ps[1..])
  }

  function PrintFields(fs: seq<Field>): seq<TField> {
    if fs == [] then [] else [PrintField(fs[0])] + PrintFields(fs[1..])
  }

  function PrintField(f: Field): TField {
    if f.pattern == Binding(f.name) then Short(f.name) else Long(f.name, Print(f.pattern))
  }

  /** No unit variant, no `or` directly inside an `or`, no misused soft keyword, and within the nesting bound. */
  predicate Canonical(p: Pattern, depth: nat)
    decreases p, 1
  {
    && depth < MAX_NESTING_DEPTH
    && if p.Or? then |p.alternatives| >= 2 && CanonicalAlternatives(p.alternatives, depth + 1) else CanonicalAlternative(p, depth + 1)
  }

  predicate CanonicalAlternative(p: Pattern, depth: nat)
    decreases p, 0
  {
    match p
    case Wildcard => true
    case NoneOf => true
    case Lit(Plain(t)) => t.Literal?
    case Lit(Negated(operand)) => |operand| == 1 && operand[0].Literal?
    case Binding(name) => name != "_"
    case VariantUnit(_) => false
    case VariantNamed(name, fields) => name != "_" && name != "ok" && name != "err" && CanonicalFields(fields, depth)
    case SomeOf(inner) => Canonical(inner, depth)
    case OkOf(inner) => Canonical(inner, depth)
    case ErrOf(inner) => Canonical(inner, depth)
    case Tuple(items) => AllCanonical(items, depth)
    case Or(_) => false
  }

  predicate CanonicalAlternatives(ps: seq<Pattern>, depth: nat)
    decreases ps
  {
    ps == [] || (CanonicalAlternative(ps[0], depth) && CanonicalAlternatives(ps[1..], depth))
  }

  predicate AllCanonical(ps: seq<Pattern>, depth: nat)
    decreases ps
  {
    ps == [] || (Canonical(ps[0], depth) && AllCanonical(ps[1..], depth))
  }

  predicate CanonicalFields(fs: seq<Field>, depth: nat)
    decreases fs
  {
    fs == [] || (CanonicalField(fs[0], depth) && CanonicalFields(fs[1..], depth))
  }

  predicate CanonicalField(f: Field, depth: nat)
    decreases f
  {
    f.pattern == Binding(f.name) || Canonical(f.pattern, depth)
  }

  lemma {:induction false} PrintMeans(p: Pattern, depth: nat, h: Host, rest: seq<Token>)
    requires Canonical(p, depth) || CanonicalAlternative(p, depth)
    ensures Canonical(p, depth) ==> Fits(Print(p), depth, h, rest)
    ensures CanonicalAlternative(p, depth) ==> FitsAsAlternative(Print(p), depth, h, rest)
    ensures Meaning(Print(p)) == p
    decreases p, 1
  {
    if Canonical(p, depth) {
      if p.Or? { PrintAlternativesMeans(p.alternatives, depth + 1, h, rest); } else { PrintMeansHere(p, depth + 1, h, rest); }
    }
    if CanonicalAlternative(p, depth) { PrintMeansHere(p, depth, h, rest); }
  }

  lemma {:induction false} PrintMeansHere(p: Pattern, depth: nat, h: Host, rest: seq<Token>)
    requires CanonicalAlternative(p, depth)
    ensures FitsAsAlternative(Print(p), depth, h, rest) && Meaning(Print(p)) == p
    decreases p, 0
  {
    match p
    case SomeOf(inner) => PrintMeans(inner, depth, h, [RParen] + rest);
    case OkOf(inner) => PrintMeans(inner, depth, h, [RParen] + rest);
    case ErrOf(inner) => PrintMeans(inner, depth, h, [RParen] + rest);
    case Tuple(items) => PrintAllMeans(items, depth, h, [RParen] + rest);
    case VariantNamed(_, fields) => PrintFieldsMeans(fields, depth, h, [RParen] + rest);
    case _ =>
  }

  lemma {:induction false} PrintAlternativesMeans(ps: seq<Pattern>, depth: nat, h: Host, rest: seq<Token>)
    requires CanonicalAlternatives(ps, depth)
    ensures FitAsAlternatives(PrintAll(ps), depth, h, rest) && Meanings(PrintAll(ps)) == ps
    decreases ps
  {
    if ps != [] {
      PrintMeansHere(ps[0], depth, h, OrText(PrintAll(ps)[1..]) + rest);
      PrintAlternativesMeans(ps[1..], depth, h, rest);
    }
  }

  lemma {:induction false} PrintAllMeans(ps: seq<Pattern>, depth: nat, h: Host, rest: seq<Token>)
    requires AllCanonical(ps, depth)
    ensures AllFit(PrintAll(ps), false, depth, h, rest) && Meanings(PrintAll(ps)) == ps
    decreases ps
  {
    if ps != [] {
      PrintMeans(ps[0], depth, h, MoreItems(PrintAll(ps), false) + rest);
      PrintAllMeans(ps[1..], depth, h, rest);
    }
  }

  lemma {:induction false} PrintFieldsMeans(fs: seq<Field>, depth: nat, h: Host, rest: seq<Token>)
    requires CanonicalFields(fs, depth)
    ensures FieldsFit(PrintFields(fs), false, depth, h, rest) && FieldMeanings(PrintFields(fs)) == fs
    decreases fs
  {
    if fs != [] {
      PrintFieldMeans(fs[0], depth, h, MoreFields(PrintFields(fs), false) + rest);
      PrintFieldsMeans(fs[1..], depth, h, rest);
    }
  }

  lemma {:induction false} PrintFieldMeans(f: Field, depth: nat, h: Host, rest: seq<Token>)
    requires CanonicalField(f, depth)
    ensures FieldFits(PrintField(f), depth, h, rest) && FieldMeaning(PrintField(f)) == f
    decreases f
  {
    if f.pattern != Binding(f.name) { PrintMeans(f.pattern, depth, h, rest); }
  }

  /**
    Printed canonical patterns, before any token but `or` and `(`, parse back to themselves:
    just their own tokens are consumed and nothing is reported.
  */
  lemma PrintedPatternParses(p: Pattern, depth: nat, s: State, rest: seq<Token>)
    requires Canonical(p, depth) && s.tokens == Text(Print(p)) + rest
    requires rest != [] ==> rest[0] != KwOr && rest[0] != LParen
    ensures Pat(s, depth) == Parsed(Some(p), s.(tokens := rest))
  {
    PrintMeans(p, depth, HostOf(s), rest);
    Complete(Print(p), depth, s, rest);
  }
}
