/**
  The pattern parser: recursive descent over tokens, with soft keywords, `or` alternatives,
  a nesting bound and recovery inside variant payloads.
*/
module PatternParser {
  import opened Wrappers

  const MAX_NESTING_DEPTH: nat := 128

  /** Tokens without trivia; a literal token carries its text, suffix included. */
  datatype Token =
    | Ident(text: string) | Literal(text: string)
    | KwNone | KwSome | KwTuple | KwOr
    | LParen | RParen | Comma | Colon | Dot | Minus
    | SuccessRemoved | ErrorRemoved | Other(text: string)

  /** A negated operand is known by its tokens. */
  datatype Value = Plain(token: Token) | Negated(operand: seq<Token>)

  datatype Pattern =
    | Wildcard
    | Lit(value: Value)
    | Binding(name: string)
    | VariantUnit(name: string)
    | VariantNamed(name: string, fields: seq<Field>)
    | SomeOf(inner: Pattern) | NoneOf | OkOf(inner: Pattern) | ErrOf(inner: Pattern)
    | Tuple(items: seq<Pattern>)
    | Or(alternatives: seq<Pattern>)

  datatype Field = Field(name: string, pattern: Pattern)

  datatype Diagnostic =
    | NestingTooDeep | UnexpectedToken(expected: Token) | ResultCtorRenamed | CaseDotRemoved
    | ExpectedIdentifier | ExpectedFieldName | ExpectedPattern | InOperand(code: string)

  /** What the expression parser makes of some tokens: whether it succeeds, how many it takes, what it reports. */
  datatype Operand = Operand(ok: bool, used: nat, emitted: seq<Diagnostic>, reported: bool)

  predicate Possible(ts: seq<Token>, reported: bool, o: Operand) {
    o.used <= |ts| && (o.ok ==> o.used > 0) && (o.emitted == [] ==> o.reported == reported)
  }

  /** The parser of primary expressions, at a nesting depth and told whether the bound was reported. */
  type Primary = f: (seq<Token>, nat, bool) -> Operand | forall ts, depth, reported :: Possible(ts, reported, f(ts, depth, reported))
    ghost witness (ts, depth, reported) => Operand(false, 0, [], reported)

  /** What is left of the input, and what was reported. */
  datatype State = State(tokens: seq<Token>, depthReported: bool, diagnostics: seq<Diagnostic>, primary: Primary)

  /** A parse may fail; either way it leaves a state that is no longer than the one it began in. */
  datatype Parsed<T> = Parsed(value: Option<T>, state: State)

  predicate At(s: State, t: Token) { s.tokens != [] && s.tokens[0] == t }

  function Skip(s: State): State
    requires s.tokens != []
  {
    s.(tokens := s.tokens[1..])
  }

  function Emit(s: State, d: Diagnostic): State { s.(diagnostics := s.diagnostics + [d]) }

  predicate Later(s: State, t: State) {
    |t.tokens| <= |s.tokens| && |s.diagnostics| <= |t.diagnostics|
  }

  function Eat(s: State, t: Token): State {
    if At(s, t) then Skip(s) else s
  }

  function Expect(s: State, t: Token): Parsed<()> {
    if At(s, t) then Parsed(Some(()), Skip(s)) else Parsed(None, Emit(s, UnexpectedToken(t)))
  }

  function Name(s: State): Parsed<string> {
    if s.tokens != [] && s.tokens[0].Ident? then Parsed(Some(s.tokens[0].text), Skip(s))
    else Parsed(None, Emit(s, ExpectedIdentifier))
  }

  // ---------------------------------------------------------------------------
  // The grammar as the code walks it
  // ---------------------------------------------------------------------------

  function Pat(s: State, depth: nat): (r: Parsed<Pattern>)
    ensures Later(s, r.state) && (r.value.Some? ==> |r.state.tokens| < |s.tokens|)
    decreases |s.tokens|, 2
  {
    if depth < MAX_NESTING_DEPTH then Alternatives(s, depth + 1)
    else if s.depthReported then Parsed(None, s)
    else Parsed(None, Emit(s, NestingTooDeep).(depthReported := true))
  }

  function Alternatives(s: State, depth: nat): (r: Parsed<Pattern>)
    ensures Later(s, r.state) && (r.value.Some? ==> |r.state.tokens| < |s.tokens|)
    decreases |s.tokens|, 1
  {
    var first := Alternative(s, depth);
    if first.value.None? || !At(first.state, KwOr) then first
    else
      MakeOr(Joined([first.value.value], OrElse(first.state, depth)))
  }

  function MakeOr(r: Parsed<seq<Pattern>>): Parsed<Pattern> {
    Parsed(if r.value.None? then None else Some(Or(r.value.value)), r.state)
  }

  /** Elements already parsed, in front of the rest of the list. */
  function Joined<T>(done: seq<T>, r: Parsed<seq<T>>): Parsed<seq<T>> {
    if r.value.None? then r else Parsed(Some(done + r.value.value), r.state)
  }

  lemma JoinedMore<T>(done: seq<T>, x: T, r: Parsed<seq<T>>)
    ensures Joined(done, More(x, r)) == Joined(done + [x], r)
  {
    if r.value.Some? { assert done + ([x] + r.value.value) == done + [x] + r.value.value; }
  }

  lemma JoinedEnds<T>(done: seq<T>, r: Parsed<seq<T>>)
    ensures Joined([], r) == r
    ensures r.value == Some([]) ==> Joined(done, r) == Parsed(Some(done), r.state)
  {
    if r.value.Some? { assert [] + r.value.value == r.value.value; }
    assert done + [] == done;
  }

  function OrElse(s: State, depth: nat): (r: Parsed<seq<Pattern>>)
    ensures Later(s, r.state)
    decreases |s.tokens|, 0
  {
    if !At(s, KwOr) then Parsed(Some([]), s)
    else
      var next := Alternative(Skip(s), depth);
      if next.value.None? then Parsed(None, next.state) else More(next.value.value, OrElse(next.state, depth))
  }

  /** One more element in front of a list that parsed. */
  function More<T>(x: T, r: Parsed<seq<T>>): Parsed<seq<T>> {
    if r.value.None? then r else Parsed(Some([x] + r.value.value), r.state)
  }

  datatype Wrapper = WrapSome | WrapOk | WrapErr

  function Wrap(w: Wrapper, inner: Pattern): Pattern {
    match w
    case WrapSome => SomeOf(inner)
    case WrapOk => OkOf(inner)
    case WrapErr => ErrOf(inner)
  }

  /** `ok` and `err` are ordinary names unless a parenthesis follows. */
  function Soft(s: State): Option<Wrapper> {
    if |s.tokens| < 2 || s.tokens[1] != LParen then None
    else if s.tokens[0] == Ident("ok") then Some(WrapOk)
    else if s.tokens[0] == Ident("err") then Some(WrapErr)
    else None
  }

  function Alternative(s: State, depth: nat): (r: Parsed<Pattern>)
    ensures Later(s, r.state) && (r.value.Some? ==> |r.state.tokens| < |s.tokens|)
    decreases |s.tokens|, 0
  {
    if s.tokens == [] then Parsed(None, s)
    else if s.tokens[0] == Ident("_") then Parsed(Some(Wildcard), Skip(s))
    else if Soft(s).Some? then Wrapped(Skip(s), depth, Soft(s).value)
    else ByKind(s, depth)
  }

  function ByKind(s: State, depth: nat): (r: Parsed<Pattern>)
    requires s.tokens != []
    ensures Later(s, r.state) && (r.value.Some? ==> |r.state.tokens| < |s.tokens|)
    decreases |s.tokens| - 1, 6
  {
    match s.tokens[0]
    case KwNone => Parsed(Some(NoneOf), Skip(s))
    case KwSome => Wrapped(Skip(s), depth, WrapSome)
    case SuccessRemoved => Wrapped(Emit(Skip(s), ResultCtorRenamed), depth, WrapOk)
    case ErrorRemoved => Wrapped(Emit(Skip(s), ResultCtorRenamed), depth, WrapErr)
    case KwTuple => TupleOf(Skip(s), depth)
    case Dot => AfterDot(Emit(Skip(s), CaseDotRemoved), depth)
    case Literal(_) => Parsed(Some(Lit(Plain(s.tokens[0]))), Skip(s))
    case Minus => AfterMinus(Skip(s), depth)
    case Ident(name) => AfterName(Skip(s), depth, name)
    case _ => Parsed(None, Emit(s, ExpectedPattern))
  }

  lemma ByKindCases(s: State, depth: nat)
    requires s.tokens != []
    ensures
      var t := s.tokens[0];
      && (t == KwNone ==> ByKind(s, depth) == Parsed(Some(NoneOf), Skip(s)))
      && (t == KwSome ==> ByKind(s, depth) == Wrapped(Skip(s), depth, WrapSome))
      && (t == SuccessRemoved ==> ByKind(s, depth) == Wrapped(Emit(Skip(s), ResultCtorRenamed), depth, WrapOk))
      && (t == ErrorRemoved ==> ByKind(s, depth) == Wrapped(Emit(Skip(s), ResultCtorRenamed), depth, WrapErr))
      && (t == KwTuple ==> ByKind(s, depth) == TupleOf(Skip(s), depth))
      && (t == Dot ==> ByKind(s, depth) == AfterDot(Emit(Skip(s), CaseDotRemoved), depth))
      && (t.Literal? ==> ByKind(s, depth) == Parsed(Some(Lit(Plain(t))), Skip(s)))
      && (t == Minus ==> ByKind(s, depth) == AfterMinus(Skip(s), depth))
      && (t.Ident? ==> ByKind(s, depth) == AfterName(Skip(s), depth, t.text))
      && (t.KwOr? || t.LParen? || t.RParen? || t.Comma? || t.Colon? || t.Other? ==> ByKind(s, depth) == Parsed(None, Emit(s, ExpectedPattern)))
  {
    hide Wrapped, TupleOf, AfterDot, AfterMinus, AfterName;
  }

  /** `(` pattern `)`. */
  function Wrapped(s: State, depth: nat, w: Wrapper): (r: Parsed<Pattern>)
    ensures Later(s, r.state)
    decreases |s.tokens|, 3
  {
    var open := Expect(s, LParen);
    if open.value.None? then Parsed(None, open.state)
    else
      var inner := Pat(open.state, depth);
      if inner.value.None? then Parsed(None, inner.state)
      else
        var close := Expect(inner.state, RParen);
        Parsed(if close.value.None? then None else Some(Wrap(w, inner.value.value)), close.state)
  }

  /** `(` patterns `)`, separated by commas. */
  function TupleOf(s: State, depth: nat): (r: Parsed<Pattern>)
    ensures Later(s, r.state)
    decreases |s.tokens|, 4
  {
    var open := Expect(s, LParen);
    if open.value.None? then Parsed(None, open.state)
    else
      var items := Items(open.state, depth);
      if items.value.None? then Parsed(None, items.state)
      else
        var close := Expect(items.state, RParen);
        Parsed(if close.value.None? then None else Some(Tuple(items.value.value)), close.state)
  }

  function Items(s: State, depth: nat): (r: Parsed<seq<Pattern>>)
    ensures Later(s, r.state)
    decreases |s.tokens|, 3
  {
    if s.tokens == [] || At(s, RParen) then Parsed(Some([]), s)
    else
      var item := Pat(s, depth);
      if item.value.None? then Parsed(None, item.state)
      else More(item.value.value, if At(item.state, Comma) then Items(Skip(item.state), depth) else Parsed(Some([]), item.state))
  }

  /** A name with a parenthesis after it is a variant, else a binding. */
  function AfterName(s: State, depth: nat, name: string): (r: Parsed<Pattern>)
    ensures Later(s, r.state)
    decreases |s.tokens|, 5
  {
    if At(s, LParen) then Variant(s, depth, name) else Parsed(Some(Binding(name)), s)
  }

  function AfterDot(s: State, depth: nat): (r: Parsed<Pattern>)
    ensures Later(s, r.state)
    decreases |s.tokens|, 5
  {
    var name := Name(s);
    if name.value.None? then Parsed(None, name.state) else Variant(name.state, depth, name.value.value)
  }

  /** A literal is one token; whatever else follows a minus sign is the expression parser's. */
  function ReadOperand(primary: Primary, ts: seq<Token>, depth: nat, reported: bool): (o: Operand)
    ensures Possible(ts, reported, o)
  {
    if ts != [] && ts[0].Literal? then Operand(true, 1, [], reported) else primary(ts, depth, reported)
  }

  function AfterMinus(s: State, depth: nat): (r: Parsed<Pattern>)
    ensures Later(s, r.state)
  {
    var o := ReadOperand(s.primary, s.tokens, depth, s.depthReported);
    Parsed(if o.ok then Some(Lit(Negated(s.tokens[..o.used]))) else None,
           s.(tokens := s.tokens[o.used..], diagnostics := s.diagnostics + o.emitted, depthReported := o.reported))
  }

  function Variant(s: State, depth: nat, name: string): (r: Parsed<Pattern>)
    ensures Later(s, r.state)
    decreases |s.tokens|, 4
  {
    if !At(s, LParen) then Parsed(Some(VariantUnit(name)), s)
    else
      var fields := Fields(Skip(s), depth);
      if fields.value.None? then Parsed(None, fields.state)
      else
        var close := Expect(fields.state, RParen);
        Parsed(if close.value.None? then None else Some(VariantNamed(name, fields.value.value)), close.state)
  }

  function Fields(s: State, depth: nat): (r: Parsed<seq<Field>>)
    ensures Later(s, r.state)
    decreases |s.tokens|, 3
  {
    if s.tokens == [] || At(s, RParen) then Parsed(Some([]), s)
    else if !s.tokens[0].Ident? then
      var t := Recover(Emit(s, ExpectedFieldName), 0);
      if At(t, Comma) then Fields(Skip(t), depth) else Parsed(Some([]), t)
    else
      var field := OneField(Skip(s), depth, s.tokens[0].text);
      if field.value.None? then Parsed(None, field.state)
      else More(field.value.value, if At(field.state, Comma) then Fields(Skip(field.state), depth) else Parsed(Some([]), field.state))
  }

  /** After a field's name: `: pattern`, or nothing, which binds the field's own name. */
  function OneField(s: State, depth: nat, name: string): (r: Parsed<Field>)
    ensures Later(s, r.state)
    decreases |s.tokens|, 3
  {
    if !At(s, Colon) then Parsed(Some(Field(name, Binding(name))), s)
    else
      var p := Pat(Skip(s), depth);
      Parsed(if p.value.None? then None else Some(Field(name, p.value.value)), p.state)
  }

  /** Skips to the comma or closing parenthesis at this level. */
  function Recover(s: State, parens: nat): (t: State)
    ensures Later(s, t)
    decreases |s.tokens|
  {
    if s.tokens == [] || (parens == 0 && (s.tokens[0] == RParen || s.tokens[0] == Comma)) then s
    else Recover(Skip(s), match s.tokens[0] case LParen => parens + 1 case RParen => parens - 1 case _ => parens)
  }

  // ---------------------------------------------------------------------------
  // The parser object
  // ---------------------------------------------------------------------------

  class Parser {
    const tokens: seq<Token>
    const primary: Primary
    var pos: nat
    var depth: nat
    var depthReported: bool
    var diagnostics: seq<Diagnostic>

    constructor (tokens: seq<Token>, primary: Primary)
      ensures this.tokens == tokens && this.primary == primary && pos == 0 && depth == 0 && !depthReported && diagnostics == []
    {
      this.tokens, this.primary, pos, depth, depthReported, diagnostics := tokens, primary, 0, 0, false, [];
    }

    ghost predicate Valid() reads this { pos <= |tokens| }

    ghost function Now(): State
      requires Valid()
      reads this
    {
      State(tokens[pos..], depthReported, diagnostics, primary)
    }

    predicate AtToken(t: Token)
      requires Valid()
      reads this
      ensures AtToken(t) == At(Now(), t)
    {
      pos < |tokens| && tokens[pos] == t
    }

    method Advance()
      requires Valid() && pos < |tokens|
      modifies this`pos
      ensures Valid() && Now() == Skip(old(Now()))
    {
      pos := pos + 1;
    }

    method EatToken(t: Token) returns (eaten: bool)
      requires Valid()
      modifies this`pos
      ensures Valid() && eaten == At(old(Now()), t) && Now() == Eat(old(Now()), t)
    {
      eaten := AtToken(t);
      if eaten { Advance(); }
    }

    method Error(d: Diagnostic)
      requires Valid()
      modifies this`diagnostics
      ensures Valid() && Now() == Emit(old(Now()), d)
    {
      diagnostics := diagnostics + [d];
    }

    method ExpectToken(t: Token) returns (r: Option<()>)
      requires Valid()
      modifies this`pos, this`diagnostics
      ensures Valid() && Parsed(r, Now()) == Expect(old(Now()), t)
    {
      if AtToken(t) { Advance(); return Some(()); }
      Error(UnexpectedToken(t));
      return None;
    }

    method ParseName() returns (r: Option<string>)
      requires Valid()
      modifies this`pos, this`diagnostics
      ensures Valid() && Parsed(r, Now()) == Name(old(Now()))
    {
      if pos < |tokens| && tokens[pos].Ident? {
        r := Some(tokens[pos].text);
        Advance();
      } else {
        Error(ExpectedIdentifier);
        r := None;
      }
    }

    method EnterNesting() returns (entered: bool)
      requires Valid()
      modifies this`depth, this`depthReported, this`diagnostics
      ensures Valid() && entered == (old(depth) < MAX_NESTING_DEPTH)
      ensures entered ==> depth == old(depth) + 1 && Now() == old(Now())
      ensures !entered ==> depth == old(depth) && Parsed(None, Now()) == Pat(old(Now()), depth)
    {
      if depth >= MAX_NESTING_DEPTH {
        if !depthReported {
          depthReported := true;
          Error(NestingTooDeep);
        }
        return false;
      }
      depth := depth + 1;
      return true;
    }

    method ParsePattern() returns (r: Option<Pattern>)
      requires Valid()
      modifies this
      ensures Valid() && depth == old(depth) && Parsed(r, Now()) == Pat(old(Now()), depth)
      decreases |tokens| - pos, 2
    {
      var entered := EnterNesting();
      if !entered { return None; }
      r := ParsePatternInner();
      depth := depth - 1;
    }

    method ParsePatternInner() returns (r: Option<Pattern>)
      requires Valid()
      modifies this
      ensures Valid() && depth == old(depth) && Parsed(r, Now()) == Alternatives(old(Now()), depth)
      decreases |tokens| - pos, 1
    {
      hide Alternative;
      var first := ParsePatternAlternative();
      if first.None? || !AtToken(KwOr) { return first; }
      ghost var start := Now();
      var alternatives := [first.value];
      assert Alternatives(old(Now()), depth) == MakeOr(Joined([first.value], OrElse(start, depth)));
      while AtToken(KwOr)
        invariant Valid() && depth == old(depth) && |Now().tokens| < |old(Now()).tokens|
        invariant Later(old(Now()), Now()) && Joined([first.value], OrElse(start, depth)) == Joined(alternatives, OrElse(Now(), depth))
        decreases |Now().tokens|
      {
        Advance();
        var next := ParsePatternAlternative();
        if next.None? { return None; }
        JoinedMore(alternatives, next.value, OrElse(Now(), depth));
        alternatives := alternatives + [next.value];
      }
      JoinedEnds(alternatives, OrElse(Now(), depth));
      return Some(Or(alternatives));
    }

    method ParsePatternAlternative() returns (r: Option<Pattern>)
      requires Valid()
      modifies this
      ensures Valid() && depth == old(depth) && Parsed(r, Now()) == Alternative(old(Now()), depth)
      decreases |tokens| - pos, 0
    {
      hide Wrapped, ByKind;
      if pos == |tokens| { return None; }
      var token := tokens[pos];
      if token == Ident("_") { Advance(); return Some(Wildcard); }
      if (token == Ident("ok") || token == Ident("err")) && pos + 1 < |tokens| && tokens[pos + 1] == LParen {
        Advance();
        r := ParseWrapped(if token == Ident("ok") then WrapOk else WrapErr);
        return;
      }
      r := ParseByKind();
    }

    method ParseByKind() returns (r: Option<Pattern>)
      requires Valid() && pos < |tokens|
      modifies this
      ensures Valid() && depth == old(depth) && Parsed(r, Now()) == ByKind(old(Now()), depth)
      decreases |tokens| - pos - 1, 6
    {
      hide ByKind, Wrapped, TupleOf, AfterDot, AfterMinus, AfterName;
      ByKindCases(Now(), depth);
      var token := tokens[pos];
      match token
      case KwNone => Advance(); r := Some(NoneOf);
      case KwSome => Advance(); r := ParseWrapped(WrapSome);
      case SuccessRemoved => Advance(); Error(ResultCtorRenamed); r := ParseWrapped(WrapOk);
      case ErrorRemoved => Advance(); Error(ResultCtorRenamed); r := ParseWrapped(WrapErr);
      case KwTuple => Advance(); r := ParseTuple();
      case Dot =>
        Advance();
        Error(CaseDotRemoved);
        r := ParseAfterDot();
      case Literal(_) => Advance(); r := Some(Lit(Plain(token)));
      case Minus =>
        Advance();
        r := ParseAfterMinus();
      case Ident(name) =>
        Advance();
        r := ParseAfterName(name);
      case _ => Error(ExpectedPattern); r := None;
    }

    method ParseAfterName(name: string) returns (r: Option<Pattern>)
      requires Valid()
      modifies this
      ensures Valid() && depth == old(depth) && Parsed(r, Now()) == AfterName(old(Now()), depth, name)
      decreases |tokens| - pos, 5
    {
      hide Variant;
      if AtToken(LParen) { r := ParseVariantPattern(name); } else { r := Some(Binding(name)); }
    }

    method ParseAfterDot() returns (r: Option<Pattern>)
      requires Valid()
      modifies this
      ensures Valid() && depth == old(depth) && Parsed(r, Now()) == AfterDot(old(Now()), depth)
      decreases |tokens| - pos, 5
    {
      hide Variant;
      var name := ParseName();
      if name.None? { return None; }
      r := ParseVariantPattern(name.value);
    }

    method ParseAfterMinus() returns (r: Option<Pattern>)
      requires Valid()
      modifies this`pos, this`diagnostics, this`depthReported
      ensures Valid() && Parsed(r, Now()) == AfterMinus(old(Now()), depth)
    {
      var o := ReadOperand(primary, tokens[pos..], depth, depthReported);
      r := if o.ok then Some(Lit(Negated(tokens[pos..][..o.used]))) else None;
      pos := pos + o.used;
      diagnostics := diagnostics + o.emitted;
      depthReported := o.reported;
    }

    method ParseWrapped(w: Wrapper) returns (r: Option<Pattern>)
      requires Valid()
      modifies this
      ensures Valid() && depth == old(depth) && Parsed(r, Now()) == Wrapped(old(Now()), depth, w)
      decreases |tokens| - pos, 3
    {
      hide Pat;
      var open := ExpectToken(LParen);
      if open.None? { return None; }
      assert |Now().tokens| < |old(Now()).tokens|;
      var inner := ParsePattern();
      if inner.None? { return None; }
      var close := ExpectToken(RParen);
      if close.None? { return None; }
      return Some(Wrap(w, inner.value));
    }

    method ParseTuple() returns (r: Option<Pattern>)
      requires Valid()
      modifies this
      ensures Valid() && depth == old(depth) && Parsed(r, Now()) == TupleOf(old(Now()), depth)
      decreases |tokens| - pos, 4
    {
      hide Pat;
      var open := ExpectToken(LParen);
      if open.None? { return None; }
      ghost var start := Now();
      var pats: seq<Pattern> := [];
      JoinedEnds(pats, Items(start, depth));
      while pos < |tokens| && !AtToken(RParen)
        invariant Valid() && depth == old(depth) && |Now().tokens| < |old(Now()).tokens|
        invariant Later(start, Now()) && Items(start, depth) == Joined(pats, Items(Now(), depth))
        decreases |Now().tokens|
      {
        ghost var before := Now();
        var item := ParsePattern();
        if item.None? { return None; }
        ghost var rest := if At(Now(), Comma) then Items(Skip(Now()), depth) else Parsed(Some([]), Now());
        JoinedMore(pats, item.value, rest);
        pats := pats + [item.value];
        var comma := EatToken(Comma);
        if !comma {
          JoinedEnds(pats, Parsed(Some([]), Now()));
          assert Items(start, depth) == Parsed(Some(pats), Now());
          break;
        }
      }
      JoinedEnds(pats, Items(Now(), depth));
      assert Items(start, depth) == Parsed(Some(pats), Now());
      var close := ExpectToken(RParen);
      if close.None? { return None; }
      return Some(Tuple(pats));
    }

    method ParseVariantPattern(name: string) returns (r: Option<Pattern>)
      requires Valid()
      modifies this
      ensures Valid() && depth == old(depth) && Parsed(r, Now()) == Variant(old(Now()), depth, name)
      decreases |tokens| - pos, 4
    {
      hide Fields;
      if !AtToken(LParen) { return Some(VariantUnit(name)); }
      Advance();
      var fields := ParseFields();
      if fields.None? { return None; }
      var close := ExpectToken(RParen);
      if close.None? { return None; }
      return Some(VariantNamed(name, fields.value));
    }

    method ParseFields() returns (r: Option<seq<Field>>)
      requires Valid()
      modifies this
      ensures Valid() && depth == old(depth) && Parsed(r, Now()) == Fields(old(Now()), depth)
      decreases |tokens| - pos, 4
    {
      hide Pat, OneField, Recover, Alternatives;
      ghost var start := Now();
      var fields: seq<Field> := [];
      JoinedEnds(fields, Fields(start, depth));
      while pos < |tokens| && !AtToken(RParen)
        invariant Valid() && depth == old(depth) && old(pos) <= pos
        invariant Later(start, Now()) && Fields(start, depth) == Joined(fields, Fields(Now(), depth))
        decreases |Now().tokens|
      {
        if !tokens[pos].Ident? {
          Error(ExpectedFieldName);
          RecoverVariantPatternField();
        } else {
          var field := ParseField();
          if field.None? { return None; }
          ghost var rest := if At(Now(), Comma) then Fields(Skip(Now()), depth) else Parsed(Some([]), Now());
          JoinedMore(fields, field.value, rest);
          fields := fields + [field.value];
        }
        var comma := EatToken(Comma);
        if !comma {
          JoinedEnds(fields, Parsed(Some([]), Now()));
          return Some(fields);
        }
      }
      JoinedEnds(fields, Fields(Now(), depth));
      return Some(fields);
    }

    method ParseField() returns (r: Option<Field>)
      requires Valid() && pos < |tokens| && tokens[pos].Ident?
      modifies this
      ensures Valid() && depth == old(depth) && Parsed(r, Now()) == OneField(Skip(old(Now())), depth, old(tokens[pos].text))
      decreases |tokens| - pos, 3
    {
      hide Pat;
      var name := ParseName();
      var colon := EatToken(Colon);
      if !colon { return Some(Field(name.value, Binding(name.value))); }
      var pattern := ParsePattern();
      if pattern.None? { return None; }
      return Some(Field(name.value, pattern.value));
    }

    method RecoverVariantPatternField()
      requires Valid()
      modifies this`pos
      ensures Valid() && Now() == Recover(old(Now()), 0)
    {
      var parens: nat := 0;
      while pos < |tokens|
        invariant Valid() && Recover(old(Now()), 0) == Recover(Now(), parens)
        decreases |tokens| - pos
      {
        var token := tokens[pos];
        if parens == 0 && (token == RParen || token == Comma) { break; }
        match token {
          case LParen => parens := parens + 1;
          case RParen => parens := parens - 1;
          case _ =>
        }
        Advance();
      }
    }
  }
}
