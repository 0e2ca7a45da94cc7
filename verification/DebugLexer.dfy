/** The tokenizer of debugger expressions, and evaluation from text. */
module DebugLexer {
  import opened Wrappers
  import opened DebugValues
  import opened DebugParser
  import opened DebugGrammar

  const MAX_LENGTH: nat := 512

  predicate Space(c: char) { c == ' ' || c == '\t' || c == '\n' || c as int == 12 || c == '\r' }
  predicate DigitChar(c: char) { '0' <= c <= '9' }
  predicate Alpha(c: char) { 'a' <= c <= 'z' || 'A' <= c <= 'Z' }
  predicate NameChar(c: char) { Alpha(c) || DigitChar(c) || c == '_' || c == '.' || c == '[' || c == ']' }

  /** Length of the leading run of digits with at most one point (none if `dot`). */
  function NumberSpan(s: string, dot: bool): (n: nat)
    ensures n <= |s|
  {
    if s == "" then 0
    else if DigitChar(s[0]) then 1 + NumberSpan(s[1..], dot)
    else if s[0] == '.' && !dot then 1 + NumberSpan(s[1..], true)
    else 0
  }

  function NameSpan(s: string): (n: nat)
    ensures n <= |s|
  {
    if s == "" || !NameChar(s[0]) then 0 else 1 + NameSpan(s[1..])
  }

  /** Length up to and including the closing quote, or of everything when there is none. */
  function StringSpan(s: string, escaped: bool): (n: nat)
    ensures n <= |s|
  {
    if s == "" then 0
    else if escaped then 1 + StringSpan(s[1..], false)
    else if s[0] == '\\' then 1 + StringSpan(s[1..], true)
    else if s[0] == '"' then 1
    else 1 + StringSpan(s[1..], false)
  }

  predicate TwoCharOperator(s: string) {
    |s| >= 2 && s[1] == '=' && (s[0] == '=' || s[0] == '!' || s[0] == '<' || s[0] == '>')
  }

  predicate OneCharOperator(c: char) {
    c == '+' || c == '-' || c == '*' || c == '/' || c == '%' || c == '<' || c == '>'
  }

  predicate Word(s: string) { s == "and" || s == "or" || s == "not" }

  /** One turn of the tokenizer: the token, if any, and the characters consumed. */
  datatype Lexeme = Lexeme(token: Option<Token>, length: nat)

  function Next<F>(h: Host<F>, s: string): (r: Result<Lexeme, EvalError>)
    requires s != ""
    ensures r.Ok? ==> 1 <= r.value.length <= |s| && r.value.token != Some(End)
  {
    if Space(s[0]) then Ok(Lexeme(None, 1))
    else if s[0] == '(' then Ok(Lexeme(Some(LeftParen), 1))
    else if s[0] == ')' then Ok(Lexeme(Some(RightParen), 1))
    else if s[0] == '"' then
      var n := 1 + StringSpan(s[1..], false);
      if s[n - 1] != '"' then Err(UnterminatedString)
      else if h.decode(s[..n]).None? then Err(InvalidString)
      else Ok(Lexeme(Some(Str(h.decode(s[..n]).value)), n))
    else if DigitChar(s[0]) || (s[0] == '.' && |s| > 1 && DigitChar(s[1])) then
      Ok(Lexeme(Some(Number(s[..NumberSpan(s, false)])), NumberSpan(s, false)))
    else if Alpha(s[0]) || s[0] == '_' then
      var name := s[..NameSpan(s)];
      Ok(Lexeme(Some(if Word(name) then Operator(name) else Identifier(name)), NameSpan(s)))
    else if TwoCharOperator(s) then Ok(Lexeme(Some(Operator(s[..2])), 2))
    else if OneCharOperator(s[0]) then Ok(Lexeme(Some(Operator([s[0]])), 1))
    else Err(UnsupportedCharacter(s[0]))
  }

  function Push(t: Option<Token>, r: Result<seq<Token>, EvalError>): Result<seq<Token>, EvalError> {
    if r.Err? || t.None? then r else Ok([t.value] + r.value)
  }

  function Lex<F>(h: Host<F>, s: string): Result<seq<Token>, EvalError> {
    if s == "" then Ok([End])
    else
      var l := Next(h, s);
      if l.Err? then Err(l.error) else Push(l.value.token, Lex(h, s[l.value.length..]))
  }

  function Behind(ts: seq<Token>, r: Result<seq<Token>, EvalError>): Result<seq<Token>, EvalError> {
    if r.Err? then r else Ok(ts + r.value)
  }

  /** The inner loop over a quoted literal. */
  method StringEnd(s: string, start: nat) returns (cursor: nat)
    requires start < |s|
    ensures cursor == start + 1 + StringSpan(s[start + 1..], false)
  {
    cursor := start + 1;
    var escaped := false;
    while cursor < |s|
      invariant start < cursor <= |s|
      invariant cursor + StringSpan(s[cursor..], escaped) == start + 1 + StringSpan(s[start + 1..], false)
      decreases |s| - cursor
    {
      var current := s[cursor];
      assert s[cursor..][1..] == s[cursor + 1..];
      cursor := cursor + 1;
      if escaped {
        escaped := false;
      } else if current == '\\' {
        escaped := true;
      } else if current == '"' {
        break;
      }
    }
  }

  method NumberEnd(s: string, start: nat) returns (cursor: nat)
    requires start <= |s|
    ensures cursor == start + NumberSpan(s[start..], false)
  {
    cursor := start;
    var hasDot := false;
    while cursor < |s| && (DigitChar(s[cursor]) || (s[cursor] == '.' && !hasDot))
      invariant start <= cursor <= |s|
      invariant cursor + NumberSpan(s[cursor..], hasDot) == start + NumberSpan(s[start..], false)
    {
      assert s[cursor..][1..] == s[cursor + 1..];
      if !DigitChar(s[cursor]) {
        hasDot := true;
      }
      cursor := cursor + 1;
    }
  }

  method NameEnd(s: string, start: nat) returns (cursor: nat)
    requires start < |s| && NameChar(s[start])
    ensures cursor == start + NameSpan(s[start..])
  {
    cursor := start + 1;
    assert s[start..][1..] == s[start + 1..];
    while cursor < |s| && NameChar(s[cursor])
      invariant start <= cursor <= |s|
      invariant cursor + NameSpan(s[cursor..]) == start + NameSpan(s[start..])
    {
      assert s[cursor..][1..] == s[cursor + 1..];
      cursor := cursor + 1;
    }
  }

  /** One turn of the tokenizer's loop, at `cursor`. */
  method NextToken<F>(h: Host<F>, s: string, cursor: nat) returns (r: Result<Lexeme, EvalError>)
    requires cursor < |s|
    ensures r == Next(h, s[cursor..])
  {
    ghost var rest := s[cursor..];
    var c := s[cursor];
    if Space(c) {
      return Ok(Lexeme(None, 1));
    }
    if c == '(' {
      return Ok(Lexeme(Some(LeftParen), 1));
    }
    if c == ')' {
      return Ok(Lexeme(Some(RightParen), 1));
    }
    if c == '"' {
      var end := StringEnd(s, cursor);
      assert rest[1..] == s[cursor + 1..];
      var literal := s[cursor..end];
      assert literal == rest[..end - cursor];
      if literal[|literal| - 1] != '"' {
        return Err(UnterminatedString);
      }
      var value := h.decode(literal);
      return if value.None? then Err(InvalidString) else Ok(Lexeme(Some(Str(value.value)), end - cursor));
    }
    if DigitChar(c) || (c == '.' && cursor + 1 < |s| && DigitChar(s[cursor + 1])) {
      var end := NumberEnd(s, cursor);
      assert s[cursor..end] == rest[..end - cursor];
      return Ok(Lexeme(Some(Number(s[cursor..end])), end - cursor));
    }
    if Alpha(c) || c == '_' {
      var end := NameEnd(s, cursor);
      var identifier := s[cursor..end];
      assert identifier == rest[..end - cursor];
      return Ok(Lexeme(Some(if Word(identifier) then Operator(identifier) else Identifier(identifier)), end - cursor));
    }
    if cursor + 1 < |s| && TwoCharOperator(s[cursor..cursor + 2]) {
      assert s[cursor..cursor + 2] == rest[..2];
      return Ok(Lexeme(Some(Operator(s[cursor..cursor + 2])), 2));
    }
    return if OneCharOperator(c) then Ok(Lexeme(Some(Operator([c])), 1)) else Err(UnsupportedCharacter(c));
  }

  method TokenizeDebugExpression<F>(h: Host<F>, expression: string) returns (r: Result<seq<Token>, EvalError>)
    ensures r == Lex(h, expression)
  {
    hide Next;
    var tokens: seq<Token> := [];
    var cursor := 0;
    assert expression[0..] == expression;
    BehindNothing(Lex(h, expression));
    while cursor < |expression|
      invariant cursor <= |expression|
      invariant Lex(h, expression) == Behind(tokens, Lex(h, expression[cursor..]))
    {
      var l := NextToken(h, expression, cursor);
      if l.Err? {
        return Err(l.error);
      }
      assert expression[cursor..][l.value.length..] == expression[cursor + l.value.length..];
      cursor := cursor + l.value.length;
      BehindPush(tokens, l.value.token, Lex(h, expression[cursor..]));
      if l.value.token.Some? {
        tokens := tokens + [l.value.token.value];
      }
    }
    assert expression[cursor..] == "";
    r := Ok(tokens + [End]);
  }

  lemma BehindNothing(r: Result<seq<Token>, EvalError>)
    ensures Behind([], r) == r
  {
    if r.Ok? { assert [] + r.value == r.value; }
  }

  lemma BehindPush(ts: seq<Token>, t: Option<Token>, r: Result<seq<Token>, EvalError>)
    ensures Behind(ts, Push(t, r)) == Behind(if t.Some? then ts + [t.value] else ts, r)
  {
    if r.Ok? && t.Some? { assert ts + ([t.value] + r.value) == ts + [t.value] + r.value; }
  }

  function EvaluateText<F>(h: Host<F>, s: string): Result<Value<F>, EvalError> {
    if |s| > MAX_LENGTH then Err(TooLong)
    else
      var ts := Lex(h, s);
      if ts.Err? then Err(ts.error) else EvaluateTokens(h, ts.value)
  }

  method EvaluateDebugExpression<F>(h: Host<F>, expression: string) returns (r: Result<Value<F>, EvalError>)
    ensures r == EvaluateText(h, expression)
  {
    if |expression| > MAX_LENGTH {
      return Err(TooLong);
    }
    var ts := TokenizeDebugExpression(h, expression);
    if ts.Err? {
      return Err(ts.error);
    }
    r := EvaluateDebugTokens(h, ts.value);
  }

  // ---------------------------------------------------------------------------
  // The tokenizer undoes printing
  // ---------------------------------------------------------------------------

  /** `s` is the rest of a literal after its opening quote, closed by its last character. */
  predicate ClosesAtEnd(s: string, escaped: bool) {
    s != "" &&
    if escaped then ClosesAtEnd(s[1..], false)
    else if s[0] == '\\' then ClosesAtEnd(s[1..], true)
    else if s[0] == '"' then |s| == 1
    else ClosesAtEnd(s[1..], false)
  }

  /** `encode` writes string literals the host's decoder reads back. */
  ghost predicate Encodes<F>(h: Host<F>, encode: string -> string) {
    forall s :: |encode(s)| >= 2 && encode(s)[0] == '"' && ClosesAtEnd(encode(s)[1..], false) && h.decode(encode(s)) == Some(s)
  }

  predicate Printable(t: Token) {
    match t
    case Identifier(name) => name != "" && (Alpha(name[0]) || name[0] == '_') && NameSpan(name) == |name| && !Word(name)
    case Number(text) =>
      text != "" && (DigitChar(text[0]) || (text[0] == '.' && |text| > 1 && DigitChar(text[1]))) && NumberSpan(text, false) == |text|
    case Str(_) => true
    case Operator(op) => Level(op) > 0 || op == "not"
    case LeftParen => true
    case RightParen => true
    case End => false
  }

  function TokenText(encode: string -> string, t: Token): string {
    match t
    case Identifier(name) => name
    case Number(text) => text
    case Str(s) => encode(s)
    case Operator(op) => op
    case LeftParen => "("
    case RightParen => ")"
    case End => ""
  }

  function RenderTokens(encode: string -> string, ts: seq<Token>): string {
    if ts == [] then "" else TokenText(encode, ts[0]) + " " + RenderTokens(encode, ts[1..])
  }

  lemma {:induction false} NumberSpanStops(text: string, dot: bool, rest: string)
    requires NumberSpan(text, dot) == |text|
    ensures NumberSpan(text + (" " + rest), dot) == |text|
  {
    if text != "" {
      assert (text + (" " + rest))[1..] == text[1..] + (" " + rest);
      NumberSpanStops(text[1..], dot || text[0] == '.', rest);
    }
  }

  lemma {:induction false} NameSpanStops(name: string, rest: string)
    requires NameSpan(name) == |name|
    ensures NameSpan(name + (" " + rest)) == |name|
  {
    if name != "" {
      assert (name + (" " + rest))[1..] == name[1..] + (" " + rest);
      NameSpanStops(name[1..], rest);
    }
  }

  lemma {:induction false} NameSpanWhole(s: string)
    requires forall i | 0 <= i < |s| :: NameChar(s[i])
    ensures NameSpan(s) == |s|
  {
    if s != "" { NameSpanWhole(s[1..]); }
  }

  lemma {:induction false} StringSpanStops(s: string, escaped: bool, rest: string)
    requires ClosesAtEnd(s, escaped)
    ensures StringSpan(s + rest, escaped) == |s| && s[|s| - 1] == '"'
  {
    assert (s + rest)[1..] == s[1..] + rest;
    if escaped {
      StringSpanStops(s[1..], false, rest);
    } else if s[0] == '\\' {
      StringSpanStops(s[1..], true, rest);
    } else if s[0] != '"' {
      StringSpanStops(s[1..], false, rest);
    }
  }

  lemma {:induction false} NextReadsToken<F>(h: Host<F>, encode: string -> string, t: Token, rest: string)
    requires Encodes(h, encode) && Printable(t)
    ensures TokenText(encode, t) != ""
    ensures Next(h, TokenText(encode, t) + (" " + rest)) == Ok(Lexeme(Some(t), |TokenText(encode, t)|))
  {
    var text := TokenText(encode, t);
    var s := text + (" " + rest);
    assert text != "" ==> s[0] == text[0] && s[..|text|] == text;
    match t
    case Identifier(name) => NameSpanStops(name, rest);
    case Number(n) => NumberSpanStops(n, false, rest);
    case Str(_) =>
      assert s[1..] == text[1..] + (" " + rest);
      StringSpanStops(text[1..], false, " " + rest);
    case Operator(op) => NextReadsOperator(h, op, rest);
    case LeftParen =>
    case RightParen =>
  }

  lemma {:induction false} NextReadsOperator<F>(h: Host<F>, op: string, rest: string)
    requires Level(op) > 0 || op == "not"
    ensures op != "" && Next(h, op + (" " + rest)) == Ok(Lexeme(Some(Operator(op)), |op|))
  {
    var s := op + (" " + rest);
    assert s[0] == op[0] && s[..|op|] == op;
    if Word(op) {
      NameSpanWhole(op);
      NameSpanStops(op, rest);
    } else if |op| == 2 {
      assert s[..2] == op;
    } else {
      assert op == [s[0]] && s[1] == ' ';
    }
  }

  lemma {:induction false} LexReadsToken<F>(h: Host<F>, encode: string -> string, t: Token, rest: string)
    requires Encodes(h, encode) && Printable(t)
    ensures Lex(h, TokenText(encode, t) + (" " + rest)) == Push(Some(t), Lex(h, rest))
  {
    hide Next, TokenText, Printable;
    var text := TokenText(encode, t);
    NextReadsToken(h, encode, t, rest);
    assert (text + (" " + rest))[|text|..] == " " + rest && (" " + rest)[1..] == rest;
    SpaceSkipped(h, rest);
  }

  lemma SpaceSkipped<F>(h: Host<F>, rest: string)
    ensures Next(h, " " + rest) == Ok(Lexeme(None, 1))
  {
  }

  lemma RenderCons(encode: string -> string, ts: seq<Token>)
    requires ts != []
    ensures RenderTokens(encode, ts) == TokenText(encode, ts[0]) + (" " + RenderTokens(encode, ts[1..]))
  {
    hide TokenText;
  }

  /** Tokenizing printed tokens gives them back, with the end mark. */
  lemma {:induction false} LexUndoesRender<F>(h: Host<F>, encode: string -> string, ts: seq<Token>)
    requires Encodes(h, encode) && forall i | 0 <= i < |ts| :: Printable(ts[i])
    ensures Lex(h, RenderTokens(encode, ts)) == Ok(ts + [End])
  {
    hide Printable, Encodes, TokenText;
    if ts != [] {
      hide Lex, RenderTokens;
      LexReadsToken(h, encode, ts[0], RenderTokens(encode, ts[1..]));
      RenderCons(encode, ts);
      LexUndoesRender(h, encode, ts[1..]);
      assert [ts[0]] + (ts[1..] + [End]) == ts + [End];
    } else {
      assert ts + [End] == [End];
    }
  }

  predicate PrintableTree(e: Tree) {
    forall i | 0 <= i < |Print(e)| :: Printable(Print(e)[i])
  }

  /**
    The debugger agrees with the reference evaluator on text: a printed expression within the
    length limit gives exactly the value, or exactly the error, of its tree.
  */
  lemma {:induction false} TextEvaluates<F>(h: Host<F>, encode: string -> string, e: Tree)
    requires Encodes(h, encode) && Fits(e, 1) && PrintableTree(e)
    requires |RenderTokens(encode, Print(e))| <= MAX_LENGTH
    ensures EvaluateText(h, RenderTokens(encode, Print(e))) == Eval(h, e)
  {
    LexUndoesRender(h, encode, Print(e));
    PrintedTreeEvaluates(h, e);
  }

  lemma {:induction false} LexEnds<F>(h: Host<F>, s: string)
    requires Lex(h, s).Ok?
    ensures var ts := Lex(h, s).value; ts != [] && ts[|ts| - 1] == End && End !in ts[..|ts| - 1]
    decreases |s|
  {
    if s != "" {
      var l := Next(h, s).value;
      LexEnds(h, s[l.length..]);
      var tail := Lex(h, s[l.length..]).value;
      if l.token.Some? {
        assert ([l.token.value] + tail)[..|tail|] == [l.token.value] + tail[..|tail| - 1];
      }
    }
  }

  /** Any text evaluates to a value exactly when it is short enough and its tokens print a tree with that value. */
  lemma {:induction false} TextIsAdequate<F>(h: Host<F>, s: string, v: Value<F>)
    ensures EvaluateText(h, s) == Ok(v)
      <==> |s| <= MAX_LENGTH && exists e :: Fits(e, 1) && Lex(h, s) == Ok(Print(e) + [End]) && Eval(h, e) == Ok(v)
  {
    if Lex(h, s).Ok? {
      LexEnds(h, s);
      var ts := Lex(h, s).value;
      var body := ts[..|ts| - 1];
      assert ts == body + [End];
      ParserIsAdequate(h, body, v);
      if e :| Fits(e, 1) && Print(e) == body && Eval(h, e) == Ok(v) {
        assert Lex(h, s) == Ok(Print(e) + [End]);
      }
      if e :| Fits(e, 1) && Lex(h, s) == Ok(Print(e) + [End]) && Eval(h, e) == Ok(v) {
        assert (Print(e) + [End])[..|Print(e)|] == Print(e);
        assert Print(e) == body;
      }
    }
  }
}
