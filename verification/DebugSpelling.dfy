/**
  How debugger expressions are written: the lexical grammar, said without the tokenizer's code. A
  text is spaces and spelled tokens in a row, each token as long as it can be; the tokenizer
  accepts exactly these texts.
*/
module DebugSpelling {
  import opened Wrappers
  import opened Text
  import opened DebugValues
  import opened DebugParser
  import opened DebugGrammar
  import opened DebugLexer
  import opened DebugMeaning

  predicate Blank(c: char) { c as int in {9, 10, 12, 13, 32} }

  predicate Numeric10(t: string) { forall i | 0 <= i < |t| :: '0' <= t[i] <= '9' }

  predicate NameStart(c: char) { 'a' <= c <= 'z' || 'A' <= c <= 'Z' || c == '_' }

  /** Names reach into fields and elements: `frame.items[0]` is one name. */
  predicate NameRest(c: char) { NameStart(c) || '0' <= c <= '9' || c == '.' || c == '[' || c == ']' }

  predicate Named(t: string) {
    t != "" && NameStart(t[0]) && forall i | 0 <= i < |t| :: NameRest(t[i])
  }

  /** Digits, with one point among them if `dot` is not set. */
  ghost predicate Digits10(t: string, dot: bool) {
    Numeric10(t) || (!dot && exists i | 0 <= i < |t| :: PointAt(t, i))
  }

  predicate PointAt(t: string, i: nat) {
    i < |t| && Numeric10(t[..i]) && t[i] == '.' && Numeric10(t[i + 1..])
  }

  /** Digits, with at most one point and at least one digit. */
  ghost predicate Numeral(t: string) {
    t != "" && t != "." && Digits10(t, false)
  }

  /** What a string decoder that refuses anything but one whole literal promises. */
  ghost predicate DecodesLiterals<F>(h: Host<F>) {
    forall t :: h.decode(t).Some? ==> Quotation(t)
  }

  ghost predicate Spelled<F>(h: Host<F>, t: string, token: Token) {
    match token
    case Number(text) => t == text && Numeral(t)
    case Identifier(name) => t == name && Named(t) && !Logical(t) && t != "not"
    case Operator(op) => t == op && (Logical(t) || t == "not" || Comparison(t) || Arithmetic(t))
    case Str(s) => Quotation(t) && h.decode(t) == Some(s)
    case LeftParen => t == "("
    case RightParen => t == ")"
    case End => false
  }

  /** `token` does not go on into `rest`. */
  predicate Ends(token: Token, rest: string) {
    rest == "" ||
    match token
    case Number(text) => !('0' <= rest[0] <= '9') && (rest[0] == '.' ==> '.' in text)
    case Identifier(_) => !NameRest(rest[0])
    case Operator(op) =>
      if Logical(op) || op == "not" then !NameRest(rest[0]) else (op == "<" || op == ">") ==> rest[0] != '='
    case _ => true
  }

  /** The token spelled at the start of `s` takes `n` characters. */
  ghost predicate Starts<F>(h: Host<F>, s: string, token: Token, n: nat) {
    1 <= n <= |s| && Spelled(h, s[..n], token) && Ends(token, s[n..])
  }

  /** `s` is the tokens `ts` with blanks anywhere between them. */
  ghost predicate Reads<F>(h: Host<F>, s: string, ts: seq<Token>)
    decreases |s|
  {
    if s == "" then ts == []
    else
      || (Blank(s[0]) && Reads(h, s[1..], ts))
      || (ts != [] && exists n | 0 < n <= |s| :: Starts(h, s, ts[0], n) && Reads(h, s[n..], ts[1..]))
  }

  // ---------------------------------------------------------------------------
  // One token
  // ---------------------------------------------------------------------------

  lemma {:induction false} NameSpanIs(s: string)
    ensures forall i | 0 <= i < NameSpan(s) :: NameRest(s[i])
    ensures NameSpan(s) < |s| ==> !NameRest(s[NameSpan(s)])
  {
    if s != "" && NameChar(s[0]) {
      NameSpanIs(s[1..]);
      forall i | 0 <= i < NameSpan(s) ensures NameRest(s[i]) {
        if i > 0 { assert s[i] == s[1..][i - 1]; }
      }
    }
  }

  lemma NameSpanOnce(s: string, n: nat)
    requires n <= |s| && (forall i | 0 <= i < n :: NameRest(s[i])) && (n < |s| ==> !NameRest(s[n]))
    ensures NameSpan(s) == n
  {
    NameSpanIs(s);
  }

  lemma {:induction false} DigitsCons(c: char, t: string, dot: bool)
    requires Digits10(t, dot || c == '.') && (DigitChar(c) || (c == '.' && !dot))
    ensures Digits10([c] + t, dot)
  {
    var s := [c] + t;
    assert s[1..] == t;
    if c == '.' {
      assert PointAt(s, 0);
    } else if !Numeric10(t) {
      var i :| 0 <= i < |t| && PointAt(t, i);
      assert s[..i + 1] == [c] + t[..i] && s[i + 2..] == t[i + 1..];
      assert PointAt(s, i + 1);
    }
  }

  lemma {:induction false} NumberSpanIs(s: string, dot: bool)
    ensures
      var n := NumberSpan(s, dot);
      && Digits10(s[..n], dot)
      && (n < |s| ==> !('0' <= s[n] <= '9') && (s[n] == '.' ==> dot || '.' in s[..n]))
  {
    hide Digits10;
    var n := NumberSpan(s, dot);
    if s != "" && (DigitChar(s[0]) || (s[0] == '.' && !dot)) {
      NumberSpanIs(s[1..], dot || s[0] == '.');
      assert s[..n] == [s[0]] + s[1..][..n - 1];
      DigitsCons(s[0], s[1..][..n - 1], dot);
    } else {
      NoDigits(dot);
      assert s[..n] == "";
    }
  }

  lemma NoDigits(dot: bool)
    ensures Digits10("", dot)
  {
  }

  lemma {:induction false} NumberSpanOf(t: string, rest: string, dot: bool)
    requires Numeric10(t)
    requires rest == "" || (!('0' <= rest[0] <= '9') && (rest[0] == '.' ==> dot))
    ensures NumberSpan(t + rest, dot) == |t|
  {
    if t == "" {
      assert t + rest == rest;
    } else {
      assert (t + rest)[1..] == t[1..] + rest;
      NumberSpanOf(t[1..], rest, dot);
    }
  }

  lemma {:induction false} PointedSpanOf(a: string, b: string, rest: string)
    requires Numeric10(a) && Numeric10(b) && (rest == "" || !('0' <= rest[0] <= '9'))
    ensures NumberSpan(a + "." + b + rest, false) == |a| + 1 + |b|
  {
    var s := a + "." + b + rest;
    if a == "" {
      assert s[1..] == b + rest;
      NumberSpanOf(b, rest, true);
    } else {
      assert s[1..] == a[1..] + "." + b + rest;
      PointedSpanOf(a[1..], b, rest);
    }
  }

  lemma {:induction false} NumeralSpans(t: string, rest: string)
    requires Numeral(t) && Ends(Number(t), rest)
    ensures NumberSpan(t + rest, false) == |t|
    ensures DigitChar(t[0]) || (t[0] == '.' && |t| > 1 && DigitChar(t[1]))
  {
    if Numeric10(t) {
      NumberSpanOf(t, rest, false);
    } else {
      var i :| 0 <= i < |t| && PointAt(t, i);
      PointedSpanOf(t[..i], t[i + 1..], rest);
      assert t == t[..i] + "." + t[i + 1..];
      if i > 0 { assert t[0] == t[..i][0]; } else { assert t[1] == t[1..][0]; }
    }
  }

  lemma {:induction false} InsideSpan(s: string, rest: string)
    requires Inside(s)
    ensures StringSpan(s + "\"" + rest, false) == |s| + 1
    decreases |s|
  {
    var t := s + "\"" + rest;
    if s == "" {
    } else if s[0] == '\\' {
      assert t[1..][1..] == s[2..] + "\"" + rest;
      InsideSpan(s[2..], rest);
    } else {
      assert t[1..] == s[1..] + "\"" + rest;
      InsideSpan(s[1..], rest);
    }
  }

  lemma {:induction false} QuotedSpans(t: string, rest: string)
    requires Quotation(t)
    ensures 1 + StringSpan((t + rest)[1..], false) == |t|
  {
    InsideSpan(t[1..|t| - 1], rest);
    assert (t + rest)[1..] == t[1..|t| - 1] + "\"" + rest;
  }

  /** A spelled token at the start of a text is the next one. */
  lemma {:induction false} NextIsStart<F>(h: Host<F>, s: string, token: Token, n: nat)
    requires Starts(h, s, token, n)
    ensures Next(h, s) == Ok(Lexeme(Some(token), n)) && !Blank(s[0])
  {
    var t, rest := s[..n], s[n..];
    assert s == t + rest && s[0] == t[0];
    match token
    case Number(_) => NumeralSpans(t, rest);
    case Identifier(_) => NameSpanOnce(s, n);
    case Str(_) => QuotedSpans(t, rest);
    case Operator(op) => OperatorIsNext(h, s, op);
    case LeftParen =>
    case RightParen =>
  }

  lemma {:induction false} OperatorIsNext<F>(h: Host<F>, s: string, op: string)
    requires Starts(h, s, Operator(op), |op|)
    ensures Next(h, s) == Ok(Lexeme(Some(Operator(op)), |op|))
  {
    assert s[..|op|] == op;
    assert s[0] == op[0];
    if Logical(op) || op == "not" {
      assert |s| > |op| ==> s[|op|] == s[|op|..][0];
      assert forall i | 0 <= i < |op| :: NameRest(op[i]);
      NameSpanOnce(s, |op|);
    } else if |op| == 2 {
      assert s[..2] == op && s[1] == op[1];
    } else {
      assert [s[0]] == op;
      assert |s| > 1 ==> s[1] == s[1..][0];
    }
  }

  lemma {:induction false} NumeralIsStart<F>(h: Host<F>, s: string)
    requires s != "" && (DigitChar(s[0]) || (s[0] == '.' && |s| > 1 && DigitChar(s[1])))
    ensures var n := NumberSpan(s, false); Starts(h, s, Number(s[..n]), n)
  {
    NumberSpanIs(s, false);
    var n := NumberSpan(s, false);
    var t := s[..n];
    assert s[1..] != "" && s[0] == '.' ==> s[1..][0] == s[1];
  }

  /** The next token is spelled at the start of the text, and is as long as it can be. */
  lemma {:induction false} NextStarts<F>(h: Host<F>, s: string)
    requires DecodesLiterals(h) && s != "" && !Blank(s[0]) && Next(h, s).Ok?
    ensures var l := Next(h, s).value; l.token.Some? && Starts(h, s, l.token.value, l.length)
  {
    var l := Next(h, s).value;
    var n := l.length;
    if s[0] == '(' || s[0] == ')' {
      assert s[..1] == [s[0]];
    } else if s[0] == '"' {
    } else if DigitChar(s[0]) || (s[0] == '.' && |s| > 1 && DigitChar(s[1])) {
      NumeralIsStart(h, s);
    } else if Alpha(s[0]) || s[0] == '_' {
      NameSpanIs(s);
    } else if TwoCharOperator(s) {
      assert s[..2] == [s[0], s[1]];
    } else {
      assert s[..1] == [s[0]];
    }
  }

  // ---------------------------------------------------------------------------
  // Whole texts
  // ---------------------------------------------------------------------------

  lemma {:induction false} ReadsLex<F>(h: Host<F>, s: string, ts: seq<Token>)
    requires Reads(h, s, ts)
    ensures Lex(h, s) == Ok(ts + [End])
    decreases |s|
  {
    hide Next, Starts;
    if s == "" {
      assert ts + [End] == [End];
    } else if Blank(s[0]) && Reads(h, s[1..], ts) {
      BlankIsSkipped(h, s);
      ReadsLex(h, s[1..], ts);
    } else {
      var n :| 0 < n <= |s| && Starts(h, s, ts[0], n) && Reads(h, s[n..], ts[1..]);
      NextIsStart(h, s, ts[0], n);
      ReadsLex(h, s[n..], ts[1..]);
      assert [ts[0]] + (ts[1..] + [End]) == ts + [End];
    }
  }

  lemma {:induction false} LexReads<F>(h: Host<F>, s: string)
    requires DecodesLiterals(h) && Lex(h, s).Ok?
    ensures var all := Lex(h, s).value; all != [] && all[|all| - 1] == End && Reads(h, s, all[..|all| - 1])
    decreases |s|
  {
    hide Next, Starts;
    var all := Lex(h, s).value;
    if s == "" {
      assert all[..|all| - 1] == [];
    } else if Blank(s[0]) {
      BlankIsSkipped(h, s);
      LexReads(h, s[1..]);
    } else {
      NextStarts(h, s);
      var n := Next(h, s).value.length;
      StartLength(h, s, Next(h, s).value.token.value, n);
      LexReads(h, s[n..]);
      var rest := Lex(h, s[n..]).value;
      assert all[0] == Next(h, s).value.token.value && all[..|all| - 1][1..] == rest[..|rest| - 1];
    }
  }

  lemma StartLength<F>(h: Host<F>, s: string, token: Token, n: nat)
    requires Starts(h, s, token, n)
    ensures 1 <= n <= |s|
  {
  }

  /** The tokenizer accepts a text exactly when it is a row of spelled tokens, and these are its tokens. */
  lemma {:induction false} LexIsExact<F>(h: Host<F>, s: string, ts: seq<Token>)
    requires DecodesLiterals(h)
    ensures Lex(h, s) == Ok(ts + [End]) <==> Reads(h, s, ts)
  {
    if Reads(h, s, ts) { ReadsLex(h, s, ts); }
    if Lex(h, s) == Ok(ts + [End]) {
      LexReads(h, s);
      assert (ts + [End])[..|ts|] == ts;
    }
  }

  lemma BlankIsSkipped<F>(h: Host<F>, s: string)
    requires s != "" && Blank(s[0])
    ensures Next(h, s) == Ok(Lexeme(None, 1))
  {
  }

  // ---------------------------------------------------------------------------
  // Texts the tokenizer refuses
  // ---------------------------------------------------------------------------

  predicate HasLiteral(s: string) {
    exists n | 2 <= n <= |s| :: Quotation(s[..n])
  }

  /** No token starts here: what the tokenizer says of it. A literal left open that ends in a quote counts as invalid. */
  ghost predicate Stuck<F>(h: Host<F>, s: string, error: EvalError) {
    s != "" && !Blank(s[0]) &&
    if s[0] != '"' then error == UnsupportedCharacter(s[0]) && forall token, n :: !Starts(h, s, token, n)
    else if HasLiteral(s) then error == InvalidString && forall n | 2 <= n <= |s| && Quotation(s[..n]) :: h.decode(s[..n]).None?
    else error == if s[|s| - 1] == '"' then InvalidString else UnterminatedString
  }

  /** Blanks and spelled tokens, and then a place where no token starts. */
  ghost predicate Fails<F>(h: Host<F>, s: string, error: EvalError)
    decreases |s|
  {
    s != "" && (
      || Stuck(h, s, error)
      || (Blank(s[0]) && Fails(h, s[1..], error))
      || exists token, n | 0 < n <= |s| && Starts(h, s, token, n) :: Fails(h, s[n..], error))
  }

  lemma {:induction false} SpanCloses(s: string)
    ensures var n := StringSpan(s, false); n < |s| ==> n > 0 && s[n - 1] == '"' && Inside(s[..n - 1])
    decreases |s|
  {
    var n := StringSpan(s, false);
    if n < |s| && s[0] != '"' {
      if s[0] == '\\' {
        assert s[1..] == "" ==> n == 1 == |s|;
        assert s[1..][1..] == s[2..];
        SpanCloses(s[2..]);
        assert s[..n - 1][2..] == s[2..][..n - 3];
      } else {
        SpanCloses(s[1..]);
        assert s[..n - 1][1..] == s[1..][..n - 2];
      }
    }
  }

  lemma {:induction false} LiteralIsSpan(s: string, n: nat)
    requires 2 <= n <= |s| && Quotation(s[..n])
    ensures n == 1 + StringSpan(s[1..], false)
  {
    QuotedSpans(s[..n], s[n..]);
    assert s == s[..n] + s[n..];
  }

  lemma {:induction false} SpanIsLiteral(s: string)
    requires s != "" && s[0] == '"'
    ensures var n := 1 + StringSpan(s[1..], false); n < |s| ==> 2 <= n && Quotation(s[..n])
  {
    SpanCloses(s[1..]);
    var n := 1 + StringSpan(s[1..], false);
    if n < |s| { assert s[..n][1..n - 1] == s[1..][..n - 2]; }
  }

  lemma {:induction false} NextSticks<F>(h: Host<F>, s: string, error: EvalError)
    requires DecodesLiterals(h) && s != "" && !Blank(s[0])
    ensures Next(h, s) == Err(error) <==> Stuck(h, s, error)
  {
    if s[0] == '"' {
      QuoteSticks(h, s, error);
    } else {
      forall token, n | Starts(h, s, token, n) ensures Next(h, s) == Ok(Lexeme(Some(token), n)) {
        NextIsStart(h, s, token, n);
      }
      if Next(h, s).Ok? {
        NextStarts(h, s);
        assert Starts(h, s, Next(h, s).value.token.value, Next(h, s).value.length);
      }
    }
  }

  lemma {:induction false} QuoteSticks<F>(h: Host<F>, s: string, error: EvalError)
    requires DecodesLiterals(h) && s != "" && s[0] == '"'
    ensures Next(h, s) == Err(error) <==> Stuck(h, s, error)
  {
    var n := 1 + StringSpan(s[1..], false);
    if HasLiteral(s) {
      forall m | 2 <= m <= |s| && Quotation(s[..m]) ensures m == n { LiteralIsSpan(s, m); }
    } else {
      SpanIsLiteral(s);
      assert s[..n] == s;
      assert h.decode(s).Some? ==> Quotation(s);
      assert |s| >= 2 ==> !Quotation(s[..|s|]);
    }
  }

  /** The tokenizer's errors: a text is refused exactly when no token starts somewhere, and for that reason. */
  lemma {:induction false} LexFails<F>(h: Host<F>, s: string, error: EvalError)
    requires DecodesLiterals(h)
    ensures Lex(h, s) == Err(error) <==> Fails(h, s, error)
    decreases |s|
  {
    hide Next, Starts, Stuck;
    if s == "" {
    } else if Blank(s[0]) {
      BlankIsSkipped(h, s);
      LexFails(h, s[1..], error);
      BlankIsNoStart(h, s, error);
    } else {
      NextSticks(h, s, error);
      forall token, n | Starts(h, s, token, n) ensures Next(h, s) == Ok(Lexeme(Some(token), n)) {
        NextIsStart(h, s, token, n);
      }
      if Next(h, s).Ok? {
        NextStarts(h, s);
        var l := Next(h, s).value;
        LexFails(h, s[l.length..], error);
      }
    }
  }

  lemma BlankIsNoStart<F>(h: Host<F>, s: string, error: EvalError)
    requires s != "" && Blank(s[0])
    ensures !Stuck(h, s, error) && forall token, n :: !Starts(h, s, token, n)
  {
    forall token, n ensures !Starts(h, s, token, n) {
      if Starts(h, s, token, n) { NextIsStart(h, s, token, n); }
    }
  }

  /**
    A text has a value exactly when it is short enough and reads as the print of a tree that means
    that value.
  */
  lemma {:induction false} TextMeans<F(!new)>(h: Host<F>, s: string, v: Value<F>)
    requires DecodesLiterals(h)
    ensures EvaluateText(h, s) == Ok(v)
      <==> |s| <= MAX_LENGTH && exists e :: Fits(e, 1) && Reads(h, s, Print(e)) && TreeMeans(h, e, Ok(v))
  {
    TextIsAdequate(h, s, v);
    forall e | Fits(e, 1)
      ensures Lex(h, s) == Ok(Print(e) + [End]) <==> Reads(h, s, Print(e))
      ensures TreeMeans(h, e, Ok(v)) <==> Eval(h, e) == Ok(v)
    {
      LexIsExact(h, s, Print(e));
      EvalMeans(h, e, Ok(v));
    }
  }

  /** A short text that reads as the print of a tree gives what the tree means, value or error. */
  lemma {:induction false} TextComputes<F(!new)>(h: Host<F>, s: string, e: Tree, out: Result<Value<F>, EvalError>)
    requires |s| <= MAX_LENGTH && Fits(e, 1) && Reads(h, s, Print(e))
    ensures TreeMeans(h, e, out) <==> out == EvaluateText(h, s)
  {
    ReadsLex(h, s, Print(e));
    PrintedTreeEvaluates(h, e);
    EvalMeans(h, e, out);
  }

  /** An integer as an expression: its digits, after a minus sign when it is negative. */
  function Literal(n: int): Tree {
    if n >= 0 then Num(Decimal(n)) else Neg(Num(Decimal(-n)))
  }

  /**
    Two integers with an operator between them, however spaced, give what the operator means. The
    least integer has no literal: its digits alone are out of range.
  */
  lemma {:induction false} IntegersCompute<F(!new)>(h: Host<F>, s: string, op: string, a: int, b: int)
    requires -MAX <= a <= MAX && -MAX <= b <= MAX && Level(op) > 0
    requires |s| <= MAX_LENGTH && Reads(h, s, Print(Literal(a)) + [Operator(op)] + Print(Literal(b)))
    ensures Means(h, op, Integer(a), Integer(b), EvaluateText(h, s))
  {
    var e := Bin(op, Literal(a), Literal(b));
    assert Print(e) == Print(Literal(a)) + [Operator(op)] + Print(Literal(b));
    LiteralFits(a, Level(op));
    LiteralFits(b, Level(op) + 1);
    ReadsLex(h, s, Print(e));
    PrintedTreeEvaluates(h, e);
    LiteralIs(h, a);
    LiteralIs(h, b);
    CombineMeans(h, op, Integer(a), Integer(b), Combine(h, op, Integer(a), Integer(b)));
  }

  lemma LiteralFits(n: int, k: nat)
    requires k <= 6
    ensures Fits(Literal(n), k)
  {
  }

  lemma {:induction false} NumeralIs<F>(h: Host<F>, n: nat)
    requires n <= MAX
    ensures NumberValue(h, Decimal(n)) == Ok(Integer(n))
  {
    DecimalIsRead("", n);
    assert "" + Decimal(n) == Decimal(n);
    hide Decimal, DecimalValue, AllDigits;
    DigitsHaveNoPoint(Decimal(n));
  }

  lemma {:induction false} LiteralIs<F>(h: Host<F>, n: int)
    requires -MAX <= n <= MAX
    ensures Eval(h, Literal(n)) == Ok(Integer(n))
  {
    hide NumberValue, Decimal;
    NumeralIs(h, if n >= 0 then n else -n);
  }

  lemma DigitsHaveNoPoint(s: string)
    requires AllDigits(s)
    ensures '.' !in s
  {
  }
}
