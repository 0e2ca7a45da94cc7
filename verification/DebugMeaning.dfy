/**
  What the debugger's operators mean, said without the evaluator's code: arithmetic and order on
  integers, order on text, the truth tables, and the type errors. The evaluator gives exactly these
  outcomes, on values, on trees and on text.
*/
module DebugMeaning {
  import opened Wrappers
  import S = Sorting
  import opened Text
  import opened DebugValues
  import opened DebugParser
  import opened DebugGrammar

  predicate Logical(op: string) { op == "and" || op == "or" }

  predicate Comparison(op: string) {
    op == "==" || op == "!=" || op == "<" || op == "<=" || op == ">" || op == ">="
  }

  predicate Arithmetic(op: string) {
    op == "+" || op == "-" || op == "*" || op == "/" || op == "%"
  }

  function Distance(a: int, b: int): nat { if a < b then b - a else a - b }

  /** Among the 64-bit integers, none is nearer to `n` than `c`. */
  ghost predicate Nearest(c: int, n: int) {
    MIN <= c <= MAX && forall d :: MIN <= d <= MAX ==> Distance(c, n) <= Distance(d, n)
  }

  /** `r` remains of `a` when multiples of `b` are taken away towards zero. */
  ghost predicate Remains(a: int, b: int, r: int) {
    && (exists q :: a == q * b + r)
    && Distance(r, 0) < Distance(b, 0)
    && (a >= 0 ==> r >= 0) && (a <= 0 ==> r <= 0)
  }

  /** A comparison, given whether the operands are equal and whether the left one comes first. */
  predicate Ordered(op: string, equal: bool, first: bool) {
    match op
    case "==" => equal
    case "!=" => !equal
    case "<" => first
    case "<=" => first || equal
    case ">" => !first && !equal
    case _ => !first
  }

  ghost predicate IntegersMean(op: string, a: int, b: int, c: int) {
    match op
    case "+" => Nearest(c, a + b)
    case "-" => exists d :: d + b == a && Nearest(c, d)
    case "*" => Nearest(c, a * b)
    case _ => Remains(a, b, c)
  }

  /** What `l op r` comes to. */
  ghost predicate Means<F>(h: Host<F>, op: string, l: Value<F>, r: Value<F>, out: Result<Value<F>, EvalError>) {
    if Logical(op) then
      // the right operand matters only when the left one does not decide
      if l.Boolean? && (l.b <==> op == "or") then out == Ok(Boolean(op == "or"))
      else if l.Boolean? && r.Boolean? then out == Ok(Boolean(r.b))
      else out == Err(BooleanOperands)
    else if Comparison(op) then
      match (l, r)
      case (Integer(a), Integer(b)) => out == Ok(Boolean(Ordered(op, a == b, a < b)))
      case (Text(a), Text(b)) => out == Ok(Boolean(Ordered(op, a == b, S.Before(a, b))))
      case (Boolean(a), Boolean(b)) =>
        if op == "==" || op == "!=" then out == Ok(Boolean((op == "==") == (a == b))) else out == Err(CannotCompare)
      case _ =>
        if Numeric(l) && Numeric(r) then out == Ok(Boolean(h.compare(op, AsFloat(h, l), AsFloat(h, r))))
        else out == Err(CannotCompare)
    else
      match (l, r)
      case (Integer(a), Integer(b)) =>
        if op == "/" then Divided(h, op, DivisionByZero, h.fromInt(a), h.fromInt(b), out)
        else if op == "%" && b == 0 then out == Err(IntegerRemainderByZero)
        else if op == "%" && a == MIN && b == -1 then out == Err(Crash)
        else out.Ok? && out.value.Integer? && IntegersMean(op, a, b, out.value.n)
      case (Text(a), Text(b)) =>
        if op == "+" then out.Ok? && out.value.Text? && Joined(a, b, out.value.s) else out == Err(NumericOperands)
      case _ =>
        if Numeric(l) && Numeric(r) then
          Divided(h, op, if op == "/" then DivisionByZero else RemainderByZero, AsFloat(h, l), AsFloat(h, r), out)
        else out == Err(NumericOperands)
  }

  /** Arithmetic on floats: the host's, except that `/` and `%` by zero are errors. */
  ghost predicate Divided<F>(h: Host<F>, op: string, error: EvalError, x: F, y: F, out: Result<Value<F>, EvalError>) {
    if (op == "/" || op == "%") && h.isZero(y) then out == Err(error) else out == Ok(Float(h.arith(op, x, y)))
  }

  /** `s` is `a` followed by `b`. */
  predicate Joined(a: string, b: string, s: string) {
    |s| == |a| + |b| && s[..|a|] == a && s[|a|..] == b
  }

  /** What `-v` comes to. */
  ghost predicate NegationMeans<F>(h: Host<F>, v: Value<F>, out: Result<Value<F>, EvalError>) {
    match v
    case Integer(n) => if n == MIN then out == Err(Crash) else out.Ok? && out.value.Integer? && out.value.n + n == 0
    case Float(f) => out == Ok(Float(h.negate(f)))
    case _ => out == Err(NotANumber)
  }

  /** What `not v` comes to. */
  ghost predicate NotMeans<F>(v: Value<F>, out: Result<Value<F>, EvalError>) {
    if v.Boolean? then out.Ok? && out.value.Boolean? && out.value.b != v.b else out == Err(BooleanOperands)
  }

  // ---------------------------------------------------------------------------
  // The meaning leaves one outcome
  // ---------------------------------------------------------------------------

  lemma OperatorsByLevel(op: string)
    ensures Level(op) in {1, 2} <==> Logical(op)
    ensures Level(op) == 3 <==> Comparison(op)
    ensures Level(op) in {4, 5} <==> Arithmetic(op)
  {
  }

  /** In range the nearest integer is the integer itself; out of range it is the nearer bound. */
  lemma NearestIs(c: int, n: int)
    ensures Nearest(c, n) <==> c == Saturate(n)
    ensures MIN <= n <= MAX ==> (Nearest(c, n) <==> c == n)
    ensures n < MIN ==> (Nearest(c, n) <==> c == MIN)
    ensures n > MAX ==> (Nearest(c, n) <==> c == MAX)
  {
    if Nearest(c, n) {
      assert Distance(c, n) <= Distance(Saturate(n), n);
    }
  }

  lemma MultipleIsFar(k: int, b: int)
    requires k != 0
    ensures Distance(k * b, 0) >= Distance(b, 0)
  {
    var n := if k > 0 then k else -k;
    assert b >= 0 ==> n * b >= b;
    assert b <= 0 ==> n * b <= b;
    assert k < 0 ==> k * b == -(n * b);
  }

  lemma RemainsOnce(a: int, b: int, r: int, s: int)
    requires Remains(a, b, r) && Remains(a, b, s)
    ensures r == s
  {
    var p :| a == p * b + r;
    var q :| a == q * b + s;
    assert (p - q) * b == s - r;
    if p != q { MultipleIsFar(p - q, b); }
  }

  lemma RemainsOf(a: int, b: int, q: int, r: int, part: int)
    requires part == q * b && a == part + r && Distance(r, 0) < Distance(b, 0)
    requires (a >= 0 ==> r >= 0) && (a <= 0 ==> r <= 0)
    ensures Remains(a, b, r)
  {
  }

  /** Division of the magnitudes. */
  lemma Divide(m: nat, d: nat) returns (q: int, r: int, part: int)
    requires d > 0
    ensures part == q * d && m == part + r && 0 <= r < d && r == m % d
  {
    q, r, part := m / d, m % d, m / d * d;
  }

  lemma Signs(q: int, d: int)
    ensures -q * d == -(q * d) && q * -d == -(q * d) && -q * -d == q * d
  {
  }

  lemma RemainderRemains(a: int, b: int)
    requires b != 0
    ensures Remains(a, b, Remainder(a, b))
  {
    var d := if b < 0 then -b else b;
    var q, r, part := Divide(if a >= 0 then a else -a, d);
    Signs(q, d);
    hide Remains;
    if a >= 0 {
      RemainsOf(a, b, if b > 0 then q else -q, r, part);
    } else {
      RemainsOf(a, b, if b > 0 then -q else q, -r, -part);
    }
  }

  /** The comparison by characters decides the text order. */
  lemma {:induction false} LexicographicIsBefore(a: string, b: string)
    ensures Lexicographic(a, b) == 0 <==> a == b
    ensures Lexicographic(a, b) < 0 <==> S.Before(a, b)
  {
    hide S.Before;
    if a == b {
      S.NotBeforeItself(a);
    } else if a == "" || b == "" || a[0] != b[0] {
      S.BeforeAtOnce(a, b);
    } else {
      assert a == [a[0]] + a[1..] && b == [b[0]] + b[1..];
      LexicographicIsBefore(a[1..], b[1..]);
      S.BeforeCons(a, b);
    }
  }

  /** Of two texts, exactly one of these holds: the first comes first, they are equal, the second comes first. */
  lemma {:induction false} BeforeIsTotal(a: string, b: string)
    ensures a == b ==> !S.Before(a, b) && !S.Before(b, a)
    ensures a != b ==> (S.Before(a, b) <==> !S.Before(b, a))
  {
    LexicographicIsBefore(a, b);
    LexicographicIsBefore(b, a);
    LexicographicFlips(a, b);
  }

  lemma {:induction false} LexicographicFlips(a: string, b: string)
    ensures Lexicographic(a, b) == -Lexicographic(b, a)
  {
    if a != "" && b != "" && a[0] == b[0] { LexicographicFlips(a[1..], b[1..]); }
  }

  lemma IntegersMeanOnce(op: string, a: int, b: int, c: int, d: int)
    requires IntegersMean(op, a, b, c) && IntegersMean(op, a, b, d)
    ensures c == d
  {
    NearestIs(c, a + b); NearestIs(d, a + b);
    NearestIs(c, a - b); NearestIs(d, a - b);
    NearestIs(c, a * b); NearestIs(d, a * b);
    if op != "+" && op != "-" && op != "*" { RemainsOnce(a, b, c, d); }
  }

  /** The meaning of an operator is met by one outcome only. */
  lemma {:induction false} MeansOnce<F>(h: Host<F>, op: string, l: Value<F>, r: Value<F>, x: Result<Value<F>, EvalError>, y: Result<Value<F>, EvalError>)
    requires Means(h, op, l, r, x) && Means(h, op, l, r, y)
    ensures x == y
  {
    hide Nearest, Remains, S.Before;
    if Arithmetic(op) || !(Logical(op) || Comparison(op)) {
      if l.Integer? && r.Integer? && x.Ok? && x.value.Integer? && y.Ok? && y.value.Integer? {
        if IntegersMean(op, l.n, r.n, x.value.n) && IntegersMean(op, l.n, r.n, y.value.n) {
          IntegersMeanOnce(op, l.n, r.n, x.value.n, y.value.n);
        }
      } else if l.Text? && r.Text? && x.Ok? && x.value.Text? && y.Ok? && y.value.Text? {
        assert op == "+" ==> x.value.s == x.value.s[..|l.s|] + x.value.s[|l.s|..];
        assert op == "+" ==> y.value.s == y.value.s[..|l.s|] + y.value.s[|l.s|..];
      }
    }
  }

  // ---------------------------------------------------------------------------
  // The evaluator's operations have this meaning
  // ---------------------------------------------------------------------------

  lemma {:induction false} IntegersCombine<F>(h: Host<F>, op: string, a: int, b: int)
    requires op == "+" || op == "-" || op == "*" || (op == "%" && b != 0 && !(a == MIN && b == -1))
    ensures
      var out := Combine(h, op, Integer(a), Integer(b));
      out.Ok? && out.value.Integer? && IntegersMean(op, a, b, out.value.n)
  {
    NearestIs(Saturate(a + b), a + b);
    NearestIs(Saturate(a - b), a - b);
    NearestIs(Saturate(a * b), a * b);
    assert (a - b) + b == a;
    if op == "%" { RemainderRemains(a, b); }
  }

  /** Every operation of the evaluator comes to what its operator means, and to nothing else. */
  lemma {:induction false} CombineMeans<F>(h: Host<F>, op: string, l: Value<F>, r: Value<F>, out: Result<Value<F>, EvalError>)
    requires Level(op) > 0
    ensures Means(h, op, l, r, out) <==> out == Combine(h, op, l, r)
  {
    var v := Combine(h, op, l, r);
    assert Means(h, op, l, r, v) by {
      OperatorsByLevel(op);
      if Comparison(op) {
        CompareMeans(h, op, l, r);
      } else if Arithmetic(op) {
        ArithmeticMeans(h, op, l, r);
      }
    }
    if Means(h, op, l, r, out) { MeansOnce(h, op, l, r, out, v); }
  }

  lemma {:induction false} CompareMeans<F>(h: Host<F>, op: string, l: Value<F>, r: Value<F>)
    requires Comparison(op)
    ensures Means(h, op, l, r, Combine(h, op, l, r))
  {
    hide S.Before, Lexicographic;
    if l.Text? && r.Text? { LexicographicIsBefore(l.s, r.s); }
  }

  lemma {:induction false} ArithmeticMeans<F>(h: Host<F>, op: string, l: Value<F>, r: Value<F>)
    requires Arithmetic(op)
    ensures Means(h, op, l, r, Combine(h, op, l, r))
  {
    hide IntegersMean, Saturate, Remainder;
    if l.Integer? && r.Integer? && op != "/" && !(op == "%" && (r.n == 0 || (l.n == MIN && r.n == -1))) {
      IntegersCombine(h, op, l.n, r.n);
    }
  }

  lemma {:induction false} UnaryMeans<F>(h: Host<F>, v: Value<F>, out: Result<Value<F>, EvalError>)
    ensures NegationMeans(h, v, out) <==> out == Negate(h, v)
    ensures NotMeans(v, out) <==> out == Not(v)
  {
  }

  // ---------------------------------------------------------------------------
  // Trees and text
  // ---------------------------------------------------------------------------

  /** What a numeral comes to: the 64-bit integer it spells, or with a point the host's float. */
  ghost predicate NumeralMeans<F>(h: Host<F>, text: string, out: Result<Value<F>, EvalError>) {
    if '.' in text then
      if h.parseFloat(text).Some? then out == Ok(Float(h.parseFloat(text).value)) else out == Err(InvalidNumber(text))
    else if exists n: nat :: Spells(text, n) && n <= MAX then
      out.Ok? && out.value.Integer? && out.value.n >= 0 && Spells(text, out.value.n)
    else out == Err(InvalidInteger(text))
  }

  lemma {:induction false} NumberMeans<F>(h: Host<F>, text: string, out: Result<Value<F>, EvalError>)
    ensures NumeralMeans(h, text, out) <==> out == NumberValue(h, text)
  {
    forall n: nat ensures Spells(text, n) <==> text != "" && AllDigits(text) && DecimalValue(text) == n { SpellsIs(text, n); }
    if text != "" && AllDigits(text) { assert Spells(text, DecimalValue(text)); }
  }

  /** What a tree comes to: the first error met from left to right, or what its operator means. */
  ghost predicate TreeMeans<F(!new)>(h: Host<F>, e: Tree, out: Result<Value<F>, EvalError>) {
    match e
    case Num(text) => NumeralMeans(h, text, out)
    case Lit(s) => out == Ok(Text(s))
    case Name(name) =>
      if name == "true" || name == "false" then out == Ok(Boolean(name == "true"))
      else if h.lookup(name).Some? then out == Ok(h.lookup(name).value) else out == Err(Lookup(name))
    case Neg(x) => (out.Err? && TreeMeans(h, x, out)) || exists v :: TreeMeans(h, x, Ok(v)) && NegationMeans(h, v, out)
    case Negation(x) => (out.Err? && TreeMeans(h, x, out)) || exists v :: TreeMeans(h, x, Ok(v)) && NotMeans(v, out)
    case Bin(op, l, r) =>
      || (out.Err? && TreeMeans(h, l, out))
      || exists a :: TreeMeans(h, l, Ok(a)) &&
           ((out.Err? && TreeMeans(h, r, out)) || exists b :: TreeMeans(h, r, Ok(b)) && Means(h, op, a, b, out))
    case Paren(x) => TreeMeans(h, x, out)
  }

  /** The reference evaluator gives what the tree means, and a tree means nothing else. */
  lemma {:induction false} EvalMeans<F(!new)>(h: Host<F>, e: Tree, out: Result<Value<F>, EvalError>)
    requires Fits(e, 1)
    ensures TreeMeans(h, e, out) <==> out == Eval(h, e)
    decreases e, 0
  {
    hide Means, NegationMeans, NotMeans, Combine, Negate, Not, Level, NumberValue;
    match e
    case Num(text) => NumberMeans(h, text, out);
    case Lit(_) =>
    case Name(_) =>
    case Neg(x) =>
      OperandMeans(h, x);
      if Eval(h, x).Ok? { UnaryMeans(h, Eval(h, x).value, out); }
    case Negation(x) =>
      OperandMeans(h, x);
      if Eval(h, x).Ok? { UnaryMeans(h, Eval(h, x).value, out); }
    case Bin(op, l, r) =>
      OperandMeans(h, l);
      OperandMeans(h, r);
      assert Eval(h, l).Ok? ==> TreeMeans(h, l, Ok(Eval(h, l).value));
      assert Eval(h, r).Ok? ==> TreeMeans(h, r, Ok(Eval(h, r).value));
      if Eval(h, l).Ok? && Eval(h, r).Ok? { CombineMeans(h, op, Eval(h, l).value, Eval(h, r).value, out); }
    case Paren(x) => EvalMeans(h, x, out);
  }

  lemma {:induction false} OperandMeans<F(!new)>(h: Host<F>, e: Tree)
    requires Fits(e, 1)
    ensures forall out :: TreeMeans(h, e, out) <==> out == Eval(h, e)
    decreases e, 1
  {
    forall out ensures TreeMeans(h, e, out) <==> out == Eval(h, e) { EvalMeans(h, e, out); }
  }

  // ---------------------------------------------------------------------------
  // Precedence and grouping
  // ---------------------------------------------------------------------------

  predicate Multiplies(op: string) { op == "*" || op == "/" || op == "%" }

  predicate Adds(op: string) { op == "+" || op == "-" }

  /** `a` takes its operands before `b` does, wherever they stand side by side. */
  predicate Tighter(a: string, b: string) {
    || (Multiplies(a) && !Multiplies(b))
    || (Adds(a) && !Multiplies(b) && !Adds(b))
    || (Comparison(a) && Logical(b))
    || (a == "and" && b == "or")
  }

  /** Of two operators the tighter one groups first, and of two alike the left one; signs and `not` group before both. */
  lemma {:induction false} Grouping<F>(h: Host<F>, x: Tree, first: string, y: Tree, second: string, z: Tree)
    requires Fits(x, 6) && Fits(y, 6) && Fits(z, 6) && Level(first) > 0 && Level(second) > 0
    ensures EvaluateTokens(h, Print(x) + [Operator(first)] + Print(y) + [Operator(second)] + Print(z) + [End]) ==
      Eval(h, if Tighter(second, first) then Bin(first, x, Bin(second, y, z)) else Bin(second, Bin(first, x, y), z))
  {
    var e := if Tighter(second, first) then Bin(first, x, Bin(second, y, z)) else Bin(second, Bin(first, x, y), z);
    GroupingFits(x, first, y, second, z);
    assert Print(e) == Print(x) + [Operator(first)] + Print(y) + [Operator(second)] + Print(z);
    hide Print, Fits, Tighter, Level;
    PrintedTreeEvaluates(h, e);
  }

  lemma {:induction false} GroupingFits(x: Tree, first: string, y: Tree, second: string, z: Tree)
    requires Fits(x, 6) && Fits(y, 6) && Fits(z, 6) && Level(first) > 0 && Level(second) > 0
    ensures Fits(if Tighter(second, first) then Bin(first, x, Bin(second, y, z)) else Bin(second, Bin(first, x, y), z), 1)
  {
    FitsBelow(x, Level(first));
    FitsBelow(y, Level(first) + 1);
    FitsBelow(y, Level(second));
    FitsBelow(z, Level(second) + 1);
  }

  lemma FitsBelow(e: Tree, k: nat)
    requires Fits(e, 6) && k <= 6
    ensures Fits(e, k)
  {
  }
}
