/** Values of the debugger's expression evaluator and the operations on them. */
module DebugValues {
  import opened Wrappers

  datatype Value<F> = Integer(n: int) | Float(f: F) | Boolean(b: bool) | Text(s: string)

  /** `Crash` is an arithmetic panic: negating, or taking the remainder by -1 of, the least integer. */
  datatype EvalError =
    | TooLong | UnsupportedCharacter(c: char) | UnterminatedString | InvalidString
    | InvalidNumber(text: string) | InvalidInteger(text: string) | Lookup(name: string)
    | BooleanOperands | CannotCompare | NotANumber | NumericOperands
    | IntegerRemainderByZero | RemainderByZero | DivisionByZero
    | MissingParenthesis | ExpectedOperand | TrailingTokens | Crash

  /** What the evaluator is given: floating-point arithmetic, string decoding, and the stopped program. */
  datatype Host<!F> = Host(
    fromInt: int -> F,
    arith: (string, F, F) -> F,
    negate: F -> F,
    compare: (string, F, F) -> bool,
    isZero: F -> bool,
    parseFloat: string -> Option<F>,
    decode: string -> Option<string>,
    lookup: string -> Option<Value<F>>)

  const MIN: int := -0x8000_0000_0000_0000
  const MAX: int := 0x7FFF_FFFF_FFFF_FFFF

  function Saturate(n: int): int {
    if n < MIN then MIN else if n > MAX then MAX else n
  }

  /** The remainder with the sign of the dividend. */
  function Remainder(a: int, b: int): (r: int)
    requires b != 0
  {
    var d := if b < 0 then -b else b;
    if a >= 0 then a % d else -((-a) % d)
  }

  function Lexicographic(a: string, b: string): int {
    if a == b then 0 else if a == "" then -1 else if b == "" then 1
    else if a[0] != b[0] then (if a[0] < b[0] then -1 else 1)
    else Lexicographic(a[1..], b[1..])
  }

  function CompareSign(op: string, sign: int): bool {
    match op
    case "==" => sign == 0 case "!=" => sign != 0 case "<" => sign < 0
    case "<=" => sign <= 0 case ">" => sign > 0 case ">=" => sign >= 0
    case _ => false
  }

  function CompareValues<F>(h: Host<F>, op: string, l: Value<F>, r: Value<F>): Result<Value<F>, EvalError> {
    match (l, r)
    case (Integer(a), Integer(b)) => Ok(Boolean(CompareSign(op, a - b)))
    case (Integer(a), Float(b)) => Ok(Boolean(h.compare(op, h.fromInt(a), b)))
    case (Float(a), Integer(b)) => Ok(Boolean(h.compare(op, a, h.fromInt(b))))
    case (Float(a), Float(b)) => Ok(Boolean(h.compare(op, a, b)))
    case (Boolean(a), Boolean(b)) =>
      if op == "==" then Ok(Boolean(a == b)) else if op == "!=" then Ok(Boolean(a != b)) else Err(CannotCompare)
    case (Text(a), Text(b)) => Ok(Boolean(CompareSign(op, Lexicographic(a, b))))
    case _ => Err(CannotCompare)
  }

  predicate Numeric<F>(v: Value<F>) { v.Integer? || v.Float? }

  function AsFloat<F>(h: Host<F>, v: Value<F>): F
    requires Numeric(v)
  {
    if v.Integer? then h.fromInt(v.n) else v.f
  }

  function ArithmeticValues<F>(h: Host<F>, op: string, l: Value<F>, r: Value<F>): Result<Value<F>, EvalError> {
    if op == "+" && l.Text? && r.Text? then Ok(Text(l.s + r.s))
    else if !Numeric(l) || !Numeric(r) then Err(NumericOperands)
    else if l.Integer? && r.Integer? && op == "+" then Ok(Integer(Saturate(l.n + r.n)))
    else if l.Integer? && r.Integer? && op == "-" then Ok(Integer(Saturate(l.n - r.n)))
    else if l.Integer? && r.Integer? && op == "*" then Ok(Integer(Saturate(l.n * r.n)))
    else if l.Integer? && r.Integer? && op == "%" then
      if r.n == 0 then Err(IntegerRemainderByZero)
      else if l.n == MIN && r.n == -1 then Err(Crash)
      else Ok(Integer(Remainder(l.n, r.n)))
    else if op == "/" then
      if h.isZero(AsFloat(h, r)) then Err(DivisionByZero)
      else Ok(Float(h.arith(op, AsFloat(h, l), AsFloat(h, r))))
    else if op == "%" && h.isZero(AsFloat(h, r)) then Err(RemainderByZero)
    else Ok(Float(h.arith(op, AsFloat(h, l), AsFloat(h, r))))
  }

  /** The right operand is not looked at when the left one decides. */
  function Connect<F>(op: string, l: Value<F>, r: Value<F>): Result<Value<F>, EvalError> {
    if !l.Boolean? then Err(BooleanOperands)
    else if l.b == (op == "or") then Ok(l)
    else if !r.Boolean? then Err(BooleanOperands)
    else Ok(r)
  }

  function Negate<F>(h: Host<F>, v: Value<F>): Result<Value<F>, EvalError> {
    match v
    case Integer(n) => if n == MIN then Err(Crash) else Ok(Integer(-n))
    case Float(f) => Ok(Float(h.negate(f)))
    case _ => Err(NotANumber)
  }

  function Not<F>(v: Value<F>): Result<Value<F>, EvalError> {
    if v.Boolean? then Ok(Boolean(!v.b)) else Err(BooleanOperands)
  }

  /** The binary operators and how tightly they bind: 1 for `or` up to 5 for `*`; 0 for any other text. */
  function Level(op: string): (k: nat)
    ensures k <= 5
  {
    match op
    case "or" => 1 case "and" => 2
    case "==" => 3 case "!=" => 3 case "<" => 3 case "<=" => 3 case ">" => 3 case ">=" => 3
    case "+" => 4 case "-" => 4
    case "*" => 5 case "/" => 5 case "%" => 5
    case _ => 0
  }

  function Combine<F>(h: Host<F>, op: string, l: Value<F>, r: Value<F>): Result<Value<F>, EvalError> {
    if Level(op) <= 2 then Connect(op, l, r)
    else if Level(op) == 3 then CompareValues(h, op, l, r)
    else ArithmeticValues(h, op, l, r)
  }

  predicate InRange<F>(v: Value<F>) { v.Integer? ==> MIN <= v.n <= MAX }

  /** No operation leaves the 64-bit range. */
  lemma CombineInRange<F>(h: Host<F>, op: string, l: Value<F>, r: Value<F>)
    requires InRange(l) && InRange(r)
    ensures Combine(h, op, l, r).Ok? ==> InRange(Combine(h, op, l, r).value)
    ensures Negate(h, l).Ok? ==> InRange(Negate(h, l).value)
  {
    if l.Integer? && r.Integer? && r.n != 0 { RemainderBound(l.n, r.n); }
  }

  lemma RemainderBound(a: int, b: int)
    requires b != 0
    ensures -(if a < 0 then -a else a) <= Remainder(a, b) <= (if a < 0 then -a else a)
    ensures a >= 0 ==> Remainder(a, b) >= 0
    ensures a <= 0 ==> Remainder(a, b) <= 0
  {
    var d, m := if b < 0 then -b else b, if a < 0 then -a else a;
    assert m % d <= m by { ModBound(m, d); }
  }

  lemma ModBound(m: nat, d: nat)
    requires d > 0
    ensures m % d <= m
  {
    if m < d { assert m % d == m; } else { assert m % d < d; }
  }
}
