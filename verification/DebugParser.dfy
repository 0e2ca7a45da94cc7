/** The evaluate-while-parsing parser of debugger expressions. */
module DebugParser {
  import opened Wrappers
  import opened DebugValues
  import opened Text

  datatype Token =
    | Identifier(name: string) | Number(text: string) | Str(s: string) | Operator(op: string)
    | LeftParen | RightParen | End

  datatype Step<F> = Good(value: Value<F>, next: nat) | Bad(error: EvalError)

  function Peek(ts: seq<Token>, c: nat): Token {
    if c < |ts| then ts[c] else End
  }

  /** How tightly the operator at `c` binds, or 0 when there is none. */
  function LevelAt(ts: seq<Token>, c: nat): (k: nat)
    ensures k <= 5 && (k > 0 ==> c < |ts| && ts[c].Operator?)
  {
    if Peek(ts, c).Operator? then Level(Peek(ts, c).op) else 0
  }

  function ParseInteger(text: string): Option<int> {
    if text == "" || !AllDigits(text) then None
    else if DecimalValue(text) > MAX then None
    else Some(DecimalValue(text))
  }

  function NumberValue<F>(h: Host<F>, text: string): Result<Value<F>, EvalError> {
    if '.' in text then
      if h.parseFloat(text).Some? then Ok(Float(h.parseFloat(text).value)) else Err(InvalidNumber(text))
    else if ParseInteger(text).Some? then Ok(Integer(ParseInteger(text).value)) else Err(InvalidInteger(text))
  }

  function NameValue<F>(h: Host<F>, name: string): Result<Value<F>, EvalError> {
    if name == "true" then Ok(Boolean(true))
    else if name == "false" then Ok(Boolean(false))
    else if h.lookup(name).Some? then Ok(h.lookup(name).value) else Err(Lookup(name))
  }

  function At<F>(r: Result<Value<F>, EvalError>, next: nat): Step<F> {
    if r.Ok? then Good(r.value, next) else Bad(r.error)
  }

  /** Parses and evaluates from token `c`: levels 1 to 5 are the binary operators, 6 unary, 7 primary. */
  function ParseLevel<F>(h: Host<F>, ts: seq<Token>, k: nat, c: nat): (r: Step<F>)
    requires 1 <= k <= 7 && c <= |ts|
    ensures r.Good? ==> c < r.next <= |ts|
    decreases |ts| - c, 1, 7 - k
  {
    if k <= 5 then
      var first := ParseLevel(h, ts, k + 1, c);
      if first.Bad? then first else Loop(h, ts, k, first.value, first.next)
    else if k == 6 then
      if Peek(ts, c) == Operator("-") || Peek(ts, c) == Operator("not") then
        var operand := ParseLevel(h, ts, 6, c + 1);
        if operand.Bad? then operand
        else At(if Peek(ts, c) == Operator("-") then Negate(h, operand.value) else Not(operand.value), operand.next)
      else ParseLevel(h, ts, 7, c)
    else match Peek(ts, c)
      case Number(text) => At(NumberValue(h, text), c + 1)
      case Str(s) => Good(Text(s), c + 1)
      case Identifier(name) => At(NameValue(h, name), c + 1)
      case LeftParen =>
        var inner := ParseLevel(h, ts, 1, c + 1);
        if inner.Bad? then inner
        else if Peek(ts, inner.next) != RightParen then Bad(MissingParenthesis)
        else Good(inner.value, inner.next + 1)
      case _ => Bad(ExpectedOperand)
  }

  /** The operators of one level, folded to the left onto `value`. */
  function Loop<F>(h: Host<F>, ts: seq<Token>, k: nat, value: Value<F>, c: nat): (r: Step<F>)
    requires 1 <= k <= 5 && c <= |ts|
    ensures r.Good? ==> c <= r.next <= |ts|
    decreases |ts| - c, 0
  {
    if LevelAt(ts, c) != k then Good(value, c)
    else
      var right := ParseLevel(h, ts, k + 1, c + 1);
      if right.Bad? then right
      else
        var v := Combine(h, ts[c].op, value, right.value);
        if v.Err? then Bad(v.error) else Loop(h, ts, k, v.value, right.next)
  }

  function EvaluateTokens<F>(h: Host<F>, ts: seq<Token>): Result<Value<F>, EvalError> {
    var r := ParseLevel(h, ts, 1, 0);
    if r.Bad? then Err(r.error)
    else if Peek(ts, r.next) != End then Err(TrailingTokens)
    else Ok(r.value)
  }

  class DebugExpressionParser<F> {
    const host: Host<F>
    const tokens: seq<Token>
    var cursor: nat

    constructor (h: Host<F>, ts: seq<Token>)
      ensures host == h && tokens == ts && cursor == 0
    {
      host, tokens, cursor := h, ts, 0;
    }

    ghost predicate Valid()
      reads this
    {
      cursor <= |tokens|
    }

    /** The outcome of parsing level `k` from where the cursor was: the value, and the cursor after it. */
    ghost predicate Did(k: nat, before: nat, r: Result<Value<F>, EvalError>)
      requires 1 <= k <= 7 && before <= |tokens|
      reads this
    {
      Valid() && match ParseLevel(host, tokens, k, before)
                 case Good(v, next) => r == Ok(v) && cursor == next
                 case Bad(e) => r == Err(e)
    }

    method TakeOperator(expected: string) returns (taken: bool)
      requires Valid()
      modifies this
      ensures Valid() && taken == (Peek(tokens, old(cursor)) == Operator(expected))
      ensures cursor == if taken then old(cursor) + 1 else old(cursor)
    {
      taken := Peek(tokens, cursor) == Operator(expected);
      if taken {
        cursor := cursor + 1;
      }
    }

    method ParseOr() returns (r: Result<Value<F>, EvalError>)
      requires Valid()
      modifies this
      ensures Did(1, old(cursor), r)
      decreases |tokens| - cursor, 6
    {
      r := ParseAnd();
      if r.Err? {
        return;
      }
      var value := r.value;
      var taken := true;
      while taken
        invariant Valid() && old(cursor) < cursor
        invariant taken ==> Loop(host, tokens, 1, value, cursor) == ParseLevel(host, tokens, 1, old(cursor))
        invariant !taken ==> Good(value, cursor) == ParseLevel(host, tokens, 1, old(cursor))
        decreases |tokens| - cursor, taken
      {
        taken := TakeOperator("or");
        if taken {
          var right := ParseAnd();
          if right.Err? {
            return right;
          }
          r := Connect("or", value, right.value);
          if r.Err? {
            return;
          }
          value := r.value;
        }
      }
      return Ok(value);
    }

    method ParseAnd() returns (r: Result<Value<F>, EvalError>)
      requires Valid()
      modifies this
      ensures Did(2, old(cursor), r)
      decreases |tokens| - cursor, 5
    {
      r := ParseComparison();
      if r.Err? {
        return;
      }
      var value := r.value;
      var taken := true;
      while taken
        invariant Valid() && old(cursor) < cursor
        invariant taken ==> Loop(host, tokens, 2, value, cursor) == ParseLevel(host, tokens, 2, old(cursor))
        invariant !taken ==> Good(value, cursor) == ParseLevel(host, tokens, 2, old(cursor))
        decreases |tokens| - cursor, taken
      {
        taken := TakeOperator("and");
        if taken {
          var right := ParseComparison();
          if right.Err? {
            return right;
          }
          r := Connect("and", value, right.value);
          if r.Err? {
            return;
          }
          value := r.value;
        }
      }
      return Ok(value);
    }

    method ParseComparison() returns (r: Result<Value<F>, EvalError>)
      requires Valid()
      modifies this
      ensures Did(3, old(cursor), r)
      decreases |tokens| - cursor, 4
    {
      hide NumberValue, NameValue, Negate, Not;
      r := ParseAdditive();
      if r.Err? {
        return;
      }
      var value := r.value;
      while Peek(tokens, cursor).Operator? && Peek(tokens, cursor).op in ["==", "!=", "<", "<=", ">", ">="]
        invariant Valid() && old(cursor) < cursor
        invariant Loop(host, tokens, 3, value, cursor) == ParseLevel(host, tokens, 3, old(cursor))
        decreases |tokens| - cursor
      {
        var operator := Peek(tokens, cursor).op;
        cursor := cursor + 1;
        var right := ParseAdditive();
        if right.Err? {
          return right;
        }
        r := CompareValues(host, operator, value, right.value);
        if r.Err? {
          return;
        }
        value := r.value;
      }
      return Ok(value);
    }

    method ParseAdditive() returns (r: Result<Value<F>, EvalError>)
      requires Valid()
      modifies this
      ensures Did(4, old(cursor), r)
      decreases |tokens| - cursor, 3
    {
      hide NumberValue, NameValue, Negate, Not;
      r := ParseMultiplicative();
      if r.Err? {
        return;
      }
      var value := r.value;
      while true
        invariant Valid() && old(cursor) < cursor
        invariant Loop(host, tokens, 4, value, cursor) == ParseLevel(host, tokens, 4, old(cursor))
        decreases |tokens| - cursor
      {
        var operator := "+";
        var taken := TakeOperator("+");
        if !taken {
          operator := "-";
          taken := TakeOperator("-");
        }
        if !taken {
          return Ok(value);
        }
        var right := ParseMultiplicative();
        if right.Err? {
          return right;
        }
        r := ArithmeticValues(host, operator, value, right.value);
        if r.Err? {
          return;
        }
        value := r.value;
      }
    }

    method ParseMultiplicative() returns (r: Result<Value<F>, EvalError>)
      requires Valid()
      modifies this
      ensures Did(5, old(cursor), r)
      decreases |tokens| - cursor, 2
    {
      hide ArithmeticValues;
      hide NumberValue, NameValue, Negate, Not;
      r := ParseUnary();
      if r.Err? {
        return;
      }
      var value := r.value;
      while true
        invariant Valid() && old(cursor) < cursor
        invariant Loop(host, tokens, 5, value, cursor) == ParseLevel(host, tokens, 5, old(cursor))
        decreases |tokens| - cursor
      {
        var operator := "*";
        var taken := TakeOperator("*");
        if !taken {
          operator := "/";
          taken := TakeOperator("/");
        }
        if !taken {
          operator := "%";
          taken := TakeOperator("%");
        }
        if !taken {
          return Ok(value);
        }
        var right := ParseUnary();
        if right.Err? {
          return right;
        }
        r := ArithmeticValues(host, operator, value, right.value);
        if r.Err? {
          return;
        }
        value := r.value;
      }
    }

    method ParseUnary() returns (r: Result<Value<F>, EvalError>)
      requires Valid()
      modifies this
      ensures Did(6, old(cursor), r)
      decreases |tokens| - cursor, 1
    {
      var taken := TakeOperator("-");
      if taken {
        r := ParseUnary();
        if r.Ok? {
          r := Negate(host, r.value);
        }
        return;
      }
      taken := TakeOperator("not");
      if taken {
        r := ParseUnary();
        if r.Ok? {
          r := Not(r.value);
        }
        return;
      }
      r := ParsePrimary();
    }

    method ParsePrimary() returns (r: Result<Value<F>, EvalError>)
      requires Valid()
      modifies this
      ensures Did(7, old(cursor), r)
      decreases |tokens| - cursor, 0
    {
      match Peek(tokens, cursor) {
        case Number(text) =>
          cursor := cursor + 1;
          r := NumberValue(host, text);
        case Str(s) =>
          cursor := cursor + 1;
          r := Ok(Text(s));
        case Identifier(name) =>
          cursor := cursor + 1;
          r := NameValue(host, name);
        case LeftParen =>
          cursor := cursor + 1;
          r := ParseOr();
          if r.Ok? {
            if Peek(tokens, cursor) != RightParen {
              return Err(MissingParenthesis);
            }
            cursor := cursor + 1;
          }
        case _ => r := Err(ExpectedOperand);
      }
    }
  }

  method EvaluateDebugTokens<F>(h: Host<F>, ts: seq<Token>) returns (r: Result<Value<F>, EvalError>)
    ensures r == EvaluateTokens(h, ts)
  {
    var parser := new DebugExpressionParser(h, ts);
    r := parser.ParseOr();
    if r.Ok? && Peek(ts, parser.cursor) != End {
      r := Err(TrailingTokens);
    }
  }
}
