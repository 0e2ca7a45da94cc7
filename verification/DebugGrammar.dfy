/**
  The reference: expression trees, their value, and their text. The parser accepts exactly
  the printed trees and returns exactly their values and errors.
*/
module DebugGrammar {
  import opened Wrappers
  import opened DebugValues
  import opened DebugParser

  datatype Tree =
    | Num(text: string) | Lit(s: string) | Name(name: string)
    | Neg(operand: Tree) | Negation(operand: Tree)
    | Bin(op: string, l: Tree, r: Tree)
    | Paren(inner: Tree)

  /** The value of a tree: operands from left to right, then the operation. */
  function Eval<F>(h: Host<F>, e: Tree): Result<Value<F>, EvalError> {
    match e
    case Num(text) => NumberValue(h, text)
    case Lit(s) => Ok(Text(s))
    case Name(name) => NameValue(h, name)
    case Neg(x) => (match Eval(h, x) case Ok(v) => Negate(h, v) case Err(error) => Err(error))
    case Negation(x) => (match Eval(h, x) case Ok(v) => Not(v) case Err(error) => Err(error))
    case Bin(op, l, r) =>
      (match Eval(h, l)
       case Err(error) => Err(error)
       case Ok(a) => (match Eval(h, r) case Err(error) => Err(error) case Ok(b) => Combine(h, op, a, b)))
    case Paren(x) => Eval(h, x)
  }

  function Tightness(e: Tree): (k: nat)
    ensures k <= 7
  {
    match e
    case Bin(op, _, _) => Level(op)
    case Neg(_) => 6
    case Negation(_) => 6
    case _ => 7
  }

  /** `e` may stand where level `k` is expected: precedences respected, operators associating to the left. */
  predicate Fits(e: Tree, k: nat) {
    Tightness(e) >= k &&
    match e
    case Bin(op, l, r) => Level(op) > 0 && Fits(l, Level(op)) && Fits(r, Level(op) + 1)
    case Neg(x) => Fits(x, 6)
    case Negation(x) => Fits(x, 6)
    case Paren(x) => Fits(x, 1)
    case _ => true
  }

  function Print(e: Tree): (ts: seq<Token>)
    ensures ts != []
  {
    match e
    case Num(text) => [Number(text)]
    case Lit(s) => [Str(s)]
    case Name(name) => [Identifier(name)]
    case Neg(x) => [Operator("-")] + Print(x)
    case Negation(x) => [Operator("not")] + Print(x)
    case Bin(op, l, r) => Print(l) + [Operator(op)] + Print(r)
    case Paren(x) => [LeftParen] + Print(x) + [RightParen]
  }

  /** The tokens of `e` stand at `c`. */
  ghost predicate Stands(ts: seq<Token>, c: nat, e: Tree) {
    c + |Print(e)| <= |ts| && ts[c..c + |Print(e)|] == Print(e)
  }

  /** After a complete operand with value `v`, level `k` goes on with its own operators. */
  function Continue<F>(h: Host<F>, ts: seq<Token>, k: nat, v: Value<F>, c: nat): Step<F>
    requires 1 <= k <= 7 && c <= |ts|
  {
    if k <= 5 then Loop(h, ts, k, v, c) else Good(v, c)
  }

  /** Where a tree stands and no tighter operator follows, the parser computes its value. */
  lemma {:induction false} Complete<F>(h: Host<F>, ts: seq<Token>, e: Tree, k: nat, c: nat)
    requires 1 <= k <= 7 && Fits(e, k) && Stands(ts, c, e)
    requires LevelAt(ts, c + |Print(e)|) <= k
    ensures ParseLevel(h, ts, k, c) ==
      match Eval(h, e) case Err(error) => Bad(error) case Ok(v) => Continue(h, ts, k, v, c + |Print(e)|)
    decreases e, 7 - k
  {
    hide Combine, NumberValue, NameValue, Negate;
    if Tightness(e) > k {
      CompleteTighter(h, ts, e, k, c);
    } else if k <= 5 {
      CompleteBinary(h, ts, e, k, c);
    } else if k == 6 {
      UnaryStands(ts, c, e);
      Complete(h, ts, e.operand, 6, c + 1);
    } else {
      CompletePrimary(h, ts, e, c);
    }
  }

  lemma {:induction false} CompleteTighter<F>(h: Host<F>, ts: seq<Token>, e: Tree, k: nat, c: nat)
    requires 1 <= k < 7 && Fits(e, k) && Stands(ts, c, e) && Tightness(e) > k
    requires LevelAt(ts, c + |Print(e)|) <= k
    ensures ParseLevel(h, ts, k, c) ==
      match Eval(h, e) case Err(error) => Bad(error) case Ok(v) => Continue(h, ts, k, v, c + |Print(e)|)
    decreases e, 7 - k, 0
  {
    hide Combine, NumberValue, NameValue, Negate;
    Complete(h, ts, e, k + 1, c);
    if k == 6 {
      assert ts[c] == Print(e)[0];
      assert !Print(e)[0].Operator?;
    }
  }

  lemma {:induction false} BinaryStands(ts: seq<Token>, c: nat, e: Tree)
    requires e.Bin? && Stands(ts, c, e)
    ensures
      var n := |Print(e.l)|;
      && Stands(ts, c, e.l) && c + n < |ts| && ts[c + n] == Operator(e.op)
      && Stands(ts, c + n + 1, e.r) && |Print(e)| == n + 1 + |Print(e.r)|
  {
    assert Print(e) == Print(e.l) + [Operator(e.op)] + Print(e.r);
    hide Print;
    SplitAround(ts, c, Print(e.l), Operator(e.op), Print(e.r));
  }

  lemma SplitAround(ts: seq<Token>, c: nat, a: seq<Token>, x: Token, b: seq<Token>)
    requires c + |a| + 1 + |b| <= |ts| && ts[c..c + |a| + 1 + |b|] == a + [x] + b
    ensures ts[c..c + |a|] == a && ts[c + |a|] == x && ts[c + |a| + 1..c + |a| + 1 + |b|] == b
  {
    var whole := ts[c..c + |a| + 1 + |b|];
    assert ts[c..c + |a|] == whole[..|a|] && ts[c + |a|] == whole[|a|];
    assert ts[c + |a| + 1..c + |a| + 1 + |b|] == whole[|a| + 1..];
  }

  lemma UnaryStands(ts: seq<Token>, c: nat, e: Tree)
    requires (e.Neg? || e.Negation?) && Stands(ts, c, e)
    ensures Stands(ts, c + 1, e.operand) && ts[c] == Operator(if e.Neg? then "-" else "not") && |Print(e)| == |Print(e.operand)| + 1
  {
    var op, inner := Operator(if e.Neg? then "-" else "not"), Print(e.operand);
    assert Print(e) == [op] + inner;
    hide Print;
    assert [op] + inner == [] + [op] + inner;
    SplitAround(ts, c, [], op, inner);
  }

  lemma ParenStands(ts: seq<Token>, c: nat, e: Tree)
    requires e.Paren? && Stands(ts, c, e)
    ensures
      var n := |Print(e.inner)|;
      Stands(ts, c + 1, e.inner) && ts[c] == LeftParen && ts[c + 1 + n] == RightParen && |Print(e)| == n + 2
  {
    var inner := Print(e.inner);
    assert Print(e) == [LeftParen] + inner + [RightParen];
    hide Print;
    SplitAround(ts, c, [], LeftParen, inner + [RightParen]);
    SplitAround(ts, c + 1, inner, RightParen, []);
  }

  lemma {:induction false} CompleteBinary<F>(h: Host<F>, ts: seq<Token>, e: Tree, k: nat, c: nat)
    requires 1 <= k <= 5 && e.Bin? && Level(e.op) == k && Fits(e, k) && Stands(ts, c, e)
    requires LevelAt(ts, c + |Print(e)|) <= k
    ensures ParseLevel(h, ts, k, c) ==
      match Eval(h, e) case Err(error) => Bad(error) case Ok(v) => Loop(h, ts, k, v, c + |Print(e)|)
    decreases e, 7 - k, 0
  {
    hide Combine, Level, Stands, Print, ParseLevel;
    var Bin(op, l, r) := e;
    var n := |Print(l)|;
    BinaryStands(ts, c, e);
    Complete(h, ts, l, k, c);
    Complete(h, ts, r, k + 1, c + n + 1);
  }

  lemma {:induction false} CompletePrimary<F>(h: Host<F>, ts: seq<Token>, e: Tree, c: nat)
    requires Fits(e, 7) && Stands(ts, c, e)
    ensures ParseLevel(h, ts, 7, c) ==
      match Eval(h, e) case Err(error) => Bad(error) case Ok(v) => Good(v, c + |Print(e)|)
    decreases e, 0, 0
  {
    hide Combine, NumberValue, NameValue, Negate, Not, Level;
    assert ts[c] == ts[c..c + |Print(e)|][0] == Print(e)[0];
    if e.Paren? {
      ParenStands(ts, c, e);
      Complete(h, ts, e.inner, 1, c + 1);
    }
  }

  /** Whatever the parser accepts is a printed tree with the value it returns. */
  lemma {:induction false} Sound<F>(h: Host<F>, ts: seq<Token>, k: nat, c: nat) returns (e: Tree)
    requires 1 <= k <= 7 && c <= |ts| && ParseLevel(h, ts, k, c).Good?
    ensures
      var r := ParseLevel(h, ts, k, c);
      Fits(e, k) && Print(e) == ts[c..r.next] && Eval(h, e) == Ok(r.value)
    decreases |ts| - c, 1, 7 - k, 1
  {
    hide Combine, Level, NumberValue, NameValue;
    if k <= 5 {
      var first := ParseLevel(h, ts, k + 1, c);
      e := Sound(h, ts, k + 1, c);
      FitsLooser(e, k);
      e := SoundLoop(h, ts, k, first.value, c, first.next, e);
    } else if k == 6 {
      e := SoundUnary(h, ts, c);
    } else {
      e := SoundPrimary(h, ts, c);
    }
  }

  lemma SliceBetween(ts: seq<Token>, c: nat, n: nat)
    requires c + 1 < n <= |ts|
    ensures ts[c..n] == [ts[c]] + ts[c + 1..n - 1] + [ts[n - 1]]
  {
  }

  lemma SliceCons(ts: seq<Token>, c: nat, n: nat)
    requires c < n <= |ts|
    ensures ts[c..n] == [ts[c]] + ts[c + 1..n]
  {
  }

  lemma {:induction false} SoundUnary<F>(h: Host<F>, ts: seq<Token>, c: nat) returns (e: Tree)
    requires c <= |ts| && ParseLevel(h, ts, 6, c).Good?
    ensures
      var r := ParseLevel(h, ts, 6, c);
      Fits(e, 6) && Print(e) == ts[c..r.next] && Eval(h, e) == Ok(r.value)
    decreases |ts| - c, 1, 1, 0
  {
    hide Combine, Level, Negate;
    var r := ParseLevel(h, ts, 6, c);
    if Peek(ts, c) == Operator("-") || Peek(ts, c) == Operator("not") {
      var x := Sound(h, ts, 6, c + 1);
      e := if Peek(ts, c) == Operator("-") then Neg(x) else Negation(x);
      SliceCons(ts, c, r.next);
    } else {
      e := Sound(h, ts, 7, c);
    }
  }

  lemma {:induction false} SoundPrimary<F>(h: Host<F>, ts: seq<Token>, c: nat) returns (e: Tree)
    requires c <= |ts| && ParseLevel(h, ts, 7, c).Good?
    ensures
      var r := ParseLevel(h, ts, 7, c);
      Fits(e, 7) && Print(e) == ts[c..r.next] && Eval(h, e) == Ok(r.value)
    decreases |ts| - c, 1, 0, 0
  {
    hide Combine, Level, NumberValue, NameValue;
    var r := ParseLevel(h, ts, 7, c);
    match Peek(ts, c)
    case Number(text) => e := Num(text);
    case Str(s) => e := Lit(s);
    case Identifier(name) => e := Name(name);
    case LeftParen =>
      var x := Sound(h, ts, 1, c + 1);
      e := Paren(x);
      SliceBetween(ts, c, r.next);
  }

  lemma FitsLooser(e: Tree, k: nat)
    requires Fits(e, k + 1)
    ensures Fits(e, k)
  {
  }

  lemma {:induction false} SoundLoop<F>(h: Host<F>, ts: seq<Token>, k: nat, value: Value<F>, start: nat, c: nat, so_far: Tree) returns (e: Tree)
    requires 1 <= k <= 5 && start <= c <= |ts| && Loop(h, ts, k, value, c).Good?
    requires Fits(so_far, k) && Print(so_far) == ts[start..c] && Eval(h, so_far) == Ok(value)
    ensures
      var r := Loop(h, ts, k, value, c);
      Fits(e, k) && Print(e) == ts[start..r.next] && Eval(h, e) == Ok(r.value)
    decreases |ts| - c, 0
  {
    hide Combine, Level, ParseLevel;
    e := so_far;
    if LevelAt(ts, c) == k {
      var right := ParseLevel(h, ts, k + 1, c + 1);
      var x := Sound(h, ts, k + 1, c + 1);
      e := Bin(ts[c].op, so_far, x);
      assert ts[start..right.next] == ts[start..c] + [ts[c]] + ts[c + 1..right.next];
      e := SoundLoop(h, ts, k, Combine(h, ts[c].op, value, right.value).value, start, right.next, e);
    }
  }

  /** For every printed tree the parser consumes all tokens and returns the tree's value or error. */
  lemma {:induction false} PrintedTreeEvaluates<F>(h: Host<F>, e: Tree)
    requires Fits(e, 1)
    ensures EvaluateTokens(h, Print(e) + [End]) == Eval(h, e)
  {
    var ts := Print(e) + [End];
    assert ts[0..|Print(e)|] == Print(e);
    Complete(h, ts, e, 1, 0);
  }

  lemma EndsAtEnd(body: seq<Token>, n: nat, printed: seq<Token>)
    requires End !in body && End !in printed && 0 < n <= |body| + 1 && printed == (body + [End])[0..n]
    requires Peek(body + [End], n) == End
    ensures n == |body|
  {
    assert printed[n - 1] in printed;
  }

  /** The parser accepts a token list with a value exactly when it prints a tree with that value. */
  lemma {:induction false} ParserIsAdequate<F>(h: Host<F>, body: seq<Token>, v: Value<F>)
    requires End !in body
    ensures EvaluateTokens(h, body + [End]) == Ok(v)
      <==> exists e :: Fits(e, 1) && Print(e) == body && Eval(h, e) == Ok(v)
  {
    var ts := body + [End];
    if EvaluateTokens(h, ts) == Ok(v) {
      var r := ParseLevel(h, ts, 1, 0);
      var e := Sound(h, ts, 1, 0);
      PrintHasNoEnd(e);
      EndsAtEnd(body, r.next, Print(e));
      assert Print(e) == body;
    }
    forall e | Fits(e, 1) && Print(e) == body && Eval(h, e) == Ok(v) ensures EvaluateTokens(h, ts) == Ok(v) {
      PrintedTreeEvaluates(h, e);
    }
  }

  lemma {:induction false} PrintHasNoEnd(e: Tree)
    ensures End !in Print(e)
  {
    match e
    case Bin(_, l, r) => PrintHasNoEnd(l); PrintHasNoEnd(r);
    case Neg(x) => PrintHasNoEnd(x);
    case Negation(x) => PrintHasNoEnd(x);
    case Paren(x) => PrintHasNoEnd(x);
    case _ =>
  }

  // ---------------------------------------------------------------------------
  // Minimal parentheses
  // ---------------------------------------------------------------------------

  predicate Bare(e: Tree) {
    match e
    case Bin(op, l, r) => Level(op) > 0 && Bare(l) && Bare(r)
    case Neg(x) => Bare(x)
    case Negation(x) => Bare(x)
    case Paren(_) => false
    case _ => true
  }

  /** Adds parentheses only where a subtree binds looser than its place. */
  function Minimal(e: Tree, k: nat): Tree
    requires Bare(e)
    decreases e
  {
    var inner := match e
      case Bin(op, l, r) => Bin(op, Minimal(l, Level(op)), Minimal(r, Level(op) + 1))
      case Neg(x) => Neg(Minimal(x, 6))
      case Negation(x) => Negation(Minimal(x, 6))
      case _ => e;
    if Tightness(e) < k then Paren(inner) else inner
  }

  lemma {:induction false} MinimalFits(e: Tree, k: nat)
    requires Bare(e) && k <= 7
    ensures Fits(Minimal(e, k), k)
    decreases e
  {
    match e
    case Bin(op, l, r) => MinimalFits(l, Level(op)); MinimalFits(r, Level(op) + 1);
    case Neg(x) => MinimalFits(x, 6);
    case Negation(x) => MinimalFits(x, 6);
    case _ =>
  }

  lemma {:induction false} MinimalMeans<F>(h: Host<F>, e: Tree, k: nat)
    requires Bare(e)
    ensures Eval(h, Minimal(e, k)) == Eval(h, e)
    decreases e
  {
    hide Combine, NumberValue, NameValue, Negate, Not, Level;
    match e
    case Bin(op, l, r) => MinimalMeans(h, l, Level(op)); MinimalMeans(h, r, Level(op) + 1);
    case Neg(x) => MinimalMeans(h, x, 6);
    case Negation(x) => MinimalMeans(h, x, 6);
    case _ =>
  }

  /** The tree without its parentheses. */
  function Strip(e: Tree): Tree {
    match e
    case Bin(op, l, r) => Bin(op, Strip(l), Strip(r))
    case Neg(x) => Neg(Strip(x))
    case Negation(x) => Negation(Strip(x))
    case Paren(x) => Strip(x)
    case _ => e
  }

  lemma {:induction false} StripIsBare(f: Tree, k: nat)
    requires Fits(f, k)
    ensures Bare(Strip(f))
  {
    match f
    case Bin(op, l, r) => StripIsBare(l, Level(op)); StripIsBare(r, Level(op) + 1);
    case Neg(x) => StripIsBare(x, 6);
    case Negation(x) => StripIsBare(x, 6);
    case Paren(x) => StripIsBare(x, 1);
    case _ =>
  }

  /** No text that reads as this tree, whatever its parentheses, is shorter than the printed one. */
  lemma {:induction false} MinimalIsShortest(f: Tree, k: nat)
    requires Fits(f, k)
    ensures Bare(Strip(f)) && |Print(Minimal(Strip(f), k))| <= |Print(f)|
    decreases f
  {
    StripIsBare(f, k);
    match f
    case Bin(op, l, r) => MinimalIsShortest(l, Level(op)); MinimalIsShortest(r, Level(op) + 1);
    case Neg(x) => MinimalIsShortest(x, 6);
    case Negation(x) => MinimalIsShortest(x, 6);
    case Paren(x) =>
      MinimalIsShortest(x, 1);
      OneMorePair(Strip(x), k);
    case _ =>
  }

  lemma OneMorePair(e: Tree, k: nat)
    requires Bare(e)
    ensures |Print(Minimal(e, k))| <= |Print(Minimal(e, 1))| + 2
  {
  }

  /** An expression tree without parentheses, printed with the fewest, evaluates to its value. */
  lemma {:induction false} MinimalPrintEvaluates<F>(h: Host<F>, e: Tree)
    requires Bare(e)
    ensures EvaluateTokens(h, Print(Minimal(e, 1)) + [End]) == Eval(h, e)
  {
    MinimalFits(e, 1);
    MinimalMeans(h, e, 1);
    PrintedTreeEvaluates(h, Minimal(e, 1));
  }

  /** With variables in range, every integer the evaluator returns is a 64-bit integer. */
  lemma {:induction false} EvalInRange<F>(h: Host<F>, e: Tree)
    requires forall name :: h.lookup(name).Some? ==> InRange(h.lookup(name).value)
    ensures Eval(h, e).Ok? ==> InRange(Eval(h, e).value)
  {
    match e
    case Bin(op, l, r) =>
      EvalInRange(h, l);
      EvalInRange(h, r);
      if Eval(h, l).Ok? && Eval(h, r).Ok? { CombineInRange(h, op, Eval(h, l).value, Eval(h, r).value); }
    case Neg(x) =>
      EvalInRange(h, x);
      if Eval(h, x).Ok? { CombineInRange(h, "+", Eval(h, x).value, Eval(h, x).value); }
    case Negation(x) => EvalInRange(h, x);
    case Paren(x) => EvalInRange(h, x);
    case _ =>
  }
}
