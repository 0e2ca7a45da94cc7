/**
  A reference evaluator for the intermediate representation, before and after the pass.

  It is not type-erased: it carries the type arguments of the running function, because a
  call on a type parameter (`T.default()`) is resolved by the type bound to `T`. A generic
  call runs the template itself under the type arguments its argument types dictate.
  `fuel` bounds calls, constant evaluations and loop iterations, so that running out
  stands for not terminating.
*/
module HirEval {
  import opened Wrappers
  import opened Hir
  import opened TypeInference
  import opened CallInference
  import opened Monomorph
  import opened MonoModule

  datatype Value = VInt(n: int) | VBool(b: bool) | VUnit | VList(items: seq<Value>) | VFunc(name: string)

  type Env = map<string, Value>

  datatype Res = Val(v: Value) | Stuck | OutOfFuel

  datatype Values = Vals(vs: seq<Value>) | NoVals(why: Res)

  /** A statement continues with new variables, or ends the call. */
  datatype Flow = Next(env: Env) | Done(res: Res)

  function Lookup(funcs: seq<Func>, name: string): (r: Option<Func>)
    ensures r.Some? ==> r.value in funcs && r.value.name == name
    ensures r.None? ==> forall f | f in funcs :: f.name != name
  {
    if funcs == [] then None
    else if funcs[0].name == name then Some(funcs[0])
    else Lookup(funcs[1..], name)
  }

  function LookupConst(consts: seq<Const>, name: string): (r: Option<Const>)
    ensures r.Some? ==> r.value in consts && r.value.name == name
  {
    if consts == [] then None
    else if consts[0].name == name then Some(consts[0])
    else LookupConst(consts[1..], name)
  }

  function Apply(op: BinOp, a: Value, b: Value): (r: Res)
    ensures r.Val? ==> r.v.VInt? || r.v.VBool?
  {
    match (op, a, b)
    case (Add, VInt(x), VInt(y)) => Val(VInt(x + y))
    case (Sub, VInt(x), VInt(y)) => Val(VInt(x - y))
    case (Mul, VInt(x), VInt(y)) => Val(VInt(x * y))
    case (Less, VInt(x), VInt(y)) => Val(VBool(x < y))
    case (Equal, VInt(x), VInt(y)) => Val(VBool(x == y))
    case (Equal, VBool(x), VBool(y)) => Val(VBool(x == y))
    case _ => Stuck
  }

  // ---------------------------------------------------------------------------
  // Binding arguments
  // ---------------------------------------------------------------------------

  /** What a call site says about its arguments, apart from their expressions. */
  datatype Shape = Shape(tags: seq<Tag>, spreads: seq<bool>)

  function ShapeOf(args: seq<Arg>): (r: Shape)
    ensures |r.tags| == |r.spreads| == |args|
  {
    Shape(Tags(args), seq(|args|, i requires 0 <= i < |args| => args[i].spread))
  }

  function Positional(n: nat): (r: Shape)
    ensures |r.tags| == |r.spreads| == n
  {
    Shape(seq(n, _ => None), seq(n, _ => false))
  }

  /** The values matched to parameter `i`, spread lists flattened. */
  function Collect(ms: seq<Match>, spreads: seq<bool>, vs: seq<Value>, i: nat): Option<seq<Value>>
    requires |spreads| == |vs| && forall k | 0 <= k < |ms| :: ms[k].1 < |vs|
  {
    if ms == [] then Some([])
    else
      var rest := Collect(ms[1..], spreads, vs, i);
      if ms[0].0 != i || rest.None? then rest
      else
        var v := vs[ms[0].1];
        if !spreads[ms[0].1] then Some([v] + rest.value)
        else if v.VList? then Some(v.items + rest.value)
        else None
  }

  function BindFrom(names: seq<string>, variadic: nat, ms: seq<Match>, spreads: seq<bool>, vs: seq<Value>, i: nat): Option<Env>
    requires |spreads| == |vs| && i <= |names| && forall k | 0 <= k < |ms| :: ms[k].1 < |vs|
    decreases |names| - i
  {
    if i == |names| then Some(map[])
    else
      var rest, mine := BindFrom(names, variadic, ms, spreads, vs, i + 1), Collect(ms, spreads, vs, i);
      if rest.None? || mine.None? then None
      else if i == variadic then Some(rest.value[names[i] := VList(mine.value)])
      else if |mine.value| == 1 then Some(rest.value[names[i] := mine.value[0]])
      else None
  }

  /** Binds every parameter; each must get one value, and a variadic one gets the list of its own. */
  function Bind(names: seq<string>, variadic: nat, shape: Shape, vs: seq<Value>): Option<Env>
    requires variadic <= |names| && |shape.tags| == |shape.spreads| == |vs|
  {
    MatchesInRange(names, variadic, shape.tags);
    var ms := Matches(names, variadic, shape.tags);
    if |ms| != |vs| then None else BindFrom(names, variadic, ms, shape.spreads, vs, 0)
  }

  // ---------------------------------------------------------------------------
  // Generic calls
  // ---------------------------------------------------------------------------

  function ExprParams(e: Expr): set<nat> {
    TyParams(e.ty) +
    match e.kind
    case Binary(_, lhs, rhs) => ExprParams(lhs) + ExprParams(rhs)
    case Call(callee, args) => ExprParams(callee) + ArgsParams(args)
    case AssociatedCall(receiver, _, operands) => TyParams(receiver) + ExprsParams(operands)
    case ListLit(elemTy, elements) => TyParams(elemTy) + ExprsParams(elements)
    case IfExpr(cond, thn, els) => ExprParams(cond) + ExprParams(thn) + ExprParams(els)
    case _ => {}
  }

  function ArgParams(a: Arg): set<nat> { ExprParams(a.value) }

  function ArgsParams(args: seq<Arg>): set<nat> {
    set i, p | 0 <= i < |args| && p in ArgParams(args[i]) :: p
  }

  function ExprsParams(es: seq<Expr>): set<nat> {
    set i, p | 0 <= i < |es| && p in ExprParams(es[i]) :: p
  }

  function StmtParams(st: Stmt): set<nat> {
    match st
    case Let(_, ty, value) => TyParams(ty) + ExprParams(value)
    case Assign(_, value) => ExprParams(value)
    case Return(result) => if result.Some? then ExprParams(result.value) else {}
    case Eval(value) => ExprParams(value)
    case If(cond, thn, els) => ExprParams(cond) + BlockParams(thn) + BlockParams(els)
    case While(cond, body) => ExprParams(cond) + BlockParams(body)
  }

  function BlockParams(b: seq<Stmt>): set<nat> {
    set i, p | 0 <= i < |b| && p in StmtParams(b[i]) :: p
  }

  /** Every type parameter that occurs in a function. */
  function FuncParams(f: Func): set<nat> {
    TyParams(f.returnTy) + (set i, p | 0 <= i < |f.params| && p in TyParams(f.params[i].ty) :: p) + BlockParams(f.body)
  }

  /** The parameters in the types of arguments, not those inside their expressions. */
  function ArgTyParams(args: seq<Arg>): set<nat> {
    set i, p | 0 <= i < |args| && p in TyParams(args[i].value.ty) :: p
  }

  /**
    `s` types a generic call: it gives the argument types, and the arguments determine every
    type parameter that occurs in the template.
  */
  ghost predicate Instantiates(f: Func, args: seq<Arg>, s: Subst) {
    var ms := CallMatches(f.params, args);
    && s.Keys == MatchParams(f.params, args, ms) && FuncParams(f) <= s.Keys
    && ProperSubst(s) && Typed(f.params, args, ms, s)
  }

  /**
    The type of an expression. Lowering leaves on a generic call the template's own return
    type, so that of a call of a template is worked out from its arguments.
  */
  ghost function ResolvedTy(ts: Templates, e: Expr): Ty
    decreases e, 0
  {
    if e.kind.Call? && e.kind.callee.kind.Var? && e.kind.callee.kind.name in ts then
      var f, args := ts[e.kind.callee.kind.name], Retyped(ts, e.kind.args);
      if i :| Instantiates(f, args, i) then SubstTy(f.returnTy, i) else e.ty
    else e.ty
  }

  ghost function RetypedArg(ts: Templates, a: Arg): Arg
    decreases a
  {
    a.(value := Expr(a.value.kind, ResolvedTy(ts, a.value)))
  }

  /** Arguments, each annotated with its type. */
  ghost function Retyped(ts: Templates, args: seq<Arg>): (r: seq<Arg>)
    ensures |r| == |args|
    decreases args
  {
    seq(|args|, i requires 0 <= i < |args| => RetypedArg(ts, args[i]))
  }

  // ---------------------------------------------------------------------------
  // Evaluation
  // ---------------------------------------------------------------------------

  predicate IsTemplate(m: Module, name: string) {
    Lookup(m.funcs, name).Some? && SignatureHasParam(Lookup(m.funcs, name).value)
  }

  ghost function EvalExpr(m: Module, s: Subst, e: Expr, env: Env, fuel: nat): Res
    decreases fuel, 1, e
  {
    match e.kind
    case BoolLit(b) => Val(VBool(b))
    case IntLit(n) => Val(VInt(n))
    case Unit => Val(VUnit)
    case Var(name) => EvalVar(m, name, env, fuel)
    case Binary(op, lhs, rhs) =>
      var l := EvalExpr(m, s, lhs, env, fuel);
      if !l.Val? then l else
      var r := EvalExpr(m, s, rhs, env, fuel);
      if !r.Val? then r else Apply(op, l.v, r.v)
    case Call(callee, args) =>
      if callee.kind.Var? && callee.kind.name !in env && IsTemplate(m, callee.kind.name) then
        var f := Lookup(m.funcs, callee.kind.name).value;
        var vs := EvalArgs(m, s, args, env, fuel);
        if vs.NoVals? then vs.why
        else if i :| Instantiates(f, Retyped(TemplatesOf(m.funcs), args), i) then
          Invoke(m, Compose(i, s), f, ShapeOf(args), vs.vs, fuel)
        else Stuck
      else
        var c := EvalExpr(m, s, callee, env, fuel);
        if !c.Val? then c else
        var vs := EvalArgs(m, s, args, env, fuel);
        if vs.NoVals? then vs.why else InvokeValue(m, c.v, ShapeOf(args), vs.vs, fuel)
    case AssociatedCall(receiver, member, operands) =>
      var vs := EvalExprs(m, s, operands, env, fuel);
      if vs.NoVals? then vs.why
      else if (SubstTy(receiver, s), member) in m.impls then
        InvokeValue(m, VFunc(m.impls[(SubstTy(receiver, s), member)]), Positional(|operands|), vs.vs, fuel)
      else Stuck
    case ListLit(_, elements) =>
      var vs := EvalExprs(m, s, elements, env, fuel);
      if vs.NoVals? then vs.why else Val(VList(vs.vs))
    case IfExpr(cond, thn, els) =>
      var c := EvalExpr(m, s, cond, env, fuel);
      if !c.Val? then c
      else if c.v == VBool(true) then EvalExpr(m, s, thn, env, fuel)
      else if c.v == VBool(false) then EvalExpr(m, s, els, env, fuel)
      else Stuck
  }

  /** A local, a function by name, or a constant; a template is no value. */
  ghost function EvalVar(m: Module, name: string, env: Env, fuel: nat): Res
    decreases fuel, 0
  {
    if name in env then Val(env[name])
    else if Lookup(m.funcs, name).Some? then if IsTemplate(m, name) then Stuck else Val(VFunc(name))
    else if LookupConst(m.consts, name).None? then Stuck
    else if fuel == 0 then OutOfFuel
    else EvalExpr(m, map[], LookupConst(m.consts, name).value.value, map[], fuel - 1)
  }

  ghost function EvalArg(m: Module, s: Subst, a: Arg, env: Env, fuel: nat): Res
    decreases fuel, 1, a
  {
    EvalExpr(m, s, a.value, env, fuel)
  }

  ghost function EvalArgs(m: Module, s: Subst, args: seq<Arg>, env: Env, fuel: nat): (r: Values)
    ensures r.Vals? ==> |r.vs| == |args|
    ensures r.NoVals? ==> !r.why.Val?
    decreases fuel, 1, args
  {
    if args == [] then Vals([])
    else
      var v := EvalArg(m, s, args[0], env, fuel);
      if !v.Val? then NoVals(v)
      else
        var rest := EvalArgs(m, s, args[1..], env, fuel);
        if rest.NoVals? then rest else Vals([v.v] + rest.vs)
  }

  ghost function EvalExprs(m: Module, s: Subst, es: seq<Expr>, env: Env, fuel: nat): (r: Values)
    ensures r.Vals? ==> |r.vs| == |es|
    ensures r.NoVals? ==> !r.why.Val?
    decreases fuel, 1, es
  {
    if es == [] then Vals([])
    else
      var v := EvalExpr(m, s, es[0], env, fuel);
      if !v.Val? then NoVals(v)
      else
        var rest := EvalExprs(m, s, es[1..], env, fuel);
        if rest.NoVals? then rest else Vals([v.v] + rest.vs)
  }

  ghost function InvokeValue(m: Module, v: Value, shape: Shape, vs: seq<Value>, fuel: nat): Res
    requires |shape.tags| == |shape.spreads| == |vs|
    decreases fuel, 0, 1
  {
    if v.VFunc? && Lookup(m.funcs, v.name).Some? && !IsTemplate(m, v.name) then
      Invoke(m, map[], Lookup(m.funcs, v.name).value, shape, vs, fuel)
    else Stuck
  }

  ghost function Invoke(m: Module, s: Subst, f: Func, shape: Shape, vs: seq<Value>, fuel: nat): Res
    requires |shape.tags| == |shape.spreads| == |vs|
    decreases fuel, 0, 0
  {
    var env := Bind(Names(f.params), VariadicIndex(f.params), shape, vs);
    if env.None? then Stuck
    else if fuel == 0 then OutOfFuel
    else
      var flow := EvalBlock(m, s, f.body, env.value, fuel - 1);
      if flow.Next? then Val(VUnit) else flow.res
  }

  ghost function EvalStmt(m: Module, s: Subst, st: Stmt, env: Env, fuel: nat): Flow
    decreases fuel, 1, st
  {
    match st
    case Let(name, _, value) =>
      var v := EvalExpr(m, s, value, env, fuel);
      if v.Val? then Next(env[name := v.v]) else Done(v)
    case Assign(name, value) =>
      var v := EvalExpr(m, s, value, env, fuel);
      if !v.Val? then Done(v) else if name in env then Next(env[name := v.v]) else Done(Stuck)
    case Return(result) =>
      Done(if result.Some? then EvalExpr(m, s, result.value, env, fuel) else Val(VUnit))
    case Eval(value) =>
      var v := EvalExpr(m, s, value, env, fuel);
      if v.Val? then Next(env) else Done(v)
    case If(cond, thn, els) =>
      var c := EvalExpr(m, s, cond, env, fuel);
      if !c.Val? then Done(c)
      else if c.v == VBool(true) then EvalBlock(m, s, thn, env, fuel)
      else if c.v == VBool(false) then EvalBlock(m, s, els, env, fuel)
      else Done(Stuck)
    case While(cond, body) =>
      var c := EvalExpr(m, s, cond, env, fuel);
      if !c.Val? then Done(c)
      else if c.v == VBool(false) then Next(env)
      else if c.v != VBool(true) then Done(Stuck)
      else
        var flow := EvalBlock(m, s, body, env, fuel);
        if flow.Done? then flow
        else if fuel == 0 then Done(OutOfFuel)
        else EvalStmt(m, s, st, flow.env, fuel - 1)
  }

  ghost function EvalBlock(m: Module, s: Subst, b: seq<Stmt>, env: Env, fuel: nat): Flow
    decreases fuel, 1, b
  {
    if b == [] then Next(env)
    else
      var flow := EvalStmt(m, s, b[0], env, fuel);
      if flow.Done? then flow else EvalBlock(m, s, b[1..], flow.env, fuel)
  }

  /** What a host sees: a call by name, with positional values. */
  ghost function Run(m: Module, name: string, vs: seq<Value>, fuel: nat): Res {
    InvokeValue(m, VFunc(name), Positional(|vs|), vs, fuel)
  }
}
