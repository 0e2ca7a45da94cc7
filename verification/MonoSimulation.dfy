/** The evaluator runs in step on a module and on what the pass makes of it. */
module MonoSimulation {
  import opened Wrappers
  import opened Hir
  import opened TypeInference
  import opened CallInference
  import opened MonoNames
  import opened Monomorph
  import opened MonoModule
  import opened HirEval
  import opened MonoMeaning

  /** A module, the module after the pass, and what connects them. */
  datatype Link = Link(before: Module, after: Module, ts: Templates, keys: set<MonoKey>, inst: set<string>)

  ghost predicate TemplatesLinked(l: Link) {
    && TemplatesOf(l.before.funcs) == l.ts && (forall name :: IsTemplate(l.before, name) <==> name in l.ts)
    && (forall name | name in l.ts :: Lookup(l.before.funcs, name) == Some(l.ts[name]))
    && (forall name | name in l.ts :: SignatureHasParam(l.ts[name]) && GoodFunc(l.ts, l.inst, l.ts[name]))
    && (forall name | name in l.ts :: Lookup(l.after.funcs, name) == None)
    && (forall name | name in l.ts :: LookupConst(l.after.consts, name) == None)
    && (forall name :: !IsTemplate(l.after, name))
  }

  /** A concrete function: its body needs no type argument, and its instances are there. */
  ghost predicate KeptFunc(l: Link, f: Func) {
    && GoodFunc(l.ts, l.inst, f) && BlockUses(l.ts, f.body) == {} && BlockKeys(l.ts, f.body) <= l.keys
  }

  ghost predicate FuncsLinked(l: Link) {
    forall name | name !in l.inst && name !in l.ts ::
      match Lookup(l.before.funcs, name)
      case Some(f) => KeptFunc(l, f) && Lookup(l.after.funcs, name) == Some(RwFunc(l.ts, f))
      case None => Lookup(l.after.funcs, name) == None
  }

  ghost predicate InstancesLinked(l: Link) {
    forall k | k in l.keys ::
      && k.name in l.ts && InstanceName(k) in l.inst
      && NextKeys(l.ts, k) <= l.keys
      && Lookup(l.after.funcs, InstanceName(k)) == Some(Instance(l.ts, k))
  }

  ghost predicate KeptConst(l: Link, c: Const) {
    GoodExpr(l.ts, l.inst, c.value) && ExprUses(l.ts, c.value) == {} && ExprKeys(l.ts, c.value) <= l.keys
  }

  ghost predicate ConstsLinked(l: Link) {
    forall name ::
      match LookupConst(l.before.consts, name)
      case Some(c) => KeptConst(l, c) && LookupConst(l.after.consts, name) == Some(c.(value := RwExpr(l.ts, c.value)))
      case None => LookupConst(l.after.consts, name) == None
  }

  ghost predicate ImplsLinked(l: Link) {
    l.after.impls == l.before.impls && forall k | k in l.before.impls :: l.before.impls[k] !in l.inst
  }

  ghost predicate Linked(l: Link) {
    TemplatesLinked(l) && FuncsLinked(l) && InstancesLinked(l) && ConstsLinked(l) && ImplsLinked(l)
  }

  // ---------------------------------------------------------------------------
  // Values never name an instance
  // ---------------------------------------------------------------------------

  ghost predicate Clean(inst: set<string>, v: Value) {
    match v
    case VList(items) => forall i | 0 <= i < |items| :: Clean(inst, items[i])
    case VFunc(name) => name !in inst
    case _ => true
  }

  ghost predicate AllClean(inst: set<string>, vs: seq<Value>) {
    forall i | 0 <= i < |vs| :: Clean(inst, vs[i])
  }

  ghost predicate CleanEnv(l: Link, env: Env) {
    forall x | x in env :: x !in l.ts && x !in l.inst && Clean(l.inst, env[x])
  }

  ghost predicate CleanRes(l: Link, r: Res) { r.Val? ==> Clean(l.inst, r.v) }

  ghost predicate CleanValues(l: Link, r: Values) { r.Vals? ==> AllClean(l.inst, r.vs) }

  ghost predicate CleanFlow(l: Link, f: Flow) {
    match f case Next(env) => CleanEnv(l, env) case Done(res) => CleanRes(l, res)
  }

  lemma {:induction false} CollectClean(l: Link, ms: seq<Match>, spreads: seq<bool>, vs: seq<Value>, i: nat)
    requires |spreads| == |vs| && forall k | 0 <= k < |ms| :: ms[k].1 < |vs|
    requires AllClean(l.inst, vs)
    ensures var c := Collect(ms, spreads, vs, i); c.Some? ==> AllClean(l.inst, c.value)
  {
    if ms != [] {
      CollectClean(l, ms[1..], spreads, vs, i);
      assert Clean(l.inst, vs[ms[0].1]);
    }
  }

  lemma {:induction false} BindFromClean(l: Link, names: seq<string>, v: nat, ms: seq<Match>, spreads: seq<bool>, vs: seq<Value>, i: nat)
    requires |spreads| == |vs| && i <= |names| && forall k | 0 <= k < |ms| :: ms[k].1 < |vs|
    requires AllClean(l.inst, vs) && forall k | 0 <= k < |names| :: names[k] !in l.ts && names[k] !in l.inst
    ensures var e := BindFrom(names, v, ms, spreads, vs, i); e.Some? ==> CleanEnv(l, e.value)
    decreases |names| - i
  {
    if i < |names| {
      BindFromClean(l, names, v, ms, spreads, vs, i + 1);
      CollectClean(l, ms, spreads, vs, i);
    }
  }

  lemma BindClean(l: Link, names: seq<string>, v: nat, shape: Shape, vs: seq<Value>)
    requires v <= |names| && |shape.tags| == |shape.spreads| == |vs|
    requires AllClean(l.inst, vs) && forall k | 0 <= k < |names| :: names[k] !in l.ts && names[k] !in l.inst
    ensures var e := Bind(names, v, shape, vs); e.Some? ==> CleanEnv(l, e.value)
  {
    MatchesInRange(names, v, shape.tags);
    var ms := Matches(names, v, shape.tags);
    if |ms| == |vs| { BindFromClean(l, names, v, ms, shape.spreads, vs, 0); }
  }

  // ---------------------------------------------------------------------------
  // Substituting nothing
  // ---------------------------------------------------------------------------

  lemma {:induction false} SubstExprNothing(e: Expr)
    ensures SubstExpr(e, map[]) == e
  {
    SubstNothing(e.ty);
    match e.kind
    case Binary(_, lhs, rhs) => SubstExprNothing(lhs); SubstExprNothing(rhs);
    case Call(callee, args) =>
      SubstExprNothing(callee);
      forall i | 0 <= i < |args| ensures SubstArg(args[i], map[]) == args[i] { SubstExprNothing(args[i].value); }
      assert SubstArgs(args, map[]) == args;
    case AssociatedCall(receiver, _, operands) =>
      SubstNothing(receiver);
      forall i | 0 <= i < |operands| ensures SubstExpr(operands[i], map[]) == operands[i] { SubstExprNothing(operands[i]); }
      assert SubstExprs(operands, map[]) == operands;
    case ListLit(elemTy, elements) =>
      SubstNothing(elemTy);
      forall i | 0 <= i < |elements| ensures SubstExpr(elements[i], map[]) == elements[i] { SubstExprNothing(elements[i]); }
      assert SubstExprs(elements, map[]) == elements;
    case IfExpr(cond, thn, els) => SubstExprNothing(cond); SubstExprNothing(thn); SubstExprNothing(els);
    case _ =>
  }

  lemma {:induction false} SubstStmtNothing(st: Stmt)
    ensures SubstStmt(st, map[]) == st
    decreases st
  {
    match st
    case Let(_, ty, value) => SubstNothing(ty); SubstExprNothing(value);
    case Assign(_, value) => SubstExprNothing(value);
    case Return(result) => if result.Some? { SubstExprNothing(result.value); }
    case Eval(value) => SubstExprNothing(value);
    case If(cond, thn, els) => SubstExprNothing(cond); SubstBlockNothing(thn); SubstBlockNothing(els);
    case While(cond, body) => SubstExprNothing(cond); SubstBlockNothing(body);
  }

  lemma {:induction false} SubstBlockNothing(b: seq<Stmt>)
    ensures SubstBlock(b, map[]) == b
    decreases b
  {
    forall i | 0 <= i < |b| ensures SubstStmt(b[i], map[]) == b[i] { SubstStmtNothing(b[i]); }
  }

  // ---------------------------------------------------------------------------
  // The simulation
  // ---------------------------------------------------------------------------

  function AfterExpr(l: Link, s: Subst, e: Expr): Expr { RwExpr(l.ts, SubstExpr(e, s)) }

  function AfterArgs(l: Link, s: Subst, args: seq<Arg>): (r: seq<Arg>)
    ensures |r| == |args|
  { RwArgs(l.ts, SubstArgs(args, s)) }

  function AfterExprs(l: Link, s: Subst, es: seq<Expr>): (r: seq<Expr>)
    ensures |r| == |es|
  { RwExprs(l.ts, SubstExprs(es, s)) }

  function AfterStmt(l: Link, s: Subst, st: Stmt): Stmt { RwStmt(l.ts, SubstStmt(st, s)) }

  function AfterBlock(l: Link, s: Subst, b: seq<Stmt>): (r: seq<Stmt>)
    ensures |r| == |b|
  { RwBlock(l.ts, SubstBlock(b, s)) }

  /** Everything the code needs is at hand: its type arguments and its instances. */
  ghost predicate ReadyExpr(l: Link, s: Subst, e: Expr) {
    && GoodExpr(l.ts, l.inst, e) && ExprUses(l.ts, e) <= s.Keys && ConcreteSubst(s)
    && ExprKeys(l.ts, SubstExpr(e, s)) <= l.keys
  }

  ghost predicate ReadyArgs(l: Link, s: Subst, args: seq<Arg>) {
    && GoodArgs(l.ts, l.inst, args) && ArgsUses(l.ts, args) <= s.Keys && ConcreteSubst(s)
    && ArgsKeys(l.ts, SubstArgs(args, s)) <= l.keys
  }

  ghost predicate ReadyExprs(l: Link, s: Subst, es: seq<Expr>) {
    && GoodExprs(l.ts, l.inst, es) && ExprsUses(l.ts, es) <= s.Keys && ConcreteSubst(s)
    && ExprsKeys(l.ts, SubstExprs(es, s)) <= l.keys
  }

  ghost predicate ReadyStmt(l: Link, s: Subst, st: Stmt) {
    && GoodStmt(l.ts, l.inst, st) && StmtUses(l.ts, st) <= s.Keys && ConcreteSubst(s)
    && StmtKeys(l.ts, SubstStmt(st, s)) <= l.keys
  }

  ghost predicate ReadyBlock(l: Link, s: Subst, b: seq<Stmt>) {
    && GoodBlock(l.ts, l.inst, b) && BlockUses(l.ts, b) <= s.Keys && ConcreteSubst(s)
    && BlockKeys(l.ts, SubstBlock(b, s)) <= l.keys
  }

  lemma {:induction false} ReadyArgAt(l: Link, s: Subst, args: seq<Arg>)
    requires ReadyArgs(l, s, args) && args != []
    ensures ReadyExpr(l, s, args[0].value) && ReadyArgs(l, s, args[1..])
    ensures AfterArgs(l, s, args)[0] == args[0].(value := AfterExpr(l, s, args[0].value))
    ensures AfterArgs(l, s, args)[1..] == AfterArgs(l, s, args[1..])
  {
    hide ConcreteSubst;
    var sub := SubstArgs(args, s);
    assert GoodArg(l.ts, l.inst, args[0]);
    assert forall p | p in ArgUses(l.ts, args[0]) :: p in ArgsUses(l.ts, args);
    assert sub[0] == SubstArg(args[0], s) && RwArgs(l.ts, sub)[0] == RwArg(l.ts, sub[0]);
    assert forall k | k in ArgKeys(l.ts, sub[0]) :: k in ArgsKeys(l.ts, sub);
    assert SubstArgs(args[1..], s) == sub[1..];
    forall k | k in ArgsKeys(l.ts, sub[1..]) ensures k in ArgsKeys(l.ts, sub) {
      var i :| 0 <= i < |sub[1..]| && k in ArgKeys(l.ts, sub[1..][i]);
      assert k in ArgKeys(l.ts, sub[i + 1]);
    }
    forall p | p in ArgsUses(l.ts, args[1..]) ensures p in ArgsUses(l.ts, args) {
      var i :| 0 <= i < |args[1..]| && p in ArgUses(l.ts, args[1..][i]);
      assert p in ArgUses(l.ts, args[i + 1]);
    }
  }

  lemma {:induction false} ReadyExprAt(l: Link, s: Subst, es: seq<Expr>)
    requires ReadyExprs(l, s, es) && es != []
    ensures ReadyExpr(l, s, es[0]) && ReadyExprs(l, s, es[1..])
    ensures AfterExprs(l, s, es)[0] == AfterExpr(l, s, es[0])
    ensures AfterExprs(l, s, es)[1..] == AfterExprs(l, s, es[1..])
  {
    hide ConcreteSubst;
    var sub := SubstExprs(es, s);
    assert forall p | p in ExprUses(l.ts, es[0]) :: p in ExprsUses(l.ts, es);
    assert forall k | k in ExprKeys(l.ts, sub[0]) :: k in ExprsKeys(l.ts, sub);
    assert SubstExprs(es[1..], s) == sub[1..];
    forall k | k in ExprsKeys(l.ts, sub[1..]) ensures k in ExprsKeys(l.ts, sub) {
      var i :| 0 <= i < |sub[1..]| && k in ExprKeys(l.ts, sub[1..][i]);
      assert k in ExprKeys(l.ts, sub[i + 1]);
    }
    forall p | p in ExprsUses(l.ts, es[1..]) ensures p in ExprsUses(l.ts, es) {
      var i :| 0 <= i < |es[1..]| && p in ExprUses(l.ts, es[1..][i]);
      assert p in ExprUses(l.ts, es[i + 1]);
    }
  }

  lemma {:induction false} ReadyStmtAt(l: Link, s: Subst, b: seq<Stmt>)
    requires ReadyBlock(l, s, b) && b != []
    ensures ReadyStmt(l, s, b[0]) && ReadyBlock(l, s, b[1..])
    ensures AfterBlock(l, s, b)[0] == AfterStmt(l, s, b[0])
    ensures AfterBlock(l, s, b)[1..] == AfterBlock(l, s, b[1..])
  {
    hide ConcreteSubst;
    var sub := SubstBlock(b, s);
    assert forall p | p in StmtUses(l.ts, b[0]) :: p in BlockUses(l.ts, b);
    assert forall k | k in StmtKeys(l.ts, sub[0]) :: k in BlockKeys(l.ts, sub);
    assert SubstBlock(b[1..], s) == sub[1..];
    forall k | k in BlockKeys(l.ts, sub[1..]) ensures k in BlockKeys(l.ts, sub) {
      var i :| 0 <= i < |sub[1..]| && k in StmtKeys(l.ts, sub[1..][i]);
      assert k in StmtKeys(l.ts, sub[i + 1]);
    }
    forall p | p in BlockUses(l.ts, b[1..]) ensures p in BlockUses(l.ts, b) {
      var i :| 0 <= i < |b[1..]| && p in StmtUses(l.ts, b[1..][i]);
      assert p in StmtUses(l.ts, b[i + 1]);
    }
  }

  lemma {:induction false} SimExpr(l: Link, s: Subst, e: Expr, env: Env, fuel: nat)
    requires Linked(l) && ReadyExpr(l, s, e) && CleanEnv(l, env)
    ensures EvalExpr(l.before, s, e, env, fuel) == EvalExpr(l.after, map[], AfterExpr(l, s, e), env, fuel)
    ensures CleanRes(l, EvalExpr(l.before, s, e, env, fuel))
    decreases fuel, 1, e, 1
  {
    hide Linked, ReadyExpr, EvalVar;
    match e.kind
    case BoolLit(_) =>
    case IntLit(_) =>
    case Unit =>
    case Var(name) => assert name !in l.inst by { VarNotInstance(l, s, e); } SimVar(l, name, env, fuel);
    case Binary(_, _, _) => SimBinary(l, s, e, env, fuel);
    case Call(callee, _) =>
      if callee.kind.Var? && callee.kind.name in l.ts {
        SimGenericCall(l, s, e, env, fuel);
      } else {
        SimPlainCall(l, s, e, env, fuel);
      }
    case AssociatedCall(_, _, _) => SimAssociated(l, s, e, env, fuel);
    case ListLit(_, _) => SimList(l, s, e, env, fuel);
    case IfExpr(_, _, _) => SimIfExpr(l, s, e, env, fuel);
  }

  lemma VarNotInstance(l: Link, s: Subst, e: Expr)
    requires e.kind.Var? && ReadyExpr(l, s, e)
    ensures e.kind.name !in l.inst
  {
  }

  lemma {:induction false} SimBinary(l: Link, s: Subst, e: Expr, env: Env, fuel: nat)
    requires e.kind.Binary? && Linked(l) && ReadyExpr(l, s, e) && CleanEnv(l, env)
    ensures EvalExpr(l.before, s, e, env, fuel) == EvalExpr(l.after, map[], AfterExpr(l, s, e), env, fuel)
    ensures CleanRes(l, EvalExpr(l.before, s, e, env, fuel))
    decreases fuel, 1, e, 0
  {
    hide Linked, ConcreteSubst;
    var Binary(op, lhs, rhs) := e.kind;
    SimExpr(l, s, lhs, env, fuel);
    SimExpr(l, s, rhs, env, fuel);
  }

  lemma {:induction false} SimIfExpr(l: Link, s: Subst, e: Expr, env: Env, fuel: nat)
    requires e.kind.IfExpr? && Linked(l) && ReadyExpr(l, s, e) && CleanEnv(l, env)
    ensures EvalExpr(l.before, s, e, env, fuel) == EvalExpr(l.after, map[], AfterExpr(l, s, e), env, fuel)
    ensures CleanRes(l, EvalExpr(l.before, s, e, env, fuel))
    decreases fuel, 1, e, 0
  {
    hide Linked, ConcreteSubst;
    var IfExpr(cond, thn, els) := e.kind;
    SimExpr(l, s, cond, env, fuel);
    SimExpr(l, s, thn, env, fuel);
    SimExpr(l, s, els, env, fuel);
  }

  lemma {:induction false} SimList(l: Link, s: Subst, e: Expr, env: Env, fuel: nat)
    requires e.kind.ListLit? && Linked(l) && ReadyExpr(l, s, e) && CleanEnv(l, env)
    ensures EvalExpr(l.before, s, e, env, fuel) == EvalExpr(l.after, map[], AfterExpr(l, s, e), env, fuel)
    ensures CleanRes(l, EvalExpr(l.before, s, e, env, fuel))
    decreases fuel, 1, e, 0
  {
    hide Linked, ConcreteSubst;
    var ListLit(_, elements) := e.kind;
    SimExprs(l, s, elements, env, fuel);
  }

  lemma {:induction false} SimVar(l: Link, name: string, env: Env, fuel: nat)
    requires Linked(l) && name !in l.inst && CleanEnv(l, env)
    ensures EvalVar(l.before, name, env, fuel) == EvalVar(l.after, name, env, fuel)
    ensures CleanRes(l, EvalVar(l.before, name, env, fuel))
    decreases fuel, 0
  {
    hide EvalExpr, KeptFunc, InstancesLinked, RwExpr, IsTemplate, GoodFunc;
    if name !in env && name !in l.ts && Lookup(l.before.funcs, name).None? {
      var c := LookupConst(l.before.consts, name);
      if c.Some? && fuel > 0 {
        assert KeptConst(l, c.value);
        SubstExprNothing(c.value.value);
        SimExpr(l, map[], c.value.value, map[], fuel - 1);
      }
    }
  }

  lemma {:induction false} SimAssociated(l: Link, s: Subst, e: Expr, env: Env, fuel: nat)
    requires e.kind.AssociatedCall? && Linked(l) && ReadyExpr(l, s, e) && CleanEnv(l, env)
    ensures EvalExpr(l.before, s, e, env, fuel) == EvalExpr(l.after, map[], AfterExpr(l, s, e), env, fuel)
    ensures CleanRes(l, EvalExpr(l.before, s, e, env, fuel))
    decreases fuel, 1, e, 0
  {
    hide TemplatesLinked, FuncsLinked, InstancesLinked, ConstsLinked, InvokeValue, ConcreteSubst;
    var AssociatedCall(receiver, member, operands) := e.kind;
    SimExprs(l, s, operands, env, fuel);
    SubstNothing(SubstTy(receiver, s));
    var vs := EvalExprs(l.before, s, operands, env, fuel);
    if vs.Vals? && (SubstTy(receiver, s), member) in l.before.impls {
      SimInvokeValue(l, VFunc(l.before.impls[(SubstTy(receiver, s), member)]), Positional(|operands|), vs.vs, fuel);
    }
  }

  /** A call that is not resolved by the pass: a concrete function or a function value. */
  lemma {:induction false} SimPlainCall(l: Link, s: Subst, e: Expr, env: Env, fuel: nat)
    requires e.kind.Call? && Linked(l) && ReadyExpr(l, s, e) && CleanEnv(l, env)
    requires e.kind.callee.kind.Var? ==> e.kind.callee.kind.name !in l.ts
    ensures EvalExpr(l.before, s, e, env, fuel) == EvalExpr(l.after, map[], AfterExpr(l, s, e), env, fuel)
    ensures CleanRes(l, EvalExpr(l.before, s, e, env, fuel))
    decreases fuel, 1, e, 0
  {
    hide FuncsLinked, InstancesLinked, ConstsLinked, InvokeValue, ConcreteSubst, IsTemplate, GoodFunc, Instantiates, CallOutcome, Retyped, ArgTyParams, CleanEnv, EvalVar;
    var Call(callee, args) := e.kind;
    CallStays(l.ts, callee, AfterArgs(l, s, args), s);
    assert AfterExpr(l, s, e).kind == Call(AfterExpr(l, s, callee), AfterArgs(l, s, args));
    SimExpr(l, s, callee, env, fuel);
    SimArgs(l, s, args, env, fuel);
    TrackedShape(l, s, args);
    var c, vs := EvalExpr(l.before, s, callee, env, fuel), EvalArgs(l.before, s, args, env, fuel);
    if c.Val? && vs.Vals? {
      SimInvokeValue(l, c.v, ShapeOf(args), vs.vs, fuel);
    }
  }

  lemma {:induction false} TrackedShape(l: Link, s: Subst, args: seq<Arg>)
    ensures ShapeOf(AfterArgs(l, s, args)) == ShapeOf(args)
  {
    var after := AfterArgs(l, s, args);
    forall i | 0 <= i < |args| ensures after[i].tag == args[i].tag && after[i].spread == args[i].spread {
      assert after[i] == RwArg(l.ts, SubstArgs(args, s)[i]);
      assert SubstArgs(args, s)[i] == SubstArg(args[i], s);
    }
    assert ShapeOf(after).tags == ShapeOf(args).tags && ShapeOf(after).spreads == ShapeOf(args).spreads;
  }

  /** A generic call in the original: the template, under type arguments `c`. */
  lemma {:induction false} GenericBefore(l: Link, s: Subst, e: Expr, env: Env, fuel: nat, c: Subst)
    requires e.kind.Call? && TemplatesLinked(l) && CleanEnv(l, env)
    requires e.kind.callee.kind.Var? && e.kind.callee.kind.name in l.ts
    requires exists i :: Instantiates(l.ts[e.kind.callee.kind.name], Retyped(l.ts, e.kind.args), i)
    requires forall i | Instantiates(l.ts[e.kind.callee.kind.name], Retyped(l.ts, e.kind.args), i) :: Compose(i, s) == c
    ensures
      var vs := EvalArgs(l.before, s, e.kind.args, env, fuel);
      EvalExpr(l.before, s, e, env, fuel)
        == if vs.NoVals? then vs.why
           else Invoke(l.before, c, l.ts[e.kind.callee.kind.name], ShapeOf(e.kind.args), vs.vs, fuel)
  {
    hide Instantiates, Invoke, EvalArgs, IsTemplate, GoodFunc, ShapeOf;
  }

  /** A resolved call in the output: the instance, by name. */
  lemma {:induction false} GenericAfter(l: Link, key: MonoKey, args: seq<Arg>, ty: Ty, env: Env, fuel: nat)
    requires TemplatesLinked(l) && InstancesLinked(l) && CleanEnv(l, env) && key in l.keys
    ensures
      var vs := EvalArgs(l.after, map[], args, env, fuel);
      EvalExpr(l.after, map[], Expr(Call(InstanceRef(l.ts, key), args), ty), env, fuel)
        == if vs.NoVals? then vs.why
           else Invoke(l.after, map[], Instance(l.ts, key), ShapeOf(args), vs.vs, fuel)
  {
    hide Invoke, EvalArgs, IsTemplate, GoodFunc, ShapeOf, Instance, InstanceName, NextKeys, Instantiates;
    var callee := InstanceRef(l.ts, key);
    assert callee.kind == Var(InstanceName(key));
    assert InstanceName(key) in l.inst;
    assert EvalExpr(l.after, map[], callee, env, fuel) == EvalVar(l.after, InstanceName(key), env, fuel);
    assert EvalVar(l.after, InstanceName(key), env, fuel) == Val(VFunc(InstanceName(key)));
  }

  /** An instance is the counterpart of its template under the key's type arguments. */
  lemma {:induction false} InstanceCounterpart(l: Link, name: string, c: Subst)
    requires TemplatesLinked(l) && InstancesLinked(l) && Key(name, c) in l.keys
    requires ConcreteSubst(c) && BlockParams(l.ts[name].body) <= c.Keys
    ensures Counterpart(l, c, l.ts[name], Instance(l.ts, Key(name, c)))
  {
    hide IsTemplate, ConcreteSubst, InstanceName;
    BlockUsesWithin(l.ts, l.ts[name].body);
    KeyKeepsSubst(c);
    var f, g := l.ts[name], Instance(l.ts, Key(name, c));
    assert g.params == Monomorph.SubstParams(f.params, c);
    assert Names(g.params) == Names(f.params);
    SameVariadic(f.params, g.params);
  }

  lemma {:induction false} SameVariadic(a: seq<ParamDecl>, b: seq<ParamDecl>)
    requires |a| == |b| && forall i | 0 <= i < |a| :: a[i].variadic == b[i].variadic
    ensures VariadicIndex(a) == VariadicIndex(b)
  {
    if a != [] { SameVariadic(a[1..], b[1..]); }
  }

  /** A generic call, resolved by the pass to the instance for its type arguments. */
  lemma {:induction false} SimGenericCall(l: Link, s: Subst, e: Expr, env: Env, fuel: nat)
    requires e.kind.Call? && Linked(l) && ReadyExpr(l, s, e) && CleanEnv(l, env)
    requires e.kind.callee.kind.Var? && e.kind.callee.kind.name in l.ts
    ensures EvalExpr(l.before, s, e, env, fuel) == EvalExpr(l.after, map[], AfterExpr(l, s, e), env, fuel)
    ensures CleanRes(l, EvalExpr(l.before, s, e, env, fuel))
    decreases fuel, 1, e, 0
  {
    hide FuncsLinked, InstancesLinked, ConstsLinked, ConcreteSubst, IsTemplate, GoodFunc, Instantiates,
      CallOutcome, EvalExpr, Outcome, InstanceRef, Instance, Key, Counterpart, SignatureHasParam, ReadyArgs;
    var Call(callee, args) := e.kind;
    var name, after := callee.kind.name, AfterArgs(l, s, args);
    var c, key := GenericCallResolved(l, s, e);
    assert ReadyArgs(l, s, args) by { CallArgsReady(l, s, e); }
    SimArgs(l, s, args, env, fuel);
    TrackedShape(l, s, args);
    GenericBefore(l, s, e, env, fuel, c);
    GenericAfter(l, key, after, AfterExpr(l, s, e).ty, env, fuel);
    var vs := EvalArgs(l.before, s, args, env, fuel);
    if vs.Vals? {
      SimInvoke(l, c, l.ts[name], Instance(l.ts, key), ShapeOf(args), vs.vs, fuel);
    }
  }

  lemma CallArgsReady(l: Link, s: Subst, e: Expr)
    requires e.kind.Call? && ReadyExpr(l, s, e)
    ensures ReadyArgs(l, s, e.kind.args)
  {
    hide ConcreteSubst;
  }

  /** The instance the pass resolves a generic call to, and its type arguments. */
  lemma {:induction false} GenericCallResolved(l: Link, s: Subst, e: Expr) returns (c: Subst, key: MonoKey)
    requires e.kind.Call? && Linked(l) && ReadyExpr(l, s, e)
    requires e.kind.callee.kind.Var? && e.kind.callee.kind.name in l.ts
    ensures
      var f, args := l.ts[e.kind.callee.kind.name], e.kind.args;
      && (exists i :: Instantiates(f, Retyped(l.ts, args), i))
      && (forall i | Instantiates(f, Retyped(l.ts, args), i) :: Compose(i, s) == c)
      && key in l.keys && key.name in l.ts && key == Key(e.kind.callee.kind.name, c)
      && CallOutcome(l.ts, RwExpr(l.ts, SubstExpr(e.kind.callee, s)), AfterArgs(l, s, args)) == Some(key)
      && Counterpart(l, c, f, Instance(l.ts, key))
      && AfterExpr(l, s, e).kind == Call(InstanceRef(l.ts, key), AfterArgs(l, s, args))
  {
    hide FuncsLinked, ConstsLinked, ConcreteSubst, IsTemplate, Instantiates, Outcome, InstanceRef, Instance, Key, Counterpart,
      SubstTy, InferCall;
    var Call(callee, args) := e.kind;
    var name, after := callee.kind.name, AfterArgs(l, s, args);
    var f := l.ts[name];
    ArgsTrack(l.ts, l.inst, args, s);
    c := InferCall(f.params, after);
    forall i | Instantiates(f, Retyped(l.ts, args), i) ensures Compose(i, s) == c {
      InferenceFinds(f, Retyped(l.ts, args), i, after, s);
    }
    var i :| Instantiates(f, Retyped(l.ts, args), i);
    InferenceFinds(f, Retyped(l.ts, args), i, after, s);
    CallResolves(l.ts, name, Retyped(l.ts, args), i, after, s);
    key := Key(name, c);
    CoversTemplate(f, Retyped(l.ts, args), i, s);
    assert Outcome(l.ts, name, after) == Some(key);
    assert CallOutcome(l.ts, RwExpr(l.ts, SubstExpr(callee, s)), after) == Some(key);
    assert key in ExprKeys(l.ts, SubstExpr(e, s));
    InstanceCounterpart(l, name, c);
  }

  lemma {:induction false} SimArg(l: Link, s: Subst, a: Arg, env: Env, fuel: nat)
    requires Linked(l) && ReadyExpr(l, s, a.value) && CleanEnv(l, env)
    ensures EvalArg(l.before, s, a, env, fuel)
         == EvalArg(l.after, map[], a.(value := AfterExpr(l, s, a.value)), env, fuel)
    ensures CleanRes(l, EvalArg(l.before, s, a, env, fuel))
    decreases fuel, 1, a
  {
    hide Linked, ReadyExpr, AfterExpr;
    SimExpr(l, s, a.value, env, fuel);
  }

  lemma {:induction false} SimArgs(l: Link, s: Subst, args: seq<Arg>, env: Env, fuel: nat)
    requires Linked(l) && ReadyArgs(l, s, args) && CleanEnv(l, env)
    ensures EvalArgs(l.before, s, args, env, fuel) == EvalArgs(l.after, map[], AfterArgs(l, s, args), env, fuel)
    ensures CleanValues(l, EvalArgs(l.before, s, args, env, fuel))
    decreases fuel, 1, args
  {
    hide Linked, ReadyArgs, AfterArgs, ReadyExpr;
    if args != [] {
      ReadyArgAt(l, s, args);
      SimArg(l, s, args[0], env, fuel);
      SimArgs(l, s, args[1..], env, fuel);
    }
  }

  lemma {:induction false} SimExprs(l: Link, s: Subst, es: seq<Expr>, env: Env, fuel: nat)
    requires Linked(l) && ReadyExprs(l, s, es) && CleanEnv(l, env)
    ensures EvalExprs(l.before, s, es, env, fuel) == EvalExprs(l.after, map[], AfterExprs(l, s, es), env, fuel)
    ensures CleanValues(l, EvalExprs(l.before, s, es, env, fuel))
    decreases fuel, 1, es
  {
    hide Linked, ReadyExprs, AfterExprs, ReadyExpr;
    if es != [] {
      ReadyExprAt(l, s, es);
      SimExpr(l, s, es[0], env, fuel);
      SimExprs(l, s, es[1..], env, fuel);
    }
  }

  /** A function and its counterpart: parameters bind alike, and the body is the rewritten body. */
  ghost predicate Counterpart(l: Link, s: Subst, f: Func, g: Func) {
    && Names(g.params) == Names(f.params) && VariadicIndex(g.params) == VariadicIndex(f.params)
    && GoodFunc(l.ts, l.inst, f) && ReadyBlock(l, s, f.body) && g.body == AfterBlock(l, s, f.body)
  }

  lemma {:induction false} SimInvoke(l: Link, s: Subst, f: Func, g: Func, shape: Shape, vs: seq<Value>, fuel: nat)
    requires Linked(l) && Counterpart(l, s, f, g)
    requires |shape.tags| == |shape.spreads| == |vs| && AllClean(l.inst, vs)
    ensures Invoke(l.before, s, f, shape, vs, fuel) == Invoke(l.after, map[], g, shape, vs, fuel)
    ensures CleanRes(l, Invoke(l.before, s, f, shape, vs, fuel))
    decreases fuel, 0, 0
  {
    hide Linked, ReadyBlock, AfterBlock, Bind, VariadicIndex;
    BindClean(l, Names(f.params), VariadicIndex(f.params), shape, vs);
    var env := Bind(Names(f.params), VariadicIndex(f.params), shape, vs);
    if env.Some? && fuel > 0 {
      SimBlock(l, s, f.body, env.value, fuel - 1);
    }
  }

  lemma {:induction false} SimInvokeValue(l: Link, v: Value, shape: Shape, vs: seq<Value>, fuel: nat)
    requires Linked(l) && Clean(l.inst, v)
    requires |shape.tags| == |shape.spreads| == |vs| && AllClean(l.inst, vs)
    ensures InvokeValue(l.before, v, shape, vs, fuel) == InvokeValue(l.after, v, shape, vs, fuel)
    ensures CleanRes(l, InvokeValue(l.before, v, shape, vs, fuel))
    decreases fuel, 0, 1
  {
    hide Invoke, InstancesLinked, ConstsLinked, GoodFunc, IsTemplate;
    if v.VFunc? && v.name !in l.ts && Lookup(l.before.funcs, v.name).Some? {
      var f := Lookup(l.before.funcs, v.name).value;
      KeptCounterpart(l, f);
      SimInvoke(l, map[], f, RwFunc(l.ts, f), shape, vs, fuel);
    }
  }

  lemma KeptCounterpart(l: Link, f: Func)
    requires KeptFunc(l, f)
    ensures Counterpart(l, map[], f, RwFunc(l.ts, f))
  {
    SubstBlockNothing(f.body);
  }

  lemma {:induction false} SimStmt(l: Link, s: Subst, st: Stmt, env: Env, fuel: nat)
    requires Linked(l) && ReadyStmt(l, s, st) && CleanEnv(l, env)
    ensures EvalStmt(l.before, s, st, env, fuel) == EvalStmt(l.after, map[], AfterStmt(l, s, st), env, fuel)
    ensures CleanFlow(l, EvalStmt(l.before, s, st, env, fuel))
    decreases fuel, 1, st, 1
  {
    hide Linked, ConcreteSubst, EvalExpr;
    match st
    case Let(_, _, value) => SimExpr(l, s, value, env, fuel);
    case Assign(_, value) => SimExpr(l, s, value, env, fuel);
    case Return(result) => if result.Some? { SimExpr(l, s, result.value, env, fuel); }
    case Eval(value) => SimExpr(l, s, value, env, fuel);
    case If(_, _, _) => SimIf(l, s, st, env, fuel);
    case While(_, _) => SimWhile(l, s, st, env, fuel);
  }

  lemma {:induction false} SimIf(l: Link, s: Subst, st: Stmt, env: Env, fuel: nat)
    requires st.If? && Linked(l) && ReadyStmt(l, s, st) && CleanEnv(l, env)
    ensures EvalStmt(l.before, s, st, env, fuel) == EvalStmt(l.after, map[], AfterStmt(l, s, st), env, fuel)
    ensures CleanFlow(l, EvalStmt(l.before, s, st, env, fuel))
    decreases fuel, 1, st, 0
  {
    hide Linked, ConcreteSubst, EvalExpr, EvalBlock;
    var If(cond, thn, els) := st;
    SimExpr(l, s, cond, env, fuel);
    SimBlock(l, s, thn, env, fuel);
    SimBlock(l, s, els, env, fuel);
  }

  lemma {:induction false} SimWhile(l: Link, s: Subst, st: Stmt, env: Env, fuel: nat)
    requires st.While? && Linked(l) && ReadyStmt(l, s, st) && CleanEnv(l, env)
    ensures EvalStmt(l.before, s, st, env, fuel) == EvalStmt(l.after, map[], AfterStmt(l, s, st), env, fuel)
    ensures CleanFlow(l, EvalStmt(l.before, s, st, env, fuel))
    decreases fuel, 1, st, 0
  {
    hide Linked, ConcreteSubst, EvalExpr, EvalBlock, ExprUses, BlockUses, GoodExpr, GoodBlock, SubstExpr, SubstBlock, RwExpr, RwBlock, CleanEnv;
    var While(cond, body) := st;
    SimExpr(l, s, cond, env, fuel);
    SimBlock(l, s, body, env, fuel);
    var flow := EvalBlock(l.before, s, body, env, fuel);
    if flow.Next? && fuel > 0 {
      SimStmt(l, s, st, flow.env, fuel - 1);
    }
  }

  lemma {:induction false} SimBlock(l: Link, s: Subst, b: seq<Stmt>, env: Env, fuel: nat)
    requires Linked(l) && ReadyBlock(l, s, b) && CleanEnv(l, env)
    ensures EvalBlock(l.before, s, b, env, fuel) == EvalBlock(l.after, map[], AfterBlock(l, s, b), env, fuel)
    ensures CleanFlow(l, EvalBlock(l.before, s, b, env, fuel))
    decreases fuel, 1, b
  {
    hide Linked, ReadyBlock, AfterBlock, ReadyStmt, EvalStmt;
    if b != [] {
      ReadyStmtAt(l, s, b);
      SimStmt(l, s, b[0], env, fuel);
      var flow := EvalStmt(l.before, s, b[0], env, fuel);
      if flow.Next? { SimBlock(l, s, b[1..], flow.env, fuel); }
    }
  }
}
