/** Code whose annotations agree keeps agreeing annotations through the pass. */
module MonoTyping {
  import opened Wrappers
  import opened Hir
  import opened TypeInference
  import opened CallInference
  import opened MonoNames
  import opened Monomorph
  import opened MonoModule
  import opened HirEval
  import opened MonoMeaning
  import opened MonoSimulation
  import opened MonoTheorem
  import opened MonoSignatures
  import Lim = MonoLimits
  import Ex = MonoExample

  /** The declared types of the variables in scope. */
  type Vars = map<string, Ty>

  /**
    Annotations agree: variables bear their declared types, list literals the type of their
    elements, both branches of a conditional the type of the whole. The type of a generic call is
    the one worked out from its arguments.
  */
  ghost predicate Agrees(ts: Templates, vars: Vars, e: Expr)
    decreases e
  {
    match e.kind
    case Var(name) => name in vars ==> e.ty == vars[name]
    case Binary(_, lhs, rhs) => Agrees(ts, vars, lhs) && Agrees(ts, vars, rhs)
    case Call(callee, args) => Agrees(ts, vars, callee) && AgreesArgs(ts, vars, args)
    case AssociatedCall(_, _, operands) => AgreesAll(ts, vars, operands)
    case ListLit(elemTy, elements) => AgreesAll(ts, vars, elements) && AllOfType(ts, elements, elemTy) && e.ty == App(Head.List, [elemTy])
    case IfExpr(cond, thn, els) =>
      && Agrees(ts, vars, cond) && Agrees(ts, vars, thn) && Agrees(ts, vars, els)
      && ResolvedTy(ts, thn) == ResolvedTy(ts, els) == e.ty
    case _ => true
  }

  ghost predicate AgreesArg(ts: Templates, vars: Vars, a: Arg)
    decreases a
  {
    Agrees(ts, vars, a.value)
  }

  ghost predicate AgreesArgs(ts: Templates, vars: Vars, args: seq<Arg>)
    decreases args
  {
    args == [] || (AgreesArg(ts, vars, args[0]) && AgreesArgs(ts, vars, args[1..]))
  }

  ghost predicate AgreesAll(ts: Templates, vars: Vars, es: seq<Expr>)
    decreases es
  {
    es == [] || (Agrees(ts, vars, es[0]) && AgreesAll(ts, vars, es[1..]))
  }

  ghost predicate AllOfType(ts: Templates, es: seq<Expr>, ty: Ty)
    decreases es
  {
    es == [] || (ResolvedTy(ts, es[0]) == ty && AllOfType(ts, es[1..], ty))
  }

  /** A `let` bears its value's type, an assignment the variable's, and what is returned has the function's return type. */
  ghost predicate AgreesStmt(ts: Templates, vars: Vars, ret: Ty, st: Stmt)
    decreases st
  {
    match st
    case Let(_, ty, value) => Agrees(ts, vars, value) && ResolvedTy(ts, value) == ty
    case Assign(name, value) => Agrees(ts, vars, value) && (name in vars ==> ResolvedTy(ts, value) == vars[name])
    case Return(result) => result.Some? ==> Agrees(ts, vars, result.value) && ResolvedTy(ts, result.value) == ret
    case Eval(value) => Agrees(ts, vars, value)
    case If(cond, thn, els) => Agrees(ts, vars, cond) && AgreesBlock(ts, vars, ret, thn) && AgreesBlock(ts, vars, ret, els)
    case While(cond, body) => Agrees(ts, vars, cond) && AgreesBlock(ts, vars, ret, body)
  }

  ghost predicate AgreesBlock(ts: Templates, vars: Vars, ret: Ty, b: seq<Stmt>)
    decreases b
  {
    b == [] || (AgreesStmt(ts, vars, ret, b[0]) && AgreesBlock(ts, Bound(vars, b[0]), ret, b[1..]))
  }

  function Bound(vars: Vars, st: Stmt): Vars {
    if st.Let? then vars[st.name := st.ty] else vars
  }

  function ParamVars(params: seq<ParamDecl>): Vars {
    if params == [] then map[]
    else ParamVars(params[..|params| - 1])[params[|params| - 1].name := params[|params| - 1].ty]
  }

  ghost predicate FuncAgrees(ts: Templates, f: Func) {
    AgreesBlock(ts, ParamVars(f.params), f.returnTy, f.body)
  }

  ghost predicate ConstAgrees(ts: Templates, c: Const) {
    Agrees(ts, map[], c.value) && ResolvedTy(ts, c.value) == c.ty
  }

  // ---------------------------------------------------------------------------
  // Under type arguments
  // ---------------------------------------------------------------------------

  function SubstVars(vars: Vars, s: Subst): Vars {
    map x | x in vars :: SubstTy(vars[x], s)
  }

  /** No variable hides a template or an instance. */
  ghost predicate Apart(l: Link, vars: Vars) {
    forall x | x in vars :: x !in l.ts && x !in l.inst
  }

  /** Without templates the annotation is the type. */
  lemma PlainTy(e: Expr)
    ensures ResolvedTy(map[], e) == e.ty
  {
  }

  lemma TyAfter(l: Link, s: Subst, e: Expr)
    requires Linked(l) && ReadyExpr(l, s, e)
    ensures ResolvedTy(map[], AfterExpr(l, s, e)) == SubstTy(ResolvedTy(l.ts, e), s)
  {
    hide FuncsLinked, InstancesLinked, ConstsLinked, ImplsLinked, ResolvedTy, SubstTy, ConcreteSubst, GoodExpr, GoodFunc, ExprKeys;
    RwKeepsTy(l.ts, l.inst, e, s);
    PlainTy(AfterExpr(l, s, e));
  }

  lemma {:induction false} AgreesAfter(l: Link, s: Subst, vars: Vars, e: Expr)
    requires Linked(l) && ReadyExpr(l, s, e) && Apart(l, vars) && Agrees(l.ts, vars, e)
    ensures Agrees(map[], SubstVars(vars, s), AfterExpr(l, s, e))
    decreases e, 1
  {
    hide Linked, ConcreteSubst, ResolvedTy, Apart;
    match e.kind
    case Var(_) =>
    case Binary(_, lhs, rhs) => AgreesAfter(l, s, vars, lhs); AgreesAfter(l, s, vars, rhs);
    case Call(_, _) => AgreesCall(l, s, vars, e);
    case AssociatedCall(_, _, operands) => AgreesAllAfter(l, s, vars, operands);
    case ListLit(_, _) => AgreesList(l, s, vars, e);
    case IfExpr(_, _, _) => AgreesIf(l, s, vars, e);
    case _ =>
  }

  lemma {:induction false} AgreesList(l: Link, s: Subst, vars: Vars, e: Expr)
    requires e.kind.ListLit? && Linked(l) && ReadyExpr(l, s, e) && Apart(l, vars) && Agrees(l.ts, vars, e)
    ensures Agrees(map[], SubstVars(vars, s), AfterExpr(l, s, e))
    decreases e, 0
  {
    hide Linked, ConcreteSubst, ResolvedTy, Apart, SubstVars;
    AgreesAllAfter(l, s, vars, e.kind.elements);
    AllOfTypeAfter(l, s, e.kind.elements, e.kind.elemTy);
  }

  lemma {:induction false} AgreesIf(l: Link, s: Subst, vars: Vars, e: Expr)
    requires e.kind.IfExpr? && Linked(l) && ReadyExpr(l, s, e) && Apart(l, vars) && Agrees(l.ts, vars, e)
    ensures Agrees(map[], SubstVars(vars, s), AfterExpr(l, s, e))
    decreases e, 0
  {
    hide Linked, ConcreteSubst, ResolvedTy, Apart, SubstVars;
    var IfExpr(cond, thn, els) := e.kind;
    AgreesAfter(l, s, vars, cond); AgreesAfter(l, s, vars, thn); AgreesAfter(l, s, vars, els);
    TyAfter(l, s, thn); TyAfter(l, s, els);
  }

  /** The name of an instance is no variable. */
  lemma RefAgrees(l: Link, s: Subst, vars: Vars, e: Expr)
    requires e.kind.Call? && Linked(l) && ReadyExpr(l, s, e) && e.kind.callee.kind.Var? && e.kind.callee.kind.name in l.ts && Apart(l, vars)
    ensures
      var after := AfterExpr(l, s, e);
      after.kind.Call? && Agrees(map[], SubstVars(vars, s), after.kind.callee) && after.kind.args == AfterArgs(l, s, e.kind.args)
  {
    hide FuncsLinked, ConstsLinked, TemplatesLinked, ReadyExpr, InstanceRef, Instance, Specialized, Counterpart, Instantiates, Outcome, Compose,
      Key, NextKeys, InstanceName;
    var c, key := GenericCallResolved(l, s, e);
    ResolvedCallTy(l, s, e, key);
    RefHasSignature(l.ts, key);
    assert InstanceName(key) in l.inst by { assert key in l.keys; }
  }

  lemma {:induction false} AgreesCall(l: Link, s: Subst, vars: Vars, e: Expr)
    requires e.kind.Call? && Linked(l) && ReadyExpr(l, s, e) && Apart(l, vars) && Agrees(l.ts, vars, e)
    ensures Agrees(map[], SubstVars(vars, s), AfterExpr(l, s, e))
    decreases e, 0
  {
    hide Linked, ReadyExpr, ReadyArgs, AfterExpr, AfterArgs, AgreesArgs, Apart, SubstVars, CallFits;
    var Call(callee, args) := e.kind;
    CallArgsReady(l, s, e);
    AgreesArgsAfter(l, s, vars, args);
    if callee.kind.Var? && callee.kind.name in l.ts {
      RefAgrees(l, s, vars, e);
    } else {
      CalleeReady(l, s, e);
      AgreesAfter(l, s, vars, callee);
      PlainCallFits(l, s, e);
    }
  }

  lemma {:induction false} AgreesArgAfter(l: Link, s: Subst, vars: Vars, a: Arg)
    requires Linked(l) && ReadyExpr(l, s, a.value) && Apart(l, vars) && AgreesArg(l.ts, vars, a)
    ensures AgreesArg(map[], SubstVars(vars, s), a.(value := AfterExpr(l, s, a.value)))
    decreases a
  {
    hide Linked, ReadyExpr, AfterExpr, Apart, SubstVars;
    AgreesAfter(l, s, vars, a.value);
  }

  lemma {:induction false} AgreesArgsAfter(l: Link, s: Subst, vars: Vars, args: seq<Arg>)
    requires Linked(l) && ReadyArgs(l, s, args) && Apart(l, vars) && AgreesArgs(l.ts, vars, args)
    ensures AgreesArgs(map[], SubstVars(vars, s), AfterArgs(l, s, args))
    decreases args
  {
    hide Linked, ReadyArgs, ReadyExpr, AfterArgs, AfterExpr, AgreesArg, Apart, SubstVars;
    if args != [] {
      ReadyArgAt(l, s, args);
      AgreesArgAfter(l, s, vars, args[0]);
      AgreesArgsAfter(l, s, vars, args[1..]);
    }
  }

  lemma {:induction false} AgreesAllAfter(l: Link, s: Subst, vars: Vars, es: seq<Expr>)
    requires Linked(l) && ReadyExprs(l, s, es) && Apart(l, vars) && AgreesAll(l.ts, vars, es)
    ensures AgreesAll(map[], SubstVars(vars, s), AfterExprs(l, s, es))
    decreases es
  {
    hide Linked, ReadyExprs, ReadyExpr, AfterExprs, AfterExpr, Agrees, Apart, SubstVars;
    if es != [] {
      ReadyExprAt(l, s, es);
      AgreesAfter(l, s, vars, es[0]);
      AgreesAllAfter(l, s, vars, es[1..]);
    }
  }

  lemma {:induction false} AllOfTypeAfter(l: Link, s: Subst, es: seq<Expr>, ty: Ty)
    requires Linked(l) && ReadyExprs(l, s, es) && AllOfType(l.ts, es, ty)
    ensures AllOfType(map[], AfterExprs(l, s, es), SubstTy(ty, s))
    decreases es
  {
    hide Linked, ReadyExprs, ReadyExpr, AfterExprs, AfterExpr, ResolvedTy, SubstTy;
    if es != [] {
      ReadyExprAt(l, s, es);
      TyAfter(l, s, es[0]);
      AllOfTypeAfter(l, s, es[1..], ty);
    }
  }

  lemma {:induction false} AgreesStmtAfter(l: Link, s: Subst, vars: Vars, ret: Ty, st: Stmt)
    requires Linked(l) && ReadyStmt(l, s, st) && Apart(l, vars) && AgreesStmt(l.ts, vars, ret, st)
    ensures AgreesStmt(map[], SubstVars(vars, s), SubstTy(ret, s), AfterStmt(l, s, st))
    decreases st
  {
    hide Linked, ConcreteSubst, Agrees, AgreesBlock, ResolvedTy, SubstTy, Apart, GoodBlock, BlockKeys, BlockUses, SubstBlock, RwBlock;
    match st
    case Let(_, _, value) => AgreesAfter(l, s, vars, value); TyAfter(l, s, value);
    case Assign(_, value) => AgreesAfter(l, s, vars, value); TyAfter(l, s, value);
    case Return(result) => if result.Some? { AgreesAfter(l, s, vars, result.value); TyAfter(l, s, result.value); }
    case Eval(value) => AgreesAfter(l, s, vars, value);
    case If(cond, thn, els) =>
      AgreesAfter(l, s, vars, cond);
      AgreesBlockAfter(l, s, vars, ret, thn); AgreesBlockAfter(l, s, vars, ret, els);
    case While(cond, body) =>
      AgreesAfter(l, s, vars, cond);
      AgreesBlockAfter(l, s, vars, ret, body);
  }

  /** A `let` brings its variable into scope with its substituted type. */
  lemma BoundAfter(l: Link, s: Subst, vars: Vars, st: Stmt)
    requires ReadyStmt(l, s, st) && Apart(l, vars)
    ensures Apart(l, Bound(vars, st)) && SubstVars(Bound(vars, st), s) == Bound(SubstVars(vars, s), AfterStmt(l, s, st))
  {
    hide ConcreteSubst, SubstTy;
  }

  lemma {:induction false} AgreesBlockAfter(l: Link, s: Subst, vars: Vars, ret: Ty, b: seq<Stmt>)
    requires Linked(l) && ReadyBlock(l, s, b) && Apart(l, vars) && AgreesBlock(l.ts, vars, ret, b)
    ensures AgreesBlock(map[], SubstVars(vars, s), SubstTy(ret, s), AfterBlock(l, s, b))
    decreases b
  {
    hide Linked, ReadyBlock, ReadyStmt, AfterBlock, AfterStmt, AgreesStmt, Apart, SubstVars, SubstTy, Bound;
    if b != [] {
      ReadyStmtAt(l, s, b);
      AgreesStmtAfter(l, s, vars, ret, b[0]);
      BoundAfter(l, s, vars, b[0]);
      AgreesBlockAfter(l, s, Bound(vars, b[0]), ret, b[1..]);
    }
  }

  // ---------------------------------------------------------------------------
  // Functions
  // ---------------------------------------------------------------------------

  lemma {:induction false} ParamVarsAfter(params: seq<ParamDecl>, s: Subst)
    ensures ParamVars(Monomorph.SubstParams(params, s)) == SubstVars(ParamVars(params), s)
    decreases |params|
  {
    var after := Monomorph.SubstParams(params, s);
    if params != [] {
      var n := |params| - 1;
      assert after[..n] == Monomorph.SubstParams(params[..n], s);
      ParamVarsAfter(params[..n], s);
    }
  }

  lemma {:induction false} ParamVarsApart(l: Link, params: seq<ParamDecl>)
    requires forall i | 0 <= i < |params| :: params[i].name !in l.ts && params[i].name !in l.inst
    ensures Apart(l, ParamVars(params))
    decreases |params|
  {
    if params != [] { ParamVarsApart(l, params[..|params| - 1]); }
  }

  lemma {:induction false} SubstVarsNothing(vars: Vars)
    ensures SubstVars(vars, map[]) == vars
  {
    forall x | x in vars ensures SubstTy(vars[x], map[]) == vars[x] { SubstNothing(vars[x]); }
  }

  lemma KeptAgrees(m: Module, order: seq<MonoKey>, g: Func)
    requires forall k | k in order :: Known(TemplatesOf(m.funcs), k)
    requires LeastClosed(TemplatesOf(m.funcs), RootKeys(TemplatesOf(m.funcs), m), Elements(order))
    requires Checked(m, Elements(order)) && Linked(LinkOf(m, order)) && g in m.funcs && g.name !in TemplatesOf(m.funcs)
    requires FuncAgrees(TemplatesOf(m.funcs), g)
    ensures FuncAgrees(map[], RwFunc(TemplatesOf(m.funcs), g))
  {
    hide Linked, GoodBlock, BlockUses, BlockKeys, Known, Output, AgreesBlock, InstanceName;
    var l := LinkOf(m, order);
    RootsCover(l.ts, m);
    SubstBlockNothing(g.body);
    assert GoodFunc(l.ts, l.inst, g) && ConcreteSubst(map[]);
    ParamVarsApart(l, g.params);
    SubstVarsNothing(ParamVars(g.params));
    SubstNothing(g.returnTy);
    AgreesBlockAfter(l, map[], ParamVars(g.params), g.returnTy, g.body);
  }

  lemma ConstantAgrees(m: Module, order: seq<MonoKey>, c: Const)
    requires forall k | k in order :: Known(TemplatesOf(m.funcs), k)
    requires LeastClosed(TemplatesOf(m.funcs), RootKeys(TemplatesOf(m.funcs), m), Elements(order))
    requires Checked(m, Elements(order)) && Linked(LinkOf(m, order)) && c in m.consts && ConstAgrees(TemplatesOf(m.funcs), c)
    ensures ConstAgrees(map[], c.(value := RwExpr(TemplatesOf(m.funcs), c.value)))
  {
    hide Linked, GoodExpr, ExprUses, ExprKeys, Known, Output, Agrees, ResolvedTy, InstanceName;
    var l := LinkOf(m, order);
    RootsCover(l.ts, m);
    SubstExprNothing(c.value);
    assert ConcreteSubst(map[]);
    SubstVarsNothing(map[]);
    SubstNothing(c.ty);
    AgreesAfter(l, map[], map[], c.value);
    TyAfter(l, map[], c.value);
  }

  lemma InstanceAgrees(m: Module, order: seq<MonoKey>, k: MonoKey)
    requires forall k | k in order :: Known(TemplatesOf(m.funcs), k)
    requires LeastClosed(TemplatesOf(m.funcs), RootKeys(TemplatesOf(m.funcs), m), Elements(order))
    requires Checked(m, Elements(order)) && Linked(LinkOf(m, order)) && k in order
    requires forall f | f in m.funcs :: FuncAgrees(TemplatesOf(m.funcs), f)
    ensures k.name in TemplatesOf(m.funcs) && FuncAgrees(map[], Instance(TemplatesOf(m.funcs), k))
  {
    hide Linked, GoodBlock, BlockUses, BlockKeys, FuncHasParam, Output, AgreesBlock, InstanceName, RootKeys, BlockParams, ToSubst, Key, ConcreteSubst;
    var l, s := LinkOf(m, order), ToSubst(k.args);
    assert k in Elements(order) && Known(l.ts, k);
    DemandInferred(m, Elements(order));
    assert Inferred(k);
    Lim.AcceptedExactlyWhenCovered(l.ts, k.name, s);
    var f := l.ts[k.name];
    assert f in m.funcs && GoodFunc(l.ts, l.inst, f);
    BlockUsesWithin(l.ts, f.body);
    assert NextKeys(l.ts, k) <= l.keys;
    ParamVarsApart(l, f.params);
    ParamVarsAfter(f.params, s);
    assert FuncAgrees(l.ts, f);
    AgreesBlockAfter(l, s, ParamVars(f.params), f.returnTy, f.body);
  }

  /**
    If the annotations of a well-formed module agree, those of the output do, read as they stand:
    locals, lists, branches, assignments and returns of every function kept or generated.
  */
  lemma AnnotationsStayAgreed(m: Module, order: seq<MonoKey>)
    requires forall k | k in order :: Known(TemplatesOf(m.funcs), k)
    requires LeastClosed(TemplatesOf(m.funcs), RootKeys(TemplatesOf(m.funcs), m), Elements(order))
    requires WellFormed(m, Elements(order))
    requires (forall f | f in m.funcs :: FuncAgrees(TemplatesOf(m.funcs), f)) && forall c | c in m.consts :: ConstAgrees(TemplatesOf(m.funcs), c)
    ensures forall f | f in Output(m, order).funcs :: FuncAgrees(map[], f)
    ensures forall c | c in Output(m, order).consts :: ConstAgrees(map[], c)
  {
    hide Checked, DistinctNames, Linked, LeastClosed, FuncAgrees, ConstAgrees, Known, Output, LinkOf, Instance, RwFunc, RwExpr;
    LinkRest(m, order);
    var ts := TemplatesOf(m.funcs);
    forall f | f in Output(m, order).funcs ensures FuncAgrees(map[], f) {
      OutputFunc(m, order, f);
      if f in Kept(ts, m.funcs) {
        var g := KeptFrom(ts, m.funcs, f);
        KeptAgrees(m, order, g);
      } else {
        var i :| 0 <= i < |order| && f == Instances(ts, order)[i];
        assert order[i] in order;
        InstanceAgrees(m, order, order[i]);
      }
    }
    forall c | c in Output(m, order).consts ensures ConstAgrees(map[], c) {
      var d := OutputConst(m, order, c);
      ConstantAgrees(m, order, d);
    }
  }

  /** The hypothesis holds of the example's module, whose call still bears the template's type. */
  lemma IdentityModuleAgrees()
    ensures forall f | f in Ex.MODULE.funcs :: FuncAgrees(TemplatesOf(Ex.MODULE.funcs), f)
    ensures Ex.CALL.ty != ResolvedTy(TemplatesOf(Ex.MODULE.funcs), Ex.CALL)
  {
    var ts := TemplatesOf(Ex.MODULE.funcs);
    Ex.TheTemplates();
    CallIsInt(ts);
    IdentityAgrees(ts);
    MainAgrees(ts);
  }

  lemma IdentityAgrees(ts: Templates)
    ensures FuncAgrees(ts, Ex.IDENTITY)
  {
    var ps, b := Ex.IDENTITY.params, Ex.IDENTITY.body;
    assert ps[..0] == [] && ParamVars([]) == map[] && ParamVars(ps) == map["x" := Ex.T];
    assert b[1..] == [];
    assert AgreesStmt(ts, ParamVars(ps), Ex.T, b[0]);
  }

  lemma MainAgrees(ts: Templates)
    requires ts == map["id" := Ex.IDENTITY]
    ensures FuncAgrees(ts, Ex.MAIN)
  {
    var b := Ex.MAIN.body;
    CallIsInt(ts);
    assert b[1..] == [];
    CallAgrees(ts);
    assert ParamVars([]) == map[];
    assert AgreesStmt(ts, map[], Ex.INT, b[0]);
  }

  lemma CallAgrees(ts: Templates)
    ensures Agrees(ts, map[], Ex.CALL)
  {
    var Call(callee, args) := Ex.CALL.kind;
    var five := args[0].value;
    assert Agrees(ts, map[], five);
    assert AgreesArg(ts, map[], args[0]);
    assert args[1..] == [];
    assert AgreesArgs(ts, map[], []);
    assert AgreesArgs(ts, map[], args);
    assert Agrees(ts, map[], callee);
  }

  lemma CallIsInt(ts: Templates)
    requires ts == map["id" := Ex.IDENTITY]
    ensures ResolvedTy(ts, Ex.CALL) == Ex.INT
  {
    hide Instantiates;
    var args := Retyped(ts, Ex.ARGS);
    assert args[0] == RetypedArg(ts, Ex.ARGS[0]);
    assert ResolvedTy(ts, Ex.ARGS[0].value) == Ex.INT;
    assert args[0] == Ex.ARGS[0];
    assert args == Ex.ARGS;
    Ex.CallIsTyped();
    forall i | Instantiates(Ex.IDENTITY, Ex.ARGS, i) ensures SubstTy(Ex.T, i) == Ex.INT { ArgumentDecides(i); }
  }

  lemma ArgumentDecides(i: Subst)
    requires Instantiates(Ex.IDENTITY, Ex.ARGS, i)
    ensures SubstTy(Ex.T, i) == Ex.INT
  {
    Lim.OneMatch(Ex.IDENTITY.params, Ex.ARGS);
    var ms: seq<Match> := [(0, 0)];
    assert ExpectedOf(Ex.IDENTITY.params, Ex.ARGS, ms[0]) == Ex.T;
  }
}
