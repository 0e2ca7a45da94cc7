/** The calls the pass rewrites are typed by the functions they now call. */
module MonoSignatures {
  import opened Wrappers
  import opened Hir
  import opened TypeInference
  import opened CallInference
  import opened MonoNames
  import opened Monomorph
  import opened MonoModule
  import opened HirEval
  import opened MonoMeaning
  import opened MonoSimulation
  import opened MonoTheorem
  import Lim = MonoLimits

  /** A function type: the types of the parameters in their order, then the type returned. */
  predicate HasSignature(ty: Ty, f: Func) {
    && ty.App? && ty.head == Head.Func && |ty.args| == |f.params| + 1
    && (forall i | 0 <= i < |f.params| :: ty.args[i] == f.params[i].ty) && ty.args[|f.params|] == f.returnTy
  }

  /** The list of such elements. */
  predicate IsListOf(ty: Ty, elem: Ty) { ty == App(Head.List, [elem]) }

  /**
    Each argument has the type of the parameter it goes to; one that is collected by a variadic
    parameter and not spread may have the type of its elements.
  */
  predicate ArgumentsFit(f: Func, args: seq<Arg>) {
    var ms := CallMatches(f.params, args);
    forall i | 0 <= i < |ms| ::
      var p, a := f.params[ms[i].0].ty, args[ms[i].1];
      a.value.ty == p || (ms[i].0 == VariadicIndex(f.params) && !a.spread && IsListOf(p, a.value.ty))
  }

  /** A call of an instance names a function of the output and is typed by it. */
  predicate CallFits(funcs: seq<Func>, inst: set<string>, e: Expr)
    requires e.kind.Call?
  {
    var Call(callee, args) := e.kind;
    callee.kind.Var? && callee.kind.name in inst ==>
      var f := Lookup(funcs, callee.kind.name);
      f.Some? && HasSignature(callee.ty, f.value) && e.ty == f.value.returnTy && ArgumentsFit(f.value, args)
  }

  predicate Fitted(funcs: seq<Func>, inst: set<string>, e: Expr)
    decreases e
  {
    match e.kind
    case Binary(_, lhs, rhs) => Fitted(funcs, inst, lhs) && Fitted(funcs, inst, rhs)
    case Call(callee, args) => CallFits(funcs, inst, e) && Fitted(funcs, inst, callee) && FittedArgs(funcs, inst, args)
    case AssociatedCall(_, _, operands) => FittedAll(funcs, inst, operands)
    case ListLit(_, elements) => FittedAll(funcs, inst, elements)
    case IfExpr(cond, thn, els) => Fitted(funcs, inst, cond) && Fitted(funcs, inst, thn) && Fitted(funcs, inst, els)
    case _ => true
  }

  predicate FittedArg(funcs: seq<Func>, inst: set<string>, a: Arg)
    decreases a
  {
    Fitted(funcs, inst, a.value)
  }

  predicate FittedArgs(funcs: seq<Func>, inst: set<string>, args: seq<Arg>)
    decreases args
  {
    args == [] || (FittedArg(funcs, inst, args[0]) && FittedArgs(funcs, inst, args[1..]))
  }

  predicate FittedAll(funcs: seq<Func>, inst: set<string>, es: seq<Expr>)
    decreases es
  {
    es == [] || (Fitted(funcs, inst, es[0]) && FittedAll(funcs, inst, es[1..]))
  }

  predicate FittedStmt(funcs: seq<Func>, inst: set<string>, st: Stmt)
    decreases st
  {
    match st
    case Let(_, _, value) => Fitted(funcs, inst, value)
    case Assign(_, value) => Fitted(funcs, inst, value)
    case Return(result) => result.Some? ==> Fitted(funcs, inst, result.value)
    case Eval(value) => Fitted(funcs, inst, value)
    case If(cond, thn, els) => Fitted(funcs, inst, cond) && FittedBlock(funcs, inst, thn) && FittedBlock(funcs, inst, els)
    case While(cond, body) => Fitted(funcs, inst, cond) && FittedBlock(funcs, inst, body)
  }

  predicate FittedBlock(funcs: seq<Func>, inst: set<string>, b: seq<Stmt>)
    decreases b
  {
    b == [] || (FittedStmt(funcs, inst, b[0]) && FittedBlock(funcs, inst, b[1..]))
  }

  // ---------------------------------------------------------------------------
  // One call
  // ---------------------------------------------------------------------------

  lemma RefHasSignature(ts: Templates, key: MonoKey)
    requires key.name in ts
    ensures HasSignature(InstanceRef(ts, key).ty, Instance(ts, key))
    ensures InstanceRef(ts, key).kind == Var(InstanceName(key)) && Instance(ts, key).returnTy == Specialized(ts, key).returnTy
  {
  }

  lemma MatchesAlike(f: Func, g: Func, args: seq<Arg>)
    requires Names(g.params) == Names(f.params) && VariadicIndex(g.params) == VariadicIndex(f.params)
    ensures CallMatches(g.params, args) == CallMatches(f.params, args)
  {
  }

  /** The parameters of an instance are those of its template under the type arguments. */
  lemma InstanceParams(ts: Templates, name: string, c: Subst)
    requires name in ts
    ensures
      var g := Instance(ts, Key(name, c));
      |g.params| == |ts[name].params| && forall i | 0 <= i < |g.params| :: g.params[i].ty == SubstTy(ts[name].params[i].ty, c)
  {
    KeyKeepsSubst(c);
  }

  lemma GenericArgumentsFit(l: Link, s: Subst, e: Expr, c: Subst, key: MonoKey)
    requires e.kind.Call? && Linked(l) && ReadyExpr(l, s, e) && e.kind.callee.kind.Var? && e.kind.callee.kind.name in l.ts
    requires key.name in l.ts && key == Key(e.kind.callee.kind.name, c) && Counterpart(l, c, l.ts[e.kind.callee.kind.name], Instance(l.ts, key))
    requires forall i | Instantiates(l.ts[e.kind.callee.kind.name], Retyped(l.ts, e.kind.args), i) :: Compose(i, s) == c
    ensures ArgumentsFit(Instance(l.ts, key), AfterArgs(l, s, e.kind.args))
  {
    hide FuncsLinked, InstancesLinked, ConstsLinked, ConcreteSubst, IsTemplate, InstanceRef, Instance, Key, SubstTy, CallMatches,
      Retyped, Compose, VariadicIndex, GoodBlock, ReadyBlock;
    var name, args := e.kind.callee.kind.name, e.kind.args;
    var f, g, after := l.ts[name], Instance(l.ts, key), AfterArgs(l, s, args);
    ArgsTrack(l.ts, l.inst, args, s);
    var i :| Instantiates(f, Retyped(l.ts, args), i);
    TrackedMatches(f, Retyped(l.ts, args), after, s);
    TrackedTyped(f, Retyped(l.ts, args), i, after, s);
    MatchesAlike(f, g, after);
    InstanceParams(l.ts, name, c);
    var ms := CallMatches(g.params, after);
    forall k | 0 <= k < |ms|
      ensures
        var p, a := g.params[ms[k].0].ty, after[ms[k].1];
        a.value.ty == p || (ms[k].0 == VariadicIndex(g.params) && !a.spread && IsListOf(p, a.value.ty))
    {
      ExpectedUnder(f.params[ms[k].0], ms[k].0 == VariadicIndex(f.params), after[ms[k].1].spread, c);
    }
  }

  /** The type an argument is matched against, under type arguments. */
  lemma ExpectedUnder(p: ParamDecl, variadic: bool, spread: bool, c: Subst)
    ensures
      var t := SubstTy(Expected(p, variadic, spread), c);
      t == SubstTy(p.ty, c) || (variadic && !spread && IsListOf(SubstTy(p.ty, c), t))
  {
    if p.ty.App? && |p.ty.args| == 1 { assert p.ty.args == [p.ty.args[0]]; }
  }

  lemma GenericCallFits(l: Link, s: Subst, e: Expr)
    requires e.kind.Call? && Linked(l) && ReadyExpr(l, s, e) && e.kind.callee.kind.Var? && e.kind.callee.kind.name in l.ts
    ensures AfterExpr(l, s, e).kind.Call? && CallFits(l.after.funcs, l.inst, AfterExpr(l, s, e))
    ensures AfterExpr(l, s, e).kind.callee.kind.Var? && AfterExpr(l, s, e).kind.args == AfterArgs(l, s, e.kind.args)
  {
    hide FuncsLinked, ConstsLinked, TemplatesLinked, ReadyExpr, ArgumentsFit, HasSignature, InstanceRef, Instance, Specialized, Counterpart,
      Instantiates, Outcome, Compose, Key, NextKeys;
    var c, key := GenericCallResolved(l, s, e);
    GenericArgumentsFit(l, s, e, c, key);
    RefHasSignature(l.ts, key);
    ResolvedCallTy(l, s, e, key);
  }

  lemma ResolvedCallTy(l: Link, s: Subst, e: Expr, key: MonoKey)
    requires e.kind.Call? && key.name in l.ts
    requires CallOutcome(l.ts, RwExpr(l.ts, SubstExpr(e.kind.callee, s)), AfterArgs(l, s, e.kind.args)) == Some(key)
    ensures AfterExpr(l, s, e) == Expr(Call(InstanceRef(l.ts, key), AfterArgs(l, s, e.kind.args)), Specialized(l.ts, key).returnTy)
  {
    hide CallOutcome, InstanceRef, Specialized;
  }

  // ---------------------------------------------------------------------------
  // All calls
  // ---------------------------------------------------------------------------

  /** A callee that is no template is left alone, and names no instance. */
  lemma PlainCallFits(l: Link, s: Subst, e: Expr)
    requires e.kind.Call? && ReadyExpr(l, s, e) && !(e.kind.callee.kind.Var? && e.kind.callee.kind.name in l.ts)
    ensures
      var after := AfterExpr(l, s, e);
      && after.kind == Call(AfterExpr(l, s, e.kind.callee), AfterArgs(l, s, e.kind.args))
      && CallFits(l.after.funcs, l.inst, after)
  {
    hide Outcome, ConcreteSubst, ArgumentsFit, HasSignature, ExprUses, ExprKeys;
    var Call(callee, args) := e.kind;
    CallStays(l.ts, callee, AfterArgs(l, s, args), s);
    var c := AfterExpr(l, s, callee);
    assert c.kind.Var? ==> callee.kind.Var? && c.kind.name == callee.kind.name;
    assert GoodExpr(l.ts, l.inst, callee);
  }

  lemma {:induction false} FittedAfter(l: Link, s: Subst, e: Expr)
    requires Linked(l) && ReadyExpr(l, s, e)
    ensures Fitted(l.after.funcs, l.inst, AfterExpr(l, s, e))
    decreases e, 1
  {
    hide Linked, CallFits, ConcreteSubst;
    match e.kind
    case Binary(_, lhs, rhs) => FittedAfter(l, s, lhs); FittedAfter(l, s, rhs);
    case Call(_, _) => FittedCall(l, s, e);
    case AssociatedCall(_, _, operands) => FittedAllAfter(l, s, operands);
    case ListLit(_, elements) => FittedAllAfter(l, s, elements);
    case IfExpr(cond, thn, els) => FittedAfter(l, s, cond); FittedAfter(l, s, thn); FittedAfter(l, s, els);
    case _ =>
  }

  lemma {:induction false} FittedCall(l: Link, s: Subst, e: Expr)
    requires e.kind.Call? && Linked(l) && ReadyExpr(l, s, e)
    ensures Fitted(l.after.funcs, l.inst, AfterExpr(l, s, e))
    decreases e, 0
  {
    hide Linked, CallFits, ReadyExpr, ReadyArgs, AfterExpr, AfterArgs, FittedArgs;
    var Call(callee, args) := e.kind;
    CallArgsReady(l, s, e);
    FittedArgsAfter(l, s, args);
    if callee.kind.Var? && callee.kind.name in l.ts {
      GenericCallFits(l, s, e);
    } else {
      CalleeReady(l, s, e);
      FittedAfter(l, s, callee);
      PlainCallFits(l, s, e);
    }
  }

  lemma CalleeReady(l: Link, s: Subst, e: Expr)
    requires e.kind.Call? && ReadyExpr(l, s, e)
    ensures ReadyExpr(l, s, e.kind.callee)
  {
    hide ConcreteSubst;
  }

  lemma {:induction false} FittedArgAfter(l: Link, s: Subst, a: Arg)
    requires Linked(l) && ReadyExpr(l, s, a.value)
    ensures FittedArg(l.after.funcs, l.inst, a.(value := AfterExpr(l, s, a.value)))
    decreases a
  {
    hide Linked, ReadyExpr, AfterExpr;
    FittedAfter(l, s, a.value);
  }

  lemma {:induction false} FittedArgsAfter(l: Link, s: Subst, args: seq<Arg>)
    requires Linked(l) && ReadyArgs(l, s, args)
    ensures FittedArgs(l.after.funcs, l.inst, AfterArgs(l, s, args))
    decreases args
  {
    hide Linked, ReadyArgs, ReadyExpr, AfterArgs, AfterExpr, FittedArg;
    if args != [] {
      ReadyArgAt(l, s, args);
      FittedArgAfter(l, s, args[0]);
      FittedArgsAfter(l, s, args[1..]);
    }
  }

  lemma {:induction false} FittedAllAfter(l: Link, s: Subst, es: seq<Expr>)
    requires Linked(l) && ReadyExprs(l, s, es)
    ensures FittedAll(l.after.funcs, l.inst, AfterExprs(l, s, es))
    decreases es
  {
    hide Linked, ReadyExprs, ReadyExpr, AfterExprs, AfterExpr, Fitted;
    if es != [] {
      ReadyExprAt(l, s, es);
      FittedAfter(l, s, es[0]);
      FittedAllAfter(l, s, es[1..]);
    }
  }

  lemma {:induction false} FittedStmtAfter(l: Link, s: Subst, st: Stmt)
    requires Linked(l) && ReadyStmt(l, s, st)
    ensures FittedStmt(l.after.funcs, l.inst, AfterStmt(l, s, st))
    decreases st
  {
    hide Linked, ConcreteSubst, Fitted;
    match st
    case Let(_, _, value) => FittedAfter(l, s, value);
    case Assign(_, value) => FittedAfter(l, s, value);
    case Return(result) => if result.Some? { FittedAfter(l, s, result.value); }
    case Eval(value) => FittedAfter(l, s, value);
    case If(cond, thn, els) => FittedAfter(l, s, cond); FittedBlockAfter(l, s, thn); FittedBlockAfter(l, s, els);
    case While(cond, body) => FittedAfter(l, s, cond); FittedBlockAfter(l, s, body);
  }

  lemma {:induction false} FittedBlockAfter(l: Link, s: Subst, b: seq<Stmt>)
    requires Linked(l) && ReadyBlock(l, s, b)
    ensures FittedBlock(l.after.funcs, l.inst, AfterBlock(l, s, b))
    decreases b
  {
    hide Linked, ReadyBlock, ReadyStmt, AfterBlock, AfterStmt, FittedStmt;
    if b != [] {
      ReadyStmtAt(l, s, b);
      FittedStmtAfter(l, s, b[0]);
      FittedBlockAfter(l, s, b[1..]);
    }
  }

  // ---------------------------------------------------------------------------
  // The keys in demand
  // ---------------------------------------------------------------------------

  /** A key the inference made: sorted, and of closed types. */
  ghost predicate Inferred(k: MonoKey) {
    k == Key(k.name, ToSubst(k.args)) && ConcreteSubst(ToSubst(k.args))
  }

  ghost predicate AllInferred(keys: set<MonoKey>) { forall k | k in keys :: Inferred(k) }

  lemma {:induction false} InferConcrete(template: Ty, actual: Ty, s: Subst)
    requires ConcreteSubst(s)
    ensures ConcreteSubst(InferTy(template, actual, s))
    decreases template, 1
  {
    if template.App? && actual.App? && |template.args| == |actual.args| { InferAllConcrete(template.args, actual.args, s); }
  }

  lemma {:induction false} InferAllConcrete(templates: seq<Ty>, actuals: seq<Ty>, s: Subst)
    requires |templates| == |actuals| && ConcreteSubst(s)
    ensures ConcreteSubst(InferTys(templates, actuals, s))
    decreases templates, 0
  {
    if templates != [] {
      InferConcrete(templates[0], actuals[0], s);
      InferAllConcrete(templates[1..], actuals[1..], InferTy(templates[0], actuals[0], s));
    }
  }

  lemma {:induction false} InferMatchesConcrete(params: seq<ParamDecl>, args: seq<Arg>, ms: seq<Match>, s: Subst)
    requires InRange(ms, |params|, |args|) && ConcreteSubst(s)
    ensures ConcreteSubst(InferMatches(params, args, ms, s))
  {
    hide ConcreteSubst, InferTy, Expected;
    if ms != [] {
      InferConcrete(ExpectedOf(params, args, ms[0]), args[ms[0].1].value.ty, s);
      InferMatchesConcrete(params, args, ms[1..], InferTy(ExpectedOf(params, args, ms[0]), args[ms[0].1].value.ty, s));
    }
  }

  lemma OutcomeInferred(ts: Templates, callee: Expr, args: seq<Arg>)
    ensures CallOutcome(ts, callee, args).Some? ==> Inferred(CallOutcome(ts, callee, args).value)
  {
    hide FuncHasParam, Specialized, CallMatches;
    if CallOutcome(ts, callee, args).Some? {
      var params := ts[callee.kind.name].params;
      assert ConcreteSubst(map[]);
      InferMatchesConcrete(params, args, CallMatches(params, args), map[]);
      KeyKeepsSubst(InferCall(params, args));
    }
  }

  lemma {:induction false} KeysInferred(ts: Templates, e: Expr)
    ensures AllInferred(ExprKeys(ts, e))
  {
    hide Inferred, CallOutcome;
    match e.kind
    case Binary(_, lhs, rhs) => KeysInferred(ts, lhs); KeysInferred(ts, rhs);
    case Call(callee, args) =>
      KeysInferred(ts, callee);
      forall i | 0 <= i < |args| ensures AllInferred(ArgKeys(ts, args[i])) { KeysInferred(ts, args[i].value); }
      OutcomeInferred(ts, RwExpr(ts, callee), RwArgs(ts, args));
    case AssociatedCall(_, _, operands) =>
      forall i | 0 <= i < |operands| ensures AllInferred(ExprKeys(ts, operands[i])) { KeysInferred(ts, operands[i]); }
    case ListLit(_, elements) =>
      forall i | 0 <= i < |elements| ensures AllInferred(ExprKeys(ts, elements[i])) { KeysInferred(ts, elements[i]); }
    case IfExpr(cond, thn, els) => KeysInferred(ts, cond); KeysInferred(ts, thn); KeysInferred(ts, els);
    case _ =>
  }

  lemma {:induction false} StmtKeysInferred(ts: Templates, st: Stmt)
    ensures AllInferred(StmtKeys(ts, st))
    decreases st
  {
    hide Inferred;
    match st
    case Let(_, _, value) => KeysInferred(ts, value);
    case Assign(_, value) => KeysInferred(ts, value);
    case Return(result) => if result.Some? { KeysInferred(ts, result.value); }
    case Eval(value) => KeysInferred(ts, value);
    case If(cond, thn, els) => KeysInferred(ts, cond); BlockKeysInferred(ts, thn); BlockKeysInferred(ts, els);
    case While(cond, body) => KeysInferred(ts, cond); BlockKeysInferred(ts, body);
  }

  lemma {:induction false} BlockKeysInferred(ts: Templates, b: seq<Stmt>)
    ensures AllInferred(BlockKeys(ts, b))
    decreases b
  {
    hide Inferred;
    forall i | 0 <= i < |b| ensures AllInferred(StmtKeys(ts, b[i])) { StmtKeysInferred(ts, b[i]); }
  }

  lemma RootsInferred(m: Module)
    ensures AllInferred(RootKeys(TemplatesOf(m.funcs), m))
  {
    hide Inferred;
    var ts := TemplatesOf(m.funcs);
    forall i | 0 <= i < |m.funcs| ensures AllInferred(BlockKeys(ts, m.funcs[i].body)) { BlockKeysInferred(ts, m.funcs[i].body); }
    forall i | 0 <= i < |m.consts| ensures AllInferred(ExprKeys(ts, m.consts[i].value)) { KeysInferred(ts, m.consts[i].value); }
  }

  /** Every instance in demand is of closed types. */
  lemma DemandInferred(m: Module, keys: set<MonoKey>)
    requires LeastClosed(TemplatesOf(m.funcs), RootKeys(TemplatesOf(m.funcs), m), keys)
    ensures AllInferred(keys)
  {
    hide Inferred, NextKeys, RootKeys;
    var ts := TemplatesOf(m.funcs);
    RootsInferred(m);
    var u := set k | k in keys && Inferred(k);
    forall k | k in u && k.name in ts ensures NextKeys(ts, k) <= u { NextInferred(ts, k); }
    assert Closed(ts, u);
  }

  lemma NextInferred(ts: Templates, k: MonoKey)
    requires k.name in ts
    ensures AllInferred(NextKeys(ts, k))
  {
    hide Inferred, Specialized;
    BlockKeysInferred(ts, Specialized(ts, k).body);
  }

  // ---------------------------------------------------------------------------
  // The output
  // ---------------------------------------------------------------------------

  lemma KeptFits(m: Module, order: seq<MonoKey>, g: Func)
    requires forall k | k in order :: Known(TemplatesOf(m.funcs), k)
    requires LeastClosed(TemplatesOf(m.funcs), RootKeys(TemplatesOf(m.funcs), m), Elements(order))
    requires Checked(m, Elements(order)) && Linked(LinkOf(m, order)) && g in m.funcs && g.name !in TemplatesOf(m.funcs)
    ensures FittedBlock(Output(m, order).funcs, InstanceNames(Elements(order)), RwBlock(TemplatesOf(m.funcs), g.body))
  {
    hide Linked, GoodBlock, BlockUses, BlockKeys, Known, Output, FittedBlock, InstanceName;
    var l := LinkOf(m, order);
    RootsCover(l.ts, m);
    SubstBlockNothing(g.body);
    assert GoodFunc(l.ts, l.inst, g) && ConcreteSubst(map[]);
    FittedBlockAfter(l, map[], g.body);
  }

  lemma ConstantFits(m: Module, order: seq<MonoKey>, c: Const)
    requires forall k | k in order :: Known(TemplatesOf(m.funcs), k)
    requires LeastClosed(TemplatesOf(m.funcs), RootKeys(TemplatesOf(m.funcs), m), Elements(order))
    requires Checked(m, Elements(order)) && Linked(LinkOf(m, order)) && c in m.consts
    ensures Fitted(Output(m, order).funcs, InstanceNames(Elements(order)), RwExpr(TemplatesOf(m.funcs), c.value))
  {
    hide Linked, GoodExpr, ExprUses, ExprKeys, Known, Output, Fitted, InstanceName;
    var l := LinkOf(m, order);
    RootsCover(l.ts, m);
    SubstExprNothing(c.value);
    assert ConcreteSubst(map[]);
    FittedAfter(l, map[], c.value);
  }

  lemma InstanceFits(m: Module, order: seq<MonoKey>, k: MonoKey)
    requires forall k | k in order :: Known(TemplatesOf(m.funcs), k)
    requires LeastClosed(TemplatesOf(m.funcs), RootKeys(TemplatesOf(m.funcs), m), Elements(order))
    requires Checked(m, Elements(order)) && Linked(LinkOf(m, order)) && k in order
    ensures k.name in TemplatesOf(m.funcs)
    ensures FittedBlock(Output(m, order).funcs, InstanceNames(Elements(order)), Instance(TemplatesOf(m.funcs), k).body)
  {
    hide Linked, GoodBlock, BlockUses, BlockKeys, FuncHasParam, Output, FittedBlock, InstanceName, RootKeys, BlockParams, ToSubst, Key, ConcreteSubst;
    var l, s := LinkOf(m, order), ToSubst(k.args);
    assert k in Elements(order) && Known(l.ts, k);
    DemandInferred(m, Elements(order));
    assert Inferred(k);
    Lim.AcceptedExactlyWhenCovered(l.ts, k.name, s);
    var f := l.ts[k.name];
    assert f in m.funcs && GoodFunc(l.ts, l.inst, f);
    BlockUsesWithin(l.ts, f.body);
    assert NextKeys(l.ts, k) <= l.keys;
    FittedBlockAfter(l, s, f.body);
  }

  /**
    In the output every call of an instance names a function that is there; its callee bears
    that function's type, parameter by parameter, the call bears its return type, and each
    argument has the type of the parameter it goes to.
  */
  lemma CallsFitTheirFunctions(m: Module, order: seq<MonoKey>)
    requires forall k | k in order :: Known(TemplatesOf(m.funcs), k)
    requires LeastClosed(TemplatesOf(m.funcs), RootKeys(TemplatesOf(m.funcs), m), Elements(order))
    requires WellFormed(m, Elements(order))
    ensures
      var after, inst := Output(m, order), InstanceNames(Elements(order));
      && (forall f | f in after.funcs :: FittedBlock(after.funcs, inst, f.body))
      && (forall c | c in after.consts :: Fitted(after.funcs, inst, c.value))
  {
    hide Checked, DistinctNames, Linked, LeastClosed, FittedBlock, Fitted, Known, Output, LinkOf, Instance;
    LinkRest(m, order);
    var ts, inst := TemplatesOf(m.funcs), InstanceNames(Elements(order));
    forall f | f in Output(m, order).funcs ensures FittedBlock(Output(m, order).funcs, inst, f.body) {
      OutputFunc(m, order, f);
      if f in Kept(ts, m.funcs) {
        var g := KeptFrom(ts, m.funcs, f);
        KeptFits(m, order, g);
      } else {
        var i :| 0 <= i < |order| && f == Instances(ts, order)[i];
        assert order[i] in order;
        InstanceFits(m, order, order[i]);
      }
    }
    forall c | c in Output(m, order).consts ensures Fitted(Output(m, order).funcs, inst, c.value) {
      var d := OutputConst(m, order, c);
      ConstantFits(m, order, d);
    }
  }

  lemma OutputFunc(m: Module, order: seq<MonoKey>, f: Func)
    requires (forall k | k in order :: Known(TemplatesOf(m.funcs), k)) && f in Output(m, order).funcs
    ensures
      var ts := TemplatesOf(m.funcs);
      f in Kept(ts, m.funcs) || exists i :: 0 <= i < |order| && f == Instances(ts, order)[i]
  {
  }

  lemma OutputConst(m: Module, order: seq<MonoKey>, c: Const) returns (d: Const)
    requires (forall k | k in order :: Known(TemplatesOf(m.funcs), k)) && c in Output(m, order).consts
    ensures d in m.consts && c == d.(value := RwExpr(TemplatesOf(m.funcs), d.value))
  {
    var i :| 0 <= i < |m.consts| && c == RwConsts(TemplatesOf(m.funcs), m.consts)[i];
    d := m.consts[i];
  }
}
