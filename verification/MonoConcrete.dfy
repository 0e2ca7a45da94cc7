/**
  The output is concrete: once generic calls are resolved, no type parameter is left in it.
*/
module MonoConcrete {
  import opened Wrappers
  import opened Hir
  import opened TypeInference
  import opened CallInference
  import opened MonoNames
  import opened Monomorph
  import opened MonoModule
  import opened HirEval
  import opened MonoMeaning
  import opened MonoSimulation
  import opened MonoTheorem

  /**
    No type in the code has a parameter, where the type of a generic call is worked out from
    its arguments and the annotation of its callee does not matter.
  */
  ghost predicate Settled(ts: Templates, e: Expr)
    decreases e
  {
    && TyParams(ResolvedTy(ts, e)) == {}
    && match e.kind
       case Binary(_, lhs, rhs) => Settled(ts, lhs) && Settled(ts, rhs)
       case Call(callee, args) => ((callee.kind.Var? && callee.kind.name in ts) || Settled(ts, callee)) && SettledArgs(ts, args)
       case AssociatedCall(receiver, _, operands) => TyParams(receiver) == {} && SettledExprs(ts, operands)
       case ListLit(elemTy, elements) => TyParams(elemTy) == {} && SettledExprs(ts, elements)
       case IfExpr(cond, thn, els) => Settled(ts, cond) && Settled(ts, thn) && Settled(ts, els)
       case _ => true
  }

  ghost predicate SettledArg(ts: Templates, a: Arg)
    decreases a
  {
    Settled(ts, a.value)
  }

  ghost predicate SettledArgs(ts: Templates, args: seq<Arg>)
    decreases args
  {
    forall i | 0 <= i < |args| :: SettledArg(ts, args[i])
  }

  ghost predicate SettledExprs(ts: Templates, es: seq<Expr>)
    decreases es
  {
    forall i | 0 <= i < |es| :: Settled(ts, es[i])
  }

  ghost predicate SettledStmt(ts: Templates, st: Stmt)
    decreases st
  {
    match st
    case Let(_, ty, value) => TyParams(ty) == {} && Settled(ts, value)
    case Assign(_, value) => Settled(ts, value)
    case Return(result) => result.Some? ==> Settled(ts, result.value)
    case Eval(value) => Settled(ts, value)
    case If(cond, thn, els) => Settled(ts, cond) && SettledBlock(ts, thn) && SettledBlock(ts, els)
    case While(cond, body) => Settled(ts, cond) && SettledBlock(ts, body)
  }

  ghost predicate SettledBlock(ts: Templates, b: seq<Stmt>)
    decreases b
  {
    forall i | 0 <= i < |b| :: SettledStmt(ts, b[i])
  }

  ghost predicate AllTemplates(ts: Templates) { forall name | name in ts :: SignatureHasParam(ts[name]) }

  /** Code to rewrite: good, settled, and in need of no type argument. */
  ghost predicate Ripe(ts: Templates, inst: set<string>, e: Expr) {
    GoodExpr(ts, inst, e) && Settled(ts, e) && ExprUses(ts, e) == {}
  }

  lemma RewrittenTy(ts: Templates, inst: set<string>, e: Expr)
    requires AllTemplates(ts) && Ripe(ts, inst, e)
    ensures RwExpr(ts, e).ty == ResolvedTy(ts, e) && !HasParam(RwExpr(ts, e).ty)
  {
    hide GoodExpr, Settled, ExprUses, ResolvedTy, RwExpr, SubstExpr;
    SettledTy(ts, e);
    var nothing: Subst := map[];
    SubstExprNothing(e);
    RwKeepsTy(ts, inst, e, nothing);
    SubstNothing(ResolvedTy(ts, e));
    NoParams(ResolvedTy(ts, e));
  }

  lemma SettledTy(ts: Templates, e: Expr)
    requires Settled(ts, e)
    ensures TyParams(ResolvedTy(ts, e)) == {}
  {
  }

  lemma InstanceRefConcrete(ts: Templates, key: MonoKey)
    requires key.name in ts && !FuncHasParam(Specialized(ts, key))
    ensures !ExprHasParam(InstanceRef(ts, key))
  {
    hide Specialized, BlockHasParam;
    var f := Specialized(ts, key);
    var ty := InstanceRef(ts, key).ty;
    forall i | 0 <= i < |ty.args| ensures !HasParam(ty.args[i]) {
      assert i < |f.params| ==> ty.args[i] == f.params[i].ty;
    }
  }

  lemma {:induction false} SettledRewritten(ts: Templates, inst: set<string>, e: Expr)
    requires AllTemplates(ts) && Ripe(ts, inst, e)
    ensures !ExprHasParam(RwExpr(ts, e))
    decreases e, 1
  {
    hide ResolvedTy, AllTemplates, CallOutcome;
    RewrittenTy(ts, inst, e);
    match e.kind
    case Binary(_, lhs, rhs) => SettledRewritten(ts, inst, lhs); SettledRewritten(ts, inst, rhs);
    case Call(_, _) => SettledCall(ts, inst, e);
    case AssociatedCall(receiver, _, operands) => NoParams(receiver); SettledOperands(ts, inst, operands);
    case ListLit(elemTy, elements) => NoParams(elemTy); SettledOperands(ts, inst, elements);
    case IfExpr(cond, thn, els) =>
      SettledRewritten(ts, inst, cond); SettledRewritten(ts, inst, thn); SettledRewritten(ts, inst, els);
    case _ =>
  }

  /** A generic call gets the instance's own type for its callee; another keeps its callee. */
  lemma {:induction false} SettledCall(ts: Templates, inst: set<string>, e: Expr)
    requires e.kind.Call? && AllTemplates(ts) && Ripe(ts, inst, e) && !HasParam(RwExpr(ts, e).ty)
    ensures !ExprHasParam(RwExpr(ts, e))
    decreases e, 0
  {
    hide ResolvedTy, AllTemplates, Instantiates, Specialized, Retyped, ArgTyParams, InstanceRef, Outcome, FuncHasParam, SubstTy;
    var Call(callee, args) := e.kind;
    SettledArgsRewritten(ts, inst, args);
    var key := CallOutcome(ts, RwExpr(ts, callee), RwArgs(ts, args));
    if callee.kind.Var? && callee.kind.name in ts {
      assert key.Some? by { GenericCallIsResolved(ts, inst, e); }
      InstanceRefConcrete(ts, key.value);
    } else {
      SettledRewritten(ts, inst, callee);
      SubstExprNothing(callee);
      CallStays(ts, callee, RwArgs(ts, args), map[]);
    }
  }

  lemma {:induction false} GenericCallIsResolved(ts: Templates, inst: set<string>, e: Expr)
    requires e.kind.Call? && AllTemplates(ts) && Ripe(ts, inst, e)
    requires e.kind.callee.kind.Var? && e.kind.callee.kind.name in ts
    ensures CallOutcome(ts, RwExpr(ts, e.kind.callee), RwArgs(ts, e.kind.args)).Some?
  {
    hide Settled, Instantiates, Specialized, SubstTy, Outcome, ResolvedTy, SignatureHasParam;
    var Call(callee, args) := e.kind;
    var nothing: Subst := map[];
    var i :| Instantiates(ts[callee.kind.name], Retyped(ts, args), i);
    ArgsTrack(ts, inst, args, nothing);
    SubstExprNothing(e);
    assert SubstArgs(args, nothing) == args;
    CallResolves(ts, callee.kind.name, Retyped(ts, args), i, RwArgs(ts, args), nothing);
  }

  lemma {:induction false} SettledArgRewritten(ts: Templates, inst: set<string>, a: Arg)
    requires AllTemplates(ts) && Ripe(ts, inst, a.value)
    ensures !ExprHasParam(RwArg(ts, a).value)
    decreases a
  {
    SettledRewritten(ts, inst, a.value);
  }

  lemma {:induction false} SettledArgsRewritten(ts: Templates, inst: set<string>, args: seq<Arg>)
    requires AllTemplates(ts) && GoodArgs(ts, inst, args) && SettledArgs(ts, args) && ArgsUses(ts, args) == {}
    ensures forall i | 0 <= i < |args| :: !ExprHasParam(RwArgs(ts, args)[i].value)
    decreases args
  {
    hide AllTemplates, GoodExpr, Settled, ExprUses, RwExpr;
    forall i | 0 <= i < |args| ensures !ExprHasParam(RwArgs(ts, args)[i].value) {
      assert GoodArg(ts, inst, args[i]) && SettledArg(ts, args[i]);
      assert forall p | p in ArgUses(ts, args[i]) :: p in ArgsUses(ts, args);
      assert RwArgs(ts, args)[i] == RwArg(ts, args[i]);
      SettledArgRewritten(ts, inst, args[i]);
    }
  }

  lemma {:induction false} SettledOperands(ts: Templates, inst: set<string>, es: seq<Expr>)
    requires AllTemplates(ts) && GoodExprs(ts, inst, es) && SettledExprs(ts, es) && ExprsUses(ts, es) == {}
    ensures forall i | 0 <= i < |es| :: !ExprHasParam(RwExprs(ts, es)[i])
    decreases es
  {
    hide AllTemplates, GoodExpr, Settled, ExprUses, RwExpr;
    forall i | 0 <= i < |es| ensures !ExprHasParam(RwExprs(ts, es)[i]) {
      assert forall p | p in ExprUses(ts, es[i]) :: p in ExprsUses(ts, es);
      assert RwExprs(ts, es)[i] == RwExpr(ts, es[i]);
      SettledRewritten(ts, inst, es[i]);
    }
  }

  lemma {:induction false} SettledStmtRewritten(ts: Templates, inst: set<string>, st: Stmt)
    requires AllTemplates(ts) && GoodStmt(ts, inst, st) && SettledStmt(ts, st) && StmtUses(ts, st) == {}
    ensures !StmtHasParam(RwStmt(ts, st))
    decreases st
  {
    hide AllTemplates, GoodExpr, Settled, ExprUses, RwExpr, ExprHasParam;
    match st
    case Let(_, ty, value) => NoParams(ty); SettledRewritten(ts, inst, value);
    case Assign(_, value) => SettledRewritten(ts, inst, value);
    case Return(result) => if result.Some? { SettledRewritten(ts, inst, result.value); }
    case Eval(value) => SettledRewritten(ts, inst, value);
    case If(cond, thn, els) =>
      SettledRewritten(ts, inst, cond); SettledBlockRewritten(ts, inst, thn); SettledBlockRewritten(ts, inst, els);
    case While(cond, body) => SettledRewritten(ts, inst, cond); SettledBlockRewritten(ts, inst, body);
  }

  lemma {:induction false} SettledBlockRewritten(ts: Templates, inst: set<string>, b: seq<Stmt>)
    requires AllTemplates(ts) && GoodBlock(ts, inst, b) && SettledBlock(ts, b) && BlockUses(ts, b) == {}
    ensures !BlockHasParam(RwBlock(ts, b))
    decreases b
  {
    forall i | 0 <= i < |b| ensures !StmtHasParam(RwBlock(ts, b)[i]) {
      assert forall p | p in StmtUses(ts, b[i]) :: p in BlockUses(ts, b);
      assert RwBlock(ts, b)[i] == RwStmt(ts, b[i]);
      SettledStmtRewritten(ts, inst, b[i]);
    }
  }

  /**
    After the pass no type parameter is left anywhere, although lowering put some on every
    generic call: none in the instances, none in the functions and constants kept.
  */
  lemma NoParameterIsLeft(m: Module, order: seq<MonoKey>)
    requires forall k | k in order :: Known(TemplatesOf(m.funcs), k)
    requires WellFormed(m, Elements(order))
    requires forall f | f in m.funcs && f.name !in TemplatesOf(m.funcs) :: SettledBlock(TemplatesOf(m.funcs), f.body)
    requires forall c | c in m.consts :: Settled(TemplatesOf(m.funcs), c.value)
    ensures forall f | f in Output(m, order).funcs :: !FuncHasParam(f)
    ensures forall c | c in Output(m, order).consts :: !ExprHasParam(c.value)
  {
    hide GoodExpr, GoodBlock, ExprUses, BlockUses, Settled, SettledBlock, DistinctNames, BlockHasParam, ExprHasParam, Specialized;
    var ts, inst := TemplatesOf(m.funcs), InstanceNames(Elements(order));
    forall f | f in Output(m, order).funcs ensures !FuncHasParam(f) {
      if f in Kept(ts, m.funcs) {
        var g := KeptFrom(ts, m.funcs, f);
        assert GoodFunc(ts, inst, g);
        SettledBlockRewritten(ts, inst, g.body);
      } else {
        var i :| 0 <= i < |order| && f == Instances(ts, order)[i];
        assert order[i] in order;
        InstanceConcrete(ts, order[i]);
      }
    }
    forall c | c in Output(m, order).consts ensures !ExprHasParam(c.value) {
      var i :| 0 <= i < |m.consts| && c == RwConsts(ts, m.consts)[i];
      assert m.consts[i] in m.consts;
      SettledRewritten(ts, inst, m.consts[i].value);
    }
  }
}
