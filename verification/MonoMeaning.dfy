/**
  Monomorphization preserves meaning: every function that is no template computes the same
  value before and after the pass.
*/
module MonoMeaning {
  import opened Wrappers
  import opened Hir
  import opened TypeInference
  import opened CallInference
  import opened MonoNames
  import opened Monomorph
  import opened MonoModule
  import opened HirEval

  // ---------------------------------------------------------------------------
  // What the pass expects of code
  // ---------------------------------------------------------------------------

  /**
    The arguments of a generic call determine its type arguments, no code mentions
    the name of an instance, and no local hides a template or an instance.
  */
  ghost predicate GoodExpr(ts: Templates, inst: set<string>, e: Expr) {
    match e.kind
    case Var(name) => name !in inst
    case Binary(_, lhs, rhs) => GoodExpr(ts, inst, lhs) && GoodExpr(ts, inst, rhs)
    case Call(callee, args) =>
      && GoodExpr(ts, inst, callee) && GoodArgs(ts, inst, args)
      && (callee.kind.Var? && callee.kind.name in ts ==>
            exists s :: Instantiates(ts[callee.kind.name], Retyped(ts, args), s))
    case AssociatedCall(_, _, operands) => GoodExprs(ts, inst, operands)
    case ListLit(_, elements) => GoodExprs(ts, inst, elements)
    case IfExpr(cond, thn, els) => GoodExpr(ts, inst, cond) && GoodExpr(ts, inst, thn) && GoodExpr(ts, inst, els)
    case _ => true
  }

  ghost predicate GoodArg(ts: Templates, inst: set<string>, a: Arg) { GoodExpr(ts, inst, a.value) }

  ghost predicate GoodArgs(ts: Templates, inst: set<string>, args: seq<Arg>) {
    forall i | 0 <= i < |args| :: GoodArg(ts, inst, args[i])
  }

  ghost predicate GoodExprs(ts: Templates, inst: set<string>, es: seq<Expr>) {
    forall i | 0 <= i < |es| :: GoodExpr(ts, inst, es[i])
  }

  ghost predicate GoodStmt(ts: Templates, inst: set<string>, st: Stmt) {
    match st
    case Let(name, _, value) => name !in ts && name !in inst && GoodExpr(ts, inst, value)
    case Assign(_, value) => GoodExpr(ts, inst, value)
    case Return(result) => result.Some? ==> GoodExpr(ts, inst, result.value)
    case Eval(value) => GoodExpr(ts, inst, value)
    case If(cond, thn, els) => GoodExpr(ts, inst, cond) && GoodBlock(ts, inst, thn) && GoodBlock(ts, inst, els)
    case While(cond, body) => GoodExpr(ts, inst, cond) && GoodBlock(ts, inst, body)
  }

  ghost predicate GoodBlock(ts: Templates, inst: set<string>, b: seq<Stmt>) {
    forall i | 0 <= i < |b| :: GoodStmt(ts, inst, b[i])
  }

  ghost predicate GoodFunc(ts: Templates, inst: set<string>, f: Func) {
    && f.name !in inst && GoodBlock(ts, inst, f.body)
    && forall i | 0 <= i < |f.params| :: f.params[i].name !in ts && f.params[i].name !in inst
  }

  // ---------------------------------------------------------------------------
  // Substituted code is concrete
  // ---------------------------------------------------------------------------

  lemma {:induction false} SubstExprConcrete(e: Expr, s: Subst)
    requires ExprParams(e) <= s.Keys && ConcreteSubst(s)
    ensures !ExprHasParam(SubstExpr(e, s))
  {
    SubstConcrete(e.ty, s);
    match e.kind
    case Binary(_, lhs, rhs) => SubstExprConcrete(lhs, s); SubstExprConcrete(rhs, s);
    case Call(callee, args) =>
      SubstExprConcrete(callee, s);
      forall i | 0 <= i < |args| ensures !ExprHasParam(SubstArgs(args, s)[i].value) {
        assert forall p | p in ArgParams(args[i]) :: p in ArgsParams(args);
        assert SubstArgs(args, s)[i] == SubstArg(args[i], s);
        SubstExprConcrete(args[i].value, s);
      }
    case AssociatedCall(receiver, _, operands) => SubstConcrete(receiver, s); SubstExprsConcrete(operands, s);
    case ListLit(elemTy, elements) => SubstConcrete(elemTy, s); SubstExprsConcrete(elements, s);
    case IfExpr(cond, thn, els) => SubstExprConcrete(cond, s); SubstExprConcrete(thn, s); SubstExprConcrete(els, s);
    case _ =>
  }

  lemma {:induction false} SubstExprsConcrete(es: seq<Expr>, s: Subst)
    requires ExprsParams(es) <= s.Keys && ConcreteSubst(s)
    ensures forall i | 0 <= i < |es| :: !ExprHasParam(SubstExprs(es, s)[i])
  {
    forall i | 0 <= i < |es| ensures !ExprHasParam(SubstExprs(es, s)[i]) {
      assert forall p | p in ExprParams(es[i]) :: p in ExprsParams(es);
      SubstExprConcrete(es[i], s);
    }
  }

  lemma {:induction false} SubstStmtConcrete(st: Stmt, s: Subst)
    requires StmtParams(st) <= s.Keys && ConcreteSubst(s)
    ensures !StmtHasParam(SubstStmt(st, s))
    decreases st
  {
    match st
    case Let(_, ty, value) => SubstConcrete(ty, s); SubstExprConcrete(value, s);
    case Assign(_, value) => SubstExprConcrete(value, s);
    case Return(result) => if result.Some? { SubstExprConcrete(result.value, s); }
    case Eval(value) => SubstExprConcrete(value, s);
    case If(cond, thn, els) => SubstExprConcrete(cond, s); SubstBlockConcrete(thn, s); SubstBlockConcrete(els, s);
    case While(cond, body) => SubstExprConcrete(cond, s); SubstBlockConcrete(body, s);
  }

  lemma {:induction false} SubstBlockConcrete(b: seq<Stmt>, s: Subst)
    requires BlockParams(b) <= s.Keys && ConcreteSubst(s)
    ensures !BlockHasParam(SubstBlock(b, s))
    decreases b
  {
    forall i | 0 <= i < |b| ensures !StmtHasParam(SubstBlock(b, s)[i]) {
      assert forall p | p in StmtParams(b[i]) :: p in BlockParams(b);
      SubstStmtConcrete(b[i], s);
    }
  }

  lemma {:induction false} SubstFuncConcrete(f: Func, s: Subst)
    requires FuncParams(f) <= s.Keys && ConcreteSubst(s)
    ensures !FuncHasParam(SubstFunc(f, s))
  {
    var g := SubstFunc(f, s);
    forall i | 0 <= i < |f.params| ensures !HasParam(g.params[i].ty) {
      assert forall p | p in TyParams(f.params[i].ty) :: p in FuncParams(f);
      SubstConcrete(f.params[i].ty, s);
    }
    SubstConcrete(f.returnTy, s);
    SubstBlockConcrete(f.body, s);
  }

  // ---------------------------------------------------------------------------
  // The pass finds the type arguments a call was typed with
  // ---------------------------------------------------------------------------

  /** An argument type shows every type parameter it was built from. */
  lemma {:induction false} SubstShows(t: Ty, s: Subst, i: nat)
    requires i in TyParams(t) && i in s
    ensures TyParams(s[i]) <= TyParams(SubstTy(t, s))
  {
    match t
    case App(h, args) =>
      var k :| 0 <= k < |args| && i in TyParams(args[k]);
      SubstShows(args[k], s, i);
      var r := SubstTy(t, s);
      assert r.args[k] == SubstTy(args[k], s);
      assert forall p | p in TyParams(r.args[k]) :: p in TyParams(r);
    case _ =>
  }

  /** The type arguments of a typed call only mention parameters in its argument types. */
  lemma {:induction false} InstantiationVisible(f: Func, args: seq<Arg>, s: Subst, i: nat)
    requires Instantiates(f, args, s) && i in s
    ensures TyParams(s[i]) <= ArgTyParams(args)
  {
    hide CallMatches, Expected, SubstTy, TyParams, FuncParams, ProperSubst;
    var ms := CallMatches(f.params, args);
    assert i in MatchParams(f.params, args, ms);
    var k :| 0 <= k < |ms| && i in TyParams(ExpectedOf(f.params, args, ms[k]));
    SubstShows(ExpectedOf(f.params, args, ms[k]), s, i);
    var a := args[ms[k].1];
    assert forall p | p in TyParams(a.value.ty) :: p in ArgTyParams(args);
  }

  /** Arguments after substitution and rewriting: same tags, types substituted. */
  ghost predicate Tracks(args: seq<Arg>, after: seq<Arg>, s: Subst) {
    && |after| == |args|
    && forall i | 0 <= i < |args| ::
      && after[i].tag == args[i].tag && after[i].spread == args[i].spread
      && after[i].value.ty == SubstTy(args[i].value.ty, s)
  }

  lemma {:induction false} TrackedMatches(f: Func, args: seq<Arg>, after: seq<Arg>, s: Subst)
    requires Tracks(args, after, s)
    ensures CallMatches(f.params, after) == CallMatches(f.params, args)
    ensures MatchParams(f.params, after, CallMatches(f.params, args)) == MatchParams(f.params, args, CallMatches(f.params, args))
    ensures ShapeOf(after) == ShapeOf(args)
  {
    hide Matches, Expected, SubstTy, TyParams;
    assert Tags(after) == Tags(args);
    assert ShapeOf(after).spreads == ShapeOf(args).spreads;
    var ms := CallMatches(f.params, args);
    assert forall i | 0 <= i < |ms| :: ExpectedOf(f.params, after, ms[i]) == ExpectedOf(f.params, args, ms[i]);
  }

  lemma {:induction false} TrackedTyped(f: Func, args: seq<Arg>, i: Subst, after: seq<Arg>, s: Subst)
    requires Typed(f.params, args, CallMatches(f.params, args), i) && Tracks(args, after, s)
    requires MatchParams(f.params, args, CallMatches(f.params, args)) <= i.Keys
    ensures Typed(f.params, after, CallMatches(f.params, args), Compose(i, s))
  {
    hide CallMatches, Expected, SubstTy, TyParams;
    var ms := CallMatches(f.params, args);
    forall k | 0 <= k < |ms|
      ensures after[ms[k].1].value.ty == SubstTy(ExpectedOf(f.params, after, ms[k]), Compose(i, s))
    {
      var t := ExpectedOf(f.params, args, ms[k]);
      assert forall p | p in TyParams(t) :: p in MatchParams(f.params, args, ms);
      SubstCompose(t, i, s);
    }
  }

  lemma {:induction false} InferenceFinds(f: Func, args: seq<Arg>, i: Subst, after: seq<Arg>, s: Subst)
    requires Instantiates(f, args, i) && Tracks(args, after, s)
    requires ConcreteSubst(s) && ArgTyParams(args) <= s.Keys
    ensures InferCall(f.params, after) == Compose(i, s) && ConcreteSubst(Compose(i, s))
    ensures SubstTy(f.returnTy, Compose(i, s)) == SubstTy(SubstTy(f.returnTy, i), s)
  {
    hide CallMatches, Typed, SubstTy, TyParams, InferCall, MatchParams, Tracks;
    var c := Compose(i, s);
    TrackedMatches(f, args, after, s);
    forall k | k in i ensures TyParams(i[k]) <= s.Keys { InstantiationVisible(f, args, i, k); }
    ComposeConcrete(i, s);
    SubstCompose(f.returnTy, i, s);
    TrackedTyped(f, args, i, after, s);
    InferenceInverts(f.params, after, c);
    assert InferCall(f.params, after) == c;
  }

  lemma {:induction false} TemplateHasParams(f: Func)
    requires SignatureHasParam(f)
    ensures FuncParams(f) != {}
  {
    NoParams(f.returnTy);
    if !HasParam(f.returnTy) {
      var i :| 0 <= i < |f.params| && HasParam(f.params[i].ty);
      NoParams(f.params[i].ty);
      var p :| p in TyParams(f.params[i].ty);
      assert p in FuncParams(f);
    }
  }

  /** So the call is resolved to the instance for those type arguments. */
  lemma {:induction false} CallResolves(ts: Templates, name: string, args: seq<Arg>, i: Subst, after: seq<Arg>, s: Subst)
    requires name in ts && SignatureHasParam(ts[name])
    requires Instantiates(ts[name], args, i) && Tracks(args, after, s)
    requires ConcreteSubst(s) && ArgTyParams(args) <= s.Keys
    ensures Outcome(ts, name, after) == Some(Key(name, Compose(i, s)))
    ensures Specialized(ts, Key(name, Compose(i, s))).returnTy == SubstTy(SubstTy(ts[name].returnTy, i), s)
  {
    hide InferCall, Instantiates, Tracks, InstanceName, FuncHasParam, SignatureHasParam, FuncParams;
    var c := Compose(i, s);
    InferenceFinds(ts[name], args, i, after, s);
    KeyKeepsSubst(c);
    CoversTemplate(ts[name], args, i, s);
    SubstFuncConcrete(ts[name], c);
    ConcreteUnderAnyName(SubstFunc(ts[name], c), InstanceName(Key(name, c)));
  }

  lemma ConcreteUnderAnyName(f: Func, name: string)
    ensures FuncHasParam(f.(name := name)) == FuncHasParam(f)
  {
  }

  lemma CoversTemplate(f: Func, args: seq<Arg>, i: Subst, s: Subst)
    requires Instantiates(f, args, i) && SignatureHasParam(f)
    ensures FuncParams(f) <= Compose(i, s).Keys && Compose(i, s) != map[]
  {
    TemplateHasParams(f);
    assert Compose(i, s).Keys == i.Keys;
  }

  // ---------------------------------------------------------------------------
  // The type parameters that code uses
  // ---------------------------------------------------------------------------

  /** Those its generic calls are resolved by, and its calls on a type. */
  ghost function ExprUses(ts: Templates, e: Expr): set<nat>
    decreases e
  {
    match e.kind
    case Binary(_, lhs, rhs) => ExprUses(ts, lhs) + ExprUses(ts, rhs)
    case Call(callee, args) =>
      ExprUses(ts, callee) + ArgsUses(ts, args)
      + (if callee.kind.Var? && callee.kind.name in ts then ArgTyParams(Retyped(ts, args)) else {})
    case AssociatedCall(receiver, _, operands) => TyParams(receiver) + ExprsUses(ts, operands)
    case ListLit(_, elements) => ExprsUses(ts, elements)
    case IfExpr(cond, thn, els) => ExprUses(ts, cond) + ExprUses(ts, thn) + ExprUses(ts, els)
    case _ => {}
  }

  ghost function ArgUses(ts: Templates, a: Arg): set<nat>
    decreases a
  {
    ExprUses(ts, a.value)
  }

  ghost function ArgsUses(ts: Templates, args: seq<Arg>): set<nat>
    decreases args
  {
    set i, p | 0 <= i < |args| && p in ArgUses(ts, args[i]) :: p
  }

  ghost function ExprsUses(ts: Templates, es: seq<Expr>): set<nat>
    decreases es
  {
    set i, p | 0 <= i < |es| && p in ExprUses(ts, es[i]) :: p
  }

  ghost function StmtUses(ts: Templates, st: Stmt): set<nat>
    decreases st
  {
    match st
    case Let(_, _, value) => ExprUses(ts, value)
    case Assign(_, value) => ExprUses(ts, value)
    case Return(result) => if result.Some? then ExprUses(ts, result.value) else {}
    case Eval(value) => ExprUses(ts, value)
    case If(cond, thn, els) => ExprUses(ts, cond) + BlockUses(ts, thn) + BlockUses(ts, els)
    case While(cond, body) => ExprUses(ts, cond) + BlockUses(ts, body)
  }

  ghost function BlockUses(ts: Templates, b: seq<Stmt>): set<nat>
    decreases b
  {
    set i, p | 0 <= i < |b| && p in StmtUses(ts, b[i]) :: p
  }

  /** The type worked out for an expression has no parameter its text does not show, */
  lemma {:induction false} ResolvedWithin(ts: Templates, e: Expr)
    ensures TyParams(ResolvedTy(ts, e)) <= ExprParams(e)
    decreases e
  {
    hide Instantiates, TyParams, SubstTy;
    if e.kind.Call? && e.kind.callee.kind.Var? && e.kind.callee.kind.name in ts {
      var f, args := ts[e.kind.callee.kind.name], Retyped(ts, e.kind.args);
      if exists i :: Instantiates(f, args, i) {
        RetypedWithin(ts, e.kind.args);
        forall i | Instantiates(f, args, i) ensures TyParams(SubstTy(f.returnTy, i)) <= ArgsParams(e.kind.args) {
          ReturnVisible(f, args, i);
        }
      }
    }
  }

  lemma ReturnVisible(f: Func, args: seq<Arg>, i: Subst)
    requires Instantiates(f, args, i)
    ensures TyParams(SubstTy(f.returnTy, i)) <= ArgTyParams(args)
  {
    hide CallMatches, Typed, SubstTy, TyParams, MatchParams, ArgTyParams;
    ParamsAfterSubst(f.returnTy, i);
    forall k | k in i ensures TyParams(i[k]) <= ArgTyParams(args) { InstantiationVisible(f, args, i, k); }
  }

  lemma {:induction false} RetypedWithin(ts: Templates, args: seq<Arg>)
    ensures ArgTyParams(Retyped(ts, args)) <= ArgsParams(args)
    decreases args
  {
    hide ResolvedTy, TyParams;
    forall i | 0 <= i < |args| ensures TyParams(Retyped(ts, args)[i].value.ty) <= ArgParams(args[i]) {
      ArgWithin(ts, args[i]);
    }
    assert forall i, p | 0 <= i < |args| && p in ArgParams(args[i]) :: p in ArgsParams(args);
  }

  lemma {:induction false} ArgWithin(ts: Templates, a: Arg)
    ensures TyParams(RetypedArg(ts, a).value.ty) <= ArgParams(a)
    decreases a
  {
    ResolvedWithin(ts, a.value);
  }

  /** and code uses no other. */
  lemma {:induction false} UsesWithin(ts: Templates, e: Expr)
    ensures ExprUses(ts, e) <= ExprParams(e)
    decreases e
  {
    hide Retyped, ArgTyParams, TyParams;
    match e.kind
    case Binary(_, lhs, rhs) => UsesWithin(ts, lhs); UsesWithin(ts, rhs);
    case Call(callee, args) => UsesWithin(ts, callee); ArgsUsesWithin(ts, args); RetypedWithin(ts, args);
    case AssociatedCall(_, _, operands) => ExprsUsesWithin(ts, operands);
    case ListLit(_, elements) => ExprsUsesWithin(ts, elements);
    case IfExpr(cond, thn, els) => UsesWithin(ts, cond); UsesWithin(ts, thn); UsesWithin(ts, els);
    case _ =>
  }

  lemma {:induction false} ArgUsesWithin(ts: Templates, a: Arg)
    ensures ArgUses(ts, a) <= ArgParams(a)
    decreases a
  {
    UsesWithin(ts, a.value);
  }

  lemma {:induction false} ArgsUsesWithin(ts: Templates, args: seq<Arg>)
    ensures ArgsUses(ts, args) <= ArgsParams(args)
    decreases args
  {
    hide ArgUses, ArgParams;
    forall i | 0 <= i < |args| ensures ArgUses(ts, args[i]) <= ArgParams(args[i]) { ArgUsesWithin(ts, args[i]); }
    assert forall i, p | 0 <= i < |args| && p in ArgParams(args[i]) :: p in ArgsParams(args);
  }

  lemma {:induction false} ExprsUsesWithin(ts: Templates, es: seq<Expr>)
    ensures ExprsUses(ts, es) <= ExprsParams(es)
    decreases es
  {
    hide ExprUses, ExprParams;
    forall i | 0 <= i < |es| ensures ExprUses(ts, es[i]) <= ExprParams(es[i]) { UsesWithin(ts, es[i]); }
    assert forall i, p | 0 <= i < |es| && p in ExprParams(es[i]) :: p in ExprsParams(es);
  }

  lemma {:induction false} StmtUsesWithin(ts: Templates, st: Stmt)
    ensures StmtUses(ts, st) <= StmtParams(st)
    decreases st
  {
    hide ExprUses, ExprParams;
    match st
    case Let(_, _, value) => UsesWithin(ts, value);
    case Assign(_, value) => UsesWithin(ts, value);
    case Return(result) => if result.Some? { UsesWithin(ts, result.value); }
    case Eval(value) => UsesWithin(ts, value);
    case If(cond, thn, els) => UsesWithin(ts, cond); BlockUsesWithin(ts, thn); BlockUsesWithin(ts, els);
    case While(cond, body) => UsesWithin(ts, cond); BlockUsesWithin(ts, body);
  }

  lemma {:induction false} BlockUsesWithin(ts: Templates, b: seq<Stmt>)
    ensures BlockUses(ts, b) <= BlockParams(b)
    decreases b
  {
    forall i | 0 <= i < |b| ensures StmtUses(ts, b[i]) <= StmtParams(b[i]) { StmtUsesWithin(ts, b[i]); }
    assert forall i, p | 0 <= i < |b| && p in StmtParams(b[i]) :: p in BlockParams(b);
  }

  // ---------------------------------------------------------------------------
  // Rewriting leaves the right type on an expression
  // ---------------------------------------------------------------------------

  lemma {:induction false} RwKeepsTy(ts: Templates, inst: set<string>, e: Expr, s: Subst)
    requires forall name | name in ts :: SignatureHasParam(ts[name])
    requires GoodExpr(ts, inst, e) && ExprUses(ts, e) <= s.Keys && ConcreteSubst(s)
    ensures RwExpr(ts, SubstExpr(e, s)).ty == SubstTy(ResolvedTy(ts, e), s)
    decreases e
  {
    hide Outcome, Instantiates, InstanceName, ConcreteSubst, SubstTy, SignatureHasParam, Retyped, ArgTyParams;
    if e.kind.Call? {
      var Call(callee, args) := e.kind;
      ArgsTrack(ts, inst, args, s);
      if callee.kind.Var? && callee.kind.name in ts {
        var f, typed := ts[callee.kind.name], Retyped(ts, args);
        var i :| Instantiates(f, typed, i) && ResolvedTy(ts, e) == SubstTy(f.returnTy, i);
        CallResolves(ts, callee.kind.name, typed, i, RwArgs(ts, SubstArgs(args, s)), s);
      } else {
        CallStays(ts, callee, RwArgs(ts, SubstArgs(args, s)), s);
      }
    }
  }

  lemma CallStays(ts: Templates, callee: Expr, args: seq<Arg>, s: Subst)
    requires callee.kind.Var? ==> callee.kind.name !in ts
    ensures CallOutcome(ts, RwExpr(ts, SubstExpr(callee, s)), args) == None
  {
  }

  lemma {:induction false} ArgsTrack(ts: Templates, inst: set<string>, args: seq<Arg>, s: Subst)
    requires forall name | name in ts :: SignatureHasParam(ts[name])
    requires GoodArgs(ts, inst, args) && ArgsUses(ts, args) <= s.Keys && ConcreteSubst(s)
    ensures Tracks(Retyped(ts, args), RwArgs(ts, SubstArgs(args, s)), s)
    decreases args
  {
    hide SubstTy, ConcreteSubst, SignatureHasParam, ResolvedTy;
    forall i | 0 <= i < |args|
      ensures RwArgs(ts, SubstArgs(args, s))[i] == RwArg(ts, SubstArg(args[i], s))
      ensures RwArg(ts, SubstArg(args[i], s)).value.ty == SubstTy(RetypedArg(ts, args[i]).value.ty, s)
    {
      assert GoodArg(ts, inst, args[i]);
      assert forall p | p in ArgUses(ts, args[i]) :: p in ArgsUses(ts, args);
      ArgKeepsTy(ts, inst, args[i], s);
    }
  }

  lemma {:induction false} ArgKeepsTy(ts: Templates, inst: set<string>, a: Arg, s: Subst)
    requires forall name | name in ts :: SignatureHasParam(ts[name])
    requires GoodArg(ts, inst, a) && ArgUses(ts, a) <= s.Keys && ConcreteSubst(s)
    ensures RwArg(ts, SubstArg(a, s)).value.ty == SubstTy(RetypedArg(ts, a).value.ty, s)
    decreases a
  {
    hide SubstTy, ConcreteSubst, SignatureHasParam;
    RwKeepsTy(ts, inst, a.value, s);
  }
}
