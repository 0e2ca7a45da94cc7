/**
  When the pass terminates: every generic call is typed by closed types from a finite set and
  by type parameters of the caller as they are.
*/
module MonoBound {
  import opened Wrappers
  import opened Hir
  import opened TypeInference
  import opened CallInference
  import opened MonoNames
  import opened Monomorph
  import opened MonoModule
  import opened HirEval
  import opened MonoMeaning
  import M = MonoSimulation

  // ---------------------------------------------------------------------------
  // Flat calls
  // ---------------------------------------------------------------------------

  ghost predicate FlatSubst(i: Subst, closed: set<Ty>) {
    forall p | p in i :: i[p].Param? || i[p] in closed
  }

  ghost predicate Flat(ts: Templates, e: Expr, closed: set<Ty>) {
    match e.kind
    case Binary(_, lhs, rhs) => Flat(ts, lhs, closed) && Flat(ts, rhs, closed)
    case Call(callee, args) =>
      && Flat(ts, callee, closed) && (forall k | 0 <= k < |args| :: Flat(ts, args[k].value, closed))
      && (callee.kind.Var? && callee.kind.name in ts ==>
            exists i :: Instantiates(ts[callee.kind.name], Retyped(ts, args), i) && FlatSubst(i, closed))
    case AssociatedCall(_, _, operands) => forall k | 0 <= k < |operands| :: Flat(ts, operands[k], closed)
    case ListLit(_, elements) => forall k | 0 <= k < |elements| :: Flat(ts, elements[k], closed)
    case IfExpr(cond, thn, els) => Flat(ts, cond, closed) && Flat(ts, thn, closed) && Flat(ts, els, closed)
    case _ => true
  }

  ghost predicate FlatStmt(ts: Templates, st: Stmt, closed: set<Ty>) {
    match st
    case Let(_, _, value) => Flat(ts, value, closed)
    case Assign(_, value) => Flat(ts, value, closed)
    case Return(result) => result.Some? ==> Flat(ts, result.value, closed)
    case Eval(value) => Flat(ts, value, closed)
    case If(cond, thn, els) => Flat(ts, cond, closed) && FlatBlock(ts, thn, closed) && FlatBlock(ts, els, closed)
    case While(cond, body) => Flat(ts, cond, closed) && FlatBlock(ts, body, closed)
  }

  ghost predicate FlatBlock(ts: Templates, b: seq<Stmt>, closed: set<Ty>) {
    forall k | 0 <= k < |b| :: FlatStmt(ts, b[k], closed)
  }

  /** What the type checker ensures, and that every generic call is flat. */
  ghost predicate FlatModule(m: Module, closed: set<Ty>) {
    var ts := TemplatesOf(m.funcs);
    && (forall t | t in closed :: Concrete(t))
    && (forall f | f in m.funcs :: GoodBlock(ts, {}, f.body) && FlatBlock(ts, f.body, closed))
    && (forall f | f in m.funcs && f.name !in ts :: BlockUses(ts, f.body) == {})
    && (forall c | c in m.consts :: GoodExpr(ts, {}, c.value) && Flat(ts, c.value, closed) && ExprUses(ts, c.value) == {})
  }

  // ---------------------------------------------------------------------------
  // Finitely many keys
  // ---------------------------------------------------------------------------

  ghost predicate Into(s: Subst, closed: set<Ty>) { forall p | p in s :: s[p] in closed }

  ghost function Substs(idx: set<nat>, closed: set<Ty>): set<Subst> {
    if idx == {} then {map[]}
    else
      var p :| p in idx;
      set s, t | s in Substs(idx - {p}, closed) && t in closed :: s[p := t]
  }

  lemma {:induction false} SubstsAll(idx: set<nat>, closed: set<Ty>, s: Subst)
    ensures s in Substs(idx, closed) <==> s.Keys == idx && Into(s, closed)
    decreases idx
  {
    if idx == {} {
      assert s.Keys == {} ==> s == map[];
    } else {
      var p :| p in idx && Substs(idx, closed) == set s, t | s in Substs(idx - {p}, closed) && t in closed :: s[p := t];
      if s.Keys == idx && Into(s, closed) {
        SubstsAll(idx - {p}, closed, s - {p});
        assert s == (s - {p})[p := s[p]];
      }
      if s in Substs(idx, closed) {
        var r, t :| r in Substs(idx - {p}, closed) && t in closed && s == r[p := t];
        SubstsAll(idx - {p}, closed, r);
      }
    }
  }

  ghost function Bound(ts: Templates, closed: set<Ty>): set<MonoKey> {
    set name, s | name in ts && s in Substs(FuncParams(ts[name]), closed) :: Key(name, s)
  }

  lemma InBound(ts: Templates, closed: set<Ty>, name: string, s: Subst)
    requires name in ts && s.Keys == FuncParams(ts[name]) && Into(s, closed)
    ensures Key(name, s) in Bound(ts, closed)
  {
    SubstsAll(FuncParams(ts[name]), closed, s);
  }

  lemma FromBound(ts: Templates, closed: set<Ty>, k: MonoKey) returns (s: Subst)
    requires k in Bound(ts, closed)
    ensures k.name in ts && k == Key(k.name, s) && s.Keys == FuncParams(ts[k.name]) && Into(s, closed) && ToSubst(k.args) == s
  {
    var name: string, r: Subst :| name in ts && r in Substs(FuncParams(ts[name]), closed) && k == Key(name, r);
    s := r;
    SubstsAll(FuncParams(ts[name]), closed, s);
    KeyKeepsSubst(s);
  }

  // ---------------------------------------------------------------------------
  // Demand stays in the bound
  // ---------------------------------------------------------------------------

  lemma {:induction false} ConcreteStays(t: Ty, s: Subst)
    requires !HasParam(t)
    ensures SubstTy(t, s) == t
  {
    NoParams(t);
    SubstAgree(t, s, map[]);
    SubstNothing(t);
  }

  /** The type arguments of a flat call are, in an instance, the caller's own or closed. */
  lemma ComposeInto(f: Func, args: seq<Arg>, i: Subst, s: Subst, closed: set<Ty>)
    requires Instantiates(f, args, i) && FlatSubst(i, closed) && Into(s, closed) && ArgTyParams(args) <= s.Keys
    requires forall t | t in closed :: Concrete(t)
    ensures Into(Compose(i, s), closed)
  {
    hide Instantiates, ArgTyParams;
    forall p | p in i ensures SubstTy(i[p], s) in closed {
      InstantiationVisible(f, args, i, p);
      if i[p].Param? { assert i[p].index in TyParams(i[p]); } else { ConcreteStays(i[p], s); }
    }
  }

  lemma ExactlyParams(f: Func, args: seq<Arg>, i: Subst)
    requires Instantiates(f, args, i)
    ensures i.Keys == FuncParams(f)
  {
    hide CallMatches, Typed, BlockParams;
    var ms := CallMatches(f.params, args);
    forall p | p in MatchParams(f.params, args, ms) ensures p in FuncParams(f) {
      var k :| 0 <= k < |ms| && p in TyParams(ExpectedOf(f.params, args, ms[k]));
      var ty := f.params[ms[k].0].ty;
      assert p in TyParams(ty);
    }
  }

  lemma CallKey(ts: Templates, name: string, args: seq<Arg>, after: seq<Arg>, s: Subst, closed: set<Ty>)
    requires name in ts && SignatureHasParam(ts[name]) && (forall t | t in closed :: Concrete(t))
    requires exists i :: Instantiates(ts[name], args, i) && FlatSubst(i, closed)
    requires Tracks(args, after, s) && Into(s, closed) && ArgTyParams(args) <= s.Keys
    ensures Outcome(ts, name, after).Some? && Outcome(ts, name, after).value in Bound(ts, closed)
  {
    hide Instantiates, ArgTyParams, FlatSubst, Tracks, SignatureHasParam, Outcome, Bound, Concrete;
    var i :| Instantiates(ts[name], args, i) && FlatSubst(i, closed);
    CallResolves(ts, name, args, i, after, s);
    ComposeInto(ts[name], args, i, s, closed);
    ExactlyParams(ts[name], args, i);
    InBound(ts, closed, name, Compose(i, s));
  }

  ghost predicate Ready(ts: Templates, closed: set<Ty>, s: Subst) {
    && (forall name | name in ts :: SignatureHasParam(ts[name])) && (forall t | t in closed :: Concrete(t)) && Into(s, closed)
  }

  lemma {:induction false} FlatKeys(ts: Templates, e: Expr, s: Subst, closed: set<Ty>)
    requires Ready(ts, closed, s) && GoodExpr(ts, {}, e) && Flat(ts, e, closed) && ExprUses(ts, e) <= s.Keys
    ensures ExprKeys(ts, SubstExpr(e, s)) <= Bound(ts, closed)
    decreases e
  {
    hide Bound, Ready, Instantiates, CallOutcome, Retyped, ArgTyParams;
    match e.kind
    case Binary(_, lhs, rhs) => FlatKeys(ts, lhs, s, closed); FlatKeys(ts, rhs, s, closed);
    case Call(callee, args) =>
      FlatKeys(ts, callee, s, closed);
      forall k | 0 <= k < |args| ensures ArgKeys(ts, SubstArgs(args, s)[k]) <= Bound(ts, closed) {
        assert GoodArg(ts, {}, args[k]) && forall p | p in ArgUses(ts, args[k]) :: p in ArgsUses(ts, args);
        assert SubstArgs(args, s)[k] == SubstArg(args[k], s);
        FlatKeys(ts, args[k].value, s, closed);
      }
      FlatCall(ts, e, s, closed);
    case AssociatedCall(_, _, operands) =>
      forall k | 0 <= k < |operands| ensures ExprKeys(ts, SubstExprs(operands, s)[k]) <= Bound(ts, closed) {
        assert forall p | p in ExprUses(ts, operands[k]) :: p in ExprsUses(ts, operands);
        FlatKeys(ts, operands[k], s, closed);
      }
    case ListLit(_, elements) =>
      forall k | 0 <= k < |elements| ensures ExprKeys(ts, SubstExprs(elements, s)[k]) <= Bound(ts, closed) {
        assert forall p | p in ExprUses(ts, elements[k]) :: p in ExprsUses(ts, elements);
        FlatKeys(ts, elements[k], s, closed);
      }
    case IfExpr(cond, thn, els) => FlatKeys(ts, cond, s, closed); FlatKeys(ts, thn, s, closed); FlatKeys(ts, els, s, closed);
    case _ =>
  }

  lemma FlatCall(ts: Templates, e: Expr, s: Subst, closed: set<Ty>)
    requires e.kind.Call? && Ready(ts, closed, s) && GoodExpr(ts, {}, e) && Flat(ts, e, closed) && ExprUses(ts, e) <= s.Keys
    ensures
      var o := CallOutcome(ts, RwExpr(ts, SubstExpr(e.kind.callee, s)), RwArgs(ts, SubstArgs(e.kind.args, s)));
      o.Some? ==> o.value in Bound(ts, closed)
  {
    hide Bound, Instantiates, Outcome, Retyped, ArgTyParams, Concrete, SignatureHasParam, RwArgs, SubstArgs;
    var Call(callee, args) := e.kind;
    var after := RwArgs(ts, SubstArgs(args, s));
    if callee.kind.Var? && callee.kind.name in ts {
      ArgsTrack(ts, {}, args, s);
      CallKey(ts, callee.kind.name, Retyped(ts, args), after, s, closed);
    } else {
      CallStays(ts, callee, after, s);
    }
  }

  lemma {:induction false} FlatKeysStmt(ts: Templates, st: Stmt, s: Subst, closed: set<Ty>)
    requires Ready(ts, closed, s) && GoodStmt(ts, {}, st) && FlatStmt(ts, st, closed) && StmtUses(ts, st) <= s.Keys
    ensures StmtKeys(ts, SubstStmt(st, s)) <= Bound(ts, closed)
    decreases st
  {
    hide Bound, Ready, Flat, GoodExpr, ExprUses;
    match st
    case Let(_, _, value) => FlatKeys(ts, value, s, closed);
    case Assign(_, value) => FlatKeys(ts, value, s, closed);
    case Return(result) => if result.Some? { FlatKeys(ts, result.value, s, closed); }
    case Eval(value) => FlatKeys(ts, value, s, closed);
    case If(cond, thn, els) => FlatKeys(ts, cond, s, closed); FlatKeysBlock(ts, thn, s, closed); FlatKeysBlock(ts, els, s, closed);
    case While(cond, body) => FlatKeys(ts, cond, s, closed); FlatKeysBlock(ts, body, s, closed);
  }

  lemma {:induction false} FlatKeysBlock(ts: Templates, b: seq<Stmt>, s: Subst, closed: set<Ty>)
    requires Ready(ts, closed, s) && GoodBlock(ts, {}, b) && FlatBlock(ts, b, closed) && BlockUses(ts, b) <= s.Keys
    ensures BlockKeys(ts, SubstBlock(b, s)) <= Bound(ts, closed)
    decreases b
  {
    hide Bound, Ready;
    forall k | 0 <= k < |b| ensures StmtKeys(ts, SubstBlock(b, s)[k]) <= Bound(ts, closed) {
      assert forall p | p in StmtUses(ts, b[k]) :: p in BlockUses(ts, b);
      FlatKeysStmt(ts, b[k], s, closed);
    }
  }

  lemma NextInBound(m: Module, closed: set<Ty>, k: MonoKey)
    requires FlatModule(m, closed) && k in Bound(TemplatesOf(m.funcs), closed)
    ensures k.name in TemplatesOf(m.funcs) && NextKeys(TemplatesOf(m.funcs), k) <= Bound(TemplatesOf(m.funcs), closed)
  {
    hide Bound, GoodBlock, FlatBlock, BlockUses, BlockParams, Flat, GoodExpr, ExprUses, Concrete;
    var ts := TemplatesOf(m.funcs);
    var s := FromBound(ts, closed, k);
    var f := ts[k.name];
    assert f in m.funcs;
    BlockUsesWithin(ts, f.body);
    FlatKeysBlock(ts, f.body, s, closed);
  }

  lemma RootsInBound(m: Module, closed: set<Ty>)
    requires FlatModule(m, closed)
    ensures RootKeys(TemplatesOf(m.funcs), m) <= Bound(TemplatesOf(m.funcs), closed)
  {
    hide Bound, FlatBlock, GoodBlock, BlockUses, Flat, GoodExpr, ExprUses, Concrete;
    var ts, bound := TemplatesOf(m.funcs), Bound(TemplatesOf(m.funcs), closed);
    forall i | 0 <= i < |m.funcs| && m.funcs[i].name !in ts ensures BlockKeys(ts, m.funcs[i].body) <= bound {
      assert m.funcs[i] in m.funcs;
      M.SubstBlockNothing(m.funcs[i].body);
      FlatKeysBlock(ts, m.funcs[i].body, map[], closed);
    }
    forall i | 0 <= i < |m.consts| ensures ExprKeys(ts, m.consts[i].value) <= bound {
      M.SubstExprNothing(m.consts[i].value);
      FlatKeys(ts, m.consts[i].value, map[], closed);
    }
  }

  /**
    The instances a flat module can demand lie in a finite set that demand does not leave, so
    the pass has the bound it needs to stop.
  */
  lemma FlatModuleIsBounded(m: Module, closed: set<Ty>)
    requires FlatModule(m, closed)
    ensures Closed(TemplatesOf(m.funcs), Bound(TemplatesOf(m.funcs), closed))
    ensures RootKeys(TemplatesOf(m.funcs), m) <= Bound(TemplatesOf(m.funcs), closed)
  {
    hide Bound, FlatModule, NextKeys, RootKeys;
    RootsInBound(m, closed);
    forall k | k in Bound(TemplatesOf(m.funcs), closed) && k.name in TemplatesOf(m.funcs)
      ensures NextKeys(TemplatesOf(m.funcs), k) <= Bound(TemplatesOf(m.funcs), closed)
    {
      NextInBound(m, closed, k);
    }
  }
}
