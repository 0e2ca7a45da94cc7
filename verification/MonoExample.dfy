/** A module the main theorem applies to: an identity template and one call of it. */
module MonoExample {
  import opened Wrappers
  import opened Hir
  import opened TypeInference
  import opened CallInference
  import opened MonoNames
  import opened Monomorph
  import opened MonoModule
  import opened HirEval
  import opened MonoMeaning
  import opened MonoTheorem
  import opened MonoBound
  import opened MonoSpelling
  import opened MonoDistinct
  import opened MonoPlain
  import opened Text
  import L = MonoLimits

  const INT := Scalar("int")
  const T := Param(0, "T")
  const ARGS := [Arg(None, false, Expr(IntLit(5), INT))]
  /** As lowering leaves it: callee and call bear the types of the template's signature. */
  const CALL := Expr(Call(Expr(Var("id"), App(Head.Func, [T, T])), ARGS), T)
  const IDENTITY := Func.Func("id", [ParamDecl("x", T, false)], T, [Return(Some(Expr(Var("x"), T)))])
  const MAIN := Func.Func("main", [], INT, [Return(Some(CALL))])
  const MODULE := Module([IDENTITY, MAIN], [], map[])
  const SUBST: Subst := map[0 := INT]

  ghost function TheKey(): MonoKey { Key("id", SUBST) }

  lemma CallIsTyped()
    ensures Instantiates(IDENTITY, ARGS, SUBST)
  {
    var ps := IDENTITY.params;
    L.OneMatch(ps, ARGS);
    assert TyParams(T) == {0} && TyParams(INT) == {};
    assert ExpectedOf(ps, ARGS, (0, 0)) == T;
    var ms: seq<Match> := [(0, 0)];
    assert MatchParams(ps, ARGS, ms) == {0} by {
      assert 0 <= 0 < |ms| && 0 in TyParams(ExpectedOf(ps, ARGS, ms[0]));
    }
    BodyHasOneParam();
    assert FuncParams(IDENTITY) <= {0};
    assert SubstTy(T, SUBST) == INT;
  }

  lemma BodyHasOneParam()
    ensures BlockParams(IDENTITY.body) <= {0}
  {
    var x := Expr(Var("x"), T);
    assert ExprParams(x) == {0};
    assert StmtParams(Return(Some(x))) == {0};
  }

  lemma TheTemplates()
    ensures TemplatesOf(MODULE.funcs) == map["id" := IDENTITY]
  {
    assert MODULE.funcs[..1] == [IDENTITY] && [IDENTITY][..0] == [];
    assert HasParam(T) && SignatureHasParam(IDENTITY) && !SignatureHasParam(MAIN);
  }

  /** The one call demands the one instance, */
  lemma CallDemands()
    ensures var ts := TemplatesOf(MODULE.funcs); CallOutcome(ts, CALL.kind.callee, ARGS) == Some(TheKey()) && ExprKeys(ts, CALL) == {TheKey()}
  {
    hide InferCall, Instantiates, FuncHasParam, Specialized;
    var ts := TemplatesOf(MODULE.funcs);
    TheTemplates();
    CallIsTyped();
    assert SignatureHasParam(IDENTITY) by { assert HasParam(T); }
    SubstNothing();
    assert Tracks(ARGS, ARGS, map[]);
    assert ArgTyParams(ARGS) == {} by { assert TyParams(ARGS[0].value.ty) == {}; }
    CallResolves(ts, "id", ARGS, SUBST, ARGS, map[]);
    assert Compose(SUBST, map[]) == SUBST by { assert SubstTy(INT, map[]) == INT; }
    ArgsStay(ts);
    assert ArgsKeys(ts, ARGS) == {} by { assert ExprKeys(ts, ARGS[0].value) == {}; }
  }

  lemma SubstNothing()
    ensures SubstTy(INT, map[]) == INT
  {
  }

  lemma ArgsStay(ts: Templates)
    ensures RwArgs(ts, ARGS) == ARGS
  {
    assert RwArg(ts, ARGS[0]) == ARGS[0];
  }

  lemma KeyHasName()
    ensures TheKey().name == "id"
  {
  }

  lemma BodyDemandsNothing(ts: Templates)
    requires TheKey().name in ts && ts[TheKey().name] == IDENTITY
    ensures NextKeys(ts, TheKey()) == {}
  {
    hide Key, ToSubst, InstanceName;
    var inner := ToSubst(TheKey().args);
    KeyHasName();
    var body := SubstBlock(IDENTITY.body, inner);
    assert Specialized(ts, TheKey()).body == body;
    assert body[0] == SubstStmt(IDENTITY.body[0], inner);
    assert StmtKeys(ts, body[0]) == {};
  }

  /** and that instance demands no more. */
  lemma OneInstance()
    ensures var ts := TemplatesOf(MODULE.funcs); LeastClosed(ts, RootKeys(ts, MODULE), {TheKey()}) && Known(ts, TheKey())
  {
    hide ExprKeys, Key;
    var ts := TemplatesOf(MODULE.funcs);
    CallDemands();
    TheTemplates();
    KeyHasName();
    BodyDemandsNothing(ts);
    assert MAIN in MODULE.funcs && MODULE.funcs[1] == MAIN;
    assert StmtKeys(ts, MAIN.body[0]) == {TheKey()};
    assert BlockKeys(ts, MAIN.body) == {TheKey()};
    assert RootKeys(ts, MODULE) == {TheKey()};
  }

  lemma ArgsAreTyped(ts: Templates)
    ensures Retyped(ts, ARGS) == ARGS
  {
    assert RetypedArg(ts, ARGS[0]) == ARGS[0];
  }

  lemma GoodCall(ts: Templates, inst: set<string>)
    requires ts == map["id" := IDENTITY] && "id" !in inst
    ensures GoodExpr(ts, inst, CALL) && ExprUses(ts, CALL) == {}
  {
    hide Instantiates;
    CallIsTyped();
    ArgsAreTyped(ts);
    assert GoodArg(ts, inst, ARGS[0]);
    assert TyParams(INT) == {} && ArgUses(ts, ARGS[0]) == {};
  }

  lemma GoodFuncs(ts: Templates, inst: set<string>)
    requires ts == map["id" := IDENTITY] && "id" !in inst && "main" !in inst && "x" !in inst
    ensures GoodFunc(ts, inst, IDENTITY) && GoodFunc(ts, inst, MAIN) && BlockUses(ts, MAIN.body) == {}
  {
    hide GoodExpr, ExprUses;
    GoodCall(ts, inst);
    assert GoodStmt(ts, inst, MAIN.body[0]) && StmtUses(ts, MAIN.body[0]) == {};
    assert GoodExpr(ts, inst, Expr(Var("x"), T)) by { GoodVar(ts, inst); }
    assert GoodStmt(ts, inst, IDENTITY.body[0]);
  }

  lemma GoodVar(ts: Templates, inst: set<string>)
    requires "x" !in inst
    ensures GoodExpr(ts, inst, Expr(Var("x"), T))
  {
  }

  lemma NameIsLong()
    ensures |InstanceName(TheKey())| > 4
  {
    assert |TheKey().name| == 2;
  }

  /**
    The main theorem's hypotheses hold of this module, annotated as lowering leaves it, with
    one instance generated.
  */
  lemma IdentityModuleIsWellFormed()
    ensures WellFormed(MODULE, {TheKey()})
  {
    hide GoodFunc, BlockUses, Key, InstanceName;
    TheTemplates();
    NameIsLong();
    var inst := InstanceNames({TheKey()});
    assert inst == {InstanceName(TheKey())};
    GoodFuncs(TemplatesOf(MODULE.funcs), inst);
  }

  /** Its one call is flat, so the pass stops on it. */
  lemma IdentityModuleIsFlat()
    ensures FlatModule(MODULE, {INT})
  {
    hide BlockUses, GoodExpr, Instantiates;
    TheTemplates();
    var ts := TemplatesOf(MODULE.funcs);
    CallIsTyped();
    ArgsAreTyped(ts);
    GoodFuncs(ts, {});
    assert Flat(ts, ARGS[0].value, {INT}) && FlatSubst(SUBST, {INT});
    assert Flat(ts, CALL, {INT});
    assert FlatStmt(ts, MAIN.body[0], {INT}) && FlatStmt(ts, IDENTITY.body[0], {INT});
  }

  /** It is plain, too, so its instances have distinct names. */
  lemma IdentityModuleIsPlain()
    ensures PlainModule(MODULE, {}) && CaseDistinct({})
  {
    hide PlainStmt;
    TheTemplates();
    var ts := TemplatesOf(MODULE.funcs);
    PlainBodies(ts);
    assert Fits(T, {});
  }

  lemma PlainBodies(ts: Templates)
    ensures PlainStmt(ts, IDENTITY.body[0], {}) && PlainStmt(ts, MAIN.body[0], {})
  {
    assert Fits(INT, {});
    assert PlainCalls(ts, ARGS[0].value, {});
    assert PlainCalls(ts, CALL, {});
  }

  // ---------------------------------------------------------------------------
  // Two calls that share a name
  // ---------------------------------------------------------------------------

  function ArgsOf(t: Ty): seq<Arg> { [Arg(None, false, Expr(Var("b"), t))] }

  lemma SingleKey(t: Ty)
    ensures Key("id", map[0 := t]) == MonoKey("id", [(0, t)]) && ToSubst([(0, t)]) == map[0 := t]
  {
    var s: Subst := map[0 := t];
    assert 0 in s;
    HasLeast(s);
    assert s - {0} == map[];
    KeyKeepsSubst(s);
    assert SortedItems(s) == [(0, t)];
  }

  /** A call of the identity asks for the instance at the type of its argument. */
  lemma IdentityOutcome(t: Ty)
    requires Concrete(t)
    ensures Outcome(map["id" := IDENTITY], "id", ArgsOf(t)) == Some(MonoKey("id", [(0, t)]))
  {
    hide CallMatches;
    var ps, args := IDENTITY.params, ArgsOf(t);
    L.OneMatch(ps, args);
    assert ExpectedOf(ps, args, (0, 0)) == T;
    var ms: seq<Match> := [(0, 0)];
    assert InferMatches(ps, args, ms[1..], map[0 := t]) == map[0 := t];
    assert InferCall(ps, args) == map[0 := t];
    SingleKey(t);
    ConcreteIdentity(t);
  }

  lemma ConcreteIdentity(t: Ty)
    requires Concrete(t)
    ensures !FuncHasParam(Specialized(map["id" := IDENTITY], MonoKey("id", [(0, t)])))
  {
    hide InstanceName, ToSubst;
    SingleKey(t);
    var s: Subst := map[0 := t];
    var f := Specialized(map["id" := IDENTITY], MonoKey("id", [(0, t)]));
    assert SubstExpr(Expr(Var("x"), T), s) == Expr(Var("x"), t);
    assert SubstStmt(Return(Some(Expr(Var("x"), T))), s) == Return(Some(Expr(Var("x"), t)));
    assert f.body == SubstBlock([Return(Some(Expr(Var("x"), T)))], s);
    assert f.body[0] == Return(Some(Expr(Var("x"), t)));
    assert !ExprHasParam(Expr(Var("x"), t)) && !StmtHasParam(f.body[0]);
    assert f.params[0].ty == t && f.returnTy == t && !SignatureHasParam(f);
  }

  /** Two calls ask for two instances whenever their types differ, and name them alike exactly when only case differs. */
  lemma CallsCollide(t: Ty, u: Ty)
    requires Concrete(t) && Concrete(u) && Plain(t) && Plain(u)
    ensures
      var ts := map["id" := IDENTITY];
      var a, b := Outcome(ts, "id", ArgsOf(t)), Outcome(ts, "id", ArgsOf(u));
      a.Some? && b.Some? && (a == b <==> t == u) && (InstanceName(a.value) == InstanceName(b.value) <==> Folded(t) == Folded(u))
  {
    hide Outcome, InstanceName, Folded, Plain, HasParam;
    IdentityOutcome(t);
    IdentityOutcome(u);
    var a, b := MonoKey("id", [(0, t)]), MonoKey("id", [(0, u)]);
    assert a.args[0].1 == t && b.args[0].1 == u;
    PlainNamesCollideExactly(a, b);
    assert FoldedItems(a.args) == [(0, Folded(t))] && FoldedItems(b.args) == [(0, Folded(u))];
    assert FoldedItems(a.args)[0].1 == Folded(t) && FoldedItems(b.args)[0].1 == Folded(u);
  }

  function Block(size: string): Ty { App(Named(1), [ConstInt(size, 8)]) }

  /** It happens: constants labelled differently at two uses of one type. */
  lemma NamesCollide()
    ensures
      var ts := map["id" := IDENTITY];
      var a, b := Outcome(ts, "id", ArgsOf(Block("N"))), Outcome(ts, "id", ArgsOf(Block("n")));
      a.Some? && b.Some? && a != b && InstanceName(a.value) == InstanceName(b.value)
  {
    hide Outcome, InstanceName;
    var t, u := Block("N"), Block("n");
    assert Lowercase("N") == "n" && Lowercase("n") == "n";
    assert Plain(t.args[0]) && Plain(u.args[0]);
    assert Folded(t) == App(Named(1), [ConstInt("n", 8)]) && Folded(u) == App(Named(1), [ConstInt("n", 8)]);
    assert t.args[0] != u.args[0];
    CallsCollide(t, u);
  }
}
