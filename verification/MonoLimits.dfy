/** Where the pass falls short of its promises, and exactly when. */
module MonoLimits {
  import opened Wrappers
  import opened Hir
  import opened TypeInference
  import opened CallInference
  import opened MonoNames
  import opened Monomorph
  import opened HirEval
  import opened MonoMeaning

  // ---------------------------------------------------------------------------
  // Parameters the pass cannot see
  // ---------------------------------------------------------------------------

  /** Whether a type parameter occurs anywhere in `t`. */
  predicate MentionsParam(t: Ty) {
    match t
    case Param(_, _) => true
    case App(_, args) => exists i | 0 <= i < |args| :: MentionsParam(args[i])
    case _ => false
  }

  /** Whether one occurs under a former the pass does not descend into. */
  predicate HidesParam(t: Ty) {
    match t
    case App(h, args) =>
      if Traversed(h) then exists i | 0 <= i < |args| :: HidesParam(args[i])
      else exists i | 0 <= i < |args| :: MentionsParam(args[i])
    case _ => false
  }

  lemma {:induction false} MentionedSeenOrHidden(t: Ty)
    ensures MentionsParam(t) <==> HasParam(t) || HidesParam(t)
  {
    match t
    case App(h, args) =>
      forall i | 0 <= i < |args| ensures MentionsParam(args[i]) <==> HasParam(args[i]) || HidesParam(args[i]) {
        MentionedSeenOrHidden(args[i]);
      }
    case _ =>
  }

  /** After substituting closed types for every visible parameter, one remains exactly if it was hidden. */
  lemma {:induction false} HiddenParamSurvives(t: Ty, s: Subst)
    requires TyParams(t) <= s.Keys && forall i | i in s :: !MentionsParam(s[i])
    ensures MentionsParam(SubstTy(t, s)) <==> HidesParam(t)
  {
    match t
    case App(h, args) =>
      if Traversed(h) {
        var r := SubstTy(t, s);
        forall i | 0 <= i < |args| ensures MentionsParam(r.args[i]) <==> HidesParam(args[i]) {
          assert forall p | p in TyParams(args[i]) :: p in TyParams(t);
          HiddenParamSurvives(args[i], s);
        }
      }
    case _ =>
  }

  /** `f[T](x: T, y: buffer[T])`, instantiated at `int`, passes the concreteness check with `buffer[T]` left in. */
  lemma HiddenParamEscapes()
    ensures
      var t := Param(0, "T");
      var f := Func.Func("f", [ParamDecl("x", t, false), ParamDecl("y", App(Buffer, [t]), false)], Scalar("void"), []);
      var key := Key("f", map[0 := Scalar("int")]);
      Known(map["f" := f], key) && MentionsParam(Specialized(map["f" := f], key).params[1].ty)
  {
    var t := Param(0, "T");
    var f := Func.Func("f", [ParamDecl("x", t, false), ParamDecl("y", App(Buffer, [t]), false)], Scalar("void"), []);
    var key := Key("f", map[0 := Scalar("int")]);
    KeyKeepsSubst(map[0 := Scalar("int")]);
    var g := Specialized(map["f" := f], key);
    assert g.params[0].ty == Scalar("int");
    assert g.params[1].ty == App(Buffer, [t]);
    assert MentionsParam([t][0]);
  }

  // ---------------------------------------------------------------------------
  // Which instances the pass accepts
  // ---------------------------------------------------------------------------

  lemma {:induction false} ParamStays(t: Ty, s: Subst, p: nat)
    requires p in TyParams(t) && p !in s
    ensures HasParam(SubstTy(t, s))
  {
    match t
    case App(h, args) =>
      if Traversed(h) {
        var i :| 0 <= i < |args| && p in TyParams(args[i]);
        ParamStays(args[i], s, p);
        assert HasParam(SubstTy(t, s).args[i]);
      }
    case _ =>
  }

  lemma {:induction false} ExprParamStays(e: Expr, s: Subst, p: nat)
    requires p in ExprParams(e) && p !in s
    ensures ExprHasParam(SubstExpr(e, s))
    decreases e
  {
    if p in TyParams(e.ty) {
      ParamStays(e.ty, s, p);
    } else {
      match e.kind
      case Binary(_, lhs, rhs) => if p in ExprParams(lhs) { ExprParamStays(lhs, s, p); } else { ExprParamStays(rhs, s, p); }
      case Call(callee, args) => if p in ExprParams(callee) { ExprParamStays(callee, s, p); } else { ArgsParamStays(args, s, p); }
      case AssociatedCall(receiver, _, operands) =>
        if p in TyParams(receiver) { ParamStays(receiver, s, p); } else { ExprsParamStays(operands, s, p); }
      case ListLit(elemTy, elements) =>
        if p in TyParams(elemTy) { ParamStays(elemTy, s, p); } else { ExprsParamStays(elements, s, p); }
      case IfExpr(cond, thn, els) =>
        if p in ExprParams(cond) { ExprParamStays(cond, s, p); }
        else if p in ExprParams(thn) { ExprParamStays(thn, s, p); }
        else { ExprParamStays(els, s, p); }
      case _ =>
    }
  }

  lemma {:induction false} ArgsParamStays(args: seq<Arg>, s: Subst, p: nat)
    requires p in ArgsParams(args) && p !in s
    ensures exists i | 0 <= i < |args| :: ExprHasParam(SubstArgs(args, s)[i].value)
    decreases args
  {
    var i :| 0 <= i < |args| && p in ArgParams(args[i]);
    ArgParamStays(args[i], s, p);
    assert SubstArgs(args, s)[i] == SubstArg(args[i], s);
  }

  lemma {:induction false} ArgParamStays(a: Arg, s: Subst, p: nat)
    requires p in ArgParams(a) && p !in s
    ensures ExprHasParam(SubstArg(a, s).value)
    decreases a
  {
    ExprParamStays(a.value, s, p);
  }

  lemma {:induction false} ExprsParamStays(es: seq<Expr>, s: Subst, p: nat)
    requires p in ExprsParams(es) && p !in s
    ensures exists i | 0 <= i < |es| :: ExprHasParam(SubstExprs(es, s)[i])
    decreases es
  {
    var i :| 0 <= i < |es| && p in ExprParams(es[i]);
    ExprParamStays(es[i], s, p);
    assert SubstExprs(es, s)[i] == SubstExpr(es[i], s);
  }

  lemma {:induction false} StmtParamStays(st: Stmt, s: Subst, p: nat)
    requires p in StmtParams(st) && p !in s
    ensures StmtHasParam(SubstStmt(st, s))
    decreases st
  {
    match st
    case Let(_, ty, value) => if p in TyParams(ty) { ParamStays(ty, s, p); } else { ExprParamStays(value, s, p); }
    case Assign(_, value) => ExprParamStays(value, s, p);
    case Return(result) => if result.Some? { ExprParamStays(result.value, s, p); }
    case Eval(value) => ExprParamStays(value, s, p);
    case If(cond, thn, els) =>
      if p in ExprParams(cond) { ExprParamStays(cond, s, p); }
      else if p in BlockParams(thn) { BlockParamStays(thn, s, p); }
      else { BlockParamStays(els, s, p); }
    case While(cond, body) => if p in ExprParams(cond) { ExprParamStays(cond, s, p); } else { BlockParamStays(body, s, p); }
  }

  lemma {:induction false} BlockParamStays(b: seq<Stmt>, s: Subst, p: nat)
    requires p in BlockParams(b) && p !in s
    ensures BlockHasParam(SubstBlock(b, s))
    decreases b
  {
    var i :| 0 <= i < |b| && p in StmtParams(b[i]);
    StmtParamStays(b[i], s, p);
    assert SubstBlock(b, s)[i] == SubstStmt(b[i], s);
  }

  lemma FuncParamStays(f: Func, s: Subst, p: nat)
    requires p in FuncParams(f) && p !in s
    ensures FuncHasParam(SubstFunc(f, s))
  {
    if p in TyParams(f.returnTy) {
      ParamStays(f.returnTy, s, p);
    } else if p in BlockParams(f.body) {
      BlockParamStays(f.body, s, p);
    } else {
      var i :| 0 <= i < |f.params| && p in TyParams(f.params[i].ty);
      ParamStays(f.params[i].ty, s, p);
      assert HasParam(SubstFunc(f, s).params[i].ty);
    }
  }

  /**
    An instance is accepted exactly when the inferred arguments cover every parameter in the
    template's text, the annotations lowering leaves on the functions it calls included.
  */
  lemma AcceptedExactlyWhenCovered(ts: Templates, name: string, s: Subst)
    requires name in ts && ConcreteSubst(s)
    ensures Known(ts, Key(name, s)) <==> FuncParams(ts[name]) <= s.Keys
  {
    hide FuncHasParam, FuncParams, InstanceName, ConcreteSubst;
    KeyKeepsSubst(s);
    var f := ts[name];
    ConcreteUnderAnyName(SubstFunc(f, s), InstanceName(Key(name, s)));
    if FuncParams(f) <= s.Keys {
      SubstFuncConcrete(f, s);
    } else {
      var p :| p in FuncParams(f) && p !in s.Keys;
      FuncParamStays(f, s, p);
    }
  }

  /**
    So a template that calls a template with more parameters is never instantiated, whatever
    its arguments: the callee keeps the annotation of its own signature.
  */
  lemma WiderCalleeIsRefused(ts: Templates, name: string, callee: Expr, args: seq<Arg>, ty: Ty, p: nat, s: Subst)
    requires name in ts && ConcreteSubst(s) && p !in s
    requires ts[name].body == [Return(Some(Expr(Call(callee, args), ty)))] && p in TyParams(callee.ty)
    ensures !Known(ts, Key(name, s))
  {
    var f := ts[name];
    assert p in ExprParams(Expr(Call(callee, args), ty)) by { assert p in ExprParams(callee); }
    assert p in StmtParams(f.body[0]);
    assert p in FuncParams(f);
    AcceptedExactlyWhenCovered(ts, name, s);
  }

  // ---------------------------------------------------------------------------
  // Polymorphic recursion
  // ---------------------------------------------------------------------------

  /** `f(x: t)` whose body calls `f([x])`. */
  function Growing(t: Ty): Func {
    Func.Func("f", [ParamDecl("x", t, false)], Scalar("void"), [Eval(GrowingCall(t))])
  }

  function GrowingCall(t: Ty): Expr {
    Expr(Call(Expr(Var("f"), Scalar("void")), [GrowingArg(t)]), Scalar("void"))
  }

  function GrowingArg(t: Ty): Arg {
    Arg(None, false, Expr(ListLit(t, [Expr(Var("x"), t)]), App(List, [t])))
  }

  /** The generic version, as the only template. */
  function GrowingTemplates(): Templates {
    map["f" := Growing(Param(0, "T"))]
  }

  function Nested(n: nat): Ty {
    if n == 0 then Scalar("int") else App(List, [Nested(n - 1)])
  }

  function NestedKey(n: nat): MonoKey {
    Key("f", map[0 := Nested(n)])
  }

  lemma {:induction false} NestedConcrete(n: nat)
    ensures Concrete(Nested(n))
  {
    if n > 0 { NestedConcrete(n - 1); }
  }

  lemma {:induction false} NestedInjective(m: nat, n: nat)
    requires Nested(m) == Nested(n)
    ensures m == n
  {
    if m > 0 && n > 0 {
      assert Nested(m).args[0] == Nested(n).args[0];
      NestedInjective(m - 1, n - 1);
    }
  }

  lemma NestedKeyInjective(m: nat, n: nat)
    requires NestedKey(m) == NestedKey(n)
    ensures m == n
  {
    var a: Subst, b: Subst := map[0 := Nested(m)], map[0 := Nested(n)];
    KeyKeepsSubst(a);
    KeyKeepsSubst(b);
    assert a[0] == b[0];
    NestedInjective(m, n);
  }

  lemma {:induction false} OneMatch(params: seq<ParamDecl>, args: seq<Arg>)
    requires |params| == |args| == 1 && !params[0].variadic && args[0].tag.None?
    ensures VariadicIndex(params) == 1 && CallMatches(params, args) == [(0, 0)]
  {
    var tags := Tags(args);
    assert VariadicIndex(params) == 1;
    assert forall i | 0 <= i < |tags| :: tags[i].None?;
    var slots := PositionalSlots(1, 1);
    assert slots[0] == Some(0);
    assert SlotMatches(slots, 1, 1) == [];
    assert SlotMatches(slots, 0, 1) == [(0, 0)];
  }

  lemma {:induction false} GrowingInfers(args: seq<Arg>, t: Ty)
    requires |args| == 1 && args[0].tag.None? && args[0].value.ty == t && Concrete(t)
    ensures InferCall(Growing(Param(0, "T")).params, args) == map[0 := t]
  {
    var params := Growing(Param(0, "T")).params;
    OneMatch(params, args);
    var ms := [(0, 0)];
    assert ExpectedOf(params, args, ms[0]) == Param(0, "T");
    assert InferMatches(params, args, ms[1..], map[0 := t]) == map[0 := t];
  }

  lemma {:induction false} GrowingSubst(t: Ty)
    ensures SubstFunc(Growing(Param(0, "T")), map[0 := t]) == Growing(t)
  {
    var p := Param(0, "T");
    var s: Subst := map[0 := t];
    assert SubstTy(App(List, [p]), s).args == [t];
    assert SubstExprs([Expr(Var("x"), p)], s) == [Expr(Var("x"), t)];
    assert SubstArg(GrowingArg(p), s) == GrowingArg(t);
    assert SubstArgs([GrowingArg(p)], s) == [GrowingArg(t)];
    assert SubstExpr(GrowingCall(p), s) == GrowingCall(t);
    assert SubstBlock([Eval(GrowingCall(p))], s) == [Eval(GrowingCall(t))];
    assert SubstParams([ParamDecl("x", p, false)], s) == [ParamDecl("x", t, false)];
  }

  lemma {:induction false} GrowingHasNoParam(t: Ty)
    requires !HasParam(t)
    ensures !FuncHasParam(Growing(t))
  {
    assert !HasParam(App(List, [t]));
    assert !ExprHasParam(Expr(Var("x"), t));
    assert !ExprHasParam(GrowingArg(t).value);
    assert !ExprHasParam(GrowingCall(t));
    assert !StmtHasParam(Eval(GrowingCall(t)));
  }

  /** The call inside the instance for `list^n[int]` asks for the one for `list^(n+1)[int]`. */
  lemma {:induction false} GrowingAsksForMore(n: nat)
    ensures NestedKey(n + 1) in NextKeys(GrowingTemplates(), NestedKey(n))
  {
    hide FuncHasParam, InstanceName, Key;
    KeyNames(n);
    GrowingSubst(Nested(n));
    assert Specialized(GrowingTemplates(), NestedKey(n)).body == [Eval(GrowingCall(Nested(n)))];
    GrowingCallKeys(n);
    assert NestedKey(n + 1) in StmtKeys(GrowingTemplates(), [Eval(GrowingCall(Nested(n)))][0]);
  }

  lemma {:induction false} GrowingCallKeys(n: nat)
    ensures NestedKey(n + 1) in ExprKeys(GrowingTemplates(), GrowingCall(Nested(n)))
  {
    hide FuncHasParam, InstanceName, Key, Outcome, GrowingTemplates;
    var ts := GrowingTemplates();
    var args := [GrowingArg(Nested(n))];
    assert RwExprs(ts, [Expr(Var("x"), Nested(n))]) == [Expr(Var("x"), Nested(n))];
    assert RwArg(ts, GrowingArg(Nested(n))) == GrowingArg(Nested(n));
    assert RwArgs(ts, args) == args;
    GrowingResolves(args, n + 1);
  }

  lemma {:induction false} KeyNames(n: nat)
    ensures NestedKey(n).name == "f" && ToSubst(NestedKey(n).args) == map[0 := Nested(n)]
  {
    KeyKeepsSubst(map[0 := Nested(n)]);
  }

  lemma {:induction false} GrowingResolves(args: seq<Arg>, n: nat)
    requires |args| == 1 && args[0].tag.None? && args[0].value.ty == Nested(n)
    ensures Outcome(GrowingTemplates(), "f", args) == Some(NestedKey(n))
  {
    hide InferCall, InstanceName, Growing;
    NestedConcrete(n);
    GrowingInfers(args, Nested(n));
    KeyNames(n);
    GrowingSubst(Nested(n));
    GrowingHasNoParam(Nested(n));
    assert 0 in map[0 := Nested(n)];
  }

  /** So one call to it leaves the pass without any finite set of instances to stop at. */
  lemma PolymorphicRecursionHasNoBound(u: set<MonoKey>)
    requires NestedKey(0) in u
    ensures !Closed(GrowingTemplates(), u)
  {
    if Closed(GrowingTemplates(), u) {
      forall n: nat ensures NestedKey(n) in u { InTower(u, n); }
      NoFiniteTower(u, 0);
    }
  }

  lemma {:induction false} InTower(u: set<MonoKey>, n: nat)
    requires NestedKey(0) in u && Closed(GrowingTemplates(), u)
    ensures NestedKey(n) in u
  {
    if n > 0 {
      InTower(u, n - 1);
      GrowingAsksForMore(n - 1);
    }
  }

  lemma {:induction false} NoFiniteTower(u: set<MonoKey>, n: nat)
    requires forall k: nat | k >= n :: NestedKey(k) in u
    ensures false
    decreases |u|
  {
    assert NestedKey(n) in u;
    forall k: nat | k >= n + 1 ensures NestedKey(k) in u - {NestedKey(n)} {
      if NestedKey(k) == NestedKey(n) { NestedKeyInjective(k, n); }
    }
    NoFiniteTower(u - {NestedKey(n)}, n + 1);
  }
}
