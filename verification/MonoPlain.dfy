/**
  Modules whose instances get distinct names: what reaches a type parameter is a plain type,
  and no two constants in such types are named alike up to case.
*/
module MonoPlain {
  import opened Wrappers
  import opened Hir
  import opened TypeInference
  import opened CallInference
  import opened MonoNames
  import opened Monomorph
  import opened MonoModule
  import opened HirEval
  import opened MonoSpelling
  import opened MonoDistinct
  import opened MonoTheorem
  import opened Text
  import M = MonoSimulation

  // ---------------------------------------------------------------------------
  // Types
  // ---------------------------------------------------------------------------

  /** The constants in the type have names from this set. */
  predicate Spelled(t: Ty, names: set<string>) {
    match t
    case ConstInt(name, _) => name in names
    case App(_, args) => forall i | 0 <= i < |args| :: Spelled(args[i], names)
    case _ => true
  }

  predicate Fits(t: Ty, names: set<string>) { Plain(t) && Spelled(t, names) }

  predicate CaseDistinct(names: set<string>) {
    forall a, b | a in names && b in names && Lowercase(a) == Lowercase(b) :: a == b
  }

  ghost predicate FitSubst(s: Subst, names: set<string>) {
    forall i | i in s :: Fits(s[i], names) && !HasParam(s[i])
  }

  lemma {:induction false} SubstFits(t: Ty, s: Subst, names: set<string>)
    requires Fits(t, names) && FitSubst(s, names)
    ensures Fits(SubstTy(t, s), names)
    decreases t
  {
    if t.App? {
      forall i | 0 <= i < |t.args| ensures Fits(SubstTy(t.args[i], s), names) { SubstFits(t.args[i], s, names); }
      assert SubstTy(t, s).args == seq(|t.args|, i requires 0 <= i < |t.args| => SubstTy(t.args[i], s));
    }
  }

  lemma {:induction false} InferFits(template: Ty, actual: Ty, s: Subst, names: set<string>)
    requires Fits(actual, names) && FitSubst(s, names)
    ensures FitSubst(InferTy(template, actual, s), names)
    decreases template, 1
  {
    if template.App? && actual.App? && Traversed(template.head) && template.head == actual.head && |template.args| == |actual.args| {
      InferAllFits(template.args, actual.args, s, names);
    }
  }

  lemma {:induction false} InferAllFits(templates: seq<Ty>, actuals: seq<Ty>, s: Subst, names: set<string>)
    requires |templates| == |actuals| && FitSubst(s, names) && forall i | 0 <= i < |actuals| :: Fits(actuals[i], names)
    ensures FitSubst(InferTys(templates, actuals, s), names)
    decreases templates, 0
  {
    if templates != [] {
      InferFits(templates[0], actuals[0], s, names);
      InferAllFits(templates[1..], actuals[1..], InferTy(templates[0], actuals[0], s), names);
    }
  }

  lemma {:induction false} InferMatchesFits(params: seq<ParamDecl>, args: seq<Arg>, ms: seq<Match>, s: Subst, names: set<string>)
    requires InRange(ms, |params|, |args|) && FitSubst(s, names) && forall i | 0 <= i < |args| :: Fits(args[i].value.ty, names)
    ensures FitSubst(InferMatches(params, args, ms, s), names)
  {
    hide FitSubst, Fits;
    if ms != [] {
      var next := InferTy(ExpectedOf(params, args, ms[0]), args[ms[0].1].value.ty, s);
      InferFits(ExpectedOf(params, args, ms[0]), args[ms[0].1].value.ty, s, names);
      InferMatchesFits(params, args, ms[1..], next, names);
    }
  }

  // ---------------------------------------------------------------------------
  // Keys
  // ---------------------------------------------------------------------------

  ghost predicate FitKey(k: MonoKey, names: set<string>) {
    forall i | 0 <= i < |k.args| :: Fits(k.args[i].1, names) && !HasParam(k.args[i].1)
  }

  lemma {:induction false} ItemsFit(s: Subst, names: set<string>)
    requires FitSubst(s, names)
    ensures forall i | 0 <= i < |SortedItems(s)| :: Fits(SortedItems(s)[i].1, names) && !HasParam(SortedItems(s)[i].1)
    decreases |s|
  {
    hide Fits, HasParam;
    if s != map[] {
      HasLeast(s);
      var k := SortedItems(s)[0].0;
      assert SortedItems(s) == [(k, s[k])] + SortedItems(s - {k});
      ItemsFit(s - {k}, names);
    }
  }

  lemma {:induction false} SubstOfFitItems(items: seq<(nat, Ty)>, names: set<string>)
    requires forall i | 0 <= i < |items| :: Fits(items[i].1, names) && !HasParam(items[i].1)
    ensures FitSubst(ToSubst(items), names)
  {
    hide Fits, HasParam;
    if items != [] { SubstOfFitItems(items[1..], names); }
  }

  lemma OutcomeFits(ts: Templates, callee: Expr, args: seq<Arg>, names: set<string>)
    requires callee.kind.Var? && callee.kind.name in ts ==> forall i | 0 <= i < |args| :: Fits(args[i].value.ty, names)
    ensures CallOutcome(ts, callee, args).Some? ==> FitKey(CallOutcome(ts, callee, args).value, names)
  {
    hide FuncHasParam, Specialized, Fits, InferCall;
    if CallOutcome(ts, callee, args).Some? {
      var params := ts[callee.kind.name].params;
      assert InferCall(params, args) == InferMatches(params, args, CallMatches(params, args), map[]) by { Unfold(params, args); }
      InferMatchesFits(params, args, CallMatches(params, args), map[], names);
      ItemsFit(InferCall(params, args), names);
    }
  }

  lemma Unfold(params: seq<ParamDecl>, args: seq<Arg>)
    ensures InferCall(params, args) == InferMatches(params, args, CallMatches(params, args), map[])
  {
  }

  // ---------------------------------------------------------------------------
  // Code
  // ---------------------------------------------------------------------------

  /** Every argument of a generic call has a fitting type. */
  predicate PlainCalls(ts: Templates, e: Expr, names: set<string>) {
    match e.kind
    case Binary(_, lhs, rhs) => PlainCalls(ts, lhs, names) && PlainCalls(ts, rhs, names)
    case Call(callee, args) =>
      && PlainCalls(ts, callee, names) && (forall i | 0 <= i < |args| :: PlainCalls(ts, args[i].value, names))
      && (callee.kind.Var? && callee.kind.name in ts ==> forall i | 0 <= i < |args| :: Fits(args[i].value.ty, names))
    case AssociatedCall(_, _, operands) => forall i | 0 <= i < |operands| :: PlainCalls(ts, operands[i], names)
    case ListLit(_, elements) => forall i | 0 <= i < |elements| :: PlainCalls(ts, elements[i], names)
    case IfExpr(cond, thn, els) => PlainCalls(ts, cond, names) && PlainCalls(ts, thn, names) && PlainCalls(ts, els, names)
    case _ => true
  }

  predicate PlainStmt(ts: Templates, st: Stmt, names: set<string>) {
    match st
    case Let(_, _, value) => PlainCalls(ts, value, names)
    case Assign(_, value) => PlainCalls(ts, value, names)
    case Return(result) => result.Some? ==> PlainCalls(ts, result.value, names)
    case Eval(value) => PlainCalls(ts, value, names)
    case If(cond, thn, els) => PlainCalls(ts, cond, names) && PlainBlock(ts, thn, names) && PlainBlock(ts, els, names)
    case While(cond, body) => PlainCalls(ts, cond, names) && PlainBlock(ts, body, names)
  }

  predicate PlainBlock(ts: Templates, b: seq<Stmt>, names: set<string>) {
    forall i | 0 <= i < |b| :: PlainStmt(ts, b[i], names)
  }

  predicate PlainTemplates(ts: Templates, names: set<string>) {
    forall name | name in ts :: PlainBlock(ts, ts[name].body, names) && Fits(ts[name].returnTy, names)
  }

  predicate PlainModule(m: Module, names: set<string>) {
    var ts := TemplatesOf(m.funcs);
    && PlainTemplates(ts, names)
    && (forall f | f in m.funcs :: PlainBlock(ts, f.body, names)) && (forall c | c in m.consts :: PlainCalls(ts, c.value, names))
  }

  lemma SubstArgsFit(args: seq<Arg>, s: Subst, names: set<string>)
    requires FitSubst(s, names) && forall i | 0 <= i < |args| :: Fits(args[i].value.ty, names)
    ensures forall i | 0 <= i < |args| :: Fits(SubstArgs(args, s)[i].value.ty, names)
  {
    hide FitSubst, Fits;
    forall i | 0 <= i < |args| ensures Fits(SubstArgs(args, s)[i].value.ty, names) {
      SubstFits(args[i].value.ty, s, names);
      assert SubstArgs(args, s)[i] == SubstArg(args[i], s);
    }
  }

  lemma {:induction false} SubstPlain(ts: Templates, e: Expr, s: Subst, names: set<string>)
    requires PlainCalls(ts, e, names) && FitSubst(s, names)
    ensures PlainCalls(ts, SubstExpr(e, s), names)
  {
    hide FitSubst, Fits;
    match e.kind
    case Binary(_, lhs, rhs) => SubstPlain(ts, lhs, s, names); SubstPlain(ts, rhs, s, names);
    case Call(callee, args) =>
      SubstPlain(ts, callee, s, names);
      forall i | 0 <= i < |args| ensures PlainCalls(ts, SubstArgs(args, s)[i].value, names) { SubstPlain(ts, args[i].value, s, names); }
      if callee.kind.Var? && callee.kind.name in ts { SubstArgsFit(args, s, names); }
    case AssociatedCall(_, _, operands) =>
      forall i | 0 <= i < |operands| ensures PlainCalls(ts, SubstExprs(operands, s)[i], names) { SubstPlain(ts, operands[i], s, names); }
    case ListLit(_, elements) =>
      forall i | 0 <= i < |elements| ensures PlainCalls(ts, SubstExprs(elements, s)[i], names) { SubstPlain(ts, elements[i], s, names); }
    case IfExpr(cond, thn, els) => SubstPlain(ts, cond, s, names); SubstPlain(ts, thn, s, names); SubstPlain(ts, els, s, names);
    case _ =>
  }

  lemma {:induction false} SubstPlainStmt(ts: Templates, st: Stmt, s: Subst, names: set<string>)
    requires PlainStmt(ts, st, names) && FitSubst(s, names)
    ensures PlainStmt(ts, SubstStmt(st, s), names)
    decreases st
  {
    hide FitSubst, PlainCalls;
    match st
    case Let(_, _, value) => SubstPlain(ts, value, s, names);
    case Assign(_, value) => SubstPlain(ts, value, s, names);
    case Return(result) => if result.Some? { SubstPlain(ts, result.value, s, names); }
    case Eval(value) => SubstPlain(ts, value, s, names);
    case If(cond, thn, els) => SubstPlain(ts, cond, s, names); SubstPlainBlock(ts, thn, s, names); SubstPlainBlock(ts, els, s, names);
    case While(cond, body) => SubstPlain(ts, cond, s, names); SubstPlainBlock(ts, body, s, names);
  }

  lemma {:induction false} SubstPlainBlock(ts: Templates, b: seq<Stmt>, s: Subst, names: set<string>)
    requires PlainBlock(ts, b, names) && FitSubst(s, names)
    ensures PlainBlock(ts, SubstBlock(b, s), names)
    decreases b
  {
    hide FitSubst;
    forall i | 0 <= i < |b| ensures PlainStmt(ts, SubstBlock(b, s)[i], names) { SubstPlainStmt(ts, b[i], s, names); }
  }

  ghost predicate AllFit(keys: set<MonoKey>, names: set<string>) { forall k | k in keys :: FitKey(k, names) }

  /** The type of a rewritten expression fits if its own did, and so do the keys it asks for. */
  lemma {:induction false} KeysFit(ts: Templates, e: Expr, names: set<string>)
    requires PlainTemplates(ts, names) && PlainCalls(ts, e, names)
    ensures AllFit(ExprKeys(ts, e), names) && (Fits(e.ty, names) ==> Fits(RwExpr(ts, e).ty, names))
  {
    hide PlainTemplates, Fits, FitKey, CallOutcome, Specialized;
    match e.kind
    case Binary(_, lhs, rhs) => KeysFit(ts, lhs, names); KeysFit(ts, rhs, names);
    case Call(callee, args) =>
      KeysFit(ts, callee, names);
      forall i | 0 <= i < |args|
        ensures AllFit(ArgKeys(ts, args[i]), names) && (Fits(args[i].value.ty, names) ==> Fits(RwExpr(ts, args[i].value).ty, names))
      {
        KeysFit(ts, args[i].value, names);
      }
      CallFits(ts, callee, args, names);
    case AssociatedCall(_, _, operands) =>
      forall i | 0 <= i < |operands| ensures AllFit(ExprKeys(ts, operands[i]), names) { KeysFit(ts, operands[i], names); }
    case ListLit(_, elements) =>
      forall i | 0 <= i < |elements| ensures AllFit(ExprKeys(ts, elements[i]), names) { KeysFit(ts, elements[i], names); }
    case IfExpr(cond, thn, els) => KeysFit(ts, cond, names); KeysFit(ts, thn, names); KeysFit(ts, els, names);
    case _ =>
  }

  lemma CallFits(ts: Templates, callee: Expr, args: seq<Arg>, names: set<string>)
    requires PlainTemplates(ts, names)
    requires forall i | 0 <= i < |args| && Fits(args[i].value.ty, names) :: Fits(RwExpr(ts, args[i].value).ty, names)
    requires callee.kind.Var? && callee.kind.name in ts ==> forall i | 0 <= i < |args| :: Fits(args[i].value.ty, names)
    ensures
      var o := CallOutcome(ts, RwExpr(ts, callee), RwArgs(ts, args));
      o.Some? ==> FitKey(o.value, names) && Fits(Specialized(ts, o.value).returnTy, names)
  {
    hide Fits, FitKey, CallOutcome, Specialized, PlainTemplates;
    var c, a := RwExpr(ts, callee), RwArgs(ts, args);
    if c.kind.Var? && c.kind.name in ts {
      forall i | 0 <= i < |args| ensures Fits(a[i].value.ty, names) {
        assert a[i] == RwArg(ts, args[i]);
      }
    }
    OutcomeFits(ts, c, a, names);
    if CallOutcome(ts, c, a).Some? { ReturnFits(ts, CallOutcome(ts, c, a).value, names); }
  }

  lemma ReturnFits(ts: Templates, k: MonoKey, names: set<string>)
    requires PlainTemplates(ts, names) && k.name in ts && FitKey(k, names)
    ensures Fits(Specialized(ts, k).returnTy, names)
  {
    hide Fits, HasParam;
    SubstOfFitItems(k.args, names);
    SubstFits(ts[k.name].returnTy, ToSubst(k.args), names);
  }

  lemma {:induction false} StmtKeysFit(ts: Templates, st: Stmt, names: set<string>)
    requires PlainTemplates(ts, names) && PlainStmt(ts, st, names)
    ensures AllFit(StmtKeys(ts, st), names)
    decreases st
  {
    hide PlainTemplates, PlainCalls, FitKey;
    match st
    case Let(_, _, value) => KeysFit(ts, value, names);
    case Assign(_, value) => KeysFit(ts, value, names);
    case Return(result) => if result.Some? { KeysFit(ts, result.value, names); }
    case Eval(value) => KeysFit(ts, value, names);
    case If(cond, thn, els) => KeysFit(ts, cond, names); BlockKeysFit(ts, thn, names); BlockKeysFit(ts, els, names);
    case While(cond, body) => KeysFit(ts, cond, names); BlockKeysFit(ts, body, names);
  }

  lemma {:induction false} BlockKeysFit(ts: Templates, b: seq<Stmt>, names: set<string>)
    requires PlainTemplates(ts, names) && PlainBlock(ts, b, names)
    ensures AllFit(BlockKeys(ts, b), names)
    decreases b
  {
    hide PlainTemplates, FitKey;
    forall i | 0 <= i < |b| ensures AllFit(StmtKeys(ts, b[i]), names) { StmtKeysFit(ts, b[i], names); }
  }

  lemma NextKeysFit(ts: Templates, k: MonoKey, names: set<string>)
    requires PlainTemplates(ts, names) && k.name in ts && FitKey(k, names)
    ensures AllFit(NextKeys(ts, k), names)
  {
    hide PlainBlock, Fits, HasParam;
    SubstOfFitItems(k.args, names);
    SubstPlainBlock(ts, ts[k.name].body, ToSubst(k.args), names);
    BlockKeysFit(ts, Specialized(ts, k).body, names);
  }

  lemma RootsFit(m: Module, names: set<string>)
    requires PlainModule(m, names)
    ensures AllFit(RootKeys(TemplatesOf(m.funcs), m), names)
  {
    hide PlainTemplates, PlainBlock, PlainCalls, FitKey;
    var ts := TemplatesOf(m.funcs);
    forall i | 0 <= i < |m.funcs| ensures AllFit(BlockKeys(ts, m.funcs[i].body), names) { BlockKeysFit(ts, m.funcs[i].body, names); }
    forall i | 0 <= i < |m.consts| ensures AllFit(ExprKeys(ts, m.consts[i].value), names) { KeysFit(ts, m.consts[i].value, names); }
  }

  /** Whatever a plain module demands is plain. */
  lemma DemandFits(m: Module, keys: set<MonoKey>, names: set<string>)
    requires PlainModule(m, names) && LeastClosed(TemplatesOf(m.funcs), RootKeys(TemplatesOf(m.funcs), m), keys)
    ensures AllFit(keys, names)
  {
    hide FitKey, PlainBlock, PlainCalls, NextKeys, RootKeys, PlainTemplates;
    var ts := TemplatesOf(m.funcs);
    RootsFit(m, names);
    var u := set k | k in keys && FitKey(k, names);
    forall k | k in u && k.name in ts ensures NextKeys(ts, k) <= u { NextKeysFit(ts, k, names); }
    assert Closed(ts, u);
  }

  // ---------------------------------------------------------------------------
  // Distinct names
  // ---------------------------------------------------------------------------

  lemma {:induction false} FoldedInjective(t: Ty, u: Ty, names: set<string>)
    requires CaseDistinct(names) && Spelled(t, names) && Spelled(u, names) && Folded(t) == Folded(u)
    ensures t == u
    decreases t
  {
    if t.App? {
      FoldedParts(t, u);
      forall i | 0 <= i < |t.args| ensures t.args[i] == u.args[i] { FoldedInjective(t.args[i], u.args[i], names); }
    }
  }

  lemma FoldedKeyInjective(a: MonoKey, b: MonoKey, names: set<string>)
    requires CaseDistinct(names) && FitKey(a, names) && FitKey(b, names) && FoldedKey(a) == FoldedKey(b)
    ensures a == b
  {
    hide CaseDistinct, Spelled, Plain, HasParam, Folded;
    forall i | 0 <= i < |a.args| ensures i < |b.args| && a.args[i] == b.args[i] {
      assert FoldedItems(a.args)[i] == FoldedItems(b.args)[i];
      FoldedInjective(a.args[i].1, b.args[i].1, names);
    }
    assert |FoldedItems(a.args)| == |FoldedItems(b.args)|;
  }

  /** Among plain keys names are distinct exactly when no two keys are alike up to case. */
  lemma NamesDistinctExactly(keys: set<MonoKey>)
    requires forall k | k in keys :: PlainKey(k)
    ensures DistinctNames(keys) <==> forall a, b | a in keys && b in keys && FoldedKey(a) == FoldedKey(b) :: a == b
  {
    hide PlainKey, InstanceName, FoldedKey;
    forall a, b | a in keys && b in keys ensures InstanceName(a) == InstanceName(b) <==> FoldedKey(a) == FoldedKey(b) {
      PlainNamesCollideExactly(a, b);
    }
  }

  /** So the pass never gives two instances of such a module one name. */
  lemma PlainModuleHasDistinctNames(m: Module, keys: set<MonoKey>, names: set<string>)
    requires PlainModule(m, names) && CaseDistinct(names)
    requires LeastClosed(TemplatesOf(m.funcs), RootKeys(TemplatesOf(m.funcs), m), keys)
    ensures DistinctNames(keys)
  {
    hide PlainModule, LeastClosed, CaseDistinct, FoldedKey, InstanceName;
    DemandFits(m, keys, names);
    forall k | k in keys ensures PlainKey(k) {
      assert FitKey(k, names);
    }
    forall a, b | a in keys && b in keys && FoldedKey(a) == FoldedKey(b) ensures a == b {
      assert FitKey(a, names) && FitKey(b, names);
      FoldedKeyInjective(a, b, names);
    }
    NamesDistinctExactly(keys);
  }

  /** For plain modules the main theorem needs nothing to be known about names. */
  lemma PlainMeaningPreserved(m: Module, order: seq<MonoKey>, names: set<string>, name: string, vs: seq<Value>, fuel: nat)
    requires PlainModule(m, names) && CaseDistinct(names)
    requires forall k | k in order :: Known(TemplatesOf(m.funcs), k)
    requires LeastClosed(TemplatesOf(m.funcs), RootKeys(TemplatesOf(m.funcs), m), Elements(order))
    requires Checked(m, Elements(order))
    requires name !in InstanceNames(Elements(order)) && M.AllClean(InstanceNames(Elements(order)), vs)
    ensures Run(Output(m, order), name, vs, fuel) == Run(m, name, vs, fuel)
  {
    hide PlainModule, LeastClosed, Checked, CaseDistinct, DistinctNames, Output, Run;
    PlainModuleHasDistinctNames(m, Elements(order), names);
    MeaningPreserved(m, order, name, vs, fuel);
  }
}
