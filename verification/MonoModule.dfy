/** The pass over a whole module, and what it leaves behind whatever the module was. */
module MonoModule {
  import opened Wrappers
  import opened Hir
  import opened TypeInference
  import opened CallInference
  import opened MonoNames
  import opened Monomorph
  import S = Sorting

  /** The functions with a generic signature, by name; of two with one name the later counts. */
  function TemplatesOf(funcs: seq<Func>): (ts: Templates)
    ensures forall name | name in ts :: ts[name] in funcs && ts[name].name == name && SignatureHasParam(ts[name])
    ensures forall f | f in funcs && SignatureHasParam(f) :: f.name in ts
  {
    if funcs == [] then map[]
    else
      var last := funcs[|funcs| - 1];
      var ts := TemplatesOf(funcs[..|funcs| - 1]);
      if SignatureHasParam(last) then ts[last.name := last] else ts
  }

  /** The functions that are no templates, rewritten. */
  function Kept(ts: Templates, funcs: seq<Func>): (r: seq<Func>) {
    if funcs == [] then []
    else Kept(ts, funcs[..|funcs| - 1]) + KeptOne(ts, funcs[|funcs| - 1])
  }

  function KeptOne(ts: Templates, f: Func): seq<Func> {
    if f.name in ts then [] else [RwFunc(ts, f)]
  }

  lemma {:induction false} KeptFrom(ts: Templates, funcs: seq<Func>, f: Func) returns (g: Func)
    requires f in Kept(ts, funcs)
    ensures g in funcs && g.name !in ts && f == RwFunc(ts, g)
  {
    g := funcs[|funcs| - 1];
    if f !in KeptOne(ts, g) {
      g := KeptFrom(ts, funcs[..|funcs| - 1], f);
    }
  }

  lemma {:induction false} KeptAll(ts: Templates, funcs: seq<Func>, g: Func)
    requires g in funcs && g.name !in ts
    ensures RwFunc(ts, g) in Kept(ts, funcs)
  {
    var last := funcs[|funcs| - 1];
    if g == last {
      assert RwFunc(ts, g) in KeptOne(ts, last);
    } else {
      KeptAll(ts, funcs[..|funcs| - 1], g);
    }
  }

  function RwConsts(ts: Templates, consts: seq<Const>): (r: seq<Const>)
    ensures |r| == |consts|
  {
    seq(|consts|, i requires 0 <= i < |consts| => consts[i].(value := RwExpr(ts, consts[i].value)))
  }

  function Instances(ts: Templates, order: seq<MonoKey>): (r: seq<Func>)
    requires forall k | k in order :: Known(ts, k)
    ensures |r| == |order|
  {
    seq(|order|, i requires 0 <= i < |order| => assert order[i] in order && Known(ts, order[i]); Instance(ts, order[i]))
  }

  /** The output for a given order of generation. */
  function Output(m: Module, order: seq<MonoKey>): Module
    requires forall k | k in order :: Known(TemplatesOf(m.funcs), k)
  {
    OutputFor(TemplatesOf(m.funcs), m, order)
  }

  function OutputFor(ts: Templates, m: Module, order: seq<MonoKey>): Module
    requires forall k | k in order :: Known(ts, k)
  {
    Module(Kept(ts, m.funcs) + Instances(ts, order), RwConsts(ts, m.consts), m.impls)
  }

  /** The instances the module asks for outside templates. */
  function RootKeys(ts: Templates, m: Module): set<MonoKey> {
    (set i, k | 0 <= i < |m.funcs| && m.funcs[i].name !in ts && k in BlockKeys(ts, m.funcs[i].body) :: k)
    + (set i, k | 0 <= i < |m.consts| && k in ExprKeys(ts, m.consts[i].value) :: k)
  }

  /** `keys` is the least set that contains the roots and what each member asks for. */
  ghost predicate LeastClosed(ts: Templates, roots: set<MonoKey>, keys: set<MonoKey>) {
    && roots <= keys && Closed(ts, keys)
    && forall u: set<MonoKey> | Closed(ts, u) && roots <= u :: keys <= u
  }

  ghost predicate Demanded(ts: Templates, roots: set<MonoKey>, k: MonoKey) {
    forall u: set<MonoKey> | Closed(ts, u) && roots <= u :: k in u
  }

  lemma CoreIsLeast(ts: Templates, roots: set<MonoKey>, bound: set<MonoKey>) returns (core: set<MonoKey>)
    requires Closed(ts, bound) && roots <= bound
    ensures LeastClosed(ts, roots, core)
  {
    core := set k | k in bound && Demanded(ts, roots, k);
    forall k, n | k in core && k.name in ts && n in NextKeys(ts, k) ensures n in core {
      forall u: set<MonoKey> | Closed(ts, u) && roots <= u ensures n in u {
        assert k in u;
      }
    }
  }

  lemma {:induction false} NothingToRewrite(e: Expr)
    ensures RwExpr(map[], e) == e && ExprKeys(map[], e) == {}
  {
    match e.kind
    case Binary(_, lhs, rhs) => NothingToRewrite(lhs); NothingToRewrite(rhs);
    case Call(callee, args) =>
      NothingToRewrite(callee);
      forall i | 0 <= i < |args| ensures RwArg(map[], args[i]) == args[i] && ArgKeys(map[], args[i]) == {} {
        NothingToRewrite(args[i].value);
      }
      assert RwArgs(map[], args) == args;
    case AssociatedCall(_, _, operands) =>
      forall i | 0 <= i < |operands| ensures RwExpr(map[], operands[i]) == operands[i] && ExprKeys(map[], operands[i]) == {} {
        NothingToRewrite(operands[i]);
      }
      assert RwExprs(map[], operands) == operands;
    case ListLit(_, elements) =>
      forall i | 0 <= i < |elements| ensures RwExpr(map[], elements[i]) == elements[i] && ExprKeys(map[], elements[i]) == {} {
        NothingToRewrite(elements[i]);
      }
      assert RwExprs(map[], elements) == elements;
    case IfExpr(cond, thn, els) => NothingToRewrite(cond); NothingToRewrite(thn); NothingToRewrite(els);
    case _ =>
  }

  lemma {:induction false} NothingToRewriteStmt(st: Stmt)
    ensures RwStmt(map[], st) == st && StmtKeys(map[], st) == {}
    decreases st
  {
    match st
    case Let(_, _, value) => NothingToRewrite(value);
    case Assign(_, value) => NothingToRewrite(value);
    case Return(result) => if result.Some? { NothingToRewrite(result.value); }
    case Eval(value) => NothingToRewrite(value);
    case If(cond, thn, els) => NothingToRewrite(cond); NothingToRewriteBlock(thn); NothingToRewriteBlock(els);
    case While(cond, body) => NothingToRewrite(cond); NothingToRewriteBlock(body);
  }

  lemma {:induction false} NothingToRewriteBlock(b: seq<Stmt>)
    ensures RwBlock(map[], b) == b && BlockKeys(map[], b) == {}
    decreases b
  {
    forall i | 0 <= i < |b| ensures RwStmt(map[], b[i]) == b[i] && StmtKeys(map[], b[i]) == {} {
      NothingToRewriteStmt(b[i]);
    }
  }

  lemma {:induction false} KeptEverything(funcs: seq<Func>)
    ensures Kept(map[], funcs) == funcs
  {
    if funcs != [] {
      NothingToRewriteBlock(funcs[|funcs| - 1].body);
      KeptEverything(funcs[..|funcs| - 1]);
    }
  }

  lemma ConstsUnchanged(consts: seq<Const>)
    ensures RwConsts(map[], consts) == consts
  {
    forall i | 0 <= i < |consts| ensures RwConsts(map[], consts)[i] == consts[i] {
      NothingToRewrite(consts[i].value);
    }
  }

  lemma NoRoots(m: Module)
    ensures RootKeys(map[], m) == {}
  {
    forall i | 0 <= i < |m.consts| ensures ExprKeys(map[], m.consts[i].value) == {} {
      NothingToRewrite(m.consts[i].value);
    }
    forall i | 0 <= i < |m.funcs| ensures BlockKeys(map[], m.funcs[i].body) == {} {
      NothingToRewriteBlock(m.funcs[i].body);
    }
  }

  /** A module without templates is left alone. */
  lemma NoTemplatesNoChange(m: Module)
    requires TemplatesOf(m.funcs) == map[]
    ensures Output(m, []) == m && RootKeys(TemplatesOf(m.funcs), m) == {}
  {
    KeptEverything(m.funcs);
    ConstsUnchanged(m.consts);
    NoRoots(m);
    assert Instances(map[], []) == [];
    assert Output(m, []).funcs == m.funcs + [] == m.funcs;
  }

  /** Rewrites every function that is no template, in place. */
  method RewriteFuncs(state: MonoState, before: seq<Func>, ghost universe: set<MonoKey>) returns (funcs: seq<Func>)
    requires state.Within(universe) && Pending(state.Contents()) == {}
    requires forall f | f in before && f.name !in state.templates :: BlockKeys(state.templates, f.body) <= universe
    modifies state
    ensures state.Within(universe) && Pending(state.Contents()) == {}
    ensures |funcs| == |before|
    ensures forall i | 0 <= i < |before| :: funcs[i].name == before[i].name
    ensures forall i | 0 <= i < |before| && before[i].name !in state.templates ::
      && funcs[i] == RwFunc(state.templates, before[i])
      && BlockKeys(state.templates, before[i].body) <= state.specializations.Keys
  {
    hide Consistent;
    funcs := before;
    for i := 0 to |before|
      invariant state.Within(universe) && Pending(state.Contents()) == {}
      invariant |funcs| == |before| && forall j | i <= j < |before| :: funcs[j] == before[j]
      invariant forall j | 0 <= j < i :: funcs[j].name == before[j].name
      invariant forall j | 0 <= j < i && before[j].name !in state.templates ::
        && funcs[j] == RwFunc(state.templates, before[j])
        && BlockKeys(state.templates, before[j].body) <= state.specializations.Keys
    {
      if funcs[i].name !in state.templates {
        assert before[i] in before;
        var body := state.RewriteBlock(funcs[i].body, universe);
        funcs := funcs[i := funcs[i].(body := body)];
      }
    }
  }

  method RewriteConsts(state: MonoState, before: seq<Const>, ghost universe: set<MonoKey>) returns (consts: seq<Const>)
    requires state.Within(universe) && Pending(state.Contents()) == {}
    requires forall c | c in before :: ExprKeys(state.templates, c.value) <= universe
    modifies state
    ensures state.Within(universe) && Pending(state.Contents()) == {}
    ensures old(state.specializations.Keys) <= state.specializations.Keys
    ensures consts == RwConsts(state.templates, before)
    ensures forall c | c in before :: ExprKeys(state.templates, c.value) <= state.specializations.Keys
  {
    hide Consistent;
    consts := before;
    for i := 0 to |before|
      invariant state.Within(universe) && Pending(state.Contents()) == {}
      invariant old(state.specializations.Keys) <= state.specializations.Keys
      invariant |consts| == |before| && forall j | i <= j < |before| :: consts[j] == before[j]
      invariant forall j | 0 <= j < i :: consts[j] == RwConsts(state.templates, before)[j]
      invariant forall j | 0 <= j < i :: ExprKeys(state.templates, before[j].value) <= state.specializations.Keys
    {
      assert before[i] in before;
      var value := state.RewriteExpr(consts[i].value, universe);
      consts := consts[i := consts[i].(value := value)];
    }
  }

  method RetainConcrete(ts: Templates, funcs: seq<Func>, ghost before: seq<Func>) returns (r: seq<Func>)
    requires |funcs| == |before|
    requires forall i | 0 <= i < |funcs| :: funcs[i].name == before[i].name
    requires forall i | 0 <= i < |funcs| && before[i].name !in ts :: funcs[i] == RwFunc(ts, before[i])
    ensures r == Kept(ts, before)
  {
    hide RwFunc;
    r := [];
    for i := 0 to |funcs|
      invariant r == Kept(ts, before[..i])
    {
      assert before[..i + 1][..i] == before[..i];
      if funcs[i].name !in ts {
        r := r + [funcs[i]];
      }
    }
    assert before[..|funcs|] == before;
  }

  /**
    The pass. It terminates when the instances the module can demand lie in some finite
    set `bound`, and generates each instance in demand once and no other.
  */
  method MonomorphizeGenerics(m: Module, ghost bound: set<MonoKey>) returns (r: Module, ghost order: seq<MonoKey>)
    requires Closed(TemplatesOf(m.funcs), bound) && RootKeys(TemplatesOf(m.funcs), m) <= bound
    ensures forall k | k in order :: Known(TemplatesOf(m.funcs), k)
    ensures r == Output(m, order)
    ensures S.Distinct(order) && LeastClosed(TemplatesOf(m.funcs), RootKeys(TemplatesOf(m.funcs), m), Elements(order))
  {
    var ts := TemplatesOf(m.funcs);
    if ts == map[] {
      NoTemplatesNoChange(m);
      order := [];
      return m, [];
    }
    ghost var core := CoreIsLeast(ts, RootKeys(ts, m), bound);
    r, order := RunPass(ts, m, core);
  }

  method RunPass(ts: Templates, m: Module, ghost core: set<MonoKey>) returns (r: Module, ghost order: seq<MonoKey>)
    requires LeastClosed(ts, RootKeys(ts, m), core)
    ensures forall k | k in order :: Known(ts, k)
    ensures r == OutputFor(ts, m, order)
    ensures S.Distinct(order) && LeastClosed(ts, RootKeys(ts, m), Elements(order))
  {
    hide Consistent, RwFunc, Instances;
    RootsCover(ts, m);
    var state := new MonoState(ts);
    var funcs := RewriteFuncs(state, m.funcs, core);
    label funcsDone:
    var consts := RewriteConsts(state, m.consts, core);
    assert old@funcsDone(state.specializations.Keys) <= state.specializations.Keys;
    var kept := RetainConcrete(ts, funcs, m.funcs);
    r := Module(kept + state.generated, consts, m.impls);
    order := state.order;
    RootsWithin(ts, m, state.specializations.Keys);
    FinishedRun(ts, RootKeys(ts, m), core, state.Contents());
  }

  lemma RootsCover(ts: Templates, m: Module)
    ensures forall f | f in m.funcs && f.name !in ts :: BlockKeys(ts, f.body) <= RootKeys(ts, m)
    ensures forall c | c in m.consts :: ExprKeys(ts, c.value) <= RootKeys(ts, m)
  {
    forall f, k | f in m.funcs && f.name !in ts && k in BlockKeys(ts, f.body) ensures k in RootKeys(ts, m) {
      var i :| 0 <= i < |m.funcs| && m.funcs[i] == f;
      assert k in BlockKeys(ts, m.funcs[i].body);
    }
    forall c, k | c in m.consts && k in ExprKeys(ts, c.value) ensures k in RootKeys(ts, m) {
      var i :| 0 <= i < |m.consts| && m.consts[i] == c;
      assert k in ExprKeys(ts, m.consts[i].value);
    }
  }

  lemma RootsWithin(ts: Templates, m: Module, keys: set<MonoKey>)
    requires forall i | 0 <= i < |m.funcs| && m.funcs[i].name !in ts :: BlockKeys(ts, m.funcs[i].body) <= keys
    requires forall c | c in m.consts :: ExprKeys(ts, c.value) <= keys
    ensures RootKeys(ts, m) <= keys
  {
    forall k | k in RootKeys(ts, m) ensures k in keys {
      if i :| 0 <= i < |m.consts| && k in ExprKeys(ts, m.consts[i].value) {
        assert m.consts[i] in m.consts;
      }
    }
  }

  /** With nothing pending the memo table, the order and the demand are the same set. */
  lemma FinishedRun(ts: Templates, roots: set<MonoKey>, core: set<MonoKey>, t: Table)
    requires Consistent(ts, t) && Pending(t) == {} && LeastClosed(ts, roots, core)
    requires roots <= t.memo.Keys <= core
    ensures (forall k | k in t.order :: Known(ts, k)) && S.Distinct(t.order)
    ensures LeastClosed(ts, roots, Elements(t.order)) && t.generated == Instances(ts, t.order)
  {
    assert Elements(t.order) == t.memo.Keys by {
      assert forall k | k in t.memo.Keys :: k in Elements(t.order) || k in Pending(t);
    }
    forall k | k in t.memo.Keys ensures NextKeys(ts, k) <= t.memo.Keys {
      assert k in Elements(t.order);
      var i :| 0 <= i < |t.order| && t.order[i] == k;
      assert Finished(ts, t, i);
    }
    assert Closed(ts, t.memo.Keys);
    forall k | k in t.order ensures Known(ts, k) {
      assert k in Elements(t.order);
    }
    forall i | 0 <= i < |t.order| ensures t.generated[i] == Instances(ts, t.order)[i] {
      assert Finished(ts, t, i);
    }
  }

  // ---------------------------------------------------------------------------
  // The output is closed and concrete
  // ---------------------------------------------------------------------------

  lemma {:induction false} RwNoParam(ts: Templates, e: Expr)
    requires !ExprHasParam(e)
    ensures !ExprHasParam(RwExpr(ts, e))
  {
    hide FuncHasParam;
    match e.kind
    case Binary(_, lhs, rhs) => RwNoParam(ts, lhs); RwNoParam(ts, rhs);
    case Call(callee, args) =>
      RwNoParam(ts, callee);
      var c, a := RwExpr(ts, callee), RwArgs(ts, args);
      forall i | 0 <= i < |args| ensures !ExprHasParam(a[i].value) {
        assert a[i] == RwArg(ts, args[i]) && !ExprHasParam(args[i].value);
        RwNoParam(ts, args[i].value);
      }
      if CallOutcome(ts, c, a).Some? {
        InstanceRefNoParam(ts, CallOutcome(ts, c, a).value);
      }
    case AssociatedCall(_, _, operands) =>
      forall i | 0 <= i < |operands| ensures !ExprHasParam(RwExprs(ts, operands)[i]) { RwNoParam(ts, operands[i]); }
    case ListLit(_, elements) =>
      forall i | 0 <= i < |elements| ensures !ExprHasParam(RwExprs(ts, elements)[i]) { RwNoParam(ts, elements[i]); }
    case IfExpr(cond, thn, els) => RwNoParam(ts, cond); RwNoParam(ts, thn); RwNoParam(ts, els);
    case _ =>
  }

  lemma InstanceRefNoParam(ts: Templates, k: MonoKey)
    requires Known(ts, k)
    ensures !ExprHasParam(InstanceRef(ts, k)) && !HasParam(Specialized(ts, k).returnTy)
  {
    var ref := InstanceRef(ts, k);
    assert forall i | 0 <= i < |ref.ty.args| :: !HasParam(ref.ty.args[i]);
  }

  lemma {:induction false} RwNoParamStmt(ts: Templates, st: Stmt)
    requires !StmtHasParam(st)
    ensures !StmtHasParam(RwStmt(ts, st))
    decreases st
  {
    match st
    case Let(_, _, value) => RwNoParam(ts, value);
    case Assign(_, value) => RwNoParam(ts, value);
    case Return(result) => if result.Some? { RwNoParam(ts, result.value); }
    case Eval(value) => RwNoParam(ts, value);
    case If(cond, thn, els) => RwNoParam(ts, cond); RwNoParamBlock(ts, thn); RwNoParamBlock(ts, els);
    case While(cond, body) => RwNoParam(ts, cond); RwNoParamBlock(ts, body);
  }

  lemma {:induction false} RwNoParamBlock(ts: Templates, b: seq<Stmt>)
    requires !BlockHasParam(b)
    ensures !BlockHasParam(RwBlock(ts, b))
    decreases b
  {
    forall i | 0 <= i < |b| ensures !StmtHasParam(RwBlock(ts, b)[i]) { RwNoParamStmt(ts, b[i]); }
  }

  /** Generated functions have no parameter left, even after their own calls are rewritten. */
  lemma InstanceConcrete(ts: Templates, k: MonoKey)
    requires Known(ts, k)
    ensures !FuncHasParam(Instance(ts, k))
  {
    RwNoParamBlock(ts, Specialized(ts, k).body);
  }

  /** No template survives, for any module; a second run has nothing to do. */
  lemma OutputHasNoTemplates(m: Module, order: seq<MonoKey>)
    requires forall k | k in order :: Known(TemplatesOf(m.funcs), k)
    ensures TemplatesOf(Output(m, order).funcs) == map[]
    ensures Output(Output(m, order), []) == Output(m, order)
  {
    var ts := TemplatesOf(m.funcs);
    forall f | f in Output(m, order).funcs ensures !SignatureHasParam(f) {
      if f in Kept(ts, m.funcs) {
        var g := KeptFrom(ts, m.funcs, f);
      } else {
        var i :| 0 <= i < |order| && f == Instances(ts, order)[i];
        assert order[i] in order;
        InstanceConcrete(ts, order[i]);
      }
    }
    var out := TemplatesOf(Output(m, order).funcs);
    assert forall name | name in out :: SignatureHasParam(out[name]);
    assert out.Keys == {};
    assert out == map[];
    NoTemplatesNoChange(Output(m, order));
  }
}
