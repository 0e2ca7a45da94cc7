/** Direct callees: every call the pass rewrites finds its function in the output. */
module MonoCallees {
  import opened Wrappers
  import opened Hir
  import opened TypeInference
  import opened MonoNames
  import opened Monomorph
  import opened MonoModule

  function ExprCallees(e: Expr): set<string> {
    match e.kind
    case Binary(_, lhs, rhs) => ExprCallees(lhs) + ExprCallees(rhs)
    case Call(callee, args) =>
      (if callee.kind.Var? then {callee.kind.name} else {}) + ExprCallees(callee) + ArgsCallees(args)
    case AssociatedCall(_, _, operands) => ExprsCallees(operands)
    case ListLit(_, elements) => ExprsCallees(elements)
    case IfExpr(cond, thn, els) => ExprCallees(cond) + ExprCallees(thn) + ExprCallees(els)
    case _ => {}
  }

  function ArgCallees(a: Arg): set<string> { ExprCallees(a.value) }

  function ArgsCallees(args: seq<Arg>): set<string> {
    set i, c | 0 <= i < |args| && c in ArgCallees(args[i]) :: c
  }

  function ExprsCallees(es: seq<Expr>): set<string> {
    set i, c | 0 <= i < |es| && c in ExprCallees(es[i]) :: c
  }

  function StmtCallees(st: Stmt): set<string> {
    match st
    case Let(_, _, value) => ExprCallees(value)
    case Assign(_, value) => ExprCallees(value)
    case Return(result) => if result.Some? then ExprCallees(result.value) else {}
    case Eval(value) => ExprCallees(value)
    case If(cond, thn, els) => ExprCallees(cond) + BlockCallees(thn) + BlockCallees(els)
    case While(cond, body) => ExprCallees(cond) + BlockCallees(body)
  }

  function BlockCallees(b: seq<Stmt>): set<string> {
    set i, c | 0 <= i < |b| && c in StmtCallees(b[i]) :: c
  }

  /** Substituting types and rewriting adds no callee but the names of instances asked for. */
  lemma {:induction false} ExprCalleesAfter(ts: Templates, e: Expr, s: Subst)
    ensures ExprCallees(SubstExpr(e, s)) == ExprCallees(e)
    ensures ExprCallees(RwExpr(ts, e)) <= ExprCallees(e) + InstanceNames(ExprKeys(ts, e))
    decreases e, 1
  {
    hide Specialized, CallOutcome, InstanceName;
    match e.kind
    case Binary(_, lhs, rhs) => ExprCalleesAfter(ts, lhs, s); ExprCalleesAfter(ts, rhs, s);
    case Call(_, _) => CallCalleesAfter(ts, e, s);
    case AssociatedCall(_, _, operands) => ExprsCalleesAfter(ts, operands, s);
    case ListLit(_, elements) => ExprsCalleesAfter(ts, elements, s);
    case IfExpr(cond, thn, els) =>
      ExprCalleesAfter(ts, cond, s); ExprCalleesAfter(ts, thn, s); ExprCalleesAfter(ts, els, s);
    case _ =>
  }

  lemma {:induction false} CallCalleesAfter(ts: Templates, e: Expr, s: Subst)
    requires e.kind.Call?
    ensures ExprCallees(SubstExpr(e, s)) == ExprCallees(e)
    ensures ExprCallees(RwExpr(ts, e)) <= ExprCallees(e) + InstanceNames(ExprKeys(ts, e))
    decreases e, 0
  {
    hide Specialized, CallOutcome, InstanceName, ArgsCallees, ArgsKeys, RwArgs, SubstArgs, SubstTy;
    var Call(callee, args) := e.kind;
    ExprCalleesAfter(ts, callee, s);
    ArgsCalleesAfter(ts, args, s);
    var key := CallOutcome(ts, RwExpr(ts, callee), RwArgs(ts, args));
    if key.Some? {
      assert key.value in ExprKeys(ts, e);
      RefName(ts, key.value);
    }
  }

  lemma RefName(ts: Templates, key: MonoKey)
    requires key.name in ts
    ensures InstanceRef(ts, key).kind == Var(InstanceName(key))
  {
  }

  lemma {:induction false} ArgsCalleesAfter(ts: Templates, args: seq<Arg>, s: Subst)
    ensures ArgsCallees(SubstArgs(args, s)) == ArgsCallees(args)
    ensures ArgsCallees(RwArgs(ts, args)) <= ArgsCallees(args) + InstanceNames(ArgsKeys(ts, args))
    decreases args
  {
    hide InstanceName;
    forall i | 0 <= i < |args|
      ensures ArgCallees(SubstArgs(args, s)[i]) == ArgCallees(args[i])
      ensures ArgCallees(RwArgs(ts, args)[i]) <= ArgCallees(args[i]) + InstanceNames(ArgKeys(ts, args[i]))
    {
      ArgCalleesAfter(ts, args[i], s);
    }
    forall c | c in ArgsCallees(RwArgs(ts, args)) ensures c in ArgsCallees(args) + InstanceNames(ArgsKeys(ts, args)) {
      var i :| 0 <= i < |args| && c in ArgCallees(RwArgs(ts, args)[i]);
      if c !in ArgCallees(args[i]) {
        var k :| k in ArgKeys(ts, args[i]) && InstanceName(k) == c;
        assert k in ArgsKeys(ts, args);
      }
    }
  }

  lemma {:induction false} ArgCalleesAfter(ts: Templates, a: Arg, s: Subst)
    ensures ArgCallees(SubstArg(a, s)) == ArgCallees(a)
    ensures ArgCallees(RwArg(ts, a)) <= ArgCallees(a) + InstanceNames(ArgKeys(ts, a))
    decreases a
  {
    ExprCalleesAfter(ts, a.value, s);
  }

  lemma {:induction false} ExprsCalleesAfter(ts: Templates, es: seq<Expr>, s: Subst)
    ensures ExprsCallees(SubstExprs(es, s)) == ExprsCallees(es)
    ensures ExprsCallees(RwExprs(ts, es)) <= ExprsCallees(es) + InstanceNames(ExprsKeys(ts, es))
    decreases es
  {
    hide InstanceName;
    forall i | 0 <= i < |es|
      ensures ExprCallees(SubstExprs(es, s)[i]) == ExprCallees(es[i])
      ensures ExprCallees(RwExprs(ts, es)[i]) <= ExprCallees(es[i]) + InstanceNames(ExprKeys(ts, es[i]))
    {
      ExprCalleesAfter(ts, es[i], s);
    }
    forall c | c in ExprsCallees(RwExprs(ts, es)) ensures c in ExprsCallees(es) + InstanceNames(ExprsKeys(ts, es)) {
      var i :| 0 <= i < |es| && c in ExprCallees(RwExprs(ts, es)[i]);
      if c !in ExprCallees(es[i]) {
        var k :| k in ExprKeys(ts, es[i]) && InstanceName(k) == c;
        assert k in ExprsKeys(ts, es);
      }
    }
  }

  lemma {:induction false} StmtCalleesAfter(ts: Templates, st: Stmt, s: Subst)
    ensures StmtCallees(SubstStmt(st, s)) == StmtCallees(st)
    ensures StmtCallees(RwStmt(ts, st)) <= StmtCallees(st) + InstanceNames(StmtKeys(ts, st))
    decreases st
  {
    hide InstanceName, ExprCallees, RwExpr, SubstExpr, ExprKeys;
    match st
    case Let(_, _, value) => ExprCalleesAfter(ts, value, s);
    case Assign(_, value) => ExprCalleesAfter(ts, value, s);
    case Return(result) => if result.Some? { ExprCalleesAfter(ts, result.value, s); }
    case Eval(value) => ExprCalleesAfter(ts, value, s);
    case If(cond, thn, els) =>
      ExprCalleesAfter(ts, cond, s); BlockCalleesAfter(ts, thn, s); BlockCalleesAfter(ts, els, s);
    case While(cond, body) => ExprCalleesAfter(ts, cond, s); BlockCalleesAfter(ts, body, s);
  }

  lemma {:induction false} BlockCalleesAfter(ts: Templates, b: seq<Stmt>, s: Subst)
    ensures BlockCallees(SubstBlock(b, s)) == BlockCallees(b)
    ensures BlockCallees(RwBlock(ts, b)) <= BlockCallees(b) + InstanceNames(BlockKeys(ts, b))
    decreases b
  {
    hide InstanceName;
    forall i | 0 <= i < |b|
      ensures StmtCallees(SubstBlock(b, s)[i]) == StmtCallees(b[i])
      ensures StmtCallees(RwBlock(ts, b)[i]) <= StmtCallees(b[i]) + InstanceNames(StmtKeys(ts, b[i]))
    {
      StmtCalleesAfter(ts, b[i], s);
    }
    forall c | c in BlockCallees(RwBlock(ts, b)) ensures c in BlockCallees(b) + InstanceNames(BlockKeys(ts, b)) {
      var i :| 0 <= i < |b| && c in StmtCallees(RwBlock(ts, b)[i]);
      if c !in StmtCallees(b[i]) {
        var k :| k in StmtKeys(ts, b[i]) && InstanceName(k) == c;
        assert k in BlockKeys(ts, b);
      }
    }
  }

  /** A callee in the output was a callee in the source, or is a function of the output. */
  lemma {:induction false} EveryRewrittenCalleeDefined(m: Module, order: seq<MonoKey>, f: Func, callee: string)
    requires forall k | k in order :: Known(TemplatesOf(m.funcs), k)
    requires LeastClosed(TemplatesOf(m.funcs), RootKeys(TemplatesOf(m.funcs), m), Elements(order))
    requires f in Output(m, order).funcs && callee in BlockCallees(f.body)
    ensures
      || (exists g :: g in m.funcs && callee in BlockCallees(g.body))
      || (exists g :: g in Output(m, order).funcs && g.name == callee)
  {
    hide InstanceName, FuncHasParam, RwBlock, BlockKeys, BlockCallees;
    var ts := TemplatesOf(m.funcs);
    var called: set<MonoKey>;
    if f in Kept(ts, m.funcs) {
      var g := KeptFrom(ts, m.funcs, f);
      RootsCover(ts, m);
      BlockCalleesAfter(ts, g.body, map[]);
      called := BlockKeys(ts, g.body);
    } else {
      var i :| 0 <= i < |order| && f == Instances(ts, order)[i];
      var k := order[i];
      assert k in order && k in Elements(order);
      BlockCalleesAfter(ts, ts[k.name].body, ToSubst(k.args));
      BlockCalleesAfter(ts, Specialized(ts, k).body, map[]);
      called := NextKeys(ts, k);
    }
    if callee in InstanceNames(called) {
      var k :| k in called && InstanceName(k) == callee;
      assert k in Elements(order);
      var j :| 0 <= j < |order| && order[j] == k;
      assert Instances(ts, order)[j].name == callee;
      assert Instances(ts, order)[j] in Output(m, order).funcs;
    }
  }
}
