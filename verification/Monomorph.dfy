/**
  Monomorphization: replaces generic functions by one concrete copy per type argument list.

  The functions say what the pass computes, call by call; none of them depends on the
  memo table. The class below is the pass itself, with its memo table and its output.
*/
module Monomorph {
  import opened Wrappers
  import opened Hir
  import opened TypeInference
  import opened CallInference
  import opened MonoNames
  import S = Sorting

  type Templates = map<string, Func>

  // ---------------------------------------------------------------------------
  // Generic parameters in code
  // ---------------------------------------------------------------------------

  predicate ExprHasParam(e: Expr) {
    HasParam(e.ty) ||
    match e.kind
    case Binary(_, lhs, rhs) => ExprHasParam(lhs) || ExprHasParam(rhs)
    case Call(callee, args) =>
      ExprHasParam(callee) || exists i | 0 <= i < |args| :: ExprHasParam(args[i].value)
    case AssociatedCall(receiver, _, operands) =>
      HasParam(receiver) || exists i | 0 <= i < |operands| :: ExprHasParam(operands[i])
    case ListLit(elemTy, elements) =>
      HasParam(elemTy) || exists i | 0 <= i < |elements| :: ExprHasParam(elements[i])
    case IfExpr(cond, thn, els) => ExprHasParam(cond) || ExprHasParam(thn) || ExprHasParam(els)
    case _ => false
  }

  predicate StmtHasParam(s: Stmt) {
    match s
    case Let(_, ty, value) => HasParam(ty) || ExprHasParam(value)
    case Assign(_, value) => ExprHasParam(value)
    case Return(result) => result.Some? && ExprHasParam(result.value)
    case Eval(value) => ExprHasParam(value)
    case If(cond, thn, els) => ExprHasParam(cond) || BlockHasParam(thn) || BlockHasParam(els)
    case While(cond, body) => ExprHasParam(cond) || BlockHasParam(body)
  }

  predicate BlockHasParam(b: seq<Stmt>) {
    exists i | 0 <= i < |b| :: StmtHasParam(b[i])
  }

  predicate SignatureHasParam(f: Func) {
    HasParam(f.returnTy) || exists i | 0 <= i < |f.params| :: HasParam(f.params[i].ty)
  }

  predicate FuncHasParam(f: Func) {
    SignatureHasParam(f) || BlockHasParam(f.body)
  }

  // ---------------------------------------------------------------------------
  // Substitution in code
  // ---------------------------------------------------------------------------

  function SubstExpr(e: Expr, s: Subst): Expr {
    var kind := match e.kind
      case Binary(op, lhs, rhs) => Binary(op, SubstExpr(lhs, s), SubstExpr(rhs, s))
      case Call(callee, args) => Call(SubstExpr(callee, s), SubstArgs(args, s))
      case AssociatedCall(receiver, member, operands) =>
        AssociatedCall(SubstTy(receiver, s), member, SubstExprs(operands, s))
      case ListLit(elemTy, elements) => ListLit(SubstTy(elemTy, s), SubstExprs(elements, s))
      case IfExpr(cond, thn, els) => IfExpr(SubstExpr(cond, s), SubstExpr(thn, s), SubstExpr(els, s))
      case _ => e.kind;
    Expr(kind, SubstTy(e.ty, s))
  }

  function SubstArgs(args: seq<Arg>, s: Subst): (r: seq<Arg>)
    ensures |r| == |args|
  {
    seq(|args|, i requires 0 <= i < |args| => SubstArg(args[i], s))
  }

  function SubstArg(a: Arg, s: Subst): Arg {
    a.(value := SubstExpr(a.value, s))
  }

  function SubstExprs(es: seq<Expr>, s: Subst): (r: seq<Expr>)
    ensures |r| == |es|
  {
    seq(|es|, i requires 0 <= i < |es| => SubstExpr(es[i], s))
  }

  function SubstStmt(st: Stmt, s: Subst): Stmt {
    match st
    case Let(name, ty, value) => Let(name, SubstTy(ty, s), SubstExpr(value, s))
    case Assign(name, value) => Assign(name, SubstExpr(value, s))
    case Return(result) => Return(if result.Some? then Some(SubstExpr(result.value, s)) else None)
    case Eval(value) => Eval(SubstExpr(value, s))
    case If(cond, thn, els) => If(SubstExpr(cond, s), SubstBlock(thn, s), SubstBlock(els, s))
    case While(cond, body) => While(SubstExpr(cond, s), SubstBlock(body, s))
  }

  function SubstBlock(b: seq<Stmt>, s: Subst): (r: seq<Stmt>)
    ensures |r| == |b|
  {
    seq(|b|, i requires 0 <= i < |b| => SubstStmt(b[i], s))
  }

  function SubstParams(params: seq<ParamDecl>, s: Subst): (r: seq<ParamDecl>)
    ensures |r| == |params|
  {
    seq(|params|, i requires 0 <= i < |params| => params[i].(ty := SubstTy(params[i].ty, s)))
  }

  function SubstFunc(f: Func, s: Subst): Func {
    Func.Func(f.name, SubstParams(f.params, s), SubstTy(f.returnTy, s), SubstBlock(f.body, s))
  }

  // ---------------------------------------------------------------------------
  // Rewriting calls
  // ---------------------------------------------------------------------------

  /** The copy of its template a key stands for, before its own calls are rewritten. */
  function Specialized(ts: Templates, key: MonoKey): Func
    requires key.name in ts
  {
    SubstFunc(ts[key.name], ToSubst(key.args)).(name := InstanceName(key))
  }

  /** The instance a call to `name` needs, if it is a generic call the pass can resolve. */
  function Outcome(ts: Templates, name: string, args: seq<Arg>): (r: Option<MonoKey>)
    ensures r.Some? ==> r.value.name == name && name in ts && !FuncHasParam(Specialized(ts, r.value))
  {
    if name !in ts then None
    else
      var s := InferCall(ts[name].params, args);
      if s == map[] || FuncHasParam(Specialized(ts, Key(name, s))) then None
      else Some(Key(name, s))
  }

  function CallOutcome(ts: Templates, callee: Expr, args: seq<Arg>): (r: Option<MonoKey>)
    ensures r.Some? ==> callee.kind.Var? && r.value.name == callee.kind.name && r.value.name in ts
    ensures r.Some? ==> !FuncHasParam(Specialized(ts, r.value))
  {
    if callee.kind.Var? then Outcome(ts, callee.kind.name, args) else None
  }

  /** The callee of a resolved call, with the type the instance has. */
  function InstanceRef(ts: Templates, key: MonoKey): Expr
    requires key.name in ts
  {
    var f := Specialized(ts, key);
    Expr(Var(f.name), App(Head.Func, seq(|f.params|, i requires 0 <= i < |f.params| => f.params[i].ty) + [f.returnTy]))
  }

  function RwExpr(ts: Templates, e: Expr): Expr {
    match e.kind
    case Binary(op, lhs, rhs) => Expr(Binary(op, RwExpr(ts, lhs), RwExpr(ts, rhs)), e.ty)
    case Call(callee, args) =>
      var c, a := RwExpr(ts, callee), RwArgs(ts, args);
      (match CallOutcome(ts, c, a)
       case Some(key) => Expr(Call(InstanceRef(ts, key), a), Specialized(ts, key).returnTy)
       case None => Expr(Call(c, a), e.ty))
    case AssociatedCall(receiver, member, operands) =>
      Expr(AssociatedCall(receiver, member, RwExprs(ts, operands)), e.ty)
    case ListLit(elemTy, elements) => Expr(ListLit(elemTy, RwExprs(ts, elements)), e.ty)
    case IfExpr(cond, thn, els) => Expr(IfExpr(RwExpr(ts, cond), RwExpr(ts, thn), RwExpr(ts, els)), e.ty)
    case _ => e
  }

  function RwArgs(ts: Templates, args: seq<Arg>): (r: seq<Arg>)
    ensures |r| == |args|
  {
    seq(|args|, i requires 0 <= i < |args| => RwArg(ts, args[i]))
  }

  function RwArg(ts: Templates, a: Arg): Arg {
    a.(value := RwExpr(ts, a.value))
  }

  function RwExprs(ts: Templates, es: seq<Expr>): (r: seq<Expr>)
    ensures |r| == |es|
  {
    seq(|es|, i requires 0 <= i < |es| => RwExpr(ts, es[i]))
  }

  function RwStmt(ts: Templates, st: Stmt): Stmt {
    match st
    case Let(name, ty, value) => Let(name, ty, RwExpr(ts, value))
    case Assign(name, value) => Assign(name, RwExpr(ts, value))
    case Return(result) => Return(if result.Some? then Some(RwExpr(ts, result.value)) else None)
    case Eval(value) => Eval(RwExpr(ts, value))
    case If(cond, thn, els) => If(RwExpr(ts, cond), RwBlock(ts, thn), RwBlock(ts, els))
    case While(cond, body) => While(RwExpr(ts, cond), RwBlock(ts, body))
  }

  function RwBlock(ts: Templates, b: seq<Stmt>): (r: seq<Stmt>)
    ensures |r| == |b|
  {
    seq(|b|, i requires 0 <= i < |b| => RwStmt(ts, b[i]))
  }

  function RwFunc(ts: Templates, f: Func): Func {
    f.(body := RwBlock(ts, f.body))
  }

  /** The generated function of a key. */
  function Instance(ts: Templates, key: MonoKey): Func
    requires key.name in ts
  {
    RwFunc(ts, Specialized(ts, key))
  }

  // ---------------------------------------------------------------------------
  // Demand
  // ---------------------------------------------------------------------------

  /** The instances an expression asks for itself. */
  function ExprKeys(ts: Templates, e: Expr): set<MonoKey> {
    match e.kind
    case Binary(_, lhs, rhs) => ExprKeys(ts, lhs) + ExprKeys(ts, rhs)
    case Call(callee, args) =>
      ExprKeys(ts, callee) + ArgsKeys(ts, args)
      + (match CallOutcome(ts, RwExpr(ts, callee), RwArgs(ts, args)) case Some(key) => {key} case None => {})
    case AssociatedCall(_, _, operands) => ExprsKeys(ts, operands)
    case ListLit(_, elements) => ExprsKeys(ts, elements)
    case IfExpr(cond, thn, els) => ExprKeys(ts, cond) + ExprKeys(ts, thn) + ExprKeys(ts, els)
    case _ => {}
  }

  function ArgsKeys(ts: Templates, args: seq<Arg>): set<MonoKey> {
    set i, k | 0 <= i < |args| && k in ArgKeys(ts, args[i]) :: k
  }

  function ArgKeys(ts: Templates, a: Arg): set<MonoKey> {
    ExprKeys(ts, a.value)
  }

  function ExprsKeys(ts: Templates, es: seq<Expr>): set<MonoKey> {
    set i, k | 0 <= i < |es| && k in ExprKeys(ts, es[i]) :: k
  }

  function StmtKeys(ts: Templates, st: Stmt): set<MonoKey> {
    match st
    case Let(_, _, value) => ExprKeys(ts, value)
    case Assign(_, value) => ExprKeys(ts, value)
    case Return(result) => if result.Some? then ExprKeys(ts, result.value) else {}
    case Eval(value) => ExprKeys(ts, value)
    case If(cond, thn, els) => ExprKeys(ts, cond) + BlockKeys(ts, thn) + BlockKeys(ts, els)
    case While(cond, body) => ExprKeys(ts, cond) + BlockKeys(ts, body)
  }

  function BlockKeys(ts: Templates, b: seq<Stmt>): set<MonoKey> {
    set i, k | 0 <= i < |b| && k in StmtKeys(ts, b[i]) :: k
  }

  /** What the instance of `key` asks for in turn. */
  function NextKeys(ts: Templates, key: MonoKey): set<MonoKey>
    requires key.name in ts
  {
    BlockKeys(ts, Specialized(ts, key).body)
  }

  ghost predicate Closed(ts: Templates, keys: set<MonoKey>) {
    forall k | k in keys && k.name in ts :: NextKeys(ts, k) <= keys
  }

  // ---------------------------------------------------------------------------
  // The pass
  // ---------------------------------------------------------------------------

  function Elements<T>(s: seq<T>): set<T> {
    set x | x in s
  }

  /** The memo table and the output; `order` holds the key of each generated function. */
  datatype Table = Table(memo: map<MonoKey, string>, generated: seq<Func>, ghost order: seq<MonoKey>)

  /** Keys whose function is still being rewritten. */
  ghost function Pending(t: Table): set<MonoKey> {
    t.memo.Keys - Elements(t.order)
  }

  ghost predicate Known(ts: Templates, k: MonoKey) {
    k.name in ts && !FuncHasParam(Specialized(ts, k))
  }

  ghost predicate Finished(ts: Templates, t: Table, i: nat)
    requires i < |t.order| && i < |t.generated|
  {
    Known(ts, t.order[i]) && t.generated[i] == Instance(ts, t.order[i]) && NextKeys(ts, t.order[i]) <= t.memo.Keys
  }

  ghost predicate Consistent(ts: Templates, t: Table) {
    && (forall k | k in t.memo :: Known(ts, k) && t.memo[k] == InstanceName(k))
    && |t.order| == |t.generated| && Elements(t.order) <= t.memo.Keys && S.Distinct(t.order)
    && (forall i | 0 <= i < |t.order| :: Finished(ts, t, i))
  }

  /** Between two states of a run entries stay, nothing exceeds the universe, and no pending function is forgotten. */
  ghost predicate Grew(t: Table, u: Table, universe: set<MonoKey>) {
    t.memo.Keys <= u.memo.Keys <= universe && Pending(t) == Pending(u)
  }

  lemma StartKeeps(ts: Templates, t: Table, key: MonoKey)
    requires Consistent(ts, t) && Known(ts, key) && key !in t.memo
    ensures
      var u := t.(memo := t.memo[key := InstanceName(key)]);
      Consistent(ts, u) && Pending(u) == Pending(t) + {key}
  {
    var u := t.(memo := t.memo[key := InstanceName(key)]);
    forall i | 0 <= i < |u.order| ensures Finished(ts, u, i) {
      assert Finished(ts, t, i);
    }
  }

  lemma FinishKeeps(ts: Templates, t: Table, key: MonoKey, f: Func)
    requires Consistent(ts, t) && key in Pending(t)
    requires Known(ts, key) && f == Instance(ts, key) && NextKeys(ts, key) <= t.memo.Keys
    ensures
      var u := t.(generated := t.generated + [f], order := t.order + [key]);
      Consistent(ts, u) && Pending(u) == Pending(t) - {key}
  {
    var u := t.(generated := t.generated + [f], order := t.order + [key]);
    assert Elements(u.order) == Elements(t.order) + {key};
    forall i | 0 <= i < |u.order| ensures Finished(ts, u, i) {
      if i < |t.order| { assert Finished(ts, t, i); }
    }
  }

  datatype Instantiation = Instantiation(name: string, callee: Expr, returnTy: Ty)

  /** What a caller is told about the instance of a key. */
  function Instantiated(ts: Templates, key: MonoKey): Instantiation
    requires key.name in ts
  {
    Instantiation(InstanceName(key), InstanceRef(ts, key), Specialized(ts, key).returnTy)
  }

  class MonoState {
    const templates: Templates
    var specializations: map<MonoKey, string>
    var generated: seq<Func>
    /** The key of each generated function. */
    ghost var order: seq<MonoKey>

    constructor (ts: Templates)
      ensures templates == ts && specializations == map[] && generated == [] && order == []
      ensures Valid()
    {
      templates, specializations, generated, order := ts, map[], [], [];
    }

    ghost function Contents(): Table
      reads this
    {
      Table(specializations, generated, order)
    }

    ghost predicate Valid()
      reads this
    {
      Consistent(templates, Contents())
    }

    /** Everything in the table, and everything it can still need, lies in the universe. */
    ghost predicate Within(universe: set<MonoKey>)
      reads this
    {
      Valid() && specializations.Keys <= universe && Closed(templates, universe)
    }

    /**
      Resolves one call: finds or generates the instance. The universe bounds what can be
      asked for; the source recurs without bound when there is none.
    */
    method SpecializeCall(name: string, args: seq<Arg>, ghost universe: set<MonoKey>)
      returns (r: Option<Instantiation>)
      requires Within(universe)
      requires Outcome(templates, name, args).Some? ==> Outcome(templates, name, args).value in universe
      modifies this
      ensures Valid() && Grew(old(Contents()), Contents(), universe)
      ensures r.Some? <==> Outcome(templates, name, args).Some?
      ensures r.Some? ==>
        var key := Outcome(templates, name, args).value;
        key in specializations && r.value == Instantiated(templates, key)
      decreases universe - specializations.Keys, 0, 1
    {
      if name !in templates {
        return None;
      }
      var s := InferCallSubstitutions(templates[name].params, args);
      if s == map[] {
        return None;
      }
      var key := Key(name, s);
      var specialized := Specialized(templates, key);
      if key in specializations {
        assert Known(templates, key);
        return Some(Instantiated(templates, key).(name := specializations[key]));
      }
      if FuncHasParam(specialized) {
        return None;
      }
      Generate(key, specialized, universe);
      return Some(Instantiated(templates, key));
    }

    /** Enters a new key before rewriting the body, so that a recursive call finds it. */
    method Generate(key: MonoKey, specialized: Func, ghost universe: set<MonoKey>)
      requires Within(universe) && key in universe && key !in specializations
      requires key.name in templates && Known(templates, key) && specialized == Specialized(templates, key)
      modifies this
      ensures Valid() && Grew(old(Contents()), Contents(), universe) && key in specializations
      decreases universe - specializations.Keys, 0, 0
    {
      hide Consistent, Known;
      StartKeeps(templates, Contents(), key);
      specializations := specializations[key := specialized.name];
      var body := RewriteBlock(specialized.body, universe);
      FinishKeeps(templates, Contents(), key, specialized.(body := body));
      generated := generated + [specialized.(body := body)];
      order := order + [key];
    }

    method RewriteCall(e: Expr, ghost universe: set<MonoKey>) returns (r: Expr)
      requires e.kind.Call? && Within(universe) && ExprKeys(templates, e) <= universe
      modifies this
      ensures Valid() && Grew(old(Contents()), Contents(), universe)
      ensures r == RwExpr(templates, e) && ExprKeys(templates, e) <= specializations.Keys
      decreases universe - specializations.Keys, 1, e, 0
    {
      hide Consistent;
      var Call(callee, args) := e.kind;
      var c := RewriteExpr(callee, universe);
      var a := RewriteArgs(args, universe);
      r := Expr(Call(c, a), e.ty);
      if c.kind.Var? {
        var done := SpecializeCall(c.kind.name, a, universe);
        if done.Some? {
          r := Expr(Call(done.value.callee.(kind := Var(done.value.name)), a), done.value.returnTy);
        }
      }
    }

    method RewriteExpr(e: Expr, ghost universe: set<MonoKey>) returns (r: Expr)
      requires Within(universe) && ExprKeys(templates, e) <= universe
      modifies this
      ensures Valid() && Grew(old(Contents()), Contents(), universe)
      ensures r == RwExpr(templates, e) && ExprKeys(templates, e) <= specializations.Keys
      decreases universe - specializations.Keys, 1, e
    {
      hide Consistent;
      match e.kind {
        case Binary(op, lhs, rhs) =>
          var l := RewriteExpr(lhs, universe);
          var rr := RewriteExpr(rhs, universe);
          r := Expr(Binary(op, l, rr), e.ty);
        case Call(_, _) =>
          r := RewriteCall(e, universe);
        case AssociatedCall(receiver, member, operands) =>
          var os := RewriteExprs(operands, universe);
          r := Expr(AssociatedCall(receiver, member, os), e.ty);
        case ListLit(elemTy, elements) =>
          var es := RewriteExprs(elements, universe);
          r := Expr(ListLit(elemTy, es), e.ty);
        case IfExpr(cond, thn, els) =>
          var c := RewriteExpr(cond, universe);
          var t := RewriteExpr(thn, universe);
          var f := RewriteExpr(els, universe);
          r := Expr(IfExpr(c, t, f), e.ty);
        case _ => r := e;
      }
    }

    method RewriteArg(a: Arg, ghost universe: set<MonoKey>) returns (r: Arg)
      requires Within(universe) && ArgKeys(templates, a) <= universe
      modifies this
      ensures Valid() && Grew(old(Contents()), Contents(), universe)
      ensures r == RwArg(templates, a) && ArgKeys(templates, a) <= specializations.Keys
      decreases universe - specializations.Keys, 1, a
    {
      hide Consistent;
      var v := RewriteExpr(a.value, universe);
      r := a.(value := v);
    }

    method RewriteArgs(args: seq<Arg>, ghost universe: set<MonoKey>) returns (r: seq<Arg>)
      requires Within(universe) && ArgsKeys(templates, args) <= universe
      modifies this
      ensures Valid() && Grew(old(Contents()), Contents(), universe)
      ensures r == RwArgs(templates, args) && ArgsKeys(templates, args) <= specializations.Keys
      decreases universe - specializations.Keys, 1, args
    {
      hide Consistent;
      r := args;
      for i := 0 to |args|
        invariant Within(universe) && Grew(old(Contents()), Contents(), universe)
        invariant |r| == |args|
        invariant forall j | 0 <= j < i :: r[j] == RwArg(templates, args[j])
        invariant forall j | i <= j < |args| :: r[j] == args[j]
        invariant forall j | 0 <= j < i :: ArgKeys(templates, args[j]) <= specializations.Keys
      {
        assert forall k | k in ArgKeys(templates, args[i]) :: k in ArgsKeys(templates, args);
        var a := RewriteArg(r[i], universe);
        r := r[i := a];
      }
    }

    method RewriteExprs(es: seq<Expr>, ghost universe: set<MonoKey>) returns (r: seq<Expr>)
      requires Within(universe) && ExprsKeys(templates, es) <= universe
      modifies this
      ensures Valid() && Grew(old(Contents()), Contents(), universe)
      ensures r == RwExprs(templates, es) && ExprsKeys(templates, es) <= specializations.Keys
      decreases universe - specializations.Keys, 1, es
    {
      hide Consistent;
      r := es;
      for i := 0 to |es|
        invariant Within(universe) && Grew(old(Contents()), Contents(), universe)
        invariant |r| == |es|
        invariant forall j | 0 <= j < i :: r[j] == RwExpr(templates, es[j])
        invariant forall j | i <= j < |es| :: r[j] == es[j]
        invariant forall j | 0 <= j < i :: ExprKeys(templates, es[j]) <= specializations.Keys
      {
        assert forall k | k in ExprKeys(templates, es[i]) :: k in ExprsKeys(templates, es);
        var v := RewriteExpr(r[i], universe);
        r := r[i := v];
      }
    }

    method RewriteStmt(st: Stmt, ghost universe: set<MonoKey>) returns (r: Stmt)
      requires Within(universe) && StmtKeys(templates, st) <= universe
      modifies this
      ensures Valid() && Grew(old(Contents()), Contents(), universe)
      ensures r == RwStmt(templates, st) && StmtKeys(templates, st) <= specializations.Keys
      decreases universe - specializations.Keys, 1, st
    {
      hide Consistent;
      match st {
        case Let(name, ty, value) =>
          var v := RewriteExpr(value, universe);
          r := Let(name, ty, v);
        case Assign(name, value) =>
          var v := RewriteExpr(value, universe);
          r := Assign(name, v);
        case Return(result) =>
          r := st;
          if result.Some? {
            var v := RewriteExpr(result.value, universe);
            r := Return(Some(v));
          }
        case Eval(value) =>
          var v := RewriteExpr(value, universe);
          r := Eval(v);
        case If(cond, thn, els) =>
          var c := RewriteExpr(cond, universe);
          var t := RewriteBlock(thn, universe);
          var f := RewriteBlock(els, universe);
          r := If(c, t, f);
        case While(cond, body) =>
          var c := RewriteExpr(cond, universe);
          var b := RewriteBlock(body, universe);
          r := While(c, b);
      }
    }

    method RewriteBlock(b: seq<Stmt>, ghost universe: set<MonoKey>) returns (r: seq<Stmt>)
      requires Within(universe) && BlockKeys(templates, b) <= universe
      modifies this
      ensures Valid() && Grew(old(Contents()), Contents(), universe)
      ensures r == RwBlock(templates, b) && BlockKeys(templates, b) <= specializations.Keys
      decreases universe - specializations.Keys, 1, b
    {
      hide Consistent;
      r := b;
      for i := 0 to |b|
        invariant Within(universe) && Grew(old(Contents()), Contents(), universe)
        invariant |r| == |b|
        invariant forall j | 0 <= j < i :: r[j] == RwStmt(templates, b[j])
        invariant forall j | i <= j < |b| :: r[j] == b[j]
        invariant forall j | 0 <= j < i :: StmtKeys(templates, b[j]) <= specializations.Keys
      {
        assert forall k | k in StmtKeys(templates, b[i]) :: k in BlockKeys(templates, b);
        var st := RewriteStmt(r[i], universe);
        r := r[i := st];
      }
    }
  }
}
