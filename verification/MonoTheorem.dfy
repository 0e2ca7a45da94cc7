/** The main theorem on the generic pass. */
module MonoTheorem {
  import opened Wrappers
  import opened Hir
  import opened TypeInference
  import opened CallInference
  import opened MonoNames
  import opened Monomorph
  import opened MonoModule
  import opened HirEval
  import opened MonoMeaning
  import opened MonoSimulation

  /**
    What the type checker is trusted with: the arguments of generic calls determine their type
    arguments, only templates need any of their own, and nothing is called like an instance.
    The annotations lowering leaves on generic calls are not trusted.
  */
  ghost predicate Checked(m: Module, keys: set<MonoKey>) {
    var ts, inst := TemplatesOf(m.funcs), InstanceNames(keys);
    && (forall f, g | f in m.funcs && g in m.funcs && f.name == g.name :: f == g)
    && (forall c | c in m.consts :: c.name !in ts)
    && (forall f | f in m.funcs :: GoodFunc(ts, inst, f))
    && (forall f | f in m.funcs && f.name !in ts :: BlockUses(ts, f.body) == {})
    && (forall c | c in m.consts :: GoodExpr(ts, inst, c.value) && ExprUses(ts, c.value) == {})
    && (forall k | k in m.impls :: m.impls[k] !in inst)
  }

  ghost predicate WellFormed(m: Module, keys: set<MonoKey>) { Checked(m, keys) && DistinctNames(keys) }

  lemma {:induction false} LookupAppend(a: seq<Func>, b: seq<Func>, name: string)
    ensures Lookup(a + b, name) == if Lookup(a, name).Some? then Lookup(a, name) else Lookup(b, name)
  {
    if a == [] {
      assert a + b == b;
    } else {
      assert (a + b)[1..] == a[1..] + b;
      LookupAppend(a[1..], b, name);
    }
  }

  lemma LookupUnique(funcs: seq<Func>, f: Func)
    requires f in funcs && forall g | g in funcs && g.name == f.name :: g == f
    ensures Lookup(funcs, f.name) == Some(f)
  {
  }

  lemma LookupKept(ts: Templates, funcs: seq<Func>, name: string)
    requires forall f, g | f in funcs && g in funcs && f.name == g.name :: f == g
    ensures Lookup(Kept(ts, funcs), name) ==
      if name !in ts && Lookup(funcs, name).Some? then Some(RwFunc(ts, Lookup(funcs, name).value)) else None
  {
    var r := Lookup(Kept(ts, funcs), name);
    if r.Some? {
      var g := KeptFrom(ts, funcs, r.value);
      LookupUnique(funcs, g);
    } else if name !in ts && Lookup(funcs, name).Some? {
      KeptAll(ts, funcs, Lookup(funcs, name).value);
    }
  }

  lemma LookupInstance(ts: Templates, order: seq<MonoKey>, name: string)
    requires (forall k | k in order :: Known(ts, k)) && DistinctNames(Elements(order))
    ensures name !in InstanceNames(Elements(order)) ==> Lookup(Instances(ts, order), name) == None
    ensures forall k | k in order && name == InstanceName(k) ::
      Lookup(Instances(ts, order), name) == Some(Instance(ts, k))
  {
    hide InstanceName, Specialized, FuncHasParam;
    var r := Lookup(Instances(ts, order), name);
    if r.Some? {
      var j :| 0 <= j < |order| && Instances(ts, order)[j] == r.value;
      InstanceHasName(ts, order[j]);
      assert order[j] in Elements(order);
    }
    forall k | k in order && name == InstanceName(k) ensures r == Some(Instance(ts, k)) {
      var i :| 0 <= i < |order| && order[i] == k;
      InstanceHasName(ts, k);
      assert Instances(ts, order)[i] in Instances(ts, order);
      assert k in Elements(order);
    }
  }

  lemma InstanceHasName(ts: Templates, k: MonoKey)
    requires Known(ts, k)
    ensures k.name in ts && Instance(ts, k).name == InstanceName(k)
  {
  }

  lemma {:induction false} LookupRwConst(ts: Templates, consts: seq<Const>, name: string)
    ensures LookupConst(RwConsts(ts, consts), name) ==
      match LookupConst(consts, name)
      case Some(c) => Some(c.(value := RwExpr(ts, c.value)))
      case None => None
  {
    if consts != [] {
      assert RwConsts(ts, consts)[1..] == RwConsts(ts, consts[1..]);
      LookupRwConst(ts, consts[1..], name);
    }
  }

  ghost function LinkOf(m: Module, order: seq<MonoKey>): Link
    requires forall k | k in order :: Known(TemplatesOf(m.funcs), k)
  {
    Link(m, Output(m, order), TemplatesOf(m.funcs), Elements(order), InstanceNames(Elements(order)))
  }

  lemma TemplateLookups(m: Module)
    requires forall f, g | f in m.funcs && g in m.funcs && f.name == g.name :: f == g
    ensures forall name :: IsTemplate(m, name) <==> name in TemplatesOf(m.funcs)
    ensures forall name | name in TemplatesOf(m.funcs) :: Lookup(m.funcs, name) == Some(TemplatesOf(m.funcs)[name])
  {
    var ts := TemplatesOf(m.funcs);
    forall name ensures IsTemplate(m, name) <==> name in ts
                ensures name in ts ==> Lookup(m.funcs, name) == Some(ts[name])
    {
      if name in ts { LookupUnique(m.funcs, ts[name]); }
    }
  }

  lemma OutputLookup(m: Module, order: seq<MonoKey>, name: string)
    requires (forall k | k in order :: Known(TemplatesOf(m.funcs), k)) && DistinctNames(Elements(order))
    requires forall f, g | f in m.funcs && g in m.funcs && f.name == g.name :: f == g
    requires forall f | f in m.funcs :: f.name !in InstanceNames(Elements(order))
    ensures
      var ts := TemplatesOf(m.funcs);
      var after := Lookup(Output(m, order).funcs, name);
      && (forall k | k in order && name == InstanceName(k) :: after == Some(Instance(ts, k)))
      && (name !in InstanceNames(Elements(order)) ==>
            after == if name !in ts && Lookup(m.funcs, name).Some? then Some(RwFunc(ts, Lookup(m.funcs, name).value)) else None)
  {
    hide Known, InstanceName, DistinctNames;
    var ts := TemplatesOf(m.funcs);
    LookupAppend(Kept(ts, m.funcs), Instances(ts, order), name);
    LookupKept(ts, m.funcs, name);
    LookupInstance(ts, order, name);
    forall k | k in order && name == InstanceName(k) ensures Lookup(m.funcs, name).None? {
      assert k in Elements(order);
    }
  }

  lemma TemplatesGone(m: Module, order: seq<MonoKey>, name: string)
    requires forall k | k in order :: Known(TemplatesOf(m.funcs), k)
    requires WellFormed(m, Elements(order)) && name in TemplatesOf(m.funcs)
    ensures Lookup(Output(m, order).funcs, name) == None && LookupConst(Output(m, order).consts, name) == None
  {
    hide Known, InstanceName, DistinctNames, GoodExpr, ExprUses, BlockUses, GoodBlock;
    var ts, inst := TemplatesOf(m.funcs), InstanceNames(Elements(order));
    assert ts[name] in m.funcs && GoodFunc(ts, inst, ts[name]);
    OutputLookup(m, order, name);
    LookupRwConst(ts, m.consts, name);
  }

  lemma NoTemplateAfter(m: Module, order: seq<MonoKey>, name: string)
    requires forall k | k in order :: Known(TemplatesOf(m.funcs), k)
    ensures !IsTemplate(Output(m, order), name)
  {
    hide Known, Output;
    OutputHasNoTemplates(m, order);
    var after := Output(m, order);
    assert forall f | f in after.funcs :: f.name !in TemplatesOf(after.funcs);
  }

  lemma LinkTemplates(m: Module, order: seq<MonoKey>)
    requires forall k | k in order :: Known(TemplatesOf(m.funcs), k)
    requires WellFormed(m, Elements(order))
    ensures TemplatesLinked(LinkOf(m, order))
  {
    hide Known, InstanceName, DistinctNames, GoodExpr, ExprUses, BlockUses, GoodBlock, IsTemplate, Output;
    var l := LinkOf(m, order);
    TemplateLookups(m);
    forall name ensures !IsTemplate(l.after, name) { NoTemplateAfter(m, order, name); }
    forall name | name in l.ts
      ensures Lookup(l.after.funcs, name) == None && LookupConst(l.after.consts, name) == None
    {
      TemplatesGone(m, order, name);
    }
  }

  lemma LinkRest(m: Module, order: seq<MonoKey>)
    requires forall k | k in order :: Known(TemplatesOf(m.funcs), k)
    requires WellFormed(m, Elements(order))
    requires LeastClosed(TemplatesOf(m.funcs), RootKeys(TemplatesOf(m.funcs), m), Elements(order))
    ensures Linked(LinkOf(m, order))
  {
    hide InstanceName, DistinctNames, GoodExpr, ExprUses, BlockUses, GoodBlock, Specialized, FuncHasParam, TemplatesLinked;
    var l := LinkOf(m, order);
    LinkTemplates(m, order);
    RootsCover(l.ts, m);
    assert FuncsLinked(l) by {
      forall name | name !in l.inst && name !in l.ts
        ensures match Lookup(l.before.funcs, name)
                case Some(f) => KeptFunc(l, f) && Lookup(l.after.funcs, name) == Some(RwFunc(l.ts, f))
                case None => Lookup(l.after.funcs, name) == None
      {
        OutputLookup(m, order, name);
      }
    }
    assert InstancesLinked(l) by {
      forall k | k in l.keys
        ensures k.name in l.ts && InstanceName(k) in l.inst && NextKeys(l.ts, k) <= l.keys
        ensures Lookup(l.after.funcs, InstanceName(k)) == Some(Instance(l.ts, k))
      {
        OutputLookup(m, order, InstanceName(k));
      }
    }
    assert ConstsLinked(l) by {
      forall name
        ensures match LookupConst(l.before.consts, name)
                case Some(c) => KeptConst(l, c) && LookupConst(l.after.consts, name) == Some(c.(value := RwExpr(l.ts, c.value)))
                case None => LookupConst(l.after.consts, name) == None
      {
        LookupRwConst(l.ts, m.consts, name);
      }
    }
  }

  /**
    Monomorphization preserves meaning. For a well-formed module and the order in which the
    pass generated the instances in demand, a call of any function by name, with any
    values, gives the same result after the pass as before it, fuel for fuel: the same
    value, or stuck, or out of fuel. Only the names the pass invented are excluded.
  */
  lemma MeaningPreserved(m: Module, order: seq<MonoKey>, name: string, vs: seq<Value>, fuel: nat)
    requires forall k | k in order :: Known(TemplatesOf(m.funcs), k)
    requires LeastClosed(TemplatesOf(m.funcs), RootKeys(TemplatesOf(m.funcs), m), Elements(order))
    requires WellFormed(m, Elements(order))
    requires name !in InstanceNames(Elements(order)) && AllClean(InstanceNames(Elements(order)), vs)
    ensures Run(Output(m, order), name, vs, fuel) == Run(m, name, vs, fuel)
  {
    hide WellFormed, Linked, InvokeValue, LeastClosed;
    LinkRest(m, order);
    SimInvokeValue(LinkOf(m, order), VFunc(name), Positional(|vs|), vs, fuel);
  }
}
