/**
  Type substitution and the inference of type arguments from a call.

  The pass finds the type arguments of a generic call by matching parameter types
  against argument types. The main result is that this matching inverts substitution.
*/
module TypeInference {
  import opened Wrappers
  import opened Hir

  type Subst = map<nat, Ty>

  // ---------------------------------------------------------------------------
  // Types
  // ---------------------------------------------------------------------------

  function SubstTy(t: Ty, s: Subst): Ty {
    match t
    case Param(i, _) => if i in s then s[i] else t
    case App(h, args) =>
      if Traversed(h) then App(h, seq(|args|, i requires 0 <= i < |args| => SubstTy(args[i], s))) else t
    case _ => t
  }

  /** Whether the pass sees a type parameter in `t`. */
  predicate HasParam(t: Ty) {
    match t
    case Param(_, _) => true
    case App(h, args) => Traversed(h) && exists i | 0 <= i < |args| :: HasParam(args[i])
    case _ => false
  }

  predicate ContainsInfer(t: Ty) {
    match t
    case Infer(_) => true
    case App(_, args) => exists i | 0 <= i < |args| :: ContainsInfer(args[i])
    case _ => false
  }

  /** The parameter indices the pass sees in `t`. */
  function TyParams(t: Ty): set<nat> {
    match t
    case Param(i, _) => {i}
    case App(h, args) =>
      if Traversed(h) then set i, p | 0 <= i < |args| && p in TyParams(args[i]) :: p else {}
    case _ => {}
  }

  /** A type a parameter can be bound to. */
  predicate Proper(t: Ty) {
    !t.Error? && !ContainsInfer(t)
  }

  predicate Concrete(t: Ty) {
    Proper(t) && !HasParam(t)
  }

  ghost predicate ProperSubst(s: Subst) {
    forall i | i in s :: Proper(s[i])
  }

  ghost predicate ConcreteSubst(s: Subst) {
    forall i | i in s :: Concrete(s[i])
  }

  function Compose(s: Subst, outer: Subst): Subst {
    map i | i in s :: SubstTy(s[i], outer)
  }

  lemma {:induction false} NoParams(t: Ty)
    ensures HasParam(t) <==> TyParams(t) != {}
  {
    match t
    case App(h, args) =>
      if Traversed(h) {
        forall i | 0 <= i < |args| ensures HasParam(args[i]) <==> TyParams(args[i]) != {} {
          NoParams(args[i]);
        }
        if i :| 0 <= i < |args| && HasParam(args[i]) {
          var p :| p in TyParams(args[i]);
          assert p in TyParams(t);
        }
      }
    case Param(i, _) => assert i in TyParams(t);
    case _ =>
  }

  lemma {:induction false} SubstCompose(t: Ty, s: Subst, outer: Subst)
    requires TyParams(t) <= s.Keys
    ensures SubstTy(SubstTy(t, s), outer) == SubstTy(t, Compose(s, outer))
  {
    match t
    case App(h, args) =>
      if Traversed(h) {
        forall i | 0 <= i < |args|
          ensures SubstTy(SubstTy(args[i], s), outer) == SubstTy(args[i], Compose(s, outer))
        {
          assert forall p | p in TyParams(args[i]) :: p in TyParams(t);
          SubstCompose(args[i], s, outer);
        }
      }
    case _ =>
  }

  lemma {:induction false} SubstNothing(t: Ty)
    ensures SubstTy(t, map[]) == t
  {
    match t
    case App(h, args) =>
      forall i | 0 <= i < |args| ensures SubstTy(args[i], map[]) == args[i] {
        SubstNothing(args[i]);
      }
      if Traversed(h) {
        assert SubstTy(t, map[]).args == args;
      }
    case _ =>
  }

  /** Substituting covered parameters by types leaves exactly the parameters of those types. */
  lemma {:induction false} ParamsAfterSubst(t: Ty, s: Subst)
    requires TyParams(t) <= s.Keys
    ensures forall p | p in TyParams(SubstTy(t, s)) :: exists i :: i in TyParams(t) && p in TyParams(s[i])
  {
    match t
    case App(h, args) =>
      if Traversed(h) {
        forall p | p in TyParams(SubstTy(t, s))
          ensures exists i :: i in TyParams(t) && p in TyParams(s[i])
        {
          var k :| 0 <= k < |args| && p in TyParams(SubstTy(args[k], s));
          assert forall q | q in TyParams(args[k]) :: q in TyParams(t);
          ParamsAfterSubst(args[k], s);
          var i :| i in TyParams(args[k]) && p in TyParams(s[i]);
          assert i in TyParams(t);
        }
      }
    case Param(i, _) =>
      forall p | p in TyParams(SubstTy(t, s)) ensures i in TyParams(t) && p in TyParams(s[i]) {}
    case _ =>
  }

  lemma {:induction false} SubstInfer(t: Ty, s: Subst)
    requires ProperSubst(s) && !ContainsInfer(t)
    ensures !ContainsInfer(SubstTy(t, s))
  {
    match t
    case App(h, args) =>
      if Traversed(h) {
        forall i | 0 <= i < |args| ensures !ContainsInfer(SubstTy(args[i], s)) {
          SubstInfer(args[i], s);
        }
      }
    case _ =>
  }

  lemma SubstConcrete(t: Ty, s: Subst)
    requires TyParams(t) <= s.Keys && ConcreteSubst(s)
    ensures !HasParam(SubstTy(t, s))
    ensures Proper(t) ==> Concrete(SubstTy(t, s))
  {
    ParamsAfterSubst(t, s);
    NoParams(SubstTy(t, s));
    if HasParam(SubstTy(t, s)) {
      var p :| p in TyParams(SubstTy(t, s));
      var i :| i in TyParams(t) && p in TyParams(s[i]);
      NoParams(s[i]);
      assert false;
    }
    if Proper(t) {
      SubstInfer(t, s);
    }
  }

  lemma ComposeConcrete(s: Subst, outer: Subst)
    requires ProperSubst(s) && ConcreteSubst(outer)
    requires forall i | i in s :: TyParams(s[i]) <= outer.Keys
    ensures ConcreteSubst(Compose(s, outer))
  {
    forall i | i in s ensures Concrete(SubstTy(s[i], outer)) {
      SubstConcrete(s[i], outer);
    }
  }

  // ---------------------------------------------------------------------------
  // Matching one type against another
  // ---------------------------------------------------------------------------

  function InferTy(template: Ty, actual: Ty, s: Subst): Subst
    decreases template, 1
  {
    if template.Param? then
      if actual.Error? || ContainsInfer(actual) || HasParam(actual) || template.index in s then s
      else s[template.index := actual]
    else if template.App? && actual.App? && Traversed(template.head)
         && template.head == actual.head && |template.args| == |actual.args| then
      InferTys(template.args, actual.args, s)
    else s
  }

  function InferTys(templates: seq<Ty>, actuals: seq<Ty>, s: Subst): Subst
    requires |templates| == |actuals|
    decreases templates, 0
  {
    if templates == [] then s
    else InferTys(templates[1..], actuals[1..], InferTy(templates[0], actuals[0], s))
  }

  /** The source's in-place matching; the map it updates is passed through. */
  method InferSubstitution(template: Ty, actual: Ty, s: Subst) returns (r: Subst)
    ensures r == InferTy(template, actual, s)
    decreases template
  {
    r := s;
    match template {
      case Param(index, _) =>
        if actual.Error? || ContainsInfer(actual) || HasParam(actual) {
          return;
        }
        if index !in r {
          r := r[index := actual];
        }
      case App(head, args) =>
        if actual.App? && Traversed(head) && head == actual.head && |args| == |actual.args| {
          for i := 0 to |args|
            invariant InferTys(args[i..], actual.args[i..], r) == InferTys(args, actual.args, s)
          {
            assert args[i..][1..] == args[i + 1..] && actual.args[i..][1..] == actual.args[i + 1..];
            r := InferSubstitution(args[i], actual.args[i], r);
          }
        }
      case _ =>
    }
  }

  /** `r` extends `before` by bindings of `s` for exactly the parameters `ps`. */
  ghost predicate Learned(before: Subst, r: Subst, s: Subst, ps: set<nat>) {
    && r.Keys == before.Keys + ps
    && forall i | i in r :: i in s && r[i] == s[i]
  }

  /** Matching a type against its own instance learns that instance's bindings. */
  lemma {:induction false} InferTyInverts(t: Ty, s: Subst, before: Subst)
    requires ConcreteSubst(s) && TyParams(t) <= s.Keys
    requires forall i | i in before :: i in s && before[i] == s[i]
    ensures Learned(before, InferTy(t, SubstTy(t, s), before), s, TyParams(t))
    decreases t, 1
  {
    match t
    case Param(i, _) =>
    case App(h, args) =>
      if Traversed(h) {
        forall i | 0 <= i < |args| ensures TyParams(args[i]) <= s.Keys {
          assert forall p | p in TyParams(args[i]) :: p in TyParams(t);
        }
        InferTysInverts(args, s, before);
        assert SubstTy(t, s).args == seq(|args|, i requires 0 <= i < |args| => SubstTy(args[i], s));
        assert AllParams(args) == TyParams(t);
      }
    case _ =>
  }

  function AllParams(ts: seq<Ty>): set<nat> {
    set i, p | 0 <= i < |ts| && p in TyParams(ts[i]) :: p
  }

  lemma {:induction false} InferTysInverts(ts: seq<Ty>, s: Subst, before: Subst)
    requires ConcreteSubst(s) && forall i | 0 <= i < |ts| :: TyParams(ts[i]) <= s.Keys
    requires forall i | i in before :: i in s && before[i] == s[i]
    ensures
      var actuals := seq(|ts|, i requires 0 <= i < |ts| => SubstTy(ts[i], s));
      Learned(before, InferTys(ts, actuals, before), s, AllParams(ts))
    decreases ts, 0
  {
    var actuals := seq(|ts|, i requires 0 <= i < |ts| => SubstTy(ts[i], s));
    if ts != [] {
      InferTyInverts(ts[0], s, before);
      var next := InferTy(ts[0], actuals[0], before);
      InferTysInverts(ts[1..], s, next);
      assert actuals[1..] == seq(|ts[1..]|, i requires 0 <= i < |ts[1..]| => SubstTy(ts[1..][i], s));
      AllParamsCons(ts);
    }
  }

  lemma AllParamsCons(ts: seq<Ty>)
    requires ts != []
    ensures AllParams(ts) == TyParams(ts[0]) + AllParams(ts[1..])
  {
    hide TyParams;
    forall p | p in AllParams(ts) ensures p in TyParams(ts[0]) + AllParams(ts[1..]) {
      var i :| 0 <= i < |ts| && p in TyParams(ts[i]);
      if i > 0 { assert p in TyParams(ts[1..][i - 1]); }
    }
    forall p | p in AllParams(ts[1..]) ensures p in AllParams(ts) {
      var i :| 0 <= i < |ts[1..]| && p in TyParams(ts[1..][i]);
      assert p in TyParams(ts[i + 1]);
    }
  }

  /** Substitutions that agree on the parameters of a type give the same instance. */
  lemma {:induction false} SubstAgree(t: Ty, a: Subst, b: Subst)
    requires forall i | i in TyParams(t) :: i in a && i in b && a[i] == b[i]
    ensures SubstTy(t, a) == SubstTy(t, b)
  {
    match t
    case App(h, args) =>
      if Traversed(h) {
        forall i | 0 <= i < |args| ensures SubstTy(args[i], a) == SubstTy(args[i], b) {
          assert forall p | p in TyParams(args[i]) :: p in TyParams(t);
          SubstAgree(args[i], a, b);
        }
      }
    case _ =>
  }
}
