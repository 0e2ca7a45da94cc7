/**
  Which argument feeds which parameter of a call, and the type arguments inferred from that.
*/
module CallInference {
  import opened Wrappers
  import opened Hir
  import opened TypeInference

  type Tag = Option<string>

  /** Argument number per parameter, and the arguments left over, in order. */
  datatype Placement = Placement(slots: seq<Option<nat>>, extras: seq<nat>)

  /** One decision of the inference: parameter number, argument number. */
  type Match = (nat, nat)

  // ---------------------------------------------------------------------------
  // Placing arguments
  // ---------------------------------------------------------------------------

  /** First position of `name`, or the length. */
  function Position(names: seq<string>, name: string): (i: nat)
    ensures i <= |names| && (i < |names| ==> names[i] == name) && (forall k | 0 <= k < i :: names[k] != name)
  {
    if names == [] || names[0] == name then 0 else 1 + Position(names[1..], name)
  }

  /** First free slot from `next` on, or the number of slots. */
  function NextFree(slots: seq<Option<nat>>, next: nat): (i: nat)
    requires next <= |slots|
    ensures next <= i <= |slots| && (i < |slots| ==> slots[i].None?)
    ensures forall j | next <= j < i :: slots[j].Some?
    decreases |slots| - next
  {
    if next < |slots| && slots[next].Some? then NextFree(slots, next + 1) else next
  }

  /** The placement after argument `k`, and the next positional slot to try. */
  function PlaceOne(names: seq<string>, tag: Tag, k: nat, p: Placement, next: nat): (Placement, nat)
    requires |p.slots| == |names| && next <= |names|
  {
    if tag.Some? then
      var i := Position(names, tag.value);
      if i < |names| && p.slots[i].None? then (p.(slots := p.slots[i := Some(k)]), next)
      else (p.(extras := p.extras + [k]), next)
    else
      var i := NextFree(p.slots, next);
      if i < |names| then (p.(slots := p.slots[i := Some(k)]), i + 1)
      else (p.(extras := p.extras + [k]), i)
  }

  function PlaceFrom(names: seq<string>, tags: seq<Tag>, k: nat, p: Placement, next: nat): (r: Placement)
    requires |p.slots| == |names| && next <= |names| && k <= |tags|
    ensures |r.slots| == |names|
    decreases |tags| - k
  {
    if k == |tags| then p
    else
      var (q, n) := PlaceOne(names, tags[k], k, p, next);
      PlaceFrom(names, tags, k + 1, q, n)
  }

  function EmptySlots(n: nat): (s: seq<Option<nat>>) {
    seq(n, _ => None)
  }

  function Place(names: seq<string>, tags: seq<Tag>): (p: Placement)
    ensures |p.slots| == |names|
  {
    PlaceFrom(names, tags, 0, Placement(EmptySlots(|names|), []), 0)
  }

  /**
    The calling convention: `p` is the placement of the first `k` arguments. Each
    argument has one place. A tagged argument takes the parameter it names, unless an
    earlier one did. An untagged argument takes a parameter all of whose predecessors
    were taken earlier, and is left over only when every parameter is.
  */
  ghost predicate Placed(names: seq<string>, tags: seq<Tag>, k: nat, p: Placement)
    requires k <= |tags|
  {
    && |p.slots| == |names|
    && (forall i | 0 <= i < |names| && p.slots[i].Some? :: p.slots[i].value < k)
    && (forall i, j | 0 <= i < j < |names| && p.slots[i].Some? :: p.slots[i] != p.slots[j])
    && (forall i | 0 <= i < |p.extras| :: p.extras[i] < k)
    && (forall i, j | 0 <= i < j < |p.extras| :: p.extras[i] < p.extras[j])
    && (forall a | 0 <= a < k :: (a in p.extras) <==> Some(a) !in p.slots)
    && (forall i | 0 <= i < |names| && p.slots[i].Some? :: Justified(names, tags, p, i))
    && (forall a | 0 <= a < k && a in p.extras :: Overflow(names, tags, p, a))
  }

  ghost predicate Justified(names: seq<string>, tags: seq<Tag>, p: Placement, i: nat)
    requires i < |names| == |p.slots| && p.slots[i].Some? && p.slots[i].value < |tags|
  {
    var a := p.slots[i].value;
    if tags[a].Some? then names[i] == tags[a].value && tags[a].value !in names[..i]
    else forall j | 0 <= j < i :: p.slots[j].Some? && p.slots[j].value < a
  }

  ghost predicate Overflow(names: seq<string>, tags: seq<Tag>, p: Placement, a: nat)
    requires a < |tags| && |p.slots| == |names|
  {
    if tags[a].Some? then
      var i := Position(names, tags[a].value);
      i < |names| ==> p.slots[i].Some? && p.slots[i].value < a
    else forall j | 0 <= j < |names| :: p.slots[j].Some? && p.slots[j].value < a
  }

  /** Giving the free slot `i` to argument `k`. */
  lemma FillSlotKeeps(names: seq<string>, tags: seq<Tag>, k: nat, p: Placement, i: nat)
    requires k < |tags| && i < |names| && Placed(names, tags, k, p) && p.slots[i].None?
    requires Justified(names, tags, p.(slots := p.slots[i := Some(k)]), i)
    ensures Placed(names, tags, k + 1, p.(slots := p.slots[i := Some(k)]))
  {
    var q := p.(slots := p.slots[i := Some(k)]);
    assert q.slots[i] == Some(k);
    forall a | 0 <= a < k + 1 ensures (a in q.extras) <==> Some(a) !in q.slots {
      if a < k && Some(a) in p.slots {
        var j :| 0 <= j < |p.slots| && p.slots[j] == Some(a);
        assert q.slots[j] == Some(a);
      }
    }
    forall a | 0 <= a < k + 1 && a in q.extras ensures Overflow(names, tags, q, a) {
      assert Overflow(names, tags, p, a);
    }
    forall j | 0 <= j < |names| && q.slots[j].Some? ensures Justified(names, tags, q, j) {
      if j != i { assert Justified(names, tags, p, j); }
    }
  }

  /** Leaving argument `k` over. */
  lemma LeaveOverKeeps(names: seq<string>, tags: seq<Tag>, k: nat, p: Placement)
    requires k < |tags| && Placed(names, tags, k, p) && Overflow(names, tags, p, k)
    ensures Placed(names, tags, k + 1, p.(extras := p.extras + [k]))
  {
    var q := p.(extras := p.extras + [k]);
    assert q.extras[|p.extras|] == k;
    forall a | 0 <= a < k + 1 && a in q.extras ensures Overflow(names, tags, q, a) {
      assert Overflow(names, tags, p, a);
    }
    forall j | 0 <= j < |names| && q.slots[j].Some? ensures Justified(names, tags, q, j) {
      assert Justified(names, tags, p, j);
    }
  }

  lemma PlaceOneKeeps(names: seq<string>, tags: seq<Tag>, k: nat, p: Placement, next: nat)
    requires k < |tags| && next <= |names| && Placed(names, tags, k, p)
    requires forall j | 0 <= j < next :: p.slots[j].Some?
    ensures
      var (q, n) := PlaceOne(names, tags[k], k, p, next);
      && n <= |names|
      && Placed(names, tags, k + 1, q)
      && forall j | 0 <= j < n :: q.slots[j].Some?
  {
    var i := if tags[k].Some? then Position(names, tags[k].value) else NextFree(p.slots, next);
    if i < |names| && p.slots[i].None? {
      FillSlotKeeps(names, tags, k, p, i);
    } else {
      LeaveOverKeeps(names, tags, k, p);
    }
  }

  lemma {:induction false} PlaceFromMeets(names: seq<string>, tags: seq<Tag>, k: nat, p: Placement, next: nat)
    requires k <= |tags| && next <= |names| && Placed(names, tags, k, p)
    requires forall j | 0 <= j < next :: p.slots[j].Some?
    ensures Placed(names, tags, |tags|, PlaceFrom(names, tags, k, p, next))
    decreases |tags| - k
  {
    if k < |tags| {
      PlaceOneKeeps(names, tags, k, p, next);
      var (q, n) := PlaceOne(names, tags[k], k, p, next);
      PlaceFromMeets(names, tags, k + 1, q, n);
    }
  }

  /** The slot-filling loop implements the calling convention. */
  lemma PlaceMeets(names: seq<string>, tags: seq<Tag>)
    ensures Placed(names, tags, |tags|, Place(names, tags))
  {
    PlaceFromMeets(names, tags, 0, Placement(EmptySlots(|names|), []), 0);
  }

  /** The convention determines the placement, so argument order matters only as it says. */
  lemma {:induction false} PlacementUnique(names: seq<string>, tags: seq<Tag>, p: Placement, q: Placement)
    requires Placed(names, tags, |tags|, p) && Placed(names, tags, |tags|, q)
    ensures p.slots == q.slots
  {
    forall i | 0 <= i < |names| ensures p.slots[i] == q.slots[i] {
      if p.slots[i] != q.slots[i] {
        if p.slots[i].Some? { SlotAgrees(names, tags, p, q, p.slots[i].value, i); }
        if q.slots[i].Some? { SlotAgrees(names, tags, q, p, q.slots[i].value, i); }
      }
    }
  }

  lemma FirstUnique(names: seq<string>, name: string, i: nat, j: nat)
    requires i <= |names| && j < |names| && names[j] == name && name !in names[..i] && name !in names[..j]
    requires i < |names| ==> names[i] == name
    ensures i == j
  {
    assert forall k | 0 <= k < i :: names[..i][k] != name;
    assert forall k | 0 <= k < j :: names[..j][k] != name;
  }

  /** The argument `p` puts into slot `i` has no reason to be left over while that slot is free. */
  lemma NoOverflow(names: seq<string>, tags: seq<Tag>, p: Placement, q: Placement, a: nat, i: nat)
    requires i < |names| == |p.slots| == |q.slots| && a < |tags|
    requires p.slots[i] == Some(a) && Justified(names, tags, p, i)
    requires q.slots[i].Some? ==> a <= q.slots[i].value
    ensures !Overflow(names, tags, q, a)
  {
    if tags[a].Some? {
      FirstUnique(names, tags[a].value, Position(names, tags[a].value), i);
    }
  }

  /** Two placements that agree on earlier arguments give an argument the same slot. */
  lemma SameSlot(names: seq<string>, tags: seq<Tag>, p: Placement, q: Placement, a: nat, i: nat, j: nat)
    requires i < |names| && j < |names| == |p.slots| == |q.slots| && a < |tags|
    requires p.slots[i] == Some(a) && Justified(names, tags, p, i)
    requires q.slots[j] == Some(a) && Justified(names, tags, q, j)
    requires forall k | 0 <= k < |names| && p.slots[k].Some? && p.slots[k].value < a :: q.slots[k] == p.slots[k]
    requires q.slots[i].Some? ==> a <= q.slots[i].value
    ensures i == j
  {
    if tags[a].Some? {
      FirstUnique(names, tags[a].value, i, j);
    }
  }

  /** By induction on the argument: whatever `p` gives to slot `i`, `q` gives it too. */
  lemma {:induction false} SlotAgrees(names: seq<string>, tags: seq<Tag>, p: Placement, q: Placement, a: nat, i: nat)
    requires Placed(names, tags, |tags|, p) && Placed(names, tags, |tags|, q)
    requires i < |names| && p.slots[i] == Some(a)
    ensures q.slots[i] == Some(a)
    decreases a
  {
    forall j | 0 <= j < |names| && p.slots[j].Some? && p.slots[j].value < a ensures q.slots[j] == p.slots[j] {
      SlotAgrees(names, tags, p, q, p.slots[j].value, j);
    }
    if q.slots[i].Some? && q.slots[i].value < a {
      SlotAgrees(names, tags, q, p, q.slots[i].value, i);
    }
    assert Justified(names, tags, p, i);
    NoOverflow(names, tags, p, q, a, i);
    assert a !in q.extras;
    var j :| 0 <= j < |q.slots| && q.slots[j] == Some(a);
    assert Justified(names, tags, q, j);
    SameSlot(names, tags, p, q, a, i, j);
  }

  // ---------------------------------------------------------------------------
  // From placement to type arguments
  // ---------------------------------------------------------------------------

  function Names(params: seq<ParamDecl>): (ns: seq<string>)
    ensures |ns| == |params|
  {
    seq(|params|, i requires 0 <= i < |params| => params[i].name)
  }

  function Tags(args: seq<Arg>): (ts: seq<Tag>)
    ensures |ts| == |args|
  {
    seq(|args|, i requires 0 <= i < |args| => args[i].tag)
  }

  /** First variadic parameter, or the number of parameters. */
  function VariadicIndex(params: seq<ParamDecl>): (v: nat)
    ensures v <= |params| && (v < |params| ==> params[v].variadic)
  {
    if params == [] || params[0].variadic then 0 else 1 + VariadicIndex(params[1..])
  }

  /** Parameter `i` fed by the argument in its slot, for `i` from `from` up to `end`. */
  function SlotMatches(slots: seq<Option<nat>>, from: nat, end: nat): (ms: seq<Match>)
    requires from <= end <= |slots|
    decreases end - from
  {
    if from >= end then []
    else (if slots[from].Some? then [(from, slots[from].value)] else []) + SlotMatches(slots, from + 1, end)
  }

  /** Parameter `param` fed by each of the arguments. */
  function Each(param: nat, args: seq<nat>): (ms: seq<Match>) {
    seq(|args|, i requires 0 <= i < |args| => (param, args[i]))
  }

  function Upto(from: nat, end: nat): (s: seq<nat>) {
    if from >= end then [] else seq(end - from, i requires 0 <= i => from + i)
  }

  function Min(a: nat, b: nat): nat { if a <= b then a else b }

  function PositionalSlots(n: nat, args: nat): (s: seq<Option<nat>>) {
    seq(n, i requires 0 <= i => if i < args then Some(i) else None)
  }

  /** The branch taken when no argument is tagged: arguments from the variadic one on feed it. */
  function PositionalMatches(params: nat, v: nat, args: nat): seq<Match>
    requires v <= params
  {
    SlotMatches(PositionalSlots(params, args), 0, v) + (if v < params then Each(v, Upto(v, args)) else [])
  }

  /** The branch taken when some argument is tagged. */
  function PlacedMatches(p: Placement, v: nat): seq<Match>
    requires v <= |p.slots|
  {
    SlotMatches(p.slots, 0, v)
    + (if v < |p.slots| then SlotMatches(p.slots, v, v + 1) + Each(v, p.extras) else [])
  }

  function Matches(names: seq<string>, v: nat, tags: seq<Tag>): seq<Match>
    requires v <= |names|
  {
    if forall i | 0 <= i < |tags| :: tags[i].None? then PositionalMatches(|names|, v, |tags|)
    else PlacedMatches(Place(names, tags), v)
  }

  predicate InRange(ms: seq<Match>, params: nat, args: nat) {
    forall i | 0 <= i < |ms| :: ms[i].0 < params && ms[i].1 < args
  }

  lemma {:induction false} SlotMatchesInRange(slots: seq<Option<nat>>, from: nat, end: nat, args: nat)
    requires from <= end <= |slots| && forall i | 0 <= i < |slots| && slots[i].Some? :: slots[i].value < args
    ensures InRange(SlotMatches(slots, from, end), |slots|, args)
    decreases end - from
  {
    if from < end { SlotMatchesInRange(slots, from + 1, end, args); }
  }

  lemma MatchesInRange(names: seq<string>, v: nat, tags: seq<Tag>)
    requires v <= |names|
    ensures InRange(Matches(names, v, tags), |names|, |tags|)
  {
    if forall i | 0 <= i < |tags| :: tags[i].None? {
      SlotMatchesInRange(PositionalSlots(|names|, |tags|), 0, v, |tags|);
    } else {
      PlaceMeets(names, tags);
      PlacedInRange(Place(names, tags), v, |tags|);
    }
  }

  lemma PlacedInRange(p: Placement, v: nat, args: nat)
    requires v <= |p.slots|
    requires forall i | 0 <= i < |p.slots| && p.slots[i].Some? :: p.slots[i].value < args
    requires forall i | 0 <= i < |p.extras| :: p.extras[i] < args
    ensures InRange(PlacedMatches(p, v), |p.slots|, args)
  {
    SlotMatchesInRange(p.slots, 0, v, args);
    if v < |p.slots| { SlotMatchesInRange(p.slots, v, v + 1, args); }
  }

  /** The type an argument is matched against; an unspread variadic argument is one element. */
  function Expected(param: ParamDecl, variadic: bool, spread: bool): Ty {
    if variadic && !spread && param.ty.App? && param.ty.head.List? && |param.ty.args| == 1
    then param.ty.args[0] else param.ty
  }

  function ExpectedOf(params: seq<ParamDecl>, args: seq<Arg>, m: Match): Ty
    requires m.0 < |params| && m.1 < |args|
  {
    Expected(params[m.0], m.0 == VariadicIndex(params), args[m.1].spread)
  }

  function InferMatches(params: seq<ParamDecl>, args: seq<Arg>, ms: seq<Match>, s: Subst): Subst
    requires InRange(ms, |params|, |args|)
  {
    if ms == [] then s
    else InferMatches(params, args, ms[1..], InferTy(ExpectedOf(params, args, ms[0]), args[ms[0].1].value.ty, s))
  }

  function CallMatches(params: seq<ParamDecl>, args: seq<Arg>): (ms: seq<Match>)
    ensures InRange(ms, |params|, |args|)
  {
    MatchesInRange(Names(params), VariadicIndex(params), Tags(args));
    Matches(Names(params), VariadicIndex(params), Tags(args))
  }

  function InferCall(params: seq<ParamDecl>, args: seq<Arg>): Subst {
    InferMatches(params, args, CallMatches(params, args), map[])
  }

  /** The type parameters on which the arguments of a call have a say. */
  function MatchParams(params: seq<ParamDecl>, args: seq<Arg>, ms: seq<Match>): set<nat>
    requires InRange(ms, |params|, |args|)
  {
    set i, p | 0 <= i < |ms| && p in TyParams(ExpectedOf(params, args, ms[i])) :: p
  }

  ghost predicate Typed(params: seq<ParamDecl>, args: seq<Arg>, ms: seq<Match>, s: Subst)
    requires InRange(ms, |params|, |args|)
  {
    forall i | 0 <= i < |ms| :: args[ms[i].1].value.ty == SubstTy(ExpectedOf(params, args, ms[i]), s)
  }

  lemma MatchParamsCons(params: seq<ParamDecl>, args: seq<Arg>, ms: seq<Match>)
    requires InRange(ms, |params|, |args|) && ms != []
    ensures MatchParams(params, args, ms) == TyParams(ExpectedOf(params, args, ms[0])) + MatchParams(params, args, ms[1..])
  {
    hide ExpectedOf, TyParams;
    var first := TyParams(ExpectedOf(params, args, ms[0]));
    forall p | p in MatchParams(params, args, ms) ensures p in first + MatchParams(params, args, ms[1..]) {
      var i :| 0 <= i < |ms| && p in TyParams(ExpectedOf(params, args, ms[i]));
      if i > 0 { assert ms[1..][i - 1] == ms[i]; }
    }
    forall p | p in MatchParams(params, args, ms[1..]) ensures p in MatchParams(params, args, ms) {
      var i :| 0 <= i < |ms[1..]| && p in TyParams(ExpectedOf(params, args, ms[1..][i]));
      assert ms[1..][i] == ms[i + 1];
    }
  }

  lemma {:induction false} InferMatchesInverts(params: seq<ParamDecl>, args: seq<Arg>, ms: seq<Match>, s: Subst, before: Subst)
    requires InRange(ms, |params|, |args|) && Typed(params, args, ms, s)
    requires ConcreteSubst(s) && MatchParams(params, args, ms) <= s.Keys
    requires forall i | i in before :: i in s && before[i] == s[i]
    ensures Learned(before, InferMatches(params, args, ms, before), s, MatchParams(params, args, ms))
  {
    if ms != [] {
      var t := ExpectedOf(params, args, ms[0]);
      MatchParamsCons(params, args, ms);
      hide MatchParams, ExpectedOf, TyParams, SubstTy, InferTy;
      InferTyInverts(t, s, before);
      InferMatchesInverts(params, args, ms[1..], s, InferTy(t, args[ms[0].1].value.ty, before));
    }
  }

  /**
    Inference inverts substitution. When every argument has the type of its parameter
    under a concrete substitution, however the arguments are labelled or spread, the
    inferred substitution binds exactly the parameters that occur, binds them alike, and
    gives the argument types back.
  */
  lemma InferenceInverts(params: seq<ParamDecl>, args: seq<Arg>, s: Subst)
    requires ConcreteSubst(s) && MatchParams(params, args, CallMatches(params, args)) <= s.Keys
    requires Typed(params, args, CallMatches(params, args), s)
    ensures
      var r := InferCall(params, args);
      && r.Keys == MatchParams(params, args, CallMatches(params, args))
      && (forall i | i in r :: r[i] == s[i])
      && Typed(params, args, CallMatches(params, args), r)
  {
    var ms := CallMatches(params, args);
    InferMatchesInverts(params, args, ms, s, map[]);
    var r := InferCall(params, args);
    forall i | 0 <= i < |ms| ensures args[ms[i].1].value.ty == SubstTy(ExpectedOf(params, args, ms[i]), r) {
      assert forall p | p in TyParams(ExpectedOf(params, args, ms[i])) :: p in r;
      SubstAgree(ExpectedOf(params, args, ms[i]), s, r);
    }
  }

  // ---------------------------------------------------------------------------
  // The two branches agree
  // ---------------------------------------------------------------------------

  /** With no tag, argument `i` takes slot `i` and the surplus is left over. */
  lemma {:induction false} UntaggedPlacement(names: seq<string>, tags: seq<Tag>, k: nat, p: Placement)
    requires k <= |tags| && forall i | 0 <= i < |tags| :: tags[i].None?
    requires p == Placement(PositionalSlots(|names|, k), Upto(|names|, k))
    ensures PlaceFrom(names, tags, k, p, Min(k, |names|))
         == Placement(PositionalSlots(|names|, |tags|), Upto(|names|, |tags|))
    decreases |tags| - k
  {
    if k < |tags| {
      var (q, n) := PlaceOne(names, tags[k], k, p, Min(k, |names|));
      if k < |names| {
        assert NextFree(p.slots, k) == k;
        assert q.slots == PositionalSlots(|names|, k + 1);
      } else {
        assert q.extras == Upto(|names|, k + 1);
        assert q.slots == PositionalSlots(|names|, k + 1);
      }
      UntaggedPlacement(names, tags, k + 1, q);
    }
  }

  /** For a variadic parameter in last position, or none, tags could have been ignored: both branches match alike. */
  lemma BranchesAgree(names: seq<string>, v: nat, tags: seq<Tag>)
    requires v <= |names| && (v < |names| ==> v + 1 == |names|)
    requires forall i | 0 <= i < |tags| :: tags[i].None?
    ensures PositionalMatches(|names|, v, |tags|) == PlacedMatches(Place(names, tags), v)
  {
    var empty := Placement(EmptySlots(|names|), []);
    assert empty.slots == PositionalSlots(|names|, 0);
    UntaggedPlacement(names, tags, 0, empty);
    var p := Place(names, tags);
    if v < |names| {
      assert p.extras == Upto(v + 1, |tags|);
      assert SlotMatches(p.slots, v + 1, v + 1) == [];
      assert SlotMatches(p.slots, v, v + 1) == if v < |tags| then [(v, v)] else [];
      assert SlotMatches(p.slots, v, v + 1) + Each(v, p.extras) == Each(v, Upto(v, |tags|));
    }
  }

  // ---------------------------------------------------------------------------
  // The method
  // ---------------------------------------------------------------------------

  lemma {:induction false} InferMatchesAppend(params: seq<ParamDecl>, args: seq<Arg>, a: seq<Match>, b: seq<Match>, s: Subst)
    requires InRange(a, |params|, |args|) && InRange(b, |params|, |args|)
    ensures InferMatches(params, args, a + b, s) == InferMatches(params, args, b, InferMatches(params, args, a, s))
  {
    if a == [] {
      assert a + b == b;
    } else {
      assert (a + b)[1..] == a[1..] + b;
      InferMatchesAppend(params, args, a[1..], b, InferTy(ExpectedOf(params, args, a[0]), args[a[0].1].value.ty, s));
    }
  }

  /** The loop that fills the slots, in place of the recursion that defines it. */
  method FillSlots(names: seq<string>, args: seq<Arg>) returns (p: Placement)
    ensures p == Place(names, Tags(args))
  {
    var slots: seq<Option<nat>> := EmptySlots(|names|);
    var extras: seq<nat> := [];
    var next := 0;
    for k := 0 to |args|
      invariant |slots| == |names| && next <= |names|
      invariant PlaceFrom(names, Tags(args), k, Placement(slots, extras), next) == Place(names, Tags(args))
    {
      if args[k].tag.Some? {
        var index := Position(names, args[k].tag.value);
        if index < |names| && slots[index].None? {
          slots := slots[index := Some(k)];
        } else {
          extras := extras + [k];
        }
      } else {
        ghost var start := next;
        while next < |slots| && slots[next].Some?
          invariant next <= |slots| && NextFree(slots, next) == NextFree(slots, start)
        {
          next := next + 1;
        }
        if next < |slots| {
          slots := slots[next := Some(k)];
          next := next + 1;
        } else {
          extras := extras + [k];
        }
      }
    }
    p := Placement(slots, extras);
  }

  /** Matches the arguments named by `ms`, in order. */
  method InferAlong(params: seq<ParamDecl>, args: seq<Arg>, ms: seq<Match>, s: Subst) returns (r: Subst)
    requires InRange(ms, |params|, |args|)
    ensures r == InferMatches(params, args, ms, s)
  {
    r := s;
    for i := 0 to |ms|
      invariant InferMatches(params, args, ms[i..], r) == InferMatches(params, args, ms, s)
    {
      assert ms[i..][1..] == ms[i + 1..];
      r := InferSubstitution(ExpectedOf(params, args, ms[i]), args[ms[i].1].value.ty, r);
    }
  }

  method InferCallSubstitutions(params: seq<ParamDecl>, args: seq<Arg>) returns (s: Subst)
    ensures s == InferCall(params, args)
  {
    MatchesInRange(Names(params), VariadicIndex(params), Tags(args));
    var v := VariadicIndex(params);
    if forall a | a in args :: a.tag.None? {
      s := InferAlong(params, args, PositionalMatches(|params|, v, |args|), map[]);
    } else {
      var a :| a in args && a.tag.Some?;
      ghost var i :| 0 <= i < |args| && args[i] == a;
      assert Tags(args)[i].Some?;
      var p := FillSlots(Names(params), args);
      s := InferAlong(params, args, PlacedMatches(p, v), map[]);
    }
  }
}
