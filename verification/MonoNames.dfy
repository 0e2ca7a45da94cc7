/** Memo keys and names of generic instances. */
module MonoNames {
  import opened Hir
  import opened TypeInference
  import opened Text

  // ---------------------------------------------------------------------------
  // Keys
  // ---------------------------------------------------------------------------

  /** A template and its type arguments, sorted by parameter index. */
  datatype MonoKey = MonoKey(name: string, args: seq<(nat, Ty)>)

  lemma {:induction false} LeastBelow(s: Subst, k: nat)
    requires k in s
    ensures exists i :: i in s && forall j | j in s :: i <= j
  {
    if j :| j in s && j < k { LeastBelow(s, j); }
  }

  lemma HasLeast(s: Subst)
    requires s != map[]
    ensures exists i :: i in s && forall j | j in s :: i <= j
  {
    assert s.Keys != {};
    var k :| k in s;
    LeastBelow(s, k);
  }

  function SortedItems(s: Subst): (items: seq<(nat, Ty)>)
    decreases |s|
  {
    if s == map[] then [] else
      HasLeast(s);
      var k :| k in s && forall j | j in s :: k <= j;
      [(k, s[k])] + SortedItems(s - {k})
  }

  function Key(name: string, s: Subst): MonoKey {
    MonoKey(name, SortedItems(s))
  }

  function ToSubst(items: seq<(nat, Ty)>): Subst {
    if items == [] then map[] else ToSubst(items[1..])[items[0].0 := items[0].1]
  }

  /** A key keeps the whole substitution: two calls share an instance only if they agree on it. */
  lemma {:induction false} KeyKeepsSubst(s: Subst)
    ensures ToSubst(SortedItems(s)) == s
    decreases |s|
  {
    if s != map[] {
      HasLeast(s);
      var k := SortedItems(s)[0].0;
      KeyKeepsSubst(s - {k});
      assert SortedItems(s)[1..] == SortedItems(s - {k});
      assert s == (s - {k})[k := s[k]];
    }
  }

  // ---------------------------------------------------------------------------
  // Names
  // ---------------------------------------------------------------------------

  function DefName(def: nat): string { "<def DefId(" + Decimal(def) + ")>" }

  function HeadName(h: Head): string {
    match h
    case Optional => "optional" case List => "list" case Set => "set" case Range => "range"
    case Lazy => "lazy" case Future => "future" case TaskJob => "task.Job" case Channel => "channel.Channel"
    case Result => "result" case Map => "map" case Opaque(kind) => kind case Tuple => "tuple"
    case Func => "func" case Named(def) => DefName(def) case Buffer => "buffer" case Slice => "slice"
    case Array => "array" case Simd(_) => "simd" case Handle => "handle"
  }

  function DisplayAll(ts: seq<Ty>): seq<string> {
    seq(|ts|, i requires 0 <= i < |ts| => Display(ts[i]))
  }

  function Display(t: Ty): string {
    match t
    case Scalar(name) => name
    case Error => "<error>"
    case Infer(id) => "_#" + Decimal(id)
    case ConstInt(name, value) => name + ": " + Signed(value)
    case Any(def) => "any[DefId(" + Decimal(def) + ")]"
    case Param(_, name) => name
    case App(h, args) =>
      var shown := DisplayAll(args);
      if (h.Opaque? || h.Named?) && args == [] then HeadName(h)
      else if h.Func? && args != [] then
        "func(" + Join(shown[..|shown| - 1], ", ") + ") -> " + shown[|shown| - 1]
      else if h.Array? && |args| == 2 then
        "array[" + shown[0] + ", size: " + (if args[1].ConstInt? then Signed(args[1].value) else shown[1]) + "]"
      else if h.Simd? then HeadName(h) + "[" + Join(shown, ", ") + ", " + Decimal(h.lanes) + "]"
      else HeadName(h) + "[" + Join(shown, ", ") + "]"
  }

  predicate Alphanumeric(c: char) {
    'a' <= c <= 'z' || 'A' <= c <= 'Z' || '0' <= c <= '9'
  }

  function Cleaned(text: string): string {
    seq(|text|, i requires 0 <= i < |text| => if Alphanumeric(text[i]) then LowerChar(text[i]) else '_')
  }

  function TrimLeft(text: string): string {
    if text != [] && text[0] == '_' then TrimLeft(text[1..]) else text
  }

  function TrimRight(text: string): string {
    if text != [] && text[|text| - 1] == '_' then TrimRight(text[..|text| - 1]) else text
  }

  function SanitizeTypeKey(text: string): string {
    TrimRight(TrimLeft(Cleaned(text)))
  }

  function MonoSuffix(key: MonoKey): string {
    Join(seq(|key.args|, i requires 0 <= i < |key.args| =>
               "t" + Decimal(key.args[i].0) + "_" + SanitizeTypeKey(Display(key.args[i].1))), "_")
  }

  function InstanceName(key: MonoKey): string {
    key.name + ".__mono_" + MonoSuffix(key)
  }

  function InstanceNames(keys: set<MonoKey>): set<string> {
    set k | k in keys :: InstanceName(k)
  }

  ghost predicate DistinctNames(keys: set<MonoKey>) {
    forall a, b | a in keys && b in keys && InstanceName(a) == InstanceName(b) :: a == b
  }
}
