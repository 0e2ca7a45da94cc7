/**
  Handle lifetimes of the C embedding interface, one atomic operation per step.

  Releases run on any thread and lower two counters one after the other. Creation, release
  of a type and destruction of a context stay on the context's owner thread, one at a time.
*/
module EmbedHandles {
  import opened Wrappers

  type Id = nat

  datatype Kind = Function | Value | Type(core: Id) | Opaque(core: Id, payload: nat)

  /**
    An opaque value under creation is `Reserved` once its type counts it; under release its
    destructor runs while `Freeing`, and it is `Uncounted` once its type no longer counts it.
  */
  datatype Phase = Reserved | Live | Freeing | Uncounted | Gone

  datatype Handle = Handle(context: Id, kind: Kind, phase: Phase)

  /** What every value of one opaque type shares; counters are wide enough to go wrong. */
  datatype Core = Core(context: Id, typeId: nat, live: int)

  /** The call the owner thread is in the middle of. */
  datatype Pending = Idle | Creating(h: Id) | ReleasingType(h: Id) | Destroying

  datatype Context = Context(count: int, nextType: nat, alive: bool, pending: Pending, callbacks: map<string, bool>)

  datatype State = State(contexts: map<Id, Context>, cores: map<Id, Core>, handles: map<Id, Handle>)

  datatype Action =
    | CreateContext(c: Id)
    | ResolveFunction(c: Id, h: Id)
    | ReturnManaged(c: Id, h: Id)
    | RegisterType(c: Id, h: Id, core: Id)
    | BeginCreate(c: Id, of: Id, h: Id, payload: nat)
    | FinishCreate(c: Id)
    | ReleasePlain(h: Id)
    | BeginRelease(h: Id)
    | LowerLive(h: Id)
    | LowerCount(h: Id)
    | BeginTypeRelease(c: Id, h: Id)
    | FinishTypeRelease(c: Id)
    | RegisterCallback(c: Id, name: string)
    | SetCallbackActive(c: Id, name: string, active: bool)
    | BeginDestroy(c: Id)
    | RemoveCallback(c: Id, name: string)
    | FinishDestroy(c: Id)

  // ---------------------------------------------------------------------------
  // Steps
  // ---------------------------------------------------------------------------

  predicate Free(s: State, c: Id) { c in s.contexts && s.contexts[c].alive && s.contexts[c].pending == Idle }

  predicate InPhase(s: State, h: Id, phase: Phase) { h in s.handles && s.handles[h].phase == phase }

  function WithCount(s: State, c: Id, change: int): State
    requires c in s.contexts
  {
    s.(contexts := s.contexts[c := s.contexts[c].(count := s.contexts[c].count + change)])
  }

  function WithLive(s: State, core: Id, change: int): State
    requires core in s.cores
  {
    s.(cores := s.cores[core := s.cores[core].(live := s.cores[core].live + change)])
  }

  function WithPhase(s: State, h: Id, phase: Phase): State
    requires h in s.handles
  {
    s.(handles := s.handles[h := s.handles[h].(phase := phase)])
  }

  function WithPending(s: State, c: Id, pending: Pending): State
    requires c in s.contexts
  {
    s.(contexts := s.contexts[c := s.contexts[c].(pending := pending)])
  }

  function WithHandle(s: State, h: Id, handle: Handle): State { s.(handles := s.handles[h := handle]) }

  function WithCallbacks(s: State, c: Id, callbacks: map<string, bool>): State
    requires c in s.contexts
  {
    s.(contexts := s.contexts[c := s.contexts[c].(callbacks := callbacks)])
  }

  /** A counted handle comes into being: the context's counter is raised and the handle handed out. */
  function Hand(s: State, c: Id, h: Id, kind: Kind): Option<State> {
    if Free(s, c) && h !in s.handles then Some(WithHandle(WithCount(s, c, 1), h, Handle(c, kind, Live))) else None
  }

  function Register(s: State, c: Id, h: Id, core: Id): Option<State> {
    if !Free(s, c) || core in s.cores then None
    else
      var typeId := s.contexts[c].nextType;
      Hand(s.(contexts := s.contexts[c := s.contexts[c].(nextType := typeId + 1)],
              cores := s.cores[core := Core(c, typeId, 0)]), c, h, Type(core))
  }

  predicate IsType(s: State, h: Id, phase: Phase) {
    InPhase(s, h, phase) && s.handles[h].kind.Type? && s.handles[h].kind.core in s.cores
  }

  predicate IsOpaque(s: State, h: Id, phase: Phase) {
    InPhase(s, h, phase) && s.handles[h].kind.Opaque? && s.handles[h].kind.core in s.cores
  }

  /** The value's type counts it first. A type of another context is refused and nothing happens. */
  function Create(s: State, c: Id, of: Id, h: Id, payload: nat): Option<State> {
    if !Free(s, c) || h in s.handles || !IsType(s, of, Live) then None
    else
      var core := s.handles[of].kind.core;
      if s.cores[core].context != c then Some(s)
      else Some(WithPending(WithHandle(WithLive(s, core, 1), h, Handle(c, Opaque(core, payload), Reserved)), c, Creating(h)))
  }

  function FinishCreating(s: State, c: Id): Option<State> {
    if c in s.contexts && s.contexts[c].pending.Creating? && s.contexts[c].pending.h in s.handles then
      Some(WithPending(WithPhase(WithCount(s, c, 1), s.contexts[c].pending.h, Live), c, Idle))
    else None
  }

  /** A function or managed value goes with a single decrement. */
  function Drop(s: State, h: Id): Option<State> {
    if InPhase(s, h, Live) && (s.handles[h].kind.Function? || s.handles[h].kind.Value?) && s.handles[h].context in s.contexts then
      Some(WithPhase(WithCount(s, s.handles[h].context, -1), h, Gone))
    else None
  }

  /** An opaque value goes in three: its destructor, its type's counter, its context's counter. */
  function DropPayload(s: State, h: Id): Option<State> {
    if IsOpaque(s, h, Live) then Some(WithPhase(s, h, Freeing)) else None
  }

  function DropLive(s: State, h: Id): Option<State> {
    if IsOpaque(s, h, Freeing) then Some(WithPhase(WithLive(s, s.handles[h].kind.core, -1), h, Uncounted)) else None
  }

  function DropCount(s: State, h: Id): Option<State> {
    if InPhase(s, h, Uncounted) && s.handles[h].context in s.contexts then
      Some(WithPhase(WithCount(s, s.handles[h].context, -1), h, Gone))
    else None
  }

  /** A type with values is busy. */
  function ReleaseType(s: State, c: Id, h: Id): Option<State> {
    if !Free(s, c) || !IsType(s, h, Live) || s.handles[h].context != c then None
    else if s.cores[s.handles[h].kind.core].live != 0 then Some(s)
    else Some(WithPending(WithPhase(s, h, Freeing), c, ReleasingType(h)))
  }

  function FinishReleasing(s: State, c: Id): Option<State> {
    if c in s.contexts && s.contexts[c].pending.ReleasingType? && s.contexts[c].pending.h in s.handles then
      Some(WithPending(WithPhase(WithCount(s, c, -1), s.contexts[c].pending.h, Gone), c, Idle))
    else None
  }

  function AddContext(s: State, c: Id): Option<State> {
    if c in s.contexts then None else Some(s.(contexts := s.contexts[c := Context(0, 1, true, Idle, map[])]))
  }

  function SetCallback(s: State, c: Id, name: string, active: bool): Option<State> {
    if c !in s.contexts || !s.contexts[c].alive then None
    else Some(WithCallbacks(s, c, s.contexts[c].callbacks[name := active]))
  }

  /** A context with outstanding handles is busy. */
  function Destroy(s: State, c: Id): Option<State> {
    if !Free(s, c) then None
    else if s.contexts[c].count != 0 then Some(s)
    else Some(WithPending(s, c, Destroying))
  }

  /** Destruction removes callbacks one by one, and gives up at one that is running. */
  function Unregister(s: State, c: Id, name: string): Option<State> {
    if c !in s.contexts || s.contexts[c].pending != Destroying || name !in s.contexts[c].callbacks then None
    else if s.contexts[c].callbacks[name] then Some(WithPending(s, c, Idle))
    else Some(WithCallbacks(s, c, s.contexts[c].callbacks - {name}))
  }

  function FinishDestroying(s: State, c: Id): Option<State> {
    if c in s.contexts && s.contexts[c].pending == Destroying && s.contexts[c].callbacks == map[] then
      Some(s.(contexts := s.contexts[c := s.contexts[c].(alive := false, pending := Idle)]))
    else None
  }

  /** The next state, or `None` where callers must not take the step. */
  function Step(s: State, a: Action): Option<State> {
    match a
    case CreateContext(c) => AddContext(s, c)
    case ResolveFunction(c, h) => Hand(s, c, h, Function)
    case ReturnManaged(c, h) => Hand(s, c, h, Value)
    case RegisterType(c, h, core) => Register(s, c, h, core)
    case BeginCreate(c, of, h, payload) => Create(s, c, of, h, payload)
    case FinishCreate(c) => FinishCreating(s, c)
    case ReleasePlain(h) => Drop(s, h)
    case BeginRelease(h) => DropPayload(s, h)
    case LowerLive(h) => DropLive(s, h)
    case LowerCount(h) => DropCount(s, h)
    case BeginTypeRelease(c, h) => ReleaseType(s, c, h)
    case FinishTypeRelease(c) => FinishReleasing(s, c)
    case RegisterCallback(c, name) => if Free(s, c) then SetCallback(s, c, name, false) else None
    case SetCallbackActive(c, name, active) => if c in s.contexts && name in s.contexts[c].callbacks then SetCallback(s, c, name, active) else None
    case BeginDestroy(c) => Destroy(s, c)
    case RemoveCallback(c, name) => Unregister(s, c, name)
    case FinishDestroy(c) => FinishDestroying(s, c)
  }

  /** The payload of a value, for a caller that names its exact type. */
  function Payload(s: State, c: Id, h: Id, expected: Id): Option<nat>
    requires h in s.handles && s.handles[h].kind.Opaque? && s.handles[h].kind.core in s.cores
    requires expected in s.handles && s.handles[expected].kind.Type? && s.handles[expected].kind.core in s.cores
  {
    var core, want := s.cores[s.handles[h].kind.core], s.cores[s.handles[expected].kind.core];
    if core.context != c || want.context != c || core.typeId != want.typeId then None
    else Some(s.handles[h].kind.payload)
  }

  // ---------------------------------------------------------------------------
  // What the counters stand for
  // ---------------------------------------------------------------------------

  /** A context's counter counts the live handles and those in the middle of a release. */
  predicate Counts(s: State, h: Id, c: Id) {
    h in s.handles && s.handles[h].context == c && !s.handles[h].phase.Reserved? && !s.handles[h].phase.Gone?
  }

  /** A type's counter counts its values from before they are live until their destructor ran. */
  predicate Lives(s: State, h: Id, core: Id) {
    h in s.handles && s.handles[h].kind.Opaque? && s.handles[h].kind.core == core && !s.handles[h].phase.Uncounted? && !s.handles[h].phase.Gone?
  }

  function Counted(s: State, c: Id): set<Id> { set h | h in s.handles && Counts(s, h, c) }

  function Living(s: State, core: Id): set<Id> { set h | h in s.handles && Lives(s, h, core) }

  ghost predicate CountersOk(s: State) {
    && (forall c | c in s.contexts :: s.contexts[c].count == |Counted(s, c)|)
    && (forall core | core in s.cores :: s.cores[core].live == |Living(s, core)|)
  }

  predicate ContextOk(s: State, c: Id)
    requires c in s.contexts
  {
    var x := s.contexts[c];
    && (x.pending.Creating? ==> InPhase(s, x.pending.h, Reserved) && s.handles[x.pending.h].context == c)
    && (x.pending.ReleasingType? ==> InPhase(s, x.pending.h, Freeing) && s.handles[x.pending.h].context == c && s.handles[x.pending.h].kind.Type?)
    && (x.pending.Destroying? ==> x.alive && x.count == 0)
    && (!x.alive ==> x.count == 0 && x.pending.Idle?)
  }

  predicate HandleOk(s: State, h: Id)
    requires h in s.handles
  {
    var x := s.handles[h];
    && x.context in s.contexts
    && (x.kind.Type? || x.kind.Opaque? ==> x.kind.core in s.cores && s.cores[x.kind.core].context == x.context)
    && (x.phase.Reserved? ==> x.kind.Opaque? && s.contexts[x.context].pending == Creating(h))
    && (x.phase.Freeing? ==> x.kind.Opaque? || (x.kind.Type? && s.contexts[x.context].pending == ReleasingType(h)))
    && (x.phase.Uncounted? ==> x.kind.Opaque?)
    && (x.kind.Type? && !x.phase.Live? ==> s.cores[x.kind.core].live == 0)
  }

  predicate TypeOk(s: State, core: Id)
    requires core in s.cores
  {
    s.cores[core].context in s.contexts && s.cores[core].typeId < s.contexts[s.cores[core].context].nextType
  }

  /** A type identifier names one type of its context, and a type has one handle. */
  predicate SameType(s: State, a: Id, b: Id)
    requires a in s.cores && b in s.cores
  {
    s.cores[a].context == s.cores[b].context && s.cores[a].typeId == s.cores[b].typeId ==> a == b
  }

  predicate SameHandle(s: State, h: Id, k: Id)
    requires h in s.handles && k in s.handles
  {
    s.handles[h].kind.Type? && s.handles[h].kind == s.handles[k].kind ==> h == k
  }

  predicate CallsOk(s: State) {
    && (forall c | c in s.contexts :: ContextOk(s, c))
    && (forall h | h in s.handles :: HandleOk(s, h))
  }

  predicate TypesOk(s: State) {
    && (forall core | core in s.cores :: TypeOk(s, core))
    && (forall a, b | a in s.cores && b in s.cores :: SameType(s, a, b))
    && (forall h, k | h in s.handles && k in s.handles :: SameHandle(s, h, k))
  }

  ghost predicate Inv(s: State) { CountersOk(s) && CallsOk(s) && TypesOk(s) }

  // ---------------------------------------------------------------------------
  // Every step keeps the invariant
  // ---------------------------------------------------------------------------

  /** The states differ, among handles, only in `h`. */
  predicate OnlyHandle(s: State, t: State, h: Id) {
    && h in t.handles && t.handles.Keys == s.handles.Keys + {h}
    && forall k | k in s.handles && k != h :: t.handles[k] == s.handles[k]
  }

  function One(b: bool): int { if b then 1 else 0 }

  lemma SizesDiffer(a: set<Id>, b: set<Id>, h: Id)
    requires forall k | k != h :: k in a <==> k in b
    ensures |b| == |a| + One(h in b) - One(h in a)
  {
    var rest := a - {h};
    assert a == rest + if h in a then {h} else {};
    assert b == rest + if h in b then {h} else {};
  }

  lemma CountedAfter(s: State, t: State, h: Id, c: Id)
    requires OnlyHandle(s, t, h)
    ensures |Counted(t, c)| == |Counted(s, c)| + One(Counts(t, h, c)) - One(Counts(s, h, c))
  {
    SizesDiffer(Counted(s, c), Counted(t, c), h);
  }

  lemma LivingAfter(s: State, t: State, h: Id, core: Id)
    requires OnlyHandle(s, t, h)
    ensures |Living(t, core)| == |Living(s, core)| + One(Lives(t, h, core)) - One(Lives(s, h, core))
    ensures !Lives(t, h, core) && Living(s, core) == {} ==> Living(t, core) == {}
  {
    SizesDiffer(Living(s, core), Living(t, core), h);
    assert forall k | k in Living(t, core) && k != h :: k in Living(s, core);
  }

  /** How one handle's change must be matched by the counters and by the owner thread's call. */
  ghost predicate Matches(s: State, t: State, h: Id) {
    && OnlyHandle(s, t, h)
    && t.contexts.Keys == s.contexts.Keys && s.cores.Keys <= t.cores.Keys
    && (forall c | c in s.contexts :: t.contexts[c].count == s.contexts[c].count + One(Counts(t, h, c)) - One(Counts(s, h, c)))
    && (forall core | core in s.cores :: t.cores[core] == s.cores[core].(live := s.cores[core].live + One(Lives(t, h, core)) - One(Lives(s, h, core))))
  }

  lemma MatchedCounters(s: State, t: State, h: Id)
    requires CountersOk(s) && Matches(s, t, h)
    ensures forall c | c in t.contexts :: t.contexts[c].count == |Counted(t, c)|
    ensures forall core | core in s.cores :: t.cores[core].live == |Living(t, core)|
  {
    hide Counts, Lives, Counted, Living, OnlyHandle;
    forall c | c in t.contexts ensures t.contexts[c].count == |Counted(t, c)| {
      CountedAfter(s, t, h, c);
    }
    forall core | core in s.cores ensures t.cores[core].live == |Living(t, core)| {
      LivingAfter(s, t, h, core);
    }
  }

  /** Types, their identifiers and their handles are as before. */
  predicate SameTypes(s: State, t: State) {
    && t.cores.Keys == s.cores.Keys
    && (forall core | core in s.cores :: t.cores[core].context == s.cores[core].context && t.cores[core].typeId == s.cores[core].typeId)
    && (forall c | c in s.contexts :: c in t.contexts && t.contexts[c].nextType >= s.contexts[c].nextType)
    && (forall h | h in t.handles && t.handles[h].kind.Type? :: h in s.handles && s.handles[h].kind == t.handles[h].kind)
  }

  lemma TypesKept(s: State, t: State)
    requires TypesOk(s) && SameTypes(s, t)
    ensures TypesOk(t)
  {
    forall a, b | a in t.cores && b in t.cores ensures SameType(t, a, b) { assert SameType(s, a, b); }
    forall h, k | h in t.handles && k in t.handles ensures SameHandle(t, h, k) {
      if t.handles[h].kind.Type? && t.handles[h].kind == t.handles[k].kind { assert SameHandle(s, h, k); }
    }
    forall core | core in t.cores ensures TypeOk(t, core) { assert TypeOk(s, core); }
  }

  // Actions on a handle change the handle, its context and, for a value, its type.

  predicate Local(s: State, t: State, h: Id, c: Id) {
    && h in t.handles && c in s.contexts && c in t.contexts && t.handles[h].context == c
    && t.handles == s.handles[h := t.handles[h]] && t.contexts == s.contexts[c := t.contexts[c]]
    && (h in s.handles ==> s.handles[h].context == c && s.handles[h].kind == t.handles[h].kind)
    && t.contexts[c].count == s.contexts[c].count + One(Counts(t, h, c)) - One(Counts(s, h, c))
    && t.contexts[c].nextType >= s.contexts[c].nextType
    && LocalTypes(s, t, h)
  }

  predicate LocalTypes(s: State, t: State, h: Id)
    requires h in t.handles
  {
    match t.handles[h].kind
    case Opaque(core, _) =>
      core in s.cores && t.cores == s.cores[core := s.cores[core].(live := s.cores[core].live + One(Lives(t, h, core)) - One(Lives(s, h, core)))]
    case Type(core) =>
      if h in s.handles then t.cores == s.cores else core !in s.cores && core in t.cores && t.cores == s.cores[core := t.cores[core]]
    case _ => t.cores == s.cores
  }

  /** The owner thread's call is none of this context's other handles' business. */
  predicate About(p: Pending, h: Id) { p.Idle? || p == Creating(h) || p == ReleasingType(h) }

  ghost predicate LocalOk(s: State, t: State, h: Id, c: Id) {
    && Local(s, t, h, c) && HandleOk(t, h) && ContextOk(t, c)
    && (t.contexts[c].pending == s.contexts[c].pending || (About(s.contexts[c].pending, h) && About(t.contexts[c].pending, h)))
    && (t.handles[h].kind.Opaque? ==>
          forall k | k in s.handles && s.handles[k].kind == Type(t.handles[h].kind.core) && s.handles[k].phase != Live :: t.cores[t.handles[h].kind.core].live == 0)
  }

  lemma LocalMatches(s: State, t: State, h: Id, c: Id)
    requires Local(s, t, h, c)
    ensures Matches(s, t, h) && (h in s.handles || !t.handles[h].kind.Type? ==> SameTypes(s, t))
  {
  }

  lemma LocalCalls(s: State, t: State, h: Id, c: Id)
    requires CallsOk(s) && LocalOk(s, t, h, c)
    ensures CallsOk(t)
  {
    hide Counts, Lives;
    forall k | k in t.handles ensures HandleOk(t, k) { assert k in s.handles ==> HandleOk(s, k); }
    forall b | b in t.contexts ensures ContextOk(t, b) { assert ContextOk(s, b); }
  }

  lemma Positive(s: State, h: Id)
    requires CountersOk(s) && h in s.handles
    ensures forall c | c in s.contexts && Counts(s, h, c) :: s.contexts[c].count > 0
    ensures forall core | core in s.cores && Lives(s, h, core) :: s.cores[core].live > 0
  {
    forall c | c in s.contexts && Counts(s, h, c) ensures s.contexts[c].count > 0 {
      assert h in Counted(s, c);
    }
    forall core | core in s.cores && Lives(s, h, core) ensures s.cores[core].live > 0 {
      assert h in Living(s, core);
    }
  }

  predicate OnContext(a: Action) {
    a.CreateContext? || a.RegisterCallback? || a.SetCallbackActive? || a.BeginDestroy? || a.RemoveCallback? || a.FinishDestroy?
  }

  /** The handle an action is about, and its context. */
  function Subject(s: State, a: Action): (Id, Id) {
    match a
    case ResolveFunction(c, h) => (h, c)
    case ReturnManaged(c, h) => (h, c)
    case RegisterType(c, h, _) => (h, c)
    case BeginCreate(c, _, h, _) => (h, c)
    case FinishCreate(c) => (OfCall(s, c), c)
    case ReleasePlain(h) => (h, ContextOf(s, h))
    case BeginRelease(h) => (h, ContextOf(s, h))
    case LowerLive(h) => (h, ContextOf(s, h))
    case LowerCount(h) => (h, ContextOf(s, h))
    case BeginTypeRelease(c, h) => (h, c)
    case FinishTypeRelease(c) => (OfCall(s, c), c)
    case _ => (0, 0)
  }

  function ContextOf(s: State, h: Id): Id { if h in s.handles then s.handles[h].context else 0 }

  function OfCall(s: State, c: Id): Id {
    if c !in s.contexts then 0
    else match s.contexts[c].pending
      case Creating(h) => h
      case ReleasingType(h) => h
      case _ => 0
  }

  lemma HandIsLocal(s: State, a: Action, t: State)
    requires Inv(s) && Step(s, a) == Some(t) && t != s && (a.ResolveFunction? || a.ReturnManaged? || a.RegisterType?)
    ensures LocalOk(s, t, Subject(s, a).0, Subject(s, a).1)
  {
    hide CountersOk, TypesOk, Counted, Living;
    var (h, c) := Subject(s, a);
    assert ContextOk(s, c);
  }

  lemma CreateIsLocal(s: State, a: Action, t: State)
    requires Inv(s) && Step(s, a) == Some(t) && t != s && (a.BeginCreate?)
    ensures LocalOk(s, t, Subject(s, a).0, Subject(s, a).1)
  {
    hide CountersOk, TypesOk, Counted, Living;
    var (h, c) := Subject(s, a);
    assert ContextOk(s, c);
    OneTypeHandle(s, a.of);
    assert HandleOk(s, a.of);
  }

  lemma CreateEndIsLocal(s: State, a: Action, t: State)
    requires Inv(s) && Step(s, a) == Some(t) && t != s && a.FinishCreate?
    ensures LocalOk(s, t, Subject(s, a).0, Subject(s, a).1)
  {
    hide CountersOk, TypesOk, Counted, Living;
    var (h, c) := Subject(s, a);
    assert ContextOk(s, c);
    assert HandleOk(s, h);
    Positive(s, h);
  }

  lemma TypeEndIsLocal(s: State, a: Action, t: State)
    requires Inv(s) && Step(s, a) == Some(t) && t != s && a.FinishTypeRelease?
    ensures LocalOk(s, t, Subject(s, a).0, Subject(s, a).1)
  {
    hide CountersOk, TypesOk, Counted, Living;
    var (h, c) := Subject(s, a);
    assert ContextOk(s, c);
    assert HandleOk(s, h);
    Positive(s, h);
  }

  lemma OpaqueIsLocal(s: State, a: Action, t: State)
    requires Inv(s) && Step(s, a) == Some(t) && t != s && (a.BeginRelease? || a.LowerLive?)
    ensures LocalOk(s, t, Subject(s, a).0, Subject(s, a).1)
  {
    hide CountersOk, TypesOk, Counted, Living;
    var (h, c) := Subject(s, a);
    assert ContextOk(s, c);
    assert HandleOk(s, h);
    Positive(s, h);
  }

  lemma DropIsLocal(s: State, a: Action, t: State)
    requires Inv(s) && Step(s, a) == Some(t) && t != s && (a.ReleasePlain? || a.LowerCount?)
    ensures LocalOk(s, t, Subject(s, a).0, Subject(s, a).1)
  {
    hide CountersOk, TypesOk, Counted, Living;
    var (h, c) := Subject(s, a);
    assert ContextOk(s, c);
    assert HandleOk(s, h);
    Positive(s, h);
  }

  lemma TypeReleaseIsLocal(s: State, a: Action, t: State)
    requires Inv(s) && Step(s, a) == Some(t) && t != s && (a.BeginTypeRelease?)
    ensures LocalOk(s, t, Subject(s, a).0, Subject(s, a).1)
  {
    hide CountersOk, TypesOk, Counted, Living;
    var (h, c) := Subject(s, a);
    assert ContextOk(s, c);
    assert HandleOk(s, h);
    Positive(s, h);
  }

  /** No other handle is of the same type. */
  lemma OneTypeHandle(s: State, h: Id)
    requires TypesOk(s) && h in s.handles && s.handles[h].kind.Type?
    ensures forall k | k in s.handles && s.handles[k].kind == s.handles[h].kind :: k == h
  {
    forall k | k in s.handles && s.handles[k].kind == s.handles[h].kind ensures k == h { assert SameHandle(s, h, k); }
  }

  /** A new type gets a fresh identifier, and has no values yet. */
  lemma RegisterTypes(s: State, a: Action, t: State)
    requires CallsOk(s) && TypesOk(s) && a.RegisterType? && Step(s, a) == Some(t)
    ensures TypesOk(t) && Living(t, a.core) == {} && t.cores.Keys == s.cores.Keys + {a.core} && t.cores[a.core].live == 0
  {
    hide Counted;
    var h, core := a.h, a.core;
    forall x, y | x in t.cores && y in t.cores ensures SameType(t, x, y) {
      if x in s.cores && y in s.cores { assert SameType(s, x, y); }
      if x in s.cores { assert TypeOk(s, x); }
      if y in s.cores { assert TypeOk(s, y); }
    }
    forall k, l | k in t.handles && l in t.handles ensures SameHandle(t, k, l) {
      if k != h && l != h { assert SameHandle(s, k, l); }
      if k != h { assert HandleOk(s, k); }
      if l != h { assert HandleOk(s, l); }
    }
    forall k | k in s.handles ensures !Lives(t, k, core) { assert HandleOk(s, k); }
  }

  lemma NoNewType(s: State, a: Action, t: State)
    requires Step(s, a) == Some(t) && t != s && !OnContext(a) && !a.RegisterType?
    ensures var h := Subject(s, a).0; h in s.handles || (h in t.handles && !t.handles[h].kind.Type?)
  {
  }

  /** Steps on callbacks and contexts leave handles and their counters alone. */
  predicate SameHandles(s: State, t: State) {
    && t.handles == s.handles && t.cores == s.cores && s.contexts.Keys <= t.contexts.Keys
    && (forall c | c in s.contexts :: t.contexts[c].count == s.contexts[c].count && t.contexts[c].nextType == s.contexts[c].nextType)
    && (forall c | c in t.contexts && c !in s.contexts :: t.contexts[c].count == 0)
  }

  lemma SameHandlesKeep(s: State, t: State)
    requires Inv(s) && SameHandles(s, t)
    ensures CountersOk(t) && TypesOk(t)
  {
    forall h | h in s.handles ensures s.handles[h].context in s.contexts { assert HandleOk(s, h); }
    forall c | c in t.contexts ensures t.contexts[c].count == |Counted(t, c)| {
      assert Counted(t, c) == Counted(s, c);
      assert c !in s.contexts ==> Counted(s, c) == {};
    }
    forall core | core in t.cores ensures t.cores[core].live == |Living(t, core)| {
      assert Living(t, core) == Living(s, core);
    }
    TypesKept(s, t);
  }

  /** One context changed, and neither began nor ended a call about a handle. */
  predicate ContextChange(s: State, c: Id, t: State) {
    && c in t.contexts && t == s.(contexts := s.contexts[c := t.contexts[c]])
    && var y := t.contexts[c];
       && (if c in s.contexts then
             var x := s.contexts[c];
             y.count == x.count && y.nextType == x.nextType && (y.pending == x.pending || (Aside(x.pending) && Aside(y.pending)))
           else y.count == 0 && y.pending == Idle)
       && (y.pending.Destroying? ==> y.alive && y.count == 0)
       && (!y.alive ==> y.count == 0 && y.pending.Idle?)
  }

  predicate Aside(p: Pending) { p.Idle? || p.Destroying? }

  lemma ContextChangeKeeps(s: State, c: Id, t: State)
    requires CallsOk(s) && ContextChange(s, c, t)
    ensures SameHandles(s, t) && CallsOk(t)
  {
    forall h | h in t.handles ensures HandleOk(t, h) { assert HandleOk(s, h); }
    forall b | b in t.contexts ensures ContextOk(t, b) { if b in s.contexts { assert ContextOk(s, b); } }
  }

  lemma ContextStepKeeps(s: State, a: Action, t: State)
    requires Inv(s) && Step(s, a) == Some(t)
    requires OnContext(a)
    ensures SameHandles(s, t) && CallsOk(t)
  {
    hide CountersOk, TypesOk, HandleOk, SameHandles;
    var c := a.c;
    if c in s.contexts { assert ContextOk(s, c); }
    ContextChangeKeeps(s, c, t);
  }

  lemma HandleStepKeeps(s: State, a: Action, t: State)
    requires Inv(s) && Step(s, a) == Some(t) && t != s && !OnContext(a)
    ensures Inv(t)
  {
    hide CallsOk, TypesOk, Matches, Local, Step, Counted, Living, HandleOk, ContextOk;
    var (h, c) := Subject(s, a);
    match a {
      case ResolveFunction(_, _) => HandIsLocal(s, a, t);
      case ReturnManaged(_, _) => HandIsLocal(s, a, t);
      case RegisterType(_, _, _) => HandIsLocal(s, a, t);
      case BeginCreate(_, _, _, _) => CreateIsLocal(s, a, t);
      case FinishCreate(_) => CreateEndIsLocal(s, a, t);
      case BeginTypeRelease(_, _) => TypeReleaseIsLocal(s, a, t);
      case FinishTypeRelease(_) => TypeEndIsLocal(s, a, t);
      case BeginRelease(_) => OpaqueIsLocal(s, a, t);
      case LowerLive(_) => OpaqueIsLocal(s, a, t);
      case _ => DropIsLocal(s, a, t);
    }
    LocalMatches(s, t, h, c);
    LocalCalls(s, t, h, c);
    MatchedCounters(s, t, h);
    if a.RegisterType? {
      RegisterTypes(s, a, t);
    } else {
      NoNewType(s, a, t);
      TypesKept(s, t);
    }
  }

  /** Every atomic step keeps the accounts. */
  lemma StepKeeps(s: State, a: Action, t: State)
    requires Inv(s) && Step(s, a) == Some(t)
    ensures Inv(t)
  {
    hide CallsOk, TypesOk, CountersOk, SameHandles, Step;
    if t != s {
      if OnContext(a) { ContextStepKeeps(s, a, t); SameHandlesKeep(s, t); } else { HandleStepKeeps(s, a, t); }
    }
  }

  // ---------------------------------------------------------------------------
  // Every run
  // ---------------------------------------------------------------------------

  const EMPTY := State(map[], map[], map[])

  function Run(s: State, actions: seq<Action>): Option<State>
    decreases |actions|
  {
    if actions == [] then Some(s)
    else match Step(s, actions[0])
      case None => None
      case Some(t) => Run(t, actions[1..])
  }

  ghost predicate Reachable(s: State) { exists actions :: Run(EMPTY, actions) == Some(s) }

  lemma {:induction false} RunKeeps(s: State, actions: seq<Action>, t: State)
    requires Inv(s) && Run(s, actions) == Some(t)
    ensures Inv(t)
    decreases |actions|
  {
    hide Step, Inv;
    if actions != [] {
      StepKeeps(s, actions[0], Step(s, actions[0]).value);
      RunKeeps(Step(s, actions[0]).value, actions[1..], t);
    }
  }

  lemma ReachableIsAccounted(s: State)
    requires Reachable(s)
    ensures Inv(s)
  {
    hide Run;
    var actions :| Run(EMPTY, actions) == Some(s);
    RunKeeps(EMPTY, actions, s);
  }

  /**
    In every reachable state a context's counter is the number of its live and half-released
    handles, and a type's that of its values; so no decrement ever took one below zero.
  */
  lemma HandleAccounting(s: State)
    requires Reachable(s)
    ensures forall c | c in s.contexts :: s.contexts[c].count == |Counted(s, c)| >= 0
    ensures forall core | core in s.cores :: s.cores[core].live == |Living(s, core)| >= 0
  {
    ReachableIsAccounted(s);
  }

  /** Destruction gets under way exactly when no handle is live or half released. */
  lemma DestroyNeedsNoHandles(s: State, c: Id)
    requires Reachable(s) && Free(s, c)
    ensures Destroy(s, c) == Some(WithPending(s, c, Destroying)) <==> Counted(s, c) == {}
    ensures Destroy(s, c) == Some(s) <==> Counted(s, c) != {}
  {
    HandleAccounting(s);
    assert WithPending(s, c, Destroying).contexts[c].pending != s.contexts[c].pending;
  }

  /** Of a destroyed context no handle is left that anyone could still use or release. */
  lemma DestroyedHasNoHandles(s: State, c: Id, h: Id)
    requires Reachable(s) && c in s.contexts && !s.contexts[c].alive
    requires h in s.handles && s.handles[h].context == c
    ensures s.handles[h].phase == Gone
  {
    ReachableIsAccounted(s);
    assert ContextOk(s, c) && HandleOk(s, h);
    assert h in s.handles && !Counts(s, h, c) by { Positive(s, h); }
  }

  /** A type is let go exactly when it has no values, and never gets one afterwards. */
  lemma TypeReleaseNeedsNoValues(s: State, c: Id, h: Id)
    requires Reachable(s) && Free(s, c) && IsType(s, h, Live) && s.handles[h].context == c
    ensures ReleaseType(s, c, h) == Some(s) <==> Living(s, s.handles[h].kind.core) != {}
  {
    HandleAccounting(s);
    assert WithPending(s, c, ReleasingType(h)).contexts[c].pending != s.contexts[c].pending;
  }

  lemma ReleasedTypeHasNoValues(s: State, h: Id)
    requires Reachable(s) && h in s.handles && s.handles[h].kind.Type? && s.handles[h].phase != Live
    ensures Living(s, s.handles[h].kind.core) == {}
  {
    ReachableIsAccounted(s);
    assert HandleOk(s, h);
  }

  // ---------------------------------------------------------------------------
  // Payloads
  // ---------------------------------------------------------------------------

  /** What a handle is, a value's type and payload included, never changes. */
  predicate SameKinds(s: State, t: State) {
    forall h | h in s.handles :: h in t.handles && t.handles[h].kind == s.handles[h].kind && t.handles[h].context == s.handles[h].context
  }

  lemma StepKeepsKinds(s: State, a: Action, t: State)
    requires Step(s, a) == Some(t)
    ensures SameKinds(s, t)
  {
  }

  lemma {:induction false} RunKeepsKinds(s: State, actions: seq<Action>, t: State)
    requires Run(s, actions) == Some(t)
    ensures SameKinds(s, t)
    decreases |actions|
  {
    hide Step;
    if actions != [] {
      StepKeepsKinds(s, actions[0], Step(s, actions[0]).value);
      RunKeepsKinds(Step(s, actions[0]).value, actions[1..], t);
    }
  }

  /** A payload is handed out exactly to a caller naming its context and the very type of the value. */
  lemma PayloadNeedsExactType(s: State, c: Id, h: Id, expected: Id)
    requires Reachable(s)
    requires h in s.handles && s.handles[h].kind.Opaque? && s.handles[h].kind.core in s.cores
    requires expected in s.handles && s.handles[expected].kind.Type? && s.handles[expected].kind.core in s.cores
    ensures Payload(s, c, h, expected).Some? <==> s.handles[h].context == c && s.handles[h].kind.core == s.handles[expected].kind.core
  {
    ReachableIsAccounted(s);
    assert HandleOk(s, h) && HandleOk(s, expected);
    assert SameType(s, s.handles[h].kind.core, s.handles[expected].kind.core);
  }

  /**
    From creation to the end of any run, a value yields the payload it was created with to
    the type it was created from.
  */
  lemma PayloadIsKept(s: State, c: Id, of: Id, h: Id, payload: nat, t: State, actions: seq<Action>, u: State)
    requires Reachable(s) && Create(s, c, of, h, payload) == Some(t) && t != s && Run(t, actions) == Some(u)
    ensures h in u.handles && u.handles[h].kind.Opaque? && of in u.handles && u.handles[of].kind.Type?
    ensures u.handles[h].kind.core == u.handles[of].kind.core && u.handles[h].context == c && u.handles[h].kind.payload == payload
  {
    StepKeepsKinds(s, BeginCreate(c, of, h, payload), t);
    RunKeepsKinds(t, actions, u);
  }

  // ---------------------------------------------------------------------------
  // A destruction that gives up
  // ---------------------------------------------------------------------------

  /** The calls of one attempt at destruction that works on these callbacks, in this order. */
  function Removals(c: Id, names: seq<string>): seq<Action> {
    seq(|names|, i requires 0 <= i < |names| => RemoveCallback(c, names[i]))
  }

  function Attempt(c: Id, names: seq<string>): seq<Action> { [BeginDestroy(c)] + Removals(c, names) }

  predicate Idles(s: State, c: Id, name: string) { c in s.contexts && name in s.contexts[c].callbacks && !s.contexts[c].callbacks[name] }

  predicate Runs(s: State, c: Id, name: string) { c in s.contexts && name in s.contexts[c].callbacks && s.contexts[c].callbacks[name] }

  /** The attempt ends with the context alive and available. */
  predicate Refused(s: State, c: Id, names: seq<string>, t: State) { Run(s, Attempt(c, names)) == Some(t) && Free(t, c) }

  function Without(s: State, c: Id, names: seq<string>): State
    requires c in s.contexts
  {
    WithCallbacks(s, c, s.contexts[c].callbacks - (set n | n in names))
  }

  /** Each callback of `names` but the last is idle and comes up once; the last one runs. */
  predicate EndsAtRunning(s: State, c: Id, names: seq<string>) {
    names != [] && IdleOnce(s, c, names[..|names| - 1]) && Runs(s, c, names[|names| - 1])
  }

  predicate IdleOnce(s: State, c: Id, names: seq<string>) {
    (forall i | 0 <= i < |names| :: Idles(s, c, names[i])) && (forall i, j | 0 <= i < j < |names| :: names[i] != names[j])
  }

  lemma RemovalsCons(s: State, c: Id, names: seq<string>)
    requires names != []
    ensures Run(s, Removals(c, names)) == match Unregister(s, c, names[0]) case None => None case Some(t) => Run(t, Removals(c, names[1..]))
  {
    assert Removals(c, names)[1..] == Removals(c, names[1..]);
  }

  lemma WithoutCons(s: State, c: Id, names: seq<string>)
    requires names != [] && c in s.contexts
    ensures Without(Without(s, c, names[..1]), c, names[1..]) == Without(s, c, names)
  {
    var one, all := Without(s, c, names[..1]), Without(s, c, names);
    assert all.contexts[c].callbacks == Without(one, c, names[1..]).contexts[c].callbacks;
  }

  lemma IdleOnceCons(s: State, c: Id, names: seq<string>)
    requires names != [] && Idles(s, c, names[0])
    ensures IdleOnce(s, c, names) <==> IdleOnce(Without(s, c, names[..1]), c, names[1..])
  {
    var t := Without(s, c, names[..1]);
    if IdleOnce(t, c, names[1..]) {
      forall i | 0 < i < |names| ensures Idles(s, c, names[i]) && names[i] != names[0] { assert Idles(t, c, names[1..][i - 1]); }
      forall i, j | 0 <= i < j < |names| ensures names[i] != names[j] {
        if i > 0 { assert names[1..][i - 1] != names[1..][j - 1]; }
      }
    }
  }

  /** What a sequence of removals comes to: all idle and gone, or an end at the first that runs. */
  lemma {:induction false} RemovalsEnd(s: State, c: Id, names: seq<string>)
    requires c in s.contexts && s.contexts[c].pending == Destroying
    ensures IdleOnce(s, c, names) ==> Run(s, Removals(c, names)) == Some(Without(s, c, names))
    ensures EndsAtRunning(s, c, names) ==> Run(s, Removals(c, names)) == Some(WithPending(Without(s, c, names[..|names| - 1]), c, Idle))
    ensures Run(s, Removals(c, names)).Some? ==> IdleOnce(s, c, names) || EndsAtRunning(s, c, names)
    decreases |names|
  {
    hide Run, Without, IdleOnce;
    if names == [] {
      RemovalsNone(s, c);
    } else {
      RemovalsCons(s, c, names);
      var first, rest := names[0], names[1..];
      if Idles(s, c, first) {
        var t := Without(s, c, names[..1]);
        RemoveIdle(s, c, names);
        IdleOnceCons(s, c, names);
        WithoutCons(s, c, names);
        RemovalsEnd(t, c, rest);
        if rest != [] {
          var early := names[..|names| - 1];
          assert early[..1] == names[..1] && early[1..] == rest[..|rest| - 1] && rest[|rest| - 1] == names[|names| - 1];
          IdleOnceCons(s, c, early);
          WithoutCons(s, c, early);
          LastRuns(s, c, names);
        }
      } else {
        FirstNotIdle(s, c, names);
        if Runs(s, c, first) { RemovalsAfter(s, c, names); }
      }
    }
  }

  lemma RemovalsNone(s: State, c: Id)
    requires c in s.contexts
    ensures Run(s, Removals(c, [])) == Some(s) && Without(s, c, []) == s && IdleOnce(s, c, [])
  {
    assert Without(s, c, []).contexts[c].callbacks == s.contexts[c].callbacks;
    assert Without(s, c, []).contexts == s.contexts;
  }

  lemma RemoveIdle(s: State, c: Id, names: seq<string>)
    requires names != [] && Idles(s, c, names[0]) && s.contexts[c].pending == Destroying
    ensures Unregister(s, c, names[0]) == Some(Without(s, c, names[..1]))
    ensures c in Without(s, c, names[..1]).contexts && Without(s, c, names[..1]).contexts[c].pending == Destroying
  {
    assert (set n | n in names[..1]) == {names[0]};
  }

  lemma LastRuns(s: State, c: Id, names: seq<string>)
    requires |names| > 1 && Idles(s, c, names[0])
    ensures Runs(s, c, names[|names| - 1]) <==> Runs(Without(s, c, names[..1]), c, names[|names| - 1])
  {
  }

  lemma FirstNotIdle(s: State, c: Id, names: seq<string>)
    requires names != [] && !Idles(s, c, names[0])
    ensures !IdleOnce(s, c, names) && (EndsAtRunning(s, c, names) ==> |names| == 1) && IdleOnce(s, c, [])
  {
    if |names| > 1 { assert names[..|names| - 1][0] == names[0]; }
  }

  /** A running callback ends the attempt, and only if nothing was to follow is it a run. */
  lemma RemovalsAfter(s: State, c: Id, names: seq<string>)
    requires names != [] && Runs(s, c, names[0]) && s.contexts[c].pending == Destroying
    ensures Run(s, Removals(c, names)).Some? <==> |names| == 1
    ensures |names| == 1 ==> Run(s, Removals(c, names)) == Some(WithPending(Without(s, c, names[..|names| - 1]), c, Idle))
  {
    RemovalsCons(s, c, names);
    var t := WithPending(s, c, Idle);
    assert Unregister(s, c, names[0]) == Some(t);
    if |names| == 1 {
      RemovalsNone(t, c);
      RemovalsNone(s, c);
      assert names[1..] == [] && names[..0] == [];
    } else {
      RemovalsCons(t, c, names[1..]);
    }
  }

  /**
    An attempt on a context without outstanding handles is refused exactly when it comes to a
    running callback, and by then every idle one it came to first is gone.
  */
  lemma RefusalRemoves(s: State, c: Id, names: seq<string>, t: State)
    requires Free(s, c) && s.contexts[c].count == 0
    ensures Refused(s, c, names, t) <==> EndsAtRunning(s, c, names) && t == Without(s, c, names[..|names| - 1])
  {
    hide Removals, IdleOnce, Without;
    var begun := WithPending(s, c, Destroying);
    assert Attempt(c, names)[1..] == Removals(c, names);
    assert Run(s, Attempt(c, names)) == Run(begun, Removals(c, names));
    RemovalsEnd(begun, c, names);
    if names != [] { SamePending(s, c, names[..|names| - 1]); }
    SamePending(s, c, names);
    BeganAlike(s, c, names);
  }

  lemma SamePending(s: State, c: Id, names: seq<string>)
    requires Free(s, c)
    ensures WithPending(Without(WithPending(s, c, Destroying), c, names), c, Idle) == Without(s, c, names)
    ensures Free(Without(s, c, names), c) && !Free(Without(WithPending(s, c, Destroying), c, names), c)
  {
    assert WithPending(Without(WithPending(s, c, Destroying), c, names), c, Idle).contexts == Without(s, c, names).contexts;
  }

  lemma BeganAlike(s: State, c: Id, names: seq<string>)
    requires Free(s, c)
    ensures EndsAtRunning(s, c, names) <==> EndsAtRunning(WithPending(s, c, Destroying), c, names)
  {
    var t := WithPending(s, c, Destroying);
    assert forall n :: Idles(s, c, n) <==> Idles(t, c, n);
  }

  /**
    Being refused should be without effect. Some refusal takes callbacks from the live context
    if and only if one callback is idle and one is running: with none running no attempt is
    refused, with all running every refusal leaves the state as it was.
  */
  lemma BusyDestroyLosesCallbacks(s: State, c: Id)
    requires Free(s, c) && s.contexts[c].count == 0
    ensures (exists names, t :: Refused(s, c, names, t) && t != s) <==> (exists n :: Idles(s, c, n)) && (exists n :: Runs(s, c, n))
    ensures (exists names, t :: Refused(s, c, names, t)) <==> exists n :: Runs(s, c, n)
  {
    hide Refused, Without;
    forall names, t | Refused(s, c, names, t) ensures (exists n :: Runs(s, c, n)) && (t != s ==> exists n :: Idles(s, c, n)) {
      RefusalRemoves(s, c, names, t);
      assert Runs(s, c, names[|names| - 1]);
      if |names| == 1 { assert names[..0] == []; RemovalsNone(s, c); } else { assert Idles(s, c, names[..|names| - 1][0]); }
    }
    if running :| Runs(s, c, running) {
      assert [running][..0] == [];
      RefusalRemoves(s, c, [running], Without(s, c, []));
      assert Refused(s, c, [running], Without(s, c, []));
      if idle :| Idles(s, c, idle) {
        RefusalRemoves(s, c, [idle, running], Without(s, c, [idle]));
        assert [idle, running][..1] == [idle];
        OneGone(s, c, idle);
        assert Refused(s, c, [idle, running], Without(s, c, [idle]));
      }
    }
  }

  lemma OneGone(s: State, c: Id, name: string)
    requires Idles(s, c, name)
    ensures name !in Without(s, c, [name]).contexts[c].callbacks && Without(s, c, [name]) != s
  {
  }

  lemma {:induction false} RunOneMore(s: State, actions: seq<Action>, t: State, a: Action)
    requires Run(s, actions) == Some(t)
    ensures Run(s, actions + [a]) == Step(t, a)
    decreases |actions|
  {
    hide Step;
    if actions == [] {
      assert [a][1..] == [];
      assert Step(s, a).Some? ==> Run(Step(s, a).value, []) == Step(s, a);
    } else {
      RunOneMore(Step(s, actions[0]).value, actions[1..], t, a);
      assert (actions + [a])[1..] == actions[1..] + [a];
    }
  }

  lemma ReachableStep(s: State, a: Action, t: State)
    requires Reachable(s) && Step(s, a) == Some(t)
    ensures Reachable(t)
  {
    hide Step, Run;
    var actions :| Run(EMPTY, actions) == Some(s);
    RunOneMore(EMPTY, actions, s, a);
  }

  /** Callers get there: a new context with two callbacks, one of them running. */
  lemma BusyDestroyHappens()
    ensures exists s :: Reachable(s) && Free(s, 0) && s.contexts[0].count == 0 && Idles(s, 0, "a") && Runs(s, 0, "b")
  {
    hide Reachable;
    var one := Step(EMPTY, CreateContext(0)).value;
    var two := Step(one, RegisterCallback(0, "a")).value;
    var three := Step(two, RegisterCallback(0, "b")).value;
    assert Reachable(EMPTY) by { ReachableFromStart(); }
    ReachableStep(EMPTY, CreateContext(0), one);
    ReachableStep(one, RegisterCallback(0, "a"), two);
    ReachableStep(two, RegisterCallback(0, "b"), three);
    ReachableStep(three, SetCallbackActive(0, "b", true), Step(three, SetCallbackActive(0, "b", true)).value);
  }

  lemma ReachableFromStart()
    ensures Reachable(EMPTY)
  {
    assert Run(EMPTY, []) == Some(EMPTY);
  }
}
