/**
  Validation of manifests against a lock, and when a freshly resolved lock validates.
*/
module LockValidation {
  import opened Wrappers
  import opened Resolve
  import opened ResolvedEntries
  import opened Text
  import opened Sorting
  import L = Lockfile

  datatype Verdict = RootOutOfDate | Ambiguous(name: string) | Absent(name: string) | NoLongerMatches(name: string)

  function NormalizeGitUrl(url: string): string {
    if "github.com/" <= url then "https://" + url else url
  }

  predicate Meets(r: Requirement, e: L.Dependency) {
    match r
    case Version(version) => e.source == L.Source.Registry && e.version == version
    case Path(path, expected) =>
      e.source == L.Source.Path && e.path == Some(L.Slashes(path)) && (expected.Some? ==> expected.value == e.version)
    case Git(url, _, _, _, expected) =>
      && e.source == L.Source.Git && e.url.Some? && NormalizeGitUrl(e.url.value) == NormalizeGitUrl(url)
      && (expected.Some? ==> expected.value == e.version) && e.revision.Some? && e.revision.value != ""
  }

  /** First entry of that name, or the length. */
  function FindName(entries: seq<L.Dependency>, name: string): (i: nat)
    ensures i <= |entries| && (forall j | 0 <= j < i :: entries[j].name != name) && (i < |entries| ==> entries[i].name == name)
  {
    if entries == [] || entries[0].name == name then 0 else 1 + FindName(entries[1..], name)
  }

  function CheckOne(d: Wanted, entries: seq<L.Dependency>): Result<(), Verdict> {
    var i := FindName(entries, d.name);
    if i == |entries| then Err(Absent(d.name))
    else if Meets(d.requirement, entries[i]) then Ok(())
    else Err(NoLongerMatches(d.name))
  }

  predicate Covers(deps: seq<Wanted>, entries: seq<L.Dependency>) {
    forall i | 0 <= i < |deps| :: CheckOne(deps[i], entries).Ok?
  }

  predicate DistinctNames(entries: seq<L.Dependency>) {
    forall i, j | 0 <= i < j < |entries| :: entries[i].name != entries[j].name
  }

  method ValidateManifestDependencies(deps: seq<Wanted>, entries: seq<L.Dependency>) returns (r: Result<(), Verdict>)
    ensures r.Ok? <==> Covers(deps, entries)
    ensures r.Err? ==> exists i | 0 <= i < |deps| :: Covers(deps[..i], entries) && CheckOne(deps[i], entries) == r
  {
    for i := 0 to |deps|
      invariant Covers(deps[..i], entries)
    {
      var locked := FindName(entries, deps[i].name);
      if locked == |entries| { return Err(Absent(deps[i].name)); }
      if !Meets(deps[i].requirement, entries[locked]) { return Err(NoLongerMatches(deps[i].name)); }
    }
    assert deps[..|deps|] == deps;
    return Ok(());
  }

  method ValidateLockedManifest(m: Manifest, lock: L.Lock) returns (r: Result<(), Verdict>)
    ensures r.Ok? <==>
      m.name == lock.rootName && m.version == lock.rootVersion && DistinctNames(lock.dependencies) && Covers(m.dependencies, lock.dependencies)
    ensures r == Err(RootOutOfDate) <==> m.name != lock.rootName || m.version != lock.rootVersion
    ensures r.Err? && r.error.Ambiguous? ==> exists i, j | 0 <= i < j < |lock.dependencies| ::
      lock.dependencies[i].name == lock.dependencies[j].name == r.error.name
  {
    if m.name != lock.rootName || m.version != lock.rootVersion { return Err(RootOutOfDate); }
    var unique: set<string> := {};
    for i := 0 to |lock.dependencies|
      invariant forall name :: name in unique <==> exists j | 0 <= j < i :: lock.dependencies[j].name == name
      invariant DistinctNames(lock.dependencies[..i])
    {
      var name := lock.dependencies[i].name;
      if name in unique { return Err(Ambiguous(name)); }
      unique := unique + {name};
    }
    assert lock.dependencies[..|lock.dependencies|] == lock.dependencies;
    r := ValidateManifestDependencies(m.dependencies, lock.dependencies);
  }

  // ---------------------------------------------------------------------------
  // What a validated lock promises
  // ---------------------------------------------------------------------------

  /** The requirement names this version; those on paths and Git sources may name none. */
  predicate Asks(r: Requirement, version: string) {
    match r
    case Version(v) => v == version
    case Path(_, expected) => expected == Some(version)
    case Git(_, _, _, _, expected) => expected == Some(version)
  }

  /** The same address, `github.com` standing for `https://github.com`. */
  predicate SameRepository(a: string, b: string) {
    a == b || ("github.com/" <= a && b == "https://" + a) || ("github.com/" <= b && a == "https://" + b)
  }

  ghost predicate Satisfies(r: Requirement, e: L.Dependency) {
    && (r.Version? <==> e.source == L.Source.Registry) && (r.Path? <==> e.source == L.Source.Path)
    && (forall version :: Asks(r, version) ==> e.version == version)
    && (r.Path? ==> e.path.Some? && Slashed(r.path, e.path.value))
    && (r.Git? ==> e.url.Some? && SameRepository(e.url.value, r.url) && e.revision.Some? && |e.revision.value| > 0)
  }

  lemma SameRepositoryNormalizes(a: string, b: string)
    ensures SameRepository(a, b) <==> NormalizeGitUrl(a) == NormalizeGitUrl(b)
  {
    var p := "https://";
    assert (p + a)[|p|..] == a && (p + b)[|p|..] == b;
    assert (p + a)[0] == 'h' && (p + b)[0] == 'h';
  }

  lemma {:induction false} MeetsIsSatisfies(r: Requirement, e: L.Dependency)
    ensures Meets(r, e) <==> Satisfies(r, e)
  {
    hide NormalizeGitUrl, SameRepository, Slashed;
    match r
    case Version(v) => assert Asks(r, v);
    case Path(path, expected) =>
      if expected.Some? { assert Asks(r, expected.value); }
      if e.path.Some? { SlashedIs(path, e.path.value); }
    case Git(url, _, _, _, expected) =>
      if expected.Some? { assert Asks(r, expected.value); }
      if e.url.Some? { SameRepositoryNormalizes(e.url.value, url); }
  }

  /** The first entry of that name. */
  predicate FirstNamed(entries: seq<L.Dependency>, name: string, j: nat) {
    j < |entries| && entries[j].name == name && forall k | 0 <= k < j :: entries[k].name != name
  }

  ghost predicate Satisfied(d: Wanted, entries: seq<L.Dependency>) {
    exists j: nat :: FirstNamed(entries, d.name, j) && Satisfies(d.requirement, entries[j])
  }

  /** The dependencies are covered exactly when the first entry of each one's name satisfies it. */
  lemma {:induction false} CoversExactly(deps: seq<Wanted>, entries: seq<L.Dependency>)
    ensures Covers(deps, entries) <==> forall i | 0 <= i < |deps| :: Satisfied(deps[i], entries)
  {
    hide CheckOne, Satisfied;
    forall i | 0 <= i < |deps| ensures CheckOne(deps[i], entries).Ok? <==> Satisfied(deps[i], entries) {
      CheckedIsSatisfied(deps[i], entries);
    }
  }

  /** The verdict on one dependency: absent when no entry bears its name, else whether the first one satisfies it. */
  lemma {:induction false} VerdictIsRight(d: Wanted, entries: seq<L.Dependency>)
    ensures CheckOne(d, entries) == Err(Absent(d.name)) <==> forall j | 0 <= j < |entries| :: entries[j].name != d.name
    ensures CheckOne(d, entries) == Err(NoLongerMatches(d.name))
      <==> exists j: nat :: FirstNamed(entries, d.name, j) && !Satisfies(d.requirement, entries[j])
  {
    hide Meets, Satisfies;
    var k := FindName(entries, d.name);
    forall j: nat ensures FirstNamed(entries, d.name, j) <==> j == k < |entries| {}
    if k < |entries| { MeetsIsSatisfies(d.requirement, entries[k]); }
  }

  lemma {:induction false} CheckedIsSatisfied(d: Wanted, entries: seq<L.Dependency>)
    ensures CheckOne(d, entries).Ok? <==> Satisfied(d, entries)
  {
    hide Meets, Satisfies;
    var k := FindName(entries, d.name);
    forall j: nat ensures FirstNamed(entries, d.name, j) <==> j == k < |entries| {}
    if k < |entries| { MeetsIsSatisfies(d.requirement, entries[k]); }
  }

  // ---------------------------------------------------------------------------
  // When a resolved lock validates
  // ---------------------------------------------------------------------------

  /** The cache hands out the package it was asked for, Git ones under an exact revision. */
  ghost predicate Honest(w: World) {
    && (forall root | root in w.packages :: '@' !in w.packages[root].name)
    && (forall name, version :: HonestRegistry(w, name, version))
    && (forall name, r: Requirement :: HonestGit(w, name, r))
  }

  predicate HonestRegistry(w: World, name: string, version: string) {
    var f := w.registry(name, version);
    f.Some? && f.value.root in w.packages ==>
      w.packages[f.value.root].name == name && w.packages[f.value.root].version == version
  }

  predicate HonestGit(w: World, name: string, r: Requirement) {
    var f := w.git(name, r);
    f.Some? && r.Git? && f.value.root in w.packages ==>
      && w.packages[f.value.root].name == name
      && (r.expected.Some? ==> w.packages[f.value.root].version == r.expected.value)
      && Revision(f.value.source, None).Some? && Revision(f.value.source, None) != Some("")
  }

  /** The same requirement, up to path separators and the `github.com` shorthand. */
  predicate Alike(a: Requirement, b: Requirement) {
    match (a, b)
    case (Version(v), Version(u)) => v == u
    case (Path(p, _), Path(q, _)) => L.Slashes(p) == L.Slashes(q)
    case (Git(u, _, _, _, _), Git(v, _, _, _, _)) => NormalizeGitUrl(u) == NormalizeGitUrl(v)
    case _ => false
  }

  function Entry(w: World, x: Edge): L.Dependency
    requires ResolveOne(w, x.owner, x.dep).Ok?
  {
    ResolveOne(w, x.owner, x.dep).value.entry
  }

  predicate Agree(w: World, x: Edge, y: Edge) {
    x.dep.name == y.dep.name ==>
      && Alike(x.dep.requirement, y.dep.requirement)
      && ResolveOne(w, x.owner, x.dep).Ok? && ResolveOne(w, y.owner, y.dep).Ok?
      && Entry(w, x).version == Entry(w, y).version
  }

  /** Each name has one requirement and resolves to one version. */
  predicate OneRequirementPerName(w: World, edges: set<Edge>) {
    forall x, y | x in edges && y in edges :: Agree(w, x, y)
  }

  /** The root's manifest validates, and so does that of every package it reaches. */
  predicate ValidEverywhere(w: World, edges: set<Edge>, m: Manifest, lock: L.Lock) {
    && m.name == lock.rootName && m.version == lock.rootVersion && DistinctNames(lock.dependencies)
    && Covers(m.dependencies, lock.dependencies)
    && forall x | x in edges :: var r := ResolveOne(w, x.owner, x.dep);
         r.Ok? ==> Covers(w.packages[r.value.root].dependencies, lock.dependencies)
  }

  lemma EntryMeets(w: World, x: Edge)
    requires Honest(w) && ResolveOne(w, x.owner, x.dep).Ok?
    ensures Entry(w, x).name == x.dep.name && '@' !in x.dep.name && Meets(x.dep.requirement, Entry(w, x))
  {
    match x.dep.requirement
    case Version(version) => assert HonestRegistry(w, x.dep.name, version);
    case Git(_, _, _, _, _) => assert HonestGit(w, x.dep.name, x.dep.requirement);
    case Path(_, _) =>
  }

  lemma KeyInjective(a: L.Dependency, b: L.Dependency)
    requires Key(a) == Key(b) && '@' !in a.name && '@' !in b.name
    ensures a.name == b.name && a.version == b.version
  {
    FindHere(a.name, '@', a.version);
    FindHere(b.name, '@', b.version);
    var n := |a.name|;
    assert n == |b.name|;
    assert Key(a)[..n] == a.name && Key(b)[..n] == b.name;
    assert Key(a)[n + 1..] == a.version && Key(b)[n + 1..] == b.version;
  }

  /** An entry that meets one requirement meets any other like it at the same version. */
  lemma MeetsAlike(w: World, x: Edge, y: Edge)
    requires Honest(w) && ResolveOne(w, x.owner, x.dep).Ok? && ResolveOne(w, y.owner, y.dep).Ok?
    requires Alike(x.dep.requirement, y.dep.requirement) && Entry(w, x).version == Entry(w, y).version
    ensures Meets(x.dep.requirement, Entry(w, y))
  {
    EntryMeets(w, x);
    EntryMeets(w, y);
  }

  lemma MeetingOneIsAlike(a: Requirement, b: Requirement, e: L.Dependency)
    requires Meets(a, e) && Meets(b, e)
    ensures Alike(a, b)
  {
  }

  /** The entry of the lock that bears a reachable edge's name has its version too. */
  lemma LockedVersion(w: World, edges: set<Edge>, entries: seq<L.Dependency>, x: Edge)
    requires Honest(w) && DistinctNames(entries) && ResolveOne(w, x.owner, x.dep).Ok? && HasKey(entries, Key(Entry(w, x)))
    requires forall i | 0 <= i < |entries| :: Locks(w, edges, entries[i])
    ensures
      var i := FindName(entries, x.dep.name);
      i < |entries| && entries[i].version == Entry(w, x).version
  {
    EntryMeets(w, x);
    var i :| 0 <= i < |entries| && Key(entries[i]) == Key(Entry(w, x));
    assert Locks(w, edges, entries[i]);
    var y :| y in edges && Gives(w, y, entries[i]);
    EntryMeets(w, y);
    KeyInjective(entries[i], Entry(w, x));
  }

  lemma EdgesAreCovered(w: World, root: Root, m: Manifest, lock: L.Lock, x: Edge)
    requires ValidEverywhere(w, Reach(w, root, m.dependencies), m, lock) && x in Reach(w, root, m.dependencies)
    ensures CheckOne(x.dep, lock.dependencies).Ok?
  {
    var edges := Reach(w, root, m.dependencies);
    ReachCloses(w, root, m.dependencies);
    var good := set y | y in edges && CheckOne(y.dep, lock.dependencies).Ok?;
    forall y | y in good ensures var r := ResolveOne(w, y.owner, y.dep); r.Ok? ==> Holds(w, r.value.root, good) {
      var r := ResolveOne(w, y.owner, y.dep);
      if r.Ok? { assert Holds(w, r.value.root, edges); }
    }
    assert Starts(root, m.dependencies, good) && Follows(w, good);
    assert Reachable(w, root, m.dependencies, x);
  }

  lemma ValidImpliesAgree(w: World, root: Root, m: Manifest, lock: L.Lock, x: Edge, y: Edge)
    requires Honest(w) && ResolveLock(w, root, m) == Ok(lock) && Covered(w, Reach(w, root, m.dependencies), lock.dependencies)
    requires x in Reach(w, root, m.dependencies) && y in Reach(w, root, m.dependencies)
    requires ValidEverywhere(w, Reach(w, root, m.dependencies), m, lock)
    ensures Agree(w, x, y)
  {
    hide Honest, ResolveLock, Meets, Alike, ResolveOne;
    LockIsReach(w, root, m);
    EdgesAreCovered(w, root, m, lock, x);
    EdgesAreCovered(w, root, m, lock, y);
    var entries := lock.dependencies;
    LockedVersion(w, Reach(w, root, m.dependencies), entries, x);
    LockedVersion(w, Reach(w, root, m.dependencies), entries, y);
    if x.dep.name == y.dep.name {
      MeetingOneIsAlike(x.dep.requirement, y.dep.requirement, entries[FindName(entries, x.dep.name)]);
    }
  }

  lemma AgreeImpliesChecked(w: World, root: Root, m: Manifest, lock: L.Lock, x: Edge)
    requires Honest(w) && ResolveLock(w, root, m) == Ok(lock) && Covered(w, Reach(w, root, m.dependencies), lock.dependencies)
    requires OneRequirementPerName(w, Reach(w, root, m.dependencies)) && DistinctNames(lock.dependencies)
    requires x in Reach(w, root, m.dependencies)
    ensures CheckOne(x.dep, lock.dependencies).Ok?
  {
    hide Honest, ResolveLock, Meets, Alike, ResolveOne;
    LockIsReach(w, root, m);
    var entries, edges := lock.dependencies, Reach(w, root, m.dependencies);
    LockedVersion(w, edges, entries, x);
    var i := FindName(entries, x.dep.name);
    assert Locks(w, edges, entries[i]);
    var y :| y in edges && Gives(w, y, entries[i]);
    EntryMeets(w, y);
    assert Agree(w, x, y);
    MeetsAlike(w, x, y);
  }

  lemma AgreeImpliesDistinct(w: World, root: Root, m: Manifest, lock: L.Lock)
    requires Honest(w) && ResolveLock(w, root, m) == Ok(lock)
    requires OneRequirementPerName(w, Reach(w, root, m.dependencies))
    ensures DistinctNames(lock.dependencies)
  {
    hide Honest, ResolveLock, Meets, Alike, ResolveOne;
    LockIsReach(w, root, m);
    var entries, edges := lock.dependencies, Reach(w, root, m.dependencies);
    forall i, j | 0 <= i < j < |entries| ensures entries[i].name != entries[j].name {
      assert Locks(w, edges, entries[i]) && Locks(w, edges, entries[j]);
      var x :| x in edges && Gives(w, x, entries[i]);
      var y :| y in edges && Gives(w, y, entries[j]);
      EntryMeets(w, x);
      EntryMeets(w, y);
      assert Agree(w, x, y);
      assert Key(entries[i]) != Key(entries[j]);
    }
  }

  lemma CheckedEverywhere(w: World, root: Root, m: Manifest, lock: L.Lock)
    requires m.name == lock.rootName && m.version == lock.rootVersion && DistinctNames(lock.dependencies)
    requires forall x | x in Reach(w, root, m.dependencies) :: CheckOne(x.dep, lock.dependencies).Ok?
    ensures ValidEverywhere(w, Reach(w, root, m.dependencies), m, lock)
  {
    hide ResolveOne;
    var edges := Reach(w, root, m.dependencies);
    ReachCloses(w, root, m.dependencies);
    forall d | d in m.dependencies ensures CheckOne(d, lock.dependencies).Ok? {
      assert Edge(root, d) in edges;
    }
    forall x | x in edges && ResolveOne(w, x.owner, x.dep).Ok?
      ensures Covers(w.packages[ResolveOne(w, x.owner, x.dep).value.root].dependencies, lock.dependencies)
    {
      var found := ResolveOne(w, x.owner, x.dep).value.root;
      assert Holds(w, found, edges);
      forall d | d in w.packages[found].dependencies ensures CheckOne(d, lock.dependencies).Ok? {
        assert Edge(found, d) in edges;
      }
    }
  }

  /** A lock that validates everywhere holds the version each name is resolved to. */
  lemma ValidImpliesCovered(w: World, root: Root, m: Manifest, lock: L.Lock, x: Edge)
    requires Honest(w) && ResolveLock(w, root, m) == Ok(lock) && x in Reach(w, root, m.dependencies)
    requires OneRequirementPerName(w, Reach(w, root, m.dependencies)) && ValidEverywhere(w, Reach(w, root, m.dependencies), m, lock)
    ensures IsLocked(w, x, lock.dependencies)
  {
    hide Honest, ResolveLock, Meets, Alike, ResolveOne;
    LockIsReach(w, root, m);
    EdgesAreCovered(w, root, m, lock, x);
    var entries, edges := lock.dependencies, Reach(w, root, m.dependencies);
    var i := FindName(entries, x.dep.name);
    assert Locks(w, edges, entries[i]);
    var y :| y in edges && Gives(w, y, entries[i]);
    EntryMeets(w, y);
    assert Agree(w, x, y) && Agree(w, x, x);
    EntryMeets(w, x);
    assert Key(entries[i]) == Key(Entry(w, x));
  }

  /**
    A resolved lock that covers what is reachable validates, for the root and every package it
    reaches, exactly when each name has one requirement and resolves to one version; and where
    that is so it validates exactly when it covers what is reachable.
  */
  lemma ResolvedLockValidates(w: World, root: Root, m: Manifest, lock: L.Lock)
    requires Honest(w) && ResolveLock(w, root, m) == Ok(lock)
    ensures
      var edges := Reach(w, root, m.dependencies);
      && (TwinsLocked(w, edges, lock.dependencies) ==> (ValidEverywhere(w, edges, m, lock) <==> OneRequirementPerName(w, edges)))
      && (OneRequirementPerName(w, edges) ==> (ValidEverywhere(w, edges, m, lock) <==> TwinsLocked(w, edges, lock.dependencies)))
  {
    hide Honest, ResolveLock, TwinsLocked, ResolveOne, Agree, ValidEverywhere, CheckOne, Reach, IsLocked;
    var edges := Reach(w, root, m.dependencies);
    LockIsReach(w, root, m);
    if ValidEverywhere(w, edges, m, lock) && Covered(w, edges, lock.dependencies) {
      forall x, y | x in edges && y in edges ensures Agree(w, x, y) {
        ValidImpliesAgree(w, root, m, lock, x, y);
      }
    }
    if OneRequirementPerName(w, edges) {
      AgreeImpliesDistinct(w, root, m, lock);
      if Covered(w, edges, lock.dependencies) {
        forall x | x in edges ensures CheckOne(x.dep, lock.dependencies).Ok? {
          AgreeImpliesChecked(w, root, m, lock, x);
        }
        CheckedEverywhere(w, root, m, lock);
      }
      if ValidEverywhere(w, edges, m, lock) {
        forall x | x in edges ensures IsLocked(w, x, lock.dependencies) { ValidImpliesCovered(w, root, m, lock, x); }
      }
    }
  }

  // ---------------------------------------------------------------------------
  // Two packages under one name and version
  // ---------------------------------------------------------------------------

  /**
    Directories `1` and `3` both hold `x@1`. The root depends on `x` at `1` and on `y`, which
    depends on `x` at `3`; only the second `x` depends on `z`.
  */
  function TwinWorld(): World {
    World(
      map["1" := Manifest("x", "1", []),
          "2" := Manifest("y", "1", [Wanted("x", Path("3", None))]),
          "3" := Manifest("x", "1", [Wanted("z", Path("4", None))]),
          "4" := Manifest("z", "1", [])],
      (owner, path) => path, false, (name, version) => None, (name, r) => None, root => Some("d"), root => Some("i"))
  }

  function TwinRoot(): Manifest {
    Manifest("r", "1", [Wanted("x", Path("1", None)), Wanted("y", Path("2", None))])
  }

  function TwinEntry(name: string, path: string): L.Dependency {
    L.Dependency(name, L.Source.Path, "1", Some(path), Some("i"), None, "d")
  }

  lemma TwinResolves(owner: Root, name: string, path: string)
    requires (name, path) in [("x", "1"), ("y", "2"), ("x", "3"), ("z", "4")]
    ensures ResolveOne(TwinWorld(), owner, Wanted(name, Path(path, None))) == Ok(Found(path, TwinEntry(name, path)))
  {
    assert path[1..] == "";
    assert L.Slashes(path) == [path[0]];
  }

  lemma TwinWalkBelow()
    ensures Collect(TwinWorld(), "2", TwinWorld().packages["2"].dependencies, Walk({"x@1", "y@1"}, [TwinEntry("x", "1")]))
         == Ok(Walk({"x@1", "y@1"}, [TwinEntry("x", "1")]))
  {
    TwinResolves("2", "x", "3");
    var deps := TwinWorld().packages["2"].dependencies;
    assert deps[1..] == [] && Key(TwinEntry("x", "3")) == "x@1";
  }

  lemma Descend(w: World, owner: Root, deps: seq<Wanted>, walk: Walk, found: Found, below: Walk)
    requires deps != [] && ResolveOne(w, owner, deps[0]) == Ok(found) && Key(found.entry) !in walk.seen
    requires Collect(w, found.root, w.packages[found.root].dependencies, Walk(walk.seen + {Key(found.entry)}, walk.locked)) == Ok(below)
    ensures Collect(w, owner, deps, walk) == Collect(w, owner, deps[1..], Walk(below.seen, below.locked + [found.entry]))
  {
  }

  lemma TwinWalk()
    ensures Collect(TwinWorld(), "r", TwinRoot().dependencies, Walk({}, []))
         == Ok(Walk({"x@1", "y@1"}, [TwinEntry("x", "1"), TwinEntry("y", "2")]))
  {
    hide Collect, ResolveOne;
    var w, deps, x, y := TwinWorld(), TwinRoot().dependencies, TwinEntry("x", "1"), TwinEntry("y", "2");
    TwinResolves("r", "x", "1");
    TwinResolves("r", "y", "2");
    TwinWalkBelow();
    assert Key(x) == "x@1" && Key(y) == "y@1";
    assert {} + {"x@1"} == {"x@1"} && {"x@1"} + {"y@1"} == {"x@1", "y@1"} && [] + [x] == [x] && [x] + [y] == [x, y];
    NothingToCollect(w, "1", Walk({"x@1"}, []));
    Descend(w, "r", deps, Walk({}, []), Found("1", x), Walk({"x@1"}, []));
    assert deps[1..][0] == deps[1] && deps[1..][1..] == [];
    Descend(w, "r", deps[1..], Walk({"x@1"}, [x]), Found("2", y), Walk({"x@1", "y@1"}, [x]));
    NothingToCollect(w, "r", Walk({"x@1", "y@1"}, [x, y]));
  }

  lemma NothingToCollect(w: World, owner: Root, walk: Walk)
    ensures Collect(w, owner, [], walk) == Ok(walk)
  {
  }

  lemma SortTwo<T>(le: (T, T) -> bool, a: T, b: T)
    requires le(a, b)
    ensures Sort(le, [a, b]) == [a, b]
  {
    assert [a, b][1..] == [b] && [b][1..] == [] && Sort(le, [b]) == [b];
  }

  lemma TwinReaches()
    ensures Reachable(TwinWorld(), "r", TwinRoot().dependencies, Edge("3", Wanted("z", Path("4", None))))
  {
    hide ResolveOne, Reachable;
    var w, deps := TwinWorld(), TwinRoot().dependencies;
    TwinResolves("r", "y", "2");
    TwinResolves("2", "x", "3");
    assert deps[1] in deps;
    ReachableStarts(w, "r", deps, deps[1]);
    ReachableFollows(w, "r", deps, Edge("r", deps[1]), Wanted("x", Path("3", None)));
    ReachableFollows(w, "r", deps, Edge("2", Wanted("x", Path("3", None))), Wanted("z", Path("4", None)));
  }

  /** Then `z` is reachable, yet resolution succeeds without locking it. */
  lemma TwinIsNotLocked()
    ensures ResolveLock(TwinWorld(), "r", TwinRoot()) == Ok(L.Lock("r", "1", [TwinEntry("x", "1"), TwinEntry("y", "2")]))
    ensures Reachable(TwinWorld(), "r", TwinRoot().dependencies, Edge("3", Wanted("z", Path("4", None))))
  {
    hide Collect, ResolveOne, Reachable, Sort;
    TwinWalk();
    TwinReaches();
    SortTwo(ByNameThenVersion, TwinEntry("x", "1"), TwinEntry("y", "2"));
  }
}
