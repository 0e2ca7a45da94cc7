/**
  Dependency resolution: a depth-first walk over a package graph that may be cyclic, and
  the validation of a manifest against the lock it produces.
*/
module Resolve {
  import opened Wrappers
  import opened Sorting
  import L = Lockfile

  type Root = string

  datatype Requirement =
    | Version(version: string)
    | Path(path: string, expected: Option<string>)
    | Git(url: string, rev: Option<string>, tag: Option<string>, branch: Option<string>, expected: Option<string>)

  datatype Wanted = Wanted(name: string, requirement: Requirement)

  datatype Manifest = Manifest(name: string, version: string, dependencies: seq<Wanted>)

  /** A package materialised in the cache, with what its metadata file says. */
  datatype Fetched = Fetched(root: Root, source: string, digest: string)

  /**
    The outside world at one moment: the manifests on disk, how paths join, what the cache
    yields for a registry or Git requirement, and the digests and identities of trees.
  */
  datatype World = World(
    packages: map<Root, Manifest>,
    join: (Root, string) -> Root,
    hasCache: bool,
    registry: (string, string) -> Option<Fetched>,
    git: (string, Requirement) -> Option<Fetched>,
    digest: Root -> Option<string>,
    identity: Root -> Option<string>)

  datatype Error =
    | ManifestMissing | NameMismatch | VersionMismatch | DigestFailed | NoIdentity
    | CacheHomeMissing | FetchFailed

  datatype Found = Found(root: Root, entry: L.Dependency)

  /** What follows the last `#` of a Git source identity, else the requirement's own revision. */
  function Revision(source: string, rev: Option<string>): Option<string> {
    if source == "" then rev
    else if source[|source| - 1] == '#' then Some("")
    else match Revision(source[..|source| - 1], None)
      case None => rev
      case Some(r) => Some(r + [source[|source| - 1]])
  }

  function Load(w: World, root: Root): Result<Manifest, Error> {
    if root in w.packages then Ok(w.packages[root]) else Err(ManifestMissing)
  }

  function ResolvePath(w: World, owner: Root, name: string, path: string, expected: Option<string>): (r: Result<Found, Error>)
    ensures r.Ok? ==> r.value.root in w.packages
  {
    var root := w.join(owner, path);
    match Load(w, root)
    case Err(e) => Err(e)
    case Ok(child) =>
      if child.name != name then Err(NameMismatch)
      else if expected.Some? && child.version != expected.value then Err(VersionMismatch)
      else if w.digest(root).None? then Err(DigestFailed)
      else if w.identity(root).None? then Err(NoIdentity)
      else Ok(Found(root, L.Dependency(child.name, L.Source.Path, child.version, Some(L.Slashes(path)), w.identity(root), None, w.digest(root).value)))
  }

  function ResolveFetched(w: World, fetched: Option<Fetched>, source: L.Source, git: Option<Requirement>): (r: Result<Found, Error>)
    requires git.Some? ==> git.value.Git?
    ensures r.Ok? ==> r.value.root in w.packages
  {
    if !w.hasCache then Err(CacheHomeMissing)
    else if fetched.None? then Err(FetchFailed)
    else
      var f := fetched.value;
      match Load(w, f.root)
      case Err(e) => Err(e)
      case Ok(child) =>
        var url := if git.Some? then git.value.url else f.source;
        var revision := if git.Some? then Revision(f.source, git.value.rev) else None;
        Ok(Found(f.root, L.Dependency(child.name, source, child.version, None, Some(url), revision, f.digest)))
  }

  function ResolveOne(w: World, owner: Root, d: Wanted): (r: Result<Found, Error>)
    ensures r.Ok? ==> r.value.root in w.packages
  {
    match d.requirement
    case Path(path, expected) => ResolvePath(w, owner, d.name, path, expected)
    case Version(version) => ResolveFetched(w, w.registry(d.name, version), L.Source.Registry, None)
    case Git(_, _, _, _, _) => ResolveFetched(w, w.git(d.name, d.requirement), L.Source.Git, Some(d.requirement))
  }

  lemma EntryIsManifest(w: World, owner: Root, d: Wanted)
    requires ResolveOne(w, owner, d).Ok?
    ensures
      var found := ResolveOne(w, owner, d).value;
      found.entry.name == w.packages[found.root].name && found.entry.version == w.packages[found.root].version
  {
  }

  function Key(e: L.Dependency): string { e.name + "@" + e.version }

  function ManifestKey(m: Manifest): string { m.name + "@" + m.version }

  function Keys(w: World): set<string> {
    set root | root in w.packages :: ManifestKey(w.packages[root])
  }

  lemma KeyKnown(w: World, owner: Root, d: Wanted)
    requires ResolveOne(w, owner, d).Ok?
    ensures Key(ResolveOne(w, owner, d).value.entry) in Keys(w)
  {
    EntryIsManifest(w, owner, d);
    assert ResolveOne(w, owner, d).value.root in w.packages;
  }

  // ---------------------------------------------------------------------------
  // The walk
  // ---------------------------------------------------------------------------

  datatype Walk = Walk(seen: set<string>, locked: seq<L.Dependency>)

  /** Resolves `deps` in order, descending into each package whose key is new, locking it afterwards. */
  function Collect(w: World, owner: Root, deps: seq<Wanted>, walk: Walk): (r: Result<Walk, Error>)
    ensures r.Ok? ==> walk.seen <= r.value.seen
    decreases Keys(w) - walk.seen, |deps|
  {
    if deps == [] then Ok(walk) else
      match ResolveOne(w, owner, deps[0])
      case Err(e) => Err(e)
      case Ok(found) =>
        var key := Key(found.entry);
        if key in walk.seen then Collect(w, owner, deps[1..], walk)
        else
          KeyKnown(w, owner, deps[0]);
          assert key in Keys(w) - walk.seen;
          match Collect(w, found.root, w.packages[found.root].dependencies, walk.(seen := walk.seen + {key}))
          case Err(e) => Err(e)
          case Ok(below) => Collect(w, owner, deps[1..], below.(locked := below.locked + [found.entry]))
  }

  predicate ByNameThenVersion(a: L.Dependency, b: L.Dependency) {
    if a.name != b.name then Lex(a.name, b.name) else Lex(a.version, b.version)
  }

  function ResolveLock(w: World, root: Root, m: Manifest): Result<L.Lock, Error> {
    match Collect(w, root, m.dependencies, Walk({}, []))
    case Err(e) => Err(e)
    case Ok(walk) => Ok(L.Lock(m.name, m.version, Sort(ByNameThenVersion, walk.locked)))
  }

  lemma OrderIsPreorder()
    ensures Preorder(ByNameThenVersion)
  {
    forall a: L.Dependency, b: L.Dependency ensures ByNameThenVersion(a, b) || ByNameThenVersion(b, a) {
      LexTotal(a.name, b.name);
      LexTotal(a.version, b.version);
    }
    forall a: L.Dependency, b: L.Dependency, c: L.Dependency | ByNameThenVersion(a, b) && ByNameThenVersion(b, c)
      ensures ByNameThenVersion(a, c)
    {
      OrderTransitive(a, b, c);
    }
  }

  lemma OrderTransitive(a: L.Dependency, b: L.Dependency, c: L.Dependency)
    requires ByNameThenVersion(a, b) && ByNameThenVersion(b, c)
    ensures ByNameThenVersion(a, c)
  {
    if a.name == b.name == c.name {
      LexTransitive(a.version, b.version, c.version);
    } else if a.name == c.name {
      LexAntisymmetric(a.name, b.name);
    } else if a.name != b.name && b.name != c.name {
      LexTransitive(a.name, b.name, c.name);
    }
  }

  /** The walk as the code runs it, with its two accumulators updated in place. */
  class Resolver {
    var seen: set<string>
    var locked: seq<L.Dependency>

    constructor ()
      ensures seen == {} && locked == []
    {
      seen, locked := {}, [];
    }

    method CollectLocked(w: World, owner: Root, deps: seq<Wanted>) returns (r: Result<(), Error>)
      modifies this
      ensures
        match Collect(w, owner, deps, Walk(old(seen), old(locked)))
        case Ok(walk) => r == Ok(()) && seen == walk.seen && locked == walk.locked
        case Err(e) => r == Err(e)
      decreases Keys(w) - seen, |deps|
    {
      var i := 0;
      while i < |deps|
        invariant 0 <= i <= |deps| && old(seen) <= seen
        invariant Collect(w, owner, deps, Walk(old(seen), old(locked))) == Collect(w, owner, deps[i..], Walk(seen, locked))
      {
        assert deps[i..][0] == deps[i] && deps[i..][1..] == deps[i + 1..];
        var found := ResolveOne(w, owner, deps[i]);
        if found.Err? { return Err(found.error); }
        var Found(root, entry) := found.value;
        var key := Key(entry);
        if key !in seen {
          KeyKnown(w, owner, deps[i]);
          assert key in Keys(w) - seen;
          seen := seen + {key};
          var below := CollectLocked(w, root, w.packages[root].dependencies);
          if below.Err? { return below; }
          locked := locked + [entry];
        }
        i := i + 1;
      }
      assert deps[i..] == [];
      return Ok(());
    }
  }

  method ResolvePackageLock(w: World, root: Root, m: Manifest) returns (r: Result<L.Lock, Error>)
    ensures r == ResolveLock(w, root, m)
  {
    var resolver := new Resolver();
    var walked := resolver.CollectLocked(w, root, m.dependencies);
    if walked.Err? { return Err(walked.error); }
    return Ok(L.Lock(m.name, m.version, Sort(ByNameThenVersion, resolver.locked)));
  }

  // ---------------------------------------------------------------------------
  // What is reachable
  // ---------------------------------------------------------------------------

  /** One dependency of one package, the edges of the graph. */
  datatype Edge = Edge(owner: Root, dep: Wanted)

  predicate Holds(w: World, root: Root, edges: set<Edge>)
    requires root in w.packages
  {
    forall d | d in w.packages[root].dependencies :: Edge(root, d) in edges
  }

  predicate Starts(root: Root, deps: seq<Wanted>, edges: set<Edge>) {
    forall d | d in deps :: Edge(root, d) in edges
  }

  predicate Follows(w: World, edges: set<Edge>) {
    forall x | x in edges :: var r := ResolveOne(w, x.owner, x.dep); r.Ok? ==> Holds(w, r.value.root, edges)
  }

  /** The edge is in every set that holds the root's edges and follows resolved edges. */
  ghost predicate Reachable(w: World, root: Root, deps: seq<Wanted>, x: Edge) {
    forall edges | Starts(root, deps, edges) && Follows(w, edges) :: x in edges
  }

  lemma ReachableStarts(w: World, root: Root, deps: seq<Wanted>, d: Wanted)
    requires d in deps
    ensures Reachable(w, root, deps, Edge(root, d))
  {
  }

  lemma ReachableFollows(w: World, root: Root, deps: seq<Wanted>, x: Edge, d: Wanted)
    requires Reachable(w, root, deps, x) && ResolveOne(w, x.owner, x.dep).Ok?
    requires d in w.packages[ResolveOne(w, x.owner, x.dep).value.root].dependencies
    ensures Reachable(w, root, deps, Edge(ResolveOne(w, x.owner, x.dep).value.root, d))
  {
  }

  /** Every edge there could be; the reachable ones are among them. */
  function AllEdges(w: World, root: Root, deps: seq<Wanted>): set<Edge> {
    (set d | d in deps :: Edge(root, d)) + (set r, d | r in w.packages && d in w.packages[r].dependencies :: Edge(r, d))
  }

  lemma AllEdgesCover(w: World, root: Root, deps: seq<Wanted>)
    ensures Starts(root, deps, AllEdges(w, root, deps)) && Follows(w, AllEdges(w, root, deps))
  {
  }

  /** The edges reachable from the root. */
  ghost function Reach(w: World, root: Root, deps: seq<Wanted>): set<Edge> {
    set x | x in AllEdges(w, root, deps) && Reachable(w, root, deps, x)
  }

  lemma ReachCloses(w: World, root: Root, deps: seq<Wanted>)
    ensures Starts(root, deps, Reach(w, root, deps)) && Follows(w, Reach(w, root, deps))
  {
    AllEdgesCover(w, root, deps);
    var edges := Reach(w, root, deps);
    forall x | x in edges ensures var r := ResolveOne(w, x.owner, x.dep); r.Ok? ==> Holds(w, r.value.root, edges) {
      var r := ResolveOne(w, x.owner, x.dep);
      if r.Ok? {
        forall d | d in w.packages[r.value.root].dependencies ensures Edge(r.value.root, d) in edges {
          ReachableFollows(w, root, deps, x, d);
        }
      }
    }
  }

  // ---------------------------------------------------------------------------
  // What the walk locks
  // ---------------------------------------------------------------------------

  predicate Gives(w: World, x: Edge, e: L.Dependency) {
    ResolveOne(w, x.owner, x.dep).Ok? && ResolveOne(w, x.owner, x.dep).value.entry == e
  }

  predicate Seen(w: World, owner: Root, d: Wanted, seen: set<string>) {
    ResolveOne(w, owner, d).Ok? && Key(ResolveOne(w, owner, d).value.entry) in seen
  }

  predicate AllSeen(w: World, owner: Root, deps: seq<Wanted>, seen: set<string>) {
    forall d | d in deps :: Seen(w, owner, d, seen)
  }

  predicate Expands(w: World, x: Edge, key: string, seen: set<string>) {
    var r := ResolveOne(w, x.owner, x.dep);
    r.Ok? && Key(r.value.entry) == key && AllSeen(w, r.value.root, w.packages[r.value.root].dependencies, seen)
  }

  /** Some edge leading to `key` had all its package's dependencies seen. */
  ghost predicate Expanded(w: World, edges: set<Edge>, key: string, seen: set<string>) {
    exists x | x in edges :: Expands(w, x, key, seen)
  }

  ghost predicate Locks(w: World, edges: set<Edge>, e: L.Dependency) {
    exists x | x in edges :: Gives(w, x, e)
  }

  ghost predicate HasKey(entries: seq<L.Dependency>, key: string) {
    exists i | 0 <= i < |entries| :: Key(entries[i]) == key
  }

  predicate DistinctKeys(entries: seq<L.Dependency>) {
    forall i, j | 0 <= i < j < |entries| :: Key(entries[i]) != Key(entries[j])
  }

  /** Between two moments of the walk, one entry was added for each newly seen key. */
  ghost predicate Added(w: World, edges: set<Edge>, entries: seq<L.Dependency>, before: set<string>, after: set<string>) {
    && before <= after
    && (forall i | 0 <= i < |entries| :: Locks(w, edges, entries[i]))
    && (forall i | 0 <= i < |entries| :: Key(entries[i]) in after && Key(entries[i]) !in before)
    && DistinctKeys(entries)
    && (forall key | key in after && key !in before :: HasKey(entries, key) && Expanded(w, edges, key, after))
  }

  lemma SeenGrows(w: World, owner: Root, deps: seq<Wanted>, before: set<string>, after: set<string>)
    requires AllSeen(w, owner, deps, before) && before <= after
    ensures AllSeen(w, owner, deps, after)
  {
  }

  lemma ExpandedGrows(w: World, edges: set<Edge>, key: string, before: set<string>, after: set<string>)
    requires Expanded(w, edges, key, before) && before <= after
    ensures Expanded(w, edges, key, after)
  {
    var x :| x in edges && Expands(w, x, key, before);
    var root := ResolveOne(w, x.owner, x.dep).value.root;
    SeenGrows(w, root, w.packages[root].dependencies, before, after);
    assert Expands(w, x, key, after);
  }

  lemma HasKeyAppend(a: seq<L.Dependency>, b: seq<L.Dependency>, key: string)
    ensures HasKey(a + b, key) <==> HasKey(a, key) || HasKey(b, key)
  {
    if HasKey(a, key) {
      var i :| 0 <= i < |a| && Key(a[i]) == key;
      assert (a + b)[i] == a[i];
    }
    if HasKey(b, key) {
      var i :| 0 <= i < |b| && Key(b[i]) == key;
      assert (a + b)[|a| + i] == b[i];
    }
  }

  lemma AddedAppend(w: World, edges: set<Edge>, a: seq<L.Dependency>, b: seq<L.Dependency>, s0: set<string>, s1: set<string>, s2: set<string>)
    requires Added(w, edges, a, s0, s1) && Added(w, edges, b, s1, s2)
    ensures Added(w, edges, a + b, s0, s2)
  {
    hide Locks, HasKey, Expanded;
    forall key | key in s2 && key !in s0 ensures HasKey(a + b, key) && Expanded(w, edges, key, s2) {
      HasKeyAppend(a, b, key);
      if key in s1 { ExpandedGrows(w, edges, key, s1, s2); }
    }
  }

  lemma ExpandedBy(w: World, edges: set<Edge>, x: Edge, key: string, seen: set<string>)
    requires x in edges && Expands(w, x, key, seen)
    ensures Expanded(w, edges, key, seen)
  {
  }

  lemma HasKeyLast(entries: seq<L.Dependency>, e: L.Dependency)
    ensures HasKey(entries + [e], Key(e))
  {
    assert (entries + [e])[|entries|] == e;
  }

  /** The package found through `x` was expanded while its own key was already seen. */
  lemma AddedHead(w: World, edges: set<Edge>, x: Edge, found: Found, below: seq<L.Dependency>, before: set<string>, after: set<string>)
    requires x in edges && ResolveOne(w, x.owner, x.dep) == Ok(found) && Key(found.entry) !in before
    requires Added(w, edges, below, before + {Key(found.entry)}, after)
    requires AllSeen(w, found.root, w.packages[found.root].dependencies, after)
    ensures Added(w, edges, below + [found.entry], before, after)
  {
    hide HasKey, Expanded;
    var all, key := below + [found.entry], Key(found.entry);
    assert Gives(w, x, found.entry);
    ExpandedBy(w, edges, x, key, after);
    forall k | k in after && k !in before ensures HasKey(all, k) && Expanded(w, edges, k, after) {
      HasKeyAppend(below, [found.entry], k);
      if k == key { HasKeyLast(below, found.entry); }
    }
  }

  lemma FollowsOne(w: World, edges: set<Edge>, x: Edge)
    requires Follows(w, edges) && x in edges && ResolveOne(w, x.owner, x.dep).Ok?
    ensures
      var root := ResolveOne(w, x.owner, x.dep).value.root;
      Starts(root, w.packages[root].dependencies, edges)
  {
    assert Holds(w, ResolveOne(w, x.owner, x.dep).value.root, edges);
  }

  /** One call of the walk, told as what it adds. */
  lemma {:induction false} CollectAdds(w: World, owner: Root, deps: seq<Wanted>, walk: Walk, edges: set<Edge>) returns (out: Walk, entries: seq<L.Dependency>)
    requires Starts(owner, deps, edges) && Follows(w, edges) && Collect(w, owner, deps, walk).Ok?
    ensures Collect(w, owner, deps, walk) == Ok(out) && out.locked == walk.locked + entries
    ensures Added(w, edges, entries, walk.seen, out.seen) && AllSeen(w, owner, deps, out.seen)
    decreases Keys(w) - walk.seen, |deps|
  {
    hide Added, ResolveOne, Follows;
    if deps == [] {
      out, entries := walk, [];
      AddedNothing(w, edges, walk.seen);
    } else {
      var found := ResolveOne(w, owner, deps[0]).value;
      var key, x := Key(found.entry), Edge(owner, deps[0]);
      assert x in edges;
      FollowsOne(w, edges, x);
      if key in walk.seen {
        out, entries := CollectAdds(w, owner, deps[1..], walk, edges);
      } else {
        KeyKnown(w, owner, deps[0]);
        assert key in Keys(w) - walk.seen;
        var mid, below := CollectAdds(w, found.root, w.packages[found.root].dependencies, walk.(seen := walk.seen + {key}), edges);
        AddedHead(w, edges, x, found, below, walk.seen, mid.seen);
        var rest;
        out, rest := CollectAdds(w, owner, deps[1..], mid.(locked := mid.locked + [found.entry]), edges);
        entries := below + [found.entry] + rest;
        AddedAppend(w, edges, below + [found.entry], rest, walk.seen, mid.seen, out.seen);
      }
      assert deps == [deps[0]] + deps[1..];
    }
  }

  lemma AddedNothing(w: World, edges: set<Edge>, seen: set<string>)
    ensures Added(w, edges, [], seen, seen)
  {
  }

  /** A name and version stand for one package, wherever reachable packages refer to it. */
  predicate OneRootPerKey(w: World, edges: set<Edge>) {
    forall x, y | x in edges && y in edges :: SameRoot(w, x, y)
  }

  predicate SameRoot(w: World, x: Edge, y: Edge) {
    var a, b := ResolveOne(w, x.owner, x.dep), ResolveOne(w, y.owner, y.dep);
    a.Ok? && b.Ok? && Key(a.value.entry) == Key(b.value.entry) ==> a.value.root == b.value.root
  }

  /** Every edge resolves to something locked. */
  ghost predicate Covered(w: World, edges: set<Edge>, entries: seq<L.Dependency>) {
    forall x | x in edges :: IsLocked(w, x, entries)
  }

  ghost predicate IsLocked(w: World, x: Edge, entries: seq<L.Dependency>) {
    ResolveOne(w, x.owner, x.dep).Ok? && HasKey(entries, Key(ResolveOne(w, x.owner, x.dep).value.entry))
  }

  ghost predicate HasTwin(w: World, edges: set<Edge>, x: Edge) {
    exists y | y in edges :: !SameRoot(w, x, y)
  }

  /** What a package asks for directly is locked, if its name and version also stand for another. */
  ghost predicate TwinsLocked(w: World, edges: set<Edge>, entries: seq<L.Dependency>) {
    forall x | x in edges && HasTwin(w, edges, x) :: DependenciesLocked(w, x, entries)
  }

  ghost predicate DependenciesLocked(w: World, x: Edge, entries: seq<L.Dependency>) {
    var r := ResolveOne(w, x.owner, x.dep);
    r.Ok? ==> forall d | d in w.packages[r.value.root].dependencies :: IsLocked(w, Edge(r.value.root, d), entries)
  }

  /** Whatever one of two twins asks for directly, the other does, up to name and version. */
  ghost predicate TwinsAlike(w: World, edges: set<Edge>) {
    forall x, y | x in edges && y in edges && !SameRoot(w, x, y) :: AsksNoMore(w, x, y)
  }

  ghost predicate AsksNoMore(w: World, x: Edge, y: Edge) {
    var a, b := ResolveOne(w, x.owner, x.dep), ResolveOne(w, y.owner, y.dep);
    a.Ok? && b.Ok? ==> forall d | d in w.packages[a.value.root].dependencies :: Asked(w, a.value.root, d, b.value.root)
  }

  /** What `d` is resolved to in one package is what some dependency is resolved to in the other. */
  ghost predicate Asked(w: World, root: Root, d: Wanted, other: Root)
    requires other in w.packages
  {
    exists c | c in w.packages[other].dependencies :: SameKey(w, root, d, other, c)
  }

  predicate SameKey(w: World, root: Root, d: Wanted, other: Root, c: Wanted) {
    var a, b := ResolveOne(w, root, d), ResolveOne(w, other, c);
    a.Ok? && b.Ok? && Key(a.value.entry) == Key(b.value.entry)
  }

  /** A package whose twin was expanded has its own dependencies seen, where twins are alike. */
  lemma AlikeSeen(w: World, edges: set<Edge>, x: Edge, d: Wanted, seen: set<string>, entries: seq<L.Dependency>)
    requires x in edges && Seen(w, x.owner, x.dep, seen) && d in w.packages[ResolveOne(w, x.owner, x.dep).value.root].dependencies
    requires Added(w, edges, entries, {}, seen) && TwinsAlike(w, edges)
    ensures Seen(w, ResolveOne(w, x.owner, x.dep).value.root, d, seen)
  {
    hide ResolveOne, Locks, HasKey;
    var r := ResolveOne(w, x.owner, x.dep).value;
    assert Expanded(w, edges, Key(r.entry), seen);
    var y :| y in edges && Expands(w, y, Key(r.entry), seen);
    var root := ResolveOne(w, y.owner, y.dep).value.root;
    if SameRoot(w, x, y) {
      assert AllSeen(w, r.root, w.packages[r.root].dependencies, seen);
    } else {
      assert AsksNoMore(w, x, y) && Asked(w, r.root, d, root);
      var c :| c in w.packages[root].dependencies && SameKey(w, r.root, d, root, c);
      assert Seen(w, root, c, seen);
    }
  }

  /** So where packages that share name and version ask for the same, decided before resolving, nothing is lost. */
  lemma AlikeTwinsLoseNothing(w: World, root: Root, m: Manifest)
    requires ResolveLock(w, root, m).Ok? && TwinsAlike(w, Reach(w, root, m.dependencies))
    ensures Covered(w, Reach(w, root, m.dependencies), ResolveLock(w, root, m).value.dependencies)
  {
    hide ResolveOne, Locks, Follows, Reach, Added, TwinsAlike, HasKey, IsLocked, Seen;
    var deps, edges := m.dependencies, Reach(w, root, m.dependencies);
    ReachCloses(w, root, deps);
    var out, entries := CollectAdds(w, root, deps, Walk({}, []), edges);
    assert out.locked == entries;
    SortSorts(ByNameThenVersion, entries) by { OrderIsPreorder(); }
    var sorted := Sort(ByNameThenVersion, entries);
    AddedParts(w, edges, entries, out.seen);
    SortKeeps(w, edges, entries, sorted);
    assert StaysSeen(w, edges, out.seen) by {
      forall x, d | x in edges && Seen(w, x.owner, x.dep, out.seen) && ResolveOne(w, x.owner, x.dep).Ok?
        && d in w.packages[ResolveOne(w, x.owner, x.dep).value.root].dependencies
        ensures Seen(w, ResolveOne(w, x.owner, x.dep).value.root, d, out.seen)
      {
        AlikeSeen(w, edges, x, d, out.seen, entries);
      }
    }
    SeenIsClosed(w, root, deps, out.seen);
    forall x | x in edges ensures IsLocked(w, x, sorted) { SeenIsLocked(w, x, out.seen, entries, sorted); }
  }

  lemma SeenIsLocked(w: World, x: Edge, seen: set<string>, entries: seq<L.Dependency>, sorted: seq<L.Dependency>)
    requires Seen(w, x.owner, x.dep, seen) && (forall key :: key in seen <==> HasKey(entries, key))
    requires forall key | HasKey(entries, key) :: HasKey(sorted, key)
    ensures IsLocked(w, x, sorted)
  {
    hide ResolveOne, HasKey;
  }

  /** Where packages whose edge was seen have theirs seen, all reachable edges were. */
  ghost predicate StaysSeen(w: World, edges: set<Edge>, seen: set<string>) {
    forall x | x in edges && Seen(w, x.owner, x.dep, seen) ::
      var r := ResolveOne(w, x.owner, x.dep); r.Ok? ==> AllSeen(w, r.value.root, w.packages[r.value.root].dependencies, seen)
  }

  lemma SeenIsClosed(w: World, root: Root, deps: seq<Wanted>, seen: set<string>)
    requires AllSeen(w, root, deps, seen) && StaysSeen(w, Reach(w, root, deps), seen)
    ensures forall x | x in Reach(w, root, deps) :: Seen(w, x.owner, x.dep, seen)
  {
    hide ResolveOne, Reach;
    var edges := Reach(w, root, deps);
    ReachCloses(w, root, deps);
    var good := set x | x in edges && Seen(w, x.owner, x.dep, seen);
    forall x | x in good ensures var r := ResolveOne(w, x.owner, x.dep); r.Ok? ==> Holds(w, r.value.root, good) {
      var r := ResolveOne(w, x.owner, x.dep).value;
      assert Holds(w, r.root, edges);
    }
    assert Starts(root, deps, good) && Follows(w, good);
    forall x | x in edges ensures x in good { InGood(w, root, deps, good, x); }
  }

  /**
    The lock holds, sorted by name and version and each name and version once, only what
    reachable edges resolve to; and everything they resolve to exactly when the direct
    dependencies of twins are locked, packages that share name and version with another.
  */
  lemma LockIsReach(w: World, root: Root, m: Manifest)
    requires ResolveLock(w, root, m).Ok?
    ensures
      var lock, edges := ResolveLock(w, root, m).value, Reach(w, root, m.dependencies);
      && lock.rootName == m.name && lock.rootVersion == m.version
      && Sorted(ByNameThenVersion, lock.dependencies) && DistinctKeys(lock.dependencies)
      && (forall i | 0 <= i < |lock.dependencies| :: Locks(w, edges, lock.dependencies[i]))
      && (Covered(w, edges, lock.dependencies) <==> TwinsLocked(w, edges, lock.dependencies))
      && (OneRootPerKey(w, edges) ==> Covered(w, edges, lock.dependencies))
  {
    hide ResolveOne, Covered, TwinsLocked, Locks, OneRootPerKey, Follows, Reach, Added, AllSeen, HasKey;
    var deps, edges := m.dependencies, Reach(w, root, m.dependencies);
    ReachCloses(w, root, deps);
    var out, entries := CollectAdds(w, root, deps, Walk({}, []), edges);
    assert out.locked == entries;
    OrderIsPreorder();
    SortSorts(ByNameThenVersion, entries);
    var sorted := Sort(ByNameThenVersion, entries);
    AddedParts(w, edges, entries, out.seen);
    SortKeeps(w, edges, entries, sorted);
    SortKeeps(w, edges, sorted, entries);
    if Covered(w, edges, sorted) { CoveredFollows(w, edges, sorted); }
    OneRootNoTwins(w, edges, sorted);
    if TwinsLocked(w, edges, sorted) { ReachIsSeen(w, root, deps, out.seen, entries, sorted); }
  }

  lemma AddedParts(w: World, edges: set<Edge>, entries: seq<L.Dependency>, after: set<string>)
    requires Added(w, edges, entries, {}, after)
    ensures (forall i | 0 <= i < |entries| :: Locks(w, edges, entries[i])) && DistinctKeys(entries)
    ensures forall key :: key in after <==> HasKey(entries, key)
  {
    hide Locks, Expanded;
  }

  lemma CoveredFollows(w: World, edges: set<Edge>, entries: seq<L.Dependency>)
    requires Follows(w, edges) && Covered(w, edges, entries)
    ensures TwinsLocked(w, edges, entries)
  {
    hide ResolveOne, HasKey;
    forall x | x in edges && HasTwin(w, edges, x) ensures DependenciesLocked(w, x, entries) {
      var r := ResolveOne(w, x.owner, x.dep);
      if r.Ok? {
        forall d | d in w.packages[r.value.root].dependencies ensures IsLocked(w, Edge(r.value.root, d), entries) {
          assert Holds(w, r.value.root, edges);
        }
      }
    }
  }

  lemma OneRootNoTwins(w: World, edges: set<Edge>, entries: seq<L.Dependency>)
    ensures OneRootPerKey(w, edges) ==> TwinsLocked(w, edges, entries)
  {
  }

  lemma SortKeeps(w: World, edges: set<Edge>, a: seq<L.Dependency>, b: seq<L.Dependency>)
    requires multiset(a) == multiset(b) && DistinctKeys(a)
    requires forall i | 0 <= i < |a| :: Locks(w, edges, a[i])
    ensures DistinctKeys(b)
    ensures forall i | 0 <= i < |b| :: Locks(w, edges, b[i])
    ensures forall key | HasKey(a, key) :: HasKey(b, key)
  {
    hide Locks;
    forall i | 0 <= i < |b| ensures Locks(w, edges, b[i]) {
      assert b[i] in multiset(a);
    }
    forall key | HasKey(a, key) ensures HasKey(b, key) {
      var i :| 0 <= i < |a| && Key(a[i]) == key;
      assert a[i] in multiset(b);
    }
    forall i, j | 0 <= i < j < |b| ensures Key(b[i]) != Key(b[j]) {
      if Key(b[i]) == Key(b[j]) {
        DistinctOnce(a, b[i]);
        assert b[i] in multiset(a) && b[j] in multiset(a);
        Twice(b, i, j);
      }
    }
  }

  lemma {:induction false} DistinctOnce(a: seq<L.Dependency>, e: L.Dependency)
    requires DistinctKeys(a)
    ensures multiset(a)[e] <= 1
    ensures forall f | f in a && e in a && Key(e) == Key(f) :: e == f
  {
    if a != [] {
      assert a == [a[0]] + a[1..];
      DistinctOnce(a[1..], e);
      if e == a[0] { assert e !in a[1..]; }
    }
  }

  /** The edges whose target was seen hold the root's edges and follow resolved ones. */
  lemma ReachIsSeen(w: World, root: Root, deps: seq<Wanted>, seen: set<string>, entries: seq<L.Dependency>, sorted: seq<L.Dependency>)
    requires AllSeen(w, root, deps, seen) && Added(w, Reach(w, root, deps), entries, {}, seen)
    requires forall key :: HasKey(entries, key) <==> HasKey(sorted, key)
    requires TwinsLocked(w, Reach(w, root, deps), sorted)
    ensures Covered(w, Reach(w, root, deps), sorted)
  {
    hide ResolveOne, HasKey, Reach, Locks, Added, TwinsLocked;
    var edges := Reach(w, root, deps);
    AddedParts(w, edges, entries, seen);
    forall x ensures IsLocked(w, x, sorted) <==> Seen(w, x.owner, x.dep, seen) {}
    forall x, d | x in edges && Seen(w, x.owner, x.dep, seen) && ResolveOne(w, x.owner, x.dep).Ok?
      && d in w.packages[ResolveOne(w, x.owner, x.dep).value.root].dependencies
      ensures Seen(w, ResolveOne(w, x.owner, x.dep).value.root, d, seen)
    {
      DependencySeen(w, edges, x, d, seen, entries, sorted);
    }
    assert StaysSeen(w, edges, seen);
    SeenIsClosed(w, root, deps, seen);
  }

  lemma InGood(w: World, root: Root, deps: seq<Wanted>, good: set<Edge>, x: Edge)
    requires Starts(root, deps, good) && Follows(w, good) && x in Reach(w, root, deps)
    ensures x in good
  {
    assert Reachable(w, root, deps, x);
  }

  /** A seen package, or a twin of it, was expanded; either way its own dependencies were seen. */
  lemma DependencySeen(w: World, edges: set<Edge>, x: Edge, d: Wanted, seen: set<string>, entries: seq<L.Dependency>, sorted: seq<L.Dependency>)
    requires x in edges && Seen(w, x.owner, x.dep, seen) && d in w.packages[ResolveOne(w, x.owner, x.dep).value.root].dependencies
    requires Added(w, edges, entries, {}, seen) && TwinsLocked(w, edges, sorted)
    requires forall y :: IsLocked(w, y, sorted) <==> Seen(w, y.owner, y.dep, seen)
    ensures Seen(w, ResolveOne(w, x.owner, x.dep).value.root, d, seen)
  {
    hide ResolveOne, IsLocked, Locks, HasKey;
    var r := ResolveOne(w, x.owner, x.dep).value;
    assert Expanded(w, edges, Key(r.entry), seen);
    var y :| y in edges && Expands(w, y, Key(r.entry), seen);
    if SameRoot(w, x, y) {
      assert AllSeen(w, r.root, w.packages[r.root].dependencies, seen);
    } else {
      assert HasTwin(w, edges, x) && DependenciesLocked(w, x, sorted);
      assert IsLocked(w, Edge(r.root, d), sorted);
    }
  }

  predicate AllResolve(w: World, edges: set<Edge>) {
    forall x | x in edges :: ResolveOne(w, x.owner, x.dep).Ok?
  }

  lemma {:induction false} CollectSucceeds(w: World, owner: Root, deps: seq<Wanted>, walk: Walk, edges: set<Edge>)
    requires Starts(owner, deps, edges) && Follows(w, edges) && AllResolve(w, edges)
    ensures Collect(w, owner, deps, walk).Ok?
    decreases Keys(w) - walk.seen, |deps|
  {
    hide ResolveOne, Follows;
    if deps != [] {
      var x := Edge(owner, deps[0]);
      assert x in edges;
      FollowsOne(w, edges, x);
      var found := ResolveOne(w, owner, deps[0]).value;
      var key := Key(found.entry);
      if key in walk.seen {
        CollectSucceeds(w, owner, deps[1..], walk, edges);
      } else {
        KeyKnown(w, owner, deps[0]);
        assert key in Keys(w) - walk.seen;
        CollectSucceeds(w, found.root, w.packages[found.root].dependencies, walk.(seen := walk.seen + {key}), edges);
        var below := Collect(w, found.root, w.packages[found.root].dependencies, walk.(seen := walk.seen + {key})).value;
        CollectSucceeds(w, owner, deps[1..], below.(locked := below.locked + [found.entry]), edges);
      }
    }
  }

  /**
    Resolution succeeds, on cyclic graphs too, whenever every reachable edge resolves; and only
    then, unless the dependencies of a twin were passed over.
  */
  lemma ResolvesExactlyWhen(w: World, root: Root, m: Manifest)
    ensures AllResolve(w, Reach(w, root, m.dependencies)) ==> ResolveLock(w, root, m).Ok?
    ensures
      var r, edges := ResolveLock(w, root, m), Reach(w, root, m.dependencies);
      r.Ok? && TwinsLocked(w, edges, r.value.dependencies) ==> AllResolve(w, edges)
    ensures OneRootPerKey(w, Reach(w, root, m.dependencies)) ==> (ResolveLock(w, root, m).Ok? <==> AllResolve(w, Reach(w, root, m.dependencies)))
  {
    hide ResolveOne, Reach, TwinsLocked, OneRootPerKey;
    var edges := Reach(w, root, m.dependencies);
    if ResolveLock(w, root, m).Ok? {
      LockIsReach(w, root, m);
    }
    if AllResolve(w, edges) {
      ReachCloses(w, root, m.dependencies);
      CollectSucceeds(w, root, m.dependencies, Walk({}, []), edges);
    }
  }
}
