/**
  What a resolved lock says of each package, field by field, and why the package is in it; and
  that the lock, once written, can be read back.
*/
module ResolvedEntries {
  import opened Wrappers
  import opened Resolve
  import opened LockRoundTrip
  import L = Lockfile

  // ---------------------------------------------------------------------------
  // One entry
  // ---------------------------------------------------------------------------

  predicate LastHash(source: string, i: nat) {
    i < |source| && source[i] == '#' && forall j | i < j < |source| :: source[j] != '#'
  }

  /** What follows the last `#`, or without one the given revision. */
  ghost predicate RevisionIs(source: string, rev: Option<string>, revision: Option<string>) {
    if '#' in source then exists i: nat | i < |source| :: LastHash(source, i) && revision == Some(source[i + 1..])
    else revision == rev
  }

  /** `s` is `path` with slashes for backslashes. */
  predicate Slashed(path: string, s: string) {
    |s| == |path| && forall i | 0 <= i < |path| :: s[i] == if path[i] == '\\' then '/' else path[i]
  }

  /** The entry names the package and version declared in this directory. */
  predicate Declared(w: World, root: Root, e: L.Dependency) {
    root in w.packages && e.name == w.packages[root].name && e.version == w.packages[root].version
  }

  /** Why `e` stands for the dependency `x`, whose package is in the directory `root`. */
  ghost predicate Accounts(w: World, x: Edge, root: Root, e: L.Dependency) {
    Declared(w, root, e) &&
    match x.dep.requirement
    case Path(path, expected) =>
      && root == w.join(x.owner, path)
      && e.name == x.dep.name && (expected.Some? ==> e.version == expected.value)
      && e.source == L.Source.Path && e.revision == None
      && e.path.Some? && Slashed(path, e.path.value)
      && e.url.Some? && e.url == w.identity(root) && w.digest(root) == Some(e.digest)
    case Version(version) =>
      var cached := w.registry(x.dep.name, version);
      && w.hasCache && cached.Some? && root == cached.value.root
      && e.source == L.Source.Registry && e.path == None && e.revision == None
      && e.url == Some(cached.value.source) && e.digest == cached.value.digest
    case Git(url, rev, _, _, _) =>
      var cached := w.git(x.dep.name, x.dep.requirement);
      && w.hasCache && cached.Some? && root == cached.value.root
      && e.source == L.Source.Git && e.path == None && e.url == Some(url)
      && RevisionIs(cached.value.source, rev, e.revision) && e.digest == cached.value.digest
  }

  lemma LastHashSnoc(front: string, c: char, i: nat)
    requires LastHash(front, i) && c != '#'
    ensures LastHash(front + [c], i) && (front + [c])[i + 1..] == front[i + 1..] + [c]
  {
  }

  lemma {:induction false} RevisionOf(source: string, rev: Option<string>)
    ensures RevisionIs(source, rev, Revision(source, rev))
  {
    if source != "" {
      var front, c := source[..|source| - 1], source[|source| - 1];
      assert source == front + [c];
      hide LastHash;
      RevisionOf(front, None);
      if c == '#' {
        EndsInHash(source);
      } else if '#' in front {
        var i: nat :| i < |front| && LastHash(front, i) && Revision(front, None) == Some(front[i + 1..]);
        LastHashSnoc(front, c, i);
      }
    }
  }

  lemma EndsInHash(source: string)
    requires source != "" && source[|source| - 1] == '#'
    ensures RevisionIs(source, None, Some("")) && '#' in source
    ensures forall rev :: RevisionIs(source, rev, Some(""))
  {
    assert LastHash(source, |source| - 1) && source[|source| - 1 + 1..] == "";
  }

  lemma RevisionOnce(source: string, rev: Option<string>, a: Option<string>, b: Option<string>)
    requires RevisionIs(source, rev, a) && RevisionIs(source, rev, b)
    ensures a == b
  {
  }

  lemma {:induction false} SlashesAre(path: string)
    ensures |L.Slashes(path)| == |path|
    ensures forall i | 0 <= i < |path| :: L.Slashes(path)[i] == if path[i] == '\\' then '/' else path[i]
  {
    if path != "" {
      SlashesAre(path[1..]);
      var s := L.Slashes(path);
      assert s == [if path[0] == '\\' then '/' else path[0]] + L.Slashes(path[1..]);
      forall i | 0 <= i < |path| ensures s[i] == if path[i] == '\\' then '/' else path[i] {
        if i > 0 { assert path[i] == path[1..][i - 1]; }
      }
    }
  }

  lemma SlashedIs(path: string, s: string)
    ensures Slashed(path, s) <==> s == L.Slashes(path)
  {
    SlashesAre(path);
  }

  /** Resolving a dependency gives exactly the entry and the directory that account for it. */
  lemma {:induction false} ResolvesToAccount(w: World, x: Edge, root: Root, e: L.Dependency)
    ensures ResolveOne(w, x.owner, x.dep) == Ok(Found(root, e)) <==> Accounts(w, x, root, e)
  {
    match x.dep.requirement
    case Path(path, _) =>
      if e.path.Some? { SlashedIs(path, e.path.value); }
      SlashedIs(path, L.Slashes(path));
    case Version(_) =>
    case Git(_, rev, _, _, _) =>
      var cached := w.git(x.dep.name, x.dep.requirement);
      if cached.Some? {
        RevisionOf(cached.value.source, rev);
        if RevisionIs(cached.value.source, rev, e.revision) {
          RevisionOnce(cached.value.source, rev, e.revision, Revision(cached.value.source, rev));
        }
      }
  }

  // ---------------------------------------------------------------------------
  // Why a package is there
  // ---------------------------------------------------------------------------

  /** The package of one dependency asks for the next. */
  ghost predicate Asks(w: World, x: Edge, y: Edge) {
    y.owner in w.packages && (exists e :: Accounts(w, x, y.owner, e)) && y.dep in w.packages[y.owner].dependencies
  }

  /** A chain of dependencies, from one of the root's own. */
  ghost predicate Chain(w: World, root: Root, deps: seq<Wanted>, chain: seq<Edge>) {
    && chain != [] && chain[0].owner == root && chain[0].dep in deps
    && forall i | 0 <= i < |chain| - 1 :: Asks(w, chain[i], chain[i + 1])
  }

  ghost predicate Chained(w: World, root: Root, deps: seq<Wanted>, x: Edge) {
    exists chain :: Chain(w, root, deps, chain) && chain[|chain| - 1] == x
  }

  lemma {:induction false} ChainReaches(w: World, root: Root, deps: seq<Wanted>, chain: seq<Edge>)
    requires Chain(w, root, deps, chain)
    ensures Reachable(w, root, deps, chain[|chain| - 1]) && chain[|chain| - 1] in AllEdges(w, root, deps)
  {
    hide Accounts, ResolveOne;
    var x := chain[|chain| - 1];
    if |chain| == 1 {
      ReachableStarts(w, root, deps, x.dep);
      assert x == Edge(root, x.dep);
    } else {
      var front := chain[..|chain| - 1];
      ChainReaches(w, root, deps, front);
      var y := front[|front| - 1];
      assert Asks(w, chain[|chain| - 2], chain[|chain| - 1]);
      var e :| Accounts(w, y, x.owner, e);
      ResolvesToAccount(w, y, x.owner, e);
      ReachableFollows(w, root, deps, y, x.dep);
      assert x == Edge(x.owner, x.dep);
    }
  }

  lemma ChainGrows(w: World, root: Root, deps: seq<Wanted>, x: Edge, y: Edge)
    requires Chained(w, root, deps, x) && Asks(w, x, y)
    ensures Chained(w, root, deps, y)
  {
    hide Asks;
    var chain :| Chain(w, root, deps, chain) && chain[|chain| - 1] == x;
    var longer := chain + [y];
    assert Chain(w, root, deps, longer) && longer[|longer| - 1] == y;
  }

  /** The reachable dependencies are those at the end of a chain. */
  lemma {:induction false} ReachIsChained(w: World, root: Root, deps: seq<Wanted>, x: Edge)
    ensures x in Reach(w, root, deps) <==> Chained(w, root, deps, x)
  {
    hide ResolveOne, Chained;
    if Chained(w, root, deps, x) {
      ChainedReaches(w, root, deps, x);
    }
    if x in Reach(w, root, deps) {
      var all := AllEdges(w, root, deps);
      AllEdgesCover(w, root, deps);
      var good := set y | y in all && Chained(w, root, deps, y);
      assert Starts(root, deps, good) by {
        forall d | d in deps ensures Edge(root, d) in good { ChainStarts(w, root, deps, d); }
      }
      forall y | y in good ensures var r := ResolveOne(w, y.owner, y.dep); r.Ok? ==> Holds(w, r.value.root, good) {
        var r := ResolveOne(w, y.owner, y.dep);
        if r.Ok? {
          assert Holds(w, r.value.root, all);
          forall d | d in w.packages[r.value.root].dependencies ensures Edge(r.value.root, d) in good {
            ResolvedAsks(w, y, r.value.root, r.value.entry, d);
            ChainGrows(w, root, deps, y, Edge(r.value.root, d));
          }
        }
      }
      assert Follows(w, good);
    }
  }

  lemma ChainedReaches(w: World, root: Root, deps: seq<Wanted>, x: Edge)
    requires Chained(w, root, deps, x)
    ensures x in Reach(w, root, deps)
  {
    var chain :| Chain(w, root, deps, chain) && chain[|chain| - 1] == x;
    ChainReaches(w, root, deps, chain);
  }

  lemma ChainStarts(w: World, root: Root, deps: seq<Wanted>, d: Wanted)
    requires d in deps
    ensures Chained(w, root, deps, Edge(root, d))
  {
    assert Chain(w, root, deps, [Edge(root, d)]);
  }

  lemma ResolvedAsks(w: World, x: Edge, root: Root, e: L.Dependency, d: Wanted)
    requires ResolveOne(w, x.owner, x.dep) == Ok(Found(root, e)) && d in w.packages[root].dependencies
    ensures Asks(w, x, Edge(root, d))
  {
    ResolvesToAccount(w, x, root, e);
  }

  /** Every entry of a resolved lock is accounted for, in every field, by a dependency at the end of a chain from the root. */
  ghost predicate Accounted(w: World, root: Root, deps: seq<Wanted>, e: L.Dependency) {
    exists x, dir :: Chained(w, root, deps, x) && Accounts(w, x, dir, e)
  }

  lemma EntriesAreAccounted(w: World, root: Root, m: Manifest)
    requires ResolveLock(w, root, m).Ok?
    ensures
      var lock := ResolveLock(w, root, m).value;
      forall i | 0 <= i < |lock.dependencies| :: Accounted(w, root, m.dependencies, lock.dependencies[i])
  {
    hide ResolveOne, Reach, Chained, ResolveLock, Accounts;
    LockIsReach(w, root, m);
    var lock, edges := ResolveLock(w, root, m).value, Reach(w, root, m.dependencies);
    forall i | 0 <= i < |lock.dependencies| ensures Accounted(w, root, m.dependencies, lock.dependencies[i]) {
      var e := lock.dependencies[i];
      assert Locks(w, edges, e);
      var x :| x in edges && Gives(w, x, e);
      ReachIsChained(w, root, m.dependencies, x);
      ResolvesToAccount(w, x, ResolveOne(w, x.owner, x.dep).value.root, e);
    }
  }

  // ---------------------------------------------------------------------------
  // Writing the lock and reading it back
  // ---------------------------------------------------------------------------

  predicate PlainOption(s: Option<string>) { s.Some? ==> Plain(s.value) }

  predicate PlainWanted(d: Wanted) {
    match d.requirement
    case Path(path, _) => Plain(path)
    case Version(_) => true
    case Git(url, rev, _, _, _) => Plain(url) && PlainOption(rev)
  }

  predicate PlainManifest(m: Manifest) {
    Plain(m.name) && Plain(m.version) && forall d | d in m.dependencies :: PlainWanted(d)
  }

  predicate LowerDigest(s: string) { |s| == 64 && forall i | 0 <= i < 64 :: LowerHexDigit(s[i]) }

  predicate CleanFetched(f: Fetched) { Plain(f.source) && LowerDigest(f.digest) }

  /** No string the world hands out holds a newline, and its digests are lower-case hexadecimal. */
  ghost predicate CleanWorld(w: World) {
    && (forall root | root in w.packages :: PlainManifest(w.packages[root]))
    && (forall name, version :: w.registry(name, version).Some? ==> CleanFetched(w.registry(name, version).value))
    && (forall name, d :: w.git(name, d).Some? ==> CleanFetched(w.git(name, d).value))
    && (forall root :: w.digest(root).Some? ==> LowerDigest(w.digest(root).value))
    && (forall root :: PlainOption(w.identity(root)))
  }

  lemma AccountedIsClean(w: World, x: Edge, root: Root, e: L.Dependency)
    requires CleanWorld(w) && PlainWanted(x.dep) && Accounts(w, x, root, e)
    ensures PlainDependency(e) && LowerDigest(e.digest)
  {
    LowerIsPlain(e.digest);
    assert PlainManifest(w.packages[root]);
    match x.dep.requirement
    case Path(path, _) => assert PlainOption(w.identity(root));
    case Version(version) => assert CleanFetched(w.registry(x.dep.name, version).value);
    case Git(_, _, _, _, _) => assert CleanFetched(w.git(x.dep.name, x.dep.requirement).value);
  }

  lemma LowerIsPlain(s: string)
    ensures LowerDigest(s) ==> Plain(s)
  {
  }

  /** The dependencies along a chain are those of manifests on disk, or the root's own. */
  lemma ChainedIsPlain(w: World, root: Root, m: Manifest, x: Edge)
    requires CleanWorld(w) && PlainManifest(m) && Chained(w, root, m.dependencies, x)
    ensures PlainWanted(x.dep)
  {
    hide ResolveOne;
    ChainedReaches(w, root, m.dependencies, x);
    var edges := AllEdges(w, root, m.dependencies);
    assert x in edges;
    if x.dep !in m.dependencies { assert PlainManifest(w.packages[x.owner]); }
  }

  /** From manifests to text and back: in a clean world, the lock that is written is the lock that is read. */
  lemma ResolvedLockRoundTrips(w: World, root: Root, m: Manifest)
    requires CleanWorld(w) && PlainManifest(m) && ResolveLock(w, root, m).Ok?
    ensures var lock := ResolveLock(w, root, m).value; L.Parse(L.Render(lock)) == Ok(lock)
  {
    hide ResolveOne, Chained, Accounts, CleanWorld, LowerHexDigit, Plain, ResolveLock, L.Parse, L.Render;
    var lock := ResolveLock(w, root, m).value;
    EntriesAreAccounted(w, root, m);
    LockIsReach(w, root, m);
    forall i | 0 <= i < |lock.dependencies| ensures PlainDependency(lock.dependencies[i]) && LowerDigest(lock.dependencies[i].digest) {
      var e := lock.dependencies[i];
      assert Accounted(w, root, m.dependencies, e);
      var x, dir :| Chained(w, root, m.dependencies, x) && Accounts(w, x, dir, e);
      ChainedIsPlain(w, root, m, x);
      AccountedIsClean(w, x, dir, e);
    }
    LockRoundTrips(lock);
  }
}
