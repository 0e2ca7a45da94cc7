/**
  Publication into a file registry: a lock file created exclusively, the package moved into
  place, then both indexes read, extended and replaced. One file operation per step.
*/
module RegistryPublish {
  import opened Wrappers
  import opened VersionsIndex
  import opened GlobalIndex
  import S = Sorting

  datatype Job = Job(name: string, version: string)

  /** The lock file; it is stale once older than the limit. */
  datatype Lock = Lock(holder: nat, stale: bool)

  /** A publisher that ends early leaves an orphan if its package was placed but not listed. */
  datatype Phase =
    | Waiting | SawStale
    | Holding | Placed | HasVersions(versions: seq<string>) | Listed | HasIndex(index: Index) | Indexed
    | Finished | Failed(orphan: bool) | Crashed(orphan: bool)

  /** The registry's files. `listed` and `indexed` record whose index updates went through. */
  datatype State = State(
    lock: Option<Lock>,
    placed: set<Job>, listed: set<Job>, indexed: set<Job>,
    versions: map<string, string>, index: Option<string>,
    phases: map<nat, Phase>)

  predicate Critical(x: Phase) {
    x.Holding? || x.Placed? || x.HasVersions? || x.Listed? || x.HasIndex? || x.Indexed?
  }

  predicate Unlisted(x: Phase) { x.Placed? || x.HasVersions? }

  // ---------------------------------------------------------------------------
  // Steps
  // ---------------------------------------------------------------------------

  function ReadVersions(s: State, name: string): Result<seq<string>, IndexError> {
    if name in s.versions then ParseVersions(s.versions[name]) else Ok([])
  }

  function ReadIndex(s: State): Index {
    match s.index case None => map[] case Some(text) => Parse(text)
  }

  ghost predicate IsIndexText(text: string, index: Index) {
    forall names | NamesOf(names, index) :: text == Print(names, index)
  }

  function Unlock(s: State): State { s.(lock := None) }

  /** What publisher `p`, at phase `x`, may do to the files, and its next phase. */
  ghost predicate Works(s: State, p: nat, job: Job, x: Phase, t: State, y: Phase) {
    match x
    case Waiting =>
      || (s.lock == None && t == s.(lock := Some(Lock(p, false))) && y == Holding)
      || (s.lock.Some? && s.lock.value.stale && t == s && y == SawStale)
      || (s.lock.Some? && t == s && y == Failed(false))
    case SawStale => t == Unlock(s) && y == Waiting
    case Holding =>
      if job in s.placed then t == Unlock(s) && y == Failed(false)
      else t == s.(placed := s.placed + {job}) && y == Placed
    case Placed =>
      (match ReadVersions(s, job.name)
       case Err(_) => t == Unlock(s) && y == Failed(true)
       case Ok(versions) => t == s && y == HasVersions(versions))
    case HasVersions(versions) =>
      && t == s.(versions := s.versions[job.name := PrintVersions(AddVersion(versions, job.version))], listed := s.listed + {job})
      && y == Listed
    case Listed => t == s && y == HasIndex(ReadIndex(s))
    case HasIndex(index) =>
      && t.index.Some? && IsIndexText(t.index.value, AddToIndex(index, job.name, job.version))
      && t == s.(index := t.index, indexed := s.indexed + {job}) && y == Indexed
    case Indexed => t == Unlock(s) && y == Finished
    case _ => false
  }

  /** An error releases the lock on the way out; a crash leaves it. */
  predicate Stops(s: State, x: Phase, t: State, y: Phase) {
    || (Critical(x) && t == Unlock(s) && y == Failed(Unlisted(x)))
    || ((Critical(x) || x.Waiting? || x.SawStale?) && t == s && y == Crashed(Unlisted(x)))
  }

  ghost predicate Moves(jobs: map<nat, Job>, s: State, t: State, p: nat, files: State, y: Phase) {
    && p in jobs && p in s.phases && t == files.(phases := s.phases[p := y])
    && (Works(s, p, jobs[p], s.phases[p], files, y) || Stops(s, s.phases[p], files, y))
  }

  predicate Ages(s: State, t: State) {
    s.lock.Some? && t == s.(lock := Some(s.lock.value.(stale := true)))
  }

  ghost predicate Step(jobs: map<nat, Job>, s: State, t: State) {
    (exists p, files, y :: Moves(jobs, s, t, p, files, y)) || Ages(s, t)
  }

  ghost predicate Run(jobs: map<nat, Job>, states: seq<State>) {
    && states != []
    && (exists phases: map<nat, Phase> | phases.Keys == jobs.Keys ::
          (forall p | p in jobs :: phases[p] == Waiting) && states[0] == State(None, {}, {}, {}, map[], None, phases))
    && (forall p | p in jobs :: ValidName(jobs[p].name) && ValidVersion(jobs[p].version))
    && forall i | 0 <= i < |states| - 1 :: Step(jobs, states[i], states[i + 1])
  }

  /** No lock is ever held past the limit. */
  predicate Fresh(s: State) { s.lock.Some? ==> !s.lock.value.stale }

  // ---------------------------------------------------------------------------
  // The invariant
  // ---------------------------------------------------------------------------

  ghost predicate Good(versions: seq<string>, expected: set<string>) {
    SafeVersions(versions) && S.Distinct(versions) && S.Sorted(VersionLe, versions) && Elements(versions) == expected
  }

  function Of(jobs: set<Job>, name: string): set<string> {
    set j | j in jobs && j.name == name :: j.version
  }

  /** `versions.json` of a package: absent, or exactly the listed versions. */
  ghost predicate VersionsOk(s: State, name: string) {
    ReadVersions(s, name).Ok? && Good(ReadVersions(s, name).value, Of(s.listed, name))
  }

  ghost predicate IndexOk(s: State) {
    && (forall name | name in ReadIndex(s) :: Safe(name))
    && (forall name :: Good(Get(ReadIndex(s), name), Of(s.indexed, name)))
  }

  ghost predicate PhaseOk(s: State, p: nat, job: Job, x: Phase) {
    && !x.SawStale?
    && (Critical(x) ==> s.lock.Some? && s.lock.value.holder == p)
    && (x.HasVersions? ==> ReadVersions(s, job.name) == Ok(x.versions))
    && (x.HasIndex? ==> x.index == ReadIndex(s))
    && (Unlisted(x) || x.Listed? || x.HasIndex? ==> job in s.placed)
    && (x.Listed? || x.HasIndex? ==> job in s.listed)
  }

  predicate Pending(x: Phase) {
    Unlisted(x) || (x.Failed? && x.orphan) || (x.Crashed? && x.orphan)
  }

  ghost predicate SetsOk(jobs: map<nat, Job>, s: State) {
    && s.indexed <= s.listed <= s.placed
    && forall j | j in s.placed && j !in s.listed :: Excused(jobs, s, j)
  }

  /** Somebody placed the package and has not listed it. */
  ghost predicate Excused(jobs: map<nat, Job>, s: State, j: Job) {
    exists p :: p in jobs && p in s.phases && jobs[p] == j && Pending(s.phases[p])
  }

  ghost predicate Inv(jobs: map<nat, Job>, s: State) {
    && s.phases.Keys == jobs.Keys
    && (forall p | p in jobs :: PhaseOk(s, p, jobs[p], s.phases[p]))
    && (forall name :: VersionsOk(s, name))
    && IndexOk(s) && SetsOk(jobs, s)
  }

  // ---------------------------------------------------------------------------
  // Updates
  // ---------------------------------------------------------------------------

  lemma ValidIsSafe(text: string)
    requires ValidName(text) || ValidVersion(text)
    ensures Safe(text) && (ValidVersion(text) ==> Plain(text))
  {
    ValidNamesAndVersions(text);
    if ValidVersion(text) { ValidVersionIsPlain(text); }
  }

  lemma AddKeepsGood(versions: seq<string>, expected: set<string>, v: string)
    requires Good(versions, expected) && ValidVersion(v)
    ensures Good(AddVersion(versions, v), expected + {v})
  {
    hide VersionLe, Plain, Safe, ValidVersion, AddVersion;
    AddVersionKeeps(versions, v);
    ValidIsSafe(v);
    var after := AddVersion(versions, v);
    forall i | 0 <= i < |after| ensures Plain(after[i]) && Safe(after[i]) {
      assert after[i] in Elements(after);
      assert after[i] == v || after[i] in versions;
    }
  }

  lemma VersionsUpdate(s: State, t: State, versions: seq<string>, job: Job)
    requires ReadVersions(s, job.name) == Ok(versions) && ValidVersion(job.version) && VersionsOk(s, job.name)
    requires t.versions == s.versions[job.name := PrintVersions(AddVersion(versions, job.version))] && t.listed == s.listed + {job}
    ensures VersionsOk(t, job.name)
  {
    hide AddVersion, ParseVersions, PrintVersions, Good;
    AddKeepsGood(versions, Of(s.listed, job.name), job.version);
    var after := AddVersion(versions, job.version);
    GoodIsPlain(after, Of(s.listed, job.name) + {job.version});
    PrintedVersionsParse(after);
    assert Of(t.listed, job.name) == Of(s.listed, job.name) + {job.version};
  }

  lemma GoodIsPlain(versions: seq<string>, expected: set<string>)
    requires Good(versions, expected)
    ensures AllPlain(versions)
  {
  }

  lemma VersionsElsewhere(s: State, t: State, job: Job, name: string)
    requires VersionsOk(s, name) && name != job.name
    requires job.name in t.versions && t.versions == s.versions[job.name := t.versions[job.name]] && t.listed == s.listed + {job}
    ensures VersionsOk(t, name)
  {
    assert Of(t.listed, name) == Of(s.listed, name);
  }

  lemma {:induction false} SetToNames(left: set<string>) returns (names: seq<string>)
    ensures S.Distinct(names) && Elements(names) == left
  {
    if left == {} {
      names := [];
    } else {
      var n :| n in left;
      var rest := SetToNames(left - {n});
      names := [n] + rest;
      assert Elements(names) == {n} + Elements(rest) && n !in Elements(rest);
    }
  }

  lemma NamesExist(index: Index) returns (names: seq<string>)
    ensures NamesOf(names, index)
  {
    var any := SetToNames(index.Keys);
    SortNames(any);
    names := S.Sort(S.Lex, any);
  }

  /** The text written for an index with safe contents reads back as the index. */
  lemma IndexTextParses(text: string, index: Index)
    requires IsIndexText(text, index)
    requires forall n | n in index :: Safe(n) && SafeVersions(index[n])
    ensures Parse(text) == index
  {
    hide Parse, Print, Safe, SafeVersions;
    var names := NamesExist(index);
    forall n | n in names ensures n in index { assert n in Elements(names); }
    forall n | n in index ensures n in names { assert n in Elements(names); }
    PrintedIndexParses(names, index);
  }

  lemma IndexUpdate(s: State, t: State, job: Job)
    requires IndexOk(s) && ValidName(job.name) && ValidVersion(job.version)
    requires t.index.Some? && IsIndexText(t.index.value, AddToIndex(ReadIndex(s), job.name, job.version))
    requires t.indexed == s.indexed + {job}
    ensures IndexOk(t)
  {
    hide Parse, Print, Safe, Good, AddVersion, IsIndexText;
    var before, after := ReadIndex(s), AddToIndex(ReadIndex(s), job.name, job.version);
    AddKeepsGood(Get(before, job.name), Of(s.indexed, job.name), job.version);
    forall name ensures Good(Get(after, name), Of(t.indexed, name)) {
      assert Of(t.indexed, name) == if name == job.name then Of(s.indexed, name) + {job.version} else Of(s.indexed, name);
      assert Good(Get(before, name), Of(s.indexed, name));
    }
    ValidIsSafe(job.name);
    forall n | n in after ensures Safe(n) && SafeVersions(after[n]) {
      GoodIsSafe(after[n], Of(t.indexed, n));
    }
    IndexTextParses(t.index.value, after);
  }

  lemma GoodIsSafe(versions: seq<string>, expected: set<string>)
    ensures Good(versions, expected) ==> SafeVersions(versions)
  {
  }

  // ---------------------------------------------------------------------------
  // Every step, while no lock is stale
  // ---------------------------------------------------------------------------

  /** The files a publisher's work leaves alone are read the same. */
  lemma SameFiles(s: State, t: State)
    requires t.versions == s.versions && t.listed == s.listed && t.index == s.index && t.indexed == s.indexed
    ensures forall name :: VersionsOk(s, name) <==> VersionsOk(t, name)
    ensures IndexOk(s) <==> IndexOk(t)
  {
  }

  /** The acting publisher's own obligations, and what happened to the files. */
  lemma WorkKeeps(s: State, p: nat, job: Job, x: Phase, t: State, y: Phase)
    requires Fresh(s) && PhaseOk(s, p, job, x) && Works(s, p, job, x, t, y) && s.indexed <= s.listed <= s.placed
    requires VersionsOk(s, job.name)
    ensures PhaseOk(t, p, job, y) && t.phases == s.phases
    ensures Critical(x) || t == s || (s.lock == None && t == s.(lock := t.lock))
    ensures x.HasVersions? || (t.versions == s.versions && t.listed == s.listed)
    ensures x.HasIndex? || (t.index == s.index && t.indexed == s.indexed)
    ensures t.placed == s.placed || (x.Holding? && y.Placed? && t.placed == s.placed + {job})
    ensures t.indexed <= t.listed <= t.placed && s.listed <= t.listed
    ensures Pending(x) && !Pending(y) ==> job in t.listed
  {
    hide Parse, ParseVersions, IsIndexText, AddVersion, AddToIndex, Good, PrintVersions;
  }

  lemma WorkKeepsFiles(s: State, p: nat, job: Job, x: Phase, t: State, y: Phase)
    requires (forall name :: VersionsOk(s, name)) && IndexOk(s) && ValidName(job.name) && ValidVersion(job.version)
    requires PhaseOk(s, p, job, x) && Works(s, p, job, x, t, y) && Fresh(s) && s.indexed <= s.listed <= s.placed
    ensures (forall name :: VersionsOk(t, name)) && IndexOk(t)
  {
    hide VersionsOk, IndexOk, IsIndexText, AddVersion, AddToIndex, PrintVersions, Parse, ParseVersions, ValidName, ValidVersion;
    assert VersionsOk(s, job.name);
    WorkKeeps(s, p, job, x, t, y);
    if x.HasVersions? {
      VersionsUpdate(s, t, x.versions, job);
      forall name ensures VersionsOk(t, name) {
        assert VersionsOk(s, name);
        if name != job.name { VersionsElsewhere(s, t, job, name); }
      }
      SameIndex(s, t);
    } else if x.HasIndex? {
      IndexUpdate(s, t, job);
      SameVersions(s, t);
    } else {
      SameFiles(s, t);
    }
  }

  lemma SameIndex(s: State, t: State)
    requires t.index == s.index && t.indexed == s.indexed && IndexOk(s)
    ensures IndexOk(t)
  {
    hide Good, Parse;
    assert ReadIndex(t) == ReadIndex(s);
    forall name ensures Good(Get(ReadIndex(t), name), Of(t.indexed, name)) {
      assert Good(Get(ReadIndex(s), name), Of(s.indexed, name));
    }
  }

  lemma SameVersions(s: State, t: State)
    requires t.versions == s.versions && t.listed == s.listed && forall name :: VersionsOk(s, name)
    ensures forall name :: VersionsOk(t, name)
  {
    hide Good, ParseVersions;
    forall name ensures VersionsOk(t, name) { assert VersionsOk(s, name); }
  }

  lemma OthersKeep(s: State, t: State, q: nat, job: Job, x: Phase)
    requires PhaseOk(s, q, job, x) && s.placed <= t.placed && s.listed <= t.listed
    requires !Critical(x) || (t.lock == s.lock && t.versions == s.versions && t.index == s.index)
    ensures PhaseOk(t, q, job, x)
  {
    hide ParseVersions, Parse;
  }

  lemma ExcusedAfter(jobs: map<nat, Job>, s: State, p: nat, y: Phase, files: State, t: State, j: Job)
    requires s.phases.Keys == jobs.Keys && p in jobs && t == files.(phases := s.phases[p := y])
    requires Excused(jobs, s, j) && (j == jobs[p] && Pending(s.phases[p]) ==> Pending(y))
    ensures Excused(jobs, t, j)
  {
    var q :| q in jobs && q in s.phases && jobs[q] == j && Pending(s.phases[q]);
    assert jobs[q] == j && Pending(t.phases[q]);
  }

  lemma MoveKeepsSets(jobs: map<nat, Job>, s: State, t: State, p: nat, files: State, y: Phase)
    requires SetsOk(jobs, s) && s.phases.Keys == jobs.Keys && p in jobs && t == files.(phases := s.phases[p := y])
    requires t.indexed <= t.listed <= t.placed && s.listed <= t.listed
    requires t.placed == s.placed || (Pending(y) && t.placed == s.placed + {jobs[p]})
    requires Pending(s.phases[p]) && !Pending(y) ==> jobs[p] in t.listed
    ensures SetsOk(jobs, t)
  {
    hide Excused;
    forall j | j in t.placed && j !in t.listed ensures Excused(jobs, t, j) {
      if j in s.placed {
        ExcusedAfter(jobs, s, p, y, files, t, j);
      } else {
        ExcusedBy(jobs, t, p);
      }
    }
  }

  lemma ExcusedBy(jobs: map<nat, Job>, t: State, p: nat)
    requires p in jobs && p in t.phases && Pending(t.phases[p])
    ensures Excused(jobs, t, jobs[p])
  {
  }

  /** Only the holder of the lock is critical, so nobody else's reading goes out of date. */
  lemma MoveKeepsPhases(jobs: map<nat, Job>, s: State, t: State, p: nat, files: State, y: Phase)
    requires Inv(jobs, s) && p in jobs && t == files.(phases := s.phases[p := y]) && PhaseOk(files, p, jobs[p], y)
    requires s.placed <= files.placed && s.listed <= files.listed
    requires Critical(s.phases[p]) || files == s || (s.lock == None && files == s.(lock := files.lock))
    ensures forall q | q in jobs :: PhaseOk(t, q, jobs[q], t.phases[q])
  {
    hide VersionsOk, IndexOk, SetsOk, ParseVersions, Parse;
    forall q | q in jobs ensures PhaseOk(t, q, jobs[q], t.phases[q]) {
      if q == p { SamePhaseOk(files, t, p, jobs[p], y); } else { OthersKeep(s, t, q, jobs[q], s.phases[q]); }
    }
  }

  lemma SamePhaseOk(files: State, t: State, p: nat, job: Job, y: Phase)
    requires PhaseOk(files, p, job, y) && t == files.(phases := t.phases)
    ensures PhaseOk(t, p, job, y)
  {
  }

  lemma StepKeeps(jobs: map<nat, Job>, s: State, t: State)
    requires Inv(jobs, s) && Step(jobs, s, t) && Fresh(s) && Fresh(t)
    requires forall p | p in jobs :: ValidName(jobs[p].name) && ValidVersion(jobs[p].version)
    ensures Inv(jobs, t)
  {
    hide VersionsOk, IndexOk, Works, ValidName, ValidVersion, SetsOk, PhaseOk, ReadVersions;
    var p, files, y :| Moves(jobs, s, t, p, files, y);
    var x := s.phases[p];
    SetsAreNested(jobs, s);
    if Works(s, p, jobs[p], x, files, y) {
      assert VersionsOk(s, jobs[p].name);
      WorkKeeps(s, p, jobs[p], x, files, y);
      WorkKeepsFiles(s, p, jobs[p], x, files, y);
    } else {
      StopKeeps(s, p, jobs[p], x, files, y);
      SameFiles(s, files);
    }
    MoveKeepsSets(jobs, s, t, p, files, y);
    MoveKeepsPhases(jobs, s, t, p, files, y);
    SameFiles(files, t);
  }

  lemma SetsAreNested(jobs: map<nat, Job>, s: State)
    requires SetsOk(jobs, s)
    ensures s.indexed <= s.listed <= s.placed
  {
  }

  lemma StopKeeps(s: State, p: nat, job: Job, x: Phase, t: State, y: Phase)
    requires PhaseOk(s, p, job, x) && Stops(s, x, t, y)
    ensures PhaseOk(t, p, job, y) && t == s.(lock := t.lock) && (Pending(x) ==> Pending(y))
    ensures Critical(x) || t == s
  {
  }

  // ---------------------------------------------------------------------------
  // Every run
  // ---------------------------------------------------------------------------

  lemma {:induction false} RunKeeps(jobs: map<nat, Job>, states: seq<State>, i: nat)
    requires Run(jobs, states) && i < |states| && forall k | 0 <= k < |states| :: Fresh(states[k])
    ensures Inv(jobs, states[i])
  {
    hide Step, Inv;
    if i == 0 {
      StartKeeps(jobs, states[0]);
    } else {
      RunKeeps(jobs, states, i - 1);
      StepKeeps(jobs, states[i - 1], states[i]);
    }
  }

  lemma StartKeeps(jobs: map<nat, Job>, s: State)
    requires s == State(None, {}, {}, {}, map[], None, s.phases) && s.phases.Keys == jobs.Keys && forall p | p in jobs :: s.phases[p] == Waiting
    ensures Inv(jobs, s)
  {
    forall name ensures VersionsOk(s, name) { NothingIsGood(name); }
    forall name ensures Good(Get(ReadIndex(s), name), Of(s.indexed, name)) { NothingIsGood(name); }
  }

  lemma NothingIsGood(name: string)
    ensures Good([], Of({}, name))
  {
    assert Of({}, name) == {} && Elements([]) == {};
  }

  /** While no lock outlives the limit, at most one publisher is between taking and releasing it. */
  lemma LockExcludes(jobs: map<nat, Job>, states: seq<State>, i: nat, p: nat, q: nat)
    requires Run(jobs, states) && i < |states| && forall k | 0 <= k < |states| :: Fresh(states[k])
    requires p in jobs && p in states[i].phases && Critical(states[i].phases[p])
    requires q in jobs && q in states[i].phases && Critical(states[i].phases[q])
    ensures p == q
  {
    hide VersionsOk, IndexOk, SetsOk;
    RunKeeps(jobs, states, i);
    assert PhaseOk(states[i], p, jobs[p], states[i].phases[p]) && PhaseOk(states[i], q, jobs[q], states[i].phases[q]);
  }

  /**
    Over any interleaving of publishers, `versions.json` and the global index lose nothing:
    each holds, sorted and once, the versions whose update went through, a greatest one last.
  */
  lemma IndexesLoseNothing(jobs: map<nat, Job>, states: seq<State>, i: nat, name: string)
    requires Run(jobs, states) && i < |states| && forall k | 0 <= k < |states| :: Fresh(states[k])
    ensures
      var s := states[i];
      && ReadVersions(s, name).Ok?
      && var versions := ReadVersions(s, name).value;
      && Elements(versions) == Of(s.listed, name) && S.Distinct(versions) && S.Sorted(VersionLe, versions)
      && (forall v | v in versions :: VersionLe(v, versions[|versions| - 1]))
      && var indexed := Get(ReadIndex(s), name);
      && Elements(indexed) == Of(s.indexed, name) && S.Distinct(indexed) && S.Sorted(VersionLe, indexed)
      && (forall v | v in indexed :: VersionLe(v, indexed[|indexed| - 1]))
      && s.indexed <= s.listed <= s.placed
  {
    hide ParseVersions, Parse, VersionLe;
    RunKeeps(jobs, states, i);
    var s := states[i];
    assert VersionsOk(s, name) && Good(Get(ReadIndex(s), name), Of(s.indexed, name));
    LastIsGreatest(ReadVersions(s, name).value);
    LastIsGreatest(Get(ReadIndex(s), name));
  }

  /** Whatever is placed is listed, unless its publisher is at it or stopped in between. */
  lemma PlacedIsListed(jobs: map<nat, Job>, states: seq<State>, i: nat, j: Job)
    requires Run(jobs, states) && i < |states| && forall k | 0 <= k < |states| :: Fresh(states[k])
    requires j in states[i].placed
    ensures j in states[i].listed || Excused(jobs, states[i], j)
  {
    RunKeeps(jobs, states, i);
  }

  // ---------------------------------------------------------------------------
  // An orphan stays one
  // ---------------------------------------------------------------------------

  /** The package is placed, not listed, and nobody is about to list it. */
  ghost predicate Orphan(jobs: map<nat, Job>, s: State, j: Job) {
    && j in s.placed && j !in s.listed
    && forall p | p in jobs && p in s.phases && jobs[p] == j :: !Unlisted(s.phases[p])
  }

  lemma OrphanStays(jobs: map<nat, Job>, s: State, t: State, j: Job)
    requires Step(jobs, s, t) && Orphan(jobs, s, j)
    ensures Orphan(jobs, t, j)
  {
    hide Works, Stops;
    if !Ages(s, t) {
      var p, files, y :| Moves(jobs, s, t, p, files, y);
      MoveEffects(s, p, jobs[p], s.phases[p], files, y);
      if jobs[p] == j { assert !Unlisted(s.phases[p]); }
    }
  }

  /** On the way to the global index. */
  predicate Indexing(x: Phase) { Unlisted(x) || x.Listed? || x.HasIndex? }

  /** What a move does to the sets of jobs, and how a publisher gets on its way. */
  lemma MoveEffects(s: State, p: nat, job: Job, x: Phase, t: State, y: Phase)
    requires Works(s, p, job, x, t, y) || Stops(s, x, t, y)
    ensures s.placed <= t.placed && t.phases == s.phases
    ensures t.listed == s.listed || (Unlisted(x) && t.listed == s.listed + {job})
    ensures t.indexed == s.indexed || (Indexing(x) && t.indexed == s.indexed + {job})
    ensures Unlisted(y) ==> Unlisted(x) || job !in s.placed
    ensures Indexing(y) ==> Indexing(x) || job !in s.placed
  {
    hide ParseVersions, Parse, IsIndexText, AddVersion, AddToIndex, PrintVersions;
  }

  /** Retrying does not help: a version whose publisher stopped in between never gets listed. */
  lemma {:induction false} OrphanIsNeverListed(jobs: map<nat, Job>, states: seq<State>, i: nat, k: nat, j: Job)
    requires Run(jobs, states) && i <= k < |states| && Orphan(jobs, states[i], j)
    ensures Orphan(jobs, states[k], j)
    decreases k - i
  {
    hide Step, Orphan;
    if i < k {
      OrphanIsNeverListed(jobs, states, i, k - 1, j);
      OrphanStays(jobs, states[k - 1], states[k], j);
    }
  }

  /** The package is placed, not in the global index, and nobody is about to put it there. */
  ghost predicate Unindexed(jobs: map<nat, Job>, s: State, j: Job) {
    && j in s.placed && j !in s.indexed
    && forall p | p in jobs && p in s.phases && jobs[p] == j :: !Indexing(s.phases[p])
  }

  lemma UnindexedStays(jobs: map<nat, Job>, s: State, t: State, j: Job)
    requires Step(jobs, s, t) && Unindexed(jobs, s, j)
    ensures Unindexed(jobs, t, j)
  {
    hide Works, Stops;
    if !Ages(s, t) {
      var p, files, y :| Moves(jobs, s, t, p, files, y);
      MoveEffects(s, p, jobs[p], s.phases[p], files, y);
      if jobs[p] == j { assert !Indexing(s.phases[p]); }
    }
  }

  /** Nor does a version whose publisher stopped before the global index ever get there, listed or not. */
  lemma {:induction false} UnindexedStaysOut(jobs: map<nat, Job>, states: seq<State>, i: nat, k: nat, j: Job)
    requires Run(jobs, states) && i <= k < |states| && Unindexed(jobs, states[i], j)
    ensures Unindexed(jobs, states[k], j)
    decreases k - i
  {
    hide Step, Unindexed;
    if i < k {
      UnindexedStaysOut(jobs, states, i, k - 1, j);
      UnindexedStays(jobs, states[k - 1], states[k], j);
    }
  }

  // ---------------------------------------------------------------------------
  // Stealing a stale lock is not atomic
  // ---------------------------------------------------------------------------

  /** A publisher inside the lock or on its way to it. */
  predicate Live(x: Phase) { Critical(x) || x.Waiting? || x.SawStale? }

  ghost predicate TwoLive(jobs: map<nat, Job>, s: State) {
    exists p, q :: p != q && p in jobs && q in jobs && p in s.phases && q in s.phases && Live(s.phases[p]) && Live(s.phases[q])
  }

  ghost predicate TwoInside(jobs: map<nat, Job>, s: State) {
    exists p, q :: p != q && p in jobs && q in jobs && p in s.phases && q in s.phases && Critical(s.phases[p]) && Critical(s.phases[q])
  }

  /** A continuation by any steps, and one in which publishers act and no lock gets older. */
  ghost predicate Path(jobs: map<nat, Job>, s: State, states: seq<State>) {
    states != [] && states[0] == s && forall i | 0 <= i < |states| - 1 :: Step(jobs, states[i], states[i + 1])
  }

  ghost predicate Moved(jobs: map<nat, Job>, s: State, t: State) {
    exists p, files, y :: Moves(jobs, s, t, p, files, y)
  }

  ghost predicate Reaches(jobs: map<nat, Job>, s: State, t: State) {
    exists states: seq<State> :: states != [] && Path(jobs, s, states) && states[|states| - 1] == t
      && forall i | 0 <= i < |states| - 1 :: Moved(jobs, states[i], states[i + 1])
  }

  lemma ReachesSelf(jobs: map<nat, Job>, s: State)
    ensures Reaches(jobs, s, s)
  {
    assert Path(jobs, s, [s]);
  }

  lemma ReachesNext(jobs: map<nat, Job>, s: State, t: State, u: State)
    requires Reaches(jobs, s, t) && Moved(jobs, t, u)
    ensures Reaches(jobs, s, u)
  {
    hide Moved;
    var states: seq<State> :| states != [] && Path(jobs, s, states) && states[|states| - 1] == t
      && forall i | 0 <= i < |states| - 1 :: Moved(jobs, states[i], states[i + 1]);
    var more := states + [u];
    assert Step(jobs, t, u) by { MovedIsStep(jobs, t, u); }
    forall i | 0 <= i < |more| - 1 ensures Moved(jobs, more[i], more[i + 1]) && Step(jobs, more[i], more[i + 1]) {
      assert i < |states| - 1 ==> Moved(jobs, states[i], states[i + 1]);
    }
    assert Path(jobs, s, more);
  }

  lemma MovedIsStep(jobs: map<nat, Job>, s: State, t: State)
    requires Moved(jobs, s, t)
    ensures Step(jobs, s, t)
  {
  }

  /** Only the lock and the phase of `p` change. */
  function With(s: State, lock: Option<Lock>, p: nat, x: Phase): State { s.(lock := lock, phases := s.phases[p := x]) }

  lemma OneMove(jobs: map<nat, Job>, s: State, lock: Option<Lock>, p: nat, y: Phase)
    requires p in jobs && p in s.phases && Works(s, p, jobs[p], s.phases[p], s.(lock := lock), y)
    ensures Moved(jobs, s, With(s, lock, p, y))
  {
    assert Moves(jobs, s, With(s, lock, p, y), p, s.(lock := lock), y);
  }

  /** A waiting publisher gets to see a stale lock. */
  lemma SeesStale(jobs: map<nat, Job>, s: State, t: State, p: nat) returns (u: State)
    requires Reaches(jobs, s, t) && p in jobs && p in t.phases && (t.phases[p].Waiting? || t.phases[p].SawStale?)
    requires t.lock.Some? && t.lock.value.stale
    ensures Reaches(jobs, s, u) && u == With(t, t.lock, p, SawStale)
  {
    hide Reaches, Moved;
    u := With(t, t.lock, p, SawStale);
    if t.phases[p].Waiting? {
      OneMove(jobs, t, t.lock, p, SawStale);
      ReachesNext(jobs, s, t, u);
    } else {
      assert t.phases[p := SawStale] == t.phases;
    }
  }

  /** Once it has, it gets inside whoever holds the lock by then. */
  lemma GetsInside(jobs: map<nat, Job>, s: State, t: State, p: nat) returns (u: State)
    requires Reaches(jobs, s, t) && p in jobs && p in t.phases && t.phases[p].SawStale?
    ensures Reaches(jobs, s, u) && u == With(t, Some(Lock(p, false)), p, Holding)
  {
    hide Reaches, Moved;
    var v := With(t, None, p, Waiting);
    OneMove(jobs, t, None, p, Waiting);
    ReachesNext(jobs, s, t, v);
    u := With(v, Some(Lock(p, false)), p, Holding);
    OneMove(jobs, v, Some(Lock(p, false)), p, Holding);
    ReachesNext(jobs, s, v, u);
    assert u.phases == t.phases[p := Holding];
  }

  /** Nobody comes to life. */
  lemma {:induction false} LiveBefore(jobs: map<nat, Job>, s: State, states: seq<State>, i: nat)
    requires Path(jobs, s, states) && i < |states| && TwoLive(jobs, states[i])
    ensures TwoLive(jobs, s)
  {
    hide Step;
    if i > 0 {
      var p, q :| p != q && p in jobs && q in jobs && p in states[i].phases && q in states[i].phases && Live(states[i].phases[p]) && Live(states[i].phases[q]);
      assert Step(jobs, states[i - 1], states[i]);
      WasLive(jobs, states[i - 1], states[i], p);
      WasLive(jobs, states[i - 1], states[i], q);
      LiveBefore(jobs, s, states, i - 1);
    }
  }

  lemma WasLive(jobs: map<nat, Job>, s: State, t: State, p: nat)
    requires Step(jobs, s, t) && p in t.phases && Live(t.phases[p])
    ensures p in s.phases && Live(s.phases[p])
  {
    hide ParseVersions, Parse, IsIndexText, AddVersion, AddToIndex, PrintVersions;
    if !Ages(s, t) {
      var q, files, y :| Moves(jobs, s, t, q, files, y);
    }
  }

  /**
    From a stale lock, two publishers can end up inside at once exactly when two are alive:
    the late holder and one that waits, or two that wait; no other lock need grow old for it.
  */
  lemma TheftIsNotAtomic(jobs: map<nat, Job>, s: State)
    requires s.lock.Some? && s.lock.value.stale
    ensures (exists t :: Reaches(jobs, s, t) && TwoInside(jobs, t)) <==> TwoLive(jobs, s)
    ensures (exists states :: Path(jobs, s, states) && TwoInside(jobs, states[|states| - 1])) <==> TwoLive(jobs, s)
  {
    hide Reaches, Step, TwoInside, TwoLive;
    forall states | Path(jobs, s, states) && TwoInside(jobs, states[|states| - 1]) ensures TwoLive(jobs, s) { InsideWasLive(jobs, s, states); }
    forall t | Reaches(jobs, s, t) && TwoInside(jobs, t)
      ensures exists states :: Path(jobs, s, states) && TwoInside(jobs, states[|states| - 1])
    {
      var states := ReachesPath(jobs, s, t);
    }
    if TwoLive(jobs, s) { TwoGetInside(jobs, s); }
  }

  lemma InsideWasLive(jobs: map<nat, Job>, s: State, states: seq<State>)
    requires Path(jobs, s, states) && TwoInside(jobs, states[|states| - 1])
    ensures TwoLive(jobs, s)
  {
    hide Step;
    LiveBefore(jobs, s, states, |states| - 1);
  }

  lemma ReachesPath(jobs: map<nat, Job>, s: State, t: State) returns (states: seq<State>)
    requires Reaches(jobs, s, t)
    ensures Path(jobs, s, states) && states[|states| - 1] == t
  {
    hide Step, Moved;
    states :| states != [] && Path(jobs, s, states) && states[|states| - 1] == t
      && forall i | 0 <= i < |states| - 1 :: Moved(jobs, states[i], states[i + 1]);
  }

  lemma TwoGetInside(jobs: map<nat, Job>, s: State)
    requires s.lock.Some? && s.lock.value.stale && TwoLive(jobs, s)
    ensures exists t :: Reaches(jobs, s, t) && TwoInside(jobs, t)
  {
    hide Reaches;
    var p, q :| p != q && p in jobs && q in jobs && p in s.phases && q in s.phases && Live(s.phases[p]) && Live(s.phases[q]);
    ReachesSelf(jobs, s);
    var t := s;
    if !Critical(s.phases[p]) { t := SeesStale(jobs, s, t, p); }
    if !Critical(s.phases[q]) { t := SeesStale(jobs, s, t, q); }
    if !Critical(s.phases[p]) { t := GetsInside(jobs, s, t, p); }
    if !Critical(s.phases[q]) { t := GetsInside(jobs, s, t, q); }
    assert Critical(t.phases[p]) && Critical(t.phases[q]);
  }
}
