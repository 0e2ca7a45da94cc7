/**
  Concurrent publication into the shared package cache, one file-system operation per step.

  Any number of publishers run at once. Each reads its source twice, which may change
  meanwhile, stages a copy where nobody else looks, and moves it into place with one
  rename. A publisher may stop for good at any step.
*/
module CachePublish {
  import opened Wrappers
  import opened Text

  datatype Manifest = Manifest(name: string, version: string)

  datatype Meta = Meta(source: string, digest: string)

  /** A cache directory: its package tree and its metadata file. */
  datatype Entry<T> = Entry(tree: T, meta: Option<Meta>)

  /** How trees are read: digest, whether there is a manifest file, and what it declares. */
  datatype Reader<!T> = Reader(digest: T -> string, hasManifest: T -> bool, manifest: T -> Option<Manifest>)

  /** What a publisher was asked to do. */
  datatype Job = Job(target: string, source: string, expected: Option<string>)

  datatype Failure =
    | SourceUnreadable | LockDigestMismatch | IncompleteTarget | SourceChanged | RenameFailed
    | BadManifest | WrongPackage | MetadataMissing | SourceMismatch | DigestMismatch | LockMismatch | Crashed

  /** Where a publisher stands; `m` and `d` are the manifest and the digest it read from its source. */
  datatype Phase<T> =
    | Start
    | Loaded(m: Manifest)
    | Hashed(m: Manifest, d: string)
    | NoManifest(m: Manifest, d: string)
    | Copying(m: Manifest, d: string)
    | Staged(m: Manifest, d: string, tree: T)
    | Verified(m: Manifest, d: string, tree: T)
    | Ready(m: Manifest, d: string, entry: Entry<T>)
    | Refused(m: Manifest, d: string)
    | CheckManifest(m: Manifest, d: string)
    | CheckSource(m: Manifest, d: string)
    | CheckDigest(m: Manifest, d: string)
    | Done(result: Result<string, Failure>)

  datatype State<T> = State(cache: map<string, Entry<T>>, phases: map<nat, Phase<T>>)

  predicate EqualIgnoringCase(a: string, b: string) {
    |a| == |b| && forall i | 0 <= i < |a| :: LowerChar(a[i]) == LowerChar(b[i])
  }

  // ---------------------------------------------------------------------------
  // Steps
  // ---------------------------------------------------------------------------

  function Read<T>(m: Option<Manifest>): Phase<T> {
    if m.Some? then Loaded(m.value) else Done(Err(SourceUnreadable))
  }

  function Hash<T>(r: Reader<T>, job: Job, m: Manifest, seen: T): Phase<T> {
    var d := r.digest(seen);
    if job.expected.Some? && !EqualIgnoringCase(d, job.expected.value) then Done(Err(LockDigestMismatch))
    else Hashed(m, d)
  }

  function LookForManifest<T>(r: Reader<T>, job: Job, cache: map<string, Entry<T>>, m: Manifest, d: string): Phase<T> {
    if job.target in cache && r.hasManifest(cache[job.target].tree) then CheckManifest(m, d) else NoManifest(m, d)
  }

  function LookForTarget<T>(job: Job, cache: map<string, Entry<T>>, m: Manifest, d: string): Phase<T> {
    if job.target in cache then Done(Err(IncompleteTarget)) else Copying(m, d)
  }

  function Verify<T>(r: Reader<T>, m: Manifest, d: string, staged: T): Phase<T> {
    if r.digest(staged) != d then Done(Err(SourceChanged)) else Verified(m, d, staged)
  }

  function ReadManifest<T>(r: Reader<T>, e: Entry<T>, m: Manifest, d: string): Phase<T> {
    match r.manifest(e.tree)
    case None => Done(Err(BadManifest))
    case Some(found) => if found != m then Done(Err(WrongPackage)) else CheckSource(m, d)
  }

  function ReadSource<T>(job: Job, e: Entry<T>, m: Manifest, d: string): Phase<T> {
    if e.meta.None? then Done(Err(MetadataMissing))
    else if e.meta.value.source != job.source then Done(Err(SourceMismatch))
    else CheckDigest(m, d)
  }

  function ReadDigest<T>(r: Reader<T>, e: Entry<T>, d: string): Phase<T> {
    var actual := r.digest(e.tree);
    if e.meta.None? || e.meta.value.digest != actual then Done(Err(DigestMismatch))
    else if !EqualIgnoringCase(actual, d) then Done(Err(LockMismatch))
    else Done(Ok(actual))
  }

  /** The atomic rename: it succeeds only if there is nothing at the target, and may fail anyway. */
  ghost predicate Rename<T>(job: Job, before: map<string, Entry<T>>, e: Entry<T>, m: Manifest, d: string, cache: map<string, Entry<T>>, next: Phase<T>) {
    || (cache == before && next == Refused(m, d))
    || (job.target !in before && cache == before[job.target := e] && next == Done(Ok(d)))
  }

  function LookForWinner<T>(r: Reader<T>, job: Job, cache: map<string, Entry<T>>, m: Manifest, d: string): Phase<T> {
    if job.target in cache && r.hasManifest(cache[job.target].tree) then CheckManifest(m, d) else Done(Err(RenameFailed))
  }

  /** One operation of publisher `p`; what it reads from its source is up to the environment. */
  ghost predicate Operates<T(!new)>(r: Reader<T>, job: Job, s: State<T>, phase: Phase<T>, cache: map<string, Entry<T>>, next: Phase<T>) {
    match phase
    case Start => cache == s.cache && exists m :: next == Read<T>(m)
    case Loaded(m) => cache == s.cache && exists seen :: next == Hash(r, job, m, seen)
    case Hashed(m, d) => cache == s.cache && next == LookForManifest(r, job, s.cache, m, d)
    case NoManifest(m, d) => cache == s.cache && next == LookForTarget(job, s.cache, m, d)
    case Copying(m, d) => cache == s.cache && (next == Done(Err(SourceUnreadable)) || exists seen :: next == Staged(m, d, seen))
    case Staged(m, d, tree) => cache == s.cache && next == Verify(r, m, d, tree)
    case Verified(m, d, tree) => cache == s.cache && next == Ready(m, d, Entry(tree, Some(Meta(job.source, d))))
    case Ready(m, d, e) => Rename(job, s.cache, e, m, d, cache, next)
    case Refused(m, d) => cache == s.cache && next == LookForWinner(r, job, s.cache, m, d)
    case CheckManifest(m, d) => cache == s.cache && job.target in s.cache && next == ReadManifest(r, s.cache[job.target], m, d)
    case CheckSource(m, d) => cache == s.cache && job.target in s.cache && next == ReadSource(job, s.cache[job.target], m, d)
    case CheckDigest(_, d) => cache == s.cache && job.target in s.cache && next == ReadDigest(r, s.cache[job.target], d)
    case Done(_) => false
  }

  /** Publisher `p` takes a step to `next`, or stops for good. */
  ghost predicate Moves<T(!new)>(r: Reader<T>, jobs: map<nat, Job>, s: State<T>, t: State<T>, p: nat, next: Phase<T>) {
    && p in jobs && p in s.phases && t.phases == s.phases[p := next]
    && (Operates(r, jobs[p], s, s.phases[p], t.cache, next)
        || (!s.phases[p].Done? && t.cache == s.cache && next == Done(Err(Crashed))))
  }

  ghost predicate Step<T(!new)>(r: Reader<T>, jobs: map<nat, Job>, s: State<T>, t: State<T>) {
    exists p, next :: Moves(r, jobs, s, t, p, next)
  }

  /** A run from any cache, damaged entries included, all publishers at their start. */
  ghost predicate Run<T(!new)>(r: Reader<T>, jobs: map<nat, Job>, states: seq<State<T>>) {
    && states != []
    && states[0].phases.Keys == jobs.Keys && (forall p | p in jobs :: states[0].phases[p] == Start)
    && forall i | 0 <= i < |states| - 1 :: Step(r, jobs, states[i], states[i + 1])
  }

  // ---------------------------------------------------------------------------
  // The invariant
  // ---------------------------------------------------------------------------

  /** An entry is complete when its metadata records the digest of its tree. */
  predicate Complete<T>(r: Reader<T>, e: Entry<T>) {
    e.meta.Some? && e.meta.value.digest == r.digest(e.tree)
  }

  /** The target holds what this publisher stands for. */
  predicate Holds<T>(r: Reader<T>, job: Job, cache: map<string, Entry<T>>, d: string) {
    && job.target in cache && cache[job.target].meta.Some?
    && cache[job.target].meta.value.source == job.source && r.digest(cache[job.target].tree) == d
  }

  /** The digest the lock asks for, if it asks, is this one up to letter case. */
  predicate Wanted(job: Job, d: string) {
    job.expected.Some? ==> EqualIgnoringCase(d, job.expected.value)
  }

  /** The digest a publisher read from its source. */
  function DigestRead<T>(phase: Phase<T>): Option<string> {
    match phase
    case Start => None
    case Loaded(_) => None
    case Done(_) => None
    case _ => Some(phase.d)
  }

  /** An entry that has passed its first check declares what the publisher's source declared. */
  predicate Declares<T>(r: Reader<T>, job: Job, cache: map<string, Entry<T>>, m: Manifest) {
    job.target in cache && r.manifest(cache[job.target].tree) == Some(m)
  }

  /** What a failed check of an existing entry says about it. */
  ghost predicate FailureOk<T>(r: Reader<T>, job: Job, cache: map<string, Entry<T>>, failure: Failure) {
    match failure
    case LockDigestMismatch => job.expected.Some?
    case BadManifest => job.target in cache && r.manifest(cache[job.target].tree).None?
    case WrongPackage => job.target in cache && r.manifest(cache[job.target].tree).Some?
    case MetadataMissing => job.target in cache && cache[job.target].meta.None?
    case SourceMismatch => job.target in cache && cache[job.target].meta.Some? && cache[job.target].meta.value.source != job.source
    case DigestMismatch => job.target in cache && cache[job.target].meta.Some? && !Complete(r, cache[job.target])
    case _ => true
  }

  ghost predicate PhaseOk<T>(r: Reader<T>, job: Job, cache: map<string, Entry<T>>, phase: Phase<T>) {
    && (DigestRead(phase).Some? ==> Wanted(job, DigestRead(phase).value))
    && match phase
       case Verified(_, d, tree) => r.digest(tree) == d
       case Ready(_, d, e) => Complete(r, e) && e.meta.value.source == job.source && r.digest(e.tree) == d
       case CheckManifest(_, _) => job.target in cache
       case CheckSource(m, _) => Declares(r, job, cache, m)
       case CheckDigest(m, _) => Declares(r, job, cache, m) && cache[job.target].meta.Some? && cache[job.target].meta.value.source == job.source
       case Done(Ok(d)) => Holds(r, job, cache, d) && Complete(r, cache[job.target]) && Wanted(job, d)
       case Done(Err(failure)) => FailureOk(r, job, cache, failure)
       case _ => true
  }

  ghost predicate Inv<T>(r: Reader<T>, jobs: map<nat, Job>, s: State<T>) {
    && s.phases.Keys == jobs.Keys
    && (forall p | p in jobs :: PhaseOk(r, jobs[p], s.cache, s.phases[p]))
  }

  /** Entries are never changed or removed. */
  predicate Grows<T(==)>(a: map<string, Entry<T>>, b: map<string, Entry<T>>) {
    forall name | name in a :: name in b && b[name] == a[name]
  }

  lemma PhaseOkGrows<T>(r: Reader<T>, job: Job, a: map<string, Entry<T>>, b: map<string, Entry<T>>, phase: Phase<T>)
    requires PhaseOk(r, job, a, phase) && Grows(a, b)
    ensures PhaseOk(r, job, b, phase)
  {
  }

  /** Whatever was added is complete. */
  predicate AddsComplete<T>(r: Reader<T>, a: map<string, Entry<T>>, b: map<string, Entry<T>>) {
    forall name | name in b && name !in a :: Complete(r, b[name])
  }

  lemma OperationGrows<T(!new)>(r: Reader<T>, job: Job, s: State<T>, phase: Phase<T>, cache: map<string, Entry<T>>, next: Phase<T>)
    requires PhaseOk(r, job, s.cache, phase) && Operates(r, job, s, phase, cache, next)
    ensures Grows(s.cache, cache) && AddsComplete(r, s.cache, cache)
  {
    hide Wanted, FailureOk, Declares, Holds;
  }

  lemma OperationKeeps<T(!new)>(r: Reader<T>, job: Job, s: State<T>, phase: Phase<T>, cache: map<string, Entry<T>>, next: Phase<T>)
    requires PhaseOk(r, job, s.cache, phase) && Operates(r, job, s, phase, cache, next)
    ensures PhaseOk(r, job, cache, next)
  {
    hide EqualIgnoringCase;
    if phase.CheckDigest? && next.Done? && next.result.Ok? { WantedEither(job, phase.d, next.result.value); }
  }

  lemma WantedEither(job: Job, d: string, e: string)
    requires Wanted(job, d) && EqualIgnoringCase(e, d)
    ensures Wanted(job, e)
  {
    hide LowerChar;
  }

  lemma StepKeeps<T(!new)>(r: Reader<T>, jobs: map<nat, Job>, s: State<T>, t: State<T>)
    requires Inv(r, jobs, s) && Step(r, jobs, s, t)
    ensures Inv(r, jobs, t) && Grows(s.cache, t.cache) && AddsComplete(r, s.cache, t.cache)
  {
    hide PhaseOk, Operates;
    var p, next :| Moves(r, jobs, s, t, p, next);
    if Operates(r, jobs[p], s, s.phases[p], t.cache, next) {
      OperationGrows(r, jobs[p], s, s.phases[p], t.cache, next);
      OperationKeeps(r, jobs[p], s, s.phases[p], t.cache, next);
    } else {
      CrashOk(r, jobs[p], s.cache);
    }
    forall q | q in jobs ensures PhaseOk(r, jobs[q], t.cache, t.phases[q]) {
      if q != p { PhaseOkGrows(r, jobs[q], s.cache, t.cache, s.phases[q]); }
    }
  }

  lemma CrashOk<T>(r: Reader<T>, job: Job, cache: map<string, Entry<T>>)
    ensures PhaseOk(r, job, cache, Done(Err(Crashed)))
  {
  }

  // ---------------------------------------------------------------------------
  // Every run
  // ---------------------------------------------------------------------------

  lemma {:induction false} RunKeeps<T(!new)>(r: Reader<T>, jobs: map<nat, Job>, states: seq<State<T>>, i: nat)
    requires Run(r, jobs, states) && i < |states|
    ensures Inv(r, jobs, states[i])
  {
    if i > 0 {
      RunKeeps(r, jobs, states, i - 1);
      StepKeeps(r, jobs, states[i - 1], states[i]);
    }
  }

  lemma {:induction false} RunGrows<T(!new)>(r: Reader<T>, jobs: map<nat, Job>, states: seq<State<T>>, i: nat, j: nat)
    requires Run(r, jobs, states) && i <= j < |states|
    ensures Grows(states[i].cache, states[j].cache) && AddsComplete(r, states[i].cache, states[j].cache)
    decreases j - i
  {
    hide PhaseOk, Complete;
    if i < j {
      RunGrows(r, jobs, states, i, j - 1);
      RunKeeps(r, jobs, states, j - 1);
      StepKeeps(r, jobs, states[j - 1], states[j]);
    }
  }

  /**
    In every interleaving: an entry once there never changes, what is added is complete, and a publisher that reports success finds under its target, then and ever after, its own
    source identity and a complete entry with the digest it returned, which is the lock's up to
    letter case. No entry need be complete at the start.
  */
  lemma PublicationIsSafe<T(!new)>(r: Reader<T>, jobs: map<nat, Job>, states: seq<State<T>>, i: nat, j: nat)
    requires Run(r, jobs, states) && i <= j < |states|
    ensures forall name | name in states[i].cache :: name in states[j].cache && states[j].cache[name] == states[i].cache[name]
    ensures forall name | name in states[j].cache && name !in states[i].cache :: Complete(r, states[j].cache[name])
    ensures forall p | p in jobs && p in states[i].phases && states[i].phases[p].Done? && states[i].phases[p].result.Ok? ::
      && Holds(r, jobs[p], states[j].cache, states[i].phases[p].result.value)
      && Complete(r, states[j].cache[jobs[p].target])
      && Wanted(jobs[p], states[i].phases[p].result.value)
  {
    RunKeeps(r, jobs, states, i);
    RunGrows(r, jobs, states, i, j);
    forall p | p in jobs && p in states[i].phases && states[i].phases[p].Done? && states[i].phases[p].result.Ok?
      ensures Holds(r, jobs[p], states[j].cache, states[i].phases[p].result.value) && Complete(r, states[j].cache[jobs[p].target])
    {
      assert PhaseOk(r, jobs[p], states[i].cache, states[i].phases[p]);
    }
  }

  /** In every run what a publisher says against an entry it finds is so, then and ever after. */
  lemma FailuresAreTrue<T(!new)>(r: Reader<T>, jobs: map<nat, Job>, states: seq<State<T>>, i: nat, j: nat, p: nat)
    requires Run(r, jobs, states) && i <= j < |states| && p in jobs && p in states[i].phases
    requires states[i].phases[p].Done? && states[i].phases[p].result.Err?
    ensures FailureOk(r, jobs[p], states[j].cache, states[i].phases[p].result.error)
  {
    RunKeeps(r, jobs, states, i);
    RunGrows(r, jobs, states, i, j);
    assert PhaseOk(r, jobs[p], states[i].cache, states[i].phases[p]);
  }

  /** A publisher goes on with the manifest it read; once it is past it, it checks entries or is done. */
  predicate Carries<T(==)>(phase: Phase<T>, m: Manifest) {
    !phase.Start? && (!phase.Done? ==> phase.m == m)
  }

  /** From its first check of an entry on. */
  ghost predicate Checking<T>(r: Reader<T>, job: Job, cache: map<string, Entry<T>>, phase: Phase<T>, m: Manifest) {
    match phase
    case CheckManifest(n, _) => n == m
    case CheckSource(n, _) => n == m && Declares(r, job, cache, m)
    case CheckDigest(n, _) => n == m && Declares(r, job, cache, m)
    case Done(Ok(_)) => Declares(r, job, cache, m)
    case Done(Err(failure)) =>
      failure == WrongPackage ==> job.target in cache && r.manifest(cache[job.target].tree).Some? && !Declares(r, job, cache, m)
    case _ => false
  }

  lemma CarriesOn<T(!new)>(r: Reader<T>, job: Job, s: State<T>, phase: Phase<T>, cache: map<string, Entry<T>>, next: Phase<T>, m: Manifest)
    requires Operates(r, job, s, phase, cache, next) || next == Done(Err(Crashed))
    ensures Carries(phase, m) ==> Carries(next, m)
  {
  }

  lemma CheckingGoesOn<T(!new)>(r: Reader<T>, job: Job, s: State<T>, phase: Phase<T>, cache: map<string, Entry<T>>, next: Phase<T>, m: Manifest)
    requires Checking(r, job, s.cache, phase, m)
    requires Operates(r, job, s, phase, cache, next) || (next == Done(Err(Crashed)) && cache == s.cache)
    ensures Checking(r, job, cache, next, m)
  {
  }

  lemma {:induction false} RunCarries<T(!new)>(r: Reader<T>, jobs: map<nat, Job>, states: seq<State<T>>, p: nat, i: nat, j: nat, m: Manifest)
    requires Run(r, jobs, states) && p in jobs && i <= j && At(states, i, p) && At(states, j, p) && states[i].phases[p] == Loaded(m)
    ensures Carries(states[j].phases[p], m)
    decreases j - i
  {
    hide Operates, PhaseOk, Complete;
    if i < j {
      RunKeeps(r, jobs, states, j - 1);
      RunCarries(r, jobs, states, p, i, j - 1, m);
      assert Step(r, jobs, states[j - 1], states[j]);
      PhaseStep(r, jobs, states[j - 1], states[j], p);
      if states[j].phases[p] != states[j - 1].phases[p] {
        CarriesOn(r, jobs[p], states[j - 1], states[j - 1].phases[p], states[j].cache, states[j].phases[p], m);
      }
    }
  }

  lemma {:induction false} RunChecks<T(!new)>(r: Reader<T>, jobs: map<nat, Job>, states: seq<State<T>>, p: nat, i: nat, j: nat)
    requires Run(r, jobs, states) && p in jobs && i <= j && At(states, i, p) && At(states, j, p) && states[i].phases[p].CheckManifest?
    ensures Checking(r, jobs[p], states[j].cache, states[j].phases[p], states[i].phases[p].m)
    decreases j - i
  {
    hide Operates, PhaseOk, Complete;
    if i < j {
      RunKeeps(r, jobs, states, j - 1);
      RunChecks(r, jobs, states, p, i, j - 1);
      hide Checking;
      var s, t, m := states[j - 1], states[j], states[i].phases[p].m;
      assert Step(r, jobs, s, t);
      StepKeeps(r, jobs, s, t);
      var q, next :| Moves(r, jobs, s, t, q, next);
      if q == p {
        CheckingGoesOn(r, jobs[p], s, s.phases[p], t.cache, next, m);
      } else {
        CheckingGrows(r, jobs[p], s.cache, t.cache, s.phases[p], m);
      }
    }
  }

  lemma CheckingGrows<T>(r: Reader<T>, job: Job, a: map<string, Entry<T>>, b: map<string, Entry<T>>, phase: Phase<T>, m: Manifest)
    requires Checking(r, job, a, phase, m) && Grows(a, b)
    ensures Checking(r, job, b, phase, m)
  {
  }

  /**
    A publisher that finds its target taken and succeeds by checking the entry there finds in it,
    then and ever after, the manifest it read from its own source; and one that reports another
    package there finds another.
  */
  lemma CheckedEntriesDeclareTheSource<T(!new)>(r: Reader<T>, jobs: map<nat, Job>, states: seq<State<T>>, p: nat, a: nat, b: nat, i: nat)
    requires Run(r, jobs, states) && p in jobs && a <= b <= i && At(states, a, p) && At(states, b, p) && At(states, i, p)
    requires states[a].phases[p].Loaded? && states[b].phases[p].CheckManifest? && states[i].phases[p].Done?
    ensures states[i].phases[p].result.Ok? ==> Declares(r, jobs[p], states[i].cache, states[a].phases[p].m)
    ensures states[i].phases[p].result == Err(WrongPackage) ==>
      jobs[p].target in states[i].cache && !Declares(r, jobs[p], states[i].cache, states[a].phases[p].m)
  {
    RunCarries(r, jobs, states, p, a, b, states[a].phases[p].m);
    RunChecks(r, jobs, states, p, b, i);
  }

  /** Two publishers of one target that both succeed agree on source identity and digest. */
  lemma WinnersAgree<T(!new)>(r: Reader<T>, jobs: map<nat, Job>, states: seq<State<T>>, i: nat, p: nat, q: nat)
    requires Run(r, jobs, states) && i < |states|
    requires p in jobs && q in jobs && jobs[p].target == jobs[q].target
    requires p in states[i].phases && states[i].phases[p].Done? && states[i].phases[p].result.Ok?
    requires q in states[i].phases && states[i].phases[q].Done? && states[i].phases[q].result.Ok?
    ensures jobs[p].source == jobs[q].source && states[i].phases[p].result == states[i].phases[q].result
  {
    PublicationIsSafe(r, jobs, states, i, i);
    assert Holds(r, jobs[p], states[i].cache, states[i].phases[p].result.value);
    assert Holds(r, jobs[q], states[i].cache, states[i].phases[q].result.value);
  }

  // ---------------------------------------------------------------------------
  // When an incomplete target is reported
  // ---------------------------------------------------------------------------

  predicate At<T>(states: seq<State<T>>, i: nat, p: nat) { i < |states| && p in states[i].phases }

  /** Publisher `p` looks for a manifest under its target in step `a`, in vain, and for the target itself in step `b`. */
  predicate LooksTwice<T(==)>(states: seq<State<T>>, p: nat, a: nat, b: nat) {
    && a < b && At(states, a, p) && At(states, a + 1, p) && At(states, b, p) && At(states, b + 1, p)
    && states[a].phases[p].Hashed? && states[a + 1].phases[p].NoManifest?
    && states[b].phases[p].NoManifest? && !states[b + 1].phases[p].NoManifest? && states[b + 1].phases[p] != Done(Err(Crashed))
  }

  /** What is under the target has no manifest. */
  predicate LacksManifest<T>(r: Reader<T>, target: string, s: State<T>) {
    target in s.cache && !r.hasManifest(s.cache[target].tree)
  }

  /** Step `k` is the rename of publisher `q` that fills this target. */
  predicate FillsTarget<T>(jobs: map<nat, Job>, states: seq<State<T>>, target: string, q: nat, k: nat) {
    && k + 1 < |states| && q in jobs && jobs[q].target == target && At(states, k, q) && At(states, k + 1, q)
    && states[k].phases[q].Ready? && states[k + 1].phases[q].Done? && states[k + 1].phases[q].result.Ok?
    && target !in states[k].cache && target in states[k + 1].cache
  }

  /** Between two looks. */
  ghost predicate FilledBetween<T>(jobs: map<nat, Job>, states: seq<State<T>>, p: nat, a: nat, b: nat)
    requires p in jobs
  {
    exists q: nat, k: nat :: q != p && a < k < b && FillsTarget(jobs, states, jobs[p].target, q, k)
  }

  lemma PhaseStep<T(!new)>(r: Reader<T>, jobs: map<nat, Job>, s: State<T>, t: State<T>, p: nat)
    requires Step(r, jobs, s, t) && p in jobs && p in s.phases
    ensures p in t.phases
    ensures t.phases[p] != s.phases[p] ==> Operates(r, jobs[p], s, s.phases[p], t.cache, t.phases[p]) || (!s.phases[p].Done? && t.phases[p] == Done(Err(Crashed)))
  {
    hide Operates;
    var q, next :| Moves(r, jobs, s, t, q, next);
  }

  lemma FillStep<T(!new)>(r: Reader<T>, jobs: map<nat, Job>, states: seq<State<T>>, k: nat, name: string)
    requires Run(r, jobs, states) && k + 1 < |states| && name !in states[k].cache && name in states[k + 1].cache
    ensures exists q: nat :: FillsTarget(jobs, states, name, q, k)
  {
    assert Step(r, jobs, states[k], states[k + 1]);
    var q, next :| Moves(r, jobs, states[k], states[k + 1], q, next);
    assert FillsTarget(jobs, states, name, q, k);
  }

  /** Something that appears does so in one step. */
  lemma {:induction false} AppearsAt<T>(states: seq<State<T>>, name: string, a: nat, b: nat) returns (k: nat)
    requires a <= b < |states| && name !in states[a].cache && name in states[b].cache
    ensures a <= k < b && name !in states[k].cache && name in states[k + 1].cache
    decreases b - a
  {
    if name in states[b - 1].cache { k := AppearsAt(states, name, a, b - 1); } else { k := b - 1; }
  }

  /** A publisher without a manifest has been so since its first look. */
  lemma {:induction false} FirstLook<T(!new)>(r: Reader<T>, jobs: map<nat, Job>, states: seq<State<T>>, p: nat, b: nat) returns (a: nat)
    requires Run(r, jobs, states) && p in jobs && At(states, b, p) && states[b].phases[p].NoManifest?
    ensures a < b && At(states, a, p) && states[a].phases[p].Hashed?
    ensures forall j | a < j <= b :: At(states, j, p) && states[j].phases[p].NoManifest?
    decreases b
  {
    hide Operates;
    RunKeeps(r, jobs, states, b - 1);
    assert Step(r, jobs, states[b - 1], states[b]);
    PhaseStep(r, jobs, states[b - 1], states[b], p);
    if states[b - 1].phases[p].NoManifest? {
      a := FirstLook(r, jobs, states, p, b - 1);
    } else {
      ReachesNoManifest(r, jobs[p], states[b - 1], states[b - 1].phases[p], states[b].cache, states[b].phases[p]);
      a := b - 1;
    }
  }

  lemma ReachesNoManifest<T(!new)>(r: Reader<T>, job: Job, s: State<T>, phase: Phase<T>, cache: map<string, Entry<T>>, next: Phase<T>)
    requires Operates(r, job, s, phase, cache, next)
    ensures next.NoManifest? ==> phase.Hashed?
    ensures next == Done(Err(IncompleteTarget)) ==> phase.NoManifest?
  {
  }

  /** A verdict was reached by its second look. */
  lemma {:induction false} SecondLook<T(!new)>(r: Reader<T>, jobs: map<nat, Job>, states: seq<State<T>>, p: nat, i: nat) returns (b: nat)
    requires Run(r, jobs, states) && p in jobs && At(states, i, p) && states[i].phases[p] == Done(Err(IncompleteTarget))
    ensures b < i && At(states, b, p) && At(states, b + 1, p) && states[b].phases[p].NoManifest? && states[b + 1].phases[p] == Done(Err(IncompleteTarget))
    decreases i
  {
    hide Operates;
    RunKeeps(r, jobs, states, i - 1);
    assert Step(r, jobs, states[i - 1], states[i]);
    PhaseStep(r, jobs, states[i - 1], states[i], p);
    if states[i - 1].phases[p] == states[i].phases[p] {
      b := SecondLook(r, jobs, states, p, i - 1);
    } else {
      ReachesNoManifest(r, jobs[p], states[i - 1], states[i - 1].phases[p], states[i].cache, states[i].phases[p]);
      b := i - 1;
    }
  }

  lemma {:induction false} DoneStays<T(!new)>(r: Reader<T>, jobs: map<nat, Job>, states: seq<State<T>>, p: nat, i: nat, j: nat)
    requires Run(r, jobs, states) && p in jobs && i <= j && At(states, i, p) && At(states, j, p) && states[i].phases[p].Done?
    ensures states[j].phases[p] == states[i].phases[p]
    decreases j - i
  {
    if i < j {
      hide Operates, Inv, Run;
      StepOf(r, jobs, states, p, j);
      DoneStays(r, jobs, states, p, i, j - 1);
      DoneIsFinal(r, jobs[p], states[j - 1], states[j - 1].phases[p], states[j].cache, states[j].phases[p]);
    }
  }

  lemma StepOf<T(!new)>(r: Reader<T>, jobs: map<nat, Job>, states: seq<State<T>>, p: nat, j: nat)
    requires Run(r, jobs, states) && p in jobs && 0 < j < |states|
    ensures p in states[j - 1].phases && p in states[j].phases
    ensures states[j].phases[p] != states[j - 1].phases[p] ==>
      || Operates(r, jobs[p], states[j - 1], states[j - 1].phases[p], states[j].cache, states[j].phases[p])
      || (!states[j - 1].phases[p].Done? && states[j].phases[p] == Done(Err(Crashed)))
  {
    hide Operates, PhaseOk, Complete;
    RunKeeps(r, jobs, states, j - 1);
    assert Step(r, jobs, states[j - 1], states[j]);
    PhaseStep(r, jobs, states[j - 1], states[j], p);
  }

  lemma DoneIsFinal<T(!new)>(r: Reader<T>, job: Job, s: State<T>, phase: Phase<T>, cache: map<string, Entry<T>>, next: Phase<T>)
    requires phase.Done?
    ensures !Operates(r, job, s, phase, cache, next)
  {
  }

  /** The two looks of a publisher, read off the steps that make them. */
  lemma WhatWasSeen<T(!new)>(r: Reader<T>, jobs: map<nat, Job>, states: seq<State<T>>, p: nat, a: nat, b: nat)
    requires Run(r, jobs, states) && p in jobs && LooksTwice(states, p, a, b)
    ensures jobs[p].target in states[a].cache ==> LacksManifest(r, jobs[p].target, states[a])
    ensures states[b + 1].phases[p] == Done(Err(IncompleteTarget)) <==> jobs[p].target in states[b].cache
    ensures states[a + 1].cache == states[a].cache
  {
    assert Step(r, jobs, states[a], states[a + 1]) && Step(r, jobs, states[b], states[b + 1]);
    PhaseStep(r, jobs, states[b], states[b + 1], p);
    var q, next :| Moves(r, jobs, states[a], states[a + 1], q, next);
    assert q == p;
  }

  /** Between its two looks a publisher is where it was. */
  lemma {:induction false} WaitsBetween<T(!new)>(r: Reader<T>, jobs: map<nat, Job>, states: seq<State<T>>, p: nat, a: nat, b: nat, j: nat)
    requires Run(r, jobs, states) && p in jobs && LooksTwice(states, p, a, b) && a < j <= b
    ensures At(states, j, p) && states[j].phases[p].NoManifest?
  {
    var first := FirstLook(r, jobs, states, p, b);
    if first > a { Earlier(r, jobs, states, p, a + 1, first); }
  }

  /** No publisher comes back to hashing once it looked. */
  lemma {:induction false} Earlier<T(!new)>(r: Reader<T>, jobs: map<nat, Job>, states: seq<State<T>>, p: nat, i: nat, j: nat)
    requires Run(r, jobs, states) && p in jobs && i <= j && At(states, i, p) && At(states, j, p) && Looked(states[i].phases[p])
    ensures Looked(states[j].phases[p])
    decreases j - i
  {
    hide Operates, Looked, Inv;
    if i < j {
      RunKeeps(r, jobs, states, j - 1);
      Earlier(r, jobs, states, p, i, j - 1);
      assert Step(r, jobs, states[j - 1], states[j]);
      PhaseStep(r, jobs, states[j - 1], states[j], p);
      if states[j].phases[p] != states[j - 1].phases[p] { StaysLooked(r, jobs[p], states[j - 1], states[j - 1].phases[p], states[j].cache, states[j].phases[p]); }
    }
  }

  lemma StaysLooked<T(!new)>(r: Reader<T>, job: Job, s: State<T>, phase: Phase<T>, cache: map<string, Entry<T>>, next: Phase<T>)
    requires Looked(phase) && (Operates(r, job, s, phase, cache, next) || next == Done(Err(Crashed)))
    ensures Looked(next)
  {
  }

  predicate Looked<T>(phase: Phase<T>) { !phase.Start? && !phase.Loaded? && !phase.Hashed? }

  /**
    In every run a publisher reports an incomplete target exactly when, at its second look,
    either the entry really lacked a manifest at the first, or another publisher's rename put
    the entry there between the two.
  */
  lemma IncompleteTargetExactly<T(!new)>(r: Reader<T>, jobs: map<nat, Job>, states: seq<State<T>>, p: nat, i: nat)
    requires Run(r, jobs, states) && p in jobs && At(states, i, p)
    ensures states[i].phases[p] == Done(Err(IncompleteTarget)) <==>
            exists a: nat, b: nat :: a < b < i && LooksTwice(states, p, a, b) && (LacksManifest(r, jobs[p].target, states[a]) || FilledBetween(jobs, states, p, a, b))
  {
    hide Run, LooksTwice, FillsTarget;
    var target := jobs[p].target;
    if states[i].phases[p] == Done(Err(IncompleteTarget)) {
      var a, b := BothLooks(r, jobs, states, p, i);
      WhatWasSeen(r, jobs, states, p, a, b);
      LooksInRange(states, p, a, b);
      if target !in states[a].cache {
        var k := AppearsAt(states, target, a + 1, b);
        FillStep(r, jobs, states, k, target);
        var q :| FillsTarget(jobs, states, target, q, k);
        WaitsBetween(r, jobs, states, p, a, b, k);
        FillerIsReady(jobs, states, target, q, k);
        assert FilledBetween(jobs, states, p, a, b);
      }
    }
    forall a: nat, b: nat | a < b < i && LooksTwice(states, p, a, b) && (LacksManifest(r, target, states[a]) || FilledBetween(jobs, states, p, a, b))
      ensures states[i].phases[p] == Done(Err(IncompleteTarget))
    {
      LooksInRange(states, p, a, b);
      var k := a;
      if FilledBetween(jobs, states, p, a, b) {
        var q: nat, l: nat :| q != p && a < l < b && FillsTarget(jobs, states, target, q, l);
        FillerIsReady(jobs, states, target, q, l);
        k := l + 1;
      }
      RunGrows(r, jobs, states, k, b);
      WhatWasSeen(r, jobs, states, p, a, b);
      DoneStays(r, jobs, states, p, b + 1, i);
    }
  }

  lemma BothLooks<T(!new)>(r: Reader<T>, jobs: map<nat, Job>, states: seq<State<T>>, p: nat, i: nat) returns (a: nat, b: nat)
    requires Run(r, jobs, states) && p in jobs && At(states, i, p) && states[i].phases[p] == Done(Err(IncompleteTarget))
    ensures b < i && LooksTwice(states, p, a, b) && states[b + 1].phases[p] == Done(Err(IncompleteTarget))
  {
    b := SecondLook(r, jobs, states, p, i);
    a := FirstLook(r, jobs, states, p, b);
    assert At(states, a + 1, p);
  }

  lemma LooksInRange<T>(states: seq<State<T>>, p: nat, a: nat, b: nat)
    requires LooksTwice(states, p, a, b)
    ensures a < b && b + 1 < |states| && At(states, b + 1, p)
  {
  }

  lemma FillerIsReady<T>(jobs: map<nat, Job>, states: seq<State<T>>, target: string, q: nat, k: nat)
    requires FillsTarget(jobs, states, target, q, k)
    ensures At(states, k, q) && states[k].phases[q].Ready? && k + 1 < |states| && target in states[k + 1].cache
  {
  }

  /** Every entry of the cache at the start, and every tree made ready for it, has a manifest. */
  predicate ManifestsThroughout<T>(r: Reader<T>, states: seq<State<T>>) {
    && states != [] && (forall name | name in states[0].cache :: r.hasManifest(states[0].cache[name].tree))
    && forall i | 0 <= i < |states| :: forall p | p in states[i].phases && states[i].phases[p].Ready? :: r.hasManifest(states[i].phases[p].entry.tree)
  }

  lemma {:induction false} EntriesHaveManifests<T(!new)>(r: Reader<T>, jobs: map<nat, Job>, states: seq<State<T>>, i: nat)
    requires Run(r, jobs, states) && ManifestsThroughout(r, states) && i < |states|
    ensures forall name | name in states[i].cache :: r.hasManifest(states[i].cache[name].tree)
  {
    if i > 0 {
      EntriesHaveManifests(r, jobs, states, i - 1);
      assert Step(r, jobs, states[i - 1], states[i]);
      var q, next :| Moves(r, jobs, states[i - 1], states[i], q, next);
    }
  }

  /**
    Where manifests are never missing, an incomplete target is reported exactly by those
    publishers between whose two looks another publisher's rename fell: the entry is complete
    and the report spurious.
  */
  lemma SpuriousConflict<T(!new)>(r: Reader<T>, jobs: map<nat, Job>, states: seq<State<T>>, p: nat, i: nat)
    requires Run(r, jobs, states) && p in jobs && At(states, i, p) && ManifestsThroughout(r, states)
    ensures states[i].phases[p] == Done(Err(IncompleteTarget)) <==> exists a: nat, b: nat :: a < b < i && LooksTwice(states, p, a, b) && FilledBetween(jobs, states, p, a, b)
    ensures states[i].phases[p] == Done(Err(IncompleteTarget)) ==> jobs[p].target in states[i].cache && Complete(r, states[i].cache[jobs[p].target]) && !LacksManifest(r, jobs[p].target, states[i])
  {
    hide Run, LooksTwice, FilledBetween, ManifestsThroughout;
    IncompleteTargetExactly(r, jobs, states, p, i);
    forall a: nat, b: nat | a < b < i && LooksTwice(states, p, a, b) ensures !LacksManifest(r, jobs[p].target, states[a]) {
      LooksInRange(states, p, a, b);
      EntriesHaveManifests(r, jobs, states, a);
    }
    if states[i].phases[p] == Done(Err(IncompleteTarget)) {
      var a, b := BothLooks(r, jobs, states, p, i);
      WhatWasSeen(r, jobs, states, p, a, b);
      LooksInRange(states, p, a, b);
      RunGrows(r, jobs, states, b, i);
      RunGrows(r, jobs, states, a, i);
      EntriesHaveManifests(r, jobs, states, i);
    }
  }

  /** So a publisher that shares its target with no other never reports one. */
  lemma OwnTargetIsNeverIncomplete<T(!new)>(r: Reader<T>, jobs: map<nat, Job>, states: seq<State<T>>, p: nat, i: nat)
    requires Run(r, jobs, states) && p in jobs && At(states, i, p) && ManifestsThroughout(r, states)
    requires forall q | q in jobs && q != p :: jobs[q].target != jobs[p].target
    ensures states[i].phases[p] != Done(Err(IncompleteTarget))
  {
    hide Run, LooksTwice;
    SpuriousConflict(r, jobs, states, p, i);
  }

  // ---------------------------------------------------------------------------
  // It happens
  // ---------------------------------------------------------------------------

  const OneJob := Job("t", "s", None)
  const OneManifest := Manifest("n", "1")

  /** Every tree has this digest and declares the same package. */
  function ConstantReader(digest: string): Reader<string> {
    Reader(_ => digest, _ => true, _ => Some(OneManifest))
  }

  function OneEntry(digest: string): Entry<string> {
    Entry("", Some(Meta("s", digest)))
  }

  /** What a publisher with an empty target goes through up to its rename. */
  function Alone(digest: string): (phases: seq<Phase<string>>)
    ensures |phases| == 8
  {
    var m := OneManifest;
    [Start, Loaded(m), Hashed(m, digest), NoManifest(m, digest), Copying(m, digest),
     Staged(m, digest, ""), Verified(m, digest, ""), Ready(m, digest, OneEntry(digest))]
  }

  /** Publisher 0 gets ready, publisher 1 sees no manifest, 0 renames, 1 looks for the target. */
  function Race(digest: string, i: nat): State<string> {
    var alone := Alone(digest);
    if i < 8 then State(map[], map[0 := alone[i], 1 := Start])
    else if i < 11 then State(map[], map[0 := alone[7], 1 := alone[i - 7]])
    else State(map["t" := OneEntry(digest)],
               map[0 := Done(Ok(digest)), 1 := if i == 11 then alone[3] else Done(Err(IncompleteTarget))])
  }

  lemma AloneOperates(r: Reader<string>, digest: string, cache: map<string, Entry<string>>, phases: map<nat, Phase<string>>, i: nat)
    requires i < 7 && "t" !in cache && r.digest("") == digest
    ensures Operates(r, OneJob, State(cache, phases), Alone(digest)[i], cache, Alone(digest)[i + 1])
  {
    assert Loaded(OneManifest) == Read<string>(Some(OneManifest));
    assert Hashed(OneManifest, digest) == Hash(r, OneJob, OneManifest, "");
  }

  lemma RaceSteps(digest: string, i: nat)
    requires i < 12
    ensures Step(ConstantReader(digest), map[0 := OneJob, 1 := OneJob], Race(digest, i), Race(digest, i + 1))
  {
    hide Operates;
    var s, t := Race(digest, i), Race(digest, i + 1);
    var p := if i < 7 || i == 10 then 0 else 1;
    var next :=
      if i < 7 then Alone(digest)[i + 1]
      else if i < 10 then Alone(digest)[i - 6]
      else if i == 10 then Done(Ok(digest))
      else Done(Err(IncompleteTarget));
    if i < 7 { AloneOperates(ConstantReader(digest), digest, s.cache, s.phases, i); }
    else if i < 10 { AloneOperates(ConstantReader(digest), digest, s.cache, s.phases, i - 7); }
    else if i == 10 { RaceIsWon(ConstantReader(digest), digest, s.phases); }
    else { RaceIsLost(digest, s.phases); }
    assert Moves(ConstantReader(digest), map[0 := OneJob, 1 := OneJob], s, t, p, next);
  }

  lemma RaceIsWon(r: Reader<string>, digest: string, phases: map<nat, Phase<string>>)
    ensures Operates(r, OneJob, State(map[], phases), Alone(digest)[7], map["t" := OneEntry(digest)], Done(Ok(digest)))
  {
  }

  lemma RaceIsLost(digest: string, phases: map<nat, Phase<string>>)
    ensures
      var cache := map["t" := OneEntry(digest)];
      Operates(ConstantReader(digest), OneJob, State(cache, phases), Alone(digest)[3], cache, Done(Err(IncompleteTarget)))
  {
  }

  /**
    Two publishers with the same job meet it: the one that looked for the manifest just before
    the other's rename and for the target just after it finds its own entry incomplete.
  */
  lemma SpuriousConflictHappens(digest: string) returns (r: Reader<string>, jobs: map<nat, Job>, states: seq<State<string>>)
    ensures Run(r, jobs, states)
    ensures
      var last := states[|states| - 1];
      && jobs == map[0 := OneJob, 1 := OneJob]
      && last.phases == map[0 := Done(Ok(digest)), 1 := Done(Err(IncompleteTarget))]
      && Holds(r, jobs[1], last.cache, digest)
  {
    r, jobs, states := ConstantReader(digest), map[0 := OneJob, 1 := OneJob], seq(13, i requires 0 <= i < 13 => Race(digest, i));
    forall i | 0 <= i < |states| - 1 ensures Step(r, jobs, states[i], states[i + 1]) {
      RaceSteps(digest, i);
    }
  }

  /**
    A publisher that wins by its rename never compares what it staged with the manifest it read
    first: if its source is another package by the time it is hashed, that one is published.
  */
  lemma RenameMayPublishAnother(digest: string) returns (r: Reader<string>, jobs: map<nat, Job>, states: seq<State<string>>)
    ensures Run(r, jobs, states)
    ensures
      var last := states[|states| - 1];
      && jobs == map[0 := OneJob] && |states| == 9 && states[1].phases == map[0 := Loaded(OneManifest)]
      && last.phases == map[0 := Done(Ok(digest))]
      && "t" in last.cache && !Declares(r, OneJob, last.cache, OneManifest)
  {
    r, jobs := Reader(_ => digest, _ => true, _ => Some(Manifest("other", "1"))), map[0 := OneJob];
    states := seq(8, i requires 0 <= i < 8 => State(map[], map[0 := Alone(digest)[i]]))
      + [State(map["t" := OneEntry(digest)], map[0 := Done(Ok(digest))])];
    assert Alone(digest)[0] == Start && Alone(digest)[1] == Loaded(OneManifest);
    assert states[0] == State(map[], map[0 := Start]) && states[1] == State(map[], map[0 := Loaded(OneManifest)]);
    assert states[8] == State(map["t" := OneEntry(digest)], map[0 := Done(Ok(digest))]);
    forall i | 0 <= i < 8 ensures Step(r, jobs, states[i], states[i + 1]) {
      LoneStep(r, digest, states[i], states[i + 1], i);
    }
  }

  lemma LoneStep(r: Reader<string>, digest: string, s: State<string>, t: State<string>, i: nat)
    requires i < 8 && r.digest("") == digest && s == State(map[], map[0 := Alone(digest)[i]])
    requires t == if i < 7 then State(map[], map[0 := Alone(digest)[i + 1]]) else State(map["t" := OneEntry(digest)], map[0 := Done(Ok(digest))])
    ensures Step(r, map[0 := OneJob], s, t)
  {
    hide Operates;
    if i < 7 {
      AloneOperates(r, digest, map[], s.phases, i);
    } else {
      RaceIsWon(r, digest, s.phases);
    }
    assert Moves(r, map[0 := OneJob], s, t, 0, t.phases[0]);
  }
}
