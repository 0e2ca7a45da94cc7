/**
  The install swap: each entry of the fresh package replaces the one in the install root,
  which is parked in a backup directory; a failure puts the parked entries back.
*/
module InstallSwap {
  import opened Wrappers
  import S = Sorting

  /** The three directories, entry by entry; `T` is what an entry holds. */
  datatype Dirs<T> = Dirs(live: map<string, T>, incoming: map<string, T>, parked: map<string, T>)

  /** Which renames the file system refuses. */
  datatype Faults = Faults(park: string -> bool, place: string -> bool, restore: string -> bool)

  datatype Error = ParkFailed(name: string) | PlaceFailed(name: string)

  datatype Outcome<T> = Outcome(dirs: Dirs<T>, error: Option<Error>)

  function Park<T>(d: Dirs<T>, n: string): Dirs<T>
    requires n in d.live
  {
    d.(live := d.live - {n}, parked := d.parked[n := d.live[n]])
  }

  function Place<T>(d: Dirs<T>, n: string): Dirs<T>
    requires n in d.incoming
  {
    d.(live := d.live[n := d.incoming[n]], incoming := d.incoming - {n})
  }

  /** What is in the way is parked first, and noted. */
  function Parked<T>(d: Dirs<T>, n: string): Dirs<T> {
    if n in d.live then Park(d, n) else d
  }

  function Noted<T>(d: Dirs<T>, n: string, swapped: seq<string>): seq<string> {
    if n in d.live then swapped + [n] else swapped
  }

  /** Clears the place, then moves the parked entry back if the rename succeeds. */
  function RestoreOne<T>(d: Dirs<T>, n: string, f: Faults): Dirs<T> {
    if f.restore(n) || n !in d.parked then d.(live := d.live - {n})
    else d.(live := d.live[n := d.parked[n]], parked := d.parked - {n})
  }

  /** In the reverse order of parking. */
  function Restore<T>(d: Dirs<T>, swapped: seq<string>, f: Faults): Dirs<T>
    decreases |swapped|
  {
    if swapped == [] then d else Restore(RestoreOne(d, swapped[|swapped| - 1], f), swapped[..|swapped| - 1], f)
  }

  function Swap<T>(d: Dirs<T>, entries: seq<string>, swapped: seq<string>, f: Faults): Outcome<T>
    requires Fresh(d, entries)
    decreases |entries|
  {
    if entries == [] then Outcome(d, None)
    else
      var n := entries[0];
      if n in d.live && f.park(n) then Outcome(Restore(d, swapped, f), Some(ParkFailed(n)))
      else
        var parked, done := Parked(d, n), Noted(d, n, swapped);
        if f.place(n) then Outcome(Restore(parked, done, f), Some(PlaceFailed(n)))
        else
          PlaceKeepsFresh(parked, entries);
          Swap(Place(parked, n), entries[1..], done, f)
  }

  /** A directory listing of the fresh package: its entries, each once. */
  predicate Fresh<T>(d: Dirs<T>, entries: seq<string>) {
    (forall i | 0 <= i < |entries| :: entries[i] in d.incoming) && S.Distinct(entries)
  }

  lemma PlaceKeepsFresh<T>(d: Dirs<T>, entries: seq<string>)
    requires entries != [] && Fresh(d, entries)
    ensures Fresh(Place(d, entries[0]), entries[1..])
  {
  }

  // ---------------------------------------------------------------------------
  // The code, on directories that change
  // ---------------------------------------------------------------------------

  class Installation<T> {
    var dirs: Dirs<T>

    constructor (dirs: Dirs<T>)
      ensures this.dirs == dirs
    {
      this.dirs := dirs;
    }

    method RestoreSwappedEntries(swapped: seq<string>, f: Faults)
      modifies this
      ensures dirs == Restore(old(dirs), swapped, f)
    {
      var i := |swapped|;
      assert swapped[..i] == swapped;
      while i > 0
        invariant 0 <= i <= |swapped| && Restore(old(dirs), swapped, f) == Restore(dirs, swapped[..i], f)
      {
        i := i - 1;
        assert swapped[..i + 1][i] == swapped[i] && swapped[..i + 1][..i] == swapped[..i];
        dirs := RestoreOne(dirs, swapped[i], f);
      }
    }

    method SwapPackageEntries(entries: seq<string>, f: Faults) returns (error: Option<Error>)
      requires Fresh(dirs, entries)
      modifies this
      ensures Outcome(dirs, error) == Swap(old(dirs), entries, [], f)
    {
      var swapped: seq<string> := [];
      var i := 0;
      assert entries[0..] == entries;
      while i < |entries|
        invariant 0 <= i <= |entries| && Fresh(dirs, entries[i..])
        invariant Swap(old(dirs), entries, [], f) == Swap(dirs, entries[i..], swapped, f)
      {
        var n := entries[i];
        assert entries[i..][0] == n && entries[i..][1..] == entries[i + 1..];
        PlaceKeepsFresh(Parked(dirs, n), entries[i..]);
        if n in dirs.live {
          if f.park(n) {
            RestoreSwappedEntries(swapped, f);
            return Some(ParkFailed(n));
          }
          dirs := Park(dirs, n);
          swapped := swapped + [n];
        }
        if f.place(n) {
          RestoreSwappedEntries(swapped, f);
          return Some(PlaceFailed(n));
        }
        dirs := Place(dirs, n);
        i := i + 1;
      }
      return None;
    }
  }

  // ---------------------------------------------------------------------------
  // Nothing is lost
  // ---------------------------------------------------------------------------

  /** Midway: old entries are in place or parked, and what is new came from the package. */
  ghost predicate Midway<T>(was: Dirs<T>, d: Dirs<T>, swapped: seq<string>) {
    && S.Distinct(swapped)
    && (forall n :: n in d.parked <==> n in swapped)
    && (forall n | n in swapped :: n in was.live && d.parked[n] == was.live[n])
    && (forall n | n in was.live && n !in swapped :: n in d.live && d.live[n] == was.live[n])
    && (forall n | n in d.live && n !in was.live :: n in was.incoming && d.live[n] == was.incoming[n])
    && (forall n | n in d.live && n in swapped :: n in was.incoming && d.live[n] == was.incoming[n])
  }

  /** After a rollback: every old entry is back, or still parked because its own restore failed. */
  ghost predicate RolledBack<T>(was: Dirs<T>, d: Dirs<T>, f: Faults) {
    && (forall n | n in was.live ::
          || (n in d.live && d.live[n] == was.live[n])
          || (f.restore(n) && n !in d.live && n in d.parked && d.parked[n] == was.live[n]))
    && (forall n | n in d.live && n !in was.live :: n in was.incoming && d.live[n] == was.incoming[n])
  }

  ghost predicate Restoring<T>(was: Dirs<T>, d: Dirs<T>, left: seq<string>, f: Faults) {
    && S.Distinct(left)
    && (forall n | n in left :: n in was.live && n in d.parked && d.parked[n] == was.live[n])
    && (forall n | n in was.live && n !in left ::
          || (n in d.live && d.live[n] == was.live[n])
          || (f.restore(n) && n !in d.live && n in d.parked && d.parked[n] == was.live[n]))
    && (forall n | n in d.live && n !in was.live :: n in was.incoming && d.live[n] == was.incoming[n])
  }

  lemma {:induction false} RestorePutsBack<T>(was: Dirs<T>, d: Dirs<T>, left: seq<string>, f: Faults)
    requires Restoring(was, d, left, f)
    ensures RolledBack(was, Restore(d, left, f), f)
    decreases |left|
  {
    if left != [] {
      var n, rest := left[|left| - 1], left[..|left| - 1];
      assert left == rest + [n];
      RestorePutsBack(was, RestoreOne(d, n, f), rest, f);
    }
  }

  lemma MidwayRestores<T>(was: Dirs<T>, d: Dirs<T>, swapped: seq<string>, f: Faults)
    requires Midway(was, d, swapped)
    ensures RolledBack(was, Restore(d, swapped, f), f)
  {
    RestorePutsBack(was, d, swapped, f);
  }

  lemma ParkKeepsMidway<T>(was: Dirs<T>, d: Dirs<T>, n: string, swapped: seq<string>)
    requires Midway(was, d, swapped) && Untouched(was, d, n, swapped)
    ensures Midway(was, Parked(d, n), Noted(d, n, swapped))
  {
  }

  lemma PlaceKeepsMidway<T>(was: Dirs<T>, d: Dirs<T>, n: string, swapped: seq<string>)
    requires Midway(was, d, swapped) && Untouched(was, d, n, swapped)
    ensures n in Parked(d, n).incoming && Midway(was, Place(Parked(d, n), n), Noted(d, n, swapped))
  {
  }

  lemma OthersUntouched<T>(was: Dirs<T>, d: Dirs<T>, n: string, swapped: seq<string>, m: string)
    requires n in d.incoming && n != m && Untouched(was, d, m, swapped)
    ensures Untouched(was, Place(Parked(d, n), n), m, Noted(d, n, swapped))
  {
  }

  lemma ReplacedCons<T>(was: Dirs<T>, d: Dirs<T>, entries: seq<string>, after: Dirs<T>)
    requires Fresh(d, entries) && entries != [] && entries[0] in was.incoming && d.incoming[entries[0]] == was.incoming[entries[0]]
    requires Replaced(was, Place(Parked(d, entries[0]), entries[0]), entries[1..], after)
    ensures Replaced(was, d, entries, after)
  {
    assert entries == [entries[0]] + entries[1..];
  }

  lemma {:induction false} SwapFromMidway<T>(was: Dirs<T>, d: Dirs<T>, entries: seq<string>, swapped: seq<string>, f: Faults)
    requires Midway(was, d, swapped) && Fresh(d, entries)
    requires forall i | 0 <= i < |entries| :: Untouched(was, d, entries[i], swapped)
    ensures
      var r := Swap(d, entries, swapped, f);
      && (r.error.Some? ==> RolledBack(was, r.dirs, f))
      && (r.error.None? ==> Replaced(was, d, entries, r.dirs))
      && (r.error.None? <==> forall i | 0 <= i < |entries| :: Allowed(was, entries[i], f))
    decreases |entries|
  {
    hide Midway, Restore, RolledBack;
    if entries != [] {
      hide Replaced;
      var n := entries[0];
      assert Untouched(was, d, n, swapped);
      if n in d.live && f.park(n) {
        MidwayRestores(was, d, swapped, f);
      } else if f.place(n) {
        ParkKeepsMidway(was, d, n, swapped);
        MidwayRestores(was, Parked(d, n), Noted(d, n, swapped), f);
      } else {
        PlaceKeepsFresh(Parked(d, n), entries);
        PlaceKeepsMidway(was, d, n, swapped);
        var next := Place(Parked(d, n), n);
        forall i | 0 <= i < |entries[1..]| ensures Untouched(was, next, entries[1..][i], Noted(d, n, swapped)) {
          OthersUntouched(was, d, n, swapped, entries[i + 1]);
        }
        SwapFromMidway(was, next, entries[1..], Noted(d, n, swapped), f);
        var r := Swap(d, entries, swapped, f);
        if r.error.None? { ReplacedCons(was, d, entries, r.dirs); }
        AllowedTail(was, entries, f);
      }
    }
  }

  predicate Untouched<T(==)>(was: Dirs<T>, d: Dirs<T>, n: string, swapped: seq<string>) {
    n !in swapped && n in was.incoming && n in d.incoming && d.incoming[n] == was.incoming[n] && (n in d.live <==> n in was.live)
  }

  /** No rename of this entry is refused. */
  predicate Allowed<T>(was: Dirs<T>, n: string, f: Faults) {
    (n in was.live ==> !f.park(n)) && !f.place(n)
  }

  lemma AllowedTail<T>(was: Dirs<T>, entries: seq<string>, f: Faults)
    requires entries != [] && Allowed(was, entries[0], f)
    ensures (forall i | 0 <= i < |entries| :: Allowed(was, entries[i], f)) <==> (forall i | 0 <= i < |entries[1..]| :: Allowed(was, entries[1..][i], f))
  {
    forall i | 1 <= i < |entries| ensures entries[i] == entries[1..][i - 1] {
    }
  }

  /** The listed entries hold the package's contents; all others are as before. */
  ghost predicate Replaced<T>(was: Dirs<T>, before: Dirs<T>, entries: seq<string>, d: Dirs<T>) {
    && (forall i | 0 <= i < |entries| :: entries[i] in d.live && entries[i] in was.incoming && d.live[entries[i]] == was.incoming[entries[i]])
    && (forall n | n !in entries :: (n in d.live <==> n in before.live) && (n in d.live ==> d.live[n] == before.live[n]))
  }

  /**
    From an empty backup: the swap succeeds exactly when no rename it needs is refused, and
    then every package entry is fresh and all others untouched; otherwise every entry that
    was there is back with its contents, or kept in the backup where its own restore failed.
  */
  lemma SwapIsTransactional<T>(d: Dirs<T>, entries: seq<string>, f: Faults)
    requires Fresh(d, entries) && d.parked == map[]
    ensures
      var r := Swap(d, entries, [], f);
      && (r.error.None? <==> forall i | 0 <= i < |entries| :: Allowed(d, entries[i], f))
      && (r.error.None? ==> Replaced(d, d, entries, r.dirs))
      && (r.error.Some? ==> RolledBack(d, r.dirs, f))
      && (r.error.Some? && (forall n :: !f.restore(n)) ==> forall n | n in d.live :: n in r.dirs.live && r.dirs.live[n] == d.live[n])
  {
    SwapFromMidway(d, d, entries, [], f);
  }

  lemma {:induction false} RestoreLeaves<T>(d: Dirs<T>, swapped: seq<string>, f: Faults, n: string)
    requires n !in swapped && n in d.live
    ensures var r := Restore(d, swapped, f); n in r.live && r.live[n] == d.live[n]
    decreases |swapped|
  {
    if swapped != [] {
      assert swapped[|swapped| - 1] in swapped;
      RestoreLeaves(RestoreOne(d, swapped[|swapped| - 1], f), swapped[..|swapped| - 1], f, n);
    }
  }

  lemma {:induction false} SwapLeaves<T>(d: Dirs<T>, entries: seq<string>, swapped: seq<string>, f: Faults, n: string)
    requires Fresh(d, entries) && n !in swapped && n !in entries && n in d.live
    ensures var r := Swap(d, entries, swapped, f); n in r.dirs.live && r.dirs.live[n] == d.live[n]
    decreases |entries|
  {
    if entries != [] {
      var e := entries[0];
      var parked, done := Parked(d, e), Noted(d, e, swapped);
      if e in d.live && f.park(e) {
        RestoreLeaves(d, swapped, f, n);
      } else if f.place(e) {
        RestoreLeaves(parked, done, f, n);
      } else {
        PlaceKeepsFresh(parked, entries);
        SwapLeaves(Place(parked, e), entries[1..], done, f, n);
      }
    }
  }

  // ---------------------------------------------------------------------------
  // What a rollback leaves behind
  // ---------------------------------------------------------------------------

  /** Entry `i` is reached and no rename up to it is refused. */
  predicate PlacedBefore<T>(d: Dirs<T>, entries: seq<string>, f: Faults, i: int) {
    0 <= i < |entries| && forall j | 0 <= j <= i :: Allowed(d, entries[j], f)
  }

  ghost predicate Placed<T>(d: Dirs<T>, entries: seq<string>, f: Faults, n: string) {
    exists i | PlacedBefore(d, entries, f, i) :: entries[i] == n
  }

  lemma PlacedFirst<T>(d: Dirs<T>, entries: seq<string>, f: Faults, n: string)
    requires Fresh(d, entries) && entries != []
    ensures !Allowed(d, entries[0], f) ==> !Placed(d, entries, f, n)
    ensures Allowed(d, entries[0], f) && entries[0] == n ==> Placed(d, entries, f, n)
    ensures
      var next := Place(Parked(d, entries[0]), entries[0]);
      Allowed(d, entries[0], f) && entries[0] != n ==> (Placed(d, entries, f, n) <==> Placed(next, entries[1..], f, n))
  {
    var next := Place(Parked(d, entries[0]), entries[0]);
    if Allowed(d, entries[0], f) {
      forall i: nat | i < |entries| ensures PlacedBefore(d, entries, f, i) <==> i == 0 || PlacedBefore(next, entries[1..], f, i - 1) {
        forall j | 1 <= j < |entries| ensures entries[1..][j - 1] == entries[j] != entries[0] {}
        if i > 0 && PlacedBefore(d, entries, f, i) {
          forall j | 0 <= j <= i - 1 ensures Allowed(next, entries[1..][j], f) { assert Allowed(d, entries[j + 1], f); }
        }
        if i > 0 && PlacedBefore(next, entries[1..], f, i - 1) {
          forall j | 1 <= j <= i ensures Allowed(d, entries[j], f) { assert Allowed(next, entries[1..][j - 1], f); }
        }
      }
      assert PlacedBefore(d, entries, f, 0);
      if i :| PlacedBefore(next, entries[1..], f, i) && entries[1..][i] == n { assert PlacedBefore(d, entries, f, i + 1); }
    }
  }

  lemma {:induction false} RestoreAddsNothing<T>(d: Dirs<T>, swapped: seq<string>, f: Faults, n: string)
    requires n !in swapped && n !in d.live
    ensures n !in Restore(d, swapped, f).live
    decreases |swapped|
  {
    if swapped != [] {
      assert swapped[|swapped| - 1] in swapped;
      RestoreAddsNothing(RestoreOne(d, swapped[|swapped| - 1], f), swapped[..|swapped| - 1], f, n);
    }
  }

  lemma {:induction false} SwapAdds<T>(d: Dirs<T>, entries: seq<string>, swapped: seq<string>, f: Faults, n: string)
    requires Fresh(d, entries) && n !in swapped && n !in d.live
    ensures var r := Swap(d, entries, swapped, f); n in r.dirs.live <==> Placed(d, entries, f, n)
    decreases |entries|
  {
    if entries != [] {
      var e := entries[0];
      var parked, done := Parked(d, e), Noted(d, e, swapped);
      PlacedFirst(d, entries, f, n);
      if e in d.live && f.park(e) {
        RestoreAddsNothing(d, swapped, f, n);
      } else if f.place(e) {
        RestoreAddsNothing(parked, done, f, n);
      } else {
        PlaceKeepsFresh(parked, entries);
        if e == n { SwapLeaves(Place(parked, e), entries[1..], done, f, n); }
        else { SwapAdds(Place(parked, e), entries[1..], done, f, n); }
      }
    }
  }

  /**
    Whatever fails, the entries left that were not there before are exactly the new ones
    placed before the failure, with the package's contents: rollback never removes them.
  */
  lemma NewEntriesStay<T>(d: Dirs<T>, entries: seq<string>, f: Faults, n: string)
    requires Fresh(d, entries) && d.parked == map[] && n !in d.live
    ensures
      var r := Swap(d, entries, [], f);
      && (n in r.dirs.live <==> Placed(d, entries, f, n))
      && (n in r.dirs.live ==> n in d.incoming && r.dirs.live[n] == d.incoming[n])
  {
    SwapAdds(d, entries, [], f, n);
    SwapIsTransactional(d, entries, f);
    var r := Swap(d, entries, [], f);
    if r.error.None? && n in r.dirs.live {
      assert n in entries;
    }
  }

  /**
    A failed swap whose restoring renames succeed leaves the install as it was exactly when
    every entry placed before the failure replaced an old one.
  */
  lemma RollbackIsComplete<T>(d: Dirs<T>, entries: seq<string>, f: Faults)
    requires Fresh(d, entries) && d.parked == map[] && (forall n :: !f.restore(n))
    requires Swap(d, entries, [], f).error.Some?
    ensures Swap(d, entries, [], f).dirs.live == d.live <==> forall i | PlacedBefore(d, entries, f, i) :: entries[i] in d.live
  {
    SwapIsTransactional(d, entries, f);
    var live := Swap(d, entries, [], f).dirs.live;
    forall n | n !in d.live ensures n in live <==> Placed(d, entries, f, n) { NewEntriesStay(d, entries, f, n); }
    if forall i | PlacedBefore(d, entries, f, i) :: entries[i] in d.live {
      assert live.Keys == d.live.Keys;
    } else {
      var i :| PlacedBefore(d, entries, f, i) && entries[i] !in d.live;
      assert Placed(d, entries, f, entries[i]);
    }
  }

  /** So a package without new top-level entries is always rolled back in full. */
  lemma KnownEntriesRollBack<T>(d: Dirs<T>, entries: seq<string>, f: Faults)
    requires Fresh(d, entries) && d.parked == map[] && (forall n :: !f.restore(n))
    requires Swap(d, entries, [], f).error.Some? && forall i | 0 <= i < |entries| :: entries[i] in d.live
    ensures Swap(d, entries, [], f).dirs.live == d.live
  {
    RollbackIsComplete(d, entries, f);
  }
}
