/**
  The byte stream fed to the hash of a package tree: a header, then every file's path and
  contents framed by their lengths, in the order of their paths.
*/
module TreeDigest {
  import opened Wrappers
  import opened Sorting
  import T = Text
  import L = Lockfile

  /** Bytes, one character each. */
  type Bytes = string

  datatype Node = File(content: Bytes) | Dir(entries: seq<Entry>) | Symlink | Special

  /** Directory entries come in whatever order the file system lists them. */
  datatype Entry = Entry(name: string, node: Node)

  datatype FileAt = FileAt(path: string, content: Bytes)

  datatype Error = SymlinkUnsupported(path: string)

  const HEADER := "ori-package-tree-v1\0"

  const CACHE_METADATA_FILE := ".ori-cache.json"

  predicate Ignored(name: string) {
    name == ".git" || name == "target" || name == CACHE_METADATA_FILE
  }

  // ---------------------------------------------------------------------------
  // The walk
  // ---------------------------------------------------------------------------

  function CollectEntry(e: Entry, prefix: string): Result<seq<FileAt>, Error> {
    if Ignored(e.name) then Ok([])
    else match e.node
      case Symlink => Err(SymlinkUnsupported(prefix + e.name))
      case Dir(entries) => Collect(entries, prefix + e.name + "/")
      case File(content) => Ok([FileAt(L.Slashes(prefix + e.name), content)])
      case Special => Ok([])
  }

  function Collect(entries: seq<Entry>, prefix: string): Result<seq<FileAt>, Error> {
    if entries == [] then Ok([])
    else match CollectEntry(entries[0], prefix)
      case Err(e) => Err(e)
      case Ok(files) =>
        match Collect(entries[1..], prefix)
        case Err(e) => Err(e)
        case Ok(more) => Ok(files + more)
  }

  class Walker {
    var files: seq<FileAt>

    constructor ()
      ensures files == []
    {
      files := [];
    }

    method CollectInto(entries: seq<Entry>, prefix: string) returns (r: Result<(), Error>)
      modifies this
      ensures
        match Collect(entries, prefix)
        case Ok(found) => r == Ok(()) && files == old(files) + found
        case Err(e) => r == Err(e)
      decreases entries
    {
      var i := 0;
      ghost var done: seq<FileAt> := [];
      assert entries[0..] == entries;
      PrependTwice([], [], Collect(entries, prefix));
      while i < |entries|
        invariant 0 <= i <= |entries| && files == old(files) + done
        invariant Collect(entries, prefix) == Prepend(done, Collect(entries[i..], prefix))
      {
        var e := entries[i];
        assert entries[i..][0] == e && entries[i..][1..] == entries[i + 1..];
        i := i + 1;
        if Ignored(e.name) { PrependTwice(done, [], Collect(entries[i..], prefix)); continue; }
        match e.node {
          case Symlink => return Err(SymlinkUnsupported(prefix + e.name));
          case Dir(inner) =>
            var below := CollectInto(inner, prefix + e.name + "/");
            if below.Err? { return below; }
            ghost var found := Collect(inner, prefix + e.name + "/").value;
            PrependTwice(done, found, Collect(entries[i..], prefix));
            done := done + found;
          case File(content) =>
            files := files + [FileAt(L.Slashes(prefix + e.name), content)];
            PrependTwice(done, [FileAt(L.Slashes(prefix + e.name), content)], Collect(entries[i..], prefix));
            done := done + [FileAt(L.Slashes(prefix + e.name), content)];
          case Special => PrependTwice(done, [], Collect(entries[i..], prefix));
        }
      }
      assert done + [] == done;
      return Ok(());
    }
  }

  function Prepend(done: seq<FileAt>, r: Result<seq<FileAt>, Error>): Result<seq<FileAt>, Error> {
    match r case Err(e) => Err(e) case Ok(more) => Ok(done + more)
  }

  lemma PrependTwice(a: seq<FileAt>, b: seq<FileAt>, r: Result<seq<FileAt>, Error>)
    ensures Prepend(a, Prepend(b, r)) == Prepend(a + b, r)
    ensures Prepend([], r) == r
  {
    if r.Ok? { assert a + (b + r.value) == a + b + r.value && [] + r.value == r.value; }
  }

  // ---------------------------------------------------------------------------
  // The stream
  // ---------------------------------------------------------------------------

  /** `count` bytes of `n`, least significant first. */
  function LittleEndian(n: nat, count: nat): (r: Bytes)
    ensures |r| == count
  {
    if count == 0 then [] else [(n % 256) as char] + LittleEndian(n / 256, count - 1)
  }

  function Length(s: Bytes): Bytes { LittleEndian(|s|, 8) }

  function Frame(f: FileAt): Bytes { Length(f.path) + f.path + Length(f.content) + f.content }

  function Frames(files: seq<FileAt>): Bytes {
    if files == [] then [] else Frame(files[0]) + Frames(files[1..])
  }

  predicate ByPath(a: FileAt, b: FileAt) { Lex(a.path, b.path) }

  function Stream(files: seq<FileAt>): Bytes { HEADER + Frames(Sort(ByPath, files)) }

  method PushFile(stream: Bytes, f: FileAt) returns (r: Bytes)
    ensures r == stream + Frame(f)
  {
    r := stream + Length(f.path);
    r := r + f.path;
    r := r + Length(f.content);
    r := r + f.content;
    assert r == stream + (Length(f.path) + f.path + Length(f.content) + f.content);
  }

  method WriteStream(files: seq<FileAt>) returns (stream: Bytes)
    ensures stream == Stream(files)
  {
    hide Frame;
    var sorted := Sort(ByPath, files);
    stream := HEADER;
    for i := 0 to |sorted|
      invariant stream + Frames(sorted[i..]) == Stream(files)
    {
      assert sorted[i..][0] == sorted[i] && sorted[i..][1..] == sorted[i + 1..];
      assert stream + Frame(sorted[i]) + Frames(sorted[i + 1..]) == stream + Frames(sorted[i..]);
      stream := PushFile(stream, sorted[i]);
    }
    assert sorted[|sorted|..] == [];
  }

  method PackageTreeStream(entries: seq<Entry>) returns (r: Result<Bytes, Error>)
    ensures
      match Collect(entries, "")
      case Ok(files) => r == Ok(Stream(files))
      case Err(e) => r == Err(e)
  {
    var walker := new Walker();
    var walked := walker.CollectInto(entries, "");
    if walked.Err? { return Err(walked.error); }
    assert walker.files == Collect(entries, "").value;
    var stream := WriteStream(walker.files);
    return Ok(stream);
  }

  // ---------------------------------------------------------------------------
  // Framing loses nothing
  // ---------------------------------------------------------------------------

  const U64: nat := 0x1_0000_0000_0000_0000

  predicate FitsU64(files: seq<FileAt>) {
    forall i | 0 <= i < |files| :: |files[i].path| < U64 && |files[i].content| < U64
  }

  function Power256(n: nat): (p: nat)
    ensures p > 0
  {
    if n == 0 then 1 else 256 * Power256(n - 1)
  }

  lemma {:induction false} LittleEndianInjective(a: nat, b: nat, count: nat)
    requires a < Power256(count) && b < Power256(count) && LittleEndian(a, count) == LittleEndian(b, count)
    ensures a == b
  {
    if count > 0 {
      var x, y := LittleEndian(a, count), LittleEndian(b, count);
      assert x[0] == (a % 256) as char && y[0] == (b % 256) as char;
      assert x[1..] == LittleEndian(a / 256, count - 1) && y[1..] == LittleEndian(b / 256, count - 1);
      LittleEndianInjective(a / 256, b / 256, count - 1);
    }
  }

  lemma EightBytes()
    ensures Power256(8) == U64
  {
    assert Power256(2) == 0x1_0000;
    assert Power256(4) == 0x1_0000_0000;
    assert Power256(6) == 0x1_0000_0000_0000;
  }

  /** A length-framed string at the head of a stream can be told apart from what follows. */
  lemma FrameHead(a: Bytes, b: Bytes, x: Bytes, y: Bytes)
    requires |a| < U64 && |b| < U64 && Length(a) + a + x == Length(b) + b + y
    ensures a == b && x == y
  {
    var s, t := Length(a) + a + x, Length(b) + b + y;
    assert s[..8] == Length(a) && t[..8] == Length(b);
    EightBytes();
    LittleEndianInjective(|a|, |b|, 8);
    assert s[8..8 + |a|] == a && t[8..8 + |b|] == b;
    assert s[8 + |a|..] == x && t[8 + |b|..] == y;
  }

  lemma {:induction false} FramesInjective(a: seq<FileAt>, b: seq<FileAt>)
    requires FitsU64(a) && FitsU64(b) && Frames(a) == Frames(b)
    ensures a == b
  {
    FramesEmpty(a);
    FramesEmpty(b);
    if a != [] {
      var x, y := a[0], b[0];
      FrameOf(a);
      FrameOf(b);
      FrameHead(x.path, y.path, Length(x.content) + x.content + Frames(a[1..]), Length(y.content) + y.content + Frames(b[1..]));
      FrameHead(x.content, y.content, Frames(a[1..]), Frames(b[1..]));
      FramesInjective(a[1..], b[1..]);
      assert a == [x] + a[1..] && b == [y] + b[1..];
    }
  }

  lemma FramesEmpty(a: seq<FileAt>)
    ensures Frames(a) == [] <==> a == []
  {
    if a != [] { assert |Frame(a[0])| > 0; }
  }

  lemma FrameOf(a: seq<FileAt>)
    requires a != []
    ensures Frames(a) == Length(a[0].path) + a[0].path + (Length(a[0].content) + a[0].content + Frames(a[1..]))
  {
  }

  lemma ByPathPreorder()
    ensures Preorder(ByPath)
  {
    forall a: FileAt, b: FileAt ensures ByPath(a, b) || ByPath(b, a) { LexTotal(a.path, b.path); }
    forall a: FileAt, b: FileAt, c: FileAt | ByPath(a, b) && ByPath(b, c) ensures ByPath(a, c) {
      LexTransitive(a.path, b.path, c.path);
    }
  }

  /** Equal streams come from the same files, whatever order the walks found them in. */
  lemma StreamInjective(a: seq<FileAt>, b: seq<FileAt>)
    requires FitsU64(a) && FitsU64(b) && Stream(a) == Stream(b)
    ensures multiset(a) == multiset(b)
  {
    var x, y := Sort(ByPath, a), Sort(ByPath, b);
    assert Stream(a)[|HEADER|..] == Frames(x) && Stream(b)[|HEADER|..] == Frames(y);
    SortFits(a);
    SortFits(b);
    FramesInjective(x, y);
  }

  lemma SortFits(a: seq<FileAt>)
    requires FitsU64(a)
    ensures FitsU64(Sort(ByPath, a))
  {
    var x := Sort(ByPath, a);
    forall i | 0 <= i < |x| ensures |x[i].path| < U64 && |x[i].content| < U64 {
      assert x[i] in multiset(a);
    }
  }

  // ---------------------------------------------------------------------------
  // When the order of the walk does not matter
  // ---------------------------------------------------------------------------

  /** No path is held by two files with different contents. */
  predicate OneContentPerPath(files: seq<FileAt>) {
    forall i, j | 0 <= i < |files| && 0 <= j < |files| :: files[i].path == files[j].path ==> files[i] == files[j]
  }

  lemma PermutedStream(a: seq<FileAt>, b: seq<FileAt>)
    requires OneContentPerPath(a) && multiset(a) == multiset(b)
    ensures Stream(a) == Stream(b)
  {
    ByPathPreorder();
    forall i, j | 0 <= i < |a| && 0 <= j < |a| && ByPath(a[i], a[j]) && ByPath(a[j], a[i]) ensures a[i] == a[j] {
      LexAntisymmetric(a[i].path, a[j].path);
    }
    SortIgnoresOrder(ByPath, a, b);
  }

  function AtPath(files: seq<FileAt>, path: string): seq<FileAt> {
    if files == [] then [] else (if files[0].path == path then [files[0]] else []) + AtPath(files[1..], path)
  }

  /** Sorting is stable: files of one path stay in the order of the walk. */
  lemma {:induction false} SortIsStable(files: seq<FileAt>, path: string)
    ensures AtPath(Sort(ByPath, files), path) == AtPath(files, path)
  {
    if files != [] {
      SortIsStable(files[1..], path);
      InsertIsStable(files[0], Sort(ByPath, files[1..]), path);
    }
  }

  lemma SamePathTies(f: FileAt, g: FileAt)
    ensures f.path == g.path ==> ByPath(f, g)
  {
    LexReflexive(f.path);
  }

  lemma {:induction false} InsertIsStable(f: FileAt, files: seq<FileAt>, path: string)
    ensures AtPath(Insert(ByPath, f, files), path) == (if f.path == path then [f] else []) + AtPath(files, path)
  {
    hide ByPath, AtPath;
    if files == [] || ByPath(f, files[0]) {
      AtPathCons(f, files, path);
    } else {
      var rest := Insert(ByPath, f, files[1..]);
      InsertIsStable(f, files[1..], path);
      SamePathTies(f, files[0]);
      AtPathCons(files[0], rest, path);
      AtPathCons(files[0], files[1..], path);
      assert files == [files[0]] + files[1..];
    }
  }

  lemma AtPathCons(f: FileAt, files: seq<FileAt>, path: string)
    ensures AtPath([f] + files, path) == (if f.path == path then [f] else []) + AtPath(files, path)
    ensures [] + AtPath(files, path) == AtPath(files, path)
  {
    assert ([f] + files)[1..] == files;
  }

  lemma SwappedStream(x: FileAt, y: FileAt, rest: seq<FileAt>)
    requires x.path == y.path && x != y && FitsU64([x, y] + rest)
    ensures Stream([x, y] + rest) != Stream([y, x] + rest)
  {
    var a, b := [x, y] + rest, [y, x] + rest;
    assert a[1..][1..] == rest && b[1..][1..] == rest;
    SortIsStable(a, x.path);
    SortIsStable(b, x.path);
    assert AtPath(a, x.path)[0] == x && AtPath(b, x.path)[0] == y;
    if Stream(a) == Stream(b) {
      assert Stream(a)[|HEADER|..] == Frames(Sort(ByPath, a)) && Stream(b)[|HEADER|..] == Frames(Sort(ByPath, b));
      SortFits(a);
      SortFits(b);
      FramesInjective(Sort(ByPath, a), Sort(ByPath, b));
    }
  }

  lemma WithoutTwo(files: seq<FileAt>, i: nat, j: nat) returns (rest: seq<FileAt>)
    requires i < j < |files|
    ensures multiset([files[i], files[j]] + rest) == multiset(files) == multiset([files[j], files[i]] + rest)
  {
    rest := files[..i] + files[i + 1..j] + files[j + 1..];
    assert files == files[..i] + [files[i]] + files[i + 1..j] + [files[j]] + files[j + 1..];
  }

  lemma ConflictShows(files: seq<FileAt>, i: nat, j: nat) returns (other: seq<FileAt>)
    requires FitsU64(files) && i < j < |files| && files[i].path == files[j].path && files[i] != files[j]
    ensures multiset(other) == multiset(files) && Stream(other) != Stream(files)
  {
    hide Stream;
    var rest := WithoutTwo(files, i, j);
    var a, b := [files[i], files[j]] + rest, [files[j], files[i]] + rest;
    PermutedFits(files, a);
    SwappedStream(files[i], files[j], rest);
    other := if Stream(a) != Stream(files) then a else b;
  }

  /** The stream depends on files alone, not on the walk, exactly when paths have one content each. */
  lemma WalkOrderIsIrrelevant(files: seq<FileAt>)
    requires FitsU64(files)
    ensures (forall other | multiset(other) == multiset(files) :: Stream(other) == Stream(files)) <==> OneContentPerPath(files)
  {
    hide Stream;
    if OneContentPerPath(files) {
      forall other | multiset(other) == multiset(files) ensures Stream(other) == Stream(files) {
        PermutedStream(files, other);
      }
    } else {
      var i, j :| 0 <= i < |files| && 0 <= j < |files| && files[i].path == files[j].path && files[i] != files[j];
      var other := ConflictShows(files, if i < j then i else j, if i < j then j else i);
    }
  }

  lemma PermutedFits(a: seq<FileAt>, b: seq<FileAt>)
    requires FitsU64(a) && multiset(a) == multiset(b)
    ensures FitsU64(b)
  {
    forall i | 0 <= i < |b| ensures |b[i].path| < U64 && |b[i].content| < U64 {
      assert b[i] in multiset(a);
    }
  }

  // ---------------------------------------------------------------------------
  // Whole trees
  // ---------------------------------------------------------------------------

  /** Entry names are distinct, and free of both separators. */
  predicate PlainNames(entries: seq<Entry>)
    decreases entries, 1
  {
    && (forall i, j | 0 <= i < j < |entries| :: entries[i].name != entries[j].name)
    && EachPlain(entries)
  }

  predicate EachPlain(entries: seq<Entry>)
    decreases entries, 0
  {
    entries == [] || (PlainEntry(entries[0]) && EachPlain(entries[1..]))
  }

  predicate PlainEntry(e: Entry)
    decreases e
  {
    '/' !in e.name && '\\' !in e.name && (e.node.Dir? ==> PlainNames(e.node.entries))
  }

  lemma {:induction false} SlashesPlain(path: string)
    requires '\\' !in path
    ensures L.Slashes(path) == path
  {
    if path != "" {
      assert path == [path[0]] + path[1..];
      SlashesPlain(path[1..]);
    }
  }

  /** The file lies under `prefix`, in the entry called `name`. */
  predicate Under(f: FileAt, prefix: string, name: string) {
    prefix <= f.path && T.Find(f.path[|prefix|..], '/') == |name| && name <= f.path[|prefix|..]
  }

  predicate DistinctPaths(files: seq<FileAt>) {
    forall i, j | 0 <= i < j < |files| :: files[i].path != files[j].path
  }

  lemma {:induction false} EntryPaths(e: Entry, prefix: string)
    requires PlainEntry(e) && '\\' !in prefix && CollectEntry(e, prefix).Ok?
    ensures forall f | f in CollectEntry(e, prefix).value :: Under(f, prefix, e.name)
    ensures DistinctPaths(CollectEntry(e, prefix).value)
    decreases e
  {
    hide Collect;
    if !Ignored(e.name) {
      match e.node
      case File(content) =>
        SlashesPlain(prefix + e.name);
        assert (prefix + e.name)[|prefix|..] == e.name;
        T.FindNone(e.name, '/');
      case Dir(entries) =>
        TreePaths(entries, prefix + e.name + "/");
        forall f | f in CollectEntry(e, prefix).value ensures Under(f, prefix, e.name) {
          UnderDir(f, prefix, e.name);
        }
      case _ =>
    }
  }

  lemma UnderDir(f: FileAt, prefix: string, name: string)
    requires (prefix + name + "/") <= f.path && '/' !in name
    ensures Under(f, prefix, name)
  {
    var rest := f.path[|prefix| + |name| + 1..];
    assert f.path == prefix + name + "/" + rest;
    assert f.path[|prefix|..] == name + ['/'] + rest;
    T.FindHere(name, '/', rest);
  }

  /** In a tree with plain names no two files have the same path. */
  lemma {:induction false} TreePaths(entries: seq<Entry>, prefix: string)
    requires PlainNames(entries) && '\\' !in prefix && Collect(entries, prefix).Ok?
    ensures forall f | f in Collect(entries, prefix).value :: prefix <= f.path && exists i | 0 <= i < |entries| :: Under(f, prefix, entries[i].name)
    ensures DistinctPaths(Collect(entries, prefix).value)
    decreases entries
  {
    if entries != [] {
      EntryPaths(entries[0], prefix);
      TreePaths(entries[1..], prefix);
      var here, more := CollectEntry(entries[0], prefix).value, Collect(entries[1..], prefix).value;
      forall f | f in more ensures exists i | 1 <= i < |entries| :: Under(f, prefix, entries[i].name) {
        var i :| 0 <= i < |entries[1..]| && Under(f, prefix, entries[1..][i].name);
        assert Under(f, prefix, entries[i + 1].name);
      }
      forall f, g | f in here && g in more ensures f.path != g.path {
        var i :| 1 <= i < |entries| && Under(g, prefix, entries[i].name);
        assert Under(f, prefix, entries[0].name);
        if f.path == g.path { SameName(f, prefix, entries[0].name, entries[i].name); }
      }
    }
  }

  lemma SameName(f: FileAt, prefix: string, a: string, b: string)
    requires Under(f, prefix, a) && Under(f, prefix, b)
    ensures a == b
  {
    var rest := f.path[|prefix|..];
    assert a == rest[..|a|] && b == rest[..|b|];
  }

  /**
    Two trees with plain names have the same stream exactly when they have the same files at
    the same paths, in whatever order their directories are listed.
  */
  lemma TreesHaveSameStream(a: seq<Entry>, b: seq<Entry>)
    requires PlainNames(a) && PlainNames(b) && Collect(a, "").Ok? && Collect(b, "").Ok?
    requires FitsU64(Collect(a, "").value) && FitsU64(Collect(b, "").value)
    ensures Stream(Collect(a, "").value) == Stream(Collect(b, "").value)
       <==> multiset(Collect(a, "").value) == multiset(Collect(b, "").value)
  {
    TreePaths(a, "");
    SameStreamSameFiles(Collect(a, "").value, Collect(b, "").value);
  }

  /** Files with one content per path have the stream of any others exactly when they are the same, up to order. */
  lemma SameStreamSameFiles(x: seq<FileAt>, y: seq<FileAt>)
    requires FitsU64(x) && FitsU64(y) && OneContentPerPath(x)
    ensures Stream(x) == Stream(y) <==> multiset(x) == multiset(y)
  {
    hide Stream;
    if Stream(x) == Stream(y) { StreamInjective(x, y); }
    if multiset(x) == multiset(y) { PermutedStream(x, y); }
  }

  // ---------------------------------------------------------------------------
  // Which trees have a twin
  // ---------------------------------------------------------------------------

  /** The files of a tree at the paths they really have, links passed over. */
  function Raw(entries: seq<Entry>, prefix: string): seq<FileAt> {
    if entries == [] then [] else RawEntry(entries[0], prefix) + Raw(entries[1..], prefix)
  }

  function RawEntry(e: Entry, prefix: string): seq<FileAt> {
    if Ignored(e.name) then []
    else match e.node
      case Dir(entries) => Raw(entries, prefix + e.name + "/")
      case File(content) => [FileAt(prefix + e.name, content)]
      case _ => []
  }

  function Slashed(files: seq<FileAt>): (r: seq<FileAt>)
    ensures |r| == |files|
  {
    seq(|files|, i requires 0 <= i < |files| => FileAt(L.Slashes(files[i].path), files[i].content))
  }

  lemma SlashedAppend(a: seq<FileAt>, b: seq<FileAt>)
    ensures Slashed(a + b) == Slashed(a) + Slashed(b)
  {
  }

  /** The walk finds the raw files, with the separators of their paths made alike. */
  lemma {:induction false} RawIsCollected(entries: seq<Entry>, prefix: string)
    requires Collect(entries, prefix).Ok?
    ensures Collect(entries, prefix).value == Slashed(Raw(entries, prefix))
    decreases entries
  {
    if entries != [] {
      RawEntryIsCollected(entries[0], prefix);
      RawIsCollected(entries[1..], prefix);
      SlashedAppend(RawEntry(entries[0], prefix), Raw(entries[1..], prefix));
    }
  }

  lemma {:induction false} RawEntryIsCollected(e: Entry, prefix: string)
    requires CollectEntry(e, prefix).Ok?
    ensures CollectEntry(e, prefix).value == Slashed(RawEntry(e, prefix))
    decreases e
  {
    hide Collect, Raw;
    if !Ignored(e.name) && e.node.Dir? { RawIsCollected(e.node.entries, prefix + e.name + "/"); }
  }

  /** What a file system can hold: in each directory, distinct names that are not empty and hold no slash. */
  predicate Walkable(entries: seq<Entry>)
    decreases entries, 1
  {
    && (forall i, j | 0 <= i < j < |entries| :: entries[i].name != entries[j].name)
    && EachWalkable(entries)
  }

  predicate EachWalkable(entries: seq<Entry>)
    decreases entries, 0
  {
    entries == [] || (WalkableEntry(entries[0]) && EachWalkable(entries[1..]))
  }

  predicate WalkableEntry(e: Entry)
    decreases e
  {
    e.name != "" && '/' !in e.name && (e.node.Dir? ==> Walkable(e.node.entries))
  }

  /** A tree with other files and the same stream. */
  ghost predicate Twin(a: seq<Entry>, b: seq<Entry>) {
    && Walkable(b) && Collect(b, "").Ok? && FitsU64(Collect(b, "").value) && Collect(a, "").Ok?
    && Stream(Collect(b, "").value) == Stream(Collect(a, "").value) && multiset(Raw(b, "")) != multiset(Raw(a, ""))
  }

  predicate HasSubdirectoryFile(files: seq<FileAt>) {
    exists i | 0 <= i < |files| :: '/' in files[i].path
  }

  lemma {:induction false} SlashesAt(path: string)
    ensures |L.Slashes(path)| == |path|
    ensures forall i | 0 <= i < |path| :: L.Slashes(path)[i] == if path[i] == '\\' then '/' else path[i]
  {
    if path != "" { SlashesAt(path[1..]); }
  }

  lemma NoSlashNoBackslash(path: string)
    requires '/' !in L.Slashes(path)
    ensures '\\' !in path
  {
    SlashesAt(path);
    forall k | 0 <= k < |path| ensures path[k] != '\\' { assert L.Slashes(path)[k] != '/'; }
  }

  /** Where no separator shows, none was there. */
  lemma {:induction false} NoSeparatorIsRaw(files: seq<FileAt>)
    requires !HasSubdirectoryFile(Slashed(files))
    ensures Slashed(files) == files
  {
    forall i | 0 <= i < |files| ensures Slashed(files)[i] == files[i] {
      assert '/' !in Slashed(files)[i].path;
      NoSlashNoBackslash(files[i].path);
      SlashesPlain(files[i].path);
    }
  }

  lemma {:induction false} SubdirectoryFilePermuted(x: seq<FileAt>, y: seq<FileAt>)
    requires multiset(x) == multiset(y) && HasSubdirectoryFile(y)
    ensures HasSubdirectoryFile(x)
  {
    var i :| 0 <= i < |y| && '/' in y[i].path;
    assert y[i] in multiset(x);
  }

  /** Without files in subdirectories there is no twin. */
  lemma FlatHasNoTwin(a: seq<Entry>, b: seq<Entry>)
    requires Collect(a, "").Ok? && FitsU64(Collect(a, "").value) && !HasSubdirectoryFile(Collect(a, "").value)
    ensures !Twin(a, b)
  {
    hide Stream, Walkable, HasSubdirectoryFile;
    if Twin(a, b) {
      var x, y := Collect(a, "").value, Collect(b, "").value;
      StreamInjective(x, y);
      RawIsCollected(a, "");
      RawIsCollected(b, "");
      if HasSubdirectoryFile(y) { SubdirectoryFilePermuted(x, y); }
      NoSeparatorIsRaw(Raw(a, ""));
      NoSeparatorIsRaw(Raw(b, ""));
    }
  }

  // The twin: all files in one directory, their paths spelled with backslashes.

  function Back(path: string): (r: string)
    ensures |r| == |path|
  {
    seq(|path|, i requires 0 <= i < |path| => if path[i] == '/' then '\\' else path[i])
  }

  lemma BackAndForth(path: string)
    requires '\\' !in path
    ensures L.Slashes(Back(path)) == path && '/' !in Back(path)
  {
    SlashesAt(Back(path));
  }

  function FlatEntry(f: FileAt): Entry { Entry(Back(f.path), File(f.content)) }

  function Flat(files: seq<FileAt>): seq<Entry> {
    if files == [] then [] else [FlatEntry(files[0])] + Flat(files[1..])
  }

  /** Paths a flat copy can be named after. */
  predicate Nameable(path: string) { path != "" && '\\' !in path && !Ignored(Back(path)) }

  lemma {:induction false} FlatCollects(files: seq<FileAt>)
    requires forall i | 0 <= i < |files| :: Nameable(files[i].path)
    ensures Collect(Flat(files), "") == Ok(files) && EachWalkable(Flat(files))
  {
    if files != [] {
      hide Collect, CollectEntry, WalkableEntry, Nameable;
      var f, e := files[0], FlatEntry(files[0]);
      FlatCollects(files[1..]);
      FlatEntryCollects(f);
      assert Flat(files) == [e] + Flat(files[1..]) && [f] + files[1..] == files;
      CollectCons(e, Flat(files[1..]), [f], files[1..]);
    }
  }

  lemma {:induction false} FlatNames(files: seq<FileAt>)
    ensures |Flat(files)| == |files|
    ensures forall i | 0 <= i < |files| :: Flat(files)[i].name == Back(files[i].path)
  {
    if files != [] {
      FlatNames(files[1..]);
      assert Flat(files) == [FlatEntry(files[0])] + Flat(files[1..]);
    }
  }

  lemma FlatEntryCollects(f: FileAt)
    requires Nameable(f.path)
    ensures CollectEntry(FlatEntry(f), "") == Ok([f]) && WalkableEntry(FlatEntry(f))
  {
    BackAndForth(f.path);
    assert "" + Back(f.path) == Back(f.path);
  }

  lemma CollectCons(e: Entry, rest: seq<Entry>, found: seq<FileAt>, more: seq<FileAt>)
    requires CollectEntry(e, "") == Ok(found) && Collect(rest, "") == Ok(more)
    ensures Collect([e] + rest, "") == Ok(found + more)
  {
    assert ([e] + rest)[1..] == rest;
  }

  lemma {:induction false} FlatIsWalkable(files: seq<FileAt>)
    requires (forall i | 0 <= i < |files| :: Nameable(files[i].path)) && DistinctPaths(files)
    ensures Walkable(Flat(files))
  {
    hide Collect, EachWalkable, Flat, Nameable;
    FlatCollects(files);
    FlatNames(files);
    forall i, j | 0 <= i < j < |files| ensures Back(files[i].path) != Back(files[j].path) {
      assert Nameable(files[i].path) && Nameable(files[j].path) && files[i].path != files[j].path;
      BackDiffers(files[i].path, files[j].path);
    }
  }

  lemma BackDiffers(p: string, q: string)
    requires Nameable(p) && Nameable(q) && p != q
    ensures Back(p) != Back(q)
  {
    hide Back;
    BackAndForth(p);
    BackAndForth(q);
  }

  /** Names at the top are never those the walk passes over, and everything below holds a slash. */
  lemma {:induction false} CollectedIsNameable(entries: seq<Entry>)
    requires PlainNames(entries) && EachWalkable(entries) && Collect(entries, "").Ok?
    ensures forall f | f in Collect(entries, "").value :: Nameable(f.path)
    decreases entries
  {
    if entries != [] {
      var e := entries[0];
      CollectedIsNameable(entries[1..]);
      forall f | f in CollectEntry(e, "").value ensures Nameable(f.path) { EntryIsNameable(e, f); }
    }
  }

  lemma EntryIsNameable(e: Entry, f: FileAt)
    requires PlainEntry(e) && WalkableEntry(e) && CollectEntry(e, "").Ok? && f in CollectEntry(e, "").value
    ensures Nameable(f.path)
  {
    hide Collect;
    assert "" + e.name == e.name;
    if e.node.File? {
      SlashesPlain(e.name);
      assert Back(e.name) == e.name;
    } else {
      var prefix := e.name + "/";
      TreePaths(e.node.entries, prefix);
      assert prefix <= f.path;
      RawIsCollected(e.node.entries, prefix);
      NoBackslashLeft(Raw(e.node.entries, prefix), f);
      BackslashNotIgnored(f.path, |e.name|);
    }
  }

  lemma NoBackslashLeft(raw: seq<FileAt>, f: FileAt)
    requires f in Slashed(raw)
    ensures '\\' !in f.path
  {
    var i :| 0 <= i < |raw| && f == Slashed(raw)[i];
    SlashesAt(raw[i].path);
  }

  lemma BackslashNotIgnored(path: string, k: nat)
    requires k < |path| && path[k] == '/'
    ensures !Ignored(Back(path))
  {
    assert Back(path)[k] == '\\';
    assert '\\' !in ".git" && '\\' !in "target" && '\\' !in CACHE_METADATA_FILE;
  }

  lemma {:induction false} PlainRaw(entries: seq<Entry>, prefix: string)
    requires PlainNames(entries) && '\\' !in prefix
    ensures forall f | f in Raw(entries, prefix) :: '\\' !in f.path
    decreases entries
  {
    if entries != [] {
      PlainRawEntry(entries[0], prefix);
      PlainRaw(entries[1..], prefix);
    }
  }

  lemma {:induction false} PlainRawEntry(e: Entry, prefix: string)
    requires PlainEntry(e) && '\\' !in prefix
    ensures forall f | f in RawEntry(e, prefix) :: '\\' !in f.path
    decreases e
  {
    hide Raw;
    if !Ignored(e.name) && e.node.Dir? { PlainRaw(e.node.entries, prefix + e.name + "/"); }
  }

  lemma FlatIsTwin(a: seq<Entry>)
    requires PlainNames(a) && Walkable(a) && Collect(a, "").Ok? && FitsU64(Collect(a, "").value)
    requires HasSubdirectoryFile(Collect(a, "").value)
    ensures Twin(a, Flat(Collect(a, "").value))
  {
    hide Stream, Collect, Raw, PlainNames, EachWalkable, FitsU64, DistinctPaths, Nameable;
    var files := Collect(a, "").value;
    WalkableEach(a);
    CollectedIsNameable(a);
    TreePaths(a, "");
    FlatCollects(files);
    FlatIsWalkable(files);
    PlainRaw(a, "");
    FlatHasBackslash(files);
    var f :| f in Raw(Flat(files), "") && '\\' in f.path;
    assert f in multiset(Raw(Flat(files), "")) && f !in multiset(Raw(a, ""));
  }

  lemma {:induction false} FlatHasBackslash(files: seq<FileAt>)
    requires (forall i | 0 <= i < |files| :: Nameable(files[i].path)) && HasSubdirectoryFile(files)
    ensures exists f :: f in Raw(Flat(files), "") && '\\' in f.path
  {
    hide Raw, Flat, Nameable;
    RawOfFlat(files);
    var i :| 0 <= i < |files| && '/' in files[i].path;
    var k :| 0 <= k < |files[i].path| && files[i].path[k] == '/';
    assert Raw(Flat(files), "")[i].path[k] == '\\';
  }

  lemma WalkableEach(a: seq<Entry>)
    requires Walkable(a)
    ensures EachWalkable(a)
  {
  }

  lemma {:induction false} RawOfFlat(files: seq<FileAt>)
    requires forall i | 0 <= i < |files| :: Nameable(files[i].path)
    ensures |Raw(Flat(files), "")| == |files|
    ensures forall i | 0 <= i < |files| :: Raw(Flat(files), "")[i].path == Back(files[i].path)
  {
    if files != [] {
      var e := FlatEntry(files[0]);
      RawOfFlat(files[1..]);
      assert Flat(files)[0] == e && Flat(files)[1..] == Flat(files[1..]);
      assert "" + e.name == e.name;
      assert RawEntry(e, "") == [FileAt(e.name, files[0].content)];
    }
  }

  /**
    A tree with plain names shares its stream with a tree of other files exactly when it has a
    file in a subdirectory.
  */
  lemma TwinExactly(a: seq<Entry>)
    requires PlainNames(a) && Walkable(a) && Collect(a, "").Ok? && FitsU64(Collect(a, "").value)
    ensures (exists b :: Twin(a, b)) <==> HasSubdirectoryFile(Collect(a, "").value)
  {
    hide Twin, PlainNames, Walkable, Collect, HasSubdirectoryFile;
    if HasSubdirectoryFile(Collect(a, "").value) {
      FlatIsTwin(a);
    } else {
      forall b ensures !Twin(a, b) { FlatHasNoTwin(a, b); }
    }
  }

  /** A backslash in a name breaks this: two different trees, one list of files. */
  lemma BackslashCollides(content: Bytes)
    ensures
      var flat, deep := [Entry("a\\b", File(content))], [Entry("a", Dir([Entry("b", File(content))]))];
      flat != deep && Collect(flat, "") == Collect(deep, "") == Ok([FileAt("a/b", content)])
  {
    var file := Entry("b", File(content));
    CollectOne(Entry("a\\b", File(content)), "");
    CollectOne(Entry("a", Dir([file])), "");
    CollectOne(file, "a/");
    assert "" + "a\\b" == "a\\b" && "" + "a" + "/" == "a/" && "a/" + "b" == "a/b";
    assert "a\\b"[1..] == "\\b" && "\\b"[1..] == "b" && "b"[1..] == "";
    assert L.Slashes("b") == "b" && L.Slashes("\\b") == "/b" && L.Slashes("a\\b") == "a/b";
    SlashesPlain("a/b");
  }

  lemma CollectOne(e: Entry, prefix: string)
    ensures Collect([e], prefix) == CollectEntry(e, prefix)
  {
    assert [e][1..] == [];
    if CollectEntry(e, prefix).Ok? { assert CollectEntry(e, prefix).value + [] == CollectEntry(e, prefix).value; }
  }
}
