/**
  `versions.json`: how versions are compared, how one is added, and the small printer and
  parser of the file.
*/
module VersionsIndex {
  import opened Wrappers
  import opened Sorting
  import opened Text

  // ---------------------------------------------------------------------------
  // Comparing versions
  // ---------------------------------------------------------------------------

  const U64: nat := 0x1_0000_0000_0000_0000

  /** A 64-bit unsigned parse: an optional plus sign, digits, no overflow. */
  function ParseU64(s: string): Option<nat> {
    var digits := if s != "" && s[0] == '+' then s[1..] else s;
    if digits != "" && AllDigits(digits) && DecimalValue(digits) < U64 then Some(DecimalValue(digits)) else None
  }

  /** The `i`th part as a number; missing, malformed and overflowing parts count as zero. */
  function Part(parts: seq<string>, i: nat): nat {
    if i < |parts| && ParseU64(parts[i]).Some? then ParseU64(parts[i]).value else 0
  }

  function Triple(v: string): (nat, nat, nat) {
    var parts := SplitOn(v, '.');
    (Part(parts, 0), Part(parts, 1), Part(parts, 2))
  }

  predicate TripleLe(a: (nat, nat, nat), b: (nat, nat, nat)) {
    a.0 < b.0 || (a.0 == b.0 && (a.1 < b.1 || (a.1 == b.1 && a.2 <= b.2)))
  }

  predicate VersionLe(a: string, b: string) { TripleLe(Triple(a), Triple(b)) }

  lemma VersionPreorder()
    ensures Preorder(VersionLe)
  {
    hide Triple;
  }

  /** `major.minor.patch`, each a decimal number. */
  predicate ValidVersion(v: string) {
    var parts := SplitOn(v, '.');
    |parts| == 3 && forall i | 0 <= i < 3 :: parts[i] != "" && AllDigits(parts[i])
  }

  /** The numbers the parts of a valid version spell, however large. */
  function Spelled(v: string): (nat, nat, nat)
    requires ValidVersion(v)
  {
    var parts := SplitOn(v, '.');
    (DecimalValue(parts[0]), DecimalValue(parts[1]), DecimalValue(parts[2]))
  }

  predicate FitsU64(t: (nat, nat, nat)) { t.0 < U64 && t.1 < U64 && t.2 < U64 }

  /** Equal, or the smaller number where the two first differ. */
  predicate InOrder(a: (nat, nat, nat), b: (nat, nat, nat)) {
    var x, y := [a.0, a.1, a.2], [b.0, b.1, b.2];
    x == y || exists k | 0 <= k < 3 :: x[..k] == y[..k] && x[k] < y[k]
  }

  lemma TripleOrder(a: (nat, nat, nat), b: (nat, nat, nat))
    ensures TripleLe(a, b) <==> InOrder(a, b)
  {
    var x, y := [a.0, a.1, a.2], [b.0, b.1, b.2];
    assert x[..0] == y[..0];
    assert x[..1] == [a.0] && y[..1] == [b.0] && x[..2] == [a.0, a.1] && y[..2] == [b.0, b.1];
    if a.0 < b.0 {
      assert x[..0] == y[..0] && x[0] < y[0];
    } else if a.0 == b.0 && a.1 < b.1 {
      assert x[..1] == y[..1] && x[1] < y[1];
    } else if a.0 == b.0 && a.1 == b.1 && a.2 < b.2 {
      assert x[..2] == y[..2] && x[2] < y[2];
    } else {
      assert [a.0] == [b.0] <==> a.0 == b.0;
      assert [a.0, a.1] == [b.0, b.1] ==> [a.0, a.1][0] == [b.0, b.1][0] && [a.0, a.1][1] == [b.0, b.1][1];
    }
  }

  /** Versions whose parts fit 64 bits are ordered by the numbers they spell, */
  lemma VersionsCompareAsSpelled(a: string, b: string)
    requires ValidVersion(a) && ValidVersion(b) && FitsU64(Spelled(a)) && FitsU64(Spelled(b))
    ensures VersionLe(a, b) <==> InOrder(Spelled(a), Spelled(b))
  {
    TripleOrder(Spelled(a), Spelled(b));
    TripleIsSpelled(a);
    TripleIsSpelled(b);
  }

  /** and they are read back exactly then. */
  lemma TripleIsSpelled(v: string)
    requires ValidVersion(v)
    ensures Triple(v) == Spelled(v) <==> FitsU64(Spelled(v))
  {
    var parts := SplitOn(v, '.');
    PartIsSpelled(parts, 0);
    PartIsSpelled(parts, 1);
    PartIsSpelled(parts, 2);
  }

  lemma PartIsSpelled(parts: seq<string>, i: nat)
    requires i < |parts| && parts[i] != "" && AllDigits(parts[i])
    ensures Part(parts, i) == DecimalValue(parts[i]) <==> DecimalValue(parts[i]) < U64
  {
    assert IsDigit(parts[i][0]);
  }

  // ---------------------------------------------------------------------------
  // Adding a version
  // ---------------------------------------------------------------------------

  function AddVersion(versions: seq<string>, v: string): seq<string> {
    Sort(VersionLe, Grown(versions, v))
  }

  function Elements(s: seq<string>): set<string> { set x | x in s }

  lemma SortKeepsElements(s: seq<string>)
    ensures Elements(Sort(VersionLe, s)) == Elements(s) && |Sort(VersionLe, s)| == |s|
    ensures Distinct(s) ==> Distinct(Sort(VersionLe, s))
  {
    var t := Sort(VersionLe, s);
    assert |multiset(t)| == |t| && |multiset(s)| == |s|;
    forall x ensures x in t <==> x in s { assert x in multiset(t) <==> x in multiset(s); }
    if Distinct(s) {
      DistinctCounts(s);
      forall i, j | 0 <= i < j < |t| ensures t[i] != t[j] {
        if t[i] == t[j] { Twice(t, i, j); }
      }
    }
  }

  lemma {:induction false} DistinctCounts(s: seq<string>)
    requires Distinct(s)
    ensures forall x :: multiset(s)[x] <= 1
  {
    if s != [] {
      DistinctCounts(s[1..]);
      assert s == [s[0]] + s[1..] && s[0] !in s[1..];
    }
  }

  lemma LastIsGreatest(versions: seq<string>)
    requires Sorted(VersionLe, versions)
    ensures forall v | v in versions :: VersionLe(v, versions[|versions| - 1])
  {
    hide VersionLe;
    VersionPreorder();
    forall v | v in versions ensures VersionLe(v, versions[|versions| - 1]) {
      var k :| 0 <= k < |versions| && versions[k] == v;
      assert VersionLe(v, v);
    }
  }

  function Grown(versions: seq<string>, v: string): seq<string> {
    if v in versions then versions else versions + [v]
  }

  lemma GrownKeeps(versions: seq<string>, v: string)
    requires Distinct(versions)
    ensures Distinct(Grown(versions, v)) && Elements(Grown(versions, v)) == Elements(versions) + {v}
  {
  }

  /** Adding keeps the list sorted and free of duplicates, and puts a greatest version last. */
  lemma AddVersionKeeps(versions: seq<string>, v: string)
    requires Distinct(versions)
    ensures
      var after := AddVersion(versions, v);
      && Distinct(after) && Elements(after) == Elements(versions) + {v} && Sorted(VersionLe, after)
      && after != [] && forall x | x in after :: VersionLe(x, after[|after| - 1])
  {
    hide VersionLe, Distinct, Sort, Sorted;
    var grown := Grown(versions, v);
    GrownKeeps(versions, v);
    SortKeepsElements(grown);
    VersionPreorder();
    SortSorts(VersionLe, grown);
    LastIsGreatest(Sort(VersionLe, grown));
    assert v in Elements(Sort(VersionLe, grown));
  }

  // ---------------------------------------------------------------------------
  // Printing and parsing
  // ---------------------------------------------------------------------------

  datatype IndexError = MissingArray | MissingArrayEnd | SlicePanics

  function Quoted(v: string): string { "\"" + v + "\"" }

  function List(versions: seq<string>): string {
    if versions == [] then "" else if |versions| == 1 then Quoted(versions[0])
    else Quoted(versions[0]) + ", " + List(versions[1..])
  }

  function PrintVersions(versions: seq<string>): string {
    "{\n  \"versions\": [" + List(versions) + "]\n}\n"
  }

  /** Last position of `c`, if any. */
  function FindLast(s: string, c: char): (i: Option<nat>)
    ensures i.Some? ==> i.value < |s| && s[i.value] == c && c !in s[i.value + 1..]
  {
    if s == "" then None else if s[|s| - 1] == c then Some(|s| - 1) else
      var i := FindLast(s[..|s| - 1], c);
      assert i.Some? ==> s[i.value + 1..] == s[..|s| - 1][i.value + 1..] + [s[|s| - 1]];
      i
  }

  function TrimQuotes(s: string): string {
    if s != "" && s[0] == '"' then TrimQuotes(s[1..])
    else if s != "" && s[|s| - 1] == '"' then TrimQuotes(s[..|s| - 1])
    else s
  }

  function Clean(part: string): string { Trim(TrimQuotes(Trim(part))) }

  function KeepParts(parts: seq<string>): seq<string> {
    if parts == [] then [] else (if Clean(parts[0]) == "" then [] else [Clean(parts[0])]) + KeepParts(parts[1..])
  }

  function ParseVersions(text: string): Result<seq<string>, IndexError> {
    var trimmed := Trim(text);
    var start, end := Find(trimmed, '['), FindLast(trimmed, ']');
    if start == |trimmed| then Err(MissingArray)
    else if end.None? then Err(MissingArrayEnd)
    else if end.value <= start then Err(SlicePanics)
    else Ok(KeepParts(SplitOn(trimmed[start + 1..end.value], ',')))
  }

  method ParseVersionsJson(text: string) returns (r: Result<seq<string>, IndexError>)
    ensures r == ParseVersions(text)
  {
    hide Trim, TrimQuotes, Find, FindLast, SplitOn;
    var trimmed := Trim(text);
    var start, end := Find(trimmed, '['), FindLast(trimmed, ']');
    if start == |trimmed| { return Err(MissingArray); }
    if end.None? { return Err(MissingArrayEnd); }
    if end.value <= start { return Err(SlicePanics); }
    var parts := SplitOn(trimmed[start + 1..end.value], ',');
    var out: seq<string> := [];
    for i := 0 to |parts|
      invariant out + KeepParts(parts[i..]) == KeepParts(parts)
    {
      assert parts[i..][0] == parts[i] && parts[i..][1..] == parts[i + 1..];
      var p := Clean(parts[i]);
      ghost var more := KeepParts(parts[i + 1..]);
      assert out + ([p] + more) == out + [p] + more && [] + more == more;
      if p != "" { out := out + [p]; }
    }
    assert parts[|parts|..] == [] && out + [] == out;
    return Ok(out);
  }

  /** Text that quoting, splitting and trimming leave alone. */
  predicate Plain(v: string) {
    v != "" && ',' !in v && '"' !in v && forall i | 0 <= i < |v| :: !White(v[i])
  }

  predicate AllPlain(versions: seq<string>) { forall i | 0 <= i < |versions| :: Plain(versions[i]) }

  lemma TrimsToItself(s: string)
    requires s != "" ==> !White(s[0]) && !White(s[|s| - 1])
    ensures Trim(s) == s && Trim(" " + s) == s
  {
    assert (" " + s)[1..] == s;
    assert TrimStart(s) == s;
  }

  lemma TrimQuotesQuoted(v: string)
    requires v != "" && '"' !in v
    ensures TrimQuotes(Quoted(v)) == v
  {
    var tail := v + "\"";
    assert v[0] in v && v[|v| - 1] in v;
    assert TrimQuotes(v) == v;
    assert tail[0] == v[0] && tail[|tail| - 1] == '"' && tail[..|tail| - 1] == v;
    assert TrimQuotes(tail) == TrimQuotes(v);
    assert Quoted(v)[0] == '"' && Quoted(v)[1..] == tail;
  }

  lemma CleanQuoted(v: string, pad: string)
    requires Plain(v) && (pad == "" || pad == " ")
    ensures Clean(pad + Quoted(v)) == v
  {
    hide TrimQuotes, Trim;
    TrimsToItself(Quoted(v));
    TrimsToItself(v);
    TrimQuotesQuoted(v);
    assert "" + Quoted(v) == Quoted(v);
  }

  lemma KeepCons(part: string, parts: seq<string>)
    ensures KeepParts([part] + parts) == (if Clean(part) == "" then [] else [Clean(part)]) + KeepParts(parts)
  {
    assert ([part] + parts)[1..] == parts;
  }

  lemma ListOne(v: string, pad: string)
    requires Plain(v) && (pad == "" || pad == " ")
    ensures KeepParts(SplitOn(pad + Quoted(v), ',')) == [v]
  {
    hide Clean, SplitOn, Trim;
    CleanQuoted(v, pad);
    SplitLast(pad + Quoted(v), ',');
    KeepCons(pad + Quoted(v), []);
    assert [pad + Quoted(v)] + [] == [pad + Quoted(v)];
  }

  lemma NoList(pad: string)
    requires pad == "" || pad == " "
    ensures KeepParts(SplitOn(pad, ',')) == []
  {
    SplitLast(pad, ',');
    TrimsToItself("");
    assert " " + "" == " ";
  }

  lemma {:induction false} ListParses(versions: seq<string>, pad: string)
    requires AllPlain(versions) && (pad == "" || pad == " ")
    ensures KeepParts(SplitOn(pad + List(versions), ',')) == versions
  {
    hide Clean, SplitOn, KeepParts, Trim;
    if versions == [] {
      assert pad + "" == pad;
      NoList(pad);
    } else {
      var v := versions[0];
      assert versions == [v] + versions[1..];
      if |versions| == 1 {
        ListOne(v, pad);
      } else {
        var part, rest := pad + Quoted(v), " " + List(versions[1..]);
        assert List(versions) == Quoted(v) + ", " + List(versions[1..]);
        assert pad + List(versions) == part + "," + rest;
        CleanQuoted(v, pad);
        assert part + "," + rest == part + [','] + rest;
        SplitHead(part, ',', rest);
        KeepCons(part, SplitOn(rest, ','));
        ListParses(versions[1..], " ");
      }
    }
  }

  lemma {:induction false} FindLastHere(a: string, c: char, b: string)
    requires c !in b
    ensures FindLast(a + [c] + b, c) == Some(|a|)
    decreases |b|
  {
    var s := a + [c] + b;
    if b == "" {
      assert s == a + [c];
    } else {
      var front := b[..|b| - 1];
      assert s[..|s| - 1] == a + [c] + front;
      assert s[|s| - 1] == b[|b| - 1];
      FindLastHere(a, c, front);
    }
  }

  /** An array of plain versions parses back from any surrounding text without brackets. */
  lemma ArrayParses(before: string, versions: seq<string>, after: string)
    requires '[' !in before && ']' !in after && AllPlain(versions)
    requires before != "" && !White(before[0]) && after != "" && !White(after[|after| - 1])
    ensures ParseVersions(before + "[" + List(versions) + "]" + after) == Ok(versions)
  {
    hide Trim, Find, FindLast, SplitOn, KeepParts, List, ParseVersions;
    var list := List(versions);
    var text := before + "[" + list + "]" + after;
    TrimsToItself(text);
    BracketsFound(before, list, after);
    ParsesBetween(text, |before|, |before| + 1 + |list|);
    ListParses(versions, "");
    assert "" + list == list;
  }

  lemma BracketsFound(before: string, list: string, after: string)
    requires '[' !in before && ']' !in after
    ensures
      var text := before + "[" + list + "]" + after;
      && Find(text, '[') == |before| && FindLast(text, ']') == Some(|before| + 1 + |list|)
      && text[|before| + 1..|before| + 1 + |list|] == list
  {
    hide Find, FindLast;
    var text := before + "[" + list + "]" + after;
    assert text == before + ['['] + (list + "]" + after);
    FindHere(before, '[', list + "]" + after);
    assert text == (before + "[" + list) + [']'] + after;
    FindLastHere(before + "[" + list, ']', after);
  }

  lemma ParsesBetween(text: string, start: nat, end: nat)
    requires Trim(text) == text && Find(text, '[') == start < end < |text| && FindLast(text, ']') == Some(end)
    ensures ParseVersions(text) == Ok(KeepParts(SplitOn(text[start + 1..end], ',')))
  {
    hide Trim, Find, FindLast, SplitOn, KeepParts;
  }

  // ---------------------------------------------------------------------------
  // What names and versions are made of
  // ---------------------------------------------------------------------------

  predicate Letter(c: char) { 'a' <= c <= 'z' || 'A' <= c <= 'Z' || c == '_' }

  predicate NameChar(c: char) { Letter(c) || IsDigit(c) || c == '.' }

  predicate Segment(s: string) {
    s != "" && Letter(s[0]) && forall i | 0 <= i < |s| :: Letter(s[i]) || IsDigit(s[i])
  }

  /** A package name: segments joined by dots. */
  predicate ValidName(name: string) {
    var parts := SplitOn(name, '.');
    forall i | 0 <= i < |parts| :: Segment(parts[i])
  }

  predicate AllNameChars(s: string) { forall i | 0 <= i < |s| :: NameChar(s[i]) }

  predicate PartsAreNameChars(parts: seq<string>) { forall i | 0 <= i < |parts| :: AllNameChars(parts[i]) }

  lemma {:induction false} PartsCover(s: string)
    requires PartsAreNameChars(SplitOn(s, '.'))
    ensures AllNameChars(s)
    decreases |s|
  {
    var i := Find(s, '.');
    var parts := SplitOn(s, '.');
    assert AllNameChars(parts[0]);
    if i < |s| {
      var rest := SplitOn(s[i + 1..], '.');
      assert parts == [s[..i]] + rest;
      forall k | 0 <= k < |rest| ensures AllNameChars(rest[k]) { assert rest[k] == parts[k + 1]; }
      PartsCover(s[i + 1..]);
      assert s == s[..i] + [s[i]] + s[i + 1..];
    }
  }

  lemma ValidNamesAndVersions(s: string)
    requires ValidName(s) || ValidVersion(s)
    ensures AllNameChars(s)
  {
    PartsCover(s);
  }

  lemma ValidVersionIsPlain(v: string)
    requires ValidVersion(v)
    ensures Plain(v)
  {
    ValidNamesAndVersions(v);
    assert SplitOn("", '.') == [""];
  }

  /** The parser undoes the printer. */
  lemma PrintedVersionsParse(versions: seq<string>)
    requires AllPlain(versions)
    ensures ParseVersions(PrintVersions(versions)) == Ok(versions)
  {
    hide Trim, Find, FindLast, SplitOn, KeepParts, List, TrimStart, TrimEnd;
    var before, after := "{\n  \"versions\": ", "\n}";
    var text := before + "[" + List(versions) + "]" + after;
    assert PrintVersions(versions) == text + "\n";
    ArrayParses(before, versions, after);
    TrimDropsNewline(text);
  }

  lemma TrimDropsNewline(text: string)
    requires text != "" && !White(text[0])
    ensures Trim(text + "\n") == Trim(text)
  {
    assert TrimStart(text) == text && TrimStart(text + "\n") == text + "\n";
    TrimEndAppend(text, "\n");
  }

  /** A version whose major part overflows sorts below any smaller one that fits: as zero. */
  lemma OverflowSortsLow(a: string, b: string)
    requires ValidVersion(a) && ValidVersion(b) && Spelled(a).0 >= U64 && 0 < Spelled(b).0 < U64
    ensures VersionLe(a, b) && !VersionLe(b, a) && TripleLe(Spelled(b), Spelled(a)) && !TripleLe(Spelled(a), Spelled(b))
  {
    PartIsSpelled(SplitOn(a, '.'), 0);
    PartIsSpelled(SplitOn(b, '.'), 0);
    assert !ParseU64(SplitOn(a, '.')[0]).Some?;
  }
}
