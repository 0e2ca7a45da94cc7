/**
  `index.json`, the registry's global index: its printer and its hand-written scanner.
*/
module GlobalIndex {
  import opened Wrappers
  import opened Text
  import opened VersionsIndex
  import S = Sorting

  type Index = map<string, seq<string>>

  // ---------------------------------------------------------------------------
  // Printing
  // ---------------------------------------------------------------------------

  function Line(name: string, versions: seq<string>, last: bool): string {
    "    \"" + name + "\": [" + List(versions) + "]" + (if last then "" else ",") + "\n"
  }

  function Lines(names: seq<string>, index: Index): string
    requires forall n | n in names :: n in index
  {
    if names == [] then "" else Line(names[0], index[names[0]], |names| == 1) + Lines(names[1..], index)
  }

  const OPEN := "{\n  \"packages\": {\n"

  function Print(names: seq<string>, index: Index): string
    requires forall n | n in names :: n in index
  {
    OPEN + Lines(names, index) + "  }\n}\n"
  }

  // ---------------------------------------------------------------------------
  // Scanning
  // ---------------------------------------------------------------------------

  /** The text between the outermost braces, from `i` on at `depth`; `start` is where it begins. */
  function Braced(s: string, i: nat, depth: int, start: Option<nat>): Option<(nat, nat)>
    requires i <= |s|
    decreases |s| - i
  {
    if i == |s| then None
    else if s[i] == '{' then Braced(s, i + 1, depth + 1, if depth == 0 then Some(i + 1) else start)
    else if s[i] == '}' then
      if depth == 1 then (if start.None? then None else Some((start.value, i))) else Braced(s, i + 1, depth - 1, start)
    else Braced(s, i + 1, depth, start)
  }

  function Upto(s: string, i: nat, c: char): (j: nat)
    requires i <= |s|
    ensures i <= j <= |s| && (forall k | i <= k < j :: s[k] != c) && (j < |s| ==> s[j] == c)
    decreases |s| - i
  {
    if i == |s| || s[i] == c then i
    else
      var j := Upto(s, i + 1, c);
      assert s[i..j] == [s[i]] + s[i + 1..j];
      j
  }

  /** The versions in an array, brackets included, by way of the other parser. */
  function ArrayVersions(array_: string): seq<string> {
    match ParseVersions("{\"versions\":" + array_ + "}") case Ok(versions) => versions case Err(_) => []
  }

  /** Entries from `i` on, added to `index`. */
  function Scan(body: string, i: nat, index: Index): Index
    requires i <= |body|
    decreases |body| - i
  {
    if i == |body| then index
    else if body[i] != '"' then Scan(body, i + 1, index)
    else
      var nameEnd := Upto(body, i + 1, '"');
      if nameEnd == |body| then index
      else
        var arrayStart := Upto(body, nameEnd + 1, '[');
        if arrayStart == |body| then index
        else
          var arrayEnd := Upto(body, arrayStart, ']');
          if arrayEnd == |body| then index
          else Scan(body, arrayEnd + 1, index[body[i + 1..nameEnd] := ArrayVersions(body[arrayStart..arrayEnd + 1])])
  }

  function Parse(text: string): Index {
    match FindSub(text, "\"packages\"", 0)
    case None => map[]
    case Some(at) =>
      var brace := Upto(text, at, '{');
      match Braced(text, brace, 0, None)
      case None => map[]
      case Some((start, end)) => if start <= end <= |text| then Scan(text[start..end], 0, map[]) else map[]
  }

  method FindBody(text: string, brace: nat) returns (r: Option<(nat, nat)>)
    requires brace <= |text|
    ensures r == Braced(text, brace, 0, None)
  {
    var depth := 0;
    var bodyStart: Option<nat> := None;
    for i := brace to |text|
      invariant Braced(text, brace, 0, None) == Braced(text, i, depth, bodyStart)
    {
      match text[i]
      case '{' =>
        if depth == 0 { bodyStart := Some(i + 1); }
        depth := depth + 1;
      case '}' =>
        depth := depth - 1;
        if depth == 0 { return if bodyStart.None? then None else Some((bodyStart.value, i)); }
      case _ =>
    }
    return None;
  }

  method SkipTo(s: string, start: nat, c: char) returns (i: nat)
    requires start <= |s|
    ensures i == Upto(s, start, c)
  {
    i := start;
    while i < |s| && s[i] != c
      invariant start <= i <= |s| && Upto(s, start, c) == Upto(s, i, c)
    {
      i := i + 1;
    }
  }

  method SkipSeparators(body: string, start: nat, ghost index: Index) returns (i: nat)
    requires start <= |body|
    ensures start <= i <= |body| && Scan(body, start, index) == Scan(body, i, index)
    ensures i < |body| ==> !White(body[i]) && body[i] != ','
  {
    i := start;
    while i < |body| && (White(body[i]) || body[i] == ',')
      invariant start <= i <= |body| && Scan(body, start, index) == Scan(body, i, index)
    {
      i := i + 1;
    }
  }

  method ParseGlobalIndex(text: string) returns (index: Index)
    ensures index == Parse(text)
  {
    hide Scan, Braced, ArrayVersions;
    index := map[];
    var at := FindSub(text, "\"packages\"", 0);
    if at.None? { return; }
    var brace := SkipTo(text, at.value, '{');
    var range := FindBody(text, brace);
    if range.None? || !(range.value.0 <= range.value.1 <= |text|) { return; }
    index := ScanBody(text[range.value.0..range.value.1]);
  }

  method ScanBody(body: string) returns (index: Index)
    ensures index == Scan(body, 0, map[])
  {
    hide ArrayVersions, Upto;
    index := map[];
    var i := 0;
    while i < |body|
      invariant 0 <= i <= |body| && Scan(body, 0, map[]) == Scan(body, i, index)
      decreases |body| - i
    {
      i := SkipSeparators(body, i, index);
      if i >= |body| { break; }
      if body[i] != '"' { i := i + 1; continue; }
      var nameEnd := SkipTo(body, i + 1, '"');
      if nameEnd >= |body| { break; }
      var arrayStart := SkipTo(body, nameEnd + 1, '[');
      if arrayStart >= |body| { break; }
      var arrayEnd := SkipTo(body, arrayStart, ']');
      if arrayEnd >= |body| { break; }
      index := index[body[i + 1..nameEnd] := ArrayVersions(body[arrayStart..arrayEnd + 1])];
      i := arrayEnd + 1;
    }
  }

  // ---------------------------------------------------------------------------
  // The scanner undoes the printer
  // ---------------------------------------------------------------------------

  /** Without quotes, braces and brackets. */
  predicate Safe(s: string) {
    '"' !in s && '{' !in s && '}' !in s && '[' !in s && ']' !in s
  }

  predicate SafeVersions(versions: seq<string>) {
    forall i | 0 <= i < |versions| :: Plain(versions[i]) && Safe(versions[i])
  }

  lemma {:induction false} ListLacks(versions: seq<string>, c: char)
    requires forall i | 0 <= i < |versions| :: c !in versions[i]
    requires c != '"' && c != ',' && c != ' '
    ensures c !in List(versions)
  {
    if |versions| > 1 {
      ListLacks(versions[1..], c);
      assert c !in Quoted(versions[0]);
    }
  }

  lemma {:induction false} UptoIs(s: string, i: nat, j: nat, c: char)
    requires i <= j < |s| && c !in s[i..j] && s[j] == c
    ensures Upto(s, i, c) == j
    decreases j - i
  {
    if i < j {
      assert s[i] in s[i..j] && s[i..j][1..] == s[i + 1..j];
      UptoIs(s, i + 1, j, c);
    }
  }

  lemma {:induction false} ScanSkip(body: string, i: nat, j: nat, m: Index)
    requires i <= j <= |body| && '"' !in body[i..j]
    ensures Scan(body, i, m) == Scan(body, j, m)
    decreases j - i
  {
    if i < j {
      assert body[i] in body[i..j] && body[i..j][1..] == body[i + 1..j];
      ScanSkip(body, i + 1, j, m);
    }
  }

  lemma {:induction false} BracedSkip(s: string, i: nat, j: nat, depth: int, start: Option<nat>)
    requires i <= j <= |s| && '{' !in s[i..j] && '}' !in s[i..j]
    ensures Braced(s, i, depth, start) == Braced(s, j, depth, start)
    decreases j - i
  {
    if i < j {
      assert s[i] in s[i..j] && s[i..j][1..] == s[i + 1..j];
      BracedSkip(s, i + 1, j, depth, start);
    }
  }

  lemma ArrayVersionsOfList(versions: seq<string>)
    requires AllPlain(versions)
    ensures ArrayVersions("[" + List(versions) + "]") == versions
  {
    hide ParseVersions, List;
    var list := List(versions);
    ArrayParses("{\"versions\":", versions, "}");
    assert "{\"versions\":" + ("[" + list + "]") + "}" == "{\"versions\":" + "[" + list + "]" + "}";
  }

  /** A piece of text lies at `i`. */
  predicate Lies(s: string, i: nat, piece: string) { i + |piece| <= |s| && s[i..i + |piece|] == piece }

  lemma LiesApart(s: string, i: nat, a: string, b: string)
    ensures Lies(s, i, a + b) <==> Lies(s, i, a) && Lies(s, i + |a|, b)
  {
    if Lies(s, i, a + b) {
      var whole := s[i..i + |a + b|];
      assert s[i..i + |a|] == whole[..|a|] && s[i + |a|..i + |a| + |b|] == whole[|a|..];
    }
    if Lies(s, i, a) && Lies(s, i + |a|, b) {
      assert s[i..i + |a + b|] == s[i..i + |a|] + s[i + |a|..i + |a| + |b|];
    }
  }

  lemma ScanEntry(body: string, i: nat, name: string, versions: seq<string>, m: Index)
    requires Safe(name) && SafeVersions(versions)
    requires Lies(body, i, "\"" + name + "\": [" + List(versions) + "]")
    ensures Scan(body, i, m) == Scan(body, i + |name| + 6 + |List(versions)|, m[name := versions])
  {
    hide List, ArrayVersions, Upto, Lies;
    var list := List(versions);
    var nameEnd, arrayStart := i + 1 + |name|, i + 4 + |name|;
    var arrayEnd := arrayStart + 1 + |list|;
    LiesApart(body, i, "\"" + name + "\": [" + list, "]");
    LiesApart(body, i, "\"" + name + "\": [", list);
    LiesApart(body, i, "\"" + name, "\": [");
    LiesApart(body, i, "\"", name);
    LiesAt(body, i, "\"");
    LiesAt(body, i + 1, name);
    LiesAt(body, nameEnd, "\": [");
    LiesAt(body, arrayStart + 1, list);
    LiesAt(body, arrayEnd, "]");
    EntryPunctuation(body, nameEnd, arrayStart + 1, arrayEnd, list);
    UptoIs(body, i + 1, nameEnd, '"');
    UptoIs(body, nameEnd + 1, arrayStart, '[');
    ListLacks(versions, ']');
    UptoIs(body, arrayStart, arrayEnd, ']');
    ArrayVersionsOfList(versions);
  }

  lemma LiesAt(s: string, i: nat, piece: string)
    requires Lies(s, i, piece)
    ensures i + |piece| <= |s| && s[i..i + |piece|] == piece && (piece != "" ==> s[i] == piece[0])
  {
    if piece != "" { assert s[i] == s[i..i + |piece|][0]; }
  }

  lemma EntryPunctuation(body: string, nameEnd: nat, listStart: nat, arrayEnd: nat, list: string)
    requires listStart == nameEnd + 4 && nameEnd + 4 <= |body| && body[nameEnd..nameEnd + 4] == "\": ["
    requires listStart <= arrayEnd < |body| && body[listStart..arrayEnd] == list && body[arrayEnd] == ']'
    ensures body[nameEnd + 1..listStart - 1] == ": " && body[listStart - 1] == '['
    ensures body[listStart - 1..arrayEnd] == "[" + list && body[listStart - 1..arrayEnd + 1] == "[" + list + "]"
  {
    var p := body[nameEnd..nameEnd + 4];
    assert body[nameEnd + 1] == p[1] && body[nameEnd + 2] == p[2] && body[nameEnd + 3] == p[3];
    assert body[nameEnd + 1..listStart - 1] == [p[1], p[2]];
  }

  lemma ScanLine(body: string, i: nat, name: string, versions: seq<string>, last: bool, m: Index)
    requires Safe(name) && SafeVersions(versions) && Lies(body, i, Line(name, versions, last))
    ensures Scan(body, i, m) == Scan(body, i + |Line(name, versions, last)|, m[name := versions])
  {
    hide List, Scan, Lies;
    var entry := "\"" + name + "\": [" + List(versions) + "]";
    var tail := (if last then "" else ",") + "\n";
    assert Line(name, versions, last) == "    " + (entry + tail);
    LiesApart(body, i, "    ", entry + tail);
    LiesApart(body, i + 4, entry, tail);
    SkipPiece(body, i, "    ", m);
    ScanEntry(body, i + 4, name, versions, m);
    SkipPiece(body, i + 4 + |entry|, tail, m[name := versions]);
  }

  lemma SkipPiece(body: string, i: nat, piece: string, m: Index)
    requires Lies(body, i, piece) && '"' !in piece
    ensures i + |piece| <= |body| && Scan(body, i, m) == Scan(body, i + |piece|, m)
  {
    ScanSkip(body, i, i + |piece|, m);
  }

  function Collected(m: Index, names: seq<string>, index: Index): Index
    requires forall n | n in names :: n in index
    decreases |names|
  {
    if names == [] then m else Collected(m[names[0] := index[names[0]]], names[1..], index)
  }

  predicate SafeIndex(names: seq<string>, index: Index)
    requires forall n | n in names :: n in index
  {
    forall i | 0 <= i < |names| :: Safe(names[i]) && SafeVersions(index[names[i]])
  }

  lemma {:induction false} ScanLines(body: string, i: nat, names: seq<string>, index: Index, m: Index)
    requires (forall n | n in names :: n in index) && SafeIndex(names, index) && Lies(body, i, Lines(names, index))
    ensures Scan(body, i, m) == Scan(body, i + |Lines(names, index)|, Collected(m, names, index))
    decreases |names|
  {
    hide Scan, Line, Safe, SafeVersions, Lies;
    assert i + |Lines(names, index)| <= |body| by { LiesFits(body, i, Lines(names, index)); }
    if names != [] {
      var line := Line(names[0], index[names[0]], |names| == 1);
      LiesApart(body, i, line, Lines(names[1..], index));
      ScanLine(body, i, names[0], index[names[0]], |names| == 1, m);
      ScanLines(body, i + |line|, names[1..], index, m[names[0] := index[names[0]]]);
    }
  }

  lemma LiesFits(s: string, i: nat, piece: string)
    requires Lies(s, i, piece)
    ensures i + |piece| <= |s|
  {
  }

  lemma {:induction false} CollectedIs(m: Index, names: seq<string>, index: Index)
    requires forall n | n in names :: n in index
    requires (forall n | n in m :: n in index && m[n] == index[n]) && (forall n | n in index :: n in m || n in names)
    ensures Collected(m, names, index) == index
    decreases |names|
  {
    if names != [] {
      assert names == [names[0]] + names[1..];
      CollectedIs(m[names[0] := index[names[0]]], names[1..], index);
    }
  }

  lemma {:induction false} LinesLackBraces(names: seq<string>, index: Index)
    requires (forall n | n in names :: n in index) && SafeIndex(names, index)
    ensures '{' !in Lines(names, index) && '}' !in Lines(names, index)
    decreases |names|
  {
    if names != [] {
      LinesLackBraces(names[1..], index);
      ListLacks(index[names[0]], '{');
      ListLacks(index[names[0]], '}');
    }
  }

  lemma FindAfter(before: string, p: string, rest: string)
    requires p != "" && p[0] !in before
    ensures FindSub(before + p + rest, p, 0) == Some(|before|)
  {
    var s := before + p + rest;
    assert s[|before|..|before| + |p|] == p;
    forall k | 0 <= k < |before| ensures !Occurs(s, k, p) {
      StartsWithHead(s, k, p);
      assert s[k] == before[k];
    }
    FindsFirst(s, p, 0, |before|);
  }

  lemma FindPackages(rest: string)
    ensures FindSub(OPEN + rest, "\"packages\"", 0) == Some(4) && Upto(OPEN + rest, 4, '{') == 16 && |OPEN| == 18
  {
    hide FindSub, Occurs, Upto;
    var text := OPEN + rest;
    var p, after := "\"packages\"", ": {\n" + rest;
    assert text == "{\n  " + p + after;
    FindAfter("{\n  ", p, after);
    var head := "{\n  \"packages\": ";
    assert text == head + ['{'] + ("\n" + rest);
    assert text[4..16] == head[4..16] && '{' !in head[4..16];
    UptoIs(text, 4, 16, '{');
  }

  /** Whatever order the names are printed in, the index comes back whole. */
  lemma PrintedIndexParses(names: seq<string>, index: Index)
    requires (forall n | n in names :: n in index) && (forall n | n in index :: n in names) && SafeIndex(names, index)
    ensures Parse(Print(names, index)) == index
  {
    hide Scan, Braced, Line, Lines, Safe, SafeVersions, Upto, FindSub, Collected;
    var lines := Lines(names, index);
    var text := Print(names, index);
    var end := 18 + |lines| + 2;
    var body := "\n" + lines + "  ";
    FindPackages(lines + "  }\n}\n");
    assert text == OPEN + (lines + "  }\n}\n");
    assert text[17..end] == body && text[end] == '}';
    BodyIsBraced(text, end, names, index);
    LiesApart(body, 0, "\n" + lines, "  ");
    LiesApart(body, 0, "\n", lines);
    SkipPiece(body, 0, "\n", map[]);
    ScanLines(body, 1, names, index, map[]);
    var all := Collected(map[], names, index);
    SkipPiece(body, 1 + |lines|, "  ", all);
    ScanEnds(body, all);
    CollectedIs(map[], names, index);
  }

  lemma ScanEnds(body: string, m: Index)
    ensures Scan(body, |body|, m) == m
  {
  }

  lemma BodyIsBraced(text: string, end: nat, names: seq<string>, index: Index)
    requires (forall n | n in names :: n in index) && SafeIndex(names, index)
    requires OPEN <= text && 17 <= end < |text| && text[17..end] == "\n" + Lines(names, index) + "  " && text[end] == '}'
    ensures Braced(text, 16, 0, None) == Some((17, end))
  {
    hide Lines, SafeIndex;
    LinesLackBraces(names, index);
    assert text[16] == OPEN[16] == '{';
    BracedSkip(text, 17, end, 1, Some(17));
  }

  // ---------------------------------------------------------------------------
  // Adding a version and writing the file
  // ---------------------------------------------------------------------------

  /** The index's names, each once, in byte order. */
  ghost predicate NamesOf(names: seq<string>, index: Index) {
    S.Sorted(S.Lex, names) && S.Distinct(names) && Elements(names) == index.Keys
  }

  lemma {:induction false} DistinctMultiset(names: seq<string>)
    requires S.Distinct(names)
    ensures multiset(names) == multiset(Elements(names))
  {
    DistinctCounts(names);
    forall n ensures multiset(names)[n] == multiset(Elements(names))[n] {
      assert n in multiset(names) <==> n in names;
    }
  }

  lemma NamesAreUnique(a: seq<string>, b: seq<string>, index: Index)
    requires NamesOf(a, index) && NamesOf(b, index)
    ensures a == b
  {
    S.LexPreorder();
    DistinctMultiset(a);
    DistinctMultiset(b);
    forall i, j | 0 <= i < |a| && 0 <= j < |a| && S.Lex(a[i], a[j]) && S.Lex(a[j], a[i]) ensures a[i] == a[j] {
      S.LexAntisymmetric(a[i], a[j]);
    }
    S.SortedUnique(S.Lex, a, b);
  }

  function Get(index: Index, name: string): seq<string> {
    if name in index then index[name] else []
  }

  function AddToIndex(index: Index, name: string, v: string): Index {
    index[name := AddVersion(Get(index, name), v)]
  }

  lemma {:induction false} SortNames(names: seq<string>)
    requires S.Distinct(names)
    ensures S.Sorted(S.Lex, S.Sort(S.Lex, names)) && S.Distinct(S.Sort(S.Lex, names)) && Elements(S.Sort(S.Lex, names)) == Elements(names)
  {
    S.LexPreorder();
    S.SortSorts(S.Lex, names);
    var t := S.Sort(S.Lex, names);
    DistinctCounts(names);
    forall x ensures x in t <==> x in names { assert x in multiset(t) <==> x in multiset(names); }
    forall i, j | 0 <= i < j < |t| ensures t[i] != t[j] {
      if t[i] == t[j] { S.Twice(t, i, j); }
    }
  }

  method SortedNames(index: Index) returns (names: seq<string>)
    ensures NamesOf(names, index)
  {
    hide S.Sort;
    names := [];
    var left := index.Keys;
    while left != {}
      invariant left <= index.Keys && S.Distinct(names) && Elements(names) == index.Keys - left
      decreases left
    {
      var n :| n in left;
      assert n !in Elements(names);
      assert Elements(names + [n]) == Elements(names) + {n};
      names := names + [n];
      left := left - {n};
    }
    SortNames(names);
    names := S.Sort(S.Lex, names);
  }

  lemma {:induction false} JoinLine(lines: seq<string>, line: string)
    requires lines != []
    ensures Join(lines + [line], "\n") == Join(lines, "\n") + "\n" + line
  {
    if |lines| == 1 {
      assert lines + [line] == [lines[0], line];
      assert [lines[0], line][1..] == [line];
    } else {
      assert (lines + [line])[1..] == lines[1..] + [line];
      JoinLine(lines[1..], line);
    }
  }

  /** Lines pushed so far, each ended. */
  function Ended(lines: seq<string>): string { Join(lines, "\n") + "\n" }

  lemma PushLine(lines: seq<string>, line: string)
    requires lines != []
    ensures Ended(lines + [line]) == Ended(lines) + (line + "\n")
    ensures Join(lines + [line], "\n") == Ended(lines) + line
  {
    JoinLine(lines, line);
  }

  function Entry(name: string, versions: seq<string>, last: bool): string {
    "    \"" + name + "\": [" + List(versions) + "]" + (if last then "" else ",")
  }

  lemma LinesStep(before: string, names: seq<string>, i: nat, index: Index)
    requires (forall n | n in names :: n in index) && i < |names|
    ensures before + Lines(names[i..], index) == before + (Entry(names[i], index[names[i]], i + 1 == |names|) + "\n") + Lines(names[i + 1..], index)
  {
    hide List;
    assert names[i..][0] == names[i] && names[i..][1..] == names[i + 1..];
  }

  /** The text is a function of the index: the names come sorted. */
  method WriteIndex(index: Index) returns (text: string)
    ensures forall names | NamesOf(names, index) :: text == Print(names, index)
  {
    hide Entry, Join, Ended, Line;
    var names := SortedNames(index);
    forall n | n in names ensures n in index { assert n in Elements(names); }
    var lines := ["{", "  \"packages\": {"];
    OpenLines();
    assert names[0..] == names;
    for i := 0 to |names|
      invariant lines != [] && Ended(lines) + Lines(names[i..], index) == OPEN + Lines(names, index)
    {
      var line := Entry(names[i], index[names[i]], i + 1 == |names|);
      LinesStep(Ended(lines), names, i, index);
      PushLine(lines, line);
      lines := lines + [line];
    }
    assert names[|names|..] == [] && Ended(lines) + "" == Ended(lines);
    PushLine(lines, "  }");
    lines := lines + ["  }"];
    PushLine(lines, "}");
    lines := lines + ["}"];
    PushLine(lines, "");
    text := Join(lines + [""], "\n");
    assert text == OPEN + Lines(names, index) + ("  }" + "\n") + ("}" + "\n") + "";
    assert text == Print(names, index);
    forall other | NamesOf(other, index) ensures text == Print(other, index) {
      NamesAreUnique(names, other, index);
    }
  }

  lemma OpenLines()
    ensures Ended(["{", "  \"packages\": {"]) == OPEN
  {
    assert ["{", "  \"packages\": {"][1..] == ["  \"packages\": {"];
  }

  method UpdateGlobalIndex(old_: Option<string>, name: string, v: string) returns (text: string)
    ensures
      var index := AddToIndex(if old_.Some? then Parse(old_.value) else map[], name, v);
      forall names | NamesOf(names, index) :: text == Print(names, index)
  {
    var index: Index := map[];
    if old_.Some? { index := ParseGlobalIndex(old_.value); }
    var entry := Get(index, name);
    if v !in entry { entry := entry + [v]; }
    index := index[name := S.Sort(VersionLe, entry)];
    text := WriteIndex(index);
  }
}
