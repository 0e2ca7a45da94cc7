/**
  The texts that are lockfiles, said without the parser's code. A file is a header of entries and
  then tables of entries, with blank lines and comments anywhere; of a key given twice the last
  value counts. The parser accepts exactly these files, with these locks.
*/
module LockGrammar {
  import opened Wrappers
  import opened Text
  import opened Lockfile

  // ---------------------------------------------------------------------------
  // Quotation
  // ---------------------------------------------------------------------------

  /** Every quotation opened in `s` is closed in it. */
  ghost predicate Balanced(s: string)
    decreases |s|
  {
    s == "" ||
    if s[0] != '"' then Balanced(s[1..])
    else exists n | 2 <= n <= |s| :: Quotation(s[..n]) && Balanced(s[n..])
  }

  /** The first `c` outside quotations stands at `i`. */
  ghost predicate FirstOutside(s: string, c: char, i: nat) {
    && i < |s| && s[i] == c && Balanced(s[..i])
    && forall j | 0 <= j < i :: s[j] == c ==> !Balanced(s[..j])
  }

  /** The scanner's state after `s`. */
  function Run(s: string, quoted: bool, escaped: bool): (bool, bool) {
    if s == "" then (quoted, escaped)
    else
      var r := ScanChar(s[0], '=', quoted, escaped);
      Run(s[1..], r.0, r.1)
  }

  /** Inside a quotation, its first `n` characters close it and balance is kept after. */
  ghost predicate CloseAt(s: string, n: nat) {
    1 <= n <= |s| && Inside(s[..n - 1]) && s[n - 1] == '"' && Balanced(s[n..])
  }

  lemma QuotationCloses(s: string, n: nat)
    requires s != "" && s[0] == '"' && 2 <= n <= |s|
    ensures Quotation(s[..n]) && Balanced(s[n..]) <==> CloseAt(s[1..], n - 1)
  {
    hide Inside, Balanced;
    assert s[..n][1..n - 1] == s[1..][..n - 2];
    assert s[n..] == s[1..][n - 1..];
    assert s[..n][n - 1] == s[1..][n - 2];
  }

  lemma {:induction false} OpenedBalances(s: string)
    requires s != "" && s[0] == '"'
    ensures Balanced(s) <==> exists n | 1 <= n <= |s[1..]| :: CloseAt(s[1..], n)
  {
    hide CloseAt, Quotation;
    if n :| 2 <= n <= |s| && Quotation(s[..n]) && Balanced(s[n..]) {
      QuotationCloses(s, n);
      assert CloseAt(s[1..], n - 1);
    }
    if n :| 1 <= n <= |s[1..]| && CloseAt(s[1..], n) {
      QuotationCloses(s, n + 1);
      assert Quotation(s[..n + 1]) && Balanced(s[n + 1..]);
    }
  }

  lemma {:induction false} RunOutside(s: string)
    ensures Run(s, false, false).0 <==> !Balanced(s)
    decreases |s|, 0
  {
    if s != "" && s[0] == '"' {
      hide Balanced, CloseAt;
      RunInside(s[1..]);
      OpenedBalances(s);
    } else if s != "" {
      RunOutside(s[1..]);
    }
  }

  lemma {:induction false} RunInside(s: string)
    ensures !Run(s, true, false).0 <==> exists n | 1 <= n <= |s| :: CloseAt(s, n)
    decreases |s|, 1
  {
    if s == "" {
    } else if s[0] == '\\' {
      if |s| >= 2 {
        assert s[1..][1..] == s[2..];
        RunInside(s[2..]);
        CloseSkips(s, 2);
      } else {
        assert !CloseAt(s, 1);
      }
    } else if s[0] == '"' {
      RunOutside(s[1..]);
      assert CloseAt(s, 1) <==> Balanced(s[1..]);
      forall n | 2 <= n <= |s| ensures !CloseAt(s, n) { assert s[..n - 1][0] == '"'; }
    } else {
      RunInside(s[1..]);
      CloseSkips(s, 1);
    }
  }

  lemma {:induction false} CloseSkips(s: string, k: nat)
    requires k <= |s| && s != "" && s[0] != '"' && k == if s[0] == '\\' then 2 else 1
    ensures (exists n | 1 <= n <= |s| :: CloseAt(s, n)) <==> exists n | 1 <= n <= |s[k..]| :: CloseAt(s[k..], n)
  {
    forall n | k < n <= |s| ensures CloseAt(s, n) <==> CloseAt(s[k..], n - k) {
      assert s[..n - 1][k..] == s[k..][..n - k - 1];
      assert s[n..] == s[k..][n - k..];
    }
    forall n | 1 <= n <= k ensures !CloseAt(s, n) {
      if n == 2 { assert s[..1][0] == '\\' && !Inside(s[..1]); }
    }
    if n :| 1 <= n <= |s| && CloseAt(s, n) { assert CloseAt(s[k..], n - k); }
    if n :| 1 <= n <= |s[k..]| && CloseAt(s[k..], n) { assert CloseAt(s, n + k); }
  }

  /** The mark stands at `i`, and the state there is outside quotations. */
  predicate Hit(s: string, c: char, quoted: bool, escaped: bool, i: nat) {
    i < |s| && s[i] == c && !Run(s[..i], quoted, escaped).0
  }

  lemma {:induction false} HitCons(s: string, c: char, quoted: bool, escaped: bool, i: nat)
    requires s != ""
    ensures var r := ScanChar(s[0], '=', quoted, escaped); Hit(s, c, quoted, escaped, i + 1) <==> Hit(s[1..], c, r.0, r.1, i)
  {
    hide ScanChar;
    if i + 1 < |s| {
      assert s[..i + 1][1..] == s[1..][..i] && s[..i + 1][0] == s[0];
    }
  }

  lemma {:induction false} ScanRuns(s: string, c: char, quoted: bool, escaped: bool, i: nat)
    requires (c == '#' || c == '=') && (escaped ==> quoted)
    ensures FindOutside(s, c, quoted, escaped) == Some(i)
      <==> Hit(s, c, quoted, escaped, i) && forall j: nat | j < i :: !Hit(s, c, quoted, escaped, j)
  {
    if s != "" {
      var (q, e, hit) := ScanChar(s[0], c, quoted, escaped);
      assert q == ScanChar(s[0], '=', quoted, escaped).0 && e == ScanChar(s[0], '=', quoted, escaped).1 && (e ==> q);
      assert Hit(s, c, quoted, escaped, 0) <==> hit;
      hide Hit, Run, ScanChar;
      forall j: nat ensures Hit(s, c, quoted, escaped, j + 1) <==> Hit(s[1..], c, q, e, j) { HitCons(s, c, quoted, escaped, j); }
      if i > 0 {
        ScanRuns(s[1..], c, q, e, i - 1);
        forall j: nat | 0 < j ensures Hit(s, c, quoted, escaped, j) <==> Hit(s[1..], c, q, e, j - 1) {
          assert Hit(s, c, quoted, escaped, (j - 1) + 1) <==> Hit(s[1..], c, q, e, j - 1);
        }
        if forall j: nat | j < i :: !Hit(s, c, quoted, escaped, j) {
          forall j: nat | j < i - 1 ensures !Hit(s[1..], c, q, e, j) { assert !Hit(s, c, quoted, escaped, j + 1); }
        }
      }
    }
  }

  /** The scanner finds the first mark outside quotations. */
  lemma {:induction false} FindOutsideIs(s: string, c: char, i: nat)
    requires c == '#' || c == '='
    ensures FindOutside(s, c, false, false) == Some(i) <==> FirstOutside(s, c, i)
  {
    ScanRuns(s, c, false, false, i);
    forall j: nat ensures Hit(s, c, false, false, j) <==> j < |s| && s[j] == c && Balanced(s[..j]) {
      if j < |s| { RunOutside(s[..j]); }
    }
    hide Hit, Run, Balanced;
    if FirstOutside(s, c, i) {
      forall j: nat | j < i ensures !Hit(s, c, false, false, j) { assert s[j] == c ==> !Balanced(s[..j]); }
    }
    if Hit(s, c, false, false, i) && forall j: nat | j < i :: !Hit(s, c, false, false, j) {
      forall j | 0 <= j < i ensures s[j] == c ==> !Balanced(s[..j]) { assert !Hit(s, c, false, false, j); }
    }
  }

  // ---------------------------------------------------------------------------
  // Values
  // ---------------------------------------------------------------------------

  /** `w` is a way to write `c` inside a string. */
  predicate Image(c: char, w: string) {
    || (w == [c] && c != '\\')
    || (w == "\\\"" && c == '"') || (w == "\\\\" && c == '\\')
    || (w == "\\n" && c == '\n') || (w == "\\r" && c == '\r') || (w == "\\t" && c == '\t')
  }

  ghost predicate Writes(e: string, v: string)
    decreases |v|
  {
    if v == "" then e == "" else exists n | 1 <= n <= |e| :: Image(v[0], e[..n]) && Writes(e[n..], v[1..])
  }

  /** Unescaping reads back exactly what writes a text. */
  lemma {:induction false} UnescapeIs(e: string, v: string)
    ensures Unescape(e) == Ok(v) <==> Writes(e, v)
    decreases |e|
  {
    hide Unescape, Image, Writes;
    if e == "" {
      NothingWritten(v);
    } else if e == "\\" {
      LoneBackslash(v);
    } else {
      var k := if e[0] == '\\' then 2 else 1;
      OneImage(e, v, k);
      UnescapeFirst(e, v, k);
      if v != "" { UnescapeIs(e[k..], v[1..]); }
    }
  }

  lemma NothingWritten(v: string)
    ensures Unescape("") == Ok(v) <==> Writes("", v)
  {
  }

  lemma LoneBackslash(v: string)
    ensures Unescape("\\").Err? && !Writes("\\", v)
  {
    var w := "\\"[..1];
    assert |w| == 1 && w[0] == '\\';
    assert v != "" ==> !Image(v[0], w);
  }

  lemma {:induction false} UnescapeFirst(e: string, v: string, k: nat)
    requires e != "" && k <= |e| && k == if e[0] == '\\' then 2 else 1
    ensures Unescape(e) == Ok(v) <==> v != "" && Image(v[0], e[..k]) && Unescape(e[k..]) == Ok(v[1..])
  {
    PrependIs(if v != "" then v[0] else ' ', Unescape(e[k..]), v);
    if k == 1 {
      PrependIs(e[0], Unescape(e[1..]), v);
    } else {
      assert e[..2] == [e[0], e[1]];
      forall c ensures Prepend(c, Unescape(e[2..])) == Ok(v) <==> v != "" && v[0] == c && Unescape(e[2..]) == Ok(v[1..]) {
        PrependIs(c, Unescape(e[2..]), v);
      }
    }
  }

  lemma PrependIs(c: char, r: Result<string, StringError>, v: string)
    ensures Prepend(c, r) == Ok(v) <==> v != "" && v[0] == c && r == Ok(v[1..])
  {
    if v != "" { assert v == [v[0]] + v[1..]; }
    if r.Ok? { assert ([c] + r.value)[1..] == r.value; }
  }

  lemma {:induction false} OneImage(e: string, v: string, k: nat)
    requires e != "" && k <= |e| && k == if e[0] == '\\' then 2 else 1
    ensures Writes(e, v) <==> v != "" && Image(v[0], e[..k]) && Writes(e[k..], v[1..])
  {
    if v != "" {
      forall n | 1 <= n <= |e| ensures Image(v[0], e[..n]) ==> n == k {
        assert e[..n][0] == e[0];
      }
    }
  }

  /** `raw` is a quoted string, with white space around it or none, and its value is `v`. */
  ghost predicate StringSpelled(raw: string, v: string) {
    exists e :: Trims(raw, "\"" + e + "\"") && Writes(e, v)
  }

  lemma {:induction false} ParseStringIs(raw: string, v: string)
    ensures ParseString(raw) == Ok(v) <==> StringSpelled(raw, v)
  {
    var t := Trim(raw);
    TrimIs(raw, t);
    forall e ensures Trims(raw, "\"" + e + "\"") <==> t == "\"" + e + "\"" { TrimIs(raw, "\"" + e + "\""); }
    if |t| >= 2 && t[0] == '"' && t[|t| - 1] == '"' {
      var e := t[1..|t| - 1];
      assert t == "\"" + e + "\"";
      UnescapeIs(e, v);
      forall d | t == "\"" + d + "\"" ensures d == e { assert ("\"" + d + "\"")[1..|d| + 1] == d; }
    }
  }

  /** `raw` spells a number of 32 bits, with a plus sign or none. */
  ghost predicate NumberSpelled(raw: string, n: nat) {
    && n < 0x1_0000_0000
    && exists t :: Trims(raw, t) && (Spells(t, n) || (t != "" && t[0] == '+' && Spells(t[1..], n)))
  }

  lemma {:induction false} ParseU32Is(raw: string, n: nat)
    ensures ParseU32(Trim(raw)) == Some(n) <==> NumberSpelled(raw, n)
  {
    hide Trims, Trim;
    var t := Trim(raw);
    forall u ensures Trims(raw, u) <==> t == u { TrimIs(raw, u); }
    SpellsIs(t, n);
    if t != "" {
      SpellsIs(t[1..], n);
      assert t[0] == '+' ==> !AllDigits(t);
    }
  }

  // ---------------------------------------------------------------------------
  // Lines
  // ---------------------------------------------------------------------------

  datatype Item = Nothing | Heading | Pair(entry: Entry)

  /** A line up to its comment. */
  ghost predicate Code(line: string, code: string) {
    if exists i: nat :: FirstOutside(line, '#', i) then exists i: nat :: FirstOutside(line, '#', i) && code == line[..i]
    else code == line
  }

  /** What a line says: nothing, that a table begins, or a value for a key. */
  ghost predicate LineIs(line: string, item: Item) {
    exists code, text :: Code(line, code) && Trims(code, text) && TextIs(text, item)
  }

  ghost predicate TextIs(text: string, item: Item) {
    match item
    case Nothing => text == ""
    case Heading => text == "[[dependency]]"
    case Pair(e) =>
      && text != "" && text != "[[dependency]]"
      && exists i: nat :: FirstOutside(text, '=', i) && Trims(text[..i], e.0) && e.1 == text[i + 1..]
  }

  function ItemOf(line: string): Option<Item> {
    var t := Trim(StripComment(line));
    if t == "" then Some(Nothing)
    else if t == "[[dependency]]" then Some(Heading)
    else match SplitKeyValue(t) case None => None case Some(kv) => Some(Pair((Trim(kv.0), kv.1)))
  }

  lemma {:induction false} CodeIs(line: string, code: string)
    ensures Code(line, code) <==> code == StripComment(line)
  {
    hide FirstOutside, FindOutside;
    forall i: nat ensures FindOutside(line, '#', false, false) == Some(i) <==> FirstOutside(line, '#', i) {
      FindOutsideIs(line, '#', i);
    }
  }

  lemma {:induction false} TextItem(text: string, item: Item)
    requires item.Pair?
    ensures (exists i: nat :: FirstOutside(text, '=', i) && Trims(text[..i], item.entry.0) && item.entry.1 == text[i + 1..])
      <==> SplitKeyValue(text).Some? && (Trim(SplitKeyValue(text).value.0), SplitKeyValue(text).value.1) == item.entry
  {
    hide FirstOutside, FindOutside, Trims, Trim;
    forall i: nat
      ensures FindOutside(text, '=', false, false) == Some(i) <==> FirstOutside(text, '=', i)
      ensures FirstOutside(text, '=', i) ==> i < |text|
    {
      FindOutsideIs(text, '=', i);
    }
    forall i | 0 <= i < |text| ensures Trims(text[..i], item.entry.0) <==> item.entry.0 == Trim(text[..i]) {
      TrimIs(text[..i], item.entry.0);
    }
  }

  lemma {:induction false} LineIsItem(line: string, item: Item)
    ensures LineIs(line, item) <==> ItemOf(line) == Some(item)
  {
    hide FirstOutside, FindOutside, Trims, Trim, Code, StripComment, SplitKeyValue;
    var code := StripComment(line);
    var text := Trim(code);
    forall c ensures Code(line, c) <==> c == code { CodeIs(line, c); }
    forall t ensures Trims(code, t) <==> t == text { TrimIs(code, t); }
    assert Code(line, code) && Trims(code, text);
    assert LineIs(line, item) <==> TextIs(text, item);
    if item.Pair? { TextItem(text, item); }
  }

  // ---------------------------------------------------------------------------
  // Files
  // ---------------------------------------------------------------------------

  datatype File = File(header: seq<Entry>, tables: seq<seq<Entry>>)

  /** An entry belongs to the table begun last, or before any to the header. */
  function Add(f: File, item: Item): File {
    match item
    case Nothing => f
    case Heading => f.(tables := f.tables + [[]])
    case Pair(e) =>
      if f.tables == [] then f.(header := f.header + [e])
      else f.(tables := f.tables[..|f.tables| - 1] + [f.tables[|f.tables| - 1] + [e]])
  }

  ghost predicate LaidOut(lines: seq<string>, f: File) {
    if lines == [] then f == File([], [])
    else exists g, item :: LaidOut(lines[..|lines| - 1], g) && LineIs(lines[|lines| - 1], item) && f == Add(g, item)
  }

  /** The last value given for `key`. */
  ghost predicate LastValue(es: seq<Entry>, key: string, value: string) {
    exists i | 0 <= i < |es| :: es[i] == (key, value) && forall j | i < j < |es| :: es[j].0 != key
  }

  ghost predicate Field(es: seq<Entry>, key: string, s: string) {
    exists value :: LastValue(es, key, value) && StringSpelled(value, s)
  }

  ghost predicate FormatIs(es: seq<Entry>, n: nat) {
    exists value :: LastValue(es, "format", value) && NumberSpelled(value, n)
  }

  predicate Lacks(es: seq<Entry>, key: string) {
    forall i | 0 <= i < |es| :: es[i].0 != key
  }

  ghost predicate Given(es: seq<Entry>, key: string, value: Option<string>) {
    match value case Some(s) => Field(es, key, s) case None => Lacks(es, key)
  }

  /** The same hexadecimal digit, the second one in lower case. */
  predicate LowerHex(given: char, lower: char) {
    || (given == lower && ('0' <= given <= '9' || 'a' <= given <= 'f'))
    || exists k | 0 <= k < 6 :: given == "ABCDEF"[k] && lower == "abcdef"[k]
  }

  predicate DigestIs(given: string, digest: string) {
    |given| == |digest| == 64 && forall i | 0 <= i < 64 :: LowerHex(given[i], digest[i])
  }

  ghost predicate DependencyIs(es: seq<Entry>, d: Dependency) {
    && Field(es, "name", d.name) && Field(es, "source", SourceName(d.source)) && Field(es, "version", d.version)
    && Given(es, "path", d.path) && Given(es, "url", d.url) && Given(es, "revision", d.revision)
    && exists given :: Field(es, "digest", given) && DigestIs(given, d.digest)
  }

  /** Every header entry is one of three, and spells a value. */
  ghost predicate HeaderSpelled(es: seq<Entry>) {
    forall i | 0 <= i < |es| :: HeaderEntry(es[i])
  }

  ghost predicate HeaderEntry(e: Entry) {
    || (e.0 == "format" && exists n: nat :: NumberSpelled(e.1, n))
    || ((e.0 == "root" || e.0 == "root_version") && SpellsString(e.1))
  }

  ghost predicate SpellsString(raw: string) {
    exists s :: StringSpelled(raw, s)
  }

  ghost predicate TableSpelled(es: seq<Entry>) {
    forall i | 0 <= i < |es| :: SpellsString(es[i].1)
  }

  ghost predicate Spelled(f: File) {
    HeaderSpelled(f.header) && forall i | 0 <= i < |f.tables| :: TableSpelled(f.tables[i])
  }

  ghost predicate LockIs(f: File, lock: Lock) {
    && FormatIs(f.header, FORMAT_VERSION)
    && Field(f.header, "root", lock.rootName) && Field(f.header, "root_version", lock.rootVersion)
    && |f.tables| == |lock.dependencies|
    && forall i | 0 <= i < |f.tables| :: DependencyIs(f.tables[i], lock.dependencies[i])
  }

  // ---------------------------------------------------------------------------
  // Tables
  // ---------------------------------------------------------------------------

  lemma {:induction false} LastValueSnoc(es: seq<Entry>, e: Entry, key: string, value: string)
    ensures LastValue(es + [e], key, value) <==> if key == e.0 then value == e.1 else LastValue(es, key, value)
  {
    var all := es + [e];
    assert all[|es|] == e;
    if key == e.0 {
      if value == e.1 { assert all[|es|] == (key, value); }
    } else {
      if i :| 0 <= i < |es| && es[i] == (key, value) && forall j | i < j < |es| :: es[j].0 != key {
        assert all[i] == (key, value);
      }
      if i :| 0 <= i < |all| && all[i] == (key, value) && forall j | i < j < |all| :: all[j].0 != key {
        assert es[i] == (key, value);
        forall j | i < j < |es| ensures es[j].0 != key { assert all[j] == es[j]; }
      }
    }
  }

  lemma {:induction false} FieldSnoc(es: seq<Entry>, e: Entry, key: string, s: string)
    ensures Field(es + [e], key, s) <==> if key == e.0 then StringSpelled(e.1, s) else Field(es, key, s)
  {
    hide LastValue, StringSpelled;
    forall value ensures LastValue(es + [e], key, value) <==> if key == e.0 then value == e.1 else LastValue(es, key, value) {
      LastValueSnoc(es, e, key, value);
    }
  }

  lemma {:induction false} FormatSnoc(es: seq<Entry>, e: Entry, n: nat)
    ensures FormatIs(es + [e], n) <==> if e.0 == "format" then NumberSpelled(e.1, n) else FormatIs(es, n)
  {
    hide LastValue, NumberSpelled;
    forall value ensures LastValue(es + [e], "format", value) <==> if "format" == e.0 then value == e.1 else LastValue(es, "format", value) {
      LastValueSnoc(es, e, "format", value);
    }
  }

  /** The map the parser builds holds the last values. */
  ghost predicate TableIs(es: seq<Entry>, t: Table) {
    && (forall key, s :: Field(es, key, s) <==> key in t && t[key] == s)
    && (forall key :: Lacks(es, key) <==> key !in t)
  }

  lemma {:induction false} TableSnoc(es: seq<Entry>, t: Table, e: Entry, s: string)
    requires TableIs(es, t) && StringSpelled(e.1, s)
    ensures TableIs(es + [e], t[e.0 := s])
  {
    hide Field, StringSpelled;
    forall key, r ensures Field(es + [e], key, r) <==> key in t[e.0 := s] && t[e.0 := s][key] == r {
      FieldSnoc(es, e, key, r);
      SpelledOnce(e.1, s, r);
    }
    forall key ensures Lacks(es + [e], key) <==> key !in t[e.0 := s] { LacksSnoc(es, e, key); }
  }

  lemma LacksSnoc(es: seq<Entry>, e: Entry, key: string)
    ensures Lacks(es + [e], key) <==> Lacks(es, key) && key != e.0
  {
    var all := es + [e];
    assert all[|es|] == e;
    assert forall i | 0 <= i < |es| :: all[i] == es[i];
  }

  lemma SpelledOnce(raw: string, s: string, r: string)
    requires StringSpelled(raw, s)
    ensures StringSpelled(raw, r) <==> r == s
  {
    ParseStringIs(raw, s);
    ParseStringIs(raw, r);
  }

  lemma {:induction false} HexLowers(given: char, lower: char)
    ensures LowerHex(given, lower) <==> HexDigit(given) && lower == LowerChar(given)
  {
    if 'A' <= given <= 'F' {
      var k := given as int - 'A' as int;
      assert given == "ABCDEF"[k] && LowerChar(given) == "abcdef"[k];
    }
  }

  lemma {:induction false} DigestLowers(given: string, digest: string)
    ensures DigestIs(given, digest) <==> Digest(given) && digest == Lowercase(given)
  {
    hide LowerHex, HexDigit;
    if |given| == |digest| == 64 {
      forall i | 0 <= i < 64 ensures LowerHex(given[i], digest[i]) <==> HexDigit(given[i]) && digest[i] == LowerChar(given[i]) {
        HexLowers(given[i], digest[i]);
      }
      assert digest == Lowercase(given) <==> forall i | 0 <= i < 64 :: digest[i] == LowerChar(given[i]);
    }
  }

  lemma {:induction false} TableParsesTo(es: seq<Entry>, t: Table, d: Dependency)
    requires TableIs(es, t)
    ensures DependencyIs(es, d) <==> ParseDependency(t) == Ok(d)
  {
    hide Field, Lacks, Digest, Lowercase, DigestIs;
    forall given ensures DigestIs(given, d.digest) <==> Digest(given) && d.digest == Lowercase(given) {
      DigestLowers(given, d.digest);
    }
    assert Given(es, "path", d.path) <==> d.path == Get(t, "path");
    assert Given(es, "url", d.url) <==> d.url == Get(t, "url");
    assert Given(es, "revision", d.revision) <==> d.revision == Get(t, "revision");
    assert Field(es, "source", SourceName(d.source)) <==> "source" in t && ParseSource(t["source"]) == Some(d.source);
    if "digest" in t { assert Field(es, "digest", t["digest"]); }
  }

  // ---------------------------------------------------------------------------
  // The parser's state
  // ---------------------------------------------------------------------------

  ghost predicate Closable(es: seq<Entry>) {
    TableSpelled(es) && exists d :: DependencyIs(es, d)
  }

  /** What the parser has checked of the entries so far: not yet the table under construction as a whole. */
  ghost predicate Checked(f: File) {
    && Spelled(f)
    && forall i | 0 <= i < |f.tables| - 1 :: Closable(f.tables[i])
  }

  ghost predicate HeaderIs(es: seq<Entry>, p: Parsed) {
    && (forall n: nat :: FormatIs(es, n) <==> p.format == Some(n))
    && (forall s :: Field(es, "root", s) <==> p.root == Some(s))
    && (forall s :: Field(es, "root_version", s) <==> p.rootVersion == Some(s))
  }

  ghost predicate TablesAre(tables: seq<seq<Entry>>, p: Parsed) {
    match p.current
    case None => tables == [] && p.dependencies == []
    case Some(t) =>
      && |tables| == |p.dependencies| + 1 && TableIs(tables[|tables| - 1], t)
      && forall i | 0 <= i < |p.dependencies| :: DependencyIs(tables[i], p.dependencies[i])
  }

  lemma {:induction false} HeaderSnoc(es: seq<Entry>, p: Parsed, e: Entry)
    requires HeaderIs(es, p) && p.current == None
    ensures HeaderEntry(e) <==> StepEntry(p, e.0, e.1).Ok?
    ensures HeaderEntry(e) ==> HeaderIs(es + [e], StepEntry(p, e.0, e.1).value)
    ensures HeaderEntry(e) ==> StepEntry(p, e.0, e.1).value.current == None && StepEntry(p, e.0, e.1).value.dependencies == p.dependencies
  {
    hide Field, FormatIs, NumberSpelled, StringSpelled, ParseString, ParseU32, Trim;
    forall s ensures StringSpelled(e.1, s) <==> ParseString(e.1) == Ok(s) { ParseStringIs(e.1, s); }
    forall n: nat ensures NumberSpelled(e.1, n) <==> ParseU32(Trim(e.1)) == Some(n) { ParseU32Is(e.1, n); }
    if HeaderEntry(e) {
      var q := StepEntry(p, e.0, e.1).value;
      forall n: nat ensures FormatIs(es + [e], n) <==> q.format == Some(n) { FormatSnoc(es, e, n); }
      forall s ensures Field(es + [e], "root", s) <==> q.root == Some(s) { FieldSnoc(es, e, "root", s); }
      forall s ensures Field(es + [e], "root_version", s) <==> q.rootVersion == Some(s) { FieldSnoc(es, e, "root_version", s); }
    }
  }

  lemma {:induction false} CloseIs(f: File, p: Parsed)
    requires TablesAre(f.tables, p) && Spelled(f) && p.current.Some?
    ensures Close(p).Ok? <==> Closable(f.tables[|f.tables| - 1])
    ensures Close(p).Ok? ==> Close(p).value == p.(current := None, dependencies := Close(p).value.dependencies)
    ensures Close(p).Ok? ==> forall i | 0 <= i < |f.tables| :: DependencyIs(f.tables[i], Close(p).value.dependencies[i])
    ensures Close(p).Ok? ==> |Close(p).value.dependencies| == |f.tables|
  {
    hide DependencyIs, ParseDependency, TableIs;
    var es := f.tables[|f.tables| - 1];
    forall d ensures DependencyIs(es, d) <==> ParseDependency(p.current.value) == Ok(d) {
      TableParsesTo(es, p.current.value, d);
    }
  }

  lemma {:induction false} EmptyTable()
    ensures TableIs([], map[])
  {
    forall key, s ensures !Field([], key, s) {
      forall value ensures !LastValue([], key, value) {}
    }
  }

  lemma {:induction false} HeadingRuns(f: File, p: Parsed)
    requires HeaderIs(f.header, p) && TablesAre(f.tables, p) && Checked(f)
    ensures Close(p).Ok? <==> Checked(Add(f, Heading))
    ensures Close(p).Ok? ==>
      var q := Close(p).value.(current := Some(map[]));
      HeaderIs(f.header, q) && TablesAre(Add(f, Heading).tables, q)
  {
    hide DependencyIs, TableIs, TableSpelled, Field, FormatIs;
    var g := Add(f, Heading);
    EmptyTable();
    SpelledEmpty();
    if p.current.Some? { CloseIs(f, p); }
    assert forall i | 0 <= i < |f.tables| :: g.tables[i] == f.tables[i];
    assert g.tables[|f.tables|] == [];
    if Checked(g) && p.current.Some? { assert Closable(g.tables[|f.tables| - 1]); }
  }

  lemma SpelledEmpty()
    ensures TableSpelled([])
  {
  }

  lemma SpelledSnoc(es: seq<Entry>, e: Entry)
    requires TableSpelled(es)
    ensures TableSpelled(es + [e]) <==> SpellsString(e.1)
  {
    var all := es + [e];
    assert all[|es|] == e;
    assert forall i | 0 <= i < |es| :: all[i] == es[i];
  }

  lemma {:induction false} EntryRuns(f: File, p: Parsed, e: Entry)
    requires HeaderIs(f.header, p) && TablesAre(f.tables, p) && Checked(f)
    ensures StepEntry(p, e.0, e.1).Ok? <==> Checked(Add(f, Pair(e)))
    ensures StepEntry(p, e.0, e.1).Ok? ==>
      var q := StepEntry(p, e.0, e.1).value;
      HeaderIs(Add(f, Pair(e)).header, q) && TablesAre(Add(f, Pair(e)).tables, q)
  {
    var g := Add(f, Pair(e));
    if p.current == None {
      HeaderRuns(f, p, e);
    } else {
      TableRuns(f, p, e);
    }
  }

  lemma {:induction false} HeaderRuns(f: File, p: Parsed, e: Entry)
    requires HeaderIs(f.header, p) && TablesAre(f.tables, p) && Checked(f) && p.current == None
    ensures StepEntry(p, e.0, e.1).Ok? <==> Checked(Add(f, Pair(e)))
    ensures StepEntry(p, e.0, e.1).Ok? ==>
      var q := StepEntry(p, e.0, e.1).value;
      HeaderIs(Add(f, Pair(e)).header, q) && TablesAre(Add(f, Pair(e)).tables, q)
  {
    hide StepEntry, HeaderEntry, HeaderIs, Closable;
    HeaderSnoc(f.header, p, e);
    var all := f.header + [e];
    assert all[|f.header|] == e;
    assert forall i | 0 <= i < |f.header| :: all[i] == f.header[i];
  }

  lemma {:induction false} TableRuns(f: File, p: Parsed, e: Entry)
    requires HeaderIs(f.header, p) && TablesAre(f.tables, p) && Checked(f) && p.current.Some?
    ensures StepEntry(p, e.0, e.1).Ok? <==> Checked(Add(f, Pair(e)))
    ensures StepEntry(p, e.0, e.1).Ok? ==>
      var q := StepEntry(p, e.0, e.1).value;
      HeaderIs(Add(f, Pair(e)).header, q) && TablesAre(Add(f, Pair(e)).tables, q)
  {
    hide Closable, DependencyIs, TableIs, TableSpelled, HeaderSpelled, StringSpelled, ParseString, Field, FormatIs;
    var n := |f.tables| - 1;
    var es := f.tables[n];
    var g := Add(f, Pair(e));
    assert g.tables[n] == es + [e] && forall i | 0 <= i < n :: g.tables[i] == f.tables[i];
    forall s ensures StringSpelled(e.1, s) <==> ParseString(e.1) == Ok(s) { ParseStringIs(e.1, s); }
    SpelledSnoc(es, e);
    if ParseString(e.1).Ok? { TableSnoc(es, p.current.value, e, ParseString(e.1).value); }
  }

  // ---------------------------------------------------------------------------
  // Whole files
  // ---------------------------------------------------------------------------

  lemma {:induction false} ParseLinesSnoc(p: Parsed, lines: seq<string>, line: string)
    ensures ParseLines(p, lines + [line]) == if ParseLines(p, lines).Err? then ParseLines(p, lines) else Step(ParseLines(p, lines).value, line)
    decreases |lines|
  {
    hide Step;
    if lines == [] {
      assert ([] + [line])[1..] == [];
    } else {
      assert (lines + [line])[1..] == lines[1..] + [line];
      if Step(p, lines[0]).Ok? { ParseLinesSnoc(Step(p, lines[0]).value, lines[1..], line); }
    }
  }

  lemma StepItem(p: Parsed, line: string)
    ensures Step(p, line) == match ItemOf(line)
      case None => Err(ExpectedKeyValue)
      case Some(Nothing) => Ok(p)
      case Some(Heading) => if Close(p).Err? then Close(p) else Ok(Close(p).value.(current := Some(map[])))
      case Some(Pair(e)) => StepEntry(p, e.0, e.1)
  {
    hide Trim, StripComment, SplitKeyValue, Close, StepEntry;
  }

  lemma {:induction false} LineRuns(f: File, p: Parsed, line: string, item: Item)
    requires HeaderIs(f.header, p) && TablesAre(f.tables, p) && Checked(f) && LineIs(line, item)
    ensures Step(p, line).Ok? <==> Checked(Add(f, item))
    ensures Step(p, line).Ok? ==>
      HeaderIs(Add(f, item).header, Step(p, line).value) && TablesAre(Add(f, item).tables, Step(p, line).value)
  {
    hide Step, Close, StepEntry, ItemOf, HeaderIs, TablesAre, Checked;
    LineIsItem(line, item);
    StepItem(p, line);
    match item
    case Nothing =>
    case Heading => HeadingRuns(f, p);
    case Pair(e) => EntryRuns(f, p, e);
  }

  /** No line takes back what an earlier one broke. */
  lemma {:induction false} AddKeepsChecked(f: File, item: Item)
    requires Checked(Add(f, item))
    ensures Checked(f)
  {
    hide Closable, HeaderEntry, TableSpelled;
    var g := Add(f, item);
    match item
    case Nothing =>
    case Heading =>
      forall i | 0 <= i < |f.tables| ensures g.tables[i] == f.tables[i] && TableSpelled(f.tables[i]) {}
    case Pair(e) =>
      if f.tables == [] {
        assert forall i | 0 <= i < |f.header| :: g.header[i] == f.header[i];
      } else {
        var n := |f.tables| - 1;
        assert forall i | 0 <= i < n :: g.tables[i] == f.tables[i];
        assert g.tables[n] == f.tables[n] + [e];
        SpelledFront(f.tables[n], e);
      }
  }

  lemma SpelledFront(es: seq<Entry>, e: Entry)
    requires TableSpelled(es + [e])
    ensures TableSpelled(es)
  {
    assert forall i | 0 <= i < |es| :: (es + [e])[i] == es[i];
  }

  /** The parser gets through the lines exactly when they are laid out as a file whose closed tables are dependencies. */
  lemma {:induction false} LinesRun(lines: seq<string>, f: File)
    requires LaidOut(lines, f)
    ensures ParseLines(START, lines).Ok? <==> Checked(f)
    ensures ParseLines(START, lines).Ok? ==>
      HeaderIs(f.header, ParseLines(START, lines).value) && TablesAre(f.tables, ParseLines(START, lines).value)
    decreases |lines|
  {
    hide Step, HeaderIs, TablesAre, Checked, LineIs;
    if lines == [] {
      NothingRead();
    } else {
      var front, line := lines[..|lines| - 1], lines[|lines| - 1];
      assert lines == front + [line];
      var g, item :| LaidOut(front, g) && LineIs(line, item) && f == Add(g, item);
      ParseLinesSnoc(START, front, line);
      LinesRun(front, g);
      if Checked(f) { AddKeepsChecked(g, item); }
      if ParseLines(START, front).Ok? { LineRuns(g, ParseLines(START, front).value, line, item); }
    }
  }

  lemma {:induction false} NothingRead()
    ensures HeaderIs([], START) && TablesAre([], START) && Checked(File([], []))
  {
    EmptyTable();
    forall n: nat ensures !FormatIs([], n) {
      forall value ensures !LastValue([], "format", value) {}
    }
  }

  lemma {:induction false} ParsedIsLaidOut(lines: seq<string>) returns (f: File)
    requires ParseLines(START, lines).Ok?
    ensures LaidOut(lines, f)
    decreases |lines|
  {
    hide Step, LineIs;
    f := File([], []);
    if lines != [] {
      var front, line := lines[..|lines| - 1], lines[|lines| - 1];
      assert lines == front + [line];
      ParseLinesSnoc(START, front, line);
      var g := ParsedIsLaidOut(front);
      StepItem(ParseLines(START, front).value, line);
      LineIsItem(line, ItemOf(line).value);
      f := Add(g, ItemOf(line).value);
    }
  }

  /** What the end of the file makes of the state. */
  lemma {:induction false} FinishIs(f: File, p: Parsed, lock: Lock)
    requires HeaderIs(f.header, p) && TablesAre(f.tables, p) && Checked(f)
    ensures Finish(p) == Ok(lock) <==> LockIs(f, lock)
  {
    hide DependencyIs, FormatIs, Field;
    if p.current.Some? {
      CloseIs(f, p);
      var q := Close(p);
      if q.Ok? {
        DependenciesOnce(f.tables, q.value.dependencies, lock.dependencies);
      } else {
        var n := |f.tables| - 1;
        assert forall d :: !DependencyIs(f.tables[n], d);
        assert n < |lock.dependencies| ==> !DependencyIs(f.tables[n], lock.dependencies[n]);
      }
    }
  }

  lemma {:induction false} FieldOnce(es: seq<Entry>, key: string, s: string, r: string)
    requires Field(es, key, s) && Field(es, key, r)
    ensures s == r
  {
    hide StringSpelled;
    var v :| LastValue(es, key, v) && StringSpelled(v, s);
    var w :| LastValue(es, key, w) && StringSpelled(w, r);
    SpelledOnce(v, s, r);
  }

  lemma {:induction false} GivenOnce(es: seq<Entry>, key: string, s: Option<string>, r: Option<string>)
    requires Given(es, key, s) && Given(es, key, r)
    ensures s == r
  {
    hide StringSpelled;
    if s.Some? && r.Some? { FieldOnce(es, key, s.value, r.value); }
  }

  lemma {:induction false} DependencyOnce(es: seq<Entry>, d: Dependency, e: Dependency)
    requires DependencyIs(es, d) && DependencyIs(es, e)
    ensures d == e
  {
    hide Field, Given, DigestIs;
    FieldOnce(es, "name", d.name, e.name);
    FieldOnce(es, "source", SourceName(d.source), SourceName(e.source));
    FieldOnce(es, "version", d.version, e.version);
    GivenOnce(es, "path", d.path, e.path);
    GivenOnce(es, "url", d.url, e.url);
    GivenOnce(es, "revision", d.revision, e.revision);
    var g :| Field(es, "digest", g) && DigestIs(g, d.digest);
    var h :| Field(es, "digest", h) && DigestIs(h, e.digest);
    FieldOnce(es, "digest", g, h);
    DigestLowers(g, d.digest);
    DigestLowers(h, e.digest);
  }

  lemma {:induction false} DependenciesOnce(tables: seq<seq<Entry>>, ds: seq<Dependency>, es: seq<Dependency>)
    requires |tables| == |ds| && forall i | 0 <= i < |ds| :: DependencyIs(tables[i], ds[i])
    ensures (|tables| == |es| && forall i | 0 <= i < |es| :: DependencyIs(tables[i], es[i])) <==> ds == es
  {
    hide DependencyIs;
    forall i | 0 <= i < |ds| && i < |es| && DependencyIs(tables[i], es[i]) ensures ds[i] == es[i] {
      DependencyOnce(tables[i], ds[i], es[i]);
    }
  }

  /** A text is a lockfile with this lock. */
  ghost predicate IsLockfile(source: string, lock: Lock) {
    exists f :: LaidOut(Lines(source), f) && Spelled(f) && LockIs(f, lock)
  }

  /** The parser accepts exactly the lockfiles, with exactly their locks. */
  lemma {:induction false} ParserIsExact(source: string, lock: Lock)
    ensures Parse(source) == Ok(lock) <==> IsLockfile(source, lock)
  {
    hide Lines, ParseLines, Finish, LaidOut, LockIs, HeaderIs, TablesAre;
    var lines := Lines(source);
    if Parse(source) == Ok(lock) {
      var f := ParsedIsLaidOut(lines);
      LinesRun(lines, f);
      FinishIs(f, ParseLines(START, lines).value, lock);
    }
    if IsLockfile(source, lock) {
      var f :| LaidOut(lines, f) && Spelled(f) && LockIs(f, lock);
      LockIsChecked(f, lock);
      LinesRun(lines, f);
      FinishIs(f, ParseLines(START, lines).value, lock);
    }
  }

  lemma LockIsChecked(f: File, lock: Lock)
    requires Spelled(f) && LockIs(f, lock)
    ensures Checked(f)
  {
    hide DependencyIs, TableSpelled;
    forall i | 0 <= i < |f.tables| - 1 ensures Closable(f.tables[i]) { assert DependencyIs(f.tables[i], lock.dependencies[i]); }
  }

  /**
    A file in good order whose header does not give format 2 last, or gives none, is refused as of
    an unsupported format, whatever else it holds or lacks.
  */
  lemma {:induction false} OtherFormatsAreRefused(source: string, f: File)
    requires LaidOut(Lines(source), f) && Spelled(f) && forall i | 0 <= i < |f.tables| :: Closable(f.tables[i])
    ensures Parse(source) == Err(UnsupportedFormat) <==> !FormatIs(f.header, FORMAT_VERSION)
  {
    hide Lines, ParseLines, LaidOut, DependencyIs, FormatIs, Field, TableSpelled;
    var lines := Lines(source);
    assert Checked(f);
    LinesRun(lines, f);
    var p := ParseLines(START, lines).value;
    if p.current.Some? { CloseIs(f, p); }
  }
}
