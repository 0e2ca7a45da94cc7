/**
  The lockfile: its writer, its line-oriented parser, and the quoting automata between them.
*/
module Lockfile {
  import opened Wrappers
  import opened Text

  const FORMAT_VERSION: nat := 2

  const COMMENT := "# This file is generated by `ori lock`."

  datatype Source = Registry | Path | Git

  datatype Dependency = Dependency(
    name: string, source: Source, version: string,
    path: Option<string>, url: Option<string>, revision: Option<string>, digest: string)

  datatype Lock = Lock(rootName: string, rootVersion: string, dependencies: seq<Dependency>)

  datatype StringError = NotQuoted | UnterminatedEscape | UnsupportedEscape(c: char)

  datatype LockError =
    | ExpectedKeyValue | BadString(error: StringError) | BadFormat | UnknownKey(key: string)
    | MissingKey(key: string) | UnknownSource(name: string) | BadDigest | UnsupportedFormat

  // ---------------------------------------------------------------------------
  // Quoting
  // ---------------------------------------------------------------------------

  function Replace(s: string, c: char, image: string): string {
    if s == "" then "" else (if s[0] == c then image else [s[0]]) + Replace(s[1..], c, image)
  }

  /** A path as the lock and the tree digest spell it. */
  function Slashes(path: string): string { Replace(path, '\\', "/") }

  function Quote(value: string): string {
    "\"" + Replace(Replace(value, '\\', "\\\\"), '"', "\\\"") + "\""
  }

  function EscapeChar(c: char): string {
    if c == '\\' then "\\\\" else if c == '"' then "\\\"" else [c]
  }

  function Escape(s: string): string {
    if s == "" then "" else EscapeChar(s[0]) + Escape(s[1..])
  }

  lemma {:induction false} ReplaceAppend(a: string, b: string, c: char, image: string)
    ensures Replace(a + b, c, image) == Replace(a, c, image) + Replace(b, c, image)
  {
    if a == "" {
      assert a + b == b;
    } else {
      assert (a + b)[1..] == a[1..] + b;
      ReplaceAppend(a[1..], b, c, image);
    }
  }

  /** The two replacements in turn escape character by character. */
  lemma {:induction false} QuoteEscapes(s: string)
    ensures Quote(s) == "\"" + Escape(s) + "\""
  {
    TwoReplacements(s);
  }

  lemma {:induction false} TwoReplacements(s: string)
    ensures Replace(Replace(s, '\\', "\\\\"), '"', "\\\"") == Escape(s)
  {
    if s != "" {
      var first := if s[0] == '\\' then "\\\\" else [s[0]];
      ReplaceAppend(first, Replace(s[1..], '\\', "\\\\"), '"', "\\\"");
      assert Replace("\\\\"[1..], '"', "\\\"") == "\\" + Replace("", '"', "\\\"");
      assert Replace(first, '"', "\\\"") == EscapeChar(s[0]);
      TwoReplacements(s[1..]);
    }
  }

  function Unescape(s: string): Result<string, StringError> {
    if s == "" then Ok("")
    else if s[0] != '\\' then Prepend(s[0], Unescape(s[1..]))
    else if |s| == 1 then Err(UnterminatedEscape)
    else match s[1]
      case '"' => Prepend('"', Unescape(s[2..]))
      case '\\' => Prepend('\\', Unescape(s[2..]))
      case 'n' => Prepend('\n', Unescape(s[2..]))
      case 'r' => Prepend('\r', Unescape(s[2..]))
      case 't' => Prepend('\t', Unescape(s[2..]))
      case _ => Err(UnsupportedEscape(s[1]))
  }

  function Prepend(c: char, r: Result<string, StringError>): Result<string, StringError> {
    if r.Ok? then Ok([c] + r.value) else r
  }

  function ParseString(raw: string): Result<string, StringError> {
    var value := Trim(raw);
    if |value| < 2 || value[0] != '"' || value[|value| - 1] != '"' then Err(NotQuoted)
    else Unescape(value[1..|value| - 1])
  }

  method ParseStringValue(raw: string) returns (r: Result<string, StringError>)
    ensures r == ParseString(raw)
  {
    var value := Trim(raw);
    if |value| < 2 || value[0] != '"' || value[|value| - 1] != '"' {
      return Err(NotQuoted);
    }
    var inner := value[1..|value| - 1];
    var out := "";
    var i := 0;
    AfterNothing(Unescape(inner));
    assert inner[0..] == inner;
    while i < |inner|
      invariant i <= |inner|
      invariant Unescape(inner) == After(out, Unescape(inner[i..]))
    {
      assert inner[i..][1..] == inner[i + 1..];
      if inner[i] != '\\' {
        AfterPrepend(out, inner[i], Unescape(inner[i + 1..]));
        out := out + [inner[i]];
        i := i + 1;
      } else if i + 1 == |inner| {
        return Err(UnterminatedEscape);
      } else {
        assert inner[i..][2..] == inner[i + 2..];
        var c;
        match inner[i + 1] {
          case '"' => c := '"';
          case '\\' => c := '\\';
          case 'n' => c := '\n';
          case 'r' => c := '\r';
          case 't' => c := '\t';
          case _ => return Err(UnsupportedEscape(inner[i + 1]));
        }
        AfterPrepend(out, c, Unescape(inner[i + 2..]));
        out := out + [c];
        i := i + 2;
      }
    }
    assert inner[i..] == "" && out + "" == out;
    return Ok(out);
  }

  lemma AfterNothing(r: Result<string, StringError>)
    ensures After("", r) == r
  {
    if r.Ok? { assert "" + r.value == r.value; }
  }

  function After(out: string, r: Result<string, StringError>): Result<string, StringError> {
    if r.Ok? then Ok(out + r.value) else r
  }

  lemma AfterPrepend(out: string, c: char, r: Result<string, StringError>)
    ensures After(out, Prepend(c, r)) == After(out + [c], r)
  {
    if r.Ok? { assert out + ([c] + r.value) == out + [c] + r.value; }
  }

  /** First `target` outside a quoted string, scanning from the given state of the automaton. */
  function FindOutside(s: string, target: char, quoted: bool, escaped: bool): (r: Option<nat>)
    ensures r.Some? ==> r.value < |s| && s[r.value] == target
  {
    if s == "" then None
    else
      var (q, e, hit) := ScanChar(s[0], target, quoted, escaped);
      if hit then Some(0)
      else match FindOutside(s[1..], target, q, e) case Some(i) => Some(i + 1) case None => None
  }

  /** One step of the automaton: the next state, and whether this is the target outside quotes. */
  function ScanChar(c: char, target: char, quoted: bool, escaped: bool): (r: (bool, bool, bool))
    ensures r.2 ==> c == target && !quoted
  {
    if escaped then (quoted, false, false)
    else if c == '\\' && quoted then (quoted, true, false)
    else if c == '"' then (!quoted, false, false)
    else (quoted, false, c == target && !quoted)
  }

  function StripComment(line: string): string {
    match FindOutside(line, '#', false, false) case Some(i) => line[..i] case None => line
  }

  function SplitKeyValue(line: string): Option<(string, string)> {
    match FindOutside(line, '=', false, false) case Some(i) => Some((line[..i], line[i + 1..])) case None => None
  }

  /** The scanning loop both helpers share in form. */
  method Scan(line: string, target: char) returns (r: Option<nat>)
    ensures r == FindOutside(line, target, false, false)
  {
    var inString, escaped := false, false;
    for index := 0 to |line|
      invariant FindOutside(line, target, false, false) ==
        match FindOutside(line[index..], target, inString, escaped) case Some(i) => Some(index + i) case None => None
    {
      var ch := line[index];
      assert line[index..][1..] == line[index + 1..] && line[index..][0] == ch;
      if escaped {
        escaped := false;
      } else if ch == '\\' && inString {
        escaped := true;
      } else if ch == '"' {
        inString := !inString;
      } else if ch == target && !inString {
        return Some(index);
      }
    }
    return None;
  }

  // ---------------------------------------------------------------------------
  // The writer
  // ---------------------------------------------------------------------------

  function SourceName(s: Source): string {
    match s case Registry => "registry" case Path => "path" case Git => "git"
  }

  type Entry = (string, string)

  function Optional(key: string, value: Option<string>): seq<Entry> {
    if value.Some? then [(key, value.value)] else []
  }

  /** The entries of a dependency table, in the order they are written. */
  function Entries(d: Dependency): seq<Entry> {
    [("name", d.name), ("source", SourceName(d.source)), ("version", d.version)]
    + Optional("path", d.path) + Optional("url", d.url) + Optional("revision", d.revision)
    + [("digest", d.digest)]
  }

  function EntryLine(e: Entry): string { e.0 + " = " + Quote(e.1) }

  function EntryLines(es: seq<Entry>): seq<string> {
    seq(|es|, i requires 0 <= i < |es| => EntryLine(es[i]))
  }

  function DependencyLines(d: Dependency): seq<string> {
    ["[[dependency]]"] + EntryLines(Entries(d)) + [""]
  }

  function DependenciesText(ds: seq<Dependency>): string {
    if ds == [] then "" else Unlines(DependencyLines(ds[0])) + DependenciesText(ds[1..])
  }

  function HeaderLines(lock: Lock): seq<string> {
    [COMMENT, "format = " + Decimal(FORMAT_VERSION)]
    + EntryLines([("root", lock.rootName), ("root_version", lock.rootVersion)]) + [""]
  }

  function Render(lock: Lock): string {
    Unlines(HeaderLines(lock)) + DependenciesText(lock.dependencies)
  }

  lemma UnlinesSnoc(lines: seq<string>, line: string)
    ensures Unlines(lines + [line]) == Unlines(lines) + line + "\n"
  {
    UnlinesAppend(lines, [line]);
    assert Unlines([line]) == line + "\n" + Unlines([]);
  }

  /** Appends one entry to text that already holds some lines and some entries. */
  method PushEntry(text: string, ghost before: string, ghost head: seq<string>, ghost es: seq<Entry>, e: Entry)
    returns (r: string, ghost rs: seq<Entry>)
    requires text == before + Unlines(head + EntryLines(es))
    ensures rs == es + [e] && r == before + Unlines(head + EntryLines(rs))
  {
    r := text + e.0 + " = " + Quote(e.1) + "\n";
    rs := es + [e];
    hide Quote;
    assert head + EntryLines(rs) == head + EntryLines(es) + [EntryLine(e)];
    UnlinesSnoc(head + EntryLines(es), EntryLine(e));
    assert r == text + EntryLine(e) + "\n";
    assert before + (Unlines(head + EntryLines(es)) + EntryLine(e) + "\n") == text + EntryLine(e) + "\n";
  }

  method PushOptional(text: string, ghost before: string, ghost head: seq<string>, ghost es: seq<Entry>, key: string, value: Option<string>)
    returns (r: string, ghost rs: seq<Entry>)
    requires text == before + Unlines(head + EntryLines(es))
    ensures rs == es + Optional(key, value) && r == before + Unlines(head + EntryLines(rs))
  {
    r, rs := text, es;
    if value.Some? {
      r, rs := PushEntry(text, before, head, es, (key, value.value));
    }
  }

  method PushDependency(text: string, d: Dependency) returns (r: string)
    ensures r == text + Unlines(DependencyLines(d))
  {
    hide Unlines, EntryLines;
    ghost var head := ["[[dependency]]"];
    ghost var es: seq<Entry> := [];
    r := text + "[[dependency]]\n";
    OneLine("[[dependency]]");
    r, es := PushEntry(r, text, head, es, ("name", d.name));
    r, es := PushEntry(r, text, head, es, ("source", SourceName(d.source)));
    r, es := PushEntry(r, text, head, es, ("version", d.version));
    r, es := PushOptional(r, text, head, es, "path", d.path);
    r, es := PushOptional(r, text, head, es, "url", d.url);
    r, es := PushOptional(r, text, head, es, "revision", d.revision);
    r, es := PushEntry(r, text, head, es, ("digest", d.digest));
    assert es == Entries(d);
    ghost var lines := head + EntryLines(es);
    r := r + "\n";
    UnlinesSnoc(lines, "");
    assert text + (Unlines(lines) + "" + "\n") == r;
  }

  lemma OneLine(line: string)
    ensures Unlines([line] + EntryLines([])) == line + "\n"
  {
    assert [line] + EntryLines([]) == [line] && [line][1..] == [];
    assert line + "\n" + "" == line + "\n";
  }

  lemma TwoLines(a: string, b: string)
    ensures "" + Unlines([a, b] + EntryLines([])) == a + "\n" + b + "\n"
  {
    assert [a, b] + EntryLines([]) == [a] + [b];
    UnlinesSnoc([a], b);
    OneLine(a);
    assert [a] + EntryLines([]) == [a];
  }

  method WriteHeader(lock: Lock) returns (text: string)
    ensures text == Unlines(HeaderLines(lock))
  {
    ghost var head := [COMMENT, "format = " + Decimal(FORMAT_VERSION)];
    ghost var es: seq<Entry> := [];
    hide Unlines, EntryLines, Decimal;
    text := COMMENT + "\n";
    text := text + "format = " + Decimal(FORMAT_VERSION) + "\n";
    TwoLines(head[0], head[1]);
    assert text == head[0] + "\n" + head[1] + "\n";
    text, es := PushEntry(text, "", head, es, ("root", lock.rootName));
    text, es := PushEntry(text, "", head, es, ("root_version", lock.rootVersion));
    assert es == [("root", lock.rootName), ("root_version", lock.rootVersion)];
    text := text + "\n";
    UnlinesSnoc(head + EntryLines(es), "");
  }

  method WritePackageLock(lock: Lock) returns (text: string)
    ensures text == Render(lock)
  {
    hide HeaderLines, DependencyLines;
    text := WriteHeader(lock);
    for i := 0 to |lock.dependencies|
      invariant text + DependenciesText(lock.dependencies[i..]) == Render(lock)
    {
      assert lock.dependencies[i..][1..] == lock.dependencies[i + 1..];
      ghost var rest := DependenciesText(lock.dependencies[i + 1..]);
      ghost var was := text;
      text := PushDependency(text, lock.dependencies[i]);
      assert was + (Unlines(DependencyLines(lock.dependencies[i])) + rest) == text + rest;
    }
    assert lock.dependencies[|lock.dependencies|..] == [];
    assert text + "" == text;
  }

  // ---------------------------------------------------------------------------
  // The parser
  // ---------------------------------------------------------------------------

  type Table = map<string, string>

  datatype Parsed = Parsed(
    format: Option<nat>, root: Option<string>, rootVersion: Option<string>,
    dependencies: seq<Dependency>, current: Option<Table>)

  /** An unsigned 32-bit decimal, with an optional plus sign. */
  function ParseU32(s: string): Option<nat> {
    var digits := if s != "" && s[0] == '+' then s[1..] else s;
    if digits == "" || !AllDigits(digits) then None
    else if DecimalValue(digits) >= 0x1_0000_0000 then None
    else Some(DecimalValue(digits))
  }

  predicate HexDigit(c: char) { '0' <= c <= '9' || 'a' <= c <= 'f' || 'A' <= c <= 'F' }

  predicate Digest(s: string) { |s| == 64 && forall i | 0 <= i < |s| :: HexDigit(s[i]) }

  function ParseSource(s: string): Option<Source> {
    match s case "registry" => Some(Registry) case "path" => Some(Path) case "git" => Some(Git) case _ => None
  }

  function Get(t: Table, key: string): Option<string> {
    if key in t then Some(t[key]) else None
  }

  function ParseDependency(t: Table): Result<Dependency, LockError> {
    if "source" !in t then Err(MissingKey("source"))
    else if ParseSource(t["source"]).None? then Err(UnknownSource(t["source"]))
    else if "digest" !in t then Err(MissingKey("digest"))
    else if !Digest(t["digest"]) then Err(BadDigest)
    else if "name" !in t then Err(MissingKey("name"))
    else if "version" !in t then Err(MissingKey("version"))
    else Ok(Dependency(t["name"], ParseSource(t["source"]).value, t["version"],
                       Get(t, "path"), Get(t, "url"), Get(t, "revision"), Lowercase(t["digest"])))
  }

  /** Closes the table under construction, if any. */
  function Close(p: Parsed): Result<Parsed, LockError> {
    if p.current.None? then Ok(p)
    else
      var d := ParseDependency(p.current.value);
      if d.Err? then Err(d.error) else Ok(p.(dependencies := p.dependencies + [d.value], current := None))
  }

  function Step(p: Parsed, raw: string): Result<Parsed, LockError> {
    var line := Trim(StripComment(raw));
    if line == "" then Ok(p)
    else if line == "[[dependency]]" then
      var q := Close(p);
      if q.Err? then q else Ok(q.value.(current := Some(map[])))
    else if SplitKeyValue(line).None? then Err(ExpectedKeyValue)
    else StepEntry(p, Trim(SplitKeyValue(line).value.0), SplitKeyValue(line).value.1)
  }

  function StepEntry(p: Parsed, key: string, value: string): Result<Parsed, LockError> {
    var parsed := ParseString(value);
    if p.current.Some? then
      if parsed.Err? then Err(BadString(parsed.error))
      else Ok(p.(current := Some(p.current.value[key := parsed.value])))
    else if key == "format" then
      if ParseU32(Trim(value)).None? then Err(BadFormat) else Ok(p.(format := ParseU32(Trim(value))))
    else if key == "root" then
      if parsed.Err? then Err(BadString(parsed.error)) else Ok(p.(root := Some(parsed.value)))
    else if key == "root_version" then
      if parsed.Err? then Err(BadString(parsed.error)) else Ok(p.(rootVersion := Some(parsed.value)))
    else Err(UnknownKey(key))
  }

  function ParseLines(p: Parsed, lines: seq<string>): Result<Parsed, LockError>
    decreases |lines|
  {
    if lines == [] then Ok(p)
    else
      var q := Step(p, lines[0]);
      if q.Err? then q else ParseLines(q.value, lines[1..])
  }

  function Finish(p: Parsed): Result<Lock, LockError> {
    var q := Close(p);
    if q.Err? then Err(q.error)
    else if q.value.format != Some(FORMAT_VERSION) then Err(UnsupportedFormat)
    else if q.value.root.None? then Err(MissingKey("root"))
    else if q.value.rootVersion.None? then Err(MissingKey("root_version"))
    else Ok(Lock(q.value.root.value, q.value.rootVersion.value, q.value.dependencies))
  }

  const START := Parsed(None, None, None, [], None)

  function Parse(source: string): Result<Lock, LockError> {
    var p := ParseLines(START, Lines(source));
    if p.Err? then Err(p.error) else Finish(p.value)
  }

  /** One turn of the parser's loop; the table under construction is its state. */
  method StepLine(p: Parsed, raw: string) returns (r: Result<Parsed, LockError>)
    ensures r == Step(p, raw)
  {
    hide Trim, FindOutside, ParseString, ParseU32, ParseDependency;
    var comment := Scan(raw, '#');
    var line := Trim(if comment.Some? then raw[..comment.value] else raw);
    if line == "" {
      return Ok(p);
    }
    if line == "[[dependency]]" {
      r := Close(p);
      if r.Ok? {
        r := Ok(r.value.(current := Some(map[])));
      }
      return r;
    }
    var equals := Scan(line, '=');
    if equals.None? {
      return Err(ExpectedKeyValue);
    }
    var key, value := Trim(line[..equals.value]), line[equals.value + 1..];
    if p.current.None? && key == "format" {
      var format := ParseU32(Trim(value));
      return if format.None? then Err(BadFormat) else Ok(p.(format := format));
    }
    if p.current.None? && key != "root" && key != "root_version" {
      return Err(UnknownKey(key));
    }
    var text := ParseStringValue(value);
    if text.Err? {
      return Err(BadString(text.error));
    }
    if p.current.Some? {
      return Ok(p.(current := Some(p.current.value[key := text.value])));
    }
    return if key == "root" then Ok(p.(root := Some(text.value))) else Ok(p.(rootVersion := Some(text.value)));
  }

  method ParsePackageLock(source: string) returns (r: Result<Lock, LockError>)
    ensures r == Parse(source)
  {
    hide Step, Finish;
    var p := START;
    var lines := Lines(source);
    for i := 0 to |lines|
      invariant ParseLines(START, lines) == ParseLines(p, lines[i..])
    {
      assert lines[i..][1..] == lines[i + 1..];
      var q := StepLine(p, lines[i]);
      if q.Err? {
        return Err(q.error);
      }
      p := q.value;
    }
    r := Finish(p);
  }
}
