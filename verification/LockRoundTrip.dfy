/** Parsing a written lockfile gives the lock back, and exactly when. */
module LockRoundTrip {
  import opened Wrappers
  import opened Text
  import opened Lockfile

  // ---------------------------------------------------------------------------
  // Escaping
  // ---------------------------------------------------------------------------

  lemma {:induction false} EscapeSnoc(s: string, c: char)
    ensures Escape(s + [c]) == Escape(s) + EscapeChar(c)
  {
    if s == "" {
      assert s + [c] == [c] && [c][1..] == "";
      assert Escape([c]) == EscapeChar(c) + Escape([c][1..]);
    } else {
      assert (s + [c])[1..] == s[1..] + [c];
      EscapeSnoc(s[1..], c);
      assert EscapeChar(s[0]) + (Escape(s[1..]) + EscapeChar(c)) == Escape(s) + EscapeChar(c);
    }
  }

  lemma UnescapeOne(c: char, tail: string)
    ensures Unescape(EscapeChar(c) + tail) == Prepend(c, Unescape(tail))
  {
    assert (EscapeChar(c) + tail)[|EscapeChar(c)|..] == tail;
  }

  /** The parser undoes the escaping, whatever follows. */
  lemma {:induction false} UnescapeEscape(s: string, rest: string)
    ensures Unescape(Escape(s) + rest) == After(s, Unescape(rest))
  {
    if s == "" {
      AfterNothing(Unescape(rest));
      assert Escape(s) + rest == rest;
    } else {
      hide Unescape, EscapeChar;
      var tail := Escape(s[1..]) + rest;
      assert Escape(s) + rest == EscapeChar(s[0]) + tail;
      UnescapeEscape(s[1..], rest);
      UnescapeOne(s[0], tail);
      if Unescape(rest).Ok? {
        assert [s[0]] + (s[1..] + Unescape(rest).value) == s + Unescape(rest).value;
      }
    }
  }

  function Shift(n: nat, r: Option<nat>): Option<nat> {
    match r case Some(i) => Some(n + i) case None => None
  }

  lemma {:induction false} ScanCons(c: char, rest: string, target: char, q: bool, e: bool)
    ensures FindOutside([c] + rest, target, q, e) ==
      if ScanChar(c, target, q, e).2 then Some(0)
      else Shift(1, FindOutside(rest, target, ScanChar(c, target, q, e).0, ScanChar(c, target, q, e).1))
  {
    assert ([c] + rest)[1..] == rest;
  }

  lemma {:induction false} ScanEscapedChar(c: char, rest: string, target: char)
    ensures FindOutside(EscapeChar(c) + rest, target, true, false)
         == Shift(|EscapeChar(c)|, FindOutside(rest, target, true, false))
  {
    hide FindOutside;
    ScanCons(c, rest, target, true, false);
    if |EscapeChar(c)| == 2 {
      ScanCons(c, rest, target, true, true);
      ScanCons('\\', [c] + rest, target, true, false);
      assert EscapeChar(c) + rest == ['\\'] + ([c] + rest);
    }
  }

  /** Inside quotes the scanner walks over escaped text and is still inside quotes. */
  lemma {:induction false} ScanEscaped(s: string, rest: string, target: char)
    ensures FindOutside(Escape(s) + rest, target, true, false) == Shift(|Escape(s)|, FindOutside(rest, target, true, false))
  {
    hide FindOutside, EscapeChar;
    if s == "" {
      assert Escape(s) + rest == rest;
    } else {
      ScanEscaped(s[1..], rest, target);
      ScanEscapedChar(s[0], Escape(s[1..]) + rest, target);
      assert Escape(s) + rest == EscapeChar(s[0]) + (Escape(s[1..]) + rest);
    }
  }

  /** Outside quotes it walks over text without quotes or the target. */
  lemma {:induction false} ScanPlain(s: string, rest: string, target: char)
    requires target !in s && '"' !in s
    ensures FindOutside(s + rest, target, false, false) == Shift(|s|, FindOutside(rest, target, false, false))
  {
    if s == "" {
      assert s + rest == rest;
    } else {
      assert (s + rest)[1..] == s[1..] + rest;
      ScanPlain(s[1..], rest, target);
    }
  }

  // ---------------------------------------------------------------------------
  // One line
  // ---------------------------------------------------------------------------

  predicate KeyName(k: string) {
    k != "" && forall i | 0 <= i < |k| :: 'a' <= k[i] <= 'z' || k[i] == '_'
  }

  /** A line that opens a string: `tail` is what follows the escaped text. */
  function Opened(k: string, s: string, tail: string): string {
    k + " = " + ("\"" + (Escape(s) + tail))
  }

  lemma {:induction false} ScanOpened(k: string, s: string, tail: string, target: char)
    requires KeyName(k) && (target == '#' || target == '=') && (tail == "" || tail == "\"")
    ensures FindOutside(Opened(k, s, tail), target, false, false) == if target == '=' then Some(|k| + 1) else None
  {
    hide FindOutside;
    var body := "\"" + (Escape(s) + tail);
    ScanTail(tail, target);
    ScanEscaped(s, tail, target);
    ScanCons('"', Escape(s) + tail, target, false, false);
    ScanCons(' ', body, target, false, false);
    ScanCons('=', [' '] + body, target, false, false);
    ScanCons(' ', ['='] + ([' '] + body), target, false, false);
    var mid := [' '] + (['='] + ([' '] + body));
    ScanPlain(k, mid, target);
    assert Opened(k, s, tail) == k + mid;
  }

  lemma {:induction false} ScanTail(tail: string, target: char)
    requires target != '"' && (tail == "" || tail == "\"")
    ensures FindOutside(tail, target, true, false) == None
  {
    if tail != "" {
      ScanCons('"', "", target, true, false);
      assert tail == ['"'] + "";
    }
  }

  lemma {:induction false} TrimEndKeeps(a: string, b: string)
    requires TrimEnd(b) != ""
    ensures TrimEnd(a + b) == a + TrimEnd(b)
  {
    if White(b[|b| - 1]) {
      assert (a + b)[..|a + b| - 1] == a + b[..|b| - 1];
      TrimEndKeeps(a, b[..|b| - 1]);
    }
  }

  /** Trailing white space is never part of an escape. */
  lemma {:induction false} TrimEscaped(s: string)
    ensures TrimEnd("\"" + Escape(s)) == "\"" + Escape(TrimEnd(s))
  {
    if s == "" {
      assert "\"" + Escape(s) == "\"";
    } else {
      var front, c := s[..|s| - 1], s[|s| - 1];
      assert s == front + [c];
      EscapeSnoc(front, c);
      var all := "\"" + Escape(s);
      assert all == "\"" + Escape(front) + EscapeChar(c);
      if White(c) {
        assert EscapeChar(c) == [c];
        assert all[..|all| - 1] == "\"" + Escape(front);
        TrimEscaped(front);
      } else {
        assert all[|all| - 1] == EscapeChar(c)[|EscapeChar(c)| - 1];
      }
    }
  }

  /** Reading back a whole quoted value. */
  lemma {:induction false} ClosedString(s: string)
    ensures ParseString(" " + ("\"" + (Escape(s) + "\""))) == Ok(s)
  {
    var body := "\"" + (Escape(s) + "\"");
    TrimLead(body);
    assert body[1..|body| - 1] == Escape(s);
    UnescapeEscape(s, "");
    assert Escape(s) + "" == Escape(s) && s + "" == s;
  }

  /** A leading space is all there is to trim. */
  lemma {:induction false} TrimLead(b: string)
    requires b != "" && !White(b[0]) && !White(b[|b| - 1])
    ensures Trim(" " + b) == b
  {
    assert (" " + b)[1..] == b;
    assert TrimStart(" " + b) == TrimStart(b) == b;
  }

  /** Reading back one whose end is missing always fails. */
  lemma {:induction false} OpenString(s: string)
    ensures ParseString(" " + TrimEnd("\"" + Escape(s))).Err?
  {
    hide Escape, Unescape, Trim;
    TrimEscaped(s);
    var tail := TrimEndPrefix(s);
    var t := TrimEnd(s);
    var w := "\"" + Escape(t);
    if t == "" {
      EscapeNothing();
      assert w == "\"";
      TrimLead(w);
    } else {
      var front, c := t[..|t| - 1], t[|t| - 1];
      assert t == front + [c];
      EscapeSnoc(front, c);
      assert w == "\"" + Escape(front) + EscapeChar(c);
      TrimLead(w);
      if c == '"' {
        assert w == "\"" + (Escape(front) + "\\") + "\"";
        assert w[1..|w| - 1] == Escape(front) + "\\";
        UnescapeEscape(front, "\\");
        LoneBackslash();
      }
    }
  }

  lemma {:induction false} EscapeNothing()
    ensures Escape("") == ""
  {
  }

  lemma {:induction false} LoneBackslash()
    ensures Unescape("\\") == Err(UnterminatedEscape)
  {
  }

  lemma KeyTrims(k: string)
    requires KeyName(k)
    ensures Trim(k + " ") == k
  {
    assert TrimStart(k + " ") == k + " ";
    assert (k + " ")[..|k|] == k;
    assert TrimEnd(k + " ") == TrimEnd(k) == k;
  }

  lemma {:induction false} EntryStep(p: Parsed, k: string, v: string)
    requires KeyName(k)
    ensures Chomp(EntryLine((k, v))) == EntryLine((k, v))
    ensures Step(p, EntryLine((k, v))) == StepEntry(p, k, " " + Quote(v)) && ParseString(" " + Quote(v)) == Ok(v)
  {
    hide FindOutside, Escape, ParseString, StepEntry;
    QuoteEscapes(v);
    var body := "\"" + (Escape(v) + "\"");
    assert Quote(v) == body;
    var line := Opened(k, v, "\"");
    assert EntryLine((k, v)) == line;
    ScanOpened(k, v, "\"", '#');
    assert line[|line| - 1] == '"' && line[0] == k[0];
    SolidTrims(line);
    ScanOpened(k, v, "\"", '=');
    assert line[..|k| + 1] == k + " " && line[|k| + 2..] == " " + body;
    KeyTrims(k);
    ClosedString(v);
  }

  lemma SolidTrims(line: string)
    requires line != "" && !White(line[0]) && !White(line[|line| - 1])
    ensures Trim(line) == line
  {
  }

  /** The first line of an entry whose value breaks off at a newline. */
  lemma {:induction false} BrokenStep(p: Parsed, k: string, s: string)
    requires KeyName(k) && (p.current.Some? || k == "root" || k == "root_version")
    ensures Step(p, Opened(k, s, "")).Err?
  {
    hide Escape, ParseString, TrimEnd, FindOutside;
    var line := Opened(k, s, "");
    var body := "\"" + Escape(s);
    var w := "\"" + Escape(TrimEnd(s));
    assert "\"" + (Escape(s) + "") == body && "\"" + (Escape(TrimEnd(s)) + "") == w;
    ScanOpened(k, s, "", '#');
    TrimEscaped(s);
    TrimEndKeeps(k + " = ", body);
    var trimmed := Opened(k, TrimEnd(s), "");
    assert line == k + " = " + body && trimmed == k + " = " + w;
    assert Trim(line) == trimmed;
    ScanOpened(k, TrimEnd(s), "", '=');
    assert trimmed[..|k| + 1] == k + " " && trimmed[|k| + 2..] == " " + w;
    KeyTrims(k);
    OpenString(s);
    assert trimmed[0] == k[0] && trimmed != "[[dependency]]";
  }

  // ---------------------------------------------------------------------------
  // Lines in sequence
  // ---------------------------------------------------------------------------

  function ParseText(p: Parsed, text: string): Result<Parsed, LockError> {
    ParseLines(p, Lines(text))
  }

  predicate Plain(s: string) { '\n' !in s }

  lemma TextStep(p: Parsed, x: string, rest: string)
    requires Plain(x)
    ensures ParseText(p, x + "\n" + rest) ==
      if Step(p, Chomp(x)).Err? then Step(p, Chomp(x)) else ParseText(Step(p, Chomp(x)).value, rest)
  {
    hide Step;
    LinesCons(x, rest);
    assert Lines(x + "\n" + rest)[1..] == Lines(rest);
  }

  lemma {:induction false} EscapePlain(s: string)
    ensures Plain(Escape(s)) <==> Plain(s)
  {
    if s != "" { EscapePlain(s[1..]); }
  }

  /** An entry whose value has no newline is one line, and parsing takes one step over it. */
  lemma {:induction false} EntryText(p: Parsed, k: string, v: string, rest: string)
    requires KeyName(k) && Plain(v)
    ensures ParseText(p, EntryLine((k, v)) + "\n" + rest) ==
      var q := StepEntry(p, k, " " + Quote(v));
      if q.Err? then q else ParseText(q.value, rest)
  {
    hide Step, StepEntry, Escape, ParseText;
    EntryStep(p, k, v);
    QuoteEscapes(v);
    EscapePlain(v);
    TextStep(p, EntryLine((k, v)), rest);
  }

  /** Where the line of such an entry breaks. */
  lemma {:induction false} BrokenShape(k: string, front: string, back: string, rest: string)
    ensures EntryLine((k, front + "\n" + back)) + "\n" + rest
         == Opened(k, front, "") + "\n" + (Escape(back) + "\"" + "\n" + rest)
  {
    hide Escape, Quote;
    var v := front + "\n" + back;
    assert v == front + ("\n" + back) && ("\n" + back)[1..] == back;
    EscapeAppend(front, "\n" + back);
    EscapeFirst("\n" + back);
    QuoteEscapes(v);
    assert Escape(v) == Escape(front) + ("\n" + Escape(back));
    assert Opened(k, front, "") == k + " = \"" + Escape(front);
    assert EntryLine((k, v)) == k + " = \"" + Escape(front) + "\n" + Escape(back) + "\"";
  }

  /** One whose value has a newline stops the parser. */
  lemma {:induction false} BrokenEntryText(p: Parsed, k: string, v: string, rest: string)
    requires KeyName(k) && !Plain(v) && (p.current.Some? || k == "root" || k == "root_version")
    ensures ParseText(p, EntryLine((k, v)) + "\n" + rest).Err?
  {
    hide Step, Escape, ParseText, EntryLine, Opened;
    var i := Find(v, '\n');
    var front, back := v[..i], v[i + 1..];
    assert v == front + "\n" + back;
    BrokenShape(k, front, back, rest);
    OpenedPlain(k, front);
    TextStep(p, Opened(k, front, ""), Escape(back) + "\"" + "\n" + rest);
    ChompOpened(k, front);
    BrokenStep(p, k, Chomp(front));
  }

  lemma {:induction false} OpenedPlain(k: string, s: string)
    requires KeyName(k) && Plain(s)
    ensures Plain(Opened(k, s, ""))
  {
    EscapePlain(s);
  }

  lemma {:induction false} EscapeFirst(s: string)
    requires s != ""
    ensures Escape(s) == EscapeChar(s[0]) + Escape(s[1..])
  {
  }

  lemma {:induction false} EscapeAppend(a: string, b: string)
    ensures Escape(a + b) == Escape(a) + Escape(b)
  {
    if a == "" {
      assert a + b == b;
    } else {
      assert (a + b)[1..] == a[1..] + b;
      EscapeAppend(a[1..], b);
    }
  }

  lemma {:induction false} ChompOpened(k: string, s: string)
    ensures Chomp(Opened(k, s, "")) == Opened(k, Chomp(s), "")
  {
    hide Escape;
    EscapeNothing();
    var line := Opened(k, s, "");
    assert line == k + " = \"" + Escape(s);
    if s != "" {
      var front, c := s[..|s| - 1], s[|s| - 1];
      assert s == front + [c];
      EscapeSnoc(front, c);
      assert line == k + " = \"" + Escape(front) + EscapeChar(c);
      assert line[|line| - 1] == c;
      if c == '\r' {
        assert line[..|line| - 1] == k + " = \"" + Escape(front) == Opened(k, front, "");
      }
    } else {
      assert line[|line| - 1] == '"';
    }
  }

  // ---------------------------------------------------------------------------
  // A table
  // ---------------------------------------------------------------------------

  function Put(t: Table, es: seq<Entry>): Table
    decreases |es|
  {
    if es == [] then t else Put(t[es[0].0 := es[0].1], es[1..])
  }

  predicate PlainEntries(es: seq<Entry>) {
    forall i | 0 <= i < |es| :: Plain(es[i].1)
  }

  /** Parsing written entries fills the table with them, or fails if a value has a newline. */
  lemma {:induction false} EntriesText(p: Parsed, es: seq<Entry>, rest: string)
    requires p.current.Some? && GoodEntries(es)
    ensures PlainEntries(es) ==>
      ParseText(p, Unlines(EntryLines(es)) + rest) == ParseText(p.(current := Some(Put(p.current.value, es))), rest)
    ensures !PlainEntries(es) ==> ParseText(p, Unlines(EntryLines(es)) + rest).Err?
    decreases |es|
  {
    hide ParseText, Quote;
    if es == [] {
      assert Unlines(EntryLines(es)) + rest == rest;
    } else {
      var (k, v) := es[0];
      var tail := Unlines(EntryLines(es[1..])) + rest;
      assert EntryLines(es)[1..] == EntryLines(es[1..]);
      assert Unlines(EntryLines(es)) + rest == EntryLine((k, v)) + "\n" + tail;
      if Plain(v) {
        EntryText(p, k, v, tail);
        EntryStep(p, k, v);
        EntriesText(p.(current := Some(p.current.value[k := v])), es[1..], rest);
      } else {
        BrokenEntryText(p, k, v, tail);
      }
    }
  }

  function Lowered(d: Dependency): Dependency {
    d.(digest := Lowercase(d.digest))
  }

  lemma {:induction false} PutAppend(t: Table, a: seq<Entry>, b: seq<Entry>)
    ensures Put(t, a + b) == Put(Put(t, a), b)
    decreases |a|
  {
    if a == [] {
      assert a + b == b;
    } else {
      assert (a + b)[1..] == a[1..] + b;
      PutAppend(t[a[0].0 := a[0].1], a[1..], b);
    }
  }

  lemma {:induction false} PutOptional(t: Table, key: string, value: Option<string>)
    ensures Put(t, Optional(key, value)) == if value.Some? then t[key := value.value] else t
  {
    if value.Some? { assert Optional(key, value)[1..] == []; }
  }

  /** The table of a written dependency. */
  function TableOf(d: Dependency): Table {
    var t: Table := map["name" := d.name]["source" := SourceName(d.source)]["version" := d.version];
    var t := if d.path.Some? then t["path" := d.path.value] else t;
    var t := if d.url.Some? then t["url" := d.url.value] else t;
    var t := if d.revision.Some? then t["revision" := d.revision.value] else t;
    t["digest" := d.digest]
  }

  lemma {:induction false} EntriesTable(d: Dependency)
    ensures Put(map[], Entries(d)) == TableOf(d)
  {
    var head := [("name", d.name), ("source", SourceName(d.source)), ("version", d.version)];
    var t0: Table := map["name" := d.name]["source" := SourceName(d.source)]["version" := d.version];
    PutThree(d);
    PutAppend(map[], head, Optional("path", d.path));
    PutOptional(t0, "path", d.path);
    var e1 := head + Optional("path", d.path);
    PutAppend(map[], e1, Optional("url", d.url));
    PutOptional(Put(map[], e1), "url", d.url);
    var e2 := e1 + Optional("url", d.url);
    PutAppend(map[], e2, Optional("revision", d.revision));
    PutOptional(Put(map[], e2), "revision", d.revision);
    var e3 := e2 + Optional("revision", d.revision);
    PutAppend(map[], e3, [("digest", d.digest)]);
    assert [("digest", d.digest)] == Optional("digest", Some(d.digest));
    PutOptional(Put(map[], e3), "digest", Some(d.digest));
  }

  lemma {:induction false} PutThree(d: Dependency)
    ensures Put(map[], [("name", d.name), ("source", SourceName(d.source)), ("version", d.version)])
         == map["name" := d.name]["source" := SourceName(d.source)]["version" := d.version]
  {
    var name, source, version := ("name", d.name), ("source", SourceName(d.source)), ("version", d.version);
    assert [name, source, version][1..] == [source, version] && [source, version][1..] == [version] && [version][1..] == [];
    var t1: Table := map["name" := d.name];
    assert map[]["name" := d.name] == t1;
    assert Put(map[], [name, source, version]) == Put(t1, [source, version]);
    assert Put(t1, [source, version]) == Put(t1["source" := SourceName(d.source)], [version]);
  }

  /** Reading the table gives the dependency back, its digest in lower case. */
  lemma {:induction false} TableParses(d: Dependency)
    ensures ParseDependency(TableOf(d)) == if Digest(d.digest) then Ok(Lowered(d)) else Err(BadDigest)
  {
    var t := TableOf(d);
    assert t["name"] == d.name && t["source"] == SourceName(d.source) && t["version"] == d.version && t["digest"] == d.digest;
    assert Get(t, "path") == d.path && Get(t, "url") == d.url && Get(t, "revision") == d.revision;
  }

  predicate PlainDependency(d: Dependency) {
    && Plain(d.name) && Plain(d.version) && Plain(d.digest)
    && (d.path.Some? ==> Plain(d.path.value)) && (d.url.Some? ==> Plain(d.url.value))
    && (d.revision.Some? ==> Plain(d.revision.value))
  }

  predicate GoodEntries(es: seq<Entry>) {
    forall i | 0 <= i < |es| :: KeyName(es[i].0)
  }

  lemma {:induction false} EntriesAppend(a: seq<Entry>, b: seq<Entry>)
    ensures PlainEntries(a + b) <==> PlainEntries(a) && PlainEntries(b)
    ensures GoodEntries(a + b) <==> GoodEntries(a) && GoodEntries(b)
  {
    var c := a + b;
    assert forall i | 0 <= i < |a| :: c[i] == a[i];
    assert forall i | 0 <= i < |b| :: c[|a| + i] == b[i];
  }

  lemma {:induction false} OptionalPlain(key: string, value: Option<string>)
    requires KeyName(key)
    ensures PlainEntries(Optional(key, value)) <==> (value.Some? ==> Plain(value.value))
    ensures GoodEntries(Optional(key, value))
  {
    if value.Some? { assert Optional(key, value)[0] == (key, value.value); }
  }

  lemma {:induction false} EntriesPlain(d: Dependency)
    ensures PlainEntries(Entries(d)) <==> PlainDependency(d)
    ensures GoodEntries(Entries(d))
  {
    hide KeyName, PlainEntries, GoodEntries;
    KeysGood();
    SourceNamePlain(d.source);
    var e0 := Optional("name", Some(d.name)) + Optional("source", Some(SourceName(d.source))) + Optional("version", Some(d.version));
    assert [("name", d.name), ("source", SourceName(d.source)), ("version", d.version)] == e0;
    OptionalPlain("name", Some(d.name));
    OptionalPlain("source", Some(SourceName(d.source)));
    OptionalPlain("version", Some(d.version));
    OptionalPlain("path", d.path);
    OptionalPlain("url", d.url);
    OptionalPlain("revision", d.revision);
    OptionalPlain("digest", Some(d.digest));
    EntriesAppend(Optional("name", Some(d.name)), Optional("source", Some(SourceName(d.source))));
    EntriesAppend(Optional("name", Some(d.name)) + Optional("source", Some(SourceName(d.source))), Optional("version", Some(d.version)));
    EntriesAppend(e0, Optional("path", d.path));
    EntriesAppend(e0 + Optional("path", d.path), Optional("url", d.url));
    EntriesAppend(e0 + Optional("path", d.path) + Optional("url", d.url), Optional("revision", d.revision));
    EntriesAppend(e0 + Optional("path", d.path) + Optional("url", d.url) + Optional("revision", d.revision),
      Optional("digest", Some(d.digest)));
    assert Entries(d) == e0 + Optional("path", d.path) + Optional("url", d.url) + Optional("revision", d.revision)
                         + Optional("digest", Some(d.digest));
  }

  lemma SourceNamePlain(s: Source)
    ensures Plain(SourceName(s))
  {
  }

  lemma KeysGood()
    ensures KeyName("name") && KeyName("source") && KeyName("version") && KeyName("path") && KeyName("url")
         && KeyName("revision") && KeyName("digest")
  {
  }

  /** A written dependency closes the table before it and leaves its own under construction. */
  lemma {:induction false} DependencyText(p: Parsed, d: Dependency, rest: string)
    ensures Close(p).Err? ==> ParseText(p, Unlines(DependencyLines(d)) + rest) == Close(p)
    ensures Close(p).Ok? && PlainDependency(d) ==>
      ParseText(p, Unlines(DependencyLines(d)) + rest) == ParseText(Close(p).value.(current := Some(TableOf(d))), rest)
    ensures Close(p).Ok? && !PlainDependency(d) ==> ParseText(p, Unlines(DependencyLines(d)) + rest).Err?
  {
    hide ParseText, Quote, Close, TableOf, PlainEntries, PlainDependency, Entries;
    var es := Entries(d);
    UnlinesAppend(["[[dependency]]"] + EntryLines(es), [""]);
    UnlinesAppend(["[[dependency]]"], EntryLines(es));
    UnlinesOne("[[dependency]]");
    UnlinesOne("");
    var blank := "" + "\n" + rest;
    var tail := Unlines(EntryLines(es)) + blank;
    assert Unlines(DependencyLines(d)) + rest == "[[dependency]]" + "\n" + tail;
    TextStep(p, "[[dependency]]", tail);
    HeadingStep(p);
    if Close(p).Ok? {
      var q := Close(p).value.(current := Some(map[]));
      EntriesPlain(d);
      EntriesText(q, es, blank);
      EntriesTable(d);
      var r := q.(current := Some(TableOf(d)));
      TextStep(r, "", rest);
      BlankStep(r);
    }
  }

  lemma {:induction false} UnlinesOne(line: string)
    ensures Unlines([line]) == line + "\n"
  {
    assert [line][1..] == [] && line + "\n" + "" == line + "\n";
  }

  /** A line without quotes or comment is stripped of nothing. */
  lemma {:induction false} SolidLine(line: string)
    requires line != "" && '#' !in line && '"' !in line && !White(line[0]) && !White(line[|line| - 1])
    ensures Trim(StripComment(line)) == line && Chomp(line) == line
  {
    ScanPlain(line, "", '#');
    assert line + "" == line;
  }

  lemma {:induction false} HeadingStep(p: Parsed)
    ensures Chomp("[[dependency]]") == "[[dependency]]" && Plain("[[dependency]]")
    ensures Step(p, "[[dependency]]") == if Close(p).Err? then Close(p) else Ok(Close(p).value.(current := Some(map[])))
  {
    hide Trim, StripComment, Close, SplitKeyValue;
    SolidLine("[[dependency]]");
  }

  lemma {:induction false} BlankStep(p: Parsed)
    ensures Chomp("") == "" && Step(p, "") == Ok(p)
  {
  }

  // ---------------------------------------------------------------------------
  // The whole file
  // ---------------------------------------------------------------------------

  function FinishText(p: Parsed, text: string): Result<Lock, LockError> {
    var q := ParseText(p, text);
    if q.Err? then Err(q.error) else Finish(q.value)
  }

  /** What closing the tables one after the other amounts to. */
  function CloseAll(p: Parsed, ds: seq<Dependency>): Result<Lock, LockError>
    decreases |ds|
  {
    var q := Close(p);
    if q.Err? then Err(q.error)
    else if ds == [] then Finish(q.value)
    else CloseAll(q.value.(current := Some(TableOf(ds[0]))), ds[1..])
  }

  predicate PlainDependencies(ds: seq<Dependency>) {
    forall i | 0 <= i < |ds| :: PlainDependency(ds[i])
  }

  lemma {:induction false} DependenciesParse(p: Parsed, ds: seq<Dependency>)
    ensures PlainDependencies(ds) ==> FinishText(p, DependenciesText(ds)) == CloseAll(p, ds)
    ensures !PlainDependencies(ds) ==> FinishText(p, DependenciesText(ds)).Err?
    decreases |ds|
  {
    hide PlainDependency, DependencyLines, TableOf;
    if ds != [] {
      DependencyText(p, ds[0], DependenciesText(ds[1..]));
      if Close(p).Ok? && PlainDependency(ds[0]) {
        DependenciesParse(Close(p).value.(current := Some(TableOf(ds[0]))), ds[1..]);
      }
    }
  }

  function LoweredAll(ds: seq<Dependency>): (r: seq<Dependency>)
    ensures |r| == |ds|
  {
    seq(|ds|, i requires 0 <= i < |ds| => Lowered(ds[i]))
  }

  predicate Digests(ds: seq<Dependency>) {
    forall i | 0 <= i < |ds| :: Digest(ds[i].digest)
  }

  /** With nothing under construction, the dependencies still to come are closed in order. */
  lemma {:induction false} CloseAllValue(p: Parsed, ds: seq<Dependency>)
    requires p.current == None && p.format == Some(FORMAT_VERSION) && p.root.Some? && p.rootVersion.Some?
    ensures CloseAll(p, ds) ==
      if Digests(ds) then Ok(Lock(p.root.value, p.rootVersion.value, p.dependencies + LoweredAll(ds))) else Err(BadDigest)
    decreases |ds|
  {
    hide TableOf, Digest, Lowered;
    if ds == [] {
      assert p.dependencies + LoweredAll(ds) == p.dependencies;
    } else {
      var open := p.(current := Some(TableOf(ds[0])));
      assert CloseAll(p, ds) == CloseAll(open, ds[1..]);
      TableParses(ds[0]);
      if Digest(ds[0].digest) {
        var next := p.(dependencies := p.dependencies + [Lowered(ds[0])]);
        assert Close(open) == Ok(next) && Close(next) == Ok(next);
        CloseAllValue(next, ds[1..]);
        assert CloseAll(open, ds[1..]) == CloseAll(next, ds[1..]);
        assert p.dependencies + LoweredAll(ds) == next.dependencies + LoweredAll(ds[1..]);
      }
    }
  }

  /** The header with another format, or with no format line. */
  function HeaderWith(format: Option<nat>, lock: Lock): seq<string> {
    [COMMENT] + (if format.Some? then ["format = " + Decimal(format.value)] else [])
    + EntryLines([("root", lock.rootName), ("root_version", lock.rootVersion)]) + [""]
  }

  lemma {:induction false} HeaderSpelled(format: Option<nat>, lock: Lock, rest: string)
    ensures
      var tail := EntryLine(("root", lock.rootName)) + "\n" + (EntryLine(("root_version", lock.rootVersion)) + "\n" + ("" + "\n" + rest));
      Unlines(HeaderWith(format, lock)) + rest
        == COMMENT + "\n" + if format.Some? then "format = " + Decimal(format.value) + "\n" + tail else tail
    ensures HeaderLines(lock) == HeaderWith(Some(FORMAT_VERSION), lock)
  {
    hide Unlines, EntryLine, Decimal;
    var name, version := EntryLine(("root", lock.rootName)), EntryLine(("root_version", lock.rootVersion));
    var es := EntryLines([("root", lock.rootName), ("root_version", lock.rootVersion)]);
    assert es + [""] == [name, version, ""];
    assert HeaderLines(lock) == HeaderWith(Some(FORMAT_VERSION), lock);
    if format.Some? {
      assert HeaderWith(format, lock) == [COMMENT, "format = " + Decimal(format.value), name, version, ""];
      SpellHeader(COMMENT, "format = " + Decimal(format.value), name, version, rest);
    } else {
      assert HeaderWith(format, lock) == [COMMENT] + [name, version, ""];
      SpellTail(COMMENT, name, version, rest);
    }
  }

  /** The header sets the format and both root strings. */
  lemma {:induction false} HeaderText(format: Option<nat>, lock: Lock, rest: string)
    requires format.Some? ==> format.value < 0x1_0000_0000
    ensures Plain(lock.rootName) && Plain(lock.rootVersion) ==>
      ParseText(START, Unlines(HeaderWith(format, lock)) + rest)
        == ParseText(Parsed(format, Some(lock.rootName), Some(lock.rootVersion), [], None), rest)
    ensures !Plain(lock.rootName) || !Plain(lock.rootVersion) ==>
      ParseText(START, Unlines(HeaderWith(format, lock)) + rest).Err?
  {
    hide ParseText, Quote, Step, HeaderWith, Unlines, EntryLine;
    var name, version := ("root", lock.rootName), ("root_version", lock.rootVersion);
    var t4 := "" + "\n" + rest;
    var t3 := EntryLine(version) + "\n" + t4;
    var t2 := EntryLine(name) + "\n" + t3;
    HeaderSpelled(format, lock, rest);
    CommentStep();
    TextStep(START, COMMENT, if format.Some? then "format = " + Decimal(format.value) + "\n" + t2 else t2);
    var p1 := START.(format := format);
    if format.Some? {
      FormatStep(format.value);
      TextStep(START, "format = " + Decimal(format.value), t2);
    }
    if !Plain(lock.rootName) {
      BrokenEntryText(p1, "root", lock.rootName, t3);
    } else {
      EntryText(p1, "root", lock.rootName, t3);
      EntryStep(p1, "root", lock.rootName);
      var p2 := p1.(root := Some(lock.rootName));
      if !Plain(lock.rootVersion) {
        BrokenEntryText(p2, "root_version", lock.rootVersion, t4);
      } else {
        EntryText(p2, "root_version", lock.rootVersion, t4);
        EntryStep(p2, "root_version", lock.rootVersion);
        var p3 := p2.(rootVersion := Some(lock.rootVersion));
        TextStep(p3, "", rest);
        BlankStep(p3);
      }
    }
  }

  lemma {:induction false} SpellTail(a: string, b: string, c: string, rest: string)
    ensures Unlines([a] + [b, c, ""]) + rest == a + "\n" + (b + "\n" + (c + "\n" + ("" + "\n" + rest)))
  {
    UnlinesOne("");
    UnlinesCons(c, [""]);
    UnlinesCons(b, [c, ""]);
    UnlinesCons(a, [b, c, ""]);
    assert [b] + [c, ""] == [b, c, ""] && [c] + [""] == [c, ""];
  }

  lemma {:induction false} SpellHeader(a: string, b: string, c: string, d: string, rest: string)
    ensures Unlines([a, b, c, d, ""]) + rest
         == a + "\n" + (b + "\n" + (c + "\n" + (d + "\n" + ("" + "\n" + rest))))
  {
    UnlinesOne("");
    UnlinesCons(d, [""]);
    UnlinesCons(c, [d, ""]);
    UnlinesCons(b, [c, d, ""]);
    UnlinesCons(a, [b, c, d, ""]);
    assert Unlines([a, b, c, d, ""]) + rest
        == a + "\n" + (b + "\n" + (c + "\n" + (d + "\n" + ("" + "\n" + rest)))) by {
      assert [a] + [b, c, d, ""] == [a, b, c, d, ""] && [b] + [c, d, ""] == [b, c, d, ""];
      assert [c] + [d, ""] == [c, d, ""] && [d] + [""] == [d, ""];
    }
  }

  lemma {:induction false} UnlinesCons(line: string, lines: seq<string>)
    ensures Unlines([line] + lines) == line + "\n" + Unlines(lines)
  {
    assert ([line] + lines)[1..] == lines;
  }

  lemma {:induction false} CommentStep()
    ensures Plain(COMMENT) && Chomp(COMMENT) == COMMENT && Step(START, COMMENT) == Ok(START)
  {
    hide Step, Chomp;
    CommentWhole(COMMENT);
    CommentIgnored(START, COMMENT);
  }

  lemma {:induction false} CommentWhole(line: string)
    requires line != "" && line[|line| - 1] == '.'
    ensures Chomp(line) == line
  {
  }

  lemma {:induction false} CommentIgnored(p: Parsed, line: string)
    requires line != "" && line[0] == '#'
    ensures Step(p, line) == Ok(p)
  {
    hide FindOutside, ParseString;
    assert line == ['#'] + line[1..];
    ScanCons('#', line[1..], '#', false, false);
    assert StripComment(line) == line[..0] == "";
  }

  lemma {:induction false} FormatStep(n: nat)
    requires n < 0x1_0000_0000
    ensures
      var line := "format = " + Decimal(n);
      Chomp(line) == line && Plain(line) && Step(START, line) == Ok(START.(format := Some(n)))
  {
    hide FindOutside, Trim, StripComment, ParseString, ParseU32, Decimal;
    var digits := Decimal(n);
    var line := "format = " + digits;
    DecimalSolid(n);
    assert line[|line| - 1] == digits[|digits| - 1];
    SolidLine(line);
    ScanPlain("format ", "= " + digits, '=');
    assert "format " + ("= " + digits) == line && "= " + digits == ['='] + (" " + digits);
    ScanCons('=', " " + digits, '=', false, false);
    assert line[..7] == "format " && line[8..] == " " + digits && "format" + " " == "format ";
    KeyTrims("format");
    TrimLead(digits);
    FormatEntry(digits, n);
  }

  lemma FormatEntry(digits: string, n: nat)
    requires Trim(" " + digits) == digits && ParseU32(digits) == Some(n)
    ensures StepEntry(START, "format", " " + digits) == Ok(START.(format := Some(n)))
  {
    hide Trim, ParseU32, ParseString;
  }

  lemma {:induction false} DecimalSolid(n: nat)
    requires n < 0x1_0000_0000
    ensures var s := Decimal(n); s != "" && AllDigits(s) && ParseU32(s) == Some(n)
    ensures var s := Decimal(n); !White(s[0]) && !White(s[|s| - 1]) && '#' !in s && '"' !in s && '\n' !in s
  {
    DecimalIsRead("", n);
    assert "" + Decimal(n) == Decimal(n);
    hide Decimal, DecimalValue;
    DigitsAreSolid(Decimal(n));
  }

  lemma DigitsAreSolid(s: string)
    requires s != "" && AllDigits(s)
    ensures s[0] != '+' && !White(s[0]) && !White(s[|s| - 1]) && '#' !in s && '"' !in s && '\n' !in s
  {
  }

  predicate PlainLock(lock: Lock) {
    Plain(lock.rootName) && Plain(lock.rootVersion) && PlainDependencies(lock.dependencies)
  }

  /** What parsing a written lock gives, for every lock. */
  lemma {:induction false} WrittenLockParses(lock: Lock)
    ensures PlainLock(lock) ==>
      Parse(Render(lock)) ==
        if Digests(lock.dependencies) then Ok(lock.(dependencies := LoweredAll(lock.dependencies))) else Err(BadDigest)
    ensures !PlainLock(lock) ==> Parse(Render(lock)).Err?
  {
    hide PlainDependencies, Finish, DependenciesText, HeaderLines;
    var rest := DependenciesText(lock.dependencies);
    HeaderText(Some(FORMAT_VERSION), lock, rest);
    HeaderSpelled(Some(FORMAT_VERSION), lock, rest);
    var p := Parsed(Some(FORMAT_VERSION), Some(lock.rootName), Some(lock.rootVersion), [], None);
    DependenciesParse(p, lock.dependencies);
    CloseAllValue(p, lock.dependencies);
    assert [] + LoweredAll(lock.dependencies) == LoweredAll(lock.dependencies);
  }

  /** A lock written with any other format number, or with no format line, is refused for its format. */
  lemma {:induction false} OtherFormatsDoNotParse(format: Option<nat>, lock: Lock)
    requires PlainLock(lock) && Digests(lock.dependencies)
    requires format != Some(FORMAT_VERSION) && (format.Some? ==> format.value < 0x1_0000_0000)
    ensures Parse(Unlines(HeaderWith(format, lock)) + DependenciesText(lock.dependencies)) == Err(UnsupportedFormat)
  {
    hide PlainDependencies, Finish, DependenciesText, HeaderWith, Digests;
    HeaderText(format, lock, DependenciesText(lock.dependencies));
    var p := Parsed(format, Some(lock.rootName), Some(lock.rootVersion), [], None);
    DependenciesParse(p, lock.dependencies);
    CloseAllOther(p, lock.dependencies);
  }

  lemma {:induction false} CloseAllOther(p: Parsed, ds: seq<Dependency>)
    requires p.current == None && p.format != Some(FORMAT_VERSION) && Digests(ds)
    ensures CloseAll(p, ds) == Err(UnsupportedFormat)
    decreases |ds|
  {
    hide TableOf, Digest, Lowered;
    if ds != [] {
      var open := p.(current := Some(TableOf(ds[0])));
      assert CloseAll(p, ds) == CloseAll(open, ds[1..]);
      TableParses(ds[0]);
      var next := p.(dependencies := p.dependencies + [Lowered(ds[0])]);
      assert Close(open) == Ok(next) && Close(next) == Ok(next);
      CloseAllOther(next, ds[1..]);
      assert CloseAll(open, ds[1..]) == CloseAll(next, ds[1..]);
    }
  }

  predicate LowerHexDigit(c: char) { '0' <= c <= '9' || 'a' <= c <= 'f' }

  /** No newline in any string, and every digest 64 lower-case hexadecimal digits. */
  predicate Canonical(lock: Lock) {
    && PlainLock(lock)
    && forall i | 0 <= i < |lock.dependencies| ::
      |lock.dependencies[i].digest| == 64
      && forall j | 0 <= j < 64 :: LowerHexDigit(lock.dependencies[i].digest[j])
  }

  /** The parser undoes the writer exactly for the canonical locks. */
  lemma {:induction false} LockRoundTrips(lock: Lock)
    ensures Parse(Render(lock)) == Ok(lock) <==> Canonical(lock)
  {
    hide PlainLock, Render, Parse;
    WrittenLockParses(lock);
    var ds := lock.dependencies;
    if Canonical(lock) {
      forall i | 0 <= i < |ds| ensures Digest(ds[i].digest) && LoweredAll(ds)[i] == ds[i] {
        assert Lowercase(ds[i].digest) == ds[i].digest;
      }
      assert LoweredAll(ds) == ds;
    } else if PlainLock(lock) && Digests(ds) {
      var i :| 0 <= i < |ds| && !(|ds[i].digest| == 64 && forall j | 0 <= j < 64 :: LowerHexDigit(ds[i].digest[j]));
      var j :| 0 <= j < 64 && !LowerHexDigit(ds[i].digest[j]);
      assert HexDigit(ds[i].digest[j]);
      assert LoweredAll(ds)[i].digest[j] != ds[i].digest[j];
    }
  }
}
