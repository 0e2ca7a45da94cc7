/**
  The lexer's preflight: two separately written scanners over the bytes of a source file,
  one looking for a block comment that never closes, one for a string that never closes.
*/
module LexPreflight {
  import opened Wrappers
  import opened Text

  /** Source bytes, one character each. */
  type Bytes = string

  datatype Span = Span(start: nat, end: nat)

  datatype Report = UnclosedBlockComment(span: Span) | UnterminatedString(span: Span)

  const TRIPLE := "\"\"\""

  // ---------------------------------------------------------------------------
  // Where constructs end
  // ---------------------------------------------------------------------------

  function After(found: Option<nat>, n: nat): Option<nat> {
    match found case None => None case Some(i) => Some(i + n)
  }

  function TripleQuotedEnd(s: Bytes, c: nat): Option<nat> { After(FindSub(s, TRIPLE, c), 3) }

  function BlockCommentEnd(s: Bytes, c: nat): Option<nat> { After(FindSub(s, "|--", c), 3) }

  function LineCommentEnd(s: Bytes, c: nat): (e: nat)
    requires c <= |s|
    ensures c <= e <= |s| && '\n' !in s[c..e] && (e < |s| ==> s[e] == '\n')
    decreases |s| - c
  {
    if c == |s| || s[c] == '\n' then c
    else
      var e := LineCommentEnd(s, c + 1);
      assert s[c..e] == [s[c]] + s[c + 1..e];
      e
  }

  function QuotedEnd(s: Bytes, c: nat): (e: Option<nat>)
    requires c <= |s|
    ensures e.Some? ==> c < e.value <= |s|
    decreases |s| - c
  {
    if c == |s| then None
    else if s[c] == '\\' then QuotedEnd(s, if c + 2 <= |s| then c + 2 else |s|)
    else if s[c] == '"' then Some(c + 1)
    else QuotedEnd(s, c + 1)
  }

  method FindQuotedEnd(s: Bytes, start: nat) returns (r: Option<nat>)
    requires start <= |s|
    ensures r == QuotedEnd(s, start)
  {
    var cursor := start;
    while cursor < |s|
      invariant start <= cursor <= |s| && QuotedEnd(s, start) == QuotedEnd(s, cursor)
    {
      if s[cursor] == '\\' { cursor := if cursor + 2 <= |s| then cursor + 2 else |s|; }
      else if s[cursor] == '"' { return Some(cursor + 1); }
      else { cursor := cursor + 1; }
    }
    return None;
  }

  method SkipLineComment(s: Bytes, start: nat) returns (cursor: nat)
    requires start <= |s|
    ensures cursor == LineCommentEnd(s, start)
  {
    cursor := start;
    while cursor < |s| && s[cursor] != '\n'
      invariant start <= cursor <= |s| && LineCommentEnd(s, start) == LineCommentEnd(s, cursor)
    {
      cursor := cursor + 1;
    }
  }

  // ---------------------------------------------------------------------------
  // One step, and the two scanners as functions of it
  // ---------------------------------------------------------------------------

  datatype Opener = BlockComment | LineComment | Triple(length: nat) | Quote(length: nat) | Plain

  function OpenerAt(s: Bytes, c: nat): (o: Opener)
    requires c < |s|
    ensures (o.Triple? ==> o.length <= 4 && c + o.length <= |s|) && (o.Quote? ==> 0 < o.length && c + o.length <= |s|)
    ensures o.LineComment? ==> c + 2 <= |s|
  {
    if Occurs(s, c, "--|") then BlockComment
    else if Occurs(s, c, "--") then LineComment
    else if Occurs(s, c, "f" + TRIPLE) then Triple(4)
    else if Occurs(s, c, TRIPLE) then Triple(3)
    else if Occurs(s, c, "f\"") || Occurs(s, c, "b\"") then Quote(2)
    else if s[c] == '"' then Quote(1)
    else Plain
  }

  /** Where the construct at `c` ends, if it does. */
  function EndOf(s: Bytes, c: nat): (e: Option<nat>)
    requires c < |s|
    ensures e.Some? ==> c < e.value <= |s|
  {
    match OpenerAt(s, c)
    case BlockComment => BlockCommentEnd(s, c + 3)
    case LineComment => Some(LineCommentEnd(s, c + 2))
    case Triple(n) => TripleQuotedEnd(s, c + n)
    case Quote(n) => QuotedEnd(s, c + n)
    case Plain => Some(c + 1)
  }

  function OrEnd(s: Bytes, e: Option<nat>): nat {
    if e.Some? then e.value else |s|
  }

  function UnclosedCommentFrom(s: Bytes, c: nat): Option<nat>
    requires c <= |s|
    decreases |s| - c
  {
    if c == |s| then None
    else if OpenerAt(s, c).BlockComment? && EndOf(s, c).None? then Some(c)
    else UnclosedCommentFrom(s, OrEnd(s, EndOf(s, c)))
  }

  function UnterminatedStringFrom(s: Bytes, c: nat): Option<nat>
    requires c <= |s|
    decreases |s| - c
  {
    if c == |s| then None
    else if !OpenerAt(s, c).BlockComment? && EndOf(s, c).None? then Some(c)
    else UnterminatedStringFrom(s, OrEnd(s, EndOf(s, c)))
  }

  function ToEnd(s: Bytes, at: Option<nat>): Option<Span> {
    match at case None => None case Some(c) => Some(Span(c, |s|))
  }

  method FindUnclosedBlockComment(s: Bytes, start: nat) returns (r: Option<Span>)
    requires start <= |s|
    ensures r == ToEnd(s, UnclosedCommentFrom(s, start))
  {
    hide Occurs, FindSub, QuotedEnd, LineCommentEnd;
    var cursor := start;
    while cursor < |s|
      invariant start <= cursor <= |s| && UnclosedCommentFrom(s, start) == UnclosedCommentFrom(s, cursor)
      decreases |s| - cursor
    {
      if Occurs(s, cursor, "--|") {
        var end := FindSub(s, "|--", cursor + 3);
        if end.None? { return Some(Span(cursor, |s|)); }
        cursor := end.value + 3;
        continue;
      }
      if Occurs(s, cursor, "--") {
        cursor := SkipLineComment(s, cursor + 2);
        continue;
      }
      if Occurs(s, cursor, "f" + TRIPLE) {
        cursor := OrEnd(s, TripleQuotedEnd(s, cursor + 4));
        continue;
      }
      if Occurs(s, cursor, TRIPLE) {
        cursor := OrEnd(s, TripleQuotedEnd(s, cursor + 3));
        continue;
      }
      if Occurs(s, cursor, "f\"") || Occurs(s, cursor, "b\"") {
        var end := FindQuotedEnd(s, cursor + 2);
        cursor := OrEnd(s, end);
        continue;
      }
      if s[cursor] == '"' {
        var end := FindQuotedEnd(s, cursor + 1);
        cursor := OrEnd(s, end);
        continue;
      }
      cursor := cursor + 1;
    }
    return None;
  }

  lemma OpenerIs(s: Bytes, c: nat)
    requires c < |s|
    ensures OpenerAt(s, c) ==
      if Occurs(s, c, "--|") then BlockComment
      else if Occurs(s, c, "--") then LineComment
      else if Occurs(s, c, "f" + TRIPLE) then Triple(4)
      else if Occurs(s, c, TRIPLE) then Triple(3)
      else if Occurs(s, c, "f\"") || Occurs(s, c, "b\"") then Quote(2)
      else if s[c] == '"' then Quote(1)
      else Plain
  {
  }

  method FindUnterminatedString(s: Bytes, start: nat) returns (r: Option<Span>)
    requires start <= |s|
    ensures r == ToEnd(s, UnterminatedStringFrom(s, start))
  {
    hide Occurs, FindSub, QuotedEnd, LineCommentEnd, BlockCommentEnd, TripleQuotedEnd, OpenerAt;
    var cursor := start;
    while cursor < |s|
      invariant start <= cursor <= |s| && UnterminatedStringFrom(s, start) == UnterminatedStringFrom(s, cursor)
      decreases |s| - cursor
    {
      OpenerIs(s, cursor);
      if Occurs(s, cursor, "--|") {
        cursor := OrEnd(s, BlockCommentEnd(s, cursor + 3));
        continue;
      }
      if Occurs(s, cursor, "--") {
        cursor := SkipLineComment(s, cursor + 2);
        continue;
      }
      if Occurs(s, cursor, "f" + TRIPLE) {
        var end := TripleQuotedEnd(s, cursor + 4);
        if end.None? { return Some(Span(cursor, |s|)); }
        cursor := end.value;
        continue;
      }
      if Occurs(s, cursor, TRIPLE) {
        var end := TripleQuotedEnd(s, cursor + 3);
        if end.None? { return Some(Span(cursor, |s|)); }
        cursor := end.value;
        continue;
      }
      if Occurs(s, cursor, "f\"") || Occurs(s, cursor, "b\"") {
        var end := FindQuotedEnd(s, cursor + 2);
        if end.None? { return Some(Span(cursor, |s|)); }
        cursor := end.value;
        continue;
      }
      if s[cursor] == '"' {
        var end := FindQuotedEnd(s, cursor + 1);
        if end.None? { return Some(Span(cursor, |s|)); }
        cursor := end.value;
        continue;
      }
      cursor := cursor + 1;
    }
    return None;
  }

  /** The report that starts first. */
  function Preflight(s: Bytes, start: nat): Option<Report>
    requires start <= |s|
  {
    match (ToEnd(s, UnclosedCommentFrom(s, start)), ToEnd(s, UnterminatedStringFrom(s, start)))
    case (None, None) => None
    case (Some(a), None) => Some(UnclosedBlockComment(a))
    case (None, Some(b)) => Some(UnterminatedString(b))
    case (Some(a), Some(b)) => Some(if a.start <= b.start then UnclosedBlockComment(a) else UnterminatedString(b))
  }

  method FirstPreflightDiagnostic(s: Bytes, start: nat) returns (r: Option<Report>)
    requires start <= |s|
    ensures r == Preflight(s, start)
  {
    var comment := FindUnclosedBlockComment(s, start);
    var str := FindUnterminatedString(s, start);
    if comment.Some? && (str.None? || comment.value.start <= str.value.start) {
      return Some(UnclosedBlockComment(comment.value));
    }
    if str.Some? { return Some(UnterminatedString(str.value)); }
    return None;
  }

  // ---------------------------------------------------------------------------
  // The lexical grammar, stated without scanning
  // ---------------------------------------------------------------------------

  /** String contents: escape pairs and characters other than a quote or a backslash. */
  predicate QuotedBody(t: string) {
    t == ""
    || (t[0] == '\\' && |t| >= 2 && QuotedBody(t[2..]))
    || (t[0] != '\\' && t[0] != '"' && QuotedBody(t[1..]))
  }

  /** `p` stands just before `e`, and not earlier from `c` on. */
  predicate EndsAtFirst(s: Bytes, p: string, c: nat, e: nat) {
    c + |p| <= e && Occurs(s, e - |p|, p) && forall k | c <= k < e - |p| :: !Occurs(s, k, p)
  }

  /** A closed construct, or a single other byte, stands from `a` to `b`. */
  predicate Piece(s: Bytes, a: nat, b: nat)
    requires a < |s|
  {
    && a < b <= |s|
    && match OpenerAt(s, a)
       case BlockComment => EndsAtFirst(s, "|--", a + 3, b)
       case LineComment => a + 2 <= b && '\n' !in s[a + 2..b] && (b < |s| ==> s[b] == '\n')
       case Triple(n) => EndsAtFirst(s, TRIPLE, a + n, b)
       case Quote(n) => a + n < b && s[b - 1] == '"' && QuotedBody(s[a + n..b - 1])
       case Plain => b == a + 1
  }

  ghost predicate Closes(s: Bytes, a: nat)
    requires a < |s|
  {
    exists b :: Piece(s, a, b)
  }

  /** Pieces one after the other from `a` to `b`. */
  ghost predicate Chain(s: Bytes, a: nat, b: nat)
    decreases b - a
  {
    a == b || (a < b && a < |s| && exists m :: a < m <= b && Piece(s, a, m) && Chain(s, m, b))
  }

  // ---------------------------------------------------------------------------
  // The scanners follow the grammar
  // ---------------------------------------------------------------------------

  lemma {:induction false} QuotedEndBody(s: Bytes, c: nat)
    requires c <= |s| && QuotedEnd(s, c).Some?
    ensures
      var e := QuotedEnd(s, c).value;
      s[e - 1] == '"' && QuotedBody(s[c..e - 1])
    decreases |s| - c
  {
    var e := QuotedEnd(s, c).value;
    if s[c] == '\\' {
      QuotedEndBody(s, c + 2);
      assert s[c..e - 1][2..] == s[c + 2..e - 1];
    } else if s[c] != '"' {
      QuotedEndBody(s, c + 1);
      assert s[c..e - 1][1..] == s[c + 1..e - 1];
    }
  }

  lemma {:induction false} QuotedBodyEnds(s: Bytes, c: nat, e: nat)
    requires c < e <= |s| && s[e - 1] == '"' && QuotedBody(s[c..e - 1])
    ensures QuotedEnd(s, c) == Some(e)
    decreases e - c
  {
    var t := s[c..e - 1];
    if t != "" {
      var n := if t[0] == '\\' then 2 else 1;
      assert t[n..] == s[c + n..e - 1];
      QuotedBodyEnds(s, c + n, e);
    }
  }

  lemma FirstEnds(s: Bytes, p: string, c: nat, e: nat)
    requires p != ""
    ensures After(FindSub(s, p, c), |p|) == Some(e) <==> EndsAtFirst(s, p, c, e)
  {
    hide Occurs;
    var found := FindSub(s, p, c);
    if EndsAtFirst(s, p, c, e) {
      assert Occurs(s, e - |p|, p);
    }
  }

  lemma {:induction false} LineEnds(s: Bytes, c: nat, e: nat)
    requires c <= e <= |s| && '\n' !in s[c..e] && (e < |s| ==> s[e] == '\n')
    ensures LineCommentEnd(s, c) == e
    decreases e - c
  {
    if c < e {
      assert s[c] in s[c..e] && s[c..e][1..] == s[c + 1..e];
      LineEnds(s, c + 1, e);
    }
  }

  /** The code finds an end exactly where a construct ends. */
  lemma EndOfIsPiece(s: Bytes, a: nat, b: nat)
    requires a < |s|
    ensures EndOf(s, a) == Some(b) <==> Piece(s, a, b)
  {
    hide FindSub, QuotedEnd, LineCommentEnd, EndsAtFirst, Occurs, OpenerAt;
    match OpenerAt(s, a)
    case BlockComment => FirstEnds(s, "|--", a + 3, b);
    case LineComment => if Piece(s, a, b) { LineEnds(s, a + 2, b); }
    case Triple(n) => FirstEnds(s, TRIPLE, a + n, b);
    case Quote(n) =>
      if EndOf(s, a) == Some(b) { QuotedEndBody(s, a + n); }
      if Piece(s, a, b) { QuotedBodyEnds(s, a + n, b); }
    case Plain =>
  }

  datatype Stop = AtEnd | AtComment(at: nat) | AtString(at: nat)

  /** A single pass: where it stops, and on what. */
  function First(s: Bytes, c: nat): (r: Stop)
    requires c <= |s|
    decreases |s| - c
  {
    if c == |s| then AtEnd
    else if EndOf(s, c).None? then (if OpenerAt(s, c).BlockComment? then AtComment(c) else AtString(c))
    else First(s, EndOf(s, c).value)
  }

  lemma NothingAtEnd(s: Bytes)
    ensures UnclosedCommentFrom(s, |s|) == None && UnterminatedStringFrom(s, |s|) == None
  {
  }

  /** Up to the first unclosed construct the two scanners advance together; only one then reports. */
  lemma {:induction false} Lockstep(s: Bytes, c: nat)
    requires c <= |s|
    ensures UnclosedCommentFrom(s, c) == if First(s, c).AtComment? then Some(First(s, c).at) else None
    ensures UnterminatedStringFrom(s, c) == if First(s, c).AtString? then Some(First(s, c).at) else None
    decreases |s| - c
  {
    hide EndOf, OpenerAt;
    NothingAtEnd(s);
    if c < |s| && EndOf(s, c).Some? { Lockstep(s, EndOf(s, c).value); }
  }

  ghost predicate Stuck(s: Bytes, c: nat, at: nat, comment: bool) {
    Chain(s, c, at) && at < |s| && !Closes(s, at) && (OpenerAt(s, at).BlockComment? <==> comment)
  }

  ghost predicate Explains(s: Bytes, c: nat, r: Stop) {
    match r
    case AtEnd => Chain(s, c, |s|)
    case AtComment(at) => Stuck(s, c, at, true)
    case AtString(at) => Stuck(s, c, at, false)
  }

  lemma ChainCons(s: Bytes, a: nat, m: nat, b: nat)
    requires a < |s| && Piece(s, a, m) && Chain(s, m, b) && m <= b
    ensures Chain(s, a, b)
  {
  }

  lemma {:induction false} FirstExplains(s: Bytes, c: nat)
    requires c <= |s|
    ensures Explains(s, c, First(s, c)) && (!First(s, c).AtEnd? ==> c <= First(s, c).at)
    decreases |s| - c
  {
    hide EndOf, OpenerAt, Piece;
    if c < |s| {
      if EndOf(s, c).None? {
        forall b ensures !Piece(s, c, b) { EndOfIsPiece(s, c, b); }
      } else {
        var m := EndOf(s, c).value;
        EndOfIsPiece(s, c, m);
        FirstExplains(s, m);
        ChainCons(s, c, m, if First(s, m).AtEnd? then |s| else First(s, m).at);
      }
    }
  }

  /** Pieces are unique, so the single pass goes through every chain. */
  lemma {:induction false} FirstFollows(s: Bytes, a: nat, b: nat)
    requires a <= |s| && Chain(s, a, b)
    ensures b <= |s| && First(s, a) == First(s, b)
    decreases b - a
  {
    hide EndOf, OpenerAt, Piece;
    if a != b {
      var m :| a < m <= b && Piece(s, a, m) && Chain(s, m, b);
      EndOfIsPiece(s, a, m);
      FirstFollows(s, m, b);
    }
  }

  lemma FirstIsUnique(s: Bytes, c: nat, r: Stop)
    requires c <= |s| && Explains(s, c, r)
    ensures First(s, c) == r
  {
    hide EndOf, OpenerAt, Piece;
    match r
    case AtEnd => FirstFollows(s, c, |s|);
    case AtComment(at) => FirstFollows(s, c, at); NoEnd(s, at);
    case AtString(at) => FirstFollows(s, c, at); NoEnd(s, at);
  }

  lemma NoEnd(s: Bytes, at: nat)
    requires at < |s| && !Closes(s, at)
    ensures EndOf(s, at).None?
  {
    if EndOf(s, at).Some? { EndOfIsPiece(s, at, EndOf(s, at).value); }
  }

  function ReportOf(s: Bytes, r: Stop): Option<Report> {
    match r
    case AtEnd => None
    case AtComment(at) => Some(UnclosedBlockComment(Span(at, |s|)))
    case AtString(at) => Some(UnterminatedString(Span(at, |s|)))
  }

  /**
    The preflight reports the first construct that the grammar leaves unclosed, as what it
    is, and reports nothing exactly when the file is a chain of closed constructs.
  */
  lemma PreflightIsGrammar(s: Bytes, start: nat, r: Stop)
    requires start <= |s|
    ensures Preflight(s, start) == ReportOf(s, r) <==> Explains(s, start, r)
  {
    hide Explains;
    Lockstep(s, start);
    FirstExplains(s, start);
    if Explains(s, start, r) { FirstIsUnique(s, start, r); }
  }

  // ---------------------------------------------------------------------------
  // The prefix before a report
  // ---------------------------------------------------------------------------

  lemma StartsInPrefix(s: Bytes, n: nat, c: nat, p: string)
    requires n <= |s|
    ensures Occurs(s[..n], c, p) <==> Occurs(s, c, p) && c + |p| <= n
  {
    if c + |p| <= n { assert s[..n][c..c + |p|] == s[c..c + |p|]; }
  }

  function OpenerLength(o: Opener): nat {
    match o
    case BlockComment => 3
    case LineComment => 2
    case Triple(n) => n
    case Quote(n) => n
    case Plain => 1
  }

  lemma OpenerInPrefix(s: Bytes, n: nat, a: nat)
    requires n <= |s| && a < |s| && a + OpenerLength(OpenerAt(s, a)) <= n && a < n
    ensures OpenerAt(s[..n], a) == OpenerAt(s, a)
  {
    hide Occurs;
    StartsInPrefix(s, n, a, "--|");
    StartsInPrefix(s, n, a, "--");
    StartsInPrefix(s, n, a, "f" + TRIPLE);
    StartsInPrefix(s, n, a, TRIPLE);
    StartsInPrefix(s, n, a, "f\"");
    StartsInPrefix(s, n, a, "b\"");
  }

  lemma EndsAtFirstInPrefix(s: Bytes, n: nat, p: string, c: nat, e: nat)
    requires n <= |s| && e <= n && EndsAtFirst(s, p, c, e)
    ensures EndsAtFirst(s[..n], p, c, e)
  {
    hide Occurs;
    StartsInPrefix(s, n, e - |p|, p);
    forall k | c <= k < e - |p| ensures !Occurs(s[..n], k, p) {
      StartsInPrefix(s, n, k, p);
    }
  }

  lemma PieceInPrefix(s: Bytes, n: nat, a: nat, b: nat)
    requires n <= |s| && a < |s| && Piece(s, a, b) && b <= n
    ensures Piece(s[..n], a, b)
  {
    hide Occurs, EndsAtFirst, OpenerAt, QuotedBody;
    EndsAfterOpener(s, a, b);
    OpenerInPrefix(s, n, a);
    match OpenerAt(s, a)
    case BlockComment => EndsAtFirstInPrefix(s, n, "|--", a + 3, b);
    case LineComment => SliceInPrefix(s, n, a + 2, b);
    case Triple(k) => EndsAtFirstInPrefix(s, n, TRIPLE, a + k, b);
    case Quote(k) => SliceInPrefix(s, n, a + k, b - 1);
    case Plain =>
  }

  lemma SliceInPrefix(s: Bytes, n: nat, a: nat, b: nat)
    requires a <= b <= n <= |s|
    ensures s[..n][a..b] == s[a..b]
  {
  }

  lemma EndsAfterOpener(s: Bytes, a: nat, b: nat)
    requires a < |s| && Piece(s, a, b)
    ensures a + OpenerLength(OpenerAt(s, a)) <= b
  {
    hide Occurs, OpenerAt;
  }

  lemma {:induction false} ChainInPrefix(s: Bytes, n: nat, a: nat, b: nat)
    requires n <= |s| && b <= n && Chain(s, a, b)
    ensures Chain(s[..n], a, b)
    decreases b - a
  {
    hide Piece;
    if a != b {
      var m :| a < m <= b && Piece(s, a, m) && Chain(s, m, b);
      PieceInPrefix(s, n, a, m);
      ChainInPrefix(s, n, m, b);
      ChainCons(s[..n], a, m, b);
    }
  }

  /** Preflight again on what precedes the reported construct: nothing to report. */
  lemma PrefixIsClean(s: Bytes, start: nat)
    requires start <= |s| && Preflight(s, start).Some?
    ensures
      var at := Preflight(s, start).value.span.start;
      start <= at < |s| && Preflight(s[..at], start).None?
  {
    hide Chain, EndOf, OpenerAt;
    Lockstep(s, start);
    FirstExplains(s, start);
    var at := First(s, start).at;
    ChainInPrefix(s, at, start, at);
    PreflightIsGrammar(s[..at], start, AtEnd);
  }
}
