/**
  The debugger's event stream: bytes arrive in arbitrary chunks and leave as whole lines.
*/
module EventSplit {
  import opened Wrappers
  import opened Text

  type Bytes = string

  /** The newline-terminated lines of `s`, terminators included, and what follows the last one. */
  datatype Split = Split(lines: seq<Bytes>, tail: Bytes)

  function SplitLines(s: Bytes): Split
    decreases |s|
  {
    var i := Find(s, '\n');
    if i == |s| then Split([], s)
    else
      var rest := SplitLines(s[i + 1..]);
      Split([s[..i + 1]] + rest.lines, rest.tail)
  }

  function Concat(parts: seq<Bytes>): Bytes {
    if parts == [] then [] else parts[0] + Concat(parts[1..])
  }

  /** The lines that parse, parsed. */
  function Parsed<E>(parse: Bytes -> Option<E>, lines: seq<Bytes>): seq<E> {
    if lines == [] then []
    else (match parse(lines[0]) case Some(event) => [event] case None => []) + Parsed(parse, lines[1..])
  }

  class Bridge<E> {
    const parse: Bytes -> Option<E>
    var pending: Bytes
    var events: seq<E>

    constructor (parse: Bytes -> Option<E>)
      ensures this.parse == parse && pending == [] && events == []
    {
      this.parse, pending, events := parse, [], [];
    }

    /** One successful read: the chunk joins the pending bytes and every whole line is taken out. */
    method Receive(chunk: Bytes)
      modifies this
      ensures var split := SplitLines(old(pending) + chunk);
        pending == split.tail && events == old(events) + Parsed(parse, split.lines)
    {
      hide SplitLines, Parsed, Find;
      pending := pending + chunk;
      ghost var all := pending;
      var position := Find(pending, '\n');
      while position < |pending|
        invariant position == Find(pending, '\n') && SplitLines(all).tail == SplitLines(pending).tail
        invariant old(events) + Parsed(parse, SplitLines(all).lines) == events + Parsed(parse, SplitLines(pending).lines)
        decreases |pending|
      {
        ghost var first, left := FirstLine(pending);
        var line := pending[..position + 1];
        ghost var rest := SplitLines(pending[position + 1..]).lines;
        ParsedCons(parse, line, rest);
        var event := parse(line);
        if event.Some? {
          assert events + ([event.value] + Parsed(parse, rest)) == events + [event.value] + Parsed(parse, rest);
          events := events + [event.value];
        } else {
          assert [] + Parsed(parse, rest) == Parsed(parse, rest);
        }
        pending := pending[position + 1..];
        position := Find(pending, '\n');
      }
      NothingLeft(parse, pending);
      assert events + [] == events;
    }

    /** The loop over reads, until the stream ends. */
    method ReceiveAll(chunks: seq<Bytes>)
      modifies this
      ensures var fed := Feed(old(pending), chunks);
        pending == fed.tail && events == old(events) + Parsed(parse, fed.lines)
    {
      hide SplitLines, Parsed, Feed;
      ghost var lines: seq<Bytes> := [];
      FeedNothing(parse, pending);
      assert events + [] == events && chunks[0..] == chunks;
      for i := 0 to |chunks|
        invariant events == old(events) + Parsed(parse, lines)
        invariant Feed(old(pending), chunks) == Before(lines, Feed(pending, chunks[i..]))
      {
        ghost var now := SplitLines(pending + chunks[i]);
        assert chunks[i..][0] == chunks[i] && chunks[i..][1..] == chunks[i + 1..];
        FeedCons(pending, chunks[i..], lines);
        ParsedAppend(parse, lines, now.lines);
        ghost var had := events;
        Receive(chunks[i]);
        assert had + Parsed(parse, now.lines) == old(events) + (Parsed(parse, lines) + Parsed(parse, now.lines));
        lines := lines + now.lines;
      }
      assert chunks[|chunks|..] == [];
      FeedNothing(parse, pending);
    }
  }

  /** Lines already split off, in front of the rest. */
  function Before(lines: seq<Bytes>, s: Split): Split { Split(lines + s.lines, s.tail) }

  lemma FeedNothing<E>(parse: Bytes -> Option<E>, pending: Bytes)
    ensures Feed(pending, []) == Split([], pending) && Parsed(parse, []) == []
    ensures forall s: Split :: Before([], s) == s
    ensures forall lines: seq<Bytes> :: lines + [] == lines
  {
  }

  lemma FeedCons(pending: Bytes, chunks: seq<Bytes>, lines: seq<Bytes>)
    requires chunks != []
    ensures
      var now := SplitLines(pending + chunks[0]);
      Before(lines, Feed(pending, chunks)) == Before(lines + now.lines, Feed(now.tail, chunks[1..]))
  {
    hide SplitLines;
  }

  lemma NothingLeft<E>(parse: Bytes -> Option<E>, s: Bytes)
    requires Find(s, '\n') == |s|
    ensures SplitLines(s) == Split([], s) && Parsed(parse, []) == []
  {
    hide Find;
  }

  lemma {:induction false} ParsedAppend<E>(parse: Bytes -> Option<E>, a: seq<Bytes>, b: seq<Bytes>)
    ensures Parsed(parse, a + b) == Parsed(parse, a) + Parsed(parse, b)
  {
    if a == [] {
      assert a + b == b;
    } else {
      assert (a + b)[1..] == a[1..] + b;
      ParsedAppend(parse, a[1..], b);
    }
  }

  lemma ParsedCons<E>(parse: Bytes -> Option<E>, line: Bytes, rest: seq<Bytes>)
    ensures Parsed(parse, [line] + rest) == (match parse(line) case Some(event) => [event] case None => []) + Parsed(parse, rest)
  {
    assert ([line] + rest)[1..] == rest;
  }

  /** The lines are a faithful cut: put together with the tail they are the bytes, each ended by its only newline. */
  lemma {:induction false} SplitIsFaithful(s: Bytes)
    ensures Concat(SplitLines(s).lines) + SplitLines(s).tail == s && '\n' !in SplitLines(s).tail
    ensures forall i | 0 <= i < |SplitLines(s).lines| :: OneLine(SplitLines(s).lines[i])
    decreases |s|
  {
    hide SplitLines, Concat, OneLine;
    if '\n' in s {
      var line, rest := FirstLine(s);
      SplitIsFaithful(rest);
      ConcatCons(line, SplitLines(rest).lines, SplitLines(rest).tail);
    } else {
      TailHasNoLines(s);
      ConcatNothing(s);
    }
  }

  /** Bytes with a newline are a line and the rest, and are split so. */
  lemma FirstLine(s: Bytes) returns (line: Bytes, rest: Bytes)
    requires '\n' in s
    ensures OneLine(line) && s == line + rest && |rest| < |s|
    ensures Find(s, '\n') < |s| && line == s[..Find(s, '\n') + 1] && rest == s[Find(s, '\n') + 1..]
    ensures SplitLines(s) == Split([line] + SplitLines(rest).lines, SplitLines(rest).tail)
  {
    var i := Find(s, '\n');
    assert s == s[..|s|];
    line, rest := s[..i + 1], s[i + 1..];
    assert line[..i] == s[..i];
  }

  lemma ConcatNothing(tail: Bytes)
    ensures Concat([]) + tail == tail
  {
  }

  lemma ConcatCons(line: Bytes, lines: seq<Bytes>, tail: Bytes)
    ensures Concat([line] + lines) + tail == line + (Concat(lines) + tail)
  {
    assert ([line] + lines)[1..] == lines;
  }

  predicate OneLine(line: Bytes) {
    line != [] && line[|line| - 1] == '\n' && '\n' !in line[..|line| - 1]
  }

  /** A line in front is split off first. */
  lemma SplitFirst(line: Bytes, rest: Bytes)
    requires OneLine(line)
    ensures SplitLines(line + rest) == Split([line] + SplitLines(rest).lines, SplitLines(rest).tail)
  {
    var n := |line| - 1;
    assert line + rest == line[..n] + ['\n'] + rest;
    FindHere(line[..n], '\n', rest);
    assert (line + rest)[..n + 1] == line && (line + rest)[n + 1..] == rest;
  }

  /** Splitting a first part, then its tail with the rest, is splitting it all. */
  lemma {:induction false} SplitAppend(a: Bytes, b: Bytes)
    ensures
      var first, whole := SplitLines(a), SplitLines(a + b);
      var second := SplitLines(first.tail + b);
      whole.tail == second.tail && whole.lines == first.lines + second.lines
    decreases |a|
  {
    hide SplitLines, OneLine;
    if '\n' in a {
      var line, rest := FirstLine(a);
      assert a + b == line + (rest + b);
      SplitFirst(line, rest + b);
      SplitAppend(rest, b);
    } else {
      TailHasNoLines(a);
    }
  }

  /** What a bridge has delivered and keeps after any sequence of reads. */
  function Feed(pending: Bytes, chunks: seq<Bytes>): Split
    decreases |chunks|
  {
    if chunks == [] then Split([], pending)
    else
      var now := SplitLines(pending + chunks[0]);
      var later := Feed(now.tail, chunks[1..]);
      Split(now.lines + later.lines, later.tail)
  }

  lemma TailHasNoLines(s: Bytes)
    requires '\n' !in s
    ensures SplitLines(s) == Split([], s)
  {
    FindNone(s, '\n');
  }

  /**
    However the stream is cut into reads, the lines delivered are those of the whole stream,
    in order, and the pending bytes are its unterminated tail.
  */
  lemma {:induction false} ChunkingIsIrrelevant(pending: Bytes, chunks: seq<Bytes>)
    requires '\n' !in pending
    ensures Feed(pending, chunks) == SplitLines(pending + Concat(chunks))
    decreases |chunks|
  {
    hide SplitLines;
    if chunks == [] {
      assert pending + Concat(chunks) == pending;
      TailHasNoLines(pending);
    } else {
      var first, rest := pending + chunks[0], chunks[1..];
      SplitIsFaithful(first);
      ChunkingIsIrrelevant(SplitLines(first).tail, rest);
      SplitAppend(first, Concat(rest));
      assert pending + Concat(chunks) == first + Concat(rest);
    }
  }
}
