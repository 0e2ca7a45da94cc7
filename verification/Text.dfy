/** Strings as the source language's standard library treats them. */
module Text {
  import opened Wrappers

  /** The characters with the Unicode White_Space property. */
  predicate White(c: char) {
    var n := c as int;
    || 9 <= n <= 13 || n == 32 || n == 0x85 || n == 0xA0 || n == 0x1680 || 0x2000 <= n <= 0x200A
    || n == 0x2028 || n == 0x2029 || n == 0x202F || n == 0x205F || n == 0x3000
  }

  function TrimStart(s: string): string {
    if s != "" && White(s[0]) then TrimStart(s[1..]) else s
  }

  function TrimEnd(s: string): string {
    if s != "" && White(s[|s| - 1]) then TrimEnd(s[..|s| - 1]) else s
  }

  function Trim(s: string): string { TrimEnd(TrimStart(s)) }

  /** First position of `c`, or the length. */
  function Find(s: string, c: char): (i: nat)
    ensures i <= |s| && (forall k | 0 <= k < i :: s[k] != c) && (i < |s| ==> s[i] == c)
  {
    if s == "" || s[0] == c then 0 else 1 + Find(s[1..], c)
  }

  predicate Occurs(s: string, c: nat, p: string) {
    c + |p| <= |s| && s[c..c + |p|] == p
  }

  /** First position at or after `c` where `p` stands. */
  function FindSub(s: string, p: string, c: nat): (r: Option<nat>)
    ensures r.Some? ==> c <= r.value && Occurs(s, r.value, p) && forall k | c <= k < r.value :: !Occurs(s, k, p)
    ensures r.None? ==> forall k | c <= k :: !Occurs(s, k, p)
    decreases |s| - c
  {
    if Occurs(s, c, p) then Some(c) else if c >= |s| then None else FindSub(s, p, c + 1)
  }

  lemma StartsWithHead(s: string, k: nat, p: string)
    ensures Occurs(s, k, p) && p != "" ==> k < |s| && s[k] == p[0]
  {
    if Occurs(s, k, p) && p != "" { assert s[k] == s[k..k + |p|][0]; }
  }

  lemma {:induction false} FindsFirst(s: string, p: string, i: nat, j: nat)
    requires i <= j && Occurs(s, j, p) && forall k | i <= k < j :: !Occurs(s, k, p)
    ensures FindSub(s, p, i) == Some(j)
    decreases j - i
  {
    if i < j { FindsFirst(s, p, i + 1, j); }
  }

  /** Drops one carriage return before a line feed. */
  function Chomp(line: string): string {
    if line != "" && line[|line| - 1] == '\r' then line[..|line| - 1] else line
  }

  function Lines(s: string): seq<string> {
    var i := Find(s, '\n');
    if s == "" then [] else if i == |s| then [s] else [Chomp(s[..i])] + Lines(s[i + 1..])
  }

  function Unlines(lines: seq<string>): string {
    if lines == [] then "" else lines[0] + "\n" + Unlines(lines[1..])
  }

  lemma {:induction false} UnlinesAppend(a: seq<string>, b: seq<string>)
    ensures Unlines(a + b) == Unlines(a) + Unlines(b)
  {
    if a == [] {
      assert a + b == b;
    } else {
      assert (a + b)[1..] == a[1..] + b;
      UnlinesAppend(a[1..], b);
    }
  }

  lemma {:induction false} FindHere(x: string, c: char, rest: string)
    requires c !in x
    ensures Find(x + [c] + rest, c) == |x|
  {
    if x != "" {
      assert (x + [c] + rest)[1..] == x[1..] + [c] + rest;
      FindHere(x[1..], c, rest);
    }
  }

  lemma {:induction false} FindNone(s: string, c: char)
    requires c !in s
    ensures Find(s, c) == |s|
  {
    if s != "" { FindNone(s[1..], c); }
  }

  lemma LinesCons(x: string, rest: string)
    requires '\n' !in x
    ensures Lines(x + "\n" + rest) == [Chomp(x)] + Lines(rest)
  {
    FindHere(x, '\n', rest);
    var s := x + "\n" + rest;
    assert s == x + ['\n'] + rest && s[..|x|] == x && s[|x| + 1..] == rest;
  }

  lemma {:induction false} TrimEndAppend(s: string, tail: string)
    requires forall i | 0 <= i < |tail| :: White(tail[i])
    ensures TrimEnd(s + tail) == TrimEnd(s)
  {
    if tail == "" {
      assert s + tail == s;
    } else {
      assert (s + tail)[..|s + tail| - 1] == s + tail[..|tail| - 1];
      TrimEndAppend(s, tail[..|tail| - 1]);
    }
  }

  lemma {:induction false} TrimEndPrefix(s: string) returns (tail: string)
    ensures s == TrimEnd(s) + tail && forall i | 0 <= i < |tail| :: White(tail[i])
    ensures TrimEnd(s) != "" ==> !White(TrimEnd(s)[|TrimEnd(s)| - 1])
  {
    tail := "";
    if s != "" && White(s[|s| - 1]) {
      var t := TrimEndPrefix(s[..|s| - 1]);
      tail := t + [s[|s| - 1]];
    }
  }

  predicate IsDigit(c: char) { '0' <= c <= '9' }

  predicate AllDigits(s: string) { forall i | 0 <= i < |s| :: IsDigit(s[i]) }

  /** The number a string of digits spells. */
  function DecimalValue(s: string): nat {
    if s == "" then 0
    else
      var last := s[|s| - 1];
      DecimalValue(s[..|s| - 1]) * 10 + (if IsDigit(last) then last as nat - '0' as nat else 0)
  }

  function LowerChar(c: char): char {
    if 'A' <= c <= 'Z' then (c as int - 'A' as int + 'a' as int) as char else c
  }

  function Lowercase(s: string): (r: string)
    ensures |r| == |s|
  {
    seq(|s|, i requires 0 <= i < |s| => LowerChar(s[i]))
  }

  function Digit(n: nat): char
    requires n < 10
  {
    ['0', '1', '2', '3', '4', '5', '6', '7', '8', '9'][n]
  }

  function Decimal(n: nat): (s: string)
    ensures s != []
  {
    if n < 10 then [Digit(n)] else Decimal(n / 10) + [Digit(n % 10)]
  }

  /** `s` spells `n` in decimal, with zeros in front or none. */
  ghost predicate Spells(s: string, n: nat) {
    exists k | 0 <= k <= |s| :: (forall i | 0 <= i < k :: s[i] == '0') && s[k..] == Decimal(n)
  }

  lemma ReadLast(front: string, d: nat)
    requires d < 10
    ensures DecimalValue(front + [Digit(d)]) == DecimalValue(front) * 10 + d
    ensures AllDigits(front) ==> AllDigits(front + [Digit(d)])
  {
    var s := front + [Digit(d)];
    assert s[..|s| - 1] == front && s[|s| - 1] == Digit(d);
    DigitIs(d);
  }

  lemma DigitIs(d: nat)
    requires d < 10
    ensures IsDigit(Digit(d)) && Digit(d) as nat == '0' as nat + d
  {
  }

  lemma {:induction false} DecimalIsRead(zeros: string, n: nat)
    requires forall i | 0 <= i < |zeros| :: zeros[i] == '0'
    ensures AllDigits(zeros + Decimal(n)) && DecimalValue(zeros + Decimal(n)) == n
  {
    hide DecimalValue, Digit, AllDigits;
    if n < 10 {
      ZerosAreRead(zeros);
      ReadLast(zeros, n);
    } else {
      assert zeros + Decimal(n) == zeros + Decimal(n / 10) + [Digit(n % 10)];
      DecimalIsRead(zeros, n / 10);
      ReadLast(zeros + Decimal(n / 10), n % 10);
    }
  }

  lemma {:induction false} ZerosAreRead(zeros: string)
    requires forall i | 0 <= i < |zeros| :: zeros[i] == '0'
    ensures AllDigits(zeros) && DecimalValue(zeros) == 0
  {
    if zeros != "" { ZerosAreRead(zeros[..|zeros| - 1]); }
  }

  lemma DecimalStep(m: nat, d: nat)
    requires m > 0 && d < 10
    ensures Decimal(m * 10 + d) == Decimal(m) + [Digit(d)]
  {
    assert (m * 10 + d) / 10 == m && (m * 10 + d) % 10 == d;
  }

  lemma SpellsNext(front: string, m: nat, d: nat)
    requires m > 0 && d < 10 && Spells(front, m)
    ensures Spells(front + [Digit(d)], m * 10 + d)
  {
    hide Digit;
    DecimalStep(m, d);
    hide Decimal;
    var s := front + [Digit(d)];
    var k :| 0 <= k <= |front| && (forall i | 0 <= i < k :: front[i] == '0') && front[k..] == Decimal(m);
    assert s[k..] == front[k..] + [Digit(d)];
    assert forall i | 0 <= i < k :: s[i] == front[i];
  }

  lemma {:induction false} DigitsSpell(s: string)
    requires s != "" && AllDigits(s)
    ensures Spells(s, DecimalValue(s))
  {
    var front, last := s[..|s| - 1], s[|s| - 1];
    var d := last as nat - '0' as nat;
    assert last == Digit(d);
    assert s == front + [last];
    if DecimalValue(front) == 0 {
      AllZeros(front);
      assert s[|front|..] == Decimal(d);
    } else {
      DigitsSpell(front);
      SpellsNext(front, DecimalValue(front), d);
    }
  }

  lemma {:induction false} AllZeros(s: string)
    requires AllDigits(s) && DecimalValue(s) == 0
    ensures forall i | 0 <= i < |s| :: s[i] == '0'
  {
    if s != "" { AllZeros(s[..|s| - 1]); }
  }

  /** A text spells exactly one number if it is digits, and none otherwise. */
  lemma {:induction false} SpellsIs(s: string, n: nat)
    ensures Spells(s, n) <==> s != "" && AllDigits(s) && DecimalValue(s) == n
  {
    hide Decimal, DecimalValue;
    if Spells(s, n) {
      var k :| 0 <= k <= |s| && (forall i | 0 <= i < k :: s[i] == '0') && s[k..] == Decimal(n);
      assert s == s[..k] + Decimal(n);
      DecimalIsRead(s[..k], n);
    }
    if s != "" && AllDigits(s) { DigitsSpell(s); }
  }

  function Signed(n: int): string {
    if n < 0 then "-" + Decimal(-n) else Decimal(n)
  }

  function Join(parts: seq<string>, separator: string): string {
    if parts == [] then "" else if |parts| == 1 then parts[0]
    else parts[0] + separator + Join(parts[1..], separator)
  }

  function SplitOn(s: string, c: char): (parts: seq<string>)
    ensures parts != []
    decreases |s|
  {
    var i := Find(s, c);
    if i == |s| then [s] else [s[..i]] + SplitOn(s[i + 1..], c)
  }

  lemma SplitLast(part: string, c: char)
    requires c !in part
    ensures SplitOn(part, c) == [part]
  {
    FindNone(part, c);
  }

  lemma SplitHead(part: string, c: char, rest: string)
    requires c !in part
    ensures SplitOn(part + [c] + rest, c) == [part] + SplitOn(rest, c)
  {
    hide Find;
    FindHere(part, c, rest);
    var s := part + [c] + rest;
    assert s[..|part|] == part && s[|part| + 1..] == rest;
  }

  lemma {:induction false} SplitPartsLack(s: string, c: char)
    ensures forall i | 0 <= i < |SplitOn(s, c)| :: c !in SplitOn(s, c)[i]
    decreases |s|
  {
    var i := Find(s, c);
    if i < |s| { SplitPartsLack(s[i + 1..], c); }
  }

  predicate Trimmed(s: string) {
    s == "" || (!White(s[0]) && !White(s[|s| - 1]))
  }

  lemma {:induction false} TrimStartTrims(s: string)
    ensures TrimStart(s) == "" || !White(TrimStart(s)[0])
  {
    if s != "" { TrimStartTrims(s[1..]); }
  }

  lemma {:induction false} TrimEndTrims(s: string)
    requires s == "" || !White(s[0])
    ensures Trimmed(TrimEnd(s))
  {
    if s != "" { TrimEndTrims(s[..|s| - 1]); }
  }

  lemma TrimTrims(s: string)
    ensures Trimmed(Trim(s))
  {
    TrimStartTrims(s);
    TrimEndTrims(TrimStart(s));
  }

  lemma TrimOfTrimmed(s: string)
    requires Trimmed(s)
    ensures Trim(s) == s
  {
    assert TrimStart(s) == s;
  }

  predicate AllWhite(s: string) { forall i | 0 <= i < |s| :: White(s[i]) }

  /** `t` is `s` without the white space at both ends. */
  ghost predicate Trims(s: string, t: string) {
    Trimmed(t) && exists i, j | 0 <= i <= j <= |s| :: s[i..j] == t && AllWhite(s[..i]) && AllWhite(s[j..])
  }

  lemma {:induction false} TrimStartSkips(a: string, b: string)
    requires AllWhite(a) && (b == "" || !White(b[0]))
    ensures TrimStart(a + b) == b
  {
    if a == "" {
      assert a + b == b;
    } else {
      assert (a + b)[1..] == a[1..] + b;
      TrimStartSkips(a[1..], b);
    }
  }

  lemma {:induction false} TrimStartSuffix(s: string) returns (i: nat)
    ensures i <= |s| && TrimStart(s) == s[i..] && AllWhite(s[..i])
  {
    i := 0;
    if s != "" && White(s[0]) {
      var k := TrimStartSuffix(s[1..]);
      i := k + 1;
      forall n | 0 <= n < i ensures White(s[..i][n]) {
        if n > 0 { assert s[..i][n] == s[1..][..k][n - 1]; }
      }
    }
  }

  lemma {:induction false} TrimsTrim(s: string, t: string)
    requires Trims(s, t)
    ensures Trim(s) == t
  {
    hide Trim, AllWhite, Trimmed;
    var i, j :| 0 <= i <= j <= |s| && s[i..j] == t && AllWhite(s[..i]) && AllWhite(s[j..]);
    TrimBetween(s[..i], t, s[j..]);
    assert s == s[..i] + (t + s[j..]);
  }

  lemma {:induction false} TrimBetween(a: string, t: string, b: string)
    requires Trimmed(t) && AllWhite(a) && AllWhite(b)
    ensures Trim(a + (t + b)) == t
  {
    hide White;
    if t == "" {
      assert a + (t + b) == (a + b) + "";
      TrimStartSkips(a + b, "");
    } else {
      assert (t + b)[0] == t[0];
      TrimStartSkips(a, t + b);
      TrimEndAppend(t, b);
    }
  }

  /** Trimming takes off the white space at both ends and nothing else. */
  lemma {:induction false} TrimIs(s: string, t: string)
    ensures Trims(s, t) <==> t == Trim(s)
  {
    if Trims(s, t) { TrimsTrim(s, t); }
    if t == Trim(s) { TrimTrimsOff(s); }
  }

  lemma {:induction false} TrimTrimsOff(s: string)
    ensures Trims(s, Trim(s))
  {
    hide TrimStart, TrimEnd, White;
    var i := TrimStartSuffix(s);
    var rest, t := TrimStart(s), Trim(s);
    var tail := TrimEndPrefix(rest);
    var j := |s| - |tail|;
    assert rest == t + tail;
    assert s[i..j] == rest[..|t|] == t && s[j..] == rest[|t|..] == tail;
    TrimTrims(s);
  }

  /** Between quotes, every backslash takes the next character with it and no other quote stands alone. */
  predicate Inside(s: string) {
    s == "" || (if s[0] == '\\' then |s| >= 2 && Inside(s[2..]) else s[0] != '"' && Inside(s[1..]))
  }

  predicate Quotation(t: string) {
    |t| >= 2 && t[0] == '"' && t[|t| - 1] == '"' && Inside(t[1..|t| - 1])
  }
}
