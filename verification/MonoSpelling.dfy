/**
  How instance names spell types, and how much of a type can be read back.

  A name spells its types with every character but letters and digits turned into `_`, in
  lower case, and without `_` at the ends of each type. For plain types the brackets can be
  read back from the lengths of the gaps, so only the case of constant names is lost.
*/
module MonoSpelling {
  import opened Hir
  import opened TypeInference
  import opened MonoNames
  import opened Text

  // ---------------------------------------------------------------------------
  // Plain types
  // ---------------------------------------------------------------------------

  predicate WordChar(c: char) { 'a' <= c <= 'z' || IsDigit(c) }

  predicate Word(w: string) { w != "" && forall i | 0 <= i < |w| :: WordChar(w[i]) }

  /** Words that open a type with arguments. */
  const HEADS: set<string> :=
    {"optional", "list", "set", "range", "lazy", "future", "task", "channel", "result", "map", "tuple", "func", "def"}

  /** Begins like the index of a type argument in a name. */
  predicate Marked(w: string) { |w| > 1 && w[0] == 't' && IsDigit(w[1]) }

  predicate PlainWord(w: string) { Word(w) && !IsDigit(w[0]) && !Marked(w) && w !in HEADS }

  predicate PlainHead(h: Head) { Traversed(h) && !h.Opaque? }

  /**
    Built of one-word scalars, named and built-in type formers but opaque ones, and constants
    with a one-word name; type parameters are allowed.
  */
  predicate Plain(t: Ty) {
    match t
    case Scalar(name) => PlainWord(name)
    case ConstInt(name, _) => (forall i | 0 <= i < |name| :: Alphanumeric(name[i])) && PlainWord(Lowercase(name))
    case Param(_, _) => true
    case App(h, args) => PlainHead(h) && (args != [] || h.Named?) && forall i | 0 <= i < |args| :: Plain(args[i])
    case _ => false
  }

  predicate Ground(t: Ty) { Plain(t) && !HasParam(t) }

  /** The type with its constants named in lower case. */
  function Folded(t: Ty): Ty {
    match t
    case ConstInt(name, value) => ConstInt(Lowercase(name), value)
    case App(h, args) => App(h, seq(|args|, i requires 0 <= i < |args| => Folded(args[i])))
    case _ => t
  }

  lemma GroundArgs(t: Ty)
    requires Ground(t) && t.App?
    ensures forall i | 0 <= i < |t.args| :: Ground(t.args[i])
  {
  }

  // ---------------------------------------------------------------------------
  // The spelling of a plain type
  // ---------------------------------------------------------------------------

  function Line(n: nat): string { seq(n, _ => '_') }

  function FirstOf(h: Head): string {
    match h
    case TaskJob => "task"
    case Channel => "channel"
    case Named(_) => "def"
    case _ => HeadName(h)
  }

  function Open(h: Head): string {
    match h
    case TaskJob => "_job_"
    case Channel => "_channel_"
    case _ => "_"
  }

  /** Gap before the first word, first word, and what follows it. */
  function Lead(t: Ty): nat { if t.App? && t.head.Named? then 1 else 0 }

  function First(t: Ty): string {
    match t
    case Scalar(name) => name
    case ConstInt(name, _) => Lowercase(name)
    case App(h, _) => FirstOf(h)
    case _ => ""
  }

  function NumberCode(v: int): string { if v < 0 then "_" + Decimal(-v) else Decimal(v) }

  function SignGap(v: int): nat { if v < 0 then 1 else 0 }

  function Magnitude(v: int): nat { if v < 0 then -v else v }

  function Rest(t: Ty): string
    decreases t, 0
  {
    match t
    case ConstInt(_, value) => "__" + NumberCode(value)
    case App(h, args) =>
      if h.Func? && args != [] then "_" + (CodeList(args[..|args| - 1]) + ("_____" + Code(args[|args| - 1])))
      else if h.Named? then "_defid_" + Decimal(h.def) + "__" + (if args == [] then "" else "_" + CodeList(args) + "_")
      else Open(h) + CodeList(args) + "_"
    case _ => ""
  }

  function Code(t: Ty): string
    decreases t, 1
  {
    Line(Lead(t)) + First(t) + Rest(t)
  }

  function CodeList(ts: seq<Ty>): string
    decreases ts
  {
    if ts == [] then "" else if |ts| == 1 then Code(ts[0]) else Code(ts[0]) + "__" + CodeList(ts[1..])
  }

  lemma CleanedAppend(a: string, b: string)
    ensures Cleaned(a + b) == Cleaned(a) + Cleaned(b)
  {
  }

  lemma CleanedWord(w: string)
    requires forall i | 0 <= i < |w| :: Alphanumeric(w[i])
    ensures Cleaned(w) == Lowercase(w)
    ensures Word(w) ==> Lowercase(w) == w
  {
  }

  lemma {:induction false} DecimalIsWord(n: nat)
    ensures Word(Decimal(n)) && forall i | 0 <= i < |Decimal(n)| :: IsDigit(Decimal(n)[i])
  {
    if n >= 10 { DecimalIsWord(n / 10); }
  }

  lemma CleanedDecimal(n: nat)
    ensures Cleaned(Decimal(n)) == Decimal(n)
  {
    DecimalIsWord(n);
    CleanedWord(Decimal(n));
  }

  lemma CleanedMinus(s: string)
    ensures Cleaned("-" + s) == "_" + Cleaned(s)
  {
    CleanedAppend("-", s);
    assert Cleaned("-") == "_";
  }

  lemma CleanedSigned(v: int)
    ensures Cleaned(Signed(v)) == NumberCode(v)
  {
    hide Decimal, Cleaned;
    if v < 0 {
      CleanedMinus(Decimal(-v));
      CleanedDecimal(-v);
    } else {
      CleanedDecimal(v);
    }
  }

  lemma {:induction false} CodeListIsCleaned(ts: seq<Ty>)
    requires forall i | 0 <= i < |ts| :: Cleaned(Display(ts[i])) == Code(ts[i])
    ensures Cleaned(Join(DisplayAll(ts), ", ")) == CodeList(ts)
  {
    if |ts| > 1 {
      CodeListIsCleaned(ts[1..]);
      assert DisplayAll(ts)[1..] == DisplayAll(ts[1..]);
      var rest := Join(DisplayAll(ts[1..]), ", ");
      CleanedAppend(Display(ts[0]) + ", ", rest);
      CleanedAppend(Display(ts[0]), ", ");
      assert Cleaned(", ") == "__";
    }
  }

  lemma CleanedOpen(h: Head)
    requires PlainHead(h) && !h.Func? && !h.Named?
    ensures Cleaned(HeadName(h) + "[") == FirstOf(h) + Open(h)
  {
    if h.TaskJob? || h.Channel? { CleanedDotted(h); }
    else if h.Optional? || h.List? || h.Set? || h.Range? { CleanedShort(h); }
    else { CleanedLong(h); }
  }

  lemma CleanedDotted(h: Head)
    requires h.TaskJob? || h.Channel?
    ensures Cleaned(HeadName(h) + "[") == FirstOf(h) + Open(h)
  {
  }

  lemma CleanedShort(h: Head)
    requires h.Optional? || h.List? || h.Set? || h.Range?
    ensures Cleaned(HeadName(h) + "[") == FirstOf(h) + Open(h)
  {
  }

  lemma CleanedLong(h: Head)
    requires h.Lazy? || h.Future? || h.Result? || h.Map? || h.Tuple?
    ensures Cleaned(HeadName(h) + "[") == FirstOf(h) + Open(h)
  {
  }

  lemma CleanedNamed(def: nat)
    ensures Cleaned(DefName(def)) == "_def" + "_defid_" + Decimal(def) + "__"
  {
    CleanedDecimal(def);
    CleanedAppend("<def DefId(" + Decimal(def), ")>");
    CleanedAppend("<def DefId(", Decimal(def));
    assert Cleaned("<def DefId(") == "_def_defid_";
    assert Cleaned(")>") == "__";
  }

  lemma CleanedBracket(open: string, inner: string)
    ensures Cleaned(open + "[" + inner + "]") == Cleaned(open + "[") + Cleaned(inner) + "_"
    ensures Cleaned(open + "[") == Cleaned(open) + "_"
  {
    CleanedAppend(open + "[" + inner, "]");
    CleanedAppend(open + "[", inner);
    assert Cleaned("]") == "_";
  }

  lemma CleanedFunc(inner: string, ret: string)
    ensures Cleaned("func(" + inner + ") -> " + ret) == "func_" + (Cleaned(inner) + ("_____" + Cleaned(ret)))
  {
    hide Cleaned;
    Assoc("func(" + inner, ") -> ", ret);
    Assoc("func(", inner, ") -> " + ret);
    CleanedAppend("func(", inner + (") -> " + ret));
    CleanedAppend(inner, ") -> " + ret);
    CleanedAppend(") -> ", ret);
    ArrowCleaned();
  }

  lemma ArrowCleaned()
    ensures Cleaned("func(") == "func_" && Cleaned(") -> ") == "_____"
  {
  }

  lemma Assoc(a: string, b: string, c: string)
    ensures a + (b + c) == a + b + c
  {
  }

  lemma ConstIsCleaned(name: string, value: int)
    requires forall i | 0 <= i < |name| :: Alphanumeric(name[i])
    ensures Cleaned(name + ": " + Signed(value)) == Lowercase(name) + "__" + NumberCode(value)
  {
    CleanedWord(name);
    CleanedSigned(value);
    CleanedAppend(name + ": ", Signed(value));
    CleanedAppend(name, ": ");
    assert Cleaned(": ") == "__";
  }

  lemma FuncIsCleaned(args: seq<Ty>)
    requires args != [] && forall i | 0 <= i < |args| :: Cleaned(Display(args[i])) == Code(args[i])
    ensures Cleaned(Display(App(Head.Func, args))) == Code(App(Head.Func, args))
  {
    hide Cleaned, CodeList, Join, Display, Code;
    var ps, ret := args[..|args| - 1], args[|args| - 1];
    CodeListIsCleaned(ps);
    DisplayFunc(args);
    CodeFunc(args);
    CleanedFunc(Join(DisplayAll(ps), ", "), Display(ret));
  }

  lemma DisplayFunc(args: seq<Ty>)
    requires args != []
    ensures Display(App(Head.Func, args)) == "func(" + Join(DisplayAll(args[..|args| - 1]), ", ") + ") -> " + Display(args[|args| - 1])
  {
    hide Join;
    assert DisplayAll(args)[..|args| - 1] == DisplayAll(args[..|args| - 1]);
  }

  lemma CodeFunc(args: seq<Ty>)
    requires args != []
    ensures Code(App(Head.Func, args)) == "func_" + (CodeList(args[..|args| - 1]) + ("_____" + Code(args[|args| - 1])))
  {
    RestFunc(args);
    hide CodeList, Rest;
    var t := App(Head.Func, args);
    assert Code(t) == Line(0) + "func" + Rest(t);
    Splice("func", CodeList(args[..|args| - 1]) + ("_____" + Code(args[|args| - 1])));
  }

  lemma RestFunc(args: seq<Ty>)
    requires args != []
    ensures Rest(App(Head.Func, args)) == "_" + (CodeList(args[..|args| - 1]) + ("_____" + Code(args[|args| - 1])))
  {
    hide CodeList, Code;
  }

  lemma Splice(word: string, rest: string)
    ensures Line(0) + word + ("_" + rest) == word + "_" + rest
  {
    assert Line(0) + word == word;
    Assoc(word, "_", rest);
  }

  lemma NamedIsCleaned(def: nat, args: seq<Ty>)
    requires forall i | 0 <= i < |args| :: Cleaned(Display(args[i])) == Code(args[i])
    ensures Cleaned(Display(App(Named(def), args))) == Code(App(Named(def), args))
  {
    hide Cleaned, CodeList, Join, Decimal, DefName, Code;
    CodeListIsCleaned(args);
    CleanedNamed(def);
    CodeNamed(def, args);
    if args != [] { CleanedBracket(DefName(def), Join(DisplayAll(args), ", ")); }
  }

  lemma CodeNamed(def: nat, args: seq<Ty>)
    ensures
      var name := "_def" + "_defid_" + Decimal(def) + "__";
      Code(App(Named(def), args)) == if args == [] then name else name + "_" + CodeList(args) + "_"
  {
    hide CodeList, Decimal;
    assert Line(1) == "_";
    var name := "_def" + "_defid_" + Decimal(def) + "__";
    assert "_def" + ("_defid_" + Decimal(def) + "__" + "") == name;
    assert "_def" + ("_defid_" + Decimal(def) + "__" + ("_" + CodeList(args) + "_")) == name + "_" + CodeList(args) + "_";
  }

  lemma BracketIsCleaned(h: Head, args: seq<Ty>)
    requires PlainHead(h) && !h.Func? && !h.Named?
    requires forall i | 0 <= i < |args| :: Cleaned(Display(args[i])) == Code(args[i])
    ensures Cleaned(Display(App(h, args))) == Code(App(h, args))
  {
    hide Cleaned, CodeList, Join, HeadName, FirstOf, Open;
    CodeListIsCleaned(args);
    CleanedOpen(h);
    CleanedBracket(HeadName(h), Join(DisplayAll(args), ", "));
    assert Line(0) == "";
  }

  lemma ScalarIsCleaned(t: Ty)
    requires Ground(t) && !t.App?
    ensures Cleaned(Display(t)) == Code(t)
  {
    hide Cleaned, Decimal;
    match t
    case Scalar(name) => CleanedWord(name);
    case ConstInt(name, value) => ConstIsCleaned(name, value);
  }

  lemma {:induction false} CodeIsCleaned(t: Ty)
    requires Ground(t)
    ensures Cleaned(Display(t)) == Code(t)
    decreases t
  {
    hide Cleaned, CodeList, Join, Display, Code;
    if !t.App? {
      ScalarIsCleaned(t);
    } else {
      var h, args := t.head, t.args;
      GroundArgs(t);
      forall i | 0 <= i < |args| ensures Cleaned(Display(args[i])) == Code(args[i]) { CodeIsCleaned(args[i]); }
      if h.Func? { FuncIsCleaned(args); } else if h.Named? { NamedIsCleaned(h.def, args); } else { BracketIsCleaned(h, args); }
    }
  }

  // ---------------------------------------------------------------------------
  // Reading a type back
  // ---------------------------------------------------------------------------

  /** Where a word is over. */
  predicate Tail(x: string) { x == "" || x[0] == '_' }

  predicate AllGaps(x: string) { forall i | 0 <= i < |x| :: x[i] == '_' }

  lemma LongerWord(v: string, w: string, x: string, y: string)
    requires Word(w) && |v| < |w| && Tail(x)
    ensures v + x != w + y
  {
    assert (w + y)[|v|] == w[|v|];
    assert x != "" ==> (v + x)[|v|] == x[0];
  }

  lemma WordCancel(v: string, w: string, x: string, y: string)
    requires Word(v) && Word(w) && Tail(x) && Tail(y) && v + x == w + y
    ensures v == w && x == y
  {
    if |v| < |w| { LongerWord(v, w, x, y); } else if |w| < |v| { LongerWord(w, v, y, x); }
    assert v == (v + x)[..|v|] && w == (w + y)[..|w|];
    assert x == (v + x)[|v|..] && y == (w + y)[|w|..];
  }

  lemma PrefixCancel(a: string, x: string, y: string)
    requires a + x == a + y
    ensures x == y
  {
    assert x == (a + x)[|a|..] && y == (a + y)[|a|..];
  }

  lemma LongerGap(p: nat, q: nat, x: string, y: string)
    requires !Tail(x) && p < q
    ensures Line(p) + x != Line(q) + y
  {
    assert (Line(p) + x)[p] == x[0] && (Line(q) + y)[p] == Line(q)[p];
  }

  /** Gaps of different lengths are told apart by the words after them. */
  lemma GapCancel(p: nat, q: nat, x: string, y: string)
    requires !Tail(x) && !Tail(y) && Line(p) + x == Line(q) + y
    ensures p == q && x == y
  {
    if p < q { LongerGap(p, q, x, y); } else if q < p { LongerGap(q, p, y, x); }
    PrefixCancel(Line(p), x, y);
  }

  lemma FirstIsWord(t: Ty)
    requires Ground(t)
    ensures Word(First(t)) && !IsDigit(First(t)[0]) && !Marked(First(t)) && Tail(Rest(t))
  {
    hide CodeList, Code, Decimal;
    if t.App? && t.head.Func? { assert Tail("_" + (CodeList(t.args[..|t.args| - 1]) + ("_____" + Code(t.args[|t.args| - 1])))); }
  }

  lemma TailAppend(a: string, b: string)
    requires Tail(a) && Tail(b)
    ensures Tail(a + b)
  {
  }

  /** From a gap on, the same text means the same gap, first word and rest. */
  lemma SameStart(p: nat, q: nat, t: Ty, u: Ty, x: string, y: string)
    requires Ground(t) && Ground(u) && Tail(x) && Tail(y)
    requires Line(p) + (Code(t) + x) == Line(q) + (Code(u) + y)
    ensures p == q && Lead(t) == Lead(u) && First(t) == First(u) && Rest(t) + x == Rest(u) + y && Code(t) + x == Code(u) + y
  {
    hide Line, Rest, First, Lead;
    FirstIsWord(t);
    FirstIsWord(u);
    TailAppend(Rest(t), x);
    TailAppend(Rest(u), y);
    Regroup(p, t, x);
    Regroup(q, u, y);
    GapCancel(p + Lead(t), q + Lead(u), First(t) + (Rest(t) + x), First(u) + (Rest(u) + y));
    WordCancel(First(t), First(u), Rest(t) + x, Rest(u) + y);
    SameLead(t, u);
    PrefixCancel(Line(p), Code(t) + x, Code(u) + y);
  }

  lemma Regroup(p: nat, t: Ty, x: string)
    ensures Line(p) + (Code(t) + x) == Line(p + Lead(t)) + (First(t) + (Rest(t) + x))
  {
    hide Rest, First;
    assert Line(p + Lead(t)) == Line(p) + Line(Lead(t));
  }

  lemma SameLead(t: Ty, u: Ty)
    requires Ground(t) && Ground(u) && First(t) == First(u)
    ensures Lead(t) == Lead(u)
  {
  }

  /**
    What may follow a type of which no argument is open: gaps only, or a gap of at least `n`
    and another type. After an argument of an open type the gap is longer by its bracket.
  */
  ghost predicate Stops(x: string, n: nat) {
    Tail(x) && (AllGaps(x) || exists p: nat, c, r :: p >= n && Follows(x, p, c, r))
  }

  predicate Follows(x: string, p: nat, c: Ty, r: string) {
    Ground(c) && Tail(r) && x == Line(p) + (Code(c) + r)
  }

  lemma ClosingStops(x: string, n: nat)
    requires Stops(x, n)
    ensures Stops("_" + x, n + 1)
  {
    hide Code, Ground;
    if !AllGaps(x) {
      var p: nat, c, r :| p >= n && Follows(x, p, c, r);
      assert Line(p + 1) == "_" + Line(p);
      Assoc("_", Line(p), Code(c) + r);
      assert Follows("_" + x, p + 1, c, r);
    }
  }

  lemma TypeStops(p: nat, c: Ty, r: string)
    requires Ground(c) && Tail(r) && p >= 2
    ensures Stops(Line(p) + (Code(c) + r), p)
  {
    hide Code, Ground;
    assert Follows(Line(p) + (Code(c) + r), p, c, r);
    assert Line(p)[0] == '_';
  }

  lemma StopsLess(x: string, m: nat, n: nat)
    requires Stops(x, n) && m <= n
    ensures Stops(x, m)
  {
    hide Follows;
  }

  /** A longer gap is needed to go on after a type than the one before a further argument. */
  lemma NoShortGap(x: string, n: nat, p: nat, c: Ty, r: string)
    requires Stops(x, n) && p < n && Ground(c) && Tail(r)
    ensures x != Line(p) + (Code(c) + r)
  {
    hide Code, Ground, First, Line;
    NotAllGaps(p, c, r);
    forall q: nat, b, s | q >= n && Follows(x, q, b, s) ensures x != Line(p) + (Code(c) + r) {
      if x == Line(p) + (Code(c) + r) { SameStart(p, q, c, b, r, s); }
    }
  }

  lemma NotAllGaps(p: nat, c: Ty, r: string)
    requires Ground(c)
    ensures !AllGaps(Line(p) + (Code(c) + r))
  {
    hide Rest, First, Ground;
    FirstIsWord(c);
    Regroup(p, c, r);
    var x := Line(p + Lead(c)) + (First(c) + (Rest(c) + r));
    assert x[p + Lead(c)] == First(c)[0];
  }

  lemma NoNumber(x: string, v: int, y: string)
    requires Stops(x, 2) && Tail(y)
    ensures x != "__" + (NumberCode(v) + y)
  {
    hide Decimal, Ground, Code, Line, NumberCode;
    var p, number := 2 + SignGap(v), Decimal(Magnitude(v));
    DecimalIsWord(Magnitude(v));
    NumberAfterGap(v, y);
    NumberIsNoGap(p, number, y);
    forall q: nat, b, s | q >= 2 && Follows(x, q, b, s) ensures x != Line(p) + (number + y) {
      NumberIsNoType(p, number, y, q, b, s);
    }
  }

  lemma NumberAfterGap(v: int, y: string)
    ensures NumberCode(v) + y == Line(SignGap(v)) + (Decimal(Magnitude(v)) + y)
    ensures "__" + (NumberCode(v) + y) == Line(2 + SignGap(v)) + (Decimal(Magnitude(v)) + y)
  {
    hide Decimal;
    var rest := Decimal(Magnitude(v)) + y;
    Assoc(Line(SignGap(v)), Decimal(Magnitude(v)), y);
    assert NumberCode(v) == Line(SignGap(v)) + Decimal(Magnitude(v));
    Assoc("__", Line(SignGap(v)), rest);
    assert "__" + Line(SignGap(v)) == Line(2 + SignGap(v));
  }

  lemma NumberIsNoGap(p: nat, number: string, y: string)
    requires Word(number)
    ensures !AllGaps(Line(p) + (number + y))
  {
    assert (Line(p) + (number + y))[p] == number[0];
  }

  lemma NumberIsNoType(p: nat, number: string, y: string, q: nat, b: Ty, s: string)
    requires Word(number) && IsDigit(number[0]) && Tail(y) && Ground(b)
    ensures Line(p) + (number + y) != Line(q) + (Code(b) + s)
  {
    hide Rest, First, Ground, Code, Line;
    FirstIsWord(b);
    Regroup(q, b, s);
    var n, f := number + y, First(b) + (Rest(b) + s);
    assert n[0] == number[0] && f[0] == First(b)[0];
    if Line(p) + n == Line(q + Lead(b)) + f { GapCancel(p, q + Lead(b), n, f); }
  }

  lemma {:induction false} DecimalInjective(m: nat, n: nat)
    requires Decimal(m) == Decimal(n)
    ensures m == n
  {
    if m >= 10 && n >= 10 {
      var a, b := Decimal(m / 10), Decimal(n / 10);
      assert a == Decimal(m)[..|a|] && b == Decimal(n)[..|b|];
      DecimalInjective(m / 10, n / 10);
      assert Decimal(m)[|a|] == Digit(m % 10) && Decimal(n)[|b|] == Digit(n % 10);
    }
  }

  lemma NumbersCancel(v: int, w: int, x: string, y: string)
    requires Tail(x) && Tail(y) && NumberCode(v) + x == NumberCode(w) + y
    ensures v == w && x == y
  {
    hide Decimal, NumberCode, Line;
    DecimalIsWord(Magnitude(v));
    DecimalIsWord(Magnitude(w));
    NumberAfterGap(v, x);
    NumberAfterGap(w, y);
    GapCancel(SignGap(v), SignGap(w), Decimal(Magnitude(v)) + x, Decimal(Magnitude(w)) + y);
    WordCancel(Decimal(Magnitude(v)), Decimal(Magnitude(w)), x, y);
    DecimalInjective(Magnitude(v), Magnitude(w));
  }

  // ---------------------------------------------------------------------------
  // Types from their spelling
  // ---------------------------------------------------------------------------

  predicate SameFolded(ts: seq<Ty>, us: seq<Ty>) {
    |ts| == |us| && forall i | 0 <= i < |ts| :: Folded(ts[i]) == Folded(us[i])
  }

  lemma StopsTail(x: string, n: nat)
    requires Stops(x, n)
    ensures Tail(x)
  {
  }

  /** A type is read back up to the case of its constants, together with what follows it. */
  lemma {:induction false} Cancel(t: Ty, u: Ty, x: string, y: string)
    requires Ground(t) && Ground(u) && Stops(x, 2) && Stops(y, 2) && Code(t) + x == Code(u) + y
    ensures Folded(t) == Folded(u) && x == y
    decreases t, 1
  {
    hide Stops, Code, Rest, Ground, Line;
    StopsTail(x, 2);
    StopsTail(y, 2);
    assert Line(0) + (Code(t) + x) == Line(0) + (Code(u) + y);
    SameStart(0, 0, t, u, x, y);
    SameKind(t, u);
    if t.App? {
      GroundArgs(t);
      GroundArgs(u);
      if t.head.Func? { FuncCancel(t.args, u.args, x, y); }
      else if t.head.Named? { NamedCancel(t.head.def, u.head.def, t.args, u.args, x, y); }
      else { BracketCancel(t.head, t.args, u.args, x, y); }
      FoldedArgs(t, u);
    } else {
      LeafCancel(t, u, x, y);
    }
  }

  lemma FoldedArgs(t: Ty, u: Ty)
    requires t.App? && u.App? && t.head == u.head && SameFolded(t.args, u.args)
    ensures Folded(t) == Folded(u)
  {
  }

  lemma SameKind(t: Ty, u: Ty)
    requires Ground(t) && Ground(u) && First(t) == First(u)
    ensures t.App? <==> u.App?
    ensures t.App? ==> (t.head == u.head || (t.head.Named? && u.head.Named?)) && (t.head.Named? || (t.args != [] && u.args != []))
  {
    assert t.App? ==> First(t) in HEADS;
    assert u.App? ==> First(u) in HEADS;
  }

  lemma LeafCancel(t: Ty, u: Ty, x: string, y: string)
    requires Ground(t) && Ground(u) && !t.App? && !u.App? && First(t) == First(u)
    requires Stops(x, 2) && Stops(y, 2) && Rest(t) + x == Rest(u) + y
    ensures Folded(t) == Folded(u) && x == y
  {
    hide Stops, Ground, Code;
    StopsTail(x, 2);
    StopsTail(y, 2);
    assert (t.Scalar? || t.ConstInt?) && (u.Scalar? || u.ConstInt?) by { LeafForms(t); LeafForms(u); }
    if t.Scalar? && u.ConstInt? {
      Assoc("__", NumberCode(u.value), y);
      NoNumber(x, u.value, y);
    } else if t.ConstInt? && u.Scalar? {
      Assoc("__", NumberCode(t.value), x);
      NoNumber(y, t.value, x);
    } else if t.ConstInt? {
      Assoc("__", NumberCode(t.value), x);
      Assoc("__", NumberCode(u.value), y);
      PrefixCancel("__", NumberCode(t.value) + x, NumberCode(u.value) + y);
      NumbersCancel(t.value, u.value, x, y);
    } else {
      assert Rest(t) + x == x && Rest(u) + y == y;
    }
  }

  lemma LeafForms(t: Ty)
    requires Ground(t) && !t.App?
    ensures t.Scalar? || t.ConstInt?
  {
  }

  lemma {:induction false} BracketCancel(h: Head, ts: seq<Ty>, us: seq<Ty>, x: string, y: string)
    requires !h.Func? && !h.Named? && ts != [] && us != []
    requires (forall i | 0 <= i < |ts| :: Ground(ts[i])) && (forall i | 0 <= i < |us| :: Ground(us[i]))
    requires Stops(x, 2) && Stops(y, 2) && Rest(App(h, ts)) + x == Rest(App(h, us)) + y
    ensures SameFolded(ts, us) && x == y
    decreases ts, 1
  {
    hide Stops, Ground, Code, CodeList, Open;
    Bracketed(h, ts, x);
    Bracketed(h, us, y);
    PrefixCancel(Open(h), CodeList(ts) + ("_" + x), CodeList(us) + ("_" + y));
    ClosingStops(x, 2);
    ClosingStops(y, 2);
    ListCancel(ts, us, "_" + x, "_" + y);
    PrefixCancel("_", x, y);
  }

  lemma Bracketed(h: Head, ts: seq<Ty>, x: string)
    requires !h.Func? && !h.Named?
    ensures Rest(App(h, ts)) + x == Open(h) + (CodeList(ts) + ("_" + x))
  {
    hide CodeList, Open, Code;
    Assoc(Open(h) + CodeList(ts), "_", x);
    Assoc(Open(h), CodeList(ts), "_" + x);
  }

  lemma {:induction false} NamedCancel(d: nat, e: nat, ts: seq<Ty>, us: seq<Ty>, x: string, y: string)
    requires (forall i | 0 <= i < |ts| :: Ground(ts[i])) && (forall i | 0 <= i < |us| :: Ground(us[i]))
    requires Stops(x, 2) && Stops(y, 2) && Rest(App(Named(d), ts)) + x == Rest(App(Named(e), us)) + y
    ensures d == e && SameFolded(ts, us) && x == y
    decreases ts, 1
  {
    hide Stops, Ground, Code, CodeList, Decimal;
    var p, q := AfterName(ts, x), AfterName(us, y);
    NamedRest(d, ts, x);
    NamedRest(e, us, y);
    PrefixCancel("_defid_", Decimal(d) + ("__" + p), Decimal(e) + ("__" + q));
    DecimalIsWord(d);
    DecimalIsWord(e);
    WordCancel(Decimal(d), Decimal(e), "__" + p, "__" + q);
    DecimalInjective(d, e);
    PrefixCancel("__", p, q);
    if ts == [] && us != [] { ArgsAreNoStop(us, x, y); }
    else if us == [] && ts != [] { ArgsAreNoStop(ts, y, x); }
    else if ts != [] {
      PrefixCancel("_", CodeList(ts) + ("_" + x), CodeList(us) + ("_" + y));
      ClosingStops(x, 2);
      ClosingStops(y, 2);
      ListCancel(ts, us, "_" + x, "_" + y);
      PrefixCancel("_", x, y);
    }
  }

  /** What stands after the name of a named type. */
  function AfterName(ts: seq<Ty>, x: string): string {
    if ts == [] then x else "_" + (CodeList(ts) + ("_" + x))
  }

  lemma NamedRest(d: nat, ts: seq<Ty>, x: string)
    ensures Rest(App(Named(d), ts)) + x == "_defid_" + (Decimal(d) + ("__" + AfterName(ts, x)))
  {
    hide CodeList, Code, Decimal;
    var args := if ts == [] then "" else "_" + CodeList(ts) + "_";
    assert args + x == AfterName(ts, x) by {
      if ts != [] {
        Assoc("_" + CodeList(ts), "_", x);
        Assoc("_", CodeList(ts), "_" + x);
      }
    }
    assert Rest(App(Named(d), ts)) == "_defid_" + Decimal(d) + "__" + args;
    Assoc("_defid_" + Decimal(d) + "__", args, x);
    Assoc("_defid_" + Decimal(d), "__", args + x);
    Assoc("_defid_", Decimal(d), "__" + (args + x));
  }

  /** The list of arguments as its first one and what follows. */
  function AfterFirst(ts: seq<Ty>, x: string): string
    requires ts != []
  {
    if |ts| == 1 then x else "__" + (CodeList(ts[1..]) + x)
  }

  lemma ListSplits(ts: seq<Ty>, x: string)
    requires ts != []
    ensures CodeList(ts) + x == Code(ts[0]) + AfterFirst(ts, x)
  {
    hide Code;
    if |ts| > 1 {
      assert CodeList(ts) == Code(ts[0]) + "__" + CodeList(ts[1..]);
      Assoc(Code(ts[0]) + "__", CodeList(ts[1..]), x);
      Assoc(Code(ts[0]), "__", CodeList(ts[1..]) + x);
    }
  }

  lemma AfterFirstStops(ts: seq<Ty>, x: string)
    requires ts != [] && Stops(x, 3) && forall i | 0 <= i < |ts| :: Ground(ts[i])
    ensures Stops(AfterFirst(ts, x), 2) && Tail(AfterFirst(ts, x))
    decreases |ts|
  {
    hide Code, Ground, CodeList;
    if |ts| == 1 {
      StopsLess(x, 2, 3);
    } else {
      AfterFirstStops(ts[1..], x);
      ListSplits(ts[1..], x);
      TypeStops(2, ts[1], AfterFirst(ts[1..], x));
      assert Line(2) == "__";
    }
  }

  lemma ArgsAreNoStop(us: seq<Ty>, x: string, y: string)
    requires us != [] && (forall i | 0 <= i < |us| :: Ground(us[i])) && Stops(x, 2) && Stops(y, 2)
    ensures x != "_" + (CodeList(us) + ("_" + y))
  {
    hide Stops, Ground, Code, CodeList;
    ClosingStops(y, 2);
    AfterFirstStops(us, "_" + y);
    ListSplits(us, "_" + y);
    assert Line(1) == "_";
    NoShortGap(x, 2, 1, us[0], AfterFirst(us, "_" + y));
  }

  /** A further argument is no end of the list. */
  lemma MoreIsNoEnd(us: seq<Ty>, x: string, y: string)
    requires |us| > 1 && (forall i | 0 <= i < |us| :: Ground(us[i])) && Stops(x, 3) && Stops(y, 3)
    ensures x != AfterFirst(us, y)
  {
    hide Stops, Ground, Code, CodeList;
    AfterFirstStops(us[1..], y);
    ListSplits(us[1..], y);
    assert Line(2) == "__";
    NoShortGap(x, 3, 2, us[1], AfterFirst(us[1..], y));
  }

  lemma {:induction false} ListCancel(ts: seq<Ty>, us: seq<Ty>, x: string, y: string)
    requires ts != [] && us != []
    requires (forall i | 0 <= i < |ts| :: Ground(ts[i])) && (forall i | 0 <= i < |us| :: Ground(us[i]))
    requires Stops(x, 3) && Stops(y, 3) && CodeList(ts) + x == CodeList(us) + y
    ensures SameFolded(ts, us) && x == y
    decreases ts, 0
  {
    hide Stops, Ground, Code, CodeList;
    ListSplits(ts, x);
    ListSplits(us, y);
    AfterFirstStops(ts, x);
    AfterFirstStops(us, y);
    Cancel(ts[0], us[0], AfterFirst(ts, x), AfterFirst(us, y));
    if |ts| == 1 && |us| > 1 { MoreIsNoEnd(us, x, y); }
    else if |us| == 1 && |ts| > 1 { MoreIsNoEnd(ts, y, x); }
    else if |ts| > 1 {
      PrefixCancel("__", CodeList(ts[1..]) + x, CodeList(us[1..]) + y);
      ListCancel(ts[1..], us[1..], x, y);
    }
  }

  lemma {:induction false} FuncCancel(ts: seq<Ty>, us: seq<Ty>, x: string, y: string)
    requires ts != [] && us != []
    requires (forall i | 0 <= i < |ts| :: Ground(ts[i])) && (forall i | 0 <= i < |us| :: Ground(us[i]))
    requires Stops(x, 2) && Stops(y, 2) && Rest(App(Head.Func, ts)) + x == Rest(App(Head.Func, us)) + y
    ensures SameFolded(ts, us) && x == y
    decreases ts, 1
  {
    hide Stops, Ground, Code, CodeList;
    var ps, qs, r, s := ts[..|ts| - 1], us[..|us| - 1], ts[|ts| - 1], us[|us| - 1];
    FuncParts(ts, x);
    FuncParts(us, y);
    PrefixCancel("_", CodeList(ps) + ("_____" + (Code(r) + x)), CodeList(qs) + ("_____" + (Code(s) + y)));
    StopsTail(x, 2);
    StopsTail(y, 2);
    assert Line(5) == "_____";
    TypeStops(5, r, x);
    TypeStops(5, s, y);
    StopsLess("_____" + (Code(r) + x), 3, 5);
    StopsLess("_____" + (Code(s) + y), 3, 5);
    NoParams();
    if ps == [] && qs != [] { ParamsAreNoArrow(qs, r, x, "_____" + (Code(s) + y)); }
    else if qs == [] && ps != [] { ParamsAreNoArrow(ps, s, y, "_____" + (Code(r) + x)); }
    else if ps != [] { ListCancel(ps, qs, "_____" + (Code(r) + x), "_____" + (Code(s) + y)); }
    PrefixCancel("_____", Code(r) + x, Code(s) + y);
    Cancel(r, s, x, y);
    assert ts == ps + [r] && us == qs + [s];
  }

  lemma NoParams()
    ensures forall x: string :: CodeList([]) + x == x
  {
  }

  lemma FuncParts(ts: seq<Ty>, x: string)
    requires ts != []
    ensures Rest(App(Head.Func, ts)) + x == "_" + (CodeList(ts[..|ts| - 1]) + ("_____" + (Code(ts[|ts| - 1]) + x)))
  {
    hide CodeList, Code;
    var ps, r := CodeList(ts[..|ts| - 1]), Code(ts[|ts| - 1]);
    RestFunc(ts);
    Assoc("_", ps + ("_____" + r), x);
    Assoc(ps, "_____" + r, x);
    Assoc("_____", r, x);
  }

  lemma ParamsAreNoArrow(qs: seq<Ty>, r: Ty, x: string, y: string)
    requires qs != [] && (forall i | 0 <= i < |qs| :: Ground(qs[i])) && Ground(r) && Tail(x) && Stops(y, 3)
    ensures "_____" + (Code(r) + x) != CodeList(qs) + y
  {
    hide Stops, Ground, Code, CodeList;
    ListSplits(qs, y);
    AfterFirstStops(qs, y);
    assert Line(5) == "_____";
    var rest := Code(qs[0]) + AfterFirst(qs, y);
    assert Line(0) + rest == rest;
    if Line(5) + (Code(r) + x) == Line(0) + rest { SameStart(5, 0, r, qs[0], x, AfterFirst(qs, y)); }
  }

  // ---------------------------------------------------------------------------
  // Trimming
  // ---------------------------------------------------------------------------

  lemma {:induction false} TrimLeftSplits(x: string) returns (a: nat)
    ensures x == Line(a) + TrimLeft(x) && (TrimLeft(x) == "" || TrimLeft(x)[0] != '_')
  {
    if x != "" && x[0] == '_' {
      var b := TrimLeftSplits(x[1..]);
      a := b + 1;
      assert Line(a) == "_" + Line(b);
      assert x == "_" + x[1..];
    } else {
      a := 0;
    }
  }

  lemma {:induction false} TrimRightSplits(x: string) returns (b: nat)
    ensures x == TrimRight(x) + Line(b) && (TrimRight(x) == "" || TrimRight(x)[|TrimRight(x)| - 1] != '_')
    ensures TrimRight(x) != "" ==> TrimRight(x)[0] == x[0]
  {
    if x != "" && x[|x| - 1] == '_' {
      var c := TrimRightSplits(x[..|x| - 1]);
      b := c + 1;
      assert Line(b) == Line(c) + "_";
      assert x == x[..|x| - 1] + "_";
    } else {
      b := 0;
    }
  }

  function Spelling(t: Ty): string { SanitizeTypeKey(Display(t)) }

  lemma TrimSplits(code: string, lead: nat, body: string) returns (b: nat)
    requires code == Line(lead) + body && !Tail(body)
    ensures
      var s := TrimRight(TrimLeft(code));
      body == s + Line(b) && !Tail(s) && s[|s| - 1] != '_'
  {
    hide TrimLeft, TrimRight;
    var a := TrimLeftSplits(code);
    var left := TrimLeft(code);
    assert code[lead] == body[0];
    assert left == "" ==> code == Line(a);
    GapCancel(a, lead, left, body);
    b := TrimRightSplits(left);
    assert TrimRight(left) == "" ==> left == Line(b);
  }

  /** The spelling of a plain type is its code without the gaps at both ends. */
  lemma SpellingSplits(t: Ty) returns (b: nat)
    requires Ground(t)
    ensures Code(t) == Line(Lead(t)) + Spelling(t) + Line(b)
    ensures Spelling(t) != "" && !Tail(Spelling(t)) && Spelling(t)[|Spelling(t)| - 1] != '_'
    ensures exists r :: Tail(r) && Spelling(t) + Line(b) == First(t) + r
  {
    hide Ground, First, Rest, Spelling;
    CodeIsCleaned(t);
    SpellingOfCode(t);
    FirstIsWord(t);
    var body := First(t) + Rest(t);
    assert body[0] == First(t)[0];
    Assoc(Line(Lead(t)), First(t), Rest(t));
    b := TrimSplits(Code(t), Lead(t), body);
    Assoc(Line(Lead(t)), Spelling(t), Line(b));
  }

  lemma {:induction false} SameSpelling(t: Ty, u: Ty)
    requires Ground(t) && Ground(u)
    ensures Spelling(t) == Spelling(u) <==> Folded(t) == Folded(u)
  {
    hide Ground, Code, First, Spelling, Folded, Lead;
    if Spelling(t) == Spelling(u) {
      var b := SpellingSplits(t);
      var c := SpellingSplits(u);
      SameLeadBySpelling(t, u, b, c);
      var s := Spelling(t);
      assert Line(b) + Line(c) == Line(c) + Line(b);
      Assoc(Line(Lead(t)) + s, Line(b), Line(c));
      Assoc(Line(Lead(t)) + s, Line(c), Line(b));
      GapsStop(b);
      GapsStop(c);
      Cancel(t, u, Line(c), Line(b));
    }
    if Folded(t) == Folded(u) {
      FoldedCode(t, u);
      CodeIsCleaned(t);
      CodeIsCleaned(u);
      SpellingOfCode(t);
      SpellingOfCode(u);
    }
  }

  lemma SpellingOfCode(t: Ty)
    requires Cleaned(Display(t)) == Code(t)
    ensures Spelling(t) == TrimRight(TrimLeft(Code(t)))
  {
  }

  lemma GapsStop(n: nat)
    ensures Stops(Line(n), 2)
  {
  }

  lemma SameLeadBySpelling(t: Ty, u: Ty, b: nat, c: nat)
    requires Ground(t) && Ground(u) && Spelling(t) == Spelling(u)
    requires exists r :: Tail(r) && Spelling(t) + Line(b) == First(t) + r
    requires exists r :: Tail(r) && Spelling(u) + Line(c) == First(u) + r
    ensures Lead(t) == Lead(u)
  {
    hide Ground, First, Spelling, Lead;
    FirstIsWord(t);
    FirstIsWord(u);
    var r :| Tail(r) && Spelling(t) + Line(b) == First(t) + r;
    var s :| Tail(s) && Spelling(u) + Line(c) == First(u) + s;
    assert Line(b) + Line(c) == Line(c) + Line(b);
    Assoc(Spelling(t), Line(b), Line(c));
    Assoc(Spelling(t), Line(c), Line(b));
    Assoc(First(t), r, Line(c));
    Assoc(First(u), s, Line(b));
    TailAppend(r, Line(c));
    TailAppend(s, Line(b));
    WordCancel(First(t), First(u), r + Line(c), s + Line(b));
    SameLead(t, u);
  }

  lemma {:induction false} FoldedCode(t: Ty, u: Ty)
    requires Ground(t) && Ground(u) && Folded(t) == Folded(u)
    ensures Code(t) == Code(u)
    decreases t
  {
    hide CodeList, Decimal, Code;
    if t.App? {
      hide Ground, Folded;
      GroundArgs(t);
      GroundArgs(u);
      FoldedParts(t, u);
      forall i | 0 <= i < |t.args| ensures Code(t.args[i]) == Code(u.args[i]) { FoldedCode(t.args[i], u.args[i]); }
      SameCodeList(t.args, u.args);
      if t.args != [] { SameCodeList(t.args[..|t.args| - 1], u.args[..|u.args| - 1]); }
      SameRest(t, u);
    } else {
      LeafCode(t, u);
    }
  }

  lemma FoldedParts(t: Ty, u: Ty)
    requires t.App? && Folded(t) == Folded(u)
    ensures u.App? && t.head == u.head && SameFolded(t.args, u.args)
  {
    assert Folded(t).args == Folded(u).args;
    forall i | 0 <= i < |t.args| ensures Folded(t.args[i]) == Folded(u.args[i]) {
      assert Folded(t).args[i] == Folded(t.args[i]) && Folded(u).args[i] == Folded(u.args[i]);
    }
  }

  lemma LeafCode(t: Ty, u: Ty)
    requires !t.App? && Folded(t) == Folded(u)
    ensures Code(t) == Code(u)
  {
    hide CodeList, Decimal;
  }

  lemma SameRest(t: Ty, u: Ty)
    requires t.App? && u.App? && t.head == u.head && |t.args| == |u.args| && CodeList(t.args) == CodeList(u.args)
    requires t.args != [] ==> CodeList(t.args[..|t.args| - 1]) == CodeList(u.args[..|u.args| - 1])
    requires t.args != [] ==> Code(t.args[|t.args| - 1]) == Code(u.args[|u.args| - 1])
    ensures Code(t) == Code(u)
  {
    hide CodeList, Decimal;
    assert Rest(t) == Rest(u) by { hide Code; }
    assert Code(t) == Line(Lead(t)) + First(t) + Rest(t) && Code(u) == Line(Lead(u)) + First(u) + Rest(u) by { hide Rest; }
  }

  lemma {:induction false} SameCodeList(ts: seq<Ty>, us: seq<Ty>)
    requires |ts| == |us| && forall i | 0 <= i < |ts| :: Code(ts[i]) == Code(us[i])
    ensures CodeList(ts) == CodeList(us)
  {
    hide Code;
    if |ts| > 1 { SameCodeList(ts[1..], us[1..]); }
  }

  // ---------------------------------------------------------------------------
  // Marks between the types of a key
  // ---------------------------------------------------------------------------

  /** No word of the text begins like the index of a type argument. */
  predicate NoMark(s: string) {
    forall i | 0 <= i < |s| - 2 :: !(s[i] == '_' && s[i + 1] == 't' && IsDigit(s[i + 2]))
  }

  predicate JoinsCleanly(a: string, b: string) {
    b == "" || b[0] == '_' || (!Marked(b) && (a == "" || a[|a| - 1] == '_'))
  }

  lemma NoMarkJoin(a: string, b: string)
    requires NoMark(a) && NoMark(b) && JoinsCleanly(a, b)
    ensures NoMark(a + b)
  {
    forall i | 0 <= i < |a + b| - 2 ensures !((a + b)[i] == '_' && (a + b)[i + 1] == 't' && IsDigit((a + b)[i + 2])) {
      if i >= |a| { assert (a + b)[i] == b[i - |a|]; }
    }
  }

  lemma WordNoMark(w: string)
    requires Word(w)
    ensures NoMark(w)
  {
  }

  lemma EndsInGap(a: string, b: string)
    requires b != "" && b[|b| - 1] == '_'
    ensures (a + b)[|a + b| - 1] == '_'
  {
  }

  predicate Clean(s: string) { NoMark(s) && !Marked(s) }

  lemma CleanJoin(a: string, b: string)
    requires Clean(a) && Clean(b) && (Tail(b) || (a != "" && a[|a| - 1] == '_'))
    ensures Clean(a + b)
  {
    NoMarkJoin(a, b);
  }

  lemma {:induction false} CodeIsClean(t: Ty)
    requires Ground(t)
    ensures Clean(Code(t)) && Code(t) != ""
    decreases t, 1
  {
    hide NoMark, Rest, First, Ground, Marked;
    FirstIsWord(t);
    WordNoMark(First(t));
    RestIsClean(t);
    NoMarkLine(Lead(t));
    assert Line(Lead(t)) + First(t) + Rest(t) == Line(Lead(t)) + (First(t) + Rest(t)) by { Assoc(Line(Lead(t)), First(t), Rest(t)); }
    CleanJoin(First(t), Rest(t));
    LeadIsClean(t);
    if Lead(t) == 0 { assert Line(0) + (First(t) + Rest(t)) == First(t) + Rest(t); }
    else { CleanJoin(Line(Lead(t)), First(t) + Rest(t)); }
  }

  lemma LeadIsClean(t: Ty)
    ensures Clean(Line(Lead(t))) && Lead(t) <= 1
  {
  }

  lemma NoMarkLine(n: nat)
    ensures NoMark(Line(n)) && Clean(Line(n))
  {
  }

  lemma NumberIsClean(v: int)
    ensures Clean("__" + NumberCode(v))
  {
    DecimalIsWord(Magnitude(v));
    hide Decimal;
  }

  lemma {:induction false} RestIsClean(t: Ty)
    requires Ground(t)
    ensures Clean(Rest(t))
    decreases t, 0
  {
    hide NoMark, Ground, Marked, Code, CodeList;
    if t.ConstInt? {
      NumberIsClean(t.value);
    } else if t.App? {
      GroundArgs(t);
      var h, args := t.head, t.args;
      forall i | 0 <= i < |args| ensures Clean(Code(args[i])) && Code(args[i]) != "" { CodeIsClean(args[i]); }
      if h.Func? && args != [] {
        var ps, r := args[..|args| - 1], args[|args| - 1];
        ListIsClean(ps);
        FuncIsClean(CodeList(ps), Code(r));
      } else if h.Named? {
        ListIsClean(args);
        NamedIsClean(h.def, CodeList(args));
      } else {
        ListIsClean(args);
        OpenIsClean(h);
        BracketIsClean(Open(h), CodeList(args));
      }
    } else {
      assert Clean("") by { EmptyIsClean(); }
    }
  }

  lemma EmptyIsClean()
    ensures Clean("")
  {
  }

  lemma OpenIsClean(h: Head)
    ensures Clean(Open(h)) && Open(h)[|Open(h)| - 1] == '_'
  {
  }

  lemma BracketIsClean(open: string, inner: string)
    requires Clean(open) && Clean(inner) && open != "" && open[|open| - 1] == '_'
    ensures Clean(open + inner + "_")
  {
    hide Clean;
    CleanJoin(open, inner);
    NoMarkLine(1);
    assert Line(1) == "_";
    CleanJoin(open + inner, "_");
  }

  lemma NamedIsClean(def: nat, inner: string)
    requires Clean(inner)
    ensures Clean("_defid_" + Decimal(def) + "__" + ("_" + inner + "_")) && Clean("_defid_" + Decimal(def) + "__" + "")
  {
    DecimalIsWord(def);
    DigitsAreClean(Decimal(def));
    hide Decimal, Clean;
    NoMarkLine(1);
    NoMarkLine(2);
    assert Line(1) == "_" && Line(2) == "__";
    assert Clean("_defid_") by { DefIdIsClean(); }
    CleanJoin("_defid_", Decimal(def));
    CleanJoin("_defid_" + Decimal(def), "__");
    assert "_defid_" + Decimal(def) + "__" + "" == "_defid_" + Decimal(def) + "__";
    BracketIsClean("_", inner);
    CleanJoin("_defid_" + Decimal(def) + "__", "_" + inner + "_");
  }

  lemma DefIdIsClean()
    ensures Clean("_defid_")
  {
  }

  lemma DigitsAreClean(s: string)
    requires Word(s) && forall i | 0 <= i < |s| :: IsDigit(s[i])
    ensures Clean(s)
  {
  }

  lemma FuncIsClean(ps: string, r: string)
    requires Clean(ps) && Clean(r)
    ensures Clean("_" + (ps + ("_____" + r)))
  {
    hide Clean;
    NoMarkLine(1);
    NoMarkLine(5);
    assert Line(1) == "_" && Line(5) == "_____";
    CleanJoin("_____", r);
    CleanJoin(ps, "_____" + r);
    CleanJoin("_", ps + ("_____" + r));
  }

  lemma {:induction false} ListIsClean(ts: seq<Ty>)
    requires forall i | 0 <= i < |ts| :: Clean(Code(ts[i]))
    ensures Clean(CodeList(ts))
  {
    hide Clean, Code;
    if ts == [] {
      EmptyIsClean();
    } else if |ts| > 1 {
      ListIsClean(ts[1..]);
      NoMarkLine(2);
      assert Line(2) == "__";
      CleanJoin(Code(ts[0]), "__");
      EndsInGap(Code(ts[0]), "__");
      CleanJoin(Code(ts[0]) + "__", CodeList(ts[1..]));
    }
  }

  predicate MarkTail(x: string) { x == "" || (|x| > 2 && x[0] == '_' && x[1] == 't' && IsDigit(x[2])) }

  lemma LongerSpelling(s: string, r: string, x: string, y: string)
    requires |s| < |r| && NoMark(r) && r[|r| - 1] != '_' && MarkTail(x) && MarkTail(y)
    ensures s + x != r + y
  {
    if x != "" {
      assert (s + x)[|s|] == x[0] && (s + x)[|s| + 1] == x[1] && (s + x)[|s| + 2] == x[2];
      assert (r + y)[|s|] == r[|s|];
      assert |r| > |s| + 1 ==> (r + y)[|s| + 1] == r[|s| + 1];
      assert |r| > |s| + 2 ==> (r + y)[|s| + 2] == r[|s| + 2];
      assert |r| == |s| + 2 && y != "" ==> (r + y)[|s| + 2] == y[0];
    }
  }

  /** A type ends where the mark of the next one begins. */
  lemma MarkCancel(t: Ty, u: Ty, x: string, y: string)
    requires Ground(t) && Ground(u) && MarkTail(x) && MarkTail(y) && Spelling(t) + x == Spelling(u) + y
    ensures Spelling(t) == Spelling(u) && x == y
  {
    hide Ground, Spelling, NoMark, Code, MarkTail;
    SpellingHasNoMark(t);
    SpellingHasNoMark(u);
    if |Spelling(t)| < |Spelling(u)| { LongerSpelling(Spelling(t), Spelling(u), x, y); }
    else if |Spelling(u)| < |Spelling(t)| { LongerSpelling(Spelling(u), Spelling(t), y, x); }
    assert Spelling(t) == (Spelling(t) + x)[..|Spelling(t)|] && Spelling(u) == (Spelling(u) + y)[..|Spelling(u)|];
    PrefixCancel(Spelling(t), x, y);
  }

  lemma SpellingHasNoMark(t: Ty)
    requires Ground(t)
    ensures NoMark(Spelling(t)) && Spelling(t) != "" && Spelling(t)[|Spelling(t)| - 1] != '_'
  {
    hide Ground, Spelling, Code, Marked;
    var b := SpellingSplits(t);
    CodeIsClean(t);
    forall i | 0 <= i < |Spelling(t)| - 2
      ensures !(Spelling(t)[i] == '_' && Spelling(t)[i + 1] == 't' && IsDigit(Spelling(t)[i + 2]))
    {
      var a := Lead(t);
      assert Code(t)[a + i] == Spelling(t)[i] && Code(t)[a + i + 1] == Spelling(t)[i + 1] && Code(t)[a + i + 2] == Spelling(t)[i + 2];
    }
  }
}
