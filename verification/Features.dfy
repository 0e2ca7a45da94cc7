/**
  The feature list in the build fingerprint, normalized to a canonical text.
*/
module Features {
  import opened Text
  import S = Sorting

  /** The parts of a comma-separated list, trimmed, without the empty ones. */
  function Kept(parts: seq<string>): seq<string> {
    if parts == [] then [] else (if Trim(parts[0]) == "" then [] else [Trim(parts[0])]) + Kept(parts[1..])
  }

  function Names(value: string): seq<string> { Kept(SplitOn(value, ',')) }

  /** Drops an element equal to its predecessor. */
  function Dedup(s: seq<string>): seq<string>
    decreases |s|
  {
    if |s| < 2 then s
    else if s[0] == s[1] then Dedup(s[1..])
    else [s[0]] + Dedup(s[1..])
  }

  function Canonical(value: string): seq<string> { Dedup(S.Sort(S.Lex, Names(value))) }

  function NormalizeFeatures(value: string): string { Join(Canonical(value), ",") }

  /** The fingerprint's text for one environment variable. */
  function NormalizeValue(variable: string, value: string): string {
    if variable == "ORI_NO_DEFAULT_FEATURES" then
      (if value in ["1", "true", "TRUE", "yes", "YES"] then "1" else "0")
    else if variable == "ORI_TARGET_TRIPLE" || variable == "ORI_EXECUTION_PROFILE" then Trim(value)
    else if variable == "ORI_FEATURES" then NormalizeFeatures(value)
    else value
  }

  function FeatureSet(value: string): set<string> { set n | n in Names(value) }

  // ---------------------------------------------------------------------------
  // Sorted lists without repetition
  // ---------------------------------------------------------------------------

  /** Strictly ascending. */
  predicate Ascending(s: seq<string>) { forall i, j | 0 <= i < j < |s| :: S.Lex(s[i], s[j]) && s[i] != s[j] }

  lemma {:induction false} DedupAscends(s: seq<string>)
    requires S.Sorted(S.Lex, s)
    ensures Ascending(Dedup(s)) && (forall n :: n in Dedup(s) <==> n in s)
    decreases |s|
  {
    hide S.Lex;
    if |s| >= 2 {
      assert s == [s[0]] + s[1..];
      DedupAscends(s[1..]);
      if s[0] != s[1] {
        var rest := Dedup(s[1..]);
        forall j | 0 <= j < |rest| ensures S.Lex(s[0], rest[j]) && s[0] != rest[j] {
          assert rest[j] in s[1..];
          var k :| 1 <= k < |s| && s[k] == rest[j];
          BelowRest(s, k);
        }
      }
    }
  }

  lemma BelowRest(s: seq<string>, k: nat)
    requires S.Sorted(S.Lex, s) && 1 <= k < |s| && s[0] != s[1]
    ensures S.Lex(s[0], s[k]) && s[0] != s[k]
  {
    if s[0] == s[k] {
      assert S.Lex(s[0], s[1]);
      if k > 1 { assert S.Lex(s[1], s[k]); }
      S.LexReflexive(s[1]);
      S.LexAntisymmetric(s[0], s[1]);
    }
  }

  lemma FirstIn(s: seq<string>)
    ensures s != [] ==> s[0] in s
  {
  }

  /** Ascending lists with the same elements are equal. */
  lemma {:induction false} AscendingUnique(a: seq<string>, b: seq<string>)
    requires Ascending(a) && Ascending(b) && (forall n :: n in a <==> n in b)
    ensures a == b
  {
    hide S.Lex;
    FirstIn(a);
    FirstIn(b);
    if a != [] {
      SameFirst(a, b);
      forall n ensures n in a[1..] <==> n in b[1..] {
        TailElements(a, n);
        TailElements(b, n);
      }
      AscendingUnique(a[1..], b[1..]);
      assert a == [a[0]] + a[1..] && b == [b[0]] + b[1..];
    }
  }

  lemma TailElements(a: seq<string>, n: string)
    requires a != [] && Ascending(a)
    ensures n in a[1..] <==> n in a && n != a[0]
  {
    hide S.Lex;
    assert a == [a[0]] + a[1..];
    forall i | 1 <= i < |a| ensures a[i] != a[0] { assert S.Lex(a[0], a[i]) && a[0] != a[i]; }
  }

  lemma SameFirst(a: seq<string>, b: seq<string>)
    requires Ascending(a) && Ascending(b) && a != [] && b != [] && a[0] in b && b[0] in a
    ensures a[0] == b[0]
  {
    hide S.Lex;
    var i :| 0 <= i < |b| && b[i] == a[0];
    var j :| 0 <= j < |a| && a[j] == b[0];
    if i > 0 && j > 0 {
      assert S.Lex(b[0], b[i]) && S.Lex(a[0], a[j]);
      S.LexAntisymmetric(a[0], b[0]);
    }
  }

  lemma CanonicalAscends(value: string)
    ensures Ascending(Canonical(value)) && forall n :: n in Canonical(value) <==> n in Names(value)
  {
    S.LexPreorder();
    var names := Names(value);
    S.SortSorts(S.Lex, names);
    DedupAscends(S.Sort(S.Lex, names));
    forall n ensures n in S.Sort(S.Lex, names) <==> n in names {
      assert n in multiset(S.Sort(S.Lex, names)) <==> n in multiset(names);
    }
  }

  // ---------------------------------------------------------------------------
  // The text names exactly the set
  // ---------------------------------------------------------------------------

  predicate IsName(n: string) { n != "" && Trimmed(n) && ',' !in n }

  predicate AreNames(s: seq<string>) { forall i | 0 <= i < |s| :: IsName(s[i]) }

  lemma {:induction false} TrimKeepsOut(s: string, c: char)
    requires c !in s
    ensures c !in Trim(s)
  {
    TrimStartIsPart(s);
    TrimEndIsPart(TrimStart(s));
  }

  lemma {:induction false} TrimStartIsPart(s: string)
    ensures forall c | c in TrimStart(s) :: c in s
  {
    if s != "" { TrimStartIsPart(s[1..]); }
  }

  lemma {:induction false} TrimEndIsPart(s: string)
    ensures forall c | c in TrimEnd(s) :: c in s
  {
    if s != "" { TrimEndIsPart(s[..|s| - 1]); }
  }

  lemma {:induction false} KeptAreNames(parts: seq<string>)
    requires forall i | 0 <= i < |parts| :: ',' !in parts[i]
    ensures AreNames(Kept(parts))
  {
    hide Trim;
    if parts != [] {
      TrimTrims(parts[0]);
      TrimKeepsOut(parts[0], ',');
      KeptAreNames(parts[1..]);
    }
  }

  lemma {:induction false} SplitJoin(names: seq<string>)
    requires names != [] && AreNames(names)
    ensures SplitOn(Join(names, ","), ',') == names
  {
    hide SplitOn;
    assert names == [names[0]] + names[1..];
    if |names| == 1 {
      SplitLast(names[0], ',');
    } else {
      SplitJoin(names[1..]);
      SplitHead(names[0], ',', Join(names[1..], ","));
    }
  }

  lemma {:induction false} KeptNames(names: seq<string>)
    requires AreNames(names)
    ensures Kept(names) == names
  {
    hide Trim;
    if names != [] {
      TrimOfTrimmed(names[0]);
      KeptNames(names[1..]);
      assert names == [names[0]] + names[1..];
    }
  }

  lemma NamesOfJoin(names: seq<string>)
    requires AreNames(names)
    ensures Names(Join(names, ",")) == names
  {
    hide SplitOn;
    if names == [] {
      SplitLast("", ',');
      TrimOfTrimmed("");
      assert [""][1..] == [];
    } else {
      SplitJoin(names);
      KeptNames(names);
    }
  }

  lemma NormalizedNames(value: string)
    ensures Names(NormalizeFeatures(value)) == Canonical(value)
  {
    SplitPartsLack(value, ',');
    KeptAreNames(SplitOn(value, ','));
    CanonicalAscends(value);
    var names := Canonical(value);
    forall i | 0 <= i < |names| ensures IsName(names[i]) {
      assert names[i] in Names(value);
    }
    NamesOfJoin(names);
  }

  /** Two lists normalize to the same text exactly when they name the same features. */
  lemma SameTextSameFeatures(a: string, b: string)
    ensures NormalizeFeatures(a) == NormalizeFeatures(b) <==> FeatureSet(a) == FeatureSet(b)
  {
    hide NormalizeFeatures, Canonical, Names;
    CanonicalAscends(a);
    CanonicalAscends(b);
    NormalizedNames(a);
    NormalizedNames(b);
    if NormalizeFeatures(a) == NormalizeFeatures(b) {
      forall n ensures n in FeatureSet(a) <==> n in FeatureSet(b) { }
    }
    if FeatureSet(a) == FeatureSet(b) {
      forall n ensures n in Canonical(a) <==> n in Canonical(b) {
        assert n in FeatureSet(a) <==> n in FeatureSet(b);
      }
      AscendingUnique(Canonical(a), Canonical(b));
      NormalizeIsJoin(a);
      NormalizeIsJoin(b);
    }
  }

  lemma NormalizeIsJoin(value: string)
    ensures NormalizeFeatures(value) == Join(Canonical(value), ",")
  {
  }

  /** Normalizing keeps the features, and a second time changes nothing. */
  lemma NormalizeIsIdempotent(value: string)
    ensures FeatureSet(NormalizeFeatures(value)) == FeatureSet(value)
    ensures NormalizeFeatures(NormalizeFeatures(value)) == NormalizeFeatures(value)
  {
    hide NormalizeFeatures, Canonical, Names;
    NormalizedNames(value);
    CanonicalAscends(value);
    SameTextSameFeatures(NormalizeFeatures(value), value);
  }

  /** One part more is kept, unless it is empty. */
  lemma KeptNext(features: seq<string>, parts: seq<string>, i: nat)
    requires i < |parts|
    ensures
      var part := Trim(parts[i]);
      features + Kept(parts[i..]) == (if part != "" then features + [part] else features) + Kept(parts[i + 1..])
  {
    hide Trim;
    assert parts[i..][0] == parts[i] && parts[i..][1..] == parts[i + 1..];
    var part, more := Trim(parts[i]), Kept(parts[i + 1..]);
    assert features + ([part] + more) == features + [part] + more && [] + more == more;
  }

  lemma KeptAll(features: seq<string>, parts: seq<string>)
    ensures features + Kept(parts[|parts|..]) == features
  {
  }

  method NormalizeFeatureList(value: string) returns (r: string)
    ensures r == NormalizeFeatures(value)
  {
    hide Trim, SplitOn, Join, Dedup, S.Sort, Kept;
    var parts := SplitOn(value, ',');
    assert parts[0..] == parts;
    var features: seq<string> := [];
    for i := 0 to |parts|
      invariant features + Kept(parts[i..]) == Names(value)
    {
      var feature := Trim(parts[i]);
      KeptNext(features, parts, i);
      if feature != "" { features := features + [feature]; }
    }
    KeptAll(features, parts);
    features := S.Sort(S.Lex, features);
    r := Join(Dedup(features), ",");
  }

  /** Every variable's normalization is idempotent. */
  lemma NormalizeValueIsIdempotent(variable: string, value: string)
    ensures NormalizeValue(variable, NormalizeValue(variable, value)) == NormalizeValue(variable, value)
  {
    hide NormalizeFeatures, Trim;
    NormalizeIsIdempotent(value);
    TrimTrims(value);
    TrimOfTrimmed(Trim(value));
  }
}
