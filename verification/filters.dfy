/** The filter engine: the sidebar's filter state and the narrowing of the
    record table to the records that pass it. */
module Filters {

  import opened Records

  /** The filter state. A category list that is empty imposes no restriction. */
  datatype FilterSpec = FilterSpec(
    ageRange: (int, int),
    gender: seq<Gender>,
    country: seq<string>,
    favoriteGame: seq<Game>,
    fanSinceRange: (int, int))

  /** The filters a session starts with, and the ones Reset Filters restores. */
  const DefaultFilters: FilterSpec := FilterSpec((10, 100), [], [], [], (0, 10))

  predicate Allowed<T(==)>(allowed: seq<T>, v: T) {
    allowed == [] || v in allowed
  }

  /** The conjunction of all five checks. */
  predicate Matches(spec: FilterSpec, r: FanRecord) {
    && spec.ageRange.0 <= r.age <= spec.ageRange.1
    && Allowed(spec.gender, r.gender)
    && Allowed(spec.country, r.country)
    && Allowed(spec.favoriteGame, r.favoriteGame)
    && spec.fanSinceRange.0 <= r.fanSince <= spec.fanSinceRange.1
  }

  /** The five checks apply_filters makes, one per filter. */
  datatype Check = AgeCheck | GenderCheck | CountryCheck | GameCheck | FanSinceCheck

  const AllChecks: set<Check> := {AgeCheck, GenderCheck, CountryCheck, GameCheck, FanSinceCheck}

  /** r passes every check in cs. */
  predicate PassesAll(spec: FilterSpec, cs: set<Check>, r: FanRecord) {
    && (AgeCheck in cs ==> spec.ageRange.0 <= r.age <= spec.ageRange.1)
    && (GenderCheck in cs ==> Allowed(spec.gender, r.gender))
    && (CountryCheck in cs ==> Allowed(spec.country, r.country))
    && (GameCheck in cs ==> Allowed(spec.favoriteGame, r.favoriteGame))
    && (FanSinceCheck in cs ==> spec.fanSinceRange.0 <= r.fanSince <= spec.fanSinceRange.1)
  }

  /** Boolean-mask selection: the records that pass the checks cs, in their order. */
  function Narrow(s: seq<FanRecord>, spec: FilterSpec, cs: set<Check>): (r: seq<FanRecord>)
    ensures |r| <= |s|
    ensures forall x :: x in r <==> x in s && PassesAll(spec, cs, x)
  {
    if s == [] then []
    else if PassesAll(spec, cs, s[0]) then [s[0]] + Narrow(s[1..], spec, cs)
    else Narrow(s[1..], spec, cs)
  }

  /** a is s with some elements deleted, the rest in their order. */
  predicate IsSubsequence<T(==)>(a: seq<T>, s: seq<T>)
    decreases |s|
  {
    if a == [] then true
    else if s == [] then false
    else (a[0] == s[0] && IsSubsequence(a[1..], s[1..])) || IsSubsequence(a, s[1..])
  }

  lemma {:induction false} NarrowIsSubsequence(s: seq<FanRecord>, spec: FilterSpec, cs: set<Check>)
    ensures IsSubsequence(Narrow(s, spec, cs), s)
  {
    if s != [] {
      NarrowIsSubsequence(s[1..], spec, cs);
      if PassesAll(spec, cs, s[0]) {
        assert ([s[0]] + Narrow(s[1..], spec, cs))[1..] == Narrow(s[1..], spec, cs);
      }
    }
  }

  /** Narrowing twice is narrowing once by both sets of checks. */
  lemma {:induction false} NarrowNarrow(s: seq<FanRecord>, spec: FilterSpec, a: set<Check>, b: set<Check>)
    ensures Narrow(Narrow(s, spec, a), spec, b) == Narrow(s, spec, a + b)
  {
    if s != [] {
      NarrowNarrow(s[1..], spec, a, b);
      if PassesAll(spec, a, s[0]) {
        assert Narrow(s, spec, a)[1..] == Narrow(s[1..], spec, a);
      }
    }
  }

  /** Checks that every record of s passes select all of s. */
  lemma {:induction false} NarrowAll(s: seq<FanRecord>, spec: FilterSpec, cs: set<Check>)
    requires forall x :: x in s ==> PassesAll(spec, cs, x)
    ensures Narrow(s, spec, cs) == s
  {
    if s != [] {
      NarrowAll(s[1..], spec, cs);
    }
  }

  // ---------------------------------------------------------------------
  // apply_filters: five narrowing steps over a copy of the table; the three
  // list filters are skipped when their list is empty

  function AgeStep(s: seq<FanRecord>, spec: FilterSpec): seq<FanRecord> {
    Narrow(s, spec, {AgeCheck})
  }

  function GenderStep(s: seq<FanRecord>, spec: FilterSpec): seq<FanRecord> {
    if spec.gender != [] then Narrow(s, spec, {GenderCheck}) else s
  }

  function CountryStep(s: seq<FanRecord>, spec: FilterSpec): seq<FanRecord> {
    if spec.country != [] then Narrow(s, spec, {CountryCheck}) else s
  }

  function GameStep(s: seq<FanRecord>, spec: FilterSpec): seq<FanRecord> {
    if spec.favoriteGame != [] then Narrow(s, spec, {GameCheck}) else s
  }

  function FanSinceStep(s: seq<FanRecord>, spec: FilterSpec): seq<FanRecord> {
    Narrow(s, spec, {FanSinceCheck})
  }

  /** apply_filters: the table narrowed by age, gender, country, game and
      years as a fan, in that order. */
  function ApplyFilters(s: seq<FanRecord>, spec: FilterSpec): (r: seq<FanRecord>)
    ensures |r| <= |s|
    ensures forall x :: x in r ==> x in s && Matches(spec, x)
  {
    FanSinceStep(GameStep(CountryStep(GenderStep(AgeStep(s, spec), spec), spec), spec), spec)
  }

  /** A skipped list filter is one that every record passes. */
  lemma SkippedStep(s: seq<FanRecord>, spec: FilterSpec, c: Check)
    requires c in {GenderCheck, CountryCheck, GameCheck}
    ensures (match c
             case GenderCheck => GenderStep(s, spec)
             case CountryCheck => CountryStep(s, spec)
             case _ => GameStep(s, spec)) == Narrow(s, spec, {c})
  {
    if c == GenderCheck && spec.gender == [] { NarrowAll(s, spec, {c}); }
    if c == CountryCheck && spec.country == [] { NarrowAll(s, spec, {c}); }
    if c == GameCheck && spec.favoriteGame == [] { NarrowAll(s, spec, {c}); }
  }

  /** The five steps together keep exactly the records that pass every check,
      in their original order: the order of the steps does not matter. */
  lemma ApplyFiltersIsMatches(s: seq<FanRecord>, spec: FilterSpec)
    ensures ApplyFilters(s, spec) == Narrow(s, spec, AllChecks)
  {
    var s1 := AgeStep(s, spec);
    var s2 := GenderStep(s1, spec);
    SkippedStep(s1, spec, GenderCheck);
    NarrowNarrow(s, spec, {AgeCheck}, {GenderCheck});
    var s3 := CountryStep(s2, spec);
    SkippedStep(s2, spec, CountryCheck);
    NarrowNarrow(s, spec, {AgeCheck} + {GenderCheck}, {CountryCheck});
    var s4 := GameStep(s3, spec);
    SkippedStep(s3, spec, GameCheck);
    NarrowNarrow(s, spec, {AgeCheck} + {GenderCheck} + {CountryCheck}, {GameCheck});
    NarrowNarrow(s, spec, {AgeCheck} + {GenderCheck} + {CountryCheck} + {GameCheck}, {FanSinceCheck});
    assert {AgeCheck} + {GenderCheck} + {CountryCheck} + {GameCheck} + {FanSinceCheck} == AllChecks;
  }

  /** A record is in the result exactly when it is in the input and passes all
      five checks; the result keeps the input's order. */
  lemma ApplyFiltersSpec(s: seq<FanRecord>, spec: FilterSpec)
    ensures forall r :: r in ApplyFilters(s, spec) <==> r in s && Matches(spec, r)
    ensures IsSubsequence(ApplyFilters(s, spec), s)
    ensures |ApplyFilters(s, spec)| <= |s|
  {
    ApplyFiltersIsMatches(s, spec);
    NarrowIsSubsequence(s, spec, AllChecks);
  }

  /** Filtering an already filtered table with the same filters changes nothing. */
  lemma ApplyFiltersIdempotent(s: seq<FanRecord>, spec: FilterSpec)
    ensures ApplyFilters(ApplyFilters(s, spec), spec) == ApplyFilters(s, spec)
  {
    var once := ApplyFilters(s, spec);
    ApplyFiltersIsMatches(s, spec);
    ApplyFiltersIsMatches(once, spec);
    NarrowAll(once, spec, AllChecks);
  }

  /** The default filters keep every record whose age and years as a fan lie
      in the survey's ranges, so the whole table of valid records. */
  lemma DefaultFiltersKeepAll(s: seq<FanRecord>)
    requires forall r :: r in s ==> 10 <= r.age <= 100 && 0 <= r.fanSince <= 10
    ensures ApplyFilters(s, DefaultFilters) == s
  {
    ApplyFiltersIsMatches(s, DefaultFilters);
    NarrowAll(s, DefaultFilters, AllChecks);
  }

  /** The default filters drop a record exactly when its age or its years as a
      fan fall outside the survey's ranges. */
  lemma DefaultFiltersDrop(r: FanRecord)
    ensures ApplyFilters([r], DefaultFilters) == [] <==> !(10 <= r.age <= 100 && 0 <= r.fanSince <= 10)
  {
    ApplyFiltersSpec([r], DefaultFilters);
  }
}
