/** Ranges of versions: comparators that must all hold, and sets of such ranges. */
module SemverRange {
  import opened SemverLexer
  import opened SemverParser
  import opened SemverOrder

  datatype Comparator = Comparator(version: Version, op: RangeOperator)

  predicate Satisfies(c: Comparator, other: Version) {
    var d := VersionDifference(other, c.version, IncludePrerelease);
    match c.op
    case LessThan => d < 0
    case LessOrEqual => d <= 0
    case GreaterThan => d > 0
    case GreaterOrEqual => d >= 0
    case EqualTo => d == 0
  }

  /** What each operator asks for, by the precedence of item 11 of Semantic Versioning 2.0.0. */
  lemma SatisfiesByPrecedence(c: Comparator, other: Version)
    requires Comparable(c.version) && Comparable(other)
    ensures Satisfies(c, other)
            <==> match c.op
                 case LessThan => Precedes(other, c.version)
                 case LessOrEqual => Precedes(other, c.version) || SamePrecedence(other, c.version)
                 case GreaterThan => Precedes(c.version, other)
                 case GreaterOrEqual => Precedes(c.version, other) || SamePrecedence(other, c.version)
                 case EqualTo => SamePrecedence(other, c.version)
  {
    hide Comparable, Precedes, VersionDifference;
    ComparesByPrecedence(other, c.version);
  }

  type Range = seq<Comparator>

  /** Some comparator names a prerelease of the very version that v is a prerelease of. */
  predicate MatchesPrerelease(range: Range, v: Version) {
    || v.tag == ""
    || exists i :: 0 <= i < |range| && range[i].version.tag != ""
                   && VersionDifference(v, range[i].version, ExcludePrerelease) == 0
  }

  predicate RangeContains(range: Range, v: Version, option: CompareOption) {
    && (option == ExcludePrerelease ==> MatchesPrerelease(range, v))
    && (forall i :: 0 <= i < |range| ==> Satisfies(range[i], v))
  }

  predicate SetContains(ranges: seq<Range>, v: Version, option: CompareOption) {
    exists i :: 0 <= i < |ranges| && RangeContains(ranges[i], v, option)
  }

  predicate ComparableRange(range: Range) {
    forall i :: 0 <= i < |range| ==> Comparable(range[i].version)
  }

  /**
   * A range holds a version if all its comparators allow it, each by the precedence of item 11, and, where
   * prereleases are excluded, one of them names a prerelease of the same numbers if the version is one.
   */
  lemma RangeContainsByPrecedence(range: Range, v: Version, option: CompareOption)
    requires Comparable(v) && ComparableRange(range)
    ensures RangeContains(range, v, option)
            <==> && (option == ExcludePrerelease && v.tag != "" ==>
                       exists c :: c in range && c.version.tag != "" && SameNumbers(c.version, v))
                 && forall c :: c in range ==>
                      && Comparable(c.version)
                      && (c.op == LessThan ==> Precedes(v, c.version))
                      && (c.op == LessOrEqual ==> Precedes(v, c.version) || SamePrecedence(v, c.version))
                      && (c.op == GreaterThan ==> Precedes(c.version, v))
                      && (c.op == GreaterOrEqual ==> Precedes(c.version, v) || SamePrecedence(v, c.version))
                      && (c.op == EqualTo ==> SamePrecedence(v, c.version))
  {
    hide Precedes, Satisfies;
    forall c | c in range
      ensures Comparable(c.version)
      ensures Satisfies(c, v) <==>
                && (c.op == LessThan ==> Precedes(v, c.version))
                && (c.op == LessOrEqual ==> Precedes(v, c.version) || SamePrecedence(v, c.version))
                && (c.op == GreaterThan ==> Precedes(c.version, v))
                && (c.op == GreaterOrEqual ==> Precedes(c.version, v) || SamePrecedence(v, c.version))
                && (c.op == EqualTo ==> SamePrecedence(v, c.version))
    {
      var i :| 0 <= i < |range| && range[i] == c;
      assert Comparable(range[i].version);
      SatisfiesByPrecedence(c, v);
    }
    assert forall i :: 0 <= i < |range| ==>
             (VersionDifference(v, range[i].version, ExcludePrerelease) == 0 <==> SameNumbers(range[i].version, v));
  }

  /** The version that an operator is followed by is in the range exactly if the operator includes equality. */
  lemma AtItself(v: Version, op: RangeOperator, option: CompareOption)
    requires Comparable(v)
    ensures SetContains([[Comparator(v, op)]], v, option) <==> op in {LessOrEqual, GreaterOrEqual, EqualTo}
  {
    ComparesByPrecedence(v, v);
    PrecedesTrichotomy(v, v);
    hide Comparable, VersionDifference, Precedes;
    var range := [Comparator(v, op)];
    RangeContainsByPrecedence(range, v, option);
    assert [range][0] == range && range[0] in range && (v.tag != "" ==> SameNumbers(range[0].version, v));
  }

  lemma DifferenceFlips(a: Version, b: Version)
    requires Comparable(a) && Comparable(b)
    ensures AtMost(a, b) <==> VersionDifference(b, a, IncludePrerelease) >= 0
  {
    ComparesByPrecedence(a, b);
    ComparesByPrecedence(b, a);
    PrecedesTrichotomy(a, b);
  }

  lemma SatisfiedInBetween(k: Comparator, a: Version, b: Version, c: Version)
    requires Comparable(k.version) && Comparable(a) && Comparable(b) && Comparable(c)
    requires AtMost(a, b) && AtMost(b, c) && Satisfies(k, a) && Satisfies(k, c)
    ensures Satisfies(k, b)
  {
    hide VersionDifference, Comparable;
    var v := k.version;
    DifferenceFlips(a, v);
    DifferenceFlips(v, a);
    DifferenceFlips(b, v);
    DifferenceFlips(v, b);
    DifferenceFlips(c, v);
    DifferenceFlips(v, c);
    if AtMost(c, v) {
      AtMostTransitive(b, c, v);
    }
    if AtMost(v, a) {
      AtMostTransitive(v, a, b);
    }
  }

  /** With prereleases included a range is an interval: it holds all that lies between two of its own. */
  lemma RangeIsInterval(range: Range, a: Version, b: Version, c: Version)
    requires ComparableRange(range) && Comparable(a) && Comparable(b) && Comparable(c)
    requires AtMost(a, b) && AtMost(b, c)
    requires RangeContains(range, a, IncludePrerelease) && RangeContains(range, c, IncludePrerelease)
    ensures RangeContains(range, b, IncludePrerelease)
  {
    forall i | 0 <= i < |range|
      ensures Satisfies(range[i], b)
    {
      SatisfiedInBetween(range[i], a, b, c);
    }
  }

  /**
   * With prereleases excluded, what lies between two versions of a range is in the range exactly if it is
   * no prerelease, or a comparator names a prerelease of the same numbers.
   */
  lemma ExcludingInBetween(range: Range, a: Version, b: Version, c: Version)
    requires ComparableRange(range) && Comparable(a) && Comparable(b) && Comparable(c)
    requires AtMost(a, b) && AtMost(b, c)
    requires RangeContains(range, a, ExcludePrerelease) && RangeContains(range, c, ExcludePrerelease)
    ensures RangeContains(range, b, ExcludePrerelease)
            <==> || b.tag == ""
                 || exists i :: 0 <= i < |range| && range[i].version.tag != "" && SameNumbers(range[i].version, b)
  {
    hide Comparable, AtMost, Satisfies;
    RangeIsInterval(range, a, b, c);
    assert forall i :: 0 <= i < |range| ==>
             (VersionDifference(b, range[i].version, ExcludePrerelease) == 0 <==> SameNumbers(range[i].version, b));
  }

  predicate SameNumbers(a: Version, b: Version) {
    a.major == b.major && a.minor == b.minor && a.patch == b.patch
  }

  /** With prereleases excluded a range is no interval: of 1.0.0 <= 2.0.0-a <= 3.0.0 it holds the ends. */
  lemma ExcludingIsNoInterval()
    ensures var range := [Comparator(Version(1, 0, 0, "", "", []), GreaterOrEqual)];
            var a, c := Version(1, 0, 0, "", "", []), Version(3, 0, 0, "", "", []);
            var b := Version(2, 0, 0, "a", "", [Identifier(false, "a")]);
            && AtMost(a, b) && AtMost(b, c)
            && RangeContains(range, a, ExcludePrerelease) && RangeContains(range, c, ExcludePrerelease)
            && !RangeContains(range, b, ExcludePrerelease)
  {
  }
}
