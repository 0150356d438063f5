/** Precedence of versions: the comparison functions, and item 11 of Semantic Versioning 2.0.0. */
module SemverOrder {
  import opened Decimals
  import opened SemverLexer
  import opened SemverGrammar
  import opened SemverParser
  import opened SemverAcceptance
  import Lexicographic

  const TWO_TO_31: int := 0x8000_0000
  const TWO_TO_32: int := 0x1_0000_0000

  datatype CompareOption = ExcludePrerelease | IncludePrerelease

  // --- the comparison functions ---------------------------------------------------------------------

  /** What a difference of sizes becomes as an int. */
  function ToInt(n: int): (r: int)
    ensures -TWO_TO_31 <= r < TWO_TO_31
    ensures -TWO_TO_31 <= n < TWO_TO_31 ==> r == n
  {
    var m := n % TWO_TO_32;
    if m < TWO_TO_31 then m else m - TWO_TO_32
  }

  /** The difference of the first two characters that differ. */
  function FirstDifference(a: string, b: string): int
    requires |a| == |b|
  {
    if a == "" then 0
    else if a[0] != b[0] then a[0] as int - b[0] as int
    else FirstDifference(a[1..], b[1..])
  }

  function NumericDifference(a: string, b: string): int {
    if |a| != |b| then ToInt(|a| - |b|) else FirstDifference(a, b)
  }

  function IdentifierDifference(a: Identifier, b: Identifier): int {
    if a.numeric && b.numeric then NumericDifference(a.text, b.text)
    else if !a.numeric && !b.numeric then Lexicographic.Compare(a.text, b.text)
    else if !a.numeric then 1 else -1
  }

  /** The difference of the first two identifiers that differ, or else of the numbers of them. */
  function FieldsDifference(a: seq<Identifier>, b: seq<Identifier>, i: nat): int
    requires i <= |a| && i <= |b|
    decreases |a| - i
  {
    if i == |a| || i == |b| then ToInt(|a|) - ToInt(|b|)
    else
      var d := IdentifierDifference(a[i], b[i]);
      if d != 0 then d else FieldsDifference(a, b, i + 1)
  }

  function PrereleaseDifference(a: seq<Identifier>, b: seq<Identifier>): int {
    if (a == []) != (b == []) then ToInt(|b|) - ToInt(|a|) else FieldsDifference(a, b, 0)
  }

  function VersionDifference(a: Version, b: Version, option: CompareOption): int {
    if a.major != b.major then a.major - b.major
    else if a.minor != b.minor then a.minor - b.minor
    else if a.patch != b.patch then a.patch - b.patch
    else if option == IncludePrerelease then PrereleaseDifference(a.ids, b.ids)
    else 0
  }

  method CompareNumerically(lhs: string, rhs: string) returns (r: int)
    ensures r == NumericDifference(lhs, rhs)
  {
    if |lhs| != |rhs| {
      return ToInt(|lhs| - |rhs|);
    }
    assert lhs[0..] == lhs && rhs[0..] == rhs;
    for i := 0 to |lhs|
      invariant FirstDifference(lhs, rhs) == FirstDifference(lhs[i..], rhs[i..])
    {
      var a, b := lhs[i] as int - '0' as int, rhs[i] as int - '0' as int;
      if a != b {
        return a - b;
      }
      assert lhs[i..][1..] == lhs[i + 1..] && rhs[i..][1..] == rhs[i + 1..];
    }
    r := 0;
  }

  method CompareIdentifier(lhs: Identifier, rhs: Identifier) returns (r: int)
    ensures r == IdentifierDifference(lhs, rhs)
  {
    if lhs.numeric && rhs.numeric {
      r := CompareNumerically(lhs.text, rhs.text);
    } else if !lhs.numeric && !rhs.numeric {
      r := Lexicographic.Compare(lhs.text, rhs.text);
    } else {
      r := if !lhs.numeric then 1 else -1;
    }
  }

  /** Compares by items 11.3 and 11.4. */
  method ComparePrerelease(lhs: Version, rhs: Version) returns (r: int)
    ensures r == PrereleaseDifference(lhs.ids, rhs.ids)
    ensures Comparable(lhs) && Comparable(rhs) ==>
              && (r < 0 <==> PrereleaseLess(lhs.ids, rhs.ids)) && (r == 0 <==> lhs.ids == rhs.ids)
  {
    hide IdentifierDifference, Comparable, PrereleaseLess;
    if Comparable(lhs) && Comparable(rhs) {
      PrereleaseDifferenceSign(lhs, rhs);
    }
    var a, b := lhs.ids, rhs.ids;
    if (|a| == 0) != (|b| == 0) {
      return ToInt(|b|) - ToInt(|a|);
    }
    var count := if |a| < |b| then |a| else |b|;
    for i := 0 to count
      invariant FieldsDifference(a, b, 0) == FieldsDifference(a, b, i)
    {
      var d := CompareIdentifier(a[i], b[i]);
      if d != 0 {
        return d;
      }
    }
    r := ToInt(|a|) - ToInt(|b|);
  }

  /** The first version has the smaller numbers. */
  predicate NumbersLess(a: Version, b: Version) {
    || a.major < b.major
    || (a.major == b.major && a.minor < b.minor)
    || (a.major == b.major && a.minor == b.minor && a.patch < b.patch)
  }

  /** Compares by item 11, or by the numbers alone. */
  method CompareParsed(lhs: Version, rhs: Version, option: CompareOption) returns (r: int)
    ensures option == IncludePrerelease && Comparable(lhs) && Comparable(rhs) ==>
              && (r < 0 <==> Precedes(lhs, rhs)) && (r > 0 <==> Precedes(rhs, lhs))
                 && (r == 0 <==> SamePrecedence(lhs, rhs))
    ensures option == ExcludePrerelease ==>
              && (r < 0 <==> NumbersLess(lhs, rhs)) && (r > 0 <==> NumbersLess(rhs, lhs))
    ensures r == VersionDifference(lhs, rhs, option)
  {
    hide Comparable, Precedes, PrereleaseDifference;
    if Comparable(lhs) && Comparable(rhs) {
      ComparesByPrecedence(lhs, rhs);
    }
    r := lhs.major - rhs.major;
    if r != 0 {
      return;
    }
    r := lhs.minor - rhs.minor;
    if r != 0 {
      return;
    }
    r := lhs.patch - rhs.patch;
    if r != 0 {
      return;
    }
    if option == IncludePrerelease {
      r := ComparePrerelease(lhs, rhs);
    }
  }

  // --- numeric identifiers --------------------------------------------------------------------------

  lemma {:induction false} FirstDifferenceDecides(a: string, b: string)
    requires |a| == |b| && AllDigits(a) && AllDigits(b)
    ensures FirstDifference(a, b) < 0 <==> Natural(a) < Natural(b)
    ensures FirstDifference(a, b) > 0 <==> Natural(a) > Natural(b)
  {
    if a != "" {
      FirstDigitDecides(a, b);
      FirstDigitDecides(b, a);
      FirstDifferenceDecides(a[1..], b[1..]);
    }
  }

  /** A difference of lengths keeps its sign as an int. */
  predicate SignKept(d: int) {
    && (d > 0 ==> 0 < d % TWO_TO_32 < TWO_TO_31)
    && (d < 0 ==> TWO_TO_31 <= d % TWO_TO_32)
  }

  /**
   * For numerals, the comparison has the sign of the difference of the numbers exactly when the
   * difference of the lengths keeps its sign as an int.
   */
  lemma NumericDifferenceSign(a: string, b: string)
    requires IsNumeral(a) && IsNumeral(b)
    ensures (&& (NumericDifference(a, b) < 0 <==> Natural(a) < Natural(b))
             && (NumericDifference(a, b) > 0 <==> Natural(a) > Natural(b)))
            <==> SignKept(|a| - |b|)
  {
    if |a| < |b| {
      LongerIsGreater(a, b);
    } else if |a| > |b| {
      LongerIsGreater(b, a);
    } else {
      FirstDifferenceDecides(a, b);
    }
  }

  /** One digit, and 2^32 digits more: the comparison calls the two numbers equal. */
  lemma LongIdentifiersWrap() returns (a: string, b: string)
    ensures IsNumeral(a) && IsNumeral(b) && Natural(a) < Natural(b) && NumericDifference(a, b) == 0
  {
    a, b := "1", seq(TWO_TO_32 + 1, _ => '1');
    LongerIsGreater(a, b);
  }

  lemma ShortSignKept(a: string, b: string)
    requires 0 < |a| <= TWO_TO_31 && 0 < |b| <= TWO_TO_31
    ensures SignKept(|a| - |b|)
  {
  }

  // --- item 11 --------------------------------------------------------------------------------------

  /** Items 11.4.1 to 11.4.3. */
  predicate IdentifierLess(a: Identifier, b: Identifier)
    requires Proper(a) && Proper(b)
  {
    if a.numeric && b.numeric then Natural(a.text) < Natural(b.text)
    else if !a.numeric && !b.numeric then Lexicographic.Less(a.text, b.text)
    else a.numeric
  }

  /** An identifier as the parser makes it. */
  predicate Proper(id: Identifier) {
    IsPrereleaseIdentifier(id.text) && id == MakeIdentifier(id.text)
  }

  predicate AllProper(ids: seq<Identifier>) {
    forall i :: 0 <= i < |ids| ==> Proper(ids[i])
  }

  /** Identifiers of which the number, and the differences of the lengths, are ints. */
  predicate AllShort(ids: seq<Identifier>) {
    |ids| < TWO_TO_31 && forall i :: 0 <= i < |ids| ==> |ids[i].text| <= TWO_TO_31
  }

  /** Items 11.4 and 11.4.4: field by field, and more fields are greater. */
  predicate FieldsLess(a: seq<Identifier>, b: seq<Identifier>)
    requires AllProper(a) && AllProper(b)
  {
    if b == [] then false
    else if a == [] then true
    else if a[0] != b[0] then IdentifierLess(a[0], b[0])
    else FieldsLess(a[1..], b[1..])
  }

  /** Item 11.3: a version with a prerelease tag is lower than the one without. */
  predicate PrereleaseLess(a: seq<Identifier>, b: seq<Identifier>)
    requires AllProper(a) && AllProper(b)
  {
    if a == [] then false else if b == [] then true else FieldsLess(a, b)
  }

  /** A version as the parser makes it. */
  predicate IsVersion(v: Version) {
    && 0 <= v.major <= MAX_INT && 0 <= v.minor <= MAX_INT && 0 <= v.patch <= MAX_INT
    && AllProper(v.ids)
  }

  predicate Comparable(v: Version) {
    IsVersion(v) && AllShort(v.ids)
  }

  /** Item 11.2, and then the prerelease tag. */
  predicate Precedes(a: Version, b: Version)
    requires IsVersion(a) && IsVersion(b)
  {
    if a.major != b.major then a.major < b.major
    else if a.minor != b.minor then a.minor < b.minor
    else if a.patch != b.patch then a.patch < b.patch
    else PrereleaseLess(a.ids, b.ids)
  }

  lemma NumericIsNumeral(id: Identifier)
    requires Proper(id)
    ensures id.numeric <==> IsNumeral(id.text)
  {
  }

  lemma IdentifierTrichotomy(a: Identifier, b: Identifier)
    requires Proper(a) && Proper(b)
    ensures a == b ==> !IdentifierLess(a, b)
    ensures a != b ==> (IdentifierLess(a, b) <==> !IdentifierLess(b, a))
  {
    NumericIsNumeral(a);
    NumericIsNumeral(b);
    if a.numeric && b.numeric {
      if Natural(a.text) == Natural(b.text) {
        SameNumberSameNumeral(a.text, b.text);
      }
    } else if !a.numeric && !b.numeric {
      Lexicographic.CompareAntisymmetric(a.text, b.text);
    }
  }

  lemma IdentifierLessTransitive(a: Identifier, b: Identifier, c: Identifier)
    requires Proper(a) && Proper(b) && Proper(c) && IdentifierLess(a, b) && IdentifierLess(b, c)
    ensures IdentifierLess(a, c)
  {
    if !a.numeric {
      Lexicographic.CompareTransitive(a.text, b.text, c.text);
    }
  }

  lemma {:induction false} FieldsTrichotomy(a: seq<Identifier>, b: seq<Identifier>)
    requires AllProper(a) && AllProper(b)
    ensures a == b ==> !FieldsLess(a, b)
    ensures a != b ==> (FieldsLess(a, b) <==> !FieldsLess(b, a))
  {
    if a != [] && b != [] {
      IdentifierTrichotomy(a[0], b[0]);
      if a[0] == b[0] {
        FieldsTrichotomy(a[1..], b[1..]);
        assert a == [a[0]] + a[1..] && b == [b[0]] + b[1..];
      }
    }
  }

  lemma {:induction false} FieldsLessTransitive(a: seq<Identifier>, b: seq<Identifier>, c: seq<Identifier>)
    requires AllProper(a) && AllProper(b) && AllProper(c) && FieldsLess(a, b) && FieldsLess(b, c)
    ensures FieldsLess(a, c)
  {
    if a != [] {
      if a[0] == b[0] && b[0] == c[0] {
        FieldsLessTransitive(a[1..], b[1..], c[1..]);
      } else if a[0] != b[0] && b[0] != c[0] {
        IdentifierTrichotomy(a[0], b[0]);
        IdentifierLessTransitive(a[0], b[0], c[0]);
        IdentifierTrichotomy(a[0], c[0]);
      }
    }
  }

  /** Two versions that neither precedes the other have the same numbers and the same prerelease tag. */
  predicate SamePrecedence(a: Version, b: Version) {
    a.major == b.major && a.minor == b.minor && a.patch == b.patch && a.ids == b.ids
  }

  /** Exactly one of two versions precedes the other, unless they have the same precedence. */
  lemma PrecedesTrichotomy(a: Version, b: Version)
    requires IsVersion(a) && IsVersion(b)
    ensures SamePrecedence(a, b) ==> !Precedes(a, b)
    ensures !SamePrecedence(a, b) ==> (Precedes(a, b) <==> !Precedes(b, a))
  {
    FieldsTrichotomy(a.ids, b.ids);
  }

  lemma PrecedesTransitive(a: Version, b: Version, c: Version)
    requires IsVersion(a) && IsVersion(b) && IsVersion(c) && Precedes(a, b) && Precedes(b, c)
    ensures Precedes(a, c)
  {
    if a.ids != [] && b.ids != [] && c.ids != [] && FieldsLess(a.ids, b.ids) && FieldsLess(b.ids, c.ids) {
      FieldsLessTransitive(a.ids, b.ids, c.ids);
    }
  }

  // --- the comparison functions implement it --------------------------------------------------------

  lemma IdentifierDifferenceSign(a: Identifier, b: Identifier)
    requires Proper(a) && Proper(b) && |a.text| <= TWO_TO_31 && |b.text| <= TWO_TO_31
    ensures IdentifierDifference(a, b) < 0 <==> IdentifierLess(a, b)
    ensures IdentifierDifference(a, b) == 0 <==> a == b
  {
    NumericIsNumeral(a);
    NumericIsNumeral(b);
    if a.numeric && b.numeric {
      ShortSignKept(a.text, b.text);
      NumericDifferenceSign(a.text, b.text);
      if Natural(a.text) == Natural(b.text) {
        SameNumberSameNumeral(a.text, b.text);
      }
    }
  }

  lemma {:induction false} FieldsDifferenceSign(a: seq<Identifier>, b: seq<Identifier>, i: nat)
    requires AllProper(a) && AllProper(b) && AllShort(a) && AllShort(b) && i <= |a| && i <= |b|
    ensures FieldsDifference(a, b, i) < 0 <==> FieldsLess(a[i..], b[i..])
    ensures FieldsDifference(a, b, i) == 0 <==> a[i..] == b[i..]
    decreases |a| - i
  {
    if i < |a| && i < |b| {
      IdentifierDifferenceSign(a[i], b[i]);
      if a[i] == b[i] {
        FieldsDifferenceSign(a, b, i + 1);
        assert a[i..] == [a[i]] + a[i + 1..] && b[i..] == [b[i]] + b[i + 1..];
      }
    }
  }

  lemma PrereleaseDifferenceSign(a: Version, b: Version)
    requires Comparable(a) && Comparable(b)
    ensures PrereleaseDifference(a.ids, b.ids) < 0 <==> PrereleaseLess(a.ids, b.ids)
    ensures PrereleaseDifference(a.ids, b.ids) == 0 <==> a.ids == b.ids
  {
    FieldsDifferenceSign(a.ids, b.ids, 0);
    assert a.ids[0..] == a.ids && b.ids[0..] == b.ids;
  }

  /** The comparison has the sign that item 11 demands, in both directions. */
  predicate ComparesRight(a: Version, b: Version)
    requires IsVersion(a) && IsVersion(b)
  {
    && (VersionDifference(a, b, IncludePrerelease) < 0 <==> Precedes(a, b))
    && (VersionDifference(a, b, IncludePrerelease) > 0 <==> Precedes(b, a))
    && (VersionDifference(a, b, IncludePrerelease) == 0 <==> SamePrecedence(a, b))
  }

  lemma ComparesByPrecedence(a: Version, b: Version)
    requires Comparable(a) && Comparable(b)
    ensures ComparesRight(a, b)
  {
    PrereleaseDifferenceSign(a, b);
    PrecedesTrichotomy(a, b);
    hide PrereleaseDifference, PrereleaseLess;
  }

  predicate AtMost(a: Version, b: Version) {
    VersionDifference(a, b, IncludePrerelease) <= 0
  }

  /** The comparison is a total preorder on versions that were parsed. */
  lemma AtMostTransitive(a: Version, b: Version, c: Version)
    requires Comparable(a) && Comparable(b) && Comparable(c)
    requires AtMost(a, b) && AtMost(b, c)
    ensures AtMost(a, c)
    ensures VersionDifference(a, b, IncludePrerelease) < 0 || VersionDifference(b, c, IncludePrerelease) < 0 ==>
              VersionDifference(a, c, IncludePrerelease) < 0
  {
    ComparesByPrecedence(a, b);
    ComparesByPrecedence(b, c);
    ComparesByPrecedence(a, c);
    PrecedesTrichotomy(a, b);
    PrecedesTrichotomy(b, c);
    PrecedesTrichotomy(a, c);
    if Precedes(a, b) && Precedes(b, c) {
      PrecedesTransitive(a, b, c);
    }
  }

  lemma AtMostTotal(a: Version, b: Version)
    requires Comparable(a) && Comparable(b)
    ensures AtMost(a, b) || AtMost(b, a)
    ensures AtMost(a, b) && AtMost(b, a) <==> SamePrecedence(a, b)
  {
    ComparesByPrecedence(a, b);
    ComparesByPrecedence(b, a);
    PrecedesTrichotomy(a, b);
  }

  // --- parsed versions are comparable -----------------------------------------------------------------

  lemma {:induction false} JoinIsLonger(ids: seq<string>, prerelease: bool)
    requires AreIdentifiers(ids, prerelease)
    ensures 2 * |ids| <= |Join(ids)| + 1 && forall i :: 0 <= i < |ids| ==> |ids[i]| <= |Join(ids)|
  {
    if |ids| > 0 {
      assert IsIdentifier(ids[0], prerelease);
      JoinIsLonger(ids[1..], prerelease);
    }
  }

  /** The longest texts of which the comparison can be relied on. */
  const LONGEST_TEXT: nat := 0x8000_0006

  lemma ParsedIsVersion(text: string)
    requires Parsed(text).Ok?
    ensures IsVersion(Parsed(text).value)
    ensures |text| <= LONGEST_TEXT ==> Comparable(Parsed(text).value)
  {
    hide Parsed, Join;
    var v := AcceptedIsDenoted(text);
    JoinIsLonger(v.prerelease, true);
    forall i | 0 <= i < |v.prerelease|
      ensures IsPrereleaseIdentifier(v.prerelease[i])
    {
      assert IsIdentifier(v.prerelease[i], true);
    }
  }

  /** Both texts are versions, and the first one compares as the lower. */
  predicate ComparesLess(s: string, t: string) {
    && Parsed(s).Ok? && Parsed(t).Ok?
    && VersionDifference(Parsed(s).value, Parsed(t).value, IncludePrerelease) < 0
  }

  function PrereleaseOf100(ids: seq<string>): (s: string) {
    "1.0.0" + if ids == [] then "" else if |ids| == 1 then "-" + ids[0] else "-" + ids[0] + "." + ids[|ids| - 1]
  }

  lemma PrereleaseOf100Written(ids: seq<string>)
    requires |ids| <= 2
    ensures Semver("1", "0", "0", ids, []).Text() == PrereleaseOf100(ids)
  {
    var pre := Suffix('-', ids);
    if |ids| == 2 {
      assert ids[1..] == [ids[1]];
      assert Join(ids) == ids[0] + "." + ids[1];
      assert ['-'] + Join(ids) == "-" + ids[0] + "." + ids[1];
    }
    assert pre + "" == pre;
    assert "1" + "." + ("0" + "." + ("0" + pre)) == "1.0.0" + pre;
  }

  lemma PrereleaseOf100Read(ids: seq<string>)
    requires |ids| <= 2 && AreIdentifiers(ids, true)
    ensures var r := Parsed(PrereleaseOf100(ids));
            r.Ok? && r.value.ids == MakeIdentifiers(ids)
            && r.value.major == 1 && r.value.minor == 0 && r.value.patch == 0
  {
    hide Parsed, Semver.Text, PrereleaseOf100;
    var v := Semver("1", "0", "0", ids, []);
    PrereleaseOf100Written(ids);
    assert ""[..0] == "" && "1"[..0] == "" && "0"[..0] == "";
    assert Natural("") == 0 && Natural("1") == 1 && Natural("0") == 0;
    GrammarIsAccepted(v);
  }

  lemma PrereleasesCompare(a: seq<string>, b: seq<string>)
    requires |a| <= 2 && |b| <= 2 && AreIdentifiers(a, true) && AreIdentifiers(b, true)
    requires PrereleaseDifference(MakeIdentifiers(a), MakeIdentifiers(b)) < 0
    ensures ComparesLess(PrereleaseOf100(a), PrereleaseOf100(b))
  {
    hide Parsed, PrereleaseDifference, MakeIdentifiers, PrereleaseOf100;
    PrereleaseOf100Read(a);
    PrereleaseOf100Read(b);
  }

  /** Identifiers that begin with a letter, and those of digits, as the parser makes them. */
  lemma WordOrNumber(s: string)
    requires |s| > 0
    ensures IsLetter(s[0]) ==> MakeIdentifier(s) == Identifier(false, s)
    ensures AllDigits(s) ==> MakeIdentifier(s) == Identifier(true, s)
  {
    assert IsLetter(s[0]) ==> !forall i :: 0 <= i < |s| ==> !(s[i] == '-' || IsLetter(s[i]));
  }

  lemma FirstDecides(a: seq<string>, b: seq<string>)
    requires 0 < |a| <= 2 && 0 < |b| <= 2 && AreIdentifiers(a, true) && AreIdentifiers(b, true)
    requires IdentifierDifference(MakeIdentifier(a[0]), MakeIdentifier(b[0])) < 0
    ensures ComparesLess(PrereleaseOf100(a), PrereleaseOf100(b))
  {
    hide IdentifierDifference, MakeIdentifier;
    PrereleasesCompare(a, b);
  }

  lemma SecondDecides(a: seq<string>, b: seq<string>)
    requires 0 < |a| <= |b| == 2 && AreIdentifiers(a, true) && AreIdentifiers(b, true)
    requires a[0] == b[0] && IsLetter(a[0][0])
    requires |a| == 2 ==> IdentifierDifference(MakeIdentifier(a[1]), MakeIdentifier(b[1])) < 0
    ensures ComparesLess(PrereleaseOf100(a), PrereleaseOf100(b))
  {
    WordOrNumber(a[0]);
    assert IdentifierDifference(MakeIdentifier(a[0]), MakeIdentifier(b[0])) == 0;
    hide IdentifierDifference, MakeIdentifier;
    assert FieldsDifference(MakeIdentifiers(a), MakeIdentifiers(b), 1) < 0;
    PrereleasesCompare(a, b);
  }

  lemma ExampleTexts()
    ensures PrereleaseOf100(["alpha"]) == "1.0.0-alpha" && PrereleaseOf100(["alpha", "1"]) == "1.0.0-alpha.1"
    ensures PrereleaseOf100(["alpha", "beta"]) == "1.0.0-alpha.beta" && PrereleaseOf100(["beta"]) == "1.0.0-beta"
    ensures PrereleaseOf100(["beta", "2"]) == "1.0.0-beta.2" && PrereleaseOf100(["beta", "11"]) == "1.0.0-beta.11"
    ensures PrereleaseOf100(["rc", "1"]) == "1.0.0-rc.1" && PrereleaseOf100([]) == "1.0.0"
  {
    assert PrereleaseOf100(["alpha"]) == "1.0.0" + ("-" + "alpha") == "1.0.0-alpha";
  }

  /** The example of item 11: 1.0.0-alpha < 1.0.0-alpha.1 < ... < 1.0.0-rc.1 < 1.0.0. */
  lemma ExampleOfItem11()
    ensures ComparesLess("1.0.0-alpha", "1.0.0-alpha.1") && ComparesLess("1.0.0-alpha.1", "1.0.0-alpha.beta")
    ensures ComparesLess("1.0.0-alpha.beta", "1.0.0-beta") && ComparesLess("1.0.0-beta", "1.0.0-beta.2")
    ensures ComparesLess("1.0.0-beta.2", "1.0.0-beta.11") && ComparesLess("1.0.0-beta.11", "1.0.0-rc.1")
    ensures ComparesLess("1.0.0-rc.1", "1.0.0")
  {
    hide ComparesLess, MakeIdentifier, PrereleaseOf100;
    ExampleTexts();
    WordOrNumber("alpha");
    WordOrNumber("beta");
    WordOrNumber("rc");
    WordOrNumber("1");
    WordOrNumber("2");
    WordOrNumber("11");
    SecondDecides(["alpha"], ["alpha", "1"]);
    SecondDecides(["alpha", "1"], ["alpha", "beta"]);
    FirstDecides(["alpha", "beta"], ["beta"]);
    SecondDecides(["beta"], ["beta", "2"]);
    SecondDecides(["beta", "2"], ["beta", "11"]);
    FirstDecides(["beta", "11"], ["rc", "1"]);
    PrereleasesCompare(["rc", "1"], []);
  }

  /** If the two texts are versions, comparing the versions has the sign that item 11 demands. */
  predicate TextsCompareRight(s: string, t: string) {
    Parsed(s).Ok? && Parsed(t).Ok? ==>
      && IsVersion(Parsed(s).value) && IsVersion(Parsed(t).value)
      && ComparesRight(Parsed(s).value, Parsed(t).value)
  }

  /** One digit, and 2^31 digits more: the greater number compares as the smaller one. */
  lemma TooLongCompareWrong() returns (s: string, t: string)
    ensures |s| == 7 && |t| == LONGEST_TEXT + 1 && !TextsCompareRight(t, s)
  {
    hide Parsed;
    var long := seq(TWO_TO_31 + 1, _ => '1');
    var v, w := Semver("0", "0", "0", ["1"], []), Semver("0", "0", "0", [long], []);
    s, t := v.Text(), w.Text();
    GrammarIsAccepted(v);
    GrammarIsAccepted(w);
    LongerIsGreater("1", long);
    var a, b := Denoted(w), Denoted(v);
    assert a.ids == [Identifier(true, long)] && b.ids == [Identifier(true, "1")];
    assert FieldsDifference(a.ids, b.ids, 0) == NumericDifference(long, "1") < 0;
    if IsVersion(a) && IsVersion(b) {
      assert !FieldsLess(a.ids, b.ids);
    }
  }

  /** All texts of at most n characters compare right exactly if n is at most 2^31 + 6. */
  lemma ShortTextsCompareRight(n: nat)
    ensures (forall s, t :: |s| <= n && |t| <= n ==> TextsCompareRight(s, t)) <==> n <= LONGEST_TEXT
  {
    hide Parsed, Comparable, ComparesRight;
    if n <= LONGEST_TEXT {
      forall s, t | |s| <= n && |t| <= n
        ensures TextsCompareRight(s, t)
      {
        if Parsed(s).Ok? && Parsed(t).Ok? {
          ParsedIsVersion(s);
          ParsedIsVersion(t);
          ComparesByPrecedence(Parsed(s).value, Parsed(t).value);
        }
      }
    } else {
      var s, t := TooLongCompareWrong();
    }
  }

  /** Texts of the same precedence have the same numbers and the same prerelease tag. */
  lemma SamePrecedenceSameTag(s: string, t: string)
    requires Parsed(s).Ok? && Parsed(t).Ok? && SamePrecedence(Parsed(s).value, Parsed(t).value)
    ensures Parsed(s).value.tag == Parsed(t).value.tag
  {
    hide Parsed, Join, MakeIdentifiers, Semver.WellFormed, Semver.Text;
    var v := AcceptedIsDenoted(s);
    var w := AcceptedIsDenoted(t);
    IdentifiersDistinguish(v.prerelease, w.prerelease);
  }

  lemma IdentifiersDistinguish(a: seq<string>, b: seq<string>)
    requires MakeIdentifiers(a) == MakeIdentifiers(b)
    ensures a == b
  {
    assert |a| == |MakeIdentifiers(a)| == |b|;
    forall i | 0 <= i < |a|
      ensures a[i] == b[i]
    {
      assert MakeIdentifiers(a)[i].text == MakeIdentifiers(b)[i].text;
    }
  }
}
