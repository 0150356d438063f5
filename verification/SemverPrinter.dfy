/** Versions as texts, written from the back of a buffer of exactly the right size. */
module SemverPrinter {
  import opened Blocks
  import opened Wrappers
  import opened Decimals
  import opened SemverLexer
  import opened SemverGrammar
  import opened SemverParser
  import opened SemverAcceptance

  /** A version with the numbers that unsigned decimal digits can express. */
  predicate Printable(v: Version) {
    v.major >= 0 && v.minor >= 0 && v.patch >= 0
  }

  /** The text of a version. */
  function Printed(v: Version): string
    requires Printable(v)
  {
    Decimal(v.major)
        + ("." + (Decimal(v.minor) + ("." + (Decimal(v.patch) + (Marked('-', v.tag) + Marked('+', v.build))))))
  }

  function Marked(mark: char, s: string): string {
    if s == "" then "" else [mark] + s
  }

  /** The number of digits of a number. */
  method DigitCount(n: nat) returns (digits: nat)
    ensures digits == |Decimal(n)|
  {
    var rest, more := n, true;
    digits := 0;
    while more
      invariant |Decimal(n)| == digits + if more then |Decimal(rest)| else 0
      decreases rest, more
    {
      digits := digits + 1;
      more := rest / 10 != 0;
      rest := rest / 10;
    }
  }

  /** The number of characters of the text of a version. */
  method Length(v: Version) returns (length: nat)
    requires Printable(v)
    ensures length == |Printed(v)|
  {
    var major := DigitCount(v.major);
    var minor := DigitCount(v.minor);
    var patch := DigitCount(v.patch);
    length := major + minor + patch + 2 + (if v.tag == "" then 0 else |v.tag| + 1)
        + (if v.build == "" then 0 else |v.build| + 1);
  }

  /** Writes the digits of a number in front of what has been written. */
  method WriteNumber(buf: array<char>, dest: nat, n: nat) returns (it: nat)
    requires |Decimal(n)| <= dest <= buf.Length
    modifies buf
    ensures it == dest - |Decimal(n)| && buf[it..] == Decimal(n) + old(buf[dest..])
  {
    ghost var behind := buf[dest..];
    var rest, more := n, true;
    it := dest;
    while more
      invariant it <= dest && (more ==> |Decimal(rest)| <= it)
      invariant (if more then Decimal(rest) else []) + buf[it..] == Decimal(n) + behind
      decreases rest, more
    {
      ghost var written, before := buf[it..], if rest >= 10 then Decimal(rest / 10) else [];
      Associative(before, [DigitChar(rest % 10)], written);
      it := it - 1;
      buf[it] := DigitChar(rest % 10);
      assert buf[it..] == [DigitChar(rest % 10)] + written;
      more := rest / 10 != 0;
      rest := rest / 10;
    }
    assert [] + buf[it..] == buf[it..];
  }

  /** Writes a character in front of what has been written. */
  method WriteChar(buf: array<char>, dest: nat, c: char) returns (it: nat)
    requires 1 <= dest <= buf.Length
    modifies buf
    ensures it == dest - 1 && buf[it..] == [c] + old(buf[dest..])
  {
    it := dest - 1;
    buf[it] := c;
  }

  /** Copies a text, from its last character to its first, in front of what has been written. */
  method CopyBackward(src: string, buf: array<char>, dest: nat) returns (it: nat)
    requires |src| <= dest <= buf.Length
    modifies buf
    ensures it == dest - |src| && buf[it..] == src + old(buf[dest..])
  {
    ghost var behind := buf[dest..];
    var i := |src|;
    it := dest;
    while i != 0
      invariant 0 <= i <= |src| && it == dest - (|src| - i)
      invariant buf[it..] == src[i..] + behind
    {
      ghost var written := buf[it..];
      i, it := i - 1, it - 1;
      buf[it] := src[i];
      assert buf[it..] == [src[i]] + written;
      Associative([src[i]], src[i + 1..], behind);
    }
  }

  /** A mark and a text behind it, unless the text is empty. */
  method WriteMarked(buf: array<char>, dest: nat, mark: char, s: string) returns (it: nat)
    requires |Marked(mark, s)| <= dest <= buf.Length
    modifies buf
    ensures it == dest - |Marked(mark, s)| && buf[it..] == Marked(mark, s) + old(buf[dest..])
  {
    it := dest;
    if s != "" {
      ghost var behind := buf[dest..];
      it := CopyBackward(s, buf, it);
      it := WriteChar(buf, it, mark);
      Associative([mark], s, behind);
    }
  }

  /** The text of a version: all characters of the buffer are written, the last one at its start. */
  method ToString(v: Version) returns (result: string)
    requires Printable(v)
    ensures result == Printed(v)
  {
    hide Decimal, Marked;
    var length := Length(v);
    var buf := new char[length];
    var it := length;
    it := WriteMarked(buf, it, '+', v.build);
    it := WriteMarked(buf, it, '-', v.tag);
    it := WriteNumber(buf, it, v.patch);
    it := WriteChar(buf, it, '.');
    it := WriteNumber(buf, it, v.minor);
    it := WriteChar(buf, it, '.');
    it := WriteNumber(buf, it, v.major);
    assert it == 0;
    result := buf[..];
  }

  // --- round trips ----------------------------------------------------------------------------------

  /** The numbers of a text are below 2^64. */
  predicate NothingWraps(v: Semver)
    requires v.WellFormed()
  {
    Natural(v.major) < TWO_TO_64 && Natural(v.minor) < TWO_TO_64 && Natural(v.patch) < TWO_TO_64
  }

  lemma JoinedIsNotEmpty(ids: seq<string>, prerelease: bool)
    requires AreIdentifiers(ids, prerelease)
    ensures Join(ids) == "" <==> ids == []
  {
    if ids != [] {
      assert IsIdentifier(ids[0], prerelease);
    }
  }

  /** The parts of the text that is printed for what a text of the grammar denotes. */
  function Reprinted(v: Semver): Semver
    requires v.WellFormed()
  {
    v.(major := Decimal(Wrapped(v.major)), minor := Decimal(Wrapped(v.minor)), patch := Decimal(Wrapped(v.patch)))
  }

  lemma PrintedIsReprinted(v: Semver)
    requires v.WellFormed()
    ensures Reprinted(v).WellFormed() && Printed(Denoted(v)) == Reprinted(v).Text()
  {
    hide Decimal, Join, Wrapped;
    NaturalOfDecimal(Wrapped(v.major));
    NaturalOfDecimal(Wrapped(v.minor));
    NaturalOfDecimal(Wrapped(v.patch));
    JoinedIsNotEmpty(v.prerelease, true);
    JoinedIsNotEmpty(v.build, false);
    var w := Reprinted(v);
    var suffixes := Suffix('-', v.prerelease) + Suffix('+', v.build);
    assert Marked('-', Join(v.prerelease)) == Suffix('-', v.prerelease);
    assert Marked('+', Join(v.build)) == Suffix('+', v.build);
    var fromPatch := w.patch + suffixes;
    Associative(w.minor, ".", fromPatch);
    Associative(w.major, ".", w.minor + "." + fromPatch);
  }

  /** What was parsed can be printed, and parsing the text again gives the same version. */
  lemma PrintThenParse(text: string)
    requires Parsed(text).Ok?
    ensures Printable(Parsed(text).value) && Parsed(Printed(Parsed(text).value)) == Parsed(text)
  {
    hide Parsed, Printed, Semver.Text, Decimal, Natural, Join, MakeIdentifiers;
    var v := AcceptedIsDenoted(text);
    PrintedIsReprinted(v);
    SameDenoted(v);
    GrammarIsAccepted(Reprinted(v));
  }

  lemma SameDenoted(v: Semver)
    requires v.WellFormed() && NumbersFit(v)
    ensures Reprinted(v).WellFormed() && NumbersFit(Reprinted(v)) && Denoted(Reprinted(v)) == Denoted(v)
  {
    hide Decimal, Natural, Join, MakeIdentifiers;
    NaturalOfDecimal(Wrapped(v.major));
    NaturalOfDecimal(Wrapped(v.minor));
    NaturalOfDecimal(Wrapped(v.patch));
  }

  /** A number that wraps is printed with fewer digits, any other with those it was read from. */
  lemma DigitsReprinted(s: string)
    requires IsNumeral(s) && Fits(s)
    ensures Natural(s) < TWO_TO_64 ==> Decimal(Wrapped(s)) == s
    ensures Natural(s) >= TWO_TO_64 ==> |Decimal(Wrapped(s))| < |s|
  {
    hide Decimal, Natural;
    if Natural(s) < TWO_TO_64 {
      DecimalOfNatural(s);
    } else {
      var t := Decimal(Wrapped(s));
      NaturalOfDecimal(Wrapped(s));
      if |s| <= |t| {
        if |s| < |t| {
          LongerIsGreater(s, t);
        }
        NaturalBelow(s);
        if t != "0" {
          NumeralAtLeast(t);
        }
      }
    }
  }

  /** Printing what was parsed gives the text back exactly when none of its numbers wraps. */
  lemma ParseThenPrint(v: Semver)
    requires v.WellFormed() && NumbersFit(v)
    ensures Parsed(v.Text()) == Ok(Denoted(v))
    ensures Printed(Denoted(v)) == v.Text() <==> NothingWraps(v)
  {
    hide Parsed, Decimal, Natural, Fits, Wrapped, Printed, IsNumeral, Suffix, AreIdentifiers;
    GrammarIsAccepted(v);
    PrintedIsReprinted(v);
    DigitsReprinted(v.major);
    DigitsReprinted(v.minor);
    DigitsReprinted(v.patch);
  }
}
