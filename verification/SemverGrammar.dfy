/** The version texts of Semantic Versioning 2.0.0, items 2, 9 and 10, independently of any parser. */
module SemverGrammar {
  import opened Decimals
  import opened SemverLexer

  predicate IsIdentifierChar(c: char) {
    IsDigit(c) || IsLetter(c) || c == '-'
  }

  /** The characters of the grammar of Semantic Versioning 2.0.0: letters, digits and the hyphen. */
  const CAPITALS: string := "ABCDEFGHIJKLMNOPQRSTUVWXYZ"
  const SMALL_LETTERS: string := "abcdefghijklmnopqrstuvwxyz"
  const DIGITS: string := "0123456789"

  lemma LetterIsListed(c: char)
    ensures IsLetter(c) <==> c in CAPITALS || c in SMALL_LETTERS
  {
    CapitalIsListed(c);
    SmallLetterIsListed(c);
    hide CAPITALS, SMALL_LETTERS;
  }

  lemma CapitalIsListed(c: char)
    ensures 'A' <= c <= 'Z' <==> c in CAPITALS
  {
    if 'A' <= c <= 'Z' {
      assert CAPITALS[c as int - 'A' as int] == c;
    }
  }

  lemma SmallLetterIsListed(c: char)
    ensures 'a' <= c <= 'z' <==> c in SMALL_LETTERS
  {
    if 'a' <= c <= 'z' {
      assert SMALL_LETTERS[c as int - 'a' as int] == c;
    }
  }

  /** The value of a digit is its place among the digits. */
  lemma DigitIsListed(c: char)
    ensures IsDigit(c) <==> c in DIGITS
    ensures IsDigit(c) ==> DIGITS[DigitValue(c)] == c
  {
    if IsDigit(c) {
      assert DIGITS[DigitValue(c)] == c;
    }
  }

  /** Item 10: nonempty, letters, digits and hyphens only. */
  predicate IsBuildIdentifier(s: string) {
    |s| > 0 && forall i :: 0 <= i < |s| ==> IsIdentifierChar(s[i])
  }

  /** Item 9: as item 10, and without leading zeros if numeric. */
  predicate IsPrereleaseIdentifier(s: string) {
    IsBuildIdentifier(s) && (AllDigits(s) ==> IsNumeral(s))
  }

  predicate IsIdentifier(s: string, prerelease: bool) {
    if prerelease then IsPrereleaseIdentifier(s) else IsBuildIdentifier(s)
  }

  predicate AreIdentifiers(ids: seq<string>, prerelease: bool) {
    forall i :: 0 <= i < |ids| ==> IsIdentifier(ids[i], prerelease)
  }

  /** The identifiers with dots between them. */
  function Join(ids: seq<string>): (s: string) {
    if ids == [] then "" else if |ids| == 1 then ids[0] else ids[0] + "." + Join(ids[1..])
  }

  /** Identifiers behind a separator, or nothing if there are none. */
  function Suffix(separator: char, ids: seq<string>): string {
    if ids == [] then "" else [separator] + Join(ids)
  }

  /** The parts of a version text. */
  datatype Semver = Semver(major: string, minor: string, patch: string, prerelease: seq<string>, build: seq<string>) {
    predicate WellFormed() {
      && IsNumeral(major) && IsNumeral(minor) && IsNumeral(patch)
      && AreIdentifiers(prerelease, true) && AreIdentifiers(build, false)
    }

    function Text(): string {
      major + "." + (minor + "." + (patch + (Suffix('-', prerelease) + Suffix('+', build))))
    }
  }
}
