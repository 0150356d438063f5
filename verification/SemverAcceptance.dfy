/** The parser accepts exactly the texts of the grammar whose numbers it can hold. */
module SemverAcceptance {
  import opened Blocks
  import opened Wrappers
  import opened Decimals
  import opened SemverLexer
  import opened SemverGrammar
  import opened SemverParser

  /** Texts of which every character is one token of a version. */
  predicate IsPlain(text: string) {
    forall k :: 0 <= k < |text| ==> IsPlainChar(text[k])
  }

  predicate IsPlainChar(c: char) {
    IsIdentifierChar(c) || c == '.' || c == '+'
  }

  function PlainToken(text: string, k: nat): (t: Token)
    requires k < |text| && IsPlainChar(text[k])
    ensures t.WellTyped() && t.kind != Eol && (t.IsAlphanumeric() <==> IsIdentifierChar(text[k]))
    ensures t.IsAlphanumeric() ==> CharOf(t) == text[k]
    ensures t.kind == Digit <==> IsDigit(text[k])
    ensures (t.kind == Dot <==> text[k] == '.') && (t.kind == Plus <==> text[k] == '+')
            && (t.kind == Hyphen <==> text[k] == '-')
  {
    var c := text[k];
    if c == '.' then Token(Dot, NoValue, k)
    else if c == '-' then Token(Hyphen, NoValue, k)
    else if c == '+' then Token(Plus, NoValue, k)
    else if IsDigit(c) then Token(Digit, DigitOf(DigitValue(c)), k)
    else Token(Letter, LetterOf(c), k)
  }

  function PlainTokens(text: string): (tokens: seq<Token>)
    requires IsPlain(text)
    ensures |tokens| == |text| + 1 && Complete(tokens)
    ensures forall k :: 0 <= k < |text| ==> tokens[k] == PlainToken(text, k)
    ensures tokens[|text|] == Token(Eol, NoValue, |text|)
  {
    seq(|text|, k requires 0 <= k < |text| => PlainToken(text, k)) + [Token(Eol, NoValue, |text|)]
  }

  lemma ScansPlainChar(text: string, pos: nat)
    requires pos < |text| && IsPlainChar(text[pos])
    ensures ScanOne(text, pos) == Ok((PlainToken(text, pos), pos + 1))
  {
  }

  lemma {:induction false} ScansPlain(text: string, pos: nat)
    requires IsPlain(text) && pos <= |text|
    ensures ScanFrom(text, pos) == Ok(PlainTokens(text)[pos..])
    decreases |text| - pos
  {
    hide ScanOne, ScanFrom, PlainToken, Complete;
    var tokens := PlainTokens(text);
    SuffixFrom(tokens, pos);
    if pos < |text| {
      ScansPlain(text, pos + 1);
      ScansPlainChar(text, pos);
      ScanStep(text, pos);
      assert tokens[pos] == PlainToken(text, pos);
    } else {
      ScansEnd(text);
      assert tokens[pos + 1..] == [];
    }
  }

  lemma SuffixFrom(tokens: seq<Token>, i: nat)
    requires i < |tokens|
    ensures tokens[i..] == [tokens[i]] + tokens[i + 1..]
  {
  }

  predicate IsPlainKind(kind: TokenType) {
    kind == Digit || kind == Letter || kind == Hyphen || kind == Dot || kind == Plus
  }

  /** Other characters would have left other tokens. */
  lemma {:induction false} OnlyPlainScansToPlain(text: string, pos: nat)
    requires pos <= |text| && ScanFrom(text, pos).Ok?
    requires forall k :: 0 <= k < |ScanFrom(text, pos).value| - 1 ==> IsPlainKind(ScanFrom(text, pos).value[k].kind)
    ensures forall k :: pos <= k < |text| ==> IsPlainChar(text[k])
    decreases |text| - pos
  {
    hide ScanOne, ScanFrom, IsPlainChar;
    if pos < |text| {
      ScanStep(text, pos);
      var one := ScanOne(text, pos).value;
      var rest := ScanFrom(text, one.1).value;
      var tokens := ScanFrom(text, pos).value;
      assert tokens[0] == one.0 && |tokens| == 1 + |rest| && |rest| > 0;
      OnePlain(text, pos);
      forall k | 0 <= k < |rest| - 1
        ensures IsPlainKind(rest[k].kind)
      {
        assert tokens[k + 1] == rest[k];
      }
      OnlyPlainScansToPlain(text, one.1);
    }
  }

  lemma OnePlain(text: string, pos: nat)
    requires pos < |text| && ScanOne(text, pos).Ok? && IsPlainKind(ScanOne(text, pos).value.0.kind)
    ensures IsPlainChar(text[pos]) && ScanOne(text, pos).value.1 == pos + 1
  {
  }

  // --- what belongs to the grammar is read back -------------------------------------------------------

  predicate Fits(s: string)
    requires AllDigits(s)
  {
    Wrapped(s) <= MAX_INT
  }

  /** The part of the text at i is s, and what follows it, if anything does, is not such a character. */
  predicate Holds(text: string, i: nat, s: string) {
    i + |s| <= |text| && text[i..i + |s|] == s
  }

  lemma SpellsPlain(text: string, i: nat, s: string)
    requires IsPlain(text) && Holds(text, i, s) && forall k :: 0 <= k < |s| ==> IsIdentifierChar(s[k])
    ensures forall k :: i <= k < i + |s| ==> PlainTokens(text)[k].IsAlphanumeric() && text[k] == s[k - i]
    ensures Spell(PlainTokens(text), i, i + |s|) == s
  {
    assert forall k :: 0 <= k < |s| ==> text[i + k] == s[k];
  }

  /** A part of the text that has digits only is a run of digit tokens. */
  lemma DigitTokens(text: string, i: nat, s: string)
    requires IsPlain(text) && Holds(text, i, s)
    ensures AllDigits(s) <==> forall k :: i <= k < i + |s| ==> PlainTokens(text)[k].kind == Digit
  {
    var tokens := PlainTokens(text);
    assert forall k :: 0 <= k < |s| ==> text[i + k] == s[k];
    forall k | i <= k < i + |s|
      ensures text[k] == s[k - i]
    {
    }
    if forall k :: i <= k < i + |s| ==> tokens[k].kind == Digit {
      forall k | 0 <= k < |s|
        ensures IsDigit(s[k])
      {
        assert tokens[i + k].kind == Digit;
      }
    }
  }

  lemma NumberRead(text: string, i: nat, s: string)
    requires IsPlain(text) && Holds(text, i, s) && IsNumeral(s)
    requires i + |s| < |text| ==> !IsDigit(text[i + |s|])
    ensures var r := NumberAt(PlainTokens(text), i);
            if Fits(s) then r == Ok((Wrapped(s), i + |s|)) else r == Err(Failure(i + |s| - 1, ResultOutOfRange))
  {
    hide Spell;
    var tokens := PlainTokens(text);
    SpellsPlain(text, i, s);
    DigitTokens(text, i, s);
    assert text[i] == s[0];
    if s[0] == '0' {
      assert s == "0" && s[..0] == [] && Natural(s) == 0;
    } else {
      DigitRunEnds(tokens, i, i + |s|);
    }
  }

  lemma IdentifierRead(text: string, i: nat, s: string, prerelease: bool)
    requires IsPlain(text) && Holds(text, i, s) && IsIdentifier(s, prerelease)
    requires i + |s| < |text| ==> !IsIdentifierChar(text[i + |s|])
    ensures IdentifierAt(PlainTokens(text), i, prerelease) == Ok((s, i + |s|))
  {
    hide Spell;
    var tokens := PlainTokens(text);
    SpellsPlain(text, i, s);
    AlphanumericRunEnds(tokens, i, i + |s|);
    if LeadingZero(tokens, i) {
      AlphanumericRunEnds(tokens, i + 1, i + |s|);
      DigitTokens(text, i, s);
      assert text[i] == s[0] == '0';
    }
  }

  lemma HoldsParts(text: string, i: nat, a: string, b: string)
    requires Holds(text, i, a + b)
    ensures Holds(text, i, a) && Holds(text, i + |a|, b)
    ensures |b| > 0 ==> text[i + |a|] == b[0]
  {
    var all := text[i..i + |a + b|];
    assert all[..|a|] == a && all[|a|..] == b;
  }

  lemma OneIdentifier(tokens: seq<Token>, i: nat, prerelease: bool)
    requires At(tokens, i)
    ensures var one := IdentifierAt(tokens, i, prerelease);
            && (one.Err? ==> IdentifiersAt(tokens, i, prerelease) == Err(one.error))
            && (one.Ok? ==>
                  var id, j := one.value.0, one.value.1;
                  IdentifiersAt(tokens, i, prerelease)
                  == if tokens[j].kind != Dot then Ok(([id], j))
                      else Prepend([id], IdentifiersAt(tokens, j + 1, prerelease)))
  {
  }

  lemma {:induction false} IdentifiersRead(text: string, i: nat, ids: seq<string>, prerelease: bool)
    requires IsPlain(text) && |ids| > 0 && Holds(text, i, Join(ids)) && AreIdentifiers(ids, prerelease)
    requires i + |Join(ids)| < |text| ==> text[i + |Join(ids)|] == '+'
    ensures IdentifiersAt(PlainTokens(text), i, prerelease) == Ok((ids, i + |Join(ids)|))
    decreases |ids|
  {
    hide IdentifierAt, IdentifiersAt, Holds, IsIdentifier;
    var id, end := ids[0], i + |ids[0]|;
    if |ids| == 1 {
      IdentifierRead(text, i, id, prerelease);
      OneIdentifier(PlainTokens(text), i, prerelease);
      assert ids == [id];
    } else {
      var rest := Join(ids[1..]);
      Associative(id, ".", rest);
      HoldsParts(text, i, id, "." + rest);
      HoldsParts(text, end, ".", rest);
      IdentifierRead(text, i, id, prerelease);
      OneIdentifier(PlainTokens(text), i, prerelease);
      IdentifiersRead(text, end + 1, ids[1..], prerelease);
      assert ids == [id] + ids[1..];
      assert PlainTokens(text)[end].kind == Dot;
    }
  }

  lemma NumberDotRead(text: string, i: nat, s: string)
    requires IsPlain(text) && Holds(text, i, s) && Holds(text, i + |s|, ".") && IsNumeral(s)
    ensures var r := NumberDotAt(PlainTokens(text), i);
            if Fits(s) then r == Ok((Wrapped(s), i + |s| + 1)) else r == Err(Failure(i + |s| - 1, ResultOutOfRange))
  {
    hide NumberAt, Holds, IsNumeral, Wrapped, PlainToken;
    HoldsFirst(text, i + |s|, ".");
    NumberRead(text, i, s);
    assert PlainTokens(text)[i + |s|] == PlainToken(text, i + |s|);
  }

  /** The character of a separator token. */
  function Separator(kind: TokenType): char {
    if kind == Hyphen then '-' else '+'
  }

  lemma OptionalRead(text: string, i: nat, kind: TokenType, ids: seq<string>, prerelease: bool)
    requires kind == Hyphen || kind == Plus
    requires IsPlain(text) && Holds(text, i, Suffix(Separator(kind), ids)) && AreIdentifiers(ids, prerelease)
    requires var end := i + |Suffix(Separator(kind), ids)|;
             end < |text| ==> text[end] == '+' != Separator(kind)
    ensures OptionalAt(PlainTokens(text), i, kind, prerelease) == Ok((ids, i + |Suffix(Separator(kind), ids)|))
  {
    hide IdentifiersAt, Join, IsIdentifier, Holds, PlainToken, AreIdentifiers;
    var tokens := PlainTokens(text);
    if ids != [] {
      var separator := [Separator(kind)];
      HoldsParts(text, i, separator, Join(ids));
      HoldsFirst(text, i, separator);
      IdentifiersRead(text, i + 1, ids, prerelease);
      assert tokens[i] == PlainToken(text, i);
    } else {
      HoldsWithin(text, i, "");
      assert i < |text| ==> tokens[i] == PlainToken(text, i);
    }
  }

  lemma HoldsFirst(text: string, i: nat, s: string)
    requires Holds(text, i, s) && s != ""
    ensures i + |s| <= |text| && text[i] == s[0]
  {
    assert text[i..i + |s|][0] == text[i];
  }

  lemma HoldsWithin(text: string, i: nat, s: string)
    requires Holds(text, i, s)
    ensures i + |s| <= |text|
  {
  }

  lemma {:induction false} JoinIsPlain(ids: seq<string>, prerelease: bool)
    requires AreIdentifiers(ids, prerelease)
    ensures IsPlain(Join(ids))
  {
    if |ids| > 0 {
      assert IsIdentifier(ids[0], prerelease);
      JoinIsPlain(ids[1..], prerelease);
    }
  }

  lemma TextIsPlain(v: Semver)
    requires v.WellFormed()
    ensures IsPlain(v.Text())
  {
    JoinIsPlain(v.prerelease, true);
    JoinIsPlain(v.build, false);
  }

  predicate NumbersFit(v: Semver)
    requires v.WellFormed()
  {
    Fits(v.major) && Fits(v.minor) && Fits(v.patch)
  }

  /** The error at the last digit of the first number that does not fit. */
  function TooLarge(v: Semver): Failure
    requires v.WellFormed()
  {
    var at := if !Fits(v.major) then |v.major| - 1
              else if !Fits(v.minor) then |v.major| + |v.minor|
              else AtPrerelease(v) - 1;
    Failure(at, ResultOutOfRange)
  }

  /** The version that a text of the grammar denotes, its numbers read into 64 bits. */
  function Denoted(v: Semver): Version
    requires v.WellFormed()
  {
    Version(Wrapped(v.major), Wrapped(v.minor), Wrapped(v.patch), Join(v.prerelease), Join(v.build),
            MakeIdentifiers(v.prerelease))
  }

  function AtPatch(v: Semver): nat {
    |v.major| + |v.minor| + 2
  }

  function AtPrerelease(v: Semver): nat {
    AtPatch(v) + |v.patch|
  }

  function AtBuild(v: Semver): nat {
    AtPrerelease(v) + |Suffix('-', v.prerelease)|
  }

  /** Where the parts are in the text, and what comes after them. */
  lemma Layout(v: Semver)
    ensures var text := v.Text();
            && Holds(text, 0, v.major) && Holds(text, |v.major|, ".")
            && Holds(text, |v.major| + 1, v.minor) && Holds(text, |v.major| + 1 + |v.minor|, ".")
            && Holds(text, AtPatch(v), v.patch)
            && Holds(text, AtPrerelease(v), Suffix('-', v.prerelease))
            && Holds(text, AtBuild(v), Suffix('+', v.build))
            && AtBuild(v) + |Suffix('+', v.build)| == |text|
            && (AtPrerelease(v) < |text| ==> text[AtPrerelease(v)] == '-' || text[AtPrerelease(v)] == '+')
            && (AtBuild(v) < |text| ==> text[AtBuild(v)] == '+')
  {
    var text, pre, build := v.Text(), Suffix('-', v.prerelease), Suffix('+', v.build);
    PartsInText(text, v.major, v.minor, v.patch, pre, build);
    TextLength(v);
    hide Holds, Suffix, Semver.Text;
    SuffixesHeld(text, AtPrerelease(v), v.prerelease, v.build);
  }

  lemma PartsInText(text: string, major: string, minor: string, patch: string, pre: string, build: string)
    requires text == major + "." + (minor + "." + (patch + (pre + build)))
    ensures Holds(text, 0, major) && Holds(text, |major|, ".")
    ensures Holds(text, |major| + 1, minor) && Holds(text, |major| + 1 + |minor|, ".")
    ensures Holds(text, |major| + |minor| + 2, patch) && Holds(text, |major| + |minor| + 2 + |patch|, pre + build)
  {
    hide Holds;
    var fromPatch := patch + (pre + build);
    var fromMinor := minor + "." + fromPatch;
    assert text == major + "." + fromMinor;
    Whole(text);
    PartsHeld(text, 0, major, fromMinor);
    assert Holds(text, |major| + 1, minor + "." + fromPatch);
    PartsHeld(text, |major| + 1, minor, fromPatch);
    assert Holds(text, |major| + 1 + |minor| + 1, patch + (pre + build));
    HoldsParts(text, |major| + |minor| + 2, patch, pre + build);
  }

  lemma TextLength(v: Semver)
    ensures |v.Text()| == AtBuild(v) + |Suffix('+', v.build)|
  {
    hide Suffix;
  }

  lemma SuffixBegins(separator: char, ids: seq<string>)
    ensures Suffix(separator, ids) != "" ==> Suffix(separator, ids)[0] == separator
  {
    hide Join;
  }

  lemma SuffixesHeld(text: string, i: nat, prerelease: seq<string>, build: seq<string>)
    requires Holds(text, i, Suffix('-', prerelease) + Suffix('+', build))
    requires i + |Suffix('-', prerelease)| + |Suffix('+', build)| == |text|
    ensures var j := i + |Suffix('-', prerelease)|;
            && Holds(text, i, Suffix('-', prerelease)) && Holds(text, j, Suffix('+', build))
            && (i < |text| ==> text[i] == '-' || text[i] == '+')
            && (j < |text| ==> text[j] == '+')
  {
    SuffixBegins('-', prerelease);
    SuffixBegins('+', build);
    hide Holds, Suffix;
    var a, b := Suffix('-', prerelease), Suffix('+', build);
    HoldsParts(text, i, a, b);
    if a != "" {
      HoldsFirst(text, i, a);
    }
    if b != "" {
      HoldsFirst(text, i + |a|, b);
    }
  }

  lemma VersionRead(v: Semver)
    requires v.WellFormed() && IsPlain(v.Text())
    ensures var r := VersionAt(PlainTokens(v.Text()), 0);
            if NumbersFit(v) then r == Ok((Denoted(v), |v.Text()|)) else r == Err(TooLarge(v))
  {
    hide NumberDotAt, NumberAt, OptionalAt, Holds, IsNumeral, AreIdentifiers, Suffix, Semver.Text, IsPlain, Join;
    var text := v.Text();
    Layout(v);
    NumberDotRead(text, 0, v.major);
    NumberDotRead(text, |v.major| + 1, v.minor);
    NumberRead(text, AtPatch(v), v.patch);
    OptionalRead(text, AtPrerelease(v), Hyphen, v.prerelease, true);
    OptionalRead(text, AtBuild(v), Plus, v.build, false);
  }

  lemma Whole(text: string)
    ensures Holds(text, 0, text)
  {
    assert text[0..] == text;
  }

  lemma PartsHeld(text: string, i: nat, s: string, rest: string)
    requires Holds(text, i, s + "." + rest)
    ensures Holds(text, i, s) && Holds(text, i + |s|, ".") && Holds(text, i + |s| + 1, rest)
  {
    Associative(s, ".", rest);
    HoldsParts(text, i, s, "." + rest);
    HoldsParts(text, i + |s|, ".", rest);
  }

  /**
   * Every text of the grammar is accepted, as what it denotes, exactly when its numbers fit; otherwise the error is
   * at the end of the first number that does not.
   */
  lemma GrammarIsAccepted(v: Semver)
    requires v.WellFormed()
    ensures Parsed(v.Text()) == if NumbersFit(v) then Ok(Denoted(v)) else Err(TooLarge(v))
  {
    hide VersionAt, ScanFrom, Semver.Text;
    TextIsPlain(v);
    ScansPlain(v.Text(), 0);
    assert PlainTokens(v.Text())[0..] == PlainTokens(v.Text());
    VersionRead(v);
  }

  // --- what is read belongs to the grammar -----------------------------------------------------------

  /** The tokens from i up to j are those of a plain text. */
  ghost predicate PlainKinds(tokens: seq<Token>, i: nat, j: nat) {
    i <= j <= |tokens| && forall k :: i <= k < j ==> IsPlainKind(tokens[k].kind)
  }

  lemma NumberIsPlain(tokens: seq<Token>, i: nat)
    requires At(tokens, i)
    ensures NumberAt(tokens, i).Ok? ==> PlainKinds(tokens, i, NumberAt(tokens, i).value.1)
  {
  }

  lemma {:induction false} IdentifiersArePlain(tokens: seq<Token>, i: nat, prerelease: bool)
    requires At(tokens, i)
    ensures IdentifiersAt(tokens, i, prerelease).Ok? ==>
            PlainKinds(tokens, i, IdentifiersAt(tokens, i, prerelease).value.1)
    decreases |tokens| - i
  {
    hide Spell, LeadingZero;
    var one := IdentifierAt(tokens, i, prerelease);
    if one.Ok? && tokens[one.value.1].kind == Dot {
      IdentifiersArePlain(tokens, one.value.1 + 1, prerelease);
    }
  }

  lemma VersionIsPlain(tokens: seq<Token>, i: nat)
    requires At(tokens, i)
    ensures VersionAt(tokens, i).Ok? ==> PlainKinds(tokens, i, VersionAt(tokens, i).value.1)
  {
    hide NumberAt, IdentifiersAt;
    if VersionAt(tokens, i).Ok? {
      var i1 := NumberDotAt(tokens, i).value.1;
      var i2 := NumberDotAt(tokens, i1).value.1;
      var i3 := NumberAt(tokens, i2).value.1;
      var i4 := OptionalAt(tokens, i3, Hyphen, true).value.1;
      NumberIsPlain(tokens, i);
      NumberIsPlain(tokens, i1);
      NumberIsPlain(tokens, i2);
      if tokens[i3].kind == Hyphen {
        IdentifiersArePlain(tokens, i3 + 1, true);
      }
      if tokens[i4].kind == Plus {
        IdentifiersArePlain(tokens, i4 + 1, false);
      }
    }
  }

  lemma AcceptedIsPlain(text: string)
    requires Parsed(text).Ok?
    ensures IsPlain(text) && ScanFrom(text, 0) == Ok(PlainTokens(text))
  {
    hide VersionAt, PlainKinds;
    var tokens := ScanFrom(text, 0).value;
    VersionIsPlain(tokens, 0);
    PlainUpToEol(tokens, VersionAt(tokens, 0).value.1);
    OnlyPlainScansToPlain(text, 0);
    ScansPlain(text, 0);
    assert PlainTokens(text)[0..] == PlainTokens(text);
  }

  lemma PlainUpToEol(tokens: seq<Token>, j: nat)
    requires At(tokens, j) && tokens[j].kind == Eol && PlainKinds(tokens, 0, j)
    ensures forall k :: 0 <= k < |tokens| - 1 ==> IsPlainKind(tokens[k].kind)
  {
  }

  lemma SpelledIsText(text: string, i: nat, j: nat)
    requires IsPlain(text) && i <= j <= |text|
    requires forall k :: i <= k < j ==> PlainTokens(text)[k].IsAlphanumeric()
    ensures Spell(PlainTokens(text), i, j) == text[i..j]
    ensures forall k :: 0 <= k < j - i ==> IsIdentifierChar(text[i..j][k])
  {
  }

  lemma NumberInGrammar(text: string, i: nat)
    requires IsPlain(text) && i <= |text| && NumberAt(PlainTokens(text), i).Ok?
    ensures var j := NumberAt(PlainTokens(text), i).value.1;
            j <= |text| && IsNumeral(text[i..j])
  {
    hide RunValue;
    var tokens := PlainTokens(text);
    var j := NumberAt(tokens, i).value.1;
    if tokens[i].value.digit == 0 {
      assert text[i..j] == "0";
    } else {
      assert tokens[j - 1].kind == Digit;
      DigitTokens(text, i, text[i..j]);
      assert text[i..j][0] == text[i] != '0';
    }
  }

  lemma IdentifierInGrammar(text: string, i: nat, prerelease: bool)
    requires IsPlain(text) && i <= |text| && IdentifierAt(PlainTokens(text), i, prerelease).Ok?
    ensures var s, j := IdentifierAt(PlainTokens(text), i, prerelease).value.0,
            IdentifierAt(PlainTokens(text), i, prerelease).value.1;
            j <= |text| && s == text[i..j] && IsIdentifier(s, prerelease)
  {
    var tokens := PlainTokens(text);
    var j := AlphanumericEnd(tokens, i);
    assert tokens[j - 1].IsAlphanumeric();
    SpelledIsText(text, i, j);
    hide Spell, PlainToken, IsIdentifierChar;
    if prerelease && AllDigits(text[i..j]) && j - i > 1 {
      NoLeadingZero(text, i, j);
    }
  }

  /** A run of several digits that has no leading zero is a numeral. */
  lemma NoLeadingZero(text: string, i: nat, j: nat)
    requires IsPlain(text) && i + 1 < j <= |text| && AllDigits(text[i..j]) && j == AlphanumericEnd(PlainTokens(text), i)
    requires !LeadingZero(PlainTokens(text), i)
    ensures IsNumeral(text[i..j])
  {
    var tokens, s := PlainTokens(text), text[i..j];
    DigitTokens(text, i, s);
    AlphanumericRunEnds(tokens, i + 1, j);
    DigitRunEnds(tokens, i + 1, j);
    assert s[0] == text[i];
  }

  lemma {:induction false} IdentifiersInGrammar(text: string, i: nat, prerelease: bool)
    requires IsPlain(text) && i <= |text| && IdentifiersAt(PlainTokens(text), i, prerelease).Ok?
    ensures var ids, j := IdentifiersAt(PlainTokens(text), i, prerelease).value.0,
            IdentifiersAt(PlainTokens(text), i, prerelease).value.1;
            j <= |text| && text[i..j] == Join(ids) && AreIdentifiers(ids, prerelease)
    decreases |text| - i
  {
    hide IdentifierAt, IdentifiersAt, IsIdentifier;
    var tokens := PlainTokens(text);
    OneIdentifier(tokens, i, prerelease);
    IdentifierInGrammar(text, i, prerelease);
    var one := IdentifierAt(tokens, i, prerelease).value;
    if tokens[one.1].kind == Dot {
      IdentifiersInGrammar(text, one.1 + 1, prerelease);
      var rest := IdentifiersAt(tokens, one.1 + 1, prerelease).value;
      assert text[i..rest.1] == one.0 + "." + Join(rest.0);
      assert ([one.0] + rest.0)[1..] == rest.0;
    }
  }

  lemma OptionalInGrammar(text: string, i: nat, kind: TokenType, prerelease: bool)
    requires kind == Hyphen || kind == Plus
    requires IsPlain(text) && i <= |text| && OptionalAt(PlainTokens(text), i, kind, prerelease).Ok?
    ensures var ids, j := OptionalAt(PlainTokens(text), i, kind, prerelease).value.0,
            OptionalAt(PlainTokens(text), i, kind, prerelease).value.1;
            i <= j <= |text| && text[i..j] == Suffix(Separator(kind), ids) && AreIdentifiers(ids, prerelease)
  {
    hide IdentifiersAt, Join, PlainToken, IsIdentifier;
    var tokens := PlainTokens(text);
    if tokens[i].kind == kind {
      assert tokens[i] == PlainToken(text, i) && text[i] == Separator(kind);
      IdentifiersInGrammar(text, i + 1, prerelease);
      FirstOff(text, i, IdentifiersAt(tokens, i + 1, prerelease).value.1);
    }
  }

  lemma FirstOff(text: string, i: nat, j: nat)
    requires i < j <= |text|
    ensures text[i..j] == [text[i]] + text[i + 1..j]
  {
  }

  lemma NumberDotInGrammar(text: string, i: nat)
    requires IsPlain(text) && i <= |text| && NumberDotAt(PlainTokens(text), i).Ok?
    ensures var j := NumberDotAt(PlainTokens(text), i).value.1;
            i < j <= |text| && IsNumeral(text[i..j - 1]) && text[i..j] == text[i..j - 1] + "."
  {
    hide NumberAt, IsNumeral;
    NumberInGrammar(text, i);
  }

  /** The parts that an accepted text is made of. */
  lemma PartsOf(text: string) returns (v: Semver)
    requires IsPlain(text) && VersionAt(PlainTokens(text), 0).Ok? && VersionAt(PlainTokens(text), 0).value.1 == |text|
    ensures v.WellFormed() && v.Text() == text
  {
    hide NumberDotAt, NumberAt, OptionalAt, IsPlain, IsNumeral, AreIdentifiers, Suffix;
    var tokens := PlainTokens(text);
    var i1 := NumberDotAt(tokens, 0).value.1;
    NumberDotInGrammar(text, 0);
    var i2 := NumberDotAt(tokens, i1).value.1;
    NumberDotInGrammar(text, i1);
    var i3 := NumberAt(tokens, i2).value.1;
    NumberInGrammar(text, i2);
    var i4 := OptionalAt(tokens, i3, Hyphen, true).value.1;
    OptionalInGrammar(text, i3, Hyphen, true);
    OptionalInGrammar(text, i4, Plus, false);
    v := Semver(text[..i1 - 1], text[i1..i2 - 1], text[i2..i3], OptionalAt(tokens, i3, Hyphen, true).value.0,
                OptionalAt(tokens, i4, Plus, false).value.0);
    CutInFive(text, i1, i2, i3, i4);
  }

  lemma CutInFive(text: string, i1: nat, i2: nat, i3: nat, i4: nat)
    requires 0 < i1 < i2 <= i3 <= i4 <= |text|
    requires text[0..i1] == text[0..i1 - 1] + "." && text[i1..i2] == text[i1..i2 - 1] + "."
    ensures text == text[..i1 - 1] + "." + (text[i1..i2 - 1] + "." + (text[i2..i3] + (text[i3..i4] + text[i4..|text|])))
  {
    assert text[i2..i3] + (text[i3..i4] + text[i4..|text|]) == text[i2..];
    assert text == text[0..i1] + (text[i1..i2] + text[i2..]);
  }

  /** An accepted text belongs to the grammar, its numbers fit, and the result is what it denotes. */
  lemma AcceptedIsDenoted(text: string) returns (v: Semver)
    requires Parsed(text).Ok?
    ensures v.WellFormed() && v.Text() == text && NumbersFit(v) && Parsed(text) == Ok(Denoted(v))
  {
    hide VersionAt, ScanFrom, Semver.Text, NumbersFit, Semver.WellFormed;
    AcceptedIsPlain(text);
    var tokens := PlainTokens(text);
    assert tokens[VersionAt(tokens, 0).value.1].kind == Eol;
    v := PartsOf(text);
    GrammarIsAccepted(v);
  }

  /**
   * The texts that are accepted are those of the grammar whose numbers, read into 64 bits, are at most
   * the largest int.
   */
  lemma AcceptsExactlyTheGrammar(text: string)
    ensures Parsed(text).Ok? <==> exists v: Semver :: v.WellFormed() && v.Text() == text && NumbersFit(v)
  {
    if Parsed(text).Ok? {
      var v := AcceptedIsDenoted(text);
    }
    if v: Semver :| v.WellFormed() && v.Text() == text && NumbersFit(v) {
      GrammarIsAccepted(v);
    }
  }

  /** For numerals below 2^64, fitting means what it should; beyond, some that are far too large fit. */
  lemma FitsBelow2To64(s: string)
    requires AllDigits(s)
    ensures Natural(s) < TWO_TO_64 ==> Wrapped(s) == Natural(s) && (Fits(s) <==> Natural(s) <= MAX_INT)
  {
  }

  /** Numbers of any size, and nothing else: accepted exactly when their remainders are small enough. */
  lemma NumbersAccepted(a: nat, b: nat, c: nat)
    ensures var text := Decimal(a) + "." + (Decimal(b) + "." + Decimal(c));
            var v, w, x := a % TWO_TO_64, b % TWO_TO_64, c % TWO_TO_64;
            if v <= MAX_INT && w <= MAX_INT && x <= MAX_INT then Parsed(text) == Ok(Version(v, w, x, "", "", []))
            else Parsed(text).Err?
  {
    hide Parsed;
    var v := Semver(Decimal(a), Decimal(b), Decimal(c), [], []);
    NaturalOfDecimal(a);
    NaturalOfDecimal(b);
    NaturalOfDecimal(c);
    assert Decimal(c) + ("" + "") == Decimal(c);
    assert v.Text() == Decimal(a) + "." + (Decimal(b) + "." + Decimal(c));
    GrammarIsAccepted(v);
  }

  lemma NumberAccepted(n: nat)
    ensures var text := Decimal(n) + ".0.0";
            if n % TWO_TO_64 <= MAX_INT then Parsed(text) == Ok(Version(n % TWO_TO_64, 0, 0, "", "", []))
                else Parsed(text).Err?
  {
    hide Parsed;
    NumbersAccepted(n, 0, 0);
    assert Decimal(0) == "0";
    assert Decimal(n) + "." + ("0" + "." + "0") == Decimal(n) + ".0.0";
  }

  /** 2^64 is read as 0: the text 18446744073709551616.0.0 is accepted, and so is not what was read. */
  lemma TooLargeIsAccepted()
    ensures Parsed(Decimal(TWO_TO_64) + ".0.0") == Ok(Version(0, 0, 0, "", "", []))
    ensures Natural(Decimal(TWO_TO_64)) > MAX_INT
  {
    hide Parsed;
    NumberAccepted(TWO_TO_64);
    NaturalOfDecimal(TWO_TO_64);
  }
}
