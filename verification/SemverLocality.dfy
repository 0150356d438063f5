/** Reading a version looks at its own tokens only, wherever they are in a list. */
module SemverLocality {
  import opened Wrappers
  import opened SemverLexer
  import opened SemverParser

  /** Tokens that no part of a version starts with or goes on with. */
  predicate Stops(t: Token) {
    t.kind == Eol || t.kind == Space
  }

  predicate SameToken(a: Token, b: Token) {
    (a.kind == b.kind && a.value == b.value) || (Stops(a) && Stops(b))
  }

  predicate SameAt(s: seq<Token>, i: nat, t: seq<Token>, j: nat, k: nat)
    requires i + k < |s| && j + k < |t|
  {
    SameToken(s[i + k], t[j + k])
  }

  /** From i and from j on the lists have n tokens that are the same, and then both stop. */
  ghost predicate Agree(s: seq<Token>, i: nat, t: seq<Token>, j: nat, n: nat) {
    && Complete(s) && Complete(t) && i + n < |s| && j + n < |t|
    && (forall k: nat :: k <= n ==> SameAt(s, i, t, j, k))
    && Stops(s[i + n]) && Stops(t[j + n])
  }

  /** Both steps fail, or both read the same and are equally far from i and from j. */
  ghost predicate SameStep<T>(a: Step<T>, i: nat, b: Step<T>, j: nat, n: nat) {
    match (a, b)
    case (Ok(x), Ok(y)) => x.0 == y.0 && i <= x.1 <= i + n && y.1 == x.1 - i + j
    case (Err(_), Err(_)) => true
    case _ => false
  }

  lemma AgreeFrom(s: seq<Token>, i: nat, t: seq<Token>, j: nat, n: nat, m: nat)
    requires Agree(s, i, t, j, n) && m <= n
    ensures Agree(s, i + m, t, j + m, n - m)
  {
    var a, b := i + m, j + m;
    forall k: nat | k <= n - m
      ensures SameAt(s, a, t, b, k)
    {
      assert SameAt(s, i, t, j, m + k);
    }
  }

  /** What the lists have in the same place is of the same kind, unless both stop; at the end both do. */
  lemma AgreeAt(s: seq<Token>, i: nat, t: seq<Token>, j: nat, n: nat, m: nat)
    requires Agree(s, i, t, j, n) && m <= n
    ensures At(s, i + m) && At(t, j + m)
    ensures (s[i + m].kind == t[j + m].kind && s[i + m].value == t[j + m].value) || (Stops(s[i + m]) && Stops(t[j + m]))
    ensures m == n ==> Stops(s[i + m])
  {
    assert SameAt(s, i, t, j, m);
  }

  lemma {:induction false} DigitsEndLocal(s: seq<Token>, i: nat, t: seq<Token>, j: nat, n: nat)
    requires Agree(s, i, t, j, n)
    ensures DigitsEnd(s, i) <= i + n && DigitsEnd(t, j) == DigitsEnd(s, i) - i + j
    decreases n
  {
    assert SameAt(s, i, t, j, 0);
    if s[i].kind == Digit {
      AgreeFrom(s, i, t, j, n, 1);
      DigitsEndLocal(s, i + 1, t, j + 1, n - 1);
    }
  }

  lemma {:induction false} AlphanumericEndLocal(s: seq<Token>, i: nat, t: seq<Token>, j: nat, n: nat)
    requires Agree(s, i, t, j, n)
    ensures AlphanumericEnd(s, i) <= i + n && AlphanumericEnd(t, j) == AlphanumericEnd(s, i) - i + j
    decreases n
  {
    assert SameAt(s, i, t, j, 0);
    if s[i].IsAlphanumeric() {
      AgreeFrom(s, i, t, j, n, 1);
      AlphanumericEndLocal(s, i + 1, t, j + 1, n - 1);
    }
  }

  lemma SpellLocal(s: seq<Token>, i: nat, t: seq<Token>, j: nat, n: nat, m: nat)
    requires Agree(s, i, t, j, n) && m <= n
    requires forall k :: i <= k < i + m ==> s[k].IsAlphanumeric()
    requires forall k :: j <= k < j + m ==> t[k].IsAlphanumeric()
    ensures Spell(s, i, i + m) == Spell(t, j, j + m)
  {
    var x, y := Spell(s, i, i + m), Spell(t, j, j + m);
    forall k: nat | k < m
      ensures x[k] == y[k]
    {
      assert SameAt(s, i, t, j, k) && s[i + k].IsAlphanumeric();
    }
  }

  lemma NumberLocal(s: seq<Token>, i: nat, t: seq<Token>, j: nat, n: nat)
    requires Agree(s, i, t, j, n)
    ensures SameStep(NumberAt(s, i), i, NumberAt(t, j), j, n)
  {
    hide Spell;
    assert SameAt(s, i, t, j, 0);
    if s[i].kind == Digit {
      DigitsEndLocal(s, i, t, j, n);
      SpellLocal(s, i, t, j, n, DigitsEnd(s, i) - i);
    }
  }

  lemma IdentifierLocal(s: seq<Token>, i: nat, t: seq<Token>, j: nat, n: nat, prerelease: bool)
    requires Agree(s, i, t, j, n)
    ensures SameStep(IdentifierAt(s, i, prerelease), i, IdentifierAt(t, j, prerelease), j, n)
  {
    hide Spell, DigitsEnd, AlphanumericEnd, Complete, Agree;
    AgreeAt(s, i, t, j, n, 0);
    RunStarts(s, i);
    AlphanumericEndLocal(s, i, t, j, n);
    SpellLocal(s, i, t, j, n, AlphanumericEnd(s, i) - i);
    if s[i].IsAlphanumeric() {
      AgreeFrom(s, i, t, j, n, 1);
      AlphanumericEndLocal(s, i + 1, t, j + 1, n - 1);
      DigitsEndLocal(s, i + 1, t, j + 1, n - 1);
    }
  }

  lemma {:induction false} IdentifiersLocal(s: seq<Token>, i: nat, t: seq<Token>, j: nat, n: nat, prerelease: bool)
    requires Agree(s, i, t, j, n)
    ensures SameStep(IdentifiersAt(s, i, prerelease), i, IdentifiersAt(t, j, prerelease), j, n)
    decreases n
  {
    hide IdentifierAt, Complete, Agree;
    AgreeAt(s, i, t, j, n, 0);
    IdentifierLocal(s, i, t, j, n, prerelease);
    var one := IdentifierAt(s, i, prerelease);
    if one.Ok? {
      var m := one.value.1 - i;
      AgreeAt(s, i, t, j, n, m);
      if s[i + m].kind == Dot {
        AgreeFrom(s, i, t, j, n, m + 1);
        IdentifiersLocal(s, i + m + 1, t, j + m + 1, n - m - 1, prerelease);
      }
    }
  }

  lemma NumberDotLocal(s: seq<Token>, i: nat, t: seq<Token>, j: nat, n: nat)
    requires Agree(s, i, t, j, n)
    ensures SameStep(NumberDotAt(s, i), i, NumberDotAt(t, j), j, n)
  {
    hide NumberAt;
    NumberLocal(s, i, t, j, n);
    if NumberAt(s, i).Ok? {
      var m := NumberAt(s, i).value.1 - i;
      assert SameAt(s, i, t, j, m);
    }
  }

  lemma OptionalLocal(s: seq<Token>, i: nat, t: seq<Token>, j: nat, n: nat, kind: TokenType, prerelease: bool)
    requires Agree(s, i, t, j, n) && (kind == Hyphen || kind == Plus)
    ensures SameStep(OptionalAt(s, i, kind, prerelease), i, OptionalAt(t, j, kind, prerelease), j, n)
  {
    hide IdentifiersAt;
    assert SameAt(s, i, t, j, 0);
    if s[i].kind == kind {
      AgreeFrom(s, i, t, j, n, 1);
      IdentifiersLocal(s, i + 1, t, j + 1, n - 1, prerelease);
    }
  }

  /** A version is read alike from two lists that have the same tokens up to where both stop. */
  lemma VersionLocal(s: seq<Token>, i: nat, t: seq<Token>, j: nat, n: nat)
    requires Agree(s, i, t, j, n)
    ensures SameStep(VersionAt(s, i), i, VersionAt(t, j), j, n)
  {
    hide NumberDotAt, NumberAt, OptionalAt, Complete;
    NumberDotLocal(s, i, t, j, n);
    var major := NumberDotAt(s, i);
    if major.Ok? {
      var m1 := major.value.1 - i;
      AgreeFrom(s, i, t, j, n, m1);
      NumberDotLocal(s, i + m1, t, j + m1, n - m1);
      var minor := NumberDotAt(s, i + m1);
      if minor.Ok? {
        var m2 := minor.value.1 - i;
        AgreeFrom(s, i, t, j, n, m2);
        NumberLocal(s, i + m2, t, j + m2, n - m2);
        var patch := NumberAt(s, i + m2);
        if patch.Ok? {
          TailLocal(s, i, t, j, n, patch.value.1 - i);
        }
      }
    }
  }

  lemma TailLocal(s: seq<Token>, i: nat, t: seq<Token>, j: nat, n: nat, m3: nat)
    requires Agree(s, i, t, j, n) && m3 <= n
    ensures SameStep(OptionalAt(s, i + m3, Hyphen, true), i + m3, OptionalAt(t, j + m3, Hyphen, true), j + m3, n - m3)
    ensures OptionalAt(s, i + m3, Hyphen, true).Ok? ==>
              var m4 := OptionalAt(s, i + m3, Hyphen, true).value.1 - i;
              m4 <= n && SameStep(OptionalAt(s, i + m4, Plus, false), i + m4, OptionalAt(t, j + m4, Plus, false),
                  j + m4, n - m4)
  {
    hide OptionalAt, IdentifiersAt, SameAt;
    AgreeFrom(s, i, t, j, n, m3);
    OptionalLocal(s, i + m3, t, j + m3, n - m3, Hyphen, true);
    if OptionalAt(s, i + m3, Hyphen, true).Ok? {
      var m4 := OptionalAt(s, i + m3, Hyphen, true).value.1 - i;
      AgreeFrom(s, i, t, j, n, m4);
      OptionalLocal(s, i + m4, t, j + m4, n - m4, Plus, false);
    }
  }
}
