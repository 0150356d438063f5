/** Decimal numerals, the naturals they denote, and powers of ten. */
module Decimals {
  predicate IsDigit(c: char) {
    '0' <= c <= '9'
  }

  predicate AllDigits(s: string) {
    forall i :: 0 <= i < |s| ==> IsDigit(s[i])
  }

  /** A numeral without leading zeros. */
  predicate IsNumeral(s: string) {
    |s| > 0 && AllDigits(s) && (|s| > 1 ==> s[0] != '0')
  }

  function DigitValue(c: char): (d: nat)
    requires IsDigit(c)
    ensures d <= 9
  {
    c as int - '0' as int
  }

  function DigitChar(d: nat): (c: char)
    requires d <= 9
    ensures IsDigit(c) && DigitValue(c) == d
  {
    ('0' as int + d) as char
  }

  /** The natural number that a row of digits denotes. */
  function Natural(s: string): (n: nat)
    requires AllDigits(s)
  {
    if s == [] then 0 else 10 * Natural(s[..|s| - 1]) + DigitValue(s[|s| - 1])
  }

  /** The numeral of a natural number. */
  function Decimal(n: nat): (s: string)
    ensures |s| > 0 && AllDigits(s)
  {
    if n < 10 then [DigitChar(n)] else Decimal(n / 10) + [DigitChar(n % 10)]
  }

  function TenTo(k: nat): (p: nat)
    ensures p > 0
  {
    if k == 0 then 1 else 10 * TenTo(k - 1)
  }

  lemma {:induction false} TenToMonotone(j: nat, k: nat)
    requires j <= k
    ensures TenTo(j) <= TenTo(k)
  {
    if j < k {
      TenToMonotone(j, k - 1);
    }
  }

  /** A row of k digits denotes a number below the k-th power of ten. */
  lemma {:induction false} NaturalBelow(s: string)
    requires AllDigits(s)
    ensures Natural(s) < TenTo(|s|)
  {
    if s != [] {
      NaturalBelow(s[..|s| - 1]);
    }
  }

  /** The first digit alone accounts for that many times the power of ten of the rest. */
  lemma {:induction false} NaturalSplit(s: string)
    requires |s| > 0 && AllDigits(s)
    ensures Natural(s) == DigitValue(s[0]) * TenTo(|s| - 1) + Natural(s[1..])
  {
    if |s| == 1 {
      assert s[..0] == [] && s[1..] == [];
    } else {
      var front := s[..|s| - 1];
      NaturalSplit(front);
      assert front[1..] == s[1..][..|s| - 2];
      assert Natural(s) == 10 * Natural(front) + DigitValue(s[|s| - 1]);
      assert Natural(s[1..]) == 10 * Natural(front[1..]) + DigitValue(s[|s| - 1]);
      hide Natural;
      TenTimes(DigitValue(s[0]), TenTo(|s| - 2));
    }
  }

  lemma TenTimes(d: nat, p: nat)
    ensures 10 * (d * p) == d * (10 * p)
  {
  }

  lemma MoreTimes(d: int, e: int, p: nat)
    requires d < e
    ensures d * p + p <= e * p
  {
    var k := e - d - 1;
    assert e * p == d * p + p + k * p;
  }

  /** A numeral of k digits denotes at least the power of ten before, unless it is zero. */
  lemma NumeralAtLeast(s: string)
    requires IsNumeral(s) && s != "0"
    ensures Natural(s) >= TenTo(|s| - 1)
  {
    NaturalSplit(s);
    MoreTimes(0, DigitValue(s[0]), TenTo(|s| - 1));
  }

  /** Of two numerals the longer denotes the greater number. */
  lemma LongerIsGreater(a: string, b: string)
    requires IsNumeral(a) && IsNumeral(b) && |a| < |b|
    ensures Natural(a) < Natural(b)
  {
    NaturalBelow(a);
    NumeralAtLeast(b);
    TenToMonotone(|a|, |b| - 1);
  }

  /** Of two rows of the same length the first different digit decides. */
  lemma {:induction false} FirstDigitDecides(a: string, b: string)
    requires |a| == |b| > 0 && AllDigits(a) && AllDigits(b)
    ensures a[0] < b[0] ==> Natural(a) < Natural(b)
    ensures a[0] == b[0] ==> Natural(a) - Natural(b) == Natural(a[1..]) - Natural(b[1..])
  {
    NaturalSplit(a);
    NaturalSplit(b);
    NaturalBelow(a[1..]);
    if a[0] < b[0] {
      MoreTimes(DigitValue(a[0]), DigitValue(b[0]), TenTo(|a| - 1));
    }
  }

  lemma {:induction false} SameNumberSameNumeral(a: string, b: string)
    requires IsNumeral(a) && IsNumeral(b) && Natural(a) == Natural(b)
    ensures a == b
  {
    if |a| < |b| {
      LongerIsGreater(a, b);
    } else if |b| < |a| {
      LongerIsGreater(b, a);
    } else {
      SameNumberSameDigits(a, b);
    }
  }

  lemma {:induction false} SameNumberSameDigits(a: string, b: string)
    requires AllDigits(a) && AllDigits(b) && |a| == |b| && Natural(a) == Natural(b)
    ensures a == b
  {
    if a != [] {
      var k := |a| - 1;
      assert Natural(a) == 10 * Natural(a[..k]) + DigitValue(a[k])
             && Natural(b) == 10 * Natural(b[..k]) + DigitValue(b[k]);
      hide Natural;
      SameNumberSameDigits(a[..k], b[..k]);
      assert a == a[..k] + [a[k]] && b == b[..k] + [b[k]];
    }
  }

  lemma {:induction false} NaturalOfDecimal(n: nat)
    ensures Natural(Decimal(n)) == n && IsNumeral(Decimal(n)) && (n > 0 ==> Decimal(n)[0] != '0')
  {
    if n >= 10 {
      NaturalOfDecimal(n / 10);
      var s := Decimal(n);
      assert s[..|s| - 1] == Decimal(n / 10);
    }
  }

  lemma DecimalOfNatural(s: string)
    requires IsNumeral(s)
    ensures Decimal(Natural(s)) == s
  {
    NaturalOfDecimal(Natural(s));
    SameNumberSameNumeral(s, Decimal(Natural(s)));
  }
}
