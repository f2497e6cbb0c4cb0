/**
 * `parseFloat` of decimal text and the two-decimal writing of a price
 * (worker/index.js): digits, then optionally a point and more digits.
 */
module Decimal {
  import opened Text

  /** The number of digits at the start of `s`. */
  function DigitRun(s: string): (n: nat)
    ensures n <= |s|
    ensures AllDigits(s[..n])
  {
    if s != [] && IsDigit(s[0]) then
      var n := 1 + DigitRun(s[1..]);
      assert s[..n] == [s[0]] + s[1..][..n - 1];
      n
    else 0
  }

  lemma {:induction false} DigitRunStops(s: string)
    ensures DigitRun(s) < |s| ==> !IsDigit(s[DigitRun(s)])
  {
    if s != [] && IsDigit(s[0]) {
      DigitRunStops(s[1..]);
      assert DigitRun(s) < |s| ==> s[DigitRun(s)] == s[1..][DigitRun(s[1..])];
    }
  }

  lemma {:induction false} DigitRunUnique(s: string, n: nat)
    requires n <= |s| && AllDigits(s[..n]) && (n < |s| ==> !IsDigit(s[n]))
    ensures DigitRun(s) == n
  {
    if n == 0 {
      if s != [] {
        assert !IsDigit(s[0]);
      }
    } else {
      assert IsDigit(s[..n][0]);
      var t := s[1..];
      assert t[..n - 1] == s[..n][1..];
      DigitRunUnique(t, n - 1);
    }
  }

  lemma DigitRunOfPrefix(s: string, m: nat)
    requires DigitRun(s) <= m <= |s|
    ensures DigitRun(s[..m]) == DigitRun(s)
  {
    DigitRunStops(s);
    var n := DigitRun(s);
    var p := s[..m];
    assert p[..n] == s[..n];
    assert n < m ==> p[n] == s[n];
    DigitRunUnique(p, n);
  }

  /** Digits, then optionally `.` and more digits: the text `parseFloat` reads in full here. */
  predicate IsDecimalNumber(u: string)
  {
    var w := DigitRun(u);
    w >= 1 && (w == |u| || (u[w] == '.' && AllDigits(u[w + 1..])))
  }

  /** A decimal number is made of digits and a point. */
  lemma DecimalChars(u: string)
    requires IsDecimalNumber(u)
    ensures forall k :: 0 <= k < |u| ==> IsDigit(u[k]) || u[k] == '.'
  {
    var w := DigitRun(u);
    assert forall k :: 0 <= k < w ==> u[k] == u[..w][k];
    assert forall k :: w < k < |u| ==> u[k] == u[w + 1..][k - w - 1];
  }

  /** `parseFloat` of a decimal number, exactly. */
  function ParseDecimal(u: string): (v: real)
    requires IsDecimalNumber(u)
    ensures DigitsValue(u[..DigitRun(u)]) as real <= v < DigitsValue(u[..DigitRun(u)]) as real + 1.0
  {
    var w := DigitRun(u);
    if w == |u| then
      assert u[..w] == u;
      DigitsValue(u) as real
    else
      var frac := u[w + 1..];
      DigitsValueBound(frac);
      FractionBelowOne(DigitsValue(frac), Pow10(|frac|));
      DigitsValue(u[..w]) as real + DigitsValue(frac) as real / Pow10(|frac|) as real
  }

  lemma FractionBelowOne(a: nat, p: nat)
    requires a < p
    ensures 0.0 <= a as real / p as real < 1.0
  {
    var x := a as real / p as real;
    assert x * p as real == a as real;
  }

  /** Digits alone parse to their value. */
  lemma ParseWholeNumber(units: string)
    requires units != [] && AllDigits(units)
    ensures IsDecimalNumber(units) && ParseDecimal(units) == DigitsValue(units) as real
  {
    assert units[..|units|] == units;
    DigitRunUnique(units, |units|);
  }

  /** Digits, a point and digits parse to the whole digits plus the fraction digits over a power of ten. */
  lemma ParseDecimalOfParts(units: string, frac: string)
    requires units != [] && AllDigits(units) && AllDigits(frac)
    ensures IsDecimalNumber(units + "." + frac)
    ensures ParseDecimal(units + "." + frac) ==
      DigitsValue(units) as real + DigitsValue(frac) as real / Pow10(|frac|) as real
  {
    var u := units + "." + frac;
    var w := |units|;
    assert u[..w] == units && u[w] == '.' && u[w + 1..] == frac;
    DigitRunUnique(u, w);
    assert IsDecimalNumber(u);
    assert w != |u|;
  }

  /** The value of two digit strings written one after the other. */
  lemma {:induction false} DigitsValueAppend(a: string, b: string)
    requires AllDigits(a) && AllDigits(b)
    ensures AllDigits(a + b)
    ensures DigitsValue(a + b) == DigitsValue(a) * Pow10(|b|) + DigitsValue(b)
  {
    var ab := a + b;
    if b == [] {
      assert ab == a;
    } else {
      var front := b[..|b| - 1];
      assert ab[..|ab| - 1] == a + front;
      assert ab[|ab| - 1] == b[|b| - 1];
      DigitsValueAppend(a, front);
      var d := DigitValue(b[|b| - 1]);
      assert DigitsValue(ab) == DigitsValue(a + front) * 10 + d;
      assert DigitsValue(b) == DigitsValue(front) * 10 + d;
      ShiftStep(DigitsValue(a), Pow10(|front|), DigitsValue(front), d);
    }
  }

  lemma ShiftStep(x: nat, p: nat, y: nat, d: nat)
    ensures (x * p + y) * 10 + d == x * (10 * p) + (y * 10 + d)
  {
  }

  /**
   * A decimal number is the digits read without the point, over ten to the
   * number of digits after the point: `parseFloat("12.50")` is 1250 / 100.
   */
  lemma ParseDecimalScaled(units: string, frac: string)
    requires units != [] && AllDigits(units) && AllDigits(frac)
    ensures AllDigits(units + frac) && IsDecimalNumber(units + "." + frac)
    ensures ParseDecimal(units + "." + frac) == DigitsValue(units + frac) as real / Pow10(|frac|) as real
  {
    ParseDecimalOfParts(units, frac);
    DigitsValueAppend(units, frac);
    ScaledSum(DigitsValue(units), DigitsValue(frac), Pow10(|frac|), DigitsValue(units + frac));
  }

  lemma ScaledSum(a: nat, b: nat, p: nat, n: nat)
    requires p >= 1 && n == a * p + b
    ensures a as real + b as real / p as real == n as real / p as real
  {
    assert n as real == a as real * p as real + b as real;
  }

  /** The two digits after the point for `n` hundredths. */
  function CentsDigits(n: nat): string
    requires n < 100
  {
    [DigitChar(n / 10), DigitChar(n % 10)]
  }

  lemma TwoDigitsValue(n: nat)
    requires n < 100
    ensures |CentsDigits(n)| == 2 && AllDigits(CentsDigits(n))
    ensures DigitsValue(CentsDigits(n)) == n
  {
    var dd := CentsDigits(n);
    assert dd[..1] == [DigitChar(n / 10)] && dd[..1][..0] == [];
    assert DigitsValue(dd[..1]) == n / 10;
    assert DigitsValue(dd) == DigitsValue(dd[..1]) * 10 + n % 10;
  }

  /** `(cents / 100).toFixed(2)` for a non-negative amount: the units, a point and two digits. */
  function CentsText(cents: nat): string
  {
    NatToDigits(cents / 100) + "." + CentsDigits(cents % 100)
  }

  /** Reading the two-decimal text back gives the amount it was written from. */
  lemma CentsTextParses(cents: nat)
    ensures IsDecimalNumber(CentsText(cents))
    ensures ParseDecimal(CentsText(cents)) == cents as real / 100.0
  {
    var units := NatToDigits(cents / 100);
    var dd := CentsDigits(cents % 100);
    TwoDigitsValue(cents % 100);
    ParseDecimalOfParts(units, dd);
    assert Pow10(2) == 100;
    HundredthsSplit(cents);
  }

  lemma HundredthsSplit(cents: nat)
    ensures (cents / 100) as real + (cents % 100) as real / 100.0 == cents as real / 100.0
  {
    assert cents == 100 * (cents / 100) + cents % 100;
  }

  /** `parseFloat` of text with an optional leading minus sign. */
  predicate IsSignedDecimal(t: string)
  {
    t != [] && IsDecimalNumber(if t[0] == '-' then t[1..] else t)
  }

  function ParseSignedDecimal(t: string): real
    requires IsSignedDecimal(t)
  {
    if t[0] == '-' then -ParseDecimal(t[1..]) else ParseDecimal(t)
  }

  /** `x.toFixed(2)` for an amount of `cents` hundredths, negative ones with a minus sign. */
  function SignedCentsText(cents: int): string
  {
    if cents < 0 then "-" + CentsText(-cents) else CentsText(cents)
  }

  /** `parseFloat` of the text `toFixed(2)` wrote gives back the amount. */
  lemma SignedCentsTextParses(cents: int)
    ensures IsSignedDecimal(SignedCentsText(cents))
    ensures ParseSignedDecimal(SignedCentsText(cents)) == cents as real / 100.0
  {
    var c: nat := if cents < 0 then -cents else cents;
    CentsTextParses(c);
    var u := CentsText(c);
    assert IsDigit(u[0]);
    if cents < 0 {
      assert ("-" + u)[1..] == u;
    }
  }
}
