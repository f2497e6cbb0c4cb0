/**
 * `parseSearchResults` of worker/index.js: the price statistics the analyzer
 * extracts from a marketplace search page. Dollar amounts are read as whole
 * cents, which is exact because the pattern admits exactly two decimals.
 */
module MarketStats {
  import opened Wrappers
  import opened Text
  import opened ArrayOps
  import opened Decimal

  /** Only the first 50 matches of the price pattern are read. */
  const MaxDollarTokens: nat := 50
  /** Accepted prices lie strictly between 0 and 100000 (in cents: 10000000). */
  const MaxPriceCents: int := 10000000
  /** `total_results` is estimated as 20 times the sample size. */
  const ResultsPerSample: nat := 20

  predicate IsDigitOrComma(c: char)
  {
    IsDigit(c) || c == ','
  }

  // ---------------------------------------------------------------------------
  // The pattern /\$[\d,]+(?:\.\d{2})?/g

  /** Where the run of digits and commas of a match ends: before `.` and two digits, or at its end. */
  function RunEnd(t: string): nat
  {
    if |t| >= 5 && t[|t| - 3] == '.' then |t| - 3 else |t|
  }

  /** A string the pattern matches in full: `$`, a non-empty run of digits and commas, then optionally `.` and two digits. */
  predicate IsDollarToken(t: string)
  {
    && |t| >= 2 && t[0] == '$'
    && (forall k :: 1 <= k < RunEnd(t) ==> IsDigitOrComma(t[k]))
    && (RunEnd(t) < |t| ==> IsDigit(t[|t| - 2]) && IsDigit(t[|t| - 1]))
  }

  /** The length of the run of digits and commas at the start of `s`. */
  function RunLength(s: string): (n: nat)
    ensures n <= |s|
    ensures forall k :: 0 <= k < n ==> IsDigitOrComma(s[k])
    ensures n < |s| ==> !IsDigitOrComma(s[n])
  {
    if s != [] && IsDigitOrComma(s[0]) then 1 + RunLength(s[1..]) else 0
  }

  /** The length of the (greedy) match of the pattern at the start of `s`; 0 when it does not match there. */
  function DollarMatchLength(s: string): (n: nat)
    ensures n <= |s|
    ensures n > 0 ==> IsDollarToken(s[..n])
  {
    if s == [] || s[0] != '$' then 0
    else
      var run := RunLength(s[1..]);
      if run == 0 then 0
      else
        var body := 1 + run;
        if body + 3 <= |s| && s[body] == '.' && IsDigit(s[body + 1]) && IsDigit(s[body + 2]) then body + 3
        else body
  }

  function DollarSigns(s: string): nat
  {
    multiset(s)['$']
  }

  /** `html.match(priceRegex) || []`: the successive leftmost matches, each search resuming after the previous match. */
  function DollarTokens(s: string): (ts: seq<string>)
    ensures forall t :: t in ts ==> IsDollarToken(t)
    ensures |ts| <= DollarSigns(s)
    decreases |s|
  {
    if s == [] then []
    else
      var n := DollarMatchLength(s);
      assert s == s[..if n == 0 then 1 else n] + s[if n == 0 then 1 else n..];
      if n == 0 then DollarTokens(s[1..])
      else
        assert s[..n][0] == '$';
        [s[..n]] + DollarTokens(s[n..])
  }

  // ---------------------------------------------------------------------------
  // parseFloat(p.replace(/[$,]/g, ''))

  /** `replace(/[$,]/g, '')`. */
  function DropSeparators(s: string): (r: string)
    ensures forall k :: 0 <= k < |r| ==> r[k] != '$' && r[k] != ','
  {
    if s == [] then []
    else (if s[0] == '$' || s[0] == ',' then [] else [s[0]]) + DropSeparators(s[1..])
  }

  lemma {:induction false} DropSeparatorsAppend(a: string, b: string)
    ensures DropSeparators(a + b) == DropSeparators(a) + DropSeparators(b)
  {
    if a == [] {
      assert a + b == b;
    } else {
      assert (a + b)[0] == a[0] && (a + b)[1..] == a[1..] + b;
      DropSeparatorsAppend(a[1..], b);
    }
  }

  lemma {:induction false} DropSeparatorsOfRun(s: string)
    requires forall k :: 0 <= k < |s| ==> IsDigitOrComma(s[k])
    ensures AllDigits(DropSeparators(s))
    ensures HasDigit(DropSeparators(s)) <==> HasDigit(s)
  {
    if s != [] {
      DropSeparatorsOfRun(s[1..]);
      var r := DropSeparators(s);
      var tail := DropSeparators(s[1..]);
      if HasDigit(s) && !HasDigit(s[1..]) {
        assert IsDigit(s[0]) && r[0] == s[0];
      }
      if HasDigit(s[1..]) {
        var k :| 0 <= k < |s[1..]| && IsDigit(s[1..][k]);
        assert IsDigit(s[k + 1]);
      }
      if HasDigit(tail) {
        var k :| 0 <= k < |tail| && IsDigit(tail[k]);
        assert r[|r| - |tail| + k] == tail[k];
      }
    }
  }

  lemma {:induction false} DropSeparatorsKeeps(s: string)
    requires forall k :: 0 <= k < |s| ==> s[k] != '$' && s[k] != ','
    ensures DropSeparators(s) == s
  {
    if s != [] {
      DropSeparatorsKeeps(s[1..]);
    }
  }

  predicate HasDigit(s: string)
  {
    exists k :: 0 <= k < |s| && IsDigit(s[k])
  }

  /** The strings the separators leave behind: digits, then optionally `.` and two digits. */
  predicate IsPlainDecimal(u: string)
  {
    AllDigits(u) || (|u| >= 3 && u[|u| - 3] == '.' && AllDigits(u[..|u| - 3]) && AllDigits(u[|u| - 2..]))
  }

  /** `parseFloat` on such a string, in cents; None for NaN (the empty string). `parseFloat(".50")` is 0.5. */
  function ParseFloatCents(u: string): (v: Option<int>)
    requires IsPlainDecimal(u)
    ensures v.None? <==> u == []
    ensures v.Some? ==> v.value >= 0
  {
    if |u| >= 3 && u[|u| - 3] == '.' then
      Some(DigitsValue(u[..|u| - 3]) * 100 + DigitsValue(u[|u| - 2..]))
    else if u == [] then None
    else Some(DigitsValue(u) * 100)
  }

  lemma DropSeparatorsOfToken(t: string)
    requires IsDollarToken(t)
    ensures IsPlainDecimal(DropSeparators(t))
    ensures DropSeparators(t) == [] <==> !HasDigit(t)
  {
    var runEnd := RunEnd(t);
    var run := t[1..runEnd];
    var frac := t[runEnd..];
    assert t[1..] == run + frac;
    DropSeparatorsAppend(run, frac);
    assert forall k :: 0 <= k < |run| ==> IsDigitOrComma(run[k]);
    DropSeparatorsOfRun(run);
    if runEnd < |t| {
      TokenWithCents(t, run, frac);
    } else {
      TokenWithoutCents(t, run);
    }
  }

  lemma TokenWithCents(t: string, run: string, frac: string)
    requires |t| >= 5 && t[|t| - 3] == '.' && IsDigit(t[|t| - 2]) && IsDigit(t[|t| - 1])
    requires run == t[1..|t| - 3] && frac == t[|t| - 3..]
    requires DropSeparators(t) == DropSeparators(run) + DropSeparators(frac)
    requires AllDigits(DropSeparators(run))
    ensures IsPlainDecimal(DropSeparators(t))
    ensures DropSeparators(t) != [] && HasDigit(t)
  {
    assert frac == ['.', t[|t| - 2], t[|t| - 1]];
    DropSeparatorsKeeps(frac);
    var d := DropSeparators(run);
    PointAndTwoDigits(d, frac);
    assert IsDigit(t[|t| - 1]);
  }

  lemma PointAndTwoDigits(d: string, frac: string)
    requires AllDigits(d) && |frac| == 3 && frac[0] == '.' && IsDigit(frac[1]) && IsDigit(frac[2])
    ensures IsPlainDecimal(d + frac)
  {
    var u := d + frac;
    assert u[..|u| - 3] == d;
    assert u[|u| - 2..] == frac[1..];
  }

  lemma TokenWithoutCents(t: string, run: string)
    requires |t| >= 2 && run == t[1..]
    requires DropSeparators(t) == DropSeparators(run)
    requires AllDigits(DropSeparators(run))
    requires HasDigit(DropSeparators(run)) <==> HasDigit(run)
    ensures IsPlainDecimal(DropSeparators(t))
    ensures DropSeparators(t) == [] <==> !HasDigit(t)
  {
    if HasDigit(t) {
      var k :| 0 <= k < |t| && IsDigit(t[k]);
      if k > 0 {
        assert run[k - 1] == t[k];
      }
    }
    if HasDigit(run) {
      var k :| 0 <= k < |run| && IsDigit(run[k]);
      assert t[k + 1] == run[k];
    }
    var u := DropSeparators(t);
    if u != [] {
      assert IsDigit(u[0]);
    }
  }

  /**
   * `parseFloat(p.replace(/[$,]/g, ''))` for a match `p`, in cents. The result
   * is NaN (None) exactly when the match holds no digit at all, such as `$,,`.
   */
  function ParseDollarCents(t: string): (v: Option<int>)
    requires IsDollarToken(t)
    ensures v.None? <==> !HasDigit(t)
    ensures v.Some? ==> v.value >= 0
  {
    DropSeparatorsOfToken(t);
    ParseFloatCents(DropSeparators(t))
  }

  /**
   * The value of a match with a digit: the digits of its run, commas removed,
   * in whole units, plus the two digits after the point when there is one.
   * `$1,234.56` is 123456 cents, `$1,234` is 123400.
   */
  lemma DollarTokenValue(t: string)
    requires IsDollarToken(t) && HasDigit(t)
    ensures AllDigits(DropSeparators(t[1..RunEnd(t)]))
    ensures RunEnd(t) < |t| ==> AllDigits(t[|t| - 2..])
                                && ParseDollarCents(t) == Some(DigitsValue(DropSeparators(t[1..RunEnd(t)])) * 100
                                                               + DigitsValue(t[|t| - 2..]))
    ensures RunEnd(t) == |t| ==> ParseDollarCents(t) == Some(DigitsValue(DropSeparators(t[1..RunEnd(t)])) * 100)
  {
    if RunEnd(t) < |t| {
      ValueWithCents(t);
    } else {
      ValueWithoutCents(t);
    }
  }

  lemma ValueWithCents(t: string)
    requires IsDollarToken(t) && RunEnd(t) < |t|
    ensures AllDigits(DropSeparators(t[1..RunEnd(t)])) && AllDigits(t[|t| - 2..])
    ensures ParseDollarCents(t) == Some(DigitsValue(DropSeparators(t[1..RunEnd(t)])) * 100 + DigitsValue(t[|t| - 2..]))
  {
    var d := DropSeparators(t[1..RunEnd(t)]);
    SplitToken(t);
    CentsOfSplit(t, d);
    DollarCentsOfText(t);
    calc {
      ParseDollarCents(t);
      ParseFloatCents(DropSeparators(t));
      Some(DigitsValue(d) * 100 + DigitsValue(t[|t| - 2..]));
    }
  }

  /** ParseDollarCents is `parseFloat` of the text the separators leave. */
  lemma DollarCentsOfText(t: string)
    requires IsDollarToken(t)
    ensures IsPlainDecimal(DropSeparators(t)) && ParseDollarCents(t) == ParseFloatCents(DropSeparators(t))
  {
    DropSeparatorsOfToken(t);
  }

  lemma CentsOfSplit(t: string, d: string)
    requires |t| >= 5 && t[|t| - 3] == '.' && IsDigit(t[|t| - 2]) && IsDigit(t[|t| - 1])
    requires AllDigits(d) && DropSeparators(t) == d + t[|t| - 3..]
    ensures AllDigits(t[|t| - 2..]) && IsPlainDecimal(DropSeparators(t))
    ensures ParseFloatCents(DropSeparators(t)) == Some(DigitsValue(d) * 100 + DigitsValue(t[|t| - 2..]))
  {
    var frac := t[|t| - 3..];
    assert frac[1..] == t[|t| - 2..];
    CentsValue(d, frac);
  }

  lemma ValueWithoutCents(t: string)
    requires IsDollarToken(t) && HasDigit(t) && RunEnd(t) == |t|
    ensures AllDigits(DropSeparators(t[1..RunEnd(t)]))
    ensures ParseDollarCents(t) == Some(DigitsValue(DropSeparators(t[1..RunEnd(t)])) * 100)
  {
    var run := t[1..RunEnd(t)];
    var d := DropSeparators(run);
    SplitToken(t);
    RunHasDigit(t);
    assert t[RunEnd(t)..] == [];
    assert DropSeparators(t) == d;
    var k :| 0 <= k < |t| && IsDigit(t[k]);
    assert k != 0;
    assert run[k - 1] == t[k];
    assert HasDigit(run);
    WholeValue(d);
  }

  /** Removing the separators of a match leaves the digits of its run, then its point and two digits if any. */
  lemma SplitToken(t: string)
    requires IsDollarToken(t)
    ensures DropSeparators(t) == DropSeparators(t[1..RunEnd(t)]) + t[RunEnd(t)..]
    ensures AllDigits(DropSeparators(t[1..RunEnd(t)]))
  {
    var e := RunEnd(t);
    var run, frac := t[1..e], t[e..];
    assert t[1..] == run + frac;
    assert DropSeparators(t) == DropSeparators(t[1..]);
    DropSeparatorsAppend(run, frac);
    assert forall k :: 0 <= k < |run| ==> IsDigitOrComma(run[k]);
    DropSeparatorsOfRun(run);
    if e < |t| {
      assert frac == ['.', t[|t| - 2], t[|t| - 1]];
    }
    DropSeparatorsKeeps(frac);
  }

  /** The run of a match holds a digit exactly when what the separators leave of it does. */
  lemma RunHasDigit(t: string)
    requires IsDollarToken(t)
    ensures HasDigit(DropSeparators(t[1..RunEnd(t)])) <==> HasDigit(t[1..RunEnd(t)])
  {
    var run := t[1..RunEnd(t)];
    assert forall k :: 0 <= k < |run| ==> IsDigitOrComma(run[k]);
    DropSeparatorsOfRun(run);
  }

  /** Digits alone parse to that many whole units. */
  lemma WholeValue(u: string)
    requires AllDigits(u) && HasDigit(u)
    ensures IsPlainDecimal(u) && ParseFloatCents(u) == Some(DigitsValue(u) * 100)
  {
    if |u| >= 3 {
      assert IsDigit(u[|u| - 3]);
    }
  }

  /** Digits, a point and two digits parse to the digits in whole units plus the two digits. */
  lemma CentsValue(d: string, frac: string)
    requires AllDigits(d) && |frac| == 3 && frac[0] == '.' && IsDigit(frac[1]) && IsDigit(frac[2])
    ensures IsPlainDecimal(d + frac) && AllDigits(frac[1..])
    ensures ParseFloatCents(d + frac) == Some(DigitsValue(d) * 100 + DigitsValue(frac[1..]))
  {
    var u := d + frac;
    assert u[..|d|] == d && u[|d| + 1..] == frac[1..];
    ParseWithCents(u, |d|);
  }

  /**
   * The cents parser agrees with `parseFloat` of decimal text: on text that
   * starts with a digit, it gives the decimal value times 100.
   */
  lemma ParseFloatCentsIsParseDecimal(u: string)
    requires IsPlainDecimal(u) && u != [] && IsDigit(u[0])
    ensures IsDecimalNumber(u) && ParseFloatCents(u).Some?
    ensures ParseDecimal(u) == ParseFloatCents(u).value as real / 100.0
  {
    if |u| >= 3 && u[|u| - 3] == '.' {
      PointCentsIsParseDecimal(u);
    } else {
      ParseWholeNumber(u);
    }
  }

  lemma PointCentsIsParseDecimal(u: string)
    requires IsPlainDecimal(u) && u != [] && IsDigit(u[0]) && |u| >= 3 && u[|u| - 3] == '.'
    ensures IsDecimalNumber(u) && ParseFloatCents(u).Some?
    ensures ParseDecimal(u) == ParseFloatCents(u).value as real / 100.0
  {
    var units, dd := u[..|u| - 3], u[|u| - 2..];
    assert u == units + "." + dd;
    ParseDecimalOfParts(units, dd);
    assert Pow10(2) == 100;
    ScaledSum(DigitsValue(units), DigitsValue(dd), Pow10(2), ParseFloatCents(u).value);
  }

  predicate InStatsRange(c: int)
  {
    0 < c < MaxPriceCents
  }

  /** The prices the `forEach` keeps, in match order: parsed, not NaN, and strictly between 0 and 100000. */
  function AcceptedPrices(toks: seq<string>): (ps: seq<int>)
    requires forall t :: t in toks ==> IsDollarToken(t)
    ensures |ps| <= |toks|
    ensures forall k :: 0 <= k < |ps| ==> InStatsRange(ps[k])
  {
    if toks == [] then []
    else
      var front := AcceptedPrices(toks[..|toks| - 1]);
      var v := ParseDollarCents(toks[|toks| - 1]);
      if v.Some? && InStatsRange(v.value) then front + [v.value] else front
  }

  /** Each match contributes on its own: the accepted prices of a concatenation are the concatenation of the accepted prices. */
  lemma {:induction false} AcceptedPricesAppend(a: seq<string>, b: seq<string>)
    requires forall t :: t in a ==> IsDollarToken(t)
    requires forall t :: t in b ==> IsDollarToken(t)
    ensures AcceptedPrices(a + b) == AcceptedPrices(a) + AcceptedPrices(b)
  {
    if b == [] {
      assert a + b == a;
    } else {
      assert (a + b)[..|a + b| - 1] == a + b[..|b| - 1];
      assert (a + b)[|a + b| - 1] == b[|b| - 1];
      AcceptedPricesAppend(a, b[..|b| - 1]);
    }
  }

  /** A match without digits (NaN) is dropped. */
  lemma NaNIsDropped(t: string)
    requires IsDollarToken(t) && !HasDigit(t)
    ensures AcceptedPrices([t]) == []
  {
    assert [t][..0] == [];
  }

  // ---------------------------------------------------------------------------
  // The statistics

  /** The object `parseSearchResults` returns (and, with `isMock`, `getMockMeliData`). */
  datatype MarketStats = MarketStats(
    totalResults: nat,
    priceMinCents: int,
    priceMaxCents: int,
    priceMedianCents: int,
    /** `Math.round` of the mean, in whole currency units */
    priceAvg: int,
    sampleSize: nat,
    isMock: bool)

  /** `Math.round(sum / n)` for a sum given in cents: the mean rounded to the nearest unit, halves upwards. */
  function RoundedMean(sumCents: int, n: nat): (avg: int)
    requires n > 0
    ensures 200 * n * avg - 100 * n <= 2 * sumCents < 200 * n * avg + 100 * n
  {
    var avg := (2 * sumCents + 100 * n) / (200 * n);
    DivBounds(2 * sumCents + 100 * n, 200 * n);
    avg
  }

  lemma DivBounds(a: int, b: int)
    requires b > 0
    ensures b * (a / b) <= a < b * (a / b) + b
  {
  }

  /** The rounded mean is within half a unit of the exact mean `sum / n`. */
  lemma RoundedMeanWithinHalf(sumCents: int, n: nat)
    requires n > 0
    ensures var mean := sumCents as real / (100 * n) as real;
      RoundedMean(sumCents, n) as real - 0.5 <= mean < RoundedMean(sumCents, n) as real + 0.5
  {
    var avg := RoundedMean(sumCents, n);
    var lo, hi := 200 * n * avg - 100 * n, 200 * n * avg + 100 * n;
    assert lo <= 2 * sumCents < hi;
    var d := (100 * n) as real;
    var m := sumCents as real / d;
    RealBetween(sumCents as real, d, avg as real, lo as real, hi as real);
  }

  lemma RealBetween(s: real, d: real, a: real, lo: real, hi: real)
    requires d > 0.0
    requires lo == 2.0 * d * a - d && hi == 2.0 * d * a + d
    requires lo <= 2.0 * s < hi
    ensures a - 0.5 <= s / d < a + 0.5
  {
    var m := s / d;
    assert m * d == s;
    assert (a - 0.5) * d <= s < (a + 0.5) * d;
    assert (m - (a - 0.5)) * d >= 0.0;
    assert ((a + 0.5) - m) * d == (a + 0.5) * d - m * d;
    PositiveFactor(m - (a - 0.5), d);
    PositiveFactor((a + 0.5) - m, d);
  }

  lemma PositiveFactor(x: real, d: real)
    requires d > 0.0
    ensures x * d >= 0.0 ==> x >= 0.0
    ensures x * d > 0.0 ==> x > 0.0
  {
    if x < 0.0 {
      assert x * d < 0.0;
    }
  }

  /** The statistics of an ascending sequence, as the object literal computes them. */
  function Summarize(sorted: seq<int>): (st: MarketStats)
    requires SortedAsc(sorted)
  {
    var n := |sorted|;
    if n == 0 then MarketStats(0, 0, 0, 0, 0, 0, false)
    else MarketStats(ResultsPerSample * n, sorted[0], sorted[n - 1], sorted[n / 2],
                     RoundedMean(Sum(sorted), n), n, false)
  }

  /** The statistics reported for a sequence of accepted prices: those of its ascending sort. */
  function StatsOf(prices: seq<int>): MarketStats
  {
    Summarize(SortAscending(prices))
  }

  /** The statistics of the page `html`: the specification ParseSearchResults is proved against. */
  function SearchStats(html: string): MarketStats
  {
    StatsOf(AcceptedPrices(Take(DollarTokens(html), MaxDollarTokens)))
  }

  /** parseSearchResults(html). */
  method ParseSearchResults(html: string) returns (stats: MarketStats)
    ensures stats == SearchStats(html)
    ensures stats.sampleSize == |AcceptedPrices(Take(DollarTokens(html), MaxDollarTokens))| <= MaxDollarTokens
    ensures stats.totalResults == ResultsPerSample * stats.sampleSize
    ensures !stats.isMock
  {
    var matches := DollarTokens(html);
    var head := Take(matches, MaxDollarTokens);
    var prices: seq<int> := [];
    var k := 0;
    while k < |head|
      invariant 0 <= k <= |head|
      invariant prices == AcceptedPrices(head[..k])
    {
      var num := ParseDollarCents(head[k]);
      if num.Some? && InStatsRange(num.value) {
        prices := prices + [num.value];
      }
      k := k + 1;
      assert head[..k][..k - 1] == head[..k - 1];
    }
    assert head[..k] == head;
    var sorted := SortAscending(prices);
    stats := Summarize(sorted);
  }

  // ---------------------------------------------------------------------------
  // What the statistics mean

  /** `sample_size` counts the accepted prices and `total_results` is 20 times it; with none, every statistic is 0. */
  lemma StatsCounts(prices: seq<int>)
    ensures StatsOf(prices).sampleSize == |prices|
    ensures StatsOf(prices).totalResults == ResultsPerSample * |prices|
    ensures prices == [] ==> StatsOf(prices) == MarketStats(0, 0, 0, 0, 0, 0, false)
  {
  }

  /**
   * For a non-empty sample: `price_min` is the smallest price and `price_max`
   * the largest, `price_median` is the element at index n / 2 of the ascending
   * sort, all three are prices of the sample, and min <= median <= max.
   */
  lemma StatsOrder(prices: seq<int>)
    requires prices != []
    ensures var st := StatsOf(prices);
      && st.priceMinCents in prices && st.priceMaxCents in prices && st.priceMedianCents in prices
      && (forall p :: p in prices ==> st.priceMinCents <= p <= st.priceMaxCents)
      && st.priceMedianCents == SortAscending(prices)[|prices| / 2]
      && st.priceMinCents <= st.priceMedianCents <= st.priceMaxCents
  {
    var sorted := SortAscending(prices);
    assert StatsOf(prices) == Summarize(sorted);
    SortedEnds(prices, sorted);
  }

  /** The ends and the middle of an ascending arrangement of `prices`. */
  lemma SortedEnds(prices: seq<int>, sorted: seq<int>)
    requires sorted != [] && SortedAsc(sorted) && multiset(sorted) == multiset(prices)
    ensures var n := |sorted|;
      && sorted[0] in prices && sorted[n - 1] in prices && sorted[n / 2] in prices
      && (forall p :: p in prices ==> sorted[0] <= p <= sorted[n - 1])
      && sorted[0] <= sorted[n / 2] <= sorted[n - 1]
  {
    var n := |sorted|;
    SameMembers(prices, sorted);
    assert sorted[0] in sorted && sorted[n - 1] in sorted && sorted[n / 2] in sorted;
    forall p | p in prices ensures sorted[0] <= p <= sorted[n - 1] {
      var k :| 0 <= k < n && sorted[k] == p;
    }
  }

  /** Sequences with the same multiset have the same members. */
  lemma SameMembers(a: seq<int>, b: seq<int>)
    requires multiset(a) == multiset(b)
    ensures forall x :: x in a <==> x in b
  {
    forall x ensures x in a <==> x in b {
      assert x in a <==> x in multiset(a);
      assert x in b <==> x in multiset(b);
    }
  }

  /**
   * The median is the upper middle: fewer than half of the prices (at most
   * n / 2) lie below it, and more than half (at least n / 2 + 1) are at most it.
   */
  lemma MedianRank(prices: seq<int>)
    requires prices != []
    ensures CountBelow(prices, StatsOf(prices).priceMedianCents) <= |prices| / 2
    ensures CountAtMost(prices, StatsOf(prices).priceMedianCents) >= |prices| / 2 + 1
  {
    var sorted := SortAscending(prices);
    var i := |prices| / 2;
    var m := sorted[i];
    assert StatsOf(prices).priceMedianCents == m;
    SortKeepsSumAndCounts(prices, m);
    SortedRank(sorted, i);
  }

  lemma SortedRank(sorted: seq<int>, i: nat)
    requires SortedAsc(sorted) && i < |sorted|
    ensures CountBelow(sorted, sorted[i]) <= i
    ensures CountAtMost(sorted, sorted[i]) >= i + 1
  {
    CountBelowBound(sorted, sorted[i], i);
    CountAtMostBound(sorted, sorted[i], i);
  }

  /** `price_avg` is the mean of the sample rounded to the nearest unit: within half a unit of it. */
  lemma StatsMean(prices: seq<int>)
    requires prices != []
    ensures var mean := Sum(prices) as real / (100 * |prices|) as real;
      StatsOf(prices).priceAvg as real - 0.5 <= mean < StatsOf(prices).priceAvg as real + 0.5
  {
    SortKeepsSumAndCounts(prices, 0);
    RoundedMeanWithinHalf(Sum(prices), |prices|);
  }

  // ---------------------------------------------------------------------------
  // Reading back a page of prices

  /** A price of `cents` written the way a listing page shows it: `$`, the units, `.` and two digits. */
  function FormatDollar(cents: nat): string
  {
    "$" + NatToDigits(cents / 100) + "." + CentsDigits(cents % 100)
  }

  lemma FormattedIsToken(cents: nat)
    ensures IsDollarToken(FormatDollar(cents))
  {
    var t := FormatDollar(cents);
    assert t[1..|t| - 3] == NatToDigits(cents / 100);
  }

  /** The scanner reads a written price as one whole match, whatever follows it. */
  lemma FormattedPriceIsOneMatch(cents: nat, rest: string)
    ensures DollarMatchLength(FormatDollar(cents) + rest) == |FormatDollar(cents)|
  {
    var units := NatToDigits(cents / 100);
    var t := FormatDollar(cents);
    var s := t + rest;
    assert s[1..] == units + ("." + CentsDigits(cents % 100) + rest);
    RunOfDigits(units, "." + CentsDigits(cents % 100) + rest);
  }

  lemma {:induction false} RunOfDigits(ds: string, rest: string)
    requires AllDigits(ds)
    requires rest != [] && !IsDigitOrComma(rest[0])
    ensures RunLength(ds + rest) == |ds|
  {
    if ds == [] {
      assert ds + rest == rest;
    } else {
      assert (ds + rest)[1..] == ds[1..] + rest;
      RunOfDigits(ds[1..], rest);
    }
  }

  lemma {:induction false} RunOfSeparatedDigits(ds: string, rest: string)
    requires forall k :: 0 <= k < |ds| ==> IsDigitOrComma(ds[k])
    requires rest == [] || !IsDigitOrComma(rest[0])
    ensures RunLength(ds + rest) == |ds|
  {
    if ds == [] {
      assert ds + rest == rest;
    } else {
      assert (ds + rest)[1..] == ds[1..] + rest;
      RunOfSeparatedDigits(ds[1..], rest);
    }
  }

  /**
   * Any well-formed token, commas included, is one whole match at the front,
   * whatever follows; a token without cents only when what follows cannot
   * extend it (a digit, a comma or a point).
   */
  lemma TokenIsOneMatch(t: string, rest: string)
    requires IsDollarToken(t)
    requires RunEnd(t) == |t| ==> rest == [] || (!IsDigitOrComma(rest[0]) && rest[0] != '.')
    ensures DollarMatchLength(t + rest) == |t|
  {
    var e := RunEnd(t);
    var run, after := t[1..e], t[e..] + rest;
    assert forall k :: 0 <= k < |run| ==> IsDigitOrComma(run[k]) by {
      forall k | 0 <= k < |run| ensures IsDigitOrComma(run[k]) {
        assert run[k] == t[k + 1];
      }
    }
    assert t + rest == "$" + run + after;
    if e < |t| {
      assert after[0] == '.' && after[1] == t[e + 1] && after[2] == t[e + 2];
    } else {
      assert after == rest;
    }
    MatchOfRun(run, after);
  }

  /** The match at `$`, a run of digits and commas, and what follows: the run, and `.` and two digits if they follow. */
  lemma MatchOfRun(run: string, after: string)
    requires run != [] && forall k :: 0 <= k < |run| ==> IsDigitOrComma(run[k])
    requires after == [] || !IsDigitOrComma(after[0])
    ensures DollarMatchLength("$" + run + after)
              == if |after| >= 3 && after[0] == '.' && IsDigit(after[1]) && IsDigit(after[2]) then |run| + 4 else |run| + 1
  {
    var s := "$" + run + after;
    assert s[1..] == run + after;
    RunOfSeparatedDigits(run, after);
    assert forall k :: 0 <= k < |after| ==> s[1 + |run| + k] == after[k];
  }

  /** A page of tokens, each followed by a space. */
  function TokenPage(ts: seq<string>): string
  {
    if ts == [] then "" else ts[0] + " " + TokenPage(ts[1..])
  }

  /**
   * The scanner finds exactly the tokens of a page of well-formed tokens, in
   * order, each one whole: `$1,234.56 $7,5 $,,` yields those three tokens.
   */
  lemma {:induction false} TokenPageTokens(ts: seq<string>)
    requires forall k :: 0 <= k < |ts| ==> IsDollarToken(ts[k])
    ensures DollarTokens(TokenPage(ts)) == ts
  {
    if ts != [] {
      var t, x := ts[0], TokenPage(ts[1..]);
      assert t + " " + x == t + (" " + x);
      TokenIsOneMatch(t, " " + x);
      TokensAfterMatch(t, " " + x);
      TokensSkipSpace(x);
      TokenPageTokens(ts[1..]);
      assert ts == [t] + ts[1..];
    }
  }

  /** Parsing a written price gives back its cents. */
  lemma FormattedPriceParses(cents: nat)
    ensures IsDollarToken(FormatDollar(cents))
    ensures ParseDollarCents(FormatDollar(cents)) == Some(cents)
  {
    FormattedIsToken(cents);
    var units := NatToDigits(cents / 100);
    var dd := CentsDigits(cents % 100);
    TwoDigitsValue(cents % 100);
    assert FormatDollar(cents) == "$" + units + "." + dd;
    DecimalPriceParses(cents, units, dd);
  }

  lemma DecimalPriceParses(cents: nat, units: string, dd: string)
    requires AllDigits(units) && DigitsValue(units) == cents / 100
    requires |dd| == 2 && AllDigits(dd) && DigitsValue(dd) == cents % 100
    requires IsDollarToken("$" + units + "." + dd)
    ensures ParseDollarCents("$" + units + "." + dd) == Some(cents)
  {
    PlainPriceSeparators(units, dd);
    PlainDecimalValue(cents, units, dd);
    ParsedAs("$" + units + "." + dd, units + "." + dd);
  }

  lemma ParsedAs(t: string, u: string)
    requires IsDollarToken(t) && IsPlainDecimal(u) && DropSeparators(t) == u
    ensures ParseDollarCents(t) == ParseFloatCents(u)
  {
  }

  /** Removing the separators of `$`, digits, `.` and digits leaves the digits and the point. */
  lemma PlainPriceSeparators(units: string, dd: string)
    requires AllDigits(units) && AllDigits(dd)
    ensures DropSeparators("$" + units + "." + dd) == units + "." + dd
  {
    var frac := "." + dd;
    var body := units + frac;
    assert "$" + units + "." + dd == "$" + body;
    assert units + "." + dd == body;
    assert ("$" + body)[1..] == body;
    assert DropSeparators("$" + body) == DropSeparators(body);
    DropSeparatorsAppend(units, frac);
    DropSeparatorsKeeps(units);
    assert forall k :: 0 <= k < |frac| ==> frac[k] == '.' || IsDigit(frac[k]);
    DropSeparatorsKeeps(frac);
  }

  lemma PlainDecimalValue(cents: nat, units: string, dd: string)
    requires AllDigits(units) && DigitsValue(units) == cents / 100
    requires |dd| == 2 && AllDigits(dd) && DigitsValue(dd) == cents % 100
    ensures IsPlainDecimal(units + "." + dd)
    ensures ParseFloatCents(units + "." + dd) == Some(cents)
  {
    var u := units + "." + dd;
    assert u[..|units|] == units && u[|units| + 1..] == dd;
    ParseWithCents(u, |units|);
  }

  /** Digits, a point and two digits parse to the units times 100 plus the two digits. */
  lemma ParseWithCents(u: string, n: nat)
    requires |u| == n + 3 && u[n] == '.' && AllDigits(u[..n]) && AllDigits(u[n + 1..])
    ensures IsPlainDecimal(u)
    ensures ParseFloatCents(u) == Some(DigitsValue(u[..n]) * 100 + DigitsValue(u[n + 1..]))
  {
  }

  /** A page listing the prices `ps`, each written with FormatDollar and followed by a space. */
  function PricePage(ps: seq<nat>): string
  {
    if ps == [] then "" else FormatDollar(ps[0]) + " " + PricePage(ps[1..])
  }

  /** The prices (in cents) strictly between 0 and 100000 dollars, in order. */
  function KeepInRange(ps: seq<nat>): (r: seq<int>)
    ensures |r| <= |ps|
  {
    if ps == [] then [] else (if InStatsRange(ps[0]) then [ps[0] as int] else []) + KeepInRange(ps[1..])
  }

  /** A whole match at the front is the first token; the scan resumes right after it. */
  lemma TokensAfterMatch(t: string, rest: string)
    requires |t| > 0 && DollarMatchLength(t + rest) == |t|
    ensures DollarTokens(t + rest) == [t] + DollarTokens(rest)
  {
    var s := t + rest;
    assert s[..|t|] == t && s[|t|..] == rest;
  }

  lemma TokensSkipSpace(x: string)
    ensures DollarTokens(" " + x) == DollarTokens(x)
  {
    assert (" " + x)[1..] == x;
  }

  lemma FormattedThenRest(p: nat, x: string)
    ensures DollarTokens(FormatDollar(p) + " " + x) == [FormatDollar(p)] + DollarTokens(x)
  {
    var t := FormatDollar(p);
    assert t + " " + x == t + (" " + x);
    FormattedPriceIsOneMatch(p, " " + x);
    TokensAfterMatch(t, " " + x);
    TokensSkipSpace(x);
  }

  /** The written prices of `ps`, in order. */
  function FormatAll(ps: seq<nat>): (ts: seq<string>)
    ensures |ts| == |ps|
    ensures forall k :: 0 <= k < |ps| ==> ts[k] == FormatDollar(ps[k])
    ensures forall t :: t in ts ==> IsDollarToken(t)
  {
    if ps == [] then []
    else
      FormattedIsToken(ps[0]);
      [FormatDollar(ps[0])] + FormatAll(ps[1..])
  }

  /** The scanner finds exactly the written prices of a page, in order. */
  lemma {:induction false} PricePageTokens(ps: seq<nat>)
    ensures DollarTokens(PricePage(ps)) == FormatAll(ps)
  {
    if ps != [] {
      FormattedThenRest(ps[0], PricePage(ps[1..]));
      PricePageTokens(ps[1..]);
    }
  }

  lemma AcceptedOne(t: string)
    requires IsDollarToken(t)
    ensures AcceptedPrices([t]) ==
      var v := ParseDollarCents(t); if v.Some? && InStatsRange(v.value) then [v.value] else []
  {
    assert [t][..0] == [];
  }

  lemma {:induction false} AcceptedOfFormatted(ps: seq<nat>)
    ensures AcceptedPrices(FormatAll(ps)) == KeepInRange(ps)
  {
    if ps != [] {
      var t := FormatDollar(ps[0]);
      var rest := FormatAll(ps[1..]);
      assert FormatAll(ps) == [t] + rest;
      FormattedPriceParses(ps[0]);
      AcceptedOne(t);
      AcceptedOfFormatted(ps[1..]);
      AcceptedPricesAppend([t], rest);
    }
  }

  lemma TakeFormatAll(ps: seq<nat>, n: nat)
    ensures Take(FormatAll(ps), n) == FormatAll(Take(ps, n))
  {
  }

  /**
   * The extractor reads back a page of written prices: it reports the
   * statistics of those among the first 50 that lie strictly between 0 and 100000 dollars.
   */
  lemma ReadsBackPricePage(ps: seq<nat>)
    ensures SearchStats(PricePage(ps)) == StatsOf(KeepInRange(Take(ps, MaxDollarTokens)))
  {
    PricePageTokens(ps);
    TakeFormatAll(ps, MaxDollarTokens);
    AcceptedOfFormatted(Take(ps, MaxDollarTokens));
  }
}
