/**
 * `parse1688Results` of worker/index.js: the listings synthesised from a
 * wholesale search page. Yuan prices are read as exact reals.
 */
module Wholesale {
  import opened Wrappers
  import opened Text
  import opened ArrayOps
  import opened Profit
  import opened Listings
  import opened Decimal

  /** Only the first 20 price matches are read. */
  const MaxYenTokens: nat := 20
  /** Accepted prices lie strictly between 0 and 10000 yuan. */
  const MaxYenPrice: real := 10000.0
  /** Only the first 10 shop names are read. */
  const MaxShopNames: nat := 10
  /** At least 3 accepted prices are needed to build any listing. */
  const MinPrices: nat := 3
  /** At most 5 listings are built. */
  const MaxListings: nat := 5
  /** The upper end of a listing's price range is 1.5 times its price. */
  const RangeFactor: real := 1.5

  const TitleSuffixes: seq<string> := ["热销款", "新款", "爆款", "高品质", "厂家直销"]
  const FallbackSuffix: string := "优质"
  const MinOrders: seq<nat> := [1, 2, 5, 10, 20]
  const FallbackMinOrder: nat := 1
  const DefaultShops: seq<string> := ["义乌小商品城", "广州批发市场", "深圳电子城", "杭州女装城", "温州皮革城"]
  const FallbackShop: string := "源头工厂"

  // ---------------------------------------------------------------------------
  // The pattern /¥\s*(\d+\.?\d*)/g

  /** The number of whitespace characters at the start of `s`. */
  function SpaceRun(s: string): (n: nat)
    ensures n <= |s|
  {
    if s != [] && IsJsSpace(s[0]) then 1 + SpaceRun(s[1..]) else 0
  }

  /** `s` starts with exactly `n` whitespace characters. */
  predicate IsSpaceRun(s: string, n: nat)
  {
    n <= |s| && (forall k :: 0 <= k < n ==> IsJsSpace(s[k])) && (n < |s| ==> !IsJsSpace(s[n]))
  }

  lemma {:induction false} SpaceRunFacts(s: string)
    ensures IsSpaceRun(s, SpaceRun(s))
  {
    if s != [] && IsJsSpace(s[0]) {
      SpaceRunFacts(s[1..]);
      assert forall k :: 1 <= k < |s| ==> s[k] == s[1..][k - 1];
    }
  }

  lemma {:induction false} SpaceRunUnique(s: string, n: nat)
    requires IsSpaceRun(s, n)
    ensures SpaceRun(s) == n
  {
    if n == 0 {
      if s != [] {
        assert !IsJsSpace(s[0]);
      }
    } else {
      assert IsJsSpace(s[0]);
      var t := s[1..];
      assert forall k :: 0 <= k < |t| ==> t[k] == s[k + 1];
      SpaceRunUnique(t, n - 1);
    }
  }

  /** A string the pattern matches in full. */
  predicate IsYenToken(t: string)
  {
    |t| >= 2 && t[0] == '¥' && IsDecimalNumber(t[1 + SpaceRun(t[1..])..])
  }

  /** The length of the (greedy) match of the pattern at the start of `s`; 0 when it does not match there. */
  function YenMatchLength(s: string): (n: nat)
    ensures n <= |s|
    ensures n > 0 ==> IsYenToken(s[..n])
  {
    if s == [] || s[0] != '¥' then 0
    else
      var start := 1 + SpaceRun(s[1..]);
      var whole := DigitRun(s[start..]);
      if whole == 0 then 0
      else
        var end := start + whole;
        var n := if end < |s| && s[end] == '.' then end + 1 + DigitRun(s[end + 1..]) else end;
        YenMatchFacts(s, start, whole, n);
        n
  }

  lemma YenMatchFacts(s: string, start: nat, whole: nat, n: nat)
    requires s != [] && s[0] == '¥' && start == 1 + SpaceRun(s[1..])
    requires whole == DigitRun(s[start..]) && whole > 0
    requires n == if start + whole < |s| && s[start + whole] == '.'
                  then start + whole + 1 + DigitRun(s[start + whole + 1..]) else start + whole
    ensures n <= |s| && IsYenToken(s[..n])
  {
    var v := s[start..];
    var m := n - start;
    assert v[whole..] == s[start + whole..];
    if start + whole < |s| && s[start + whole] == '.' {
      assert v[whole + 1..] == s[start + whole + 1..];
    }
    YenNumberPrefix(v, whole, m);
    assert v[..m] == s[start..n];
    TokenFromParts(s, start, n);
  }

  /** `¥`, the whitespace run, then a number: a match. */
  lemma TokenFromParts(s: string, start: nat, n: nat)
    requires s != [] && s[0] == '¥' && start == 1 + SpaceRun(s[1..])
    requires start < n <= |s| && IsDecimalNumber(s[start..n])
    ensures IsYenToken(s[..n])
  {
    var t := s[..n];
    assert t[1..] == s[1..][..n - 1];
    SpaceRunOfPrefix(s[1..], n - 1);
    assert t[start..] == s[start..n];
  }

  lemma YenNumberPrefix(v: string, whole: nat, m: nat)
    requires whole == DigitRun(v) && whole > 0
    requires m == if whole < |v| && v[whole] == '.' then whole + 1 + DigitRun(v[whole + 1..]) else whole
    ensures m <= |v| && IsDecimalNumber(v[..m])
  {
    var u := v[..m];
    DigitRunOfPrefix(v, m);
    if whole < |v| && v[whole] == '.' {
      var rest := v[whole + 1..];
      var f := DigitRun(rest);
      assert AllDigits(rest[..f]);
      assert u[whole] == '.' && u[whole + 1..] == rest[..f];
    } else {
      assert |u| == whole;
    }
  }

  lemma SpaceRunOfPrefix(s: string, m: nat)
    requires SpaceRun(s) <= m <= |s|
    ensures SpaceRun(s[..m]) == SpaceRun(s)
  {
    SpaceRunFacts(s);
    var p := s[..m];
    assert forall k :: 0 <= k < m ==> p[k] == s[k];
    SpaceRunUnique(p, SpaceRun(s));
  }

  /** `html.match(/¥\s*(\d+\.?\d*)/g) || []`. */
  function YenTokens(s: string): (ts: seq<string>)
    ensures forall t :: t in ts ==> IsYenToken(t)
    decreases |s|
  {
    if s == [] then []
    else
      var n := YenMatchLength(s);
      if n == 0 then YenTokens(s[1..]) else [s[..n]] + YenTokens(s[n..])
  }

  // ---------------------------------------------------------------------------
  // parseFloat(p.replace(/[¥\s]/g, ''))

  /** `replace(/[¥\s]/g, '')`. */
  function DropYenAndSpaces(s: string): string
  {
    if s == [] then []
    else (if s[0] == '¥' || IsJsSpace(s[0]) then [] else [s[0]]) + DropYenAndSpaces(s[1..])
  }

  lemma {:induction false} DropYenAndSpacesKeeps(s: string)
    requires forall k :: 0 <= k < |s| ==> IsDigit(s[k]) || s[k] == '.'
    ensures DropYenAndSpaces(s) == s
  {
    if s != [] {
      DropYenAndSpacesKeeps(s[1..]);
    }
  }

  lemma {:induction false} DropYenAndSpacesSkips(s: string, n: nat)
    requires n <= |s|
    requires forall k :: 0 <= k < n ==> s[k] == '¥' || IsJsSpace(s[k])
    ensures DropYenAndSpaces(s) == DropYenAndSpaces(s[n..])
  {
    if n > 0 {
      DropYenAndSpacesSkips(s[1..], n - 1);
    }
  }

  /** Removing `¥` and whitespace from a match leaves its number. */
  lemma DropYenOfToken(t: string)
    requires IsYenToken(t)
    ensures DropYenAndSpaces(t) == t[1 + SpaceRun(t[1..])..]
  {
    var start := 1 + SpaceRun(t[1..]);
    SignAndSpaces(t);
    DropYenAndSpacesSkips(t, start);
    DecimalChars(t[start..]);
    DropYenAndSpacesKeeps(t[start..]);
  }

  /** A match starts with `¥` and its whitespace run. */
  lemma SignAndSpaces(t: string)
    requires t != [] && t[0] == '¥'
    ensures forall k :: 0 <= k < 1 + SpaceRun(t[1..]) ==> t[k] == '¥' || IsJsSpace(t[k])
  {
    SpaceRunFacts(t[1..]);
    assert forall k :: 1 <= k < 1 + SpaceRun(t[1..]) ==> t[k] == t[1..][k - 1];
  }

  /** `parseFloat(p.replace(/[¥\s]/g, ''))` for a match `p`. */
  function ParseYen(t: string): (v: real)
    requires IsYenToken(t)
    ensures v >= 0.0
  {
    DropYenOfToken(t);
    ParseDecimal(DropYenAndSpaces(t))
  }

  predicate InYenRange(p: real)
  {
    0.0 < p < MaxYenPrice
  }

  /** `.map(parse).filter(p => p > 0 && p < 10000)`, in match order. */
  function KeepYenPrices(toks: seq<string>): (ps: seq<real>)
    requires forall t :: t in toks ==> IsYenToken(t)
    ensures |ps| <= |toks|
    ensures forall k :: 0 <= k < |ps| ==> InYenRange(ps[k])
  {
    if toks == [] then []
    else
      var v := ParseYen(toks[0]);
      (if InYenRange(v) then [v] else []) + KeepYenPrices(toks[1..])
  }

  /** The `prices` of parse1688Results: the accepted prices among the first 20 matches. */
  function WholesalePrices(html: string): (ps: seq<real>)
    ensures |ps| <= MaxYenTokens
    ensures forall k :: 0 <= k < |ps| ==> InYenRange(ps[k])
  {
    KeepYenPrices(Take(YenTokens(html), MaxYenTokens))
  }

  // ---------------------------------------------------------------------------
  // Shop names: /data-shop-name="([^"]+)"/g, then replace(/data-shop-name="|"/g, '')

  const ShopAttr: string := "data-shop-name=\""

  /** The number of characters before the first `"` of `s` (all of them when there is none). */
  function QuoteFreeRun(s: string): (n: nat)
    ensures n <= |s|
    ensures forall k :: 0 <= k < n ==> s[k] != '"'
    ensures n < |s| ==> s[n] == '"'
  {
    if s != [] && s[0] != '"' then 1 + QuoteFreeRun(s[1..]) else 0
  }

  predicate StartsWithShopAttr(s: string)
  {
    |s| >= |ShopAttr| && s[..|ShopAttr|] == ShopAttr
  }

  /** A string the pattern matches in full: the attribute, a non-empty value without `"`, and the closing `"`. */
  predicate IsShopMatch(m: string)
  {
    && |m| >= |ShopAttr| + 2 && m[..|ShopAttr|] == ShopAttr && m[|m| - 1] == '"'
    && forall k :: |ShopAttr| <= k < |m| - 1 ==> m[k] != '"'
  }

  /** The captured group `([^"]+)` of a match. */
  function ShopValue(m: string): (v: string)
    requires IsShopMatch(m)
    ensures v != [] && '"' !in v
    ensures m == ShopAttr + v + "\""
  {
    var v := m[|ShopAttr|..|m| - 1];
    assert forall k :: 0 <= k < |v| ==> v[k] == m[|ShopAttr| + k];
    v
  }

  /** The length of the match at the start of `s`: the attribute, a non-empty quote-free value and the closing quote; 0 for none. */
  function ShopMatchLength(s: string): (n: nat)
    ensures n <= |s|
    ensures n > 0 ==> IsShopMatch(s[..n])
  {
    if !StartsWithShopAttr(s) then 0
    else
      var q := QuoteFreeRun(s[|ShopAttr|..]);
      if 0 < q < |s| - |ShopAttr| then
        var n := |ShopAttr| + q + 1;
        ShopMatchFacts(s, q, n);
        n
      else 0
  }

  lemma ShopMatchFacts(s: string, q: nat, n: nat)
    requires StartsWithShopAttr(s) && q == QuoteFreeRun(s[|ShopAttr|..])
    requires 0 < q < |s| - |ShopAttr| && n == |ShopAttr| + q + 1
    ensures IsShopMatch(s[..n])
  {
    var m := s[..n];
    var tail := s[|ShopAttr|..];
    assert m[..|ShopAttr|] == s[..|ShopAttr|];
    assert m[n - 1] == tail[q];
    assert forall k :: |ShopAttr| <= k < n - 1 ==> m[k] == tail[k - |ShopAttr|];
  }

  /** `html.match(/data-shop-name="([^"]+)"/g) || []`. */
  function ShopMatches(s: string): (ms: seq<string>)
    ensures forall m :: m in ms ==> IsShopMatch(m)
    decreases |s|
  {
    if s == [] then []
    else
      var n := ShopMatchLength(s);
      if n == 0 then ShopMatches(s[1..]) else [s[..n]] + ShopMatches(s[n..])
  }

  /** `replace(/data-shop-name="|"/g, '')`: every attribute prefix and every quote removed. */
  function StripShopAttr(s: string): (r: string)
    ensures '"' !in r
    ensures |r| <= |s|
    decreases |s|
  {
    if s == [] then []
    else if StartsWithShopAttr(s) then StripShopAttr(s[|ShopAttr|..])
    else if s[0] == '"' then StripShopAttr(s[1..])
    else [s[0]] + StripShopAttr(s[1..])
  }

  /** A value that ends with `data-shop-name=`: stripping its match removes that ending too. */
  predicate EndsWithAttrName(v: string)
  {
    |v| >= |ShopAttr| - 1 && v[|v| - (|ShopAttr| - 1)..] == ShopAttr[..|ShopAttr| - 1]
  }

  /**
   * Stripping a match gives back its captured value, except that a value
   * ending in `data-shop-name=` loses that ending as well.
   */
  lemma {:induction false} StripKeepsValue(value: string)
    requires '"' !in value
    ensures StripShopAttr(value + "\"")
              == if EndsWithAttrName(value) then value[..|value| - (|ShopAttr| - 1)] else value
  {
    var s := value + "\"";
    if value == [] {
      assert s == "\"";
      assert !StartsWithShopAttr(s);
      assert s[1..] == [];
    } else if StartsWithShopAttr(s) {
      assert s[..|ShopAttr|][|ShopAttr| - 1] == '"';
      assert |s| == |ShopAttr|;
      assert value == s[..|ShopAttr| - 1];
      assert value[|value| - (|ShopAttr| - 1)..] == value;
      assert s[|ShopAttr|..] == [];
    } else {
      var tail := value[1..];
      assert s[0] == value[0] && s[1..] == tail + "\"";
      StripKeepsValue(tail);
      AttrNameOfTail(value);
    }
  }

  /** Off the start of an attribute, a value and its tail end with `data-shop-name=` alike. */
  lemma AttrNameOfTail(value: string)
    requires value != [] && !StartsWithShopAttr(value + "\"")
    ensures EndsWithAttrName(value) <==> EndsWithAttrName(value[1..])
    ensures EndsWithAttrName(value) ==>
              value[..|value| - (|ShopAttr| - 1)] == [value[0]] + value[1..][..|value| - |ShopAttr|]
    ensures !EndsWithAttrName(value) ==> value == [value[0]] + value[1..]
  {
    var n, tail := |ShopAttr| - 1, value[1..];
    if EndsWithAttrName(value) {
      assert tail[|tail| - n..] == value[|value| - n..];
    }
  }

  /** Stripping a match gives its captured value, less a trailing `data-shop-name=` if the value has one. */
  lemma StripMatch(m: string)
    requires IsShopMatch(m)
    ensures var v := ShopValue(m);
      StripShopAttr(m) == if EndsWithAttrName(v) then v[..|v| - (|ShopAttr| - 1)] else v
  {
    var v := ShopValue(m);
    assert StartsWithShopAttr(m);
    assert m[|ShopAttr|..] == v + "\"";
    StripKeepsValue(v);
  }

  /** The `shops` of parse1688Results: the stripped values of the first 10 matches. */
  function ShopNames(html: string): (names: seq<string>)
    ensures |names| <= MaxShopNames
    ensures forall k :: 0 <= k < |names| ==> '"' !in names[k]
  {
    StripAll(Take(ShopMatches(html), MaxShopNames))
  }

  /** Each match with its attribute prefix and quotes removed, in order. */
  function StripAll(ms: seq<string>): (names: seq<string>)
    ensures |names| == |ms|
    ensures forall k :: 0 <= k < |ms| ==> names[k] == StripShopAttr(ms[k])
  {
    if ms == [] then [] else [StripShopAttr(ms[0])] + StripAll(ms[1..])
  }

  // ---------------------------------------------------------------------------
  // Building the listings

  /** `['热销款', …][i] || '优质'`. */
  function TitleSuffix(i: nat): string
  {
    if i < |TitleSuffixes| then TitleSuffixes[i] else FallbackSuffix
  }

  /** `[1, 2, 5, 10, 20][i] || 1`. */
  function MinOrderAt(i: nat): (n: nat)
    ensures n >= 1
  {
    if i < |MinOrders| then MinOrders[i] else FallbackMinOrder
  }

  /** `shops[i] || defaultShops[i] || '源头工厂'`: an empty extracted name is falsy and skipped. */
  function SupplierAt(shops: seq<string>, i: nat): (r: string)
    ensures r != []
  {
    if i < |shops| && shops[i] != "" then shops[i]
    else if i < |DefaultShops| then DefaultShops[i]
    else FallbackShop
  }

  /** `(4 + Math.random() * 0.9).toFixed(1)` for a draw `r` in [0, 1), in tenths. */
  function RatingTenths(r: real): (t: int)
    requires 0.0 <= r < 1.0
    ensures 40 <= t <= 49
  {
    RoundHalfAway(10.0 * (4.0 + r * 0.9))
  }

  /** The object pushed for the `i`-th distinct price. */
  function ScrapedListing(keyword: string, price: real, i: nat, shops: seq<string>, draw: real): Listing
    requires 0.0 <= draw < 1.0
  {
    Listing(keyword + " " + TitleSuffix(i),
            ToFixed2Cents(price), ToFixed2Cents(price), ToFixed2Cents(price * RangeFactor),
            MinOrderAt(i), SupplierAt(shops, i), RatingTenths(draw), [], Scraped, None)
  }

  predicate ValidDraws(draws: seq<real>)
  {
    |draws| >= MaxListings && forall k :: 0 <= k < |draws| ==> 0.0 <= draws[k] < 1.0
  }

  /** The distinct accepted prices, in first-seen order, at most 5: `[...new Set(prices)].slice(0, 5)`. */
  function ListedPrices(html: string): (u: seq<real>)
    ensures |u| <= MaxListings
  {
    Take(Dedup(WholesalePrices(html)), MaxListings)
  }

  /** The objects pushed by the `forEach` over the distinct prices `u`. */
  function ListingsFor(keyword: string, u: seq<real>, shops: seq<string>, draws: seq<real>): seq<Listing>
    requires |u| <= |draws| && forall k :: 0 <= k < |draws| ==> 0.0 <= draws[k] < 1.0
  {
    seq(|u|, i requires 0 <= i < |u| => ScrapedListing(keyword, u[i], i, shops, draws[i]))
  }

  /** What parse1688Results returns, given the page, the keyword and the `Math.random` draws. */
  function ScrapedListings(html: string, keyword: string, draws: seq<real>): seq<Listing>
    requires ValidDraws(draws)
  {
    if |WholesalePrices(html)| < MinPrices then []
    else ListingsFor(keyword, ListedPrices(html), ShopNames(html), draws)
  }

  /** parse1688Results(html, keyword). */
  method ParseWholesaleResults(html: string, keyword: string, draws: seq<real>) returns (sources: seq<Listing>)
    requires ValidDraws(draws)
    ensures sources == ScrapedListings(html, keyword, draws)
    ensures |WholesalePrices(html)| < MinPrices ==> sources == []
    ensures |WholesalePrices(html)| >= MinPrices ==> |sources| == |ListedPrices(html)|
  {
    sources := [];
    var prices := WholesalePrices(html);
    var shops := ShopNames(html);
    if |prices| >= MinPrices {
      var uniquePrices := ListedPrices(html);
      sources := PushListings(keyword, uniquePrices, shops, draws);
    }
  }

  /** The `forEach` of parse1688Results: one listing per distinct price, in order. */
  method PushListings(keyword: string, u: seq<real>, shops: seq<string>, draws: seq<real>) returns (sources: seq<Listing>)
    requires |u| <= |draws| && forall k :: 0 <= k < |draws| ==> 0.0 <= draws[k] < 1.0
    ensures sources == ListingsFor(keyword, u, shops, draws)
  {
    sources := [];
    var i := 0;
    while i < |u|
      invariant 0 <= i <= |u|
      invariant |sources| == i
      invariant forall k :: 0 <= k < i ==> sources[k] == ScrapedListing(keyword, u[k], k, shops, draws[k])
    {
      sources := sources + [ScrapedListing(keyword, u[i], i, shops, draws[i])];
      i := i + 1;
    }
  }

  // ---------------------------------------------------------------------------
  // What the listings are

  /** No listing at all exactly when fewer than 3 of the first 20 matches give an accepted price. */
  lemma EmptyIffFewPrices(html: string, keyword: string, draws: seq<real>)
    requires ValidDraws(draws)
    ensures ScrapedListings(html, keyword, draws) == [] <==> |WholesalePrices(html)| < MinPrices
  {
    var prices := WholesalePrices(html);
    if |prices| >= MinPrices {
      assert prices[0] in Dedup(prices);
      assert |ListedPrices(html)| >= 1;
    }
  }

  /** With enough prices there are min(5, number of distinct accepted prices) listings. */
  lemma ListingCount(html: string, keyword: string, draws: seq<real>)
    requires ValidDraws(draws)
    requires |WholesalePrices(html)| >= MinPrices
    ensures var d := |Dedup(WholesalePrices(html))|;
      |ScrapedListings(html, keyword, draws)| == if d < MaxListings then d else MaxListings
  {
  }

  /**
   * Distinct prices need not give distinct offer prices: `toFixed(2)` writes
   * both 1.001 and 1.002 as `1.00`.
   */
  lemma DistinctPricesCanSharePrice(keyword: string, shops: seq<string>, draw: real)
    requires 0.0 <= draw < 1.0
    ensures var a, b := ScrapedListing(keyword, 1.001, 0, shops, draw), ScrapedListing(keyword, 1.002, 1, shops, draw);
      a.priceCents == b.priceCents == 100
  {
    assert (100.0 * 1.001 + 0.5).Floor == 100;
    assert (100.0 * 1.002 + 0.5).Floor == 100;
  }

  /**
   * The listed prices are accepted prices, pairwise distinct, and in the order
   * in which each was first seen on the page.
   */
  lemma ListedPricesDistinctInOrder(html: string, i: nat, j: nat)
    requires i < j < |ListedPrices(html)|
    ensures var u := ListedPrices(html); var prices := WholesalePrices(html);
      && u[i] != u[j]
      && u[i] in prices && u[j] in prices
      && InYenRange(u[i])
      && FirstIndex(prices, u[i]) < FirstIndex(prices, u[j])
  {
    var prices := WholesalePrices(html);
    var d := Dedup(prices);
    assert ListedPrices(html)[i] == d[i] && ListedPrices(html)[j] == d[j];
    assert d[i] in d && d[j] in d;
    DedupKeepsFirstSeenOrder(prices, i, j);
  }

  /**
   * Listing `i` follows the fixed tables: its title suffix, its minimum order
   * [1, 2, 5, 10, 20][i], the extracted shop name `shops[i]` when there is a
   * non-empty one and otherwise the i-th default shop, a price range from its
   * price to 1.5 times it, a rating between 4.0 and 4.9, the tag 'scraped' and
   * no profit record yet.
   */
  lemma ListingRules(html: string, keyword: string, draws: seq<real>, i: nat)
    requires ValidDraws(draws)
    requires i < |ScrapedListings(html, keyword, draws)|
    ensures var l := ScrapedListings(html, keyword, draws)[i];
      var p := ListedPrices(html)[i];
      var shops := ShopNames(html);
      && l.title == keyword + " " + TitleSuffixes[i]
      && l.minOrder == MinOrders[i]
      && l.supplier == (if i < |shops| && shops[i] != "" then shops[i] else DefaultShops[i])
      && l.priceCents == ToFixed2Cents(p) == l.rangeLowCents
      && l.rangeHighCents == ToFixed2Cents(RangeFactor * p)
      && 40 <= l.ratingTenths <= 49
      && l.origin == Scraped && l.profitMargin == None
  {
    assert |ListedPrices(html)| <= MaxListings;
    assert ListedPrices(html)[i] * RangeFactor == RangeFactor * ListedPrices(html)[i];
  }

  // ---------------------------------------------------------------------------
  // Shop names are the captured values of the first 10 matches

  /** Name `k` is the captured value of match `k`, less a trailing `data-shop-name=` if the value has one. */
  lemma ShopNameIsCapturedValue(html: string, k: nat)
    requires k < |ShopNames(html)|
    ensures |ShopNames(html)| == |Take(ShopMatches(html), MaxShopNames)|
    ensures var v := ShopValue(ShopMatches(html)[k]);
      ShopNames(html)[k] == if EndsWithAttrName(v) then v[..|v| - (|ShopAttr| - 1)] else v
  {
    var ms := ShopMatches(html);
    assert Take(ms, MaxShopNames)[k] == ms[k];
    assert ms[k] in ms;
    StripMatch(ms[k]);
  }

  // ---------------------------------------------------------------------------
  // Reading back a page of prices

  /** A price of `cents` hundredths of a yuan as a page shows it: `¥`, the units, `.` and two digits. */
  function FormatYen(cents: nat): string
  {
    "¥" + CentsText(cents)
  }

  /** The scanner reads a written price as one whole match when no digit follows it. */
  lemma FormattedYenIsOneMatch(cents: nat, rest: string)
    requires rest == [] || !IsDigit(rest[0])
    ensures YenMatchLength(FormatYen(cents) + rest) == |FormatYen(cents)|
  {
    var units := NatToDigits(cents / 100);
    var dd := CentsDigits(cents % 100);
    TwoDigitsValue(cents % 100);
    var s := FormatYen(cents) + rest;
    var v := s[1..];
    assert v == units + "." + (dd + rest);
    SpaceRunOfDigit(v);
    DigitsThenPoint(units, dd + rest);
    assert s[|units| + 1] == '.';
    assert s[|units| + 2..] == dd + rest;
    TwoDigitsThen(dd, rest);
    YenMatchOfRuns(s, |units|);
  }

  /** `¥`, no whitespace, `w` digits, a point and two digits: a match of that length. */
  lemma YenMatchOfRuns(s: string, w: nat)
    requires s != [] && s[0] == '¥' && SpaceRun(s[1..]) == 0
    requires w > 0 && DigitRun(s[1..]) == w && w + 1 < |s| && s[w + 1] == '.'
    requires DigitRun(s[w + 2..]) == 2
    ensures YenMatchLength(s) == w + 4
  {
  }

  lemma SpaceRunOfDigit(v: string)
    requires v != [] && IsDigit(v[0])
    ensures SpaceRun(v) == 0
  {
  }

  lemma DigitsThenPoint(units: string, tail: string)
    requires units != [] && AllDigits(units)
    ensures DigitRun(units + "." + tail) == |units|
  {
    var v := units + "." + tail;
    assert v[..|units|] == units && v[|units|] == '.';
    DigitRunUnique(v, |units|);
  }

  lemma TwoDigitsThen(dd: string, rest: string)
    requires |dd| == 2 && AllDigits(dd) && (rest == [] || !IsDigit(rest[0]))
    ensures DigitRun(dd + rest) == 2
  {
    var f := dd + rest;
    assert f[..2] == dd;
    assert 2 < |f| ==> f[2] == rest[0];
    DigitRunUnique(f, 2);
  }

  lemma FormattedYenIsToken(cents: nat)
    ensures IsYenToken(FormatYen(cents))
  {
    FormattedYenIsOneMatch(cents, []);
    assert FormatYen(cents) + [] == FormatYen(cents);
  }

  /** A whole match at the front is the first token; the scan resumes right after it. */
  lemma YenTokensAfterMatch(t: string, rest: string)
    requires |t| > 0 && YenMatchLength(t + rest) == |t|
    ensures YenTokens(t + rest) == [t] + YenTokens(rest)
  {
    var s := t + rest;
    assert s[..|t|] == t && s[|t|..] == rest;
  }

  lemma YenTokensSkipSpace(x: string)
    ensures YenTokens(" " + x) == YenTokens(x)
  {
    assert (" " + x)[1..] == x;
  }

  lemma FormattedYenThenRest(cents: nat, x: string)
    ensures YenTokens(FormatYen(cents) + " " + x) == [FormatYen(cents)] + YenTokens(x)
  {
    var t := FormatYen(cents);
    assert t + " " + x == t + (" " + x);
    FormattedYenIsOneMatch(cents, " " + x);
    YenTokensAfterMatch(t, " " + x);
    YenTokensSkipSpace(x);
  }

  /** A page listing the prices `cs`, each written with FormatYen and followed by a space. */
  function YenPage(cs: seq<nat>): string
  {
    if cs == [] then "" else FormatYen(cs[0]) + " " + YenPage(cs[1..])
  }

  /** The written prices of `cs`, in order. */
  function FormatYenAll(cs: seq<nat>): (ts: seq<string>)
    ensures |ts| == |cs|
    ensures forall k :: 0 <= k < |cs| ==> ts[k] == FormatYen(cs[k])
    ensures forall t :: t in ts ==> IsYenToken(t)
  {
    if cs == [] then []
    else
      FormattedYenIsToken(cs[0]);
      [FormatYen(cs[0])] + FormatYenAll(cs[1..])
  }

  /** The scanner finds exactly the written prices of a page, in order. */
  lemma {:induction false} YenPageTokens(cs: seq<nat>)
    ensures YenTokens(YenPage(cs)) == FormatYenAll(cs)
  {
    if cs != [] {
      FormattedYenThenRest(cs[0], YenPage(cs[1..]));
      YenPageTokens(cs[1..]);
    }
  }

  /** Parsing a written price gives back its amount. */
  lemma FormattedYenParses(cents: nat)
    ensures IsYenToken(FormatYen(cents))
    ensures ParseYen(FormatYen(cents)) == cents as real / 100.0
  {
    FormattedYenIsToken(cents);
    var t := FormatYen(cents);
    var u := CentsText(cents);
    CentsTextParses(cents);
    assert t[1..] == u;
    assert IsDigit(u[0]);
    assert SpaceRun(u) == 0;
    DropYenOfToken(t);
  }

  /** The amounts `c / 100` of `cs` that lie strictly between 0 and 10000, in order. */
  function YenInRange(cs: seq<nat>): (ps: seq<real>)
    ensures |ps| <= |cs|
  {
    if cs == [] then []
    else
      var p := cs[0] as real / 100.0;
      (if InYenRange(p) then [p] else []) + YenInRange(cs[1..])
  }

  /** The accepted prices of two runs of matches are those of each, in order. */
  lemma {:induction false} KeepYenPricesAppend(a: seq<string>, b: seq<string>)
    requires forall t :: t in a ==> IsYenToken(t)
    requires forall t :: t in b ==> IsYenToken(t)
    ensures KeepYenPrices(a + b) == KeepYenPrices(a) + KeepYenPrices(b)
  {
    if a == [] {
      assert a + b == b;
    } else {
      assert (a + b)[0] == a[0] && (a + b)[1..] == a[1..] + b;
      KeepYenPricesAppend(a[1..], b);
    }
  }

  /** One match gives its price when that is in range, and nothing otherwise. */
  lemma KeepYenOne(t: string)
    requires IsYenToken(t)
    ensures KeepYenPrices([t]) == if InYenRange(ParseYen(t)) then [ParseYen(t)] else []
  {
    assert [t][1..] == [];
  }

  lemma {:induction false} KeepOfFormattedYen(cs: seq<nat>)
    ensures KeepYenPrices(FormatYenAll(cs)) == YenInRange(cs)
  {
    if cs != [] {
      var t := FormatYen(cs[0]);
      var rest := FormatYenAll(cs[1..]);
      assert FormatYenAll(cs) == [t] + rest;
      FormattedYenParses(cs[0]);
      KeepYenOne(t);
      KeepOfFormattedYen(cs[1..]);
      KeepYenPricesAppend([t], rest);
    }
  }

  lemma TakeFormatYenAll(cs: seq<nat>, n: nat)
    ensures Take(FormatYenAll(cs), n) == FormatYenAll(Take(cs, n))
  {
  }

  /**
   * The extractor reads back a page of written prices: the prices are those
   * among the first 20 that lie strictly between 0 and 10000, in page order.
   */
  lemma ReadsBackYenPage(cs: seq<nat>)
    ensures WholesalePrices(YenPage(cs)) == YenInRange(Take(cs, MaxYenTokens))
  {
    YenPageTokens(cs);
    TakeFormatYenAll(cs, MaxYenTokens);
    KeepOfFormattedYen(Take(cs, MaxYenTokens));
  }

  // ---------------------------------------------------------------------------
  // Reading back a page of shop names

  /** The attribute carrying the value `v`, as the pattern matches it. */
  function ShopMatchFor(v: string): string
  {
    ShopAttr + v + "\""
  }

  /** Values the pattern captures whole and stripping gives back: non-empty, without `"`, not ending with the attribute name. */
  predicate PlainShopValue(v: string)
  {
    v != [] && '"' !in v && !EndsWithAttrName(v)
  }

  /** The scanner reads an attribute with a plain value as one whole match, whatever follows it. */
  lemma ShopMatchOfValue(v: string, rest: string)
    requires v != [] && '"' !in v
    ensures ShopMatchLength(ShopMatchFor(v) + rest) == |ShopMatchFor(v)|
  {
    var s := ShopMatchFor(v) + rest;
    assert s[..|ShopAttr|] == ShopAttr;
    var tail := s[|ShopAttr|..];
    assert tail == v + "\"" + rest;
    assert tail[|v|] == '"';
    assert forall k :: 0 <= k < |v| ==> tail[k] == v[k];
    assert QuoteFreeRun(tail) == |v|;
  }

  lemma ShopMatchesAfterMatch(m: string, rest: string)
    requires |m| > 0 && ShopMatchLength(m + rest) == |m|
    ensures ShopMatches(m + rest) == [m] + ShopMatches(rest)
  {
    var s := m + rest;
    assert s[..|m|] == m && s[|m|..] == rest;
  }

  lemma ShopMatchesSkipSpace(x: string)
    ensures ShopMatches(" " + x) == ShopMatches(x)
  {
    var s := " " + x;
    assert s[1..] == x;
    if |s| >= |ShopAttr| {
      assert s[..|ShopAttr|][0] != ShopAttr[0];
    }
  }

  /** A page of shop attributes with the values `vs`, each followed by a space. */
  function ShopPage(vs: seq<string>): string
  {
    if vs == [] then "" else ShopMatchFor(vs[0]) + " " + ShopPage(vs[1..])
  }

  /** The matches of the values `vs`, in order. */
  function ShopMatchesFor(vs: seq<string>): (ms: seq<string>)
    ensures |ms| == |vs|
    ensures forall k :: 0 <= k < |vs| ==> ms[k] == ShopMatchFor(vs[k])
  {
    if vs == [] then [] else [ShopMatchFor(vs[0])] + ShopMatchesFor(vs[1..])
  }

  /** The scanner finds exactly the attributes of a page, in order. */
  lemma {:induction false} ShopPageMatches(vs: seq<string>)
    requires forall k :: 0 <= k < |vs| ==> vs[k] != [] && '"' !in vs[k]
    ensures ShopMatches(ShopPage(vs)) == ShopMatchesFor(vs)
  {
    if vs != [] {
      var m := ShopMatchFor(vs[0]);
      var x := ShopPage(vs[1..]);
      assert ShopPage(vs) == m + (" " + x);
      ShopMatchOfValue(vs[0], " " + x);
      ShopMatchesAfterMatch(m, " " + x);
      ShopMatchesSkipSpace(x);
      ShopPageMatches(vs[1..]);
    }
  }

  /** Stripping the match of a plain value gives back the value. */
  lemma StripMatchFor(v: string)
    requires PlainShopValue(v)
    ensures StripShopAttr(ShopMatchFor(v)) == v
  {
    var m := ShopMatchFor(v);
    assert StartsWithShopAttr(m);
    assert m[|ShopAttr|..] == v + "\"";
    StripKeepsValue(v);
  }

  lemma TakeShopMatchesFor(vs: seq<string>, n: nat)
    ensures Take(ShopMatchesFor(vs), n) == ShopMatchesFor(Take(vs, n))
  {
  }

  lemma {:induction false} StripAllOfPlainValues(ws: seq<string>)
    requires forall k :: 0 <= k < |ws| ==> PlainShopValue(ws[k])
    ensures StripAll(ShopMatchesFor(ws)) == ws
  {
    if ws != [] {
      var ms := ShopMatchesFor(ws);
      assert ms[1..] == ShopMatchesFor(ws[1..]);
      StripMatchFor(ws[0]);
      StripAllOfPlainValues(ws[1..]);
      assert StripAll(ms) == [ws[0]] + ws[1..];
    }
  }

  /** The extractor reads back a page of shop attributes: the names are the first 10 values, in order. */
  lemma ReadsBackShopPage(vs: seq<string>)
    requires forall k :: 0 <= k < |vs| ==> PlainShopValue(vs[k])
    ensures ShopNames(ShopPage(vs)) == Take(vs, MaxShopNames)
  {
    ShopPageMatches(vs);
    var ws := Take(vs, MaxShopNames);
    TakeShopMatchesFor(vs, MaxShopNames);
    StripAllOfPlainValues(ws);
  }
}
