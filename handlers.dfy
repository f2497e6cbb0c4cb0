/**
 * The pure pieces of the two request handlers of worker/index.js and the
 * handlers themselves. ScraperAPI, the LLM and `Math.random` are parameters
 * that carry their outcome; the cache and the clock are left out.
 */
module Handlers {
  import opened Wrappers
  import opened Text
  import opened Profit
  import opened Listings
  import opened MarketStats
  import opened Wholesale

  // ---------------------------------------------------------------------------
  // The region table of fetchMeliData

  const DefaultSite: string := "MLM"

  /** The `siteMap` object literal: region code to marketplace domain. */
  const SiteMap: map<string, string> := map[
    "MLM" := "mercadolibre.com.mx",
    "MLB" := "mercadolibre.com.br",
    "MLA" := "mercadolibre.com.ar",
    "MLC" := "mercadolibre.cl",
    "MCO" := "mercadolibre.com.co"]

  /** The names every object literal inherits from `Object.prototype`. */
  const ObjectPrototypeMembers: set<string> := {
    "constructor", "__proto__", "hasOwnProperty", "isPrototypeOf", "propertyIsEnumerable",
    "toString", "toLocaleString", "valueOf",
    "__defineGetter__", "__defineSetter__", "__lookupGetter__", "__lookupSetter__"}

  /** What `siteMap[site]` yields: a domain string, or an inherited function or object. */
  datatype SiteLookup = Domain(name: string) | Inherited(member: string)

  /**
   * `siteMap[site] || siteMap['MLM']` as written: a property lookup on a plain
   * object also finds the inherited members, which are truthy, so for them the
   * fallback to MLM is not taken.
   */
  function SiteLookupAsWritten(site: string): (r: SiteLookup)
    ensures site in SiteMap ==> r == Domain(SiteMap[site])
    ensures site !in SiteMap && site in ObjectPrototypeMembers ==> r == Inherited(site)
    ensures site !in SiteMap && site !in ObjectPrototypeMembers ==> r == Domain(SiteMap[DefaultSite])
  {
    if site in SiteMap then Domain(SiteMap[site])
    else if site in ObjectPrototypeMembers then Inherited(site)
    else Domain(SiteMap[DefaultSite])
  }

  /** The region code "constructor" yields `Object`, not a domain, and is not sent to Mexico. */
  lemma InheritedSiteIsNotADomain()
    ensures SiteLookupAsWritten("constructor") == Inherited("constructor")
    ensures !SiteLookupAsWritten("constructor").Domain?
  {
    assert "constructor" !in SiteMap;
  }

  /** The intended lookup, on the table's own entries only: an unknown code falls back to Mexico. */
  function SiteDomain(site: string): (d: string)
    ensures d in SiteMap.Values
    ensures site in SiteMap ==> d == SiteMap[site]
    ensures site !in SiteMap ==> d == "mercadolibre.com.mx"
  {
    if site in SiteMap then SiteMap[site] else SiteMap[DefaultSite]
  }

  /** Outside the inherited member names, the lookup as written is the intended one. */
  lemma LookupAgreesOffPrototype(site: string)
    requires site !in ObjectPrototypeMembers
    ensures SiteLookupAsWritten(site) == Domain(SiteDomain(site))
  {
  }

  // ---------------------------------------------------------------------------
  // The keyword tests

  /** `!keyword`: the keyword is absent or empty. */
  predicate KeywordMissing(keyword: Option<string>)
  {
    keyword.None? || keyword.value == ""
  }

  /** `/^[a-zA-Z\s]+$/.test(s)`. */
  predicate LettersAndSpacesOnly(s: string)
  {
    s != [] && OnlyLettersAndSpaces(s)
  }

  /** The `isEnglish` test of handleSource, on the trimmed keyword. */
  predicate NeedsTranslation(keyword: string)
  {
    LettersAndSpacesOnly(Trim(keyword))
  }

  /** Some character of `s` is an ASCII letter. */
  predicate HasAsciiLetter(s: string)
  {
    exists k :: 0 <= k < |s| && IsAsciiLetter(s[k])
  }

  /** Every character of `s` is an ASCII letter or whitespace. */
  predicate OnlyLettersAndSpaces(s: string)
  {
    forall k :: 0 <= k < |s| ==> IsAsciiLetter(s[k]) || IsJsSpace(s[k])
  }

  lemma TranslatedKeywordShape(keyword: string)
    requires NeedsTranslation(keyword)
    ensures HasAsciiLetter(keyword) && OnlyLettersAndSpaces(keyword)
  {
    var t := Trim(keyword);
    assert t[0] in keyword;
    var j :| 0 <= j < |keyword| && keyword[j] == t[0];
    forall k | 0 <= k < |keyword| ensures IsAsciiLetter(keyword[k]) || IsJsSpace(keyword[k]) {
      if !IsJsSpace(keyword[k]) {
        assert keyword[k] in t;
        var i :| 0 <= i < |t| && t[i] == keyword[k];
      }
    }
  }

  lemma ShapedKeywordIsTranslated(keyword: string)
    requires HasAsciiLetter(keyword) && OnlyLettersAndSpaces(keyword)
    ensures NeedsTranslation(keyword)
  {
    var t := Trim(keyword);
    var j :| 0 <= j < |keyword| && IsAsciiLetter(keyword[j]);
    assert keyword[j] in t;
    TrimAddsNothing(keyword);
    MembersKeepShape(keyword, t);
  }

  /** A string made of characters of a letters-and-whitespace string is one too. */
  lemma MembersKeepShape(s: string, t: string)
    requires OnlyLettersAndSpaces(s)
    requires forall i :: 0 <= i < |t| ==> t[i] in s
    ensures OnlyLettersAndSpaces(t)
  {
    forall i | 0 <= i < |t| ensures IsAsciiLetter(t[i]) || IsJsSpace(t[i]) {
      var k :| 0 <= k < |s| && s[k] == t[i];
    }
  }

  /**
   * A keyword is sent for translation exactly when it holds at least one ASCII
   * letter and nothing but ASCII letters and whitespace.
   */
  lemma NeedsTranslationIff(keyword: string)
    ensures NeedsTranslation(keyword) <==> HasAsciiLetter(keyword) && OnlyLettersAndSpaces(keyword)
  {
    if NeedsTranslation(keyword) {
      TranslatedKeywordShape(keyword);
    }
    if HasAsciiLetter(keyword) && OnlyLettersAndSpaces(keyword) {
      ShapedKeywordIsTranslated(keyword);
    }
  }

  /** A keyword in Chinese characters is searched as it is. */
  lemma ChineseKeywordIsKept()
    ensures !NeedsTranslation("手机壳")
  {
    var k := "手机壳";
    assert !IsAsciiLetter(k[0]) && !IsJsSpace(k[0]);
    NeedsTranslationIff(k);
  }

  /** A keyword with a digit is searched as it is. */
  lemma KeywordWithDigitIsKept()
    ensures !NeedsTranslation("iphone 15")
  {
    var k := "iphone 15";
    assert !IsAsciiLetter(k[7]) && !IsJsSpace(k[7]);
    NeedsTranslationIff(k);
  }

  /** A keyword of English words and spaces is translated. */
  lemma EnglishKeywordIsTranslated()
    ensures NeedsTranslation("phone case")
  {
    var k := "phone case";
    assert IsAsciiLetter(k[0]);
    assert forall i :: 0 <= i < |k| ==> IsAsciiLetter(k[i]) || k[i] == ' ';
    ShapedKeywordIsTranslated(k);
  }

  /**
   * translateToChineseWithAI: `content.trim() || keyword`, where a failed call
   * is None and a reply without content is the empty string.
   */
  function TranslatedKeyword(keyword: string, reply: Option<string>): (r: string)
    ensures reply.None? ==> r == keyword
    ensures reply.Some? && !AllSpaces(reply.value) ==> r == Trim(reply.value) && r != []
    ensures reply.Some? && AllSpaces(reply.value) ==> r == keyword
    ensures keyword != [] ==> r != []
  {
    match reply
    case None => keyword
    case Some(content) => if Trim(content) != [] then Trim(content) else keyword
  }

  // ---------------------------------------------------------------------------
  // The cache keys

  /** `` `meli:${site}:${keyword.toLowerCase()}` `` of handleAnalyze. */
  function AnalyzeCacheKey(site: string, keyword: string): string
  {
    "meli:" + site + ":" + ToLowerAscii(keyword)
  }

  /** `` `1688:${keyword.toLowerCase()}` `` of handleSource. */
  function SourceCacheKey(keyword: string): string
  {
    "1688:" + ToLowerAscii(keyword)
  }

  /** The two handlers never share a cache entry. */
  lemma CacheNamespacesDisjoint(site: string, k1: string, k2: string)
    ensures AnalyzeCacheKey(site, k1) != SourceCacheKey(k2)
  {
    assert AnalyzeCacheKey(site, k1)[0] == 'm' && SourceCacheKey(k2)[0] == '1';
  }

  /** Two keywords share a source cache entry exactly when they agree up to ASCII case. */
  lemma SourceCacheKeyIff(k1: string, k2: string)
    ensures SourceCacheKey(k1) == SourceCacheKey(k2) <==> ToLowerAscii(k1) == ToLowerAscii(k2)
  {
    if SourceCacheKey(k1) == SourceCacheKey(k2) {
      assert ToLowerAscii(k1) == SourceCacheKey(k1)[5..];
      assert ToLowerAscii(k2) == SourceCacheKey(k2)[5..];
    }
  }

  /**
   * For region codes without `:`, two analyze requests share a cache entry
   * exactly when their codes are equal and their keywords agree up to ASCII case.
   */
  lemma AnalyzeCacheKeyIff(s1: string, k1: string, s2: string, k2: string)
    requires ':' !in s1 && ':' !in s2
    ensures AnalyzeCacheKey(s1, k1) == AnalyzeCacheKey(s2, k2) <==> s1 == s2 && ToLowerAscii(k1) == ToLowerAscii(k2)
  {
    var a, b := AnalyzeCacheKey(s1, k1), AnalyzeCacheKey(s2, k2);
    assert a[..5 + |s1|] == "meli:" + s1 && a[5 + |s1|] == ':';
    assert b[..5 + |s2|] == "meli:" + s2 && b[5 + |s2|] == ':';
    if a == b {
      assert |s1| == |s2|;
      assert s1 == a[5..5 + |s1|] && s2 == b[5..5 + |s2|];
      assert ToLowerAscii(k1) == a[6 + |s1|..] && ToLowerAscii(k2) == b[6 + |s2|..];
    }
  }

  // ---------------------------------------------------------------------------
  // The source listings of handleSource

  /** `meli_price && …`: a reference price is used when present and not zero. */
  predicate HasReferencePrice(meliPrice: Option<real>)
  {
    meliPrice.Some? && meliPrice.value != 0.0
  }

  /**
   * Step 5 of handleSource: with a reference price and at least one listing,
   * every listing gains the profit record computed from its own price.
   */
  function AttachProfit(sources: seq<Listing>, meliPrice: Option<real>): (r: seq<Listing>)
    ensures |r| == |sources|
    ensures forall i :: 0 <= i < |r| ==> r[i].(profitMargin := sources[i].profitMargin) == sources[i]
    ensures HasReferencePrice(meliPrice) ==> forall i :: 0 <= i < |r| ==>
      r[i].profitMargin == Some(CalculateProfitMargin(PriceValue(sources[i]), meliPrice.value))
    ensures !HasReferencePrice(meliPrice) ==> r == sources
  {
    if HasReferencePrice(meliPrice) && |sources| > 0 then
      seq(|sources|, i requires 0 <= i < |sources| =>
        sources[i].(profitMargin := Some(CalculateProfitMargin(PriceValue(sources[i]), meliPrice.value))))
    else sources
  }

  /** Every listing without a profit record; the other fields as they were. */
  function WithoutProfit(sources: seq<Listing>): (r: seq<Listing>)
    ensures |r| == |sources|
  {
    seq(|sources|, i requires 0 <= i < |sources| => sources[i].(profitMargin := None))
  }

  /** Attaching profits changes nothing but the profit records: removing them gives back the listings. */
  lemma AttachProfitOnlyAddsProfit(sources: seq<Listing>, meliPrice: Option<real>)
    requires forall i :: 0 <= i < |sources| ==> sources[i].profitMargin == None
    ensures WithoutProfit(AttachProfit(sources, meliPrice)) == sources
  {
    var r := AttachProfit(sources, meliPrice);
    assert forall i :: 0 <= i < |sources| ==> WithoutProfit(r)[i] == sources[i];
  }

  /** The profit of each listing is that of its own price: its cost in pesos is its price divided by 0.4. */
  lemma ProfitFromOwnPrice(sources: seq<Listing>, meliPrice: Option<real>, i: nat)
    requires HasReferencePrice(meliPrice) && i < |sources|
    ensures var m := AttachProfit(sources, meliPrice)[i].profitMargin;
      m.Some? && m.value.costMxn * YuanPerPeso * 100.0 == sources[i].priceCents as real
  {
  }

  /** The listings the model proposed, tagged 'ai_generated' (their `url` is not part of this model). */
  function TagGenerated(generated: seq<Listing>): (r: seq<Listing>)
    ensures |r| == |generated|
    ensures forall i :: 0 <= i < |r| ==> r[i].origin == AiGenerated && r[i].(origin := generated[i].origin) == generated[i]
  {
    seq(|generated|, i requires 0 <= i < |generated| => generated[i].(origin := AiGenerated))
  }

  /**
   * Steps 3 and 4 of handleSource: the scraped listings when there are any;
   * otherwise those of generateSourcesWithAI, which are the model's listings
   * when its reply parsed (None: the call or the parse failed) and the default
   * set otherwise.
   */
  function FallbackSources(scraped: seq<Listing>, generated: Option<seq<Listing>>, cnKeyword: string): (r: seq<Listing>)
    ensures scraped != [] ==> r == scraped
    ensures scraped == [] && generated.Some? ==> r == TagGenerated(generated.value)
    ensures scraped == [] && generated.None? ==> r == DefaultSources(cnKeyword)
  {
    if scraped != [] then scraped
    else match generated
      case Some(g) => TagGenerated(g)
      case None => DefaultSources(cnKeyword)
  }

  /** The listings before profits: the scraped page's when a page came back, then the fallbacks. */
  function ChosenSources(cnKeyword: string, page: Option<string>, generated: Option<seq<Listing>>, draws: seq<real>): (r: seq<Listing>)
    requires ValidDraws(draws)
    ensures page.None? && generated.None? ==> r == DefaultSources(cnKeyword)
    ensures page.Some? && ScrapedListings(page.value, cnKeyword, draws) != [] ==> r == ScrapedListings(page.value, cnKeyword, draws)
  {
    var scraped := if page.Some? then ScrapedListings(page.value, cnKeyword, draws) else [];
    FallbackSources(scraped, generated, cnKeyword)
  }

  /** With neither a page nor a model reply, the answer is the three default listings, with profits when priced. */
  lemma AllFailedGivesDefaults(cnKeyword: string, meliPrice: Option<real>)
    ensures var r := AttachProfit(DefaultSources(cnKeyword), meliPrice);
      && |r| == 3
      && (forall i :: 0 <= i < 3 ==> r[i].origin == Default)
      && WithoutProfit(r) == DefaultSources(cnKeyword)
  {
    AttachProfitOnlyAddsProfit(DefaultSources(cnKeyword), meliPrice);
  }

  datatype SourceResult = SourceResult(keyword: string, cnKeyword: string, sources: seq<Listing>)

  /** The outcome of a `/pick/source` request: a 400 answer, or a result and the key it is cached under. */
  datatype SourceOutcome = KeywordRequired | SourceComputed(cacheKey: string, result: SourceResult)

  /**
   * handleSource without the cache lookup and write and the timestamp.
   * `translation` is the translator's reply, `page` the ScraperAPI page (None:
   * the fetch failed), `generated` the model's listings (None: its call or
   * parse failed), `draws` the `Math.random` values of the scraped ratings.
   */
  method HandleSource(keyword: Option<string>, meliPrice: Option<real>, translation: Option<string>,
                      page: Option<string>, generated: Option<seq<Listing>>, draws: seq<real>)
    returns (out: SourceOutcome)
    requires ValidDraws(draws)
    ensures out.KeywordRequired? <==> KeywordMissing(keyword)
    ensures out.SourceComputed? ==>
      && out.cacheKey == SourceCacheKey(keyword.value)
      && out.result.keyword == keyword.value
      && out.result.cnKeyword == (if NeedsTranslation(keyword.value) then TranslatedKeyword(keyword.value, translation) else keyword.value)
      && out.result.cnKeyword != []
      && out.result.sources == AttachProfit(ChosenSources(out.result.cnKeyword, page, generated, draws), meliPrice)
  {
    if KeywordMissing(keyword) {
      return KeywordRequired;
    }
    var kw := keyword.value;
    var cacheKey := SourceCacheKey(kw);

    var cnKeyword := kw;
    if NeedsTranslation(kw) {
      cnKeyword := TranslatedKeyword(kw, translation);
    }
    assert cnKeyword != [];

    var sources := GatherSources(cnKeyword, meliPrice, page, generated, draws);
    out := SourceComputed(cacheKey, SourceResult(kw, cnKeyword, sources));
  }

  /** Steps 3 to 5 of handleSource: scrape, fall back, then attach the profits. */
  method GatherSources(cnKeyword: string, meliPrice: Option<real>, page: Option<string>,
                       generated: Option<seq<Listing>>, draws: seq<real>)
    returns (sources: seq<Listing>)
    requires ValidDraws(draws)
    ensures sources == AttachProfit(ChosenSources(cnKeyword, page, generated, draws), meliPrice)
  {
    sources := [];
    if page.Some? {
      sources := ParseWholesaleResults(page.value, cnKeyword, draws);
    }
    if |sources| == 0 {
      sources := FallbackSources(sources, generated, cnKeyword);
    }
    assert sources == ChosenSources(cnKeyword, page, generated, draws);
    if HasReferencePrice(meliPrice) && |sources| > 0 {
      sources := AttachProfit(sources, meliPrice);
    } else {
      assert sources == AttachProfit(sources, meliPrice);
    }
  }

  // ---------------------------------------------------------------------------
  // handleAnalyze

  /** The assessment the model is asked for. */
  datatype Assessment = Assessment(
    competitionScore: int,
    competitionLevel: string,
    profitPotential: string,
    recommendation: string,
    reason: string,
    subNiches: seq<string>,
    differentiationTips: seq<string>)

  /** The assessment analyzeWithAI falls back to when the call or the parse of its reply fails. */
  const DefaultAssessment: Assessment :=
    Assessment(5, "中", "中", "观望", "AI分析暂时不可用，请稍后重试", [], [])

  datatype AnalyzeResult = AnalyzeResult(keyword: string, site: string, market: MarketStats, analysis: Assessment)

  /**
   * What getMockMeliData can return: marked as mock, a sample size of 50, and
   * `Math.floor(Math.random() * k) + b` for the total and each price, the
   * prices in whole currency units.
   */
  predicate IsMockStats(m: MarketStats)
  {
    && m.isMock && m.sampleSize == 50
    && 1000 <= m.totalResults < 51000
    && m.priceMinCents % 100 == 0 && 1000 <= m.priceMinCents < 6000
    && m.priceMaxCents % 100 == 0 && 20000 <= m.priceMaxCents < 70000
    && m.priceMedianCents % 100 == 0 && 5000 <= m.priceMedianCents < 20000
    && 60 <= m.priceAvg < 180
  }

  /** The outcome of a `/pick/analyze` request: a 400 answer, or a result and the key it is cached under. */
  datatype AnalyzeOutcome = AnalyzeKeywordRequired | AnalyzeComputed(cacheKey: string, result: AnalyzeResult)

  /**
   * handleAnalyze without the cache lookup and write and the timestamp.
   * `fetchPage` is ScraperAPI on the listing page of what `siteMap[site] ||
   * siteMap['MLM']` yields (None: the fetch failed), `mock` what
   * getMockMeliData drew, `assessment` the model's parsed reply (None: the
   * call or the parse failed).
   */
  method HandleAnalyze(keyword: Option<string>, site: Option<string>, fetchPage: SiteLookup -> Option<string>,
                       mock: MarketStats, assessment: Option<Assessment>)
    returns (out: AnalyzeOutcome)
    requires IsMockStats(mock)
    ensures out.AnalyzeKeywordRequired? <==> KeywordMissing(keyword)
    ensures out.AnalyzeComputed? ==>
      var kw := keyword.value;
      var code := if site.Some? then site.value else DefaultSite;
      var page := fetchPage(SiteLookupAsWritten(code));
      && out.cacheKey == AnalyzeCacheKey(code, kw)
      && out.result.keyword == kw && out.result.site == code
      && out.result.market == (if page.Some? then SearchStats(page.value) else mock)
      && out.result.analysis == (if assessment.Some? then assessment.value else DefaultAssessment)
    ensures out.AnalyzeComputed? ==>
      var page := fetchPage(SiteLookupAsWritten(out.result.site));
      && (page.Some? ==> !out.result.market.isMock
                         && out.result.market.totalResults == ResultsPerSample * out.result.market.sampleSize)
      && (page.None? ==> out.result.market.isMock && out.result.market.sampleSize == 50)
  {
    if KeywordMissing(keyword) {
      return AnalyzeKeywordRequired;
    }
    var kw := keyword.value;
    var code := if site.Some? then site.value else DefaultSite;
    var cacheKey := AnalyzeCacheKey(code, kw);

    var market := mock;
    var page := fetchPage(SiteLookupAsWritten(code));
    if page.Some? {
      market := ParseSearchResults(page.value);
    }
    var analysis := if assessment.Some? then assessment.value else DefaultAssessment;
    out := AnalyzeComputed(cacheKey, AnalyzeResult(kw, code, market, analysis));
  }
}
