# meli-picker worker: a verified model of its core

meli-picker is a Cloudflare Worker that helps a cross-border seller choose
products. It offers two endpoints:

- `/pick/analyze` summarises the prices on a Mercado Libre search page and asks
  a language model for a market assessment.
- `/pick/source` looks for wholesale offers on 1688 and prices each offer
  against a Mercado Libre selling price.

This project models the deterministic core of `worker/index.js` in Dafny and
proves properties of it:

- the two HTML parsers: the Mercado Libre price summariser and the 1688 offer
  extractor
- the profit calculation
- the default offers
- the region table
- the keyword-translation test
- the cache keys
- the profit attachment
- the two handlers' flows

Three external calls become parameters that carry their outcome: ScraperAPI,
the language model and `Math.random`. The cache and the clock are left out
(see "Left out").

Modules, one per file:

- `Wrappers` holds `Option`.
- `Text` covers JavaScript whitespace and `trim`, ASCII lower-casing, and
  decimal digit strings.
- `ArrayOps` covers `slice`, the numeric sort, sums, and `[...new Set(xs)]`.
- `Profit` is calculateProfitMargin.
- `Decimal` is `parseFloat` of plain decimal text, and the two-decimal text
  `toFixed(2)` writes for an amount of cents.
- `Listings` holds the offer record, `toFixed(2)` on prices, and
  getDefaultSources.
- `MarketStats` is parseSearchResults.
- `Wholesale` is parse1688Results.
- `Handlers` holds the region table, the keyword tests, the cache keys, the
  profit attachment, the fallback chain, handleSource and handleAnalyze.

How the model reads the code:

- **Regular expressions** are leftmost, greedy scanners, as JavaScript's global
  `match` runs them. `\s` is the ECMAScript whitespace set, and `\d` is the
  ASCII digits.
- **Dollar prices** (`\$[\d,]+(?:\.\d{2})?`) are exact integers of cents,
  because the pattern only admits exactly two decimals.
- **Yen prices** (`¥\s*(\d+\.?\d*)`) are exact reals.
- **`parseFloat`** of an empty string is NaN. The model writes NaN as `None`,
  and every range filter drops it.
- **`toFixed`** rounds half away from zero on the exact value. It matters in
  four places:
  - the offer price, because `parseFloat(s.price)` reads it back into the
    profit calculation
  - the upper bound of the offer's price range, `(price * 1.5).toFixed(2)`
  - the one-decimal margin that decides `viable`
  - the one-decimal rating
- **`Math.round` of the mean** rounds halves up. The mean is computed exactly
  on cents.

Four consequences of the code that the model keeps:

- **Median.** `sorted[Math.floor(total / 2)]` is the upper of the two middle
  prices when the count is even.
- **Minimum price count.** The threshold of three prices in parse1688Results
  counts all accepted prices, repeats included. So `¥5 ¥5 ¥5` yields one
  offer.
- **Viability.** `viable` compares the margin after rounding it to one
  decimal. So it holds exactly when the margin is at least 20.05%.
- **Offer prices can repeat.** parse1688Results removes repeated numbers before
  it writes them with `toFixed(2)`. Two distinct numbers can then print the
  same: `¥1.001 ¥1.002 ¥1.003` yields three offers, all priced 1.00.

## Model

| member | source | states |
|---|---|---|
| Text.Trim | worker/index.js:113 | `trim()` is no longer than its input and keeps every non-whitespace character of it. |
| Text.TrimEmptyIff | worker/index.js:113 | The trimmed string is empty exactly when the input is all whitespace. |
| Text.TrimEndsWithContent | worker/index.js:113 | A non-empty trimmed string starts and ends with non-whitespace. |
| Text.TrimAddsNothing | worker/index.js:113 | Every character of the trimmed string comes from the input. |
| Text.TrimIsInfix | worker/index.js:113 | The trimmed string is the infix of the input that is preceded and followed only by whitespace, and that is empty or starts and ends with non-whitespace. |
| Text.TrimmedSplitUnique | worker/index.js:113 | Only one infix splits the input that way, so the statement of TrimIsInfix determines `trim()`. |
| Text.ToLowerAscii | worker/index.js:58 | `toLowerCase()` on ASCII: same length. Each letter A-Z becomes its lower-case form and every other character is kept. |
| Text.LowerIsIdempotent | worker/index.js:58 | Lower-casing a lower-cased keyword changes nothing. |
| ArrayOps.Take | worker/index.js:201 | `slice(0, n)` is the first min(n, length) elements. |
| ArrayOps.SortAscending | worker/index.js:207 | `sort((a, b) => a - b)`: the result is ascending and a permutation of the input. |
| ArrayOps.SortKeepsSumAndCounts | worker/index.js:207 | Sorting keeps the sum, and the number of elements below or at most any bound. |
| ArrayOps.Dedup | worker/index.js:369 | `[...new Set(xs)]`: the result has no repeats, holds exactly the input's elements, and is no longer than the input. |
| ArrayOps.DedupKeepsFirstSeenOrder | worker/index.js:369 | The Set keeps insertion order: the elements come out in the order of their first occurrence. |
| Profit.CalculateProfitMargin | worker/index.js:498-517 | Cost in pesos is cost/0.4. Shipping is 30% of that. The fee is 15% of the selling price. Profit is what remains of the selling price: 0.85·s − 3.25·c. The margin is 100·profit/s. The one-decimal margin is the rounded tenths. `viable` holds exactly when the margin rounds above 20.0. |
| Profit.WorkedExample | worker/index.js:498-517 | A cost of ¥40 against 250 MXN gives 100 / 30 / 37.5 / 82.5, a 33.0% margin, viable. |
| Profit.ViableIffCostRatio | worker/index.js:507-515 | For a positive selling price, viable holds exactly when 325·cost ≤ 64.95·price. |
| Profit.CheaperIsNoWorse | worker/index.js:498-517 | A lower cost at the same selling price never turns a viable offer into a non-viable one. |
| Profit.LossIsNotViable | worker/index.js:506-515 | An offer whose profit is not positive is never viable. |
| Listings.ToFixed2Cents | worker/index.js:375 | `toFixed(2)` gives the cents nearest the price, within half a cent. |
| Decimal.ParseDecimal | worker/index.js:361 | `parseFloat` of digits with an optional point and digits lies between the integer part and that plus one. |
| Decimal.ParseWholeNumber | worker/index.js:361 | `parseFloat` of digits alone is the value of the digits. |
| Decimal.ParseDecimalOfParts | worker/index.js:361 | `parseFloat` of digits, a point and digits is the integer part plus the fraction digits over ten to their count. |
| Decimal.ParseDecimalScaled | worker/index.js:361 | Equivalently, it is the digits read without the point, over ten to the number of digits after the point. |
| Decimal.DigitsValueAppend | worker/index.js:361 | The value of two digit strings written one after the other is the first shifted by the length of the second, plus the second. |
| Decimal.CentsTextParses | worker/index.js:375 | The two-decimal text of a non-negative amount of cents is a decimal number, and `parseFloat` of it gives back the amount. |
| Decimal.SignedCentsTextParses | worker/index.js:375 | The same for any amount, negative ones written with a minus sign. |
| Listings.PriceValue | worker/index.js:132 | `parseFloat(s.price)` of the `toFixed(2)` text of an offer's price gives back exactly its cents over 100. |
| Listings.DefaultSources | worker/index.js:457-493 | Three offers, all 'default', with no profit record. Their prices are 8.50, 12.00 and 18.00, each within its range. Order minimums are at least 1, ratings are between 4.0 and 5.0, and every title starts with the keyword. |
| MarketStats.DollarTokens | worker/index.js:198-199 | Every match of the dollar pattern is a well-formed price token. There are no more matches than `$` signs. TokenPageTokens states which matches a page of tokens yields. |
| MarketStats.DropSeparatorsKeeps | worker/index.js:202 | `replace(/[$,]/g, '')` leaves a string with no `$` and no `,` as it is. |
| MarketStats.ParseFloatCents | worker/index.js:202 | `parseFloat` of the digits left over is NaN only when nothing is left. DollarTokenValue and ParseFloatCentsIsParseDecimal state the value. |
| MarketStats.ParseDollarCents | worker/index.js:202 | A token parses to a number exactly when it holds a digit. DollarTokenValue states the number. |
| MarketStats.DollarTokenValue | worker/index.js:201-202 | The value of a token with a digit: its run with the commas removed, in whole units, plus the two digits after the point when it has one. `$1,234.56` is 123456 cents and `$1,234` is 123400. |
| MarketStats.ParseFloatCentsIsParseDecimal | worker/index.js:202 | On text that starts with a digit, the cents parser gives 100 times the `parseFloat` value of that text. |
| MarketStats.NaNIsDropped | worker/index.js:203 | A token with no digit (`$,`) gives NaN and is never kept. |
| MarketStats.AcceptedPricesAppend | worker/index.js:201-204 | The accepted prices of two runs of tokens are those of each, in order. |
| MarketStats.RoundedMean | worker/index.js:215 | `Math.round(sum / n)` is the integer nearest the mean, halves rounding up. |
| MarketStats.RoundedMeanWithinHalf | worker/index.js:215 | The rounded mean lies within half a unit of the exact mean. |
| MarketStats.ParseSearchResults | worker/index.js:195-218 | The loop over at most 50 matches computes the specified statistics. The sample size is at most 50, the estimated total is 20 times the sample, and the result is not mock data. |
| MarketStats.StatsCounts | worker/index.js:208-216 | The sample size is the number of accepted prices, and the total is 20 times it. With no prices, every field is 0. |
| MarketStats.StatsOrder | worker/index.js:207-214 | Minimum, maximum and median are accepted prices. Every accepted price lies between minimum and maximum. The median is the sorted element at n/2, and min ≤ median ≤ max. |
| MarketStats.MedianRank | worker/index.js:214 | At most n/2 prices lie below the median and at least n/2+1 lie at or below it. So it is the upper middle when n is even. |
| MarketStats.StatsMean | worker/index.js:215 | The average lies within half a unit of the exact mean of the accepted prices. |
| MarketStats.MatchOfRun | worker/index.js:198 | At `$` followed by a run of digits and commas, the greedy match takes the whole run. It adds `.` and two digits exactly when they come next. |
| MarketStats.TokenIsOneMatch | worker/index.js:198 | Any well-formed token, with or without commas, is one whole match at the front. With cents this holds whatever follows. Without cents it holds when no digit, comma or point follows. |
| MarketStats.TokenPageTokens | worker/index.js:198-199 | The scanner finds exactly the tokens of a page of well-formed tokens separated by spaces, in order, each one whole. So `$1,234.56` on such a page is one token. |
| MarketStats.FormattedIsToken | worker/index.js:198 | A price written as `$` digits `.` two digits is one token of the pattern. |
| MarketStats.FormattedPriceParses | worker/index.js:202 | That token parses back to the same number of cents. |
| MarketStats.ReadsBackPricePage | worker/index.js:195-218 | Round trip: a page listing prices, separated by spaces, gives the statistics of exactly those prices among the first 50 that the range filter keeps. |
| Wholesale.YenMatchFacts | worker/index.js:360 | The prefix the scanner takes, `¥` then optional whitespace then digits then an optional point and digits, is a well-formed yen token. |
| Wholesale.YenTokens | worker/index.js:360 | Every match of the yen pattern is a well-formed yen token. |
| Wholesale.DropYenAndSpacesKeeps | worker/index.js:361 | `replace(/[¥\s]/g, '')` leaves digits and points as they are. |
| Wholesale.WholesalePrices | worker/index.js:361 | At most 20 prices are kept, each strictly between 0 and 10000. ReadsBackYenPage states which. |
| Wholesale.KeepYenPricesAppend | worker/index.js:361 | The accepted prices of two runs of matches are those of each, in order. |
| Wholesale.KeepYenOne | worker/index.js:361 | One match gives its parsed price when that lies strictly between 0 and 10000, and nothing otherwise. |
| Wholesale.FormattedYenIsOneMatch | worker/index.js:360 | A price written `¥` digits `.` two digits is one whole match of the pattern when no digit follows it. |
| Wholesale.YenPageTokens | worker/index.js:360 | On a page of written prices separated by spaces, the matches are exactly the written prices, in order. |
| Wholesale.FormattedYenParses | worker/index.js:361 | A written price parses back to its amount. |
| Wholesale.ReadsBackYenPage | worker/index.js:360-361 | Round trip: a page of written prices separated by spaces gives back those among its first 20 that lie strictly between 0 and 10000, in page order. |
| Wholesale.ShopMatchLength | worker/index.js:364 | A match at the front is the attribute, a non-empty value without a quote, and the closing quote. |
| Wholesale.ShopMatches | worker/index.js:364 | Every match of the shop pattern has that shape. |
| Wholesale.ShopValue | worker/index.js:364 | The captured value of a match is non-empty, has no quote, and the match is the attribute, the value and a quote. |
| Wholesale.StripMatch | worker/index.js:365 | Stripping a match gives its captured value, less a trailing `data-shop-name=` when the value has one. |
| Wholesale.StripShopAttr | worker/index.js:365 | Removing the attribute prefix and the quotes leaves no quote in the supplier name. |
| Wholesale.StripKeepsValue | worker/index.js:364-365 | A shop match gives back its quoted value. A value ending with `data-shop-name=` loses that ending too, and nothing else. |
| Wholesale.ShopNames | worker/index.js:364-365 | At most 10 names, none with a quote. ShopNameIsCapturedValue states which. |
| Wholesale.ShopNameIsCapturedValue | worker/index.js:364-365 | There is one name per match among the first 10. Name k is the captured value of match k, less a trailing `data-shop-name=` when the value has one. |
| Wholesale.ShopMatchOfValue | worker/index.js:364 | An attribute with a non-empty value without a quote is one whole match, whatever follows it. |
| Wholesale.ShopPageMatches | worker/index.js:364 | On a page of such attributes separated by spaces, the matches are exactly the attributes, in order. |
| Wholesale.StripMatchFor | worker/index.js:365 | Stripping the match of such a value gives back the value, when it does not end with `data-shop-name=`. |
| Wholesale.ReadsBackShopPage | worker/index.js:364-365 | Round trip: a page of such attributes gives back its first 10 values, in order. |
| Wholesale.SupplierAt | worker/index.js:370-378 | The supplier name is never empty. |
| Wholesale.RatingTenths | worker/index.js:379 | `(4 + r·0.9).toFixed(1)` lies between 4.0 and 4.9 for r in [0, 1). |
| Wholesale.ListedPrices | worker/index.js:369 | At most five prices. |
| Wholesale.ParseWholesaleResults | worker/index.js:356-387 | The function builds the specified offers: none when fewer than three prices were accepted, otherwise one per listed price. |
| Wholesale.PushListings | worker/index.js:372-383 | The `forEach` pushes one offer per distinct price, in order, the i-th built from the i-th price, table entries and draw. |
| Wholesale.EmptyIffFewPrices | worker/index.js:368-386 | No offer is returned exactly when fewer than three prices were accepted. |
| Wholesale.ListingCount | worker/index.js:368-372 | With three or more prices, the number of offers is min(5, the number of distinct prices). |
| Wholesale.ListedPricesDistinctInOrder | worker/index.js:369 | The distinct numbers the offers are built from are accepted prices, in range, distinct, and in order of first appearance on the page. |
| Wholesale.DistinctPricesCanSharePrice | worker/index.js:369-375 | Two distinct such numbers can still give offers with the same price: `toFixed(2)` writes 1.001 and 1.002 both as 1.00. |
| Wholesale.ListingRules | worker/index.js:372-383 | Offer i has the i-th title suffix (else '优质') and the i-th order minimum (else 1). Its supplier follows the fallback rule. Its range runs from its price to `toFixed(2)` of 1.5 times the price. Its rating is in 4.0..4.9, its origin is 'scraped', and it has no profit record. |
| Handlers.SiteLookupAsWritten | worker/index.js:156-164 | The lookup as written: table codes give their domain. Inherited member names give the inherited value. Anything else gives the Mexican domain. |
| Handlers.LookupAgreesOffPrototype | worker/index.js:164 | For every region code that is not an inherited member name, the lookup as written is the intended one. |
| Handlers.InheritedSiteIsNotADomain | worker/index.js:164 | The region code "constructor" yields an inherited member instead of a domain. |
| Handlers.SiteDomain | worker/index.js:156-164 | Every region code gets one of the five domains: its own when it is in the table, mercadolibre.com.mx otherwise. |
| Handlers.NeedsTranslationIff | worker/index.js:113 | A keyword is translated exactly when it holds an ASCII letter and nothing but ASCII letters and whitespace. |
| Handlers.TranslatedKeywordShape | worker/index.js:113 | A translated keyword holds a letter and only letters and whitespace. |
| Handlers.ShapedKeywordIsTranslated | worker/index.js:113 | Such a keyword is translated. |
| Handlers.ChineseKeywordIsKept | worker/index.js:113-118 | '手机壳' is searched as it is. |
| Handlers.KeywordWithDigitIsKept | worker/index.js:113-118 | 'iphone 15' is searched as it is. |
| Handlers.EnglishKeywordIsTranslated | worker/index.js:113-118 | 'phone case' is translated. |
| Handlers.TranslatedKeyword | worker/index.js:320-326 | The trimmed reply when it is not blank. Otherwise, or when the call failed, the keyword itself. The result is never empty for a non-empty keyword. |
| Handlers.CacheNamespacesDisjoint | worker/index.js:58-103 | An analyze key never equals a source key. |
| Handlers.SourceCacheKeyIff | worker/index.js:103 | Two keywords share a source cache entry exactly when they agree up to ASCII case. |
| Handlers.AnalyzeCacheKeyIff | worker/index.js:58 | For region codes without ':', two requests share an entry exactly when they have the same code and keywords equal up to ASCII case. |
| Handlers.AttachProfit | worker/index.js:129-134 | With a non-zero reference price, every offer gets the profit record of its own price and nothing else changes. Without one, the offers are returned unchanged. |
| Handlers.AttachProfitOnlyAddsProfit | worker/index.js:129-134 | Removing the profit records again gives back the offers, in their order. |
| Handlers.ProfitFromOwnPrice | worker/index.js:132 | Each offer's cost in pesos is its own price divided by 0.4. |
| Handlers.TagGenerated | worker/index.js:439-443 | The model's offers are kept in order, each tagged 'ai_generated'. |
| Handlers.FallbackSources | worker/index.js:121-126 | The scraped offers when there are any. Else the model's offers when its reply parsed. Else the three defaults. |
| Handlers.ChosenSources | worker/index.js:121-126 | A failed page and a failed model give the defaults. Non-empty scraped offers are used as they are. |
| Handlers.GatherSources | worker/index.js:120-134 | Scraping, the fallbacks and the profit step give the fallback chain's offers with profits attached. |
| Handlers.AllFailedGivesDefaults | worker/index.js:121-134 | When everything external fails, the answer is exactly three 'default' offers, with profit records at most. |
| Handlers.HandleSource | worker/index.js:95-149 | The request is a 400 exactly when the keyword is missing or empty. Otherwise it is cached under `1688:` plus the lower-cased keyword. The Chinese keyword is the translation when the test asks for one, and never empty. The offers are the fallback chain's, with profits attached. |
| Handlers.HandleAnalyze | worker/index.js:50-88 | The request is a 400 exactly when the keyword is missing or empty. The region defaults to MLM, and the key is `meli:` plus region plus the lower-cased keyword. The page is fetched for what the lookup as written yields. The market is the page's statistics, not marked as mock, or, when the fetch failed, the mock data, marked as mock with a sample size of 50. The assessment is the model's, or the default. |

## Left out

- **Cache.** The D1 store, its expiry times and the JSON round trip of a cached
  result are left out. The model computes the answer the handler would store,
  and the key it is stored under.
- **HTTP glue.** Routing, CORS headers, `jsonResponse` and the 500 handler are
  request plumbing with nothing to state.
- **The language model's prompts and reply parsing.** The `[\s\S]*` JSON
  extraction and `JSON.parse` are left out. Each handler takes the parsed reply
  as an `Option`, where `None` means the call or the parse failed.
- **Offers the language model proposes** are taken as given. Their prices are
  assumed numeric, and whole numbers of cents (`priceCents` is an integer). A
  non-numeric price would give NaN in the profit calculation, and the model
  does not represent NaN there. A price with more than two decimals is not
  represented.
- **URLs and page fetches.** `encodeURIComponent` and the `url` field of every
  offer are left out, as are the ScraperAPI request URLs. A fetch is a
  parameter: the page, or `None` when it failed. handleAnalyze's fetch is a
  function of what the region lookup yields, so a code such as "constructor"
  reaches it with the inherited value.
- **getMockMeliData.** Its prices and total come from `Math.random`.
  handleAnalyze takes the drawn data as a parameter, constrained to the ranges
  of the code, to the mock mark and to a sample size of 50.
- **`Math.random`.** The ratings of scraped offers take their draws as a
  parameter: five values in [0, 1).
- **`timestamp`.** `new Date().toISOString()` is the clock, so the results
  leave the field out.
- **Floating point.** Prices and profits are exact rationals, so IEEE rounding
  of the intermediate products is not modelled. `toFixed` is modelled as
  rounding half away from zero on the exact value. The ties where a binary
  double would round the other way are not modelled.
- **Number formatting.** The two-decimal text of the profit record's money
  fields, and the `%` suffix of the margin, are left out. The record keeps the
  exact amounts, the margin's tenths, and `viable`.
- **Price ranges as text.** The `price_range` string is modelled by its two
  amounts in cents.
- **Ratings as text.** The `rating` string is modelled in tenths.
- **Missing `features` of scraped offers.** The objects parse1688Results
  builds (worker/index.js:373-382) have no `features` key, while the default
  offers do. `Listing` holds one list of features for both, and a scraped
  offer carries the empty list. An absent key and an empty list are not told
  apart.
- Text.ToLowerAscii: lower-cases ASCII letters only. `toLowerCase` also folds
  non-ASCII letters, so the cache-key lemmas are stated for ASCII case.
- MarketStats.DollarTokens: every match is proved well formed, and there are no
  more matches than `$` signs. That every price on a page is matched whole, in
  order, is proved for pages of well-formed tokens separated by spaces
  (TokenPageTokens), not for every page.
- Wholesale.ShopMatches: every match is proved well formed. That every
  attribute on a page is matched, in order, is proved for pages of attributes
  separated by spaces (ShopPageMatches), not for every page.
- **Missing `is_mock` of scraped statistics.** parseSearchResults
  (worker/index.js:207-217) returns no `is_mock` key, while the mock data has
  `is_mock: true`. The model's statistics hold `isMock: false` for scraped
  pages, so an absent key and `false` are not told apart.
- Wholesale.YenTokens: every match is proved well formed. That every yen price
  on a page is matched, in order, is proved for pages of written prices
  separated by spaces (YenPageTokens), not for every page.
- ArrayOps.SortAscending: `Array.prototype.sort` works in place on the
  `prices` array. The model gives the sorted sequence as a value, so the
  aliasing of `sorted` and `prices` is not modelled.

## Findings

| source | as written | input that shows it | evidently intended | confidence | as-written member | corrected member |
|---|---|---|---|---|---|---|
| worker/index.js:164 | `siteMap[site] \|\| siteMap['MLM']` reads a plain object literal, so a region code that names an inherited member yields that member. It is truthy, so it is used as the domain. | `site = "constructor"` yields the `Object` function instead of falling back to mercadolibre.com.mx. | Any code outside the five-entry table falls back to mercadolibre.com.mx. | high for the lookup, not executed | Handlers.InheritedSiteIsNotADomain | Handlers.SiteDomain |
