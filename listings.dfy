/**
 * The wholesale source listings the `/pick/source` handler returns, and the
 * fixed fallback set of `getDefaultSources` (worker/index.js).
 */
module Listings {
  import opened Wrappers
  import opened Text
  import opened Profit
  import opened Decimal

  /** Where a listing came from: the `source` tag ('scraped', 'ai_generated', 'default'). */
  datatype Origin = Scraped | AiGenerated | Default

  /**
   * One listing. Amounts the worker stores as `toFixed` strings are held as the
   * integer they print: `price` and `price_range` in cents, `rating` in tenths.
   * The `url` field is not part of this model.
   */
  datatype Listing = Listing(
    title: string,
    priceCents: int,
    rangeLowCents: int,
    rangeHighCents: int,
    minOrder: nat,
    supplier: string,
    ratingTenths: int,
    features: seq<string>,
    origin: Origin,
    profitMargin: Option<ProfitMargin>)

  /** `x.toFixed(2)`, as a whole number of cents. */
  function ToFixed2Cents(x: real): (c: int)
    ensures x >= 0.0 ==> c >= 0 && (c as real - 0.5) / 100.0 <= x < (c as real + 0.5) / 100.0
  {
    RoundHalfAway(100.0 * x)
  }

  /** `parseFloat(s.price)`: the price string is the `toFixed(2)` text of the cents, read back. */
  function PriceValue(l: Listing): (v: real)
    ensures v == l.priceCents as real / 100.0
  {
    SignedCentsTextParses(l.priceCents);
    ParseSignedDecimal(SignedCentsText(l.priceCents))
  }

  function DefaultListing(title: string, priceCents: int, low: int, high: int, minOrder: nat,
                          supplier: string, ratingTenths: int, features: seq<string>): Listing
  {
    Listing(title, priceCents, low, high, minOrder, supplier, ratingTenths, features, Default, None)
  }

  /** getDefaultSources(keyword): the three hard-coded listings used when nothing else is available. */
  function DefaultSources(keyword: string): (r: seq<Listing>)
    ensures |r| == 3
    ensures forall i :: 0 <= i < 3 ==> r[i].origin == Default && r[i].profitMargin == None
    ensures r[0].priceCents == 850 && r[1].priceCents == 1200 && r[2].priceCents == 1800
    ensures forall i :: 0 <= i < 3 ==>
      && r[i].rangeLowCents <= r[i].priceCents <= r[i].rangeHighCents
      && r[i].minOrder >= 1
      && 40 <= r[i].ratingTenths <= 50
      && |r[i].title| > |keyword| && r[i].title[..|keyword|] == keyword
  {
    [ DefaultListing(keyword + " 热销款 厂家直销", 850, 500, 1500, 2, "义乌小商品批发", 48, ["一件代发", "7天无理由"]),
      DefaultListing(keyword + " 新款 跨境专供", 1200, 800, 2000, 5, "广州源头工厂", 47, ["跨境专供", "可定制"]),
      DefaultListing(keyword + " 高品质 外贸出口", 1800, 1500, 3000, 10, "深圳品质工厂", 49, ["出口品质", "支持验厂"]) ]
  }
}
