/**
 * `calculateProfitMargin` of worker/index.js: converts a wholesale unit cost in
 * yuan (CNY) into Mexican pesos (MXN) at a fixed rate, adds a shipping
 * estimate and the marketplace fee, and judges the margin against 20%.
 * Arithmetic is over exact reals.
 */
module Profit {

  /** One peso is taken to be worth 0.4 yuan: pesos = yuan / 0.4. */
  const YuanPerPeso: real := 0.4
  /** Shipping is estimated at 30% of the peso cost. */
  const ShippingRate: real := 0.3
  /** The marketplace keeps 15% of the selling price. */
  const PlatformFeeRate: real := 0.15
  /** A margin is viable when its one-decimal rendering exceeds 20 (percent). */
  const ViableMarginPercent: int := 20

  /**
   * The integer `n` that `Number.prototype.toFixed` prints for a value whose
   * scaled form is `x` (`x` = value * 10^digits): the nearest integer, and of
   * two equally near ones the one farther from zero (the sign is split off first).
   */
  function RoundHalfAway(x: real): (n: int)
    ensures x >= 0.0 ==> n >= 0 && n as real - 0.5 <= x < n as real + 0.5
    ensures x < 0.0 ==> n <= 0 && n as real - 0.5 < x <= n as real + 0.5
  {
    if x >= 0.0 then (x + 0.5).Floor else -((-x + 0.5).Floor)
  }

  /** The record `calculateProfitMargin` returns, with the amounts as exact numbers. */
  datatype ProfitMargin = ProfitMargin(
    costMxn: real,
    shippingEst: real,
    platformFee: real,
    profit: real,
    /** profit / selling price * 100, before formatting */
    marginPercent: real,
    /** `margin_percent` as `toFixed(1)` prints it, in tenths of a percent */
    marginTenths: int,
    viable: bool)

  /**
   * calculateProfitMargin(costCNY, sellingPriceMXN). A zero selling price is
   * excluded: the only caller passes a truthy reference price.
   */
  function CalculateProfitMargin(costCny: real, sellingMxn: real): (m: ProfitMargin)
    requires sellingMxn != 0.0
    ensures m.costMxn * YuanPerPeso == costCny
    ensures m.shippingEst * 4.0 == costCny * 3.0
    ensures m.profit + m.costMxn + m.shippingEst + m.platformFee == sellingMxn
    ensures m.profit == 0.85 * sellingMxn - 3.25 * costCny
    ensures m.marginPercent * sellingMxn == 100.0 * m.profit
    ensures m.marginTenths == RoundHalfAway(10.0 * m.marginPercent)
    ensures m.viable <==> 10.0 * m.marginPercent >= 10.0 * ViableMarginPercent as real + 0.5
  {
    var costMxn := costCny / YuanPerPeso;
    var shipping := costMxn * ShippingRate;
    var fee := sellingMxn * PlatformFeeRate;
    var profit := sellingMxn - costMxn - shipping - fee;
    var margin := profit / sellingMxn * 100.0;
    var tenths := RoundHalfAway(margin * 10.0);
    ProfitMargin(costMxn, shipping, fee, profit, margin, tenths, tenths > ViableMarginPercent * 10)
  }

  /** The worked example: cost 40 CNY, selling price 250 MXN. */
  lemma WorkedExample()
    ensures var m := CalculateProfitMargin(40.0, 250.0);
      && m.costMxn == 100.0 && m.shippingEst == 30.0 && m.platformFee == 37.5
      && m.profit == 82.5 && m.marginPercent == 33.0 && m.marginTenths == 330 && m.viable
  {
    var m := CalculateProfitMargin(40.0, 250.0);
    assert m.marginPercent * 250.0 == 8250.0;
  }

  /**
   * For a positive selling price the verdict depends only on the cost-to-price
   * ratio: viable exactly when 325 * cost <= 64.95 * price, that is when the
   * margin 85 - 325 * cost / price reaches 20.05.
   */
  lemma {:induction false} ViableIffCostRatio(costCny: real, sellingMxn: real)
    requires sellingMxn > 0.0
    ensures CalculateProfitMargin(costCny, sellingMxn).viable <==> 325.0 * costCny <= 64.95 * sellingMxn
  {
    var m := CalculateProfitMargin(costCny, sellingMxn);
    var x, s := m.marginPercent, sellingMxn;
    var d := 10.0 * x - 200.5;
    SignKeptByPositiveFactor(d, s);
    assert x * s == 85.0 * s - 325.0 * costCny;
    assert d * s == 10.0 * (x * s) - 200.5 * s;
  }

  /** Multiplying by a positive number keeps the sign. */
  lemma SignKeptByPositiveFactor(d: real, s: real)
    requires s > 0.0
    ensures d >= 0.0 <==> d * s >= 0.0
  {
    if d < 0.0 {
      assert (-d) * s > 0.0;
    }
  }

  /** A cheaper source never does worse: profit falls as the cost rises, and viability is kept. */
  lemma {:induction false} CheaperIsNoWorse(cheap: real, dear: real, sellingMxn: real)
    requires sellingMxn > 0.0 && cheap <= dear
    ensures CalculateProfitMargin(cheap, sellingMxn).profit >= CalculateProfitMargin(dear, sellingMxn).profit
    ensures CalculateProfitMargin(dear, sellingMxn).viable ==> CalculateProfitMargin(cheap, sellingMxn).viable
  {
    ViableIffCostRatio(cheap, sellingMxn);
    ViableIffCostRatio(dear, sellingMxn);
  }

  /** A sale that does not make money is never viable. */
  lemma {:induction false} LossIsNotViable(costCny: real, sellingMxn: real)
    requires sellingMxn > 0.0
    requires CalculateProfitMargin(costCny, sellingMxn).profit <= 0.0
    ensures !CalculateProfitMargin(costCny, sellingMxn).viable
  {
    ViableIffCostRatio(costCny, sellingMxn);
  }
}
