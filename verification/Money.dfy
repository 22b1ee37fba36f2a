/** The one rounding rule of the ledger, and how far rounding can drift. */
module Money {

  // The product and the quotient are recursive so that proofs about ledger rows meet neither;
  // RoundPercentIsNearest says what they come to.

  function Times(amount: nat, percent: nat): nat {
    if percent == 0 then 0 else Times(amount, percent - 1) + amount
  }

  /** Math.round(n / 100) for n >= 0: halves go up. */
  function RoundHundredths(n: int): nat
    decreases n
  {
    if n < 50 then 0 else RoundHundredths(n - 100) + 1
  }

  /** JavaScript's Math.round(amount * percent / 100) on non-negative integers. */
  function RoundPercent(amount: nat, percent: nat): nat {
    RoundHundredths(Times(amount, percent))
  }

  datatype Split = Split(commission: nat, net: int)

  function ComputeCommission(amount: nat, percent: nat): Split {
    var commission := RoundPercent(amount, percent);
    Split(commission, amount - commission)
  }

  lemma {:induction false} TimesIsProduct(amount: nat, percent: nat)
    ensures Times(amount, percent) == amount * percent
  {
    if percent > 0 { TimesIsProduct(amount, percent - 1); }
  }

  lemma {:induction false} RoundHundredthsIsNearest(n: int)
    requires n >= -50
    ensures -50 < 100 * RoundHundredths(n) - n <= 50
    decreases n
  {
    if n >= 50 { RoundHundredthsIsNearest(n - 100); }
  }

  /** The rounded share is the nearest integer, ties upwards: the only integer in that half-open unit. */
  lemma RoundPercentIsNearest(amount: nat, percent: nat, r: int)
    ensures -50 < 100 * RoundPercent(amount, percent) - amount * percent <= 50
    ensures -50 < 100 * r - amount * percent <= 50 ==> r == RoundPercent(amount, percent)
  {
    TimesIsProduct(amount, percent);
    RoundHundredthsIsNearest(Times(amount, percent));
  }

  lemma ShareWithinWhole(amount: nat, percent: nat)
    requires percent <= 100
    ensures RoundPercent(amount, percent) <= amount
  {
    RoundPercentIsNearest(amount, percent, 0);
    ProductMonotone(amount, percent, 100);
  }

  lemma ProductMonotone(a: nat, b: nat, c: nat)
    requires b <= c
    ensures a * b <= a * c && b * a <= c * a
  {
    assert a * c == a * b + a * (c - b);
    assert 0 <= a * (c - b);
  }

  /** Bounds of the two roundings behind a cancellation charge: the fee, then its commission. */
  lemma CancellationBounds(price: nat, percent: nat)
    requires percent <= 100
    ensures var fee := RoundPercent(price, percent);
            var commission := RoundPercent(fee, percent);
            && commission <= fee <= price
            && -50 <= 100 * fee - percent * price <= 50
            && -(5000 + 50 * percent) <= 10000 * commission - percent * percent * price <= 5000 + 50 * percent
  {
    var fee := RoundPercent(price, percent);
    ShareWithinWhole(price, percent);
    ShareWithinWhole(fee, percent);
    RoundPercentIsNearest(price, percent, 0);
    RoundPercentIsNearest(fee, percent, 0);
    TwoRoundings(price, percent, fee, RoundPercent(fee, percent));
  }

  lemma TwoRoundings(price: nat, percent: nat, fee: nat, commission: nat)
    requires -50 <= 100 * fee - price * percent <= 50 && -50 <= 100 * commission - fee * percent <= 50
    ensures -(5000 + 50 * percent) <= 10000 * commission - percent * percent * price <= 5000 + 50 * percent
  {
    ScaledDrift(percent, 100 * fee, price * percent);
    assert percent * (price * percent) == percent * percent * price;
    assert percent * (100 * fee) == 100 * (fee * percent);
  }

  lemma ScaledDrift(factor: nat, a: int, b: int)
    requires -50 <= a - b <= 50
    ensures -50 * factor <= factor * a - factor * b <= 50 * factor
  {
    assert factor * a - factor * b == factor * (a - b);
  }

  function Sum(s: seq<nat>): nat {
    if s == [] then 0 else Sum(s[..|s| - 1]) + s[|s| - 1]
  }

  function Fees(prices: seq<nat>, percent: nat): (fees: seq<nat>) {
    seq(|prices|, i requires 0 <= i < |prices| => RoundPercent(prices[i], percent))
  }

  lemma FeesSnoc(init: seq<nat>, last: nat, percent: nat)
    ensures Sum(Fees(init + [last], percent)) == Sum(Fees(init, percent)) + RoundPercent(last, percent)
    ensures percent * Sum(init + [last]) == percent * Sum(init) + last * percent
  {
    var prices := init + [last];
    assert Fees(prices, percent)[..|init|] == Fees(init, percent);
    assert prices[..|init|] == init;
  }

  /** Rounding job by job drifts from the exact share by at most half a unit a job. */
  lemma {:induction false} SummedFeesDrift(prices: seq<nat>, percent: nat)
    ensures var drift := 100 * Sum(Fees(prices, percent)) - percent * Sum(prices);
            -50 * |prices| <= drift <= 50 * |prices|
  {
    if prices != [] {
      var init, last := prices[..|prices| - 1], prices[|prices| - 1];
      assert prices == init + [last];
      SummedFeesDrift(init, percent);
      FeesSnoc(init, last, percent);
      RoundPercentIsNearest(last, percent, 0);
    }
  }
}
