/**
 * The simulated price paths of the outlook: the row-wise cumulative sum of
 * the noise matrix, the price path it gives from the last close, the final
 * price of each path and its simple return over the horizon.
 */
module Paths {
  import opened Floats

  /** The total of a row of log-returns. */
  function Sum(s: seq<real>): real {
    if s == [] then 0.0 else s[0] + Sum(s[1..])
  }

  /** numpy `cumsum` along one row: entry `t` accumulates entries `0..t`. */
  function CumSum(s: seq<real>): (r: seq<real>)
    ensures |r| == |s|
  {
    if s == [] then []
    else
      var rest := CumSum(s[1..]);
      [s[0]] + seq(|rest|, i requires 0 <= i < |rest| => s[0] + rest[i])
  }

  /** Entry `k` of the cumulative sum is the total of the first `k + 1` entries. */
  lemma {:induction false} CumSumAt(s: seq<real>, k: nat)
    requires k < |s|
    ensures CumSum(s)[k] == Sum(s[..k + 1])
  {
    assert s[..k + 1][0] == s[0];
    assert s[..k + 1][1..] == s[1..][..k];
    if k == 0 {
      assert s[1..][..0] == [];
    } else {
      CumSumAt(s[1..], k - 1);
    }
  }

  /** The last entry of a row's cumulative sum is the row total. */
  lemma {:induction false} CumSumLast(s: seq<real>)
    requires |s| > 0
    ensures CumSum(s)[|s| - 1] == Sum(s)
  {
    CumSumAt(s, |s| - 1);
    assert s[..|s|] == s;
  }

  lemma CumSumPrefixSums(s: seq<real>)
    ensures forall k :: 0 <= k < |s| ==> CumSum(s)[k] == Sum(s[..k + 1])
  {
    forall k | 0 <= k < |s| ensures CumSum(s)[k] == Sum(s[..k + 1]) {
      CumSumAt(s, k);
    }
  }

  /** One simulated path, `last_price * exp(cumsum(row))`: the price after
      day `t` is the last close grown by the log-returns of days `0..t`. */
  function PricePath(lastPrice: real, row: seq<real>, exp: real -> real): (path: seq<real>)
    ensures |path| == |row|
    ensures forall t :: 0 <= t < |row| ==> path[t] == lastPrice * exp(Sum(row[..t + 1]))
  {
    var c := CumSum(row);
    CumSumPrefixSums(row);
    seq(|c|, t requires 0 <= t < |c| => lastPrice * exp(c[t]))
  }

  /** `price_paths[:, -1]` for one row: the price at the end of the horizon. */
  function FinalPrice(lastPrice: real, row: seq<real>, exp: real -> real): (price: real)
    requires |row| > 0
    ensures price == lastPrice * exp(Sum(row))
  {
    CumSumLast(row);
    PricePath(lastPrice, row, exp)[|row| - 1]
  }

  /** `(final_price - last_price) / last_price`. A zero last price makes every
      simulated price zero, and 0/0 is NaN. */
  function FinalReturn(lastPrice: real, price: real): (r: Float)
    ensures lastPrice > 0.0 ==> (IsPositive(r) <==> price > lastPrice)
  {
    if lastPrice == 0.0 then NaN
    else
      var q := (price - lastPrice) / lastPrice;
      assert q * lastPrice == price - lastPrice;
      Num(q)
  }

  /** Every row of the noise matrix holds at least one day. */
  predicate NonEmptyRows(noise: seq<seq<real>>) {
    forall i :: 0 <= i < |noise| ==> |noise[i]| > 0
  }

  /** `final_returns`: the simple return of every simulated path, one per row. */
  function FinalReturns(lastPrice: real, noise: seq<seq<real>>, exp: real -> real): (r: seq<Float>)
    requires NonEmptyRows(noise)
    ensures |r| == |noise|
  {
    seq(|noise|, i requires 0 <= i < |noise| => FinalReturn(lastPrice, FinalPrice(lastPrice, noise[i], exp)))
  }

  /** The number of rows whose log-returns add up to a strict gain. */
  function CountRising(noise: seq<seq<real>>): (n: nat)
    ensures n <= |noise|
  {
    if noise == [] then 0
    else (if Sum(noise[0]) > 0.0 then 1 else 0) + CountRising(noise[1..])
  }

  /** From a positive last close, a path ends higher exactly when its row of
      log-returns has a positive total. */
  lemma RisingIffPositiveTotal(lastPrice: real, row: seq<real>, exp: real -> real)
    requires lastPrice > 0.0 && |row| > 0 && (exp(Sum(row)) > 1.0 <==> Sum(row) > 0.0)
    ensures IsPositive(FinalReturn(lastPrice, FinalPrice(lastPrice, row, exp))) <==> Sum(row) > 0.0
  {
    ReturnAboveIffGrowth(lastPrice, FinalPrice(lastPrice, row, exp), exp(Sum(row)));
  }

  /** A price reached by growth factor `g` from a positive last close gives a
      positive return exactly when `g` exceeds 1. */
  lemma ReturnAboveIffGrowth(lastPrice: real, price: real, g: real)
    requires lastPrice > 0.0 && price == lastPrice * g
    ensures IsPositive(FinalReturn(lastPrice, price)) <==> g > 1.0
  {
    ScaledAbove(lastPrice, g);
  }

  lemma ScaledAbove(x: real, factor: real)
    requires x > 0.0
    ensures x * factor > x <==> factor > 1.0
  {
  }

  /** The paths that end higher are exactly the rows with a positive total. */
  lemma {:induction false} PositiveReturnsCountRisingRows(lastPrice: real, noise: seq<seq<real>>, exp: real -> real)
    requires lastPrice > 0.0 && NonEmptyRows(noise) && (forall x :: exp(x) > 1.0 <==> x > 0.0)
    ensures CountPositive(FinalReturns(lastPrice, noise, exp)) == CountRising(noise)
  {
    if noise != [] {
      var rs := FinalReturns(lastPrice, noise, exp);
      assert rs[1..] == FinalReturns(lastPrice, noise[1..], exp);
      RisingIffPositiveTotal(lastPrice, noise[0], exp);
      PositiveReturnsCountRisingRows(lastPrice, noise[1..], exp);
    }
  }
}
