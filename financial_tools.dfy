/**
 * The Monte-Carlo short-term outlook of `get_outlook`: an ordered chain of
 * validation checks over a downloaded close-price history, estimation of the
 * drift and volatility of its log returns, simulated final returns built from
 * a noise matrix, their aggregates, the Sharpe ratio and a four-band label.
 *
 * The numerics the source delegates to numpy and pandas (log of a price
 * ratio, exp, sqrt, mean and standard deviation) are parameters, bundled in
 * `Numerics`; the random noise matrix is a parameter too.
 */
module FinancialTools {
  import opened Wrappers
  import opened Floats
  import opened Paths

  /** The fewest non-missing closes a simulation is run on. */
  const MinHistory: nat := 60

  /** Trading days per year, used to annualise the daily Sharpe ratio. */
  const TradingDaysPerYear: real := 252.0

  /** The numeric primitives the outlook uses, left abstract.
      `logRatio(cur, prev)` is `np.log(cur / prev)` on doubles (NaN where that
      is undefined); `seriesMean`/`seriesStd` are the pandas reductions applied
      to the log returns; `arrayMean`/`arrayStd` are the numpy reductions
      applied to the final returns (the two libraries use different default
      degrees of freedom for the standard deviation). */
  datatype Numerics = Numerics(
    logRatio: (real, real) -> Float,
    exp: real -> real,
    sqrt: real -> real,
    seriesMean: seq<real> -> Float,
    seriesStd: seq<real> -> Float,
    arrayMean: seq<Float> -> Float,
    arrayStd: seq<Float> -> Float)

  /** Why no outlook was produced; each stands for one raised exception. */
  datatype OutlookError =
    | NoPriceData        // the download is None or has no rows
    | EmptyCloseSeries   // no close survives dropping missing values
    | NotEnoughHistory   // fewer than MinHistory closes survive
    | EmptyLogReturns    // no log return survives dropping NaN
    | InvalidStatistics  // mu or sigma is NaN
    | ZeroVolatility     // sigma is exactly zero
    | SamplerRejected    // np.random.normal refuses a negative scale or a negative size
    | EmptyHorizon       // `price_paths[:, -1]` on a zero-day horizon raises IndexError

  /** The place of each check in the chain; earlier checks are reported first. */
  function Position(e: OutlookError): nat {
    match e
    case NoPriceData => 0
    case EmptyCloseSeries => 1
    case NotEnoughHistory => 2
    case EmptyLogReturns => 3
    case InvalidStatistics => 4
    case ZeroVolatility => 5
    case SamplerRejected => 6
    case EmptyHorizon => 7
  }

  /** The qualitative classification of the probability of ending higher. */
  datatype Label = Bearish | NeutralUncertain | ModeratelyBullish | Bullish {
    /** The order of the bands, from the most bearish up. */
    function Rank(): nat {
      match this
      case Bearish => 0
      case NeutralUncertain => 1
      case ModeratelyBullish => 2
      case Bullish => 3
    }

    /** The label as the outlook writes it. */
    function Text(): string {
      match this
      case Bearish => "Bearish"
      case NeutralUncertain => "Neutral / Uncertain"
      case ModeratelyBullish => "Moderately Bullish"
      case Bullish => "Bullish"
    }
  }

  /** A successful outlook. `mu` and `sigma` are the estimates it was
      simulated from; being reals, neither is NaN. */
  datatype Outlook = Outlook(
    outlookLabel: Label,
    probUp: Float,
    expectedReturn: Float,
    volatility: Float,
    sharpe: real,
    days: int,
    mu: real,
    sigma: real)

  /** A `rows × cols` matrix. */
  predicate IsMatrix(m: seq<seq<real>>, rows: int, cols: int) {
    |m| == rows && forall i :: 0 <= i < |m| ==> |m[i]| == cols
  }

  /** `data["Close"].dropna()`: the closes that are not missing, in order.
      An absent download has none. */
  function Closes(download: Option<seq<Float>>): (r: seq<real>)
    ensures download.None? ==> |r| == 0
    ensures download.Some? ==> |r| == |download.value| - CountNaN(download.value)
  {
    if download.Some? then
      DropNaNShortensByNaNs(download.value);
      DropNaN(download.value)
    else []
  }

  /** `np.log(close_prices / close_prices.shift(1))`: entry 0 has no
      predecessor and is NaN. */
  function ShiftedLogRatios(closes: seq<real>, logRatio: (real, real) -> Float): (r: seq<Float>)
    ensures |r| == |closes|
  {
    seq(|closes|, t requires 0 <= t < |closes| => if t == 0 then NaN else logRatio(closes[t], closes[t - 1]))
  }

  /** Whether close `t` and its predecessor have a log ratio that is a number. */
  predicate HasLogReturn(closes: seq<real>, logRatio: (real, real) -> Float, t: int) {
    0 < t < |closes| && logRatio(closes[t], closes[t - 1]).Num?
  }

  /** `.dropna()` of the shifted log ratios: the log returns. */
  function LogReturns(closes: seq<real>, logRatio: (real, real) -> Float): (r: seq<real>)
    ensures |r| <= |closes|
  {
    DropNaN(ShiftedLogRatios(closes, logRatio))
  }

  /** There is at most one log return per consecutive pair of closes, and
      exactly one when every pair has a log ratio that is a number. */
  lemma LogReturnsLength(closes: seq<real>, logRatio: (real, real) -> Float)
    ensures |closes| > 0 ==> |LogReturns(closes, logRatio)| < |closes|
    ensures (forall t :: 0 < t < |closes| ==> HasLogReturn(closes, logRatio, t)) ==>
              |LogReturns(closes, logRatio)| == if |closes| == 0 then 0 else |closes| - 1
  {
    var ratios := ShiftedLogRatios(closes, logRatio);
    if |ratios| > 0 {
      DropNaNAppend([NaN], ratios[1..]);
      assert ratios == [NaN] + ratios[1..];
      if forall t :: 0 < t < |closes| ==> HasLogReturn(closes, logRatio, t) {
        forall i | 0 <= i < |ratios| - 1
          ensures ratios[1..][i].Num?
        {
          assert HasLogReturn(closes, logRatio, i + 1);
        }
        DropNaNWithoutNaN(ratios[1..]);
      }
    }
  }

  /** When every consecutive pair of closes has a log ratio that is a number,
      log return `t` is the log ratio of close `t + 1` to close `t`: these are
      the values the mean and standard deviation are taken over. */
  lemma LogReturnsContents(closes: seq<real>, logRatio: (real, real) -> Float)
    requires forall t :: 0 < t < |closes| ==> HasLogReturn(closes, logRatio, t)
    ensures |closes| > 0 ==> |LogReturns(closes, logRatio)| == |closes| - 1
    ensures forall t {:trigger LogReturns(closes, logRatio)[t]} :: 0 <= t < |LogReturns(closes, logRatio)| ==>
              t + 1 < |closes| && logRatio(closes[t + 1], closes[t]) == Num(LogReturns(closes, logRatio)[t])
  {
    LogReturnsLength(closes, logRatio);
    var ratios := ShiftedLogRatios(closes, logRatio);
    if |ratios| > 0 {
      DropNaNAppend([NaN], ratios[1..]);
      assert ratios == [NaN] + ratios[1..];
      forall i | 0 <= i < |ratios| - 1
        ensures ratios[1..][i].Num?
      {
        assert HasLogReturn(closes, logRatio, i + 1);
      }
      DropNaNWithoutNaN(ratios[1..]);
    }
  }

  /** `(mu / sigma) * sqrt(252) if sigma > 0 else 0.0`. */
  function Sharpe(mu: real, sigma: real, sqrt: real -> real): (s: real)
    ensures sigma > 0.0 ==> s == (mu / sigma) * sqrt(TradingDaysPerYear)
    ensures sigma > 0.0 && sqrt(TradingDaysPerYear) > 0.0 ==>
              (s > 0.0 <==> mu > 0.0) && (s < 0.0 <==> mu < 0.0)
  {
    if sigma > 0.0 then
      var daily := mu / sigma;
      assert daily * sigma == mu;
      daily * sqrt(TradingDaysPerYear)
    else 0.0
  }

  /** The if/elif chain on `prob_up`: the first strict threshold it exceeds
      picks the band. A NaN fails every comparison and lands in "Bearish". */
  function Classify(probUp: Float): (l: Label)
    ensures probUp.NaN? ==> l == Bearish
    ensures probUp.Num? ==>
              && (l == Bullish <==> probUp.v > 0.65)
              && (l == ModeratelyBullish <==> 0.55 < probUp.v <= 0.65)
              && (l == NeutralUncertain <==> 0.45 < probUp.v <= 0.55)
              && (l == Bearish <==> probUp.v <= 0.45)
  {
    match probUp
    case NaN => Bearish
    case Num(p) =>
      if p > 0.65 then Bullish
      else if p > 0.55 then ModeratelyBullish
      else if p > 0.45 then NeutralUncertain
      else Bearish
  }

  /** The outlook once validation has passed: the final returns of the paths
      simulated from the last close, their share of gains, mean and spread,
      the Sharpe ratio and the label. */
  function Simulate(lastPrice: real, mu: real, sigma: real, days: int,
                    noise: seq<seq<real>>, num: Numerics): (o: Outlook)
    requires NonEmptyRows(noise)
    ensures o.probUp.NaN? <==> |noise| == 0
    ensures o.probUp.Num? ==> 0.0 <= o.probUp.v <= 1.0
    ensures o.outlookLabel == Classify(o.probUp)
    ensures o.sharpe == Sharpe(mu, sigma, num.sqrt)
  {
    var finalReturns := FinalReturns(lastPrice, noise, num.exp);
    var probUp := FractionPositive(finalReturns);
    Outlook(
      outlookLabel := Classify(probUp),
      probUp := probUp,
      expectedReturn := num.arrayMean(finalReturns),
      volatility := num.arrayStd(finalReturns),
      sharpe := Sharpe(mu, sigma, num.sqrt),
      days := days,
      mu := mu,
      sigma := sigma)
  }

  /** What the validation chain hands to the simulation. */
  datatype Estimates = Estimates(mu: real, sigma: real)

  /** The checks of `get_outlook` in the order it meets them: the six it
      raises itself, then numpy's refusal of the sampler's arguments and the
      IndexError of taking the last column of an empty horizon. */
  function Validate(download: Option<seq<Float>>, days: int, sims: int, num: Numerics): (r: Result<Estimates, OutlookError>)
    ensures r.Success? ==>
              && |Closes(download)| >= MinHistory
              && days > 0 && sims >= 0
              && num.seriesMean(LogReturns(Closes(download), num.logRatio)) == Num(r.value.mu)
              && num.seriesStd(LogReturns(Closes(download), num.logRatio)) == Num(r.value.sigma)
              && r.value.sigma > 0.0
  {
    if download.None? || |download.value| == 0 then Failure(NoPriceData)
    else
      var closes := Closes(download);
      if |closes| == 0 then Failure(EmptyCloseSeries)
      else if |closes| < MinHistory then Failure(NotEnoughHistory)
      else
        var logReturns := LogReturns(closes, num.logRatio);
        if |logReturns| == 0 then Failure(EmptyLogReturns)
        else
          var mu := num.seriesMean(logReturns);
          var sigma := num.seriesStd(logReturns);
          if mu.NaN? || sigma.NaN? then Failure(InvalidStatistics)
          else if sigma.v == 0.0 then Failure(ZeroVolatility)
          else if sigma.v < 0.0 || sims < 0 || days < 0 then Failure(SamplerRejected)
          else if days == 0 then Failure(EmptyHorizon)
          else Success(Estimates(mu.v, sigma.v))
  }

  /** `get_outlook` for one downloaded history, with the noise matrix drawn
      by `np.random.normal(mu, sigma, size=(sims, days))` given as `noise`.
      It fails exactly as validation does, and otherwise simulates. */
  function GetOutlook(download: Option<seq<Float>>, days: int, sims: int,
                      noise: seq<seq<real>>, num: Numerics): (r: Result<Outlook, OutlookError>)
    requires days >= 0 && sims >= 0 ==> IsMatrix(noise, sims, days)
    ensures r.Failure? <==> Validate(download, days, sims, num).Failure?
    ensures r.Failure? ==> r.error == Validate(download, days, sims, num).error
    ensures r.Success? ==>
              && Validate(download, days, sims, num).Success?
              && r.value.mu == Validate(download, days, sims, num).value.mu
              && r.value.sigma == Validate(download, days, sims, num).value.sigma
              && r.value.sigma > 0.0
              && r.value.sharpe == Sharpe(r.value.mu, r.value.sigma, num.sqrt)
              && (r.value.probUp.NaN? <==> sims == 0)
              && (r.value.probUp.Num? ==> 0.0 <= r.value.probUp.v <= 1.0)
  {
    match Validate(download, days, sims, num)
    case Failure(e) => Failure(e)
    case Success(est) =>
      var closes := Closes(download);
      Success(Simulate(closes[|closes| - 1], est.mu, est.sigma, days, noise, num))
  }

  /** Every check of the chain evaluated on its own, in chain order: entry
      `Position(e)` says whether check `e` fails. */
  function Checks(download: Option<seq<Float>>, days: int, sims: int, num: Numerics): (failing: seq<bool>)
    ensures |failing| == 8
  {
    var closes := Closes(download);
    var logReturns := LogReturns(closes, num.logRatio);
    var mu := num.seriesMean(logReturns);
    var sigma := num.seriesStd(logReturns);
    [ download.None? || |download.value| == 0,
      |closes| == 0,
      |closes| < MinHistory,
      |logReturns| == 0,
      mu.NaN? || sigma.NaN?,
      sigma == Num(0.0),
      (sigma.Num? && sigma.v < 0.0) || sims < 0 || days < 0,
      days == 0 ]
  }

  /** Check `e` fails and no check before it does. */
  predicate FailsFirst(e: OutlookError, download: Option<seq<Float>>, days: int, sims: int, num: Numerics) {
    var failing := Checks(download, days, sims, num);
    && Position(e) < |failing|
    && failing[Position(e)]
    && forall k :: 0 <= k < Position(e) ==> !failing[k]
  }

  /** Validation reports a check that fails first, or passes with no check
      failing. */
  lemma ValidationOutcome(download: Option<seq<Float>>, days: int, sims: int, num: Numerics)
    ensures var r := Validate(download, days, sims, num);
            r.Failure? ==> FailsFirst(r.error, download, days, sims, num)
    ensures Validate(download, days, sims, num).Success? ==>
              forall k :: 0 <= k < 8 ==> !Checks(download, days, sims, num)[k]
  {
    var failing := Checks(download, days, sims, num);
    var closes := Closes(download);
    var logReturns := LogReturns(closes, num.logRatio);
    var mu, sigma := num.seriesMean(logReturns), num.seriesStd(logReturns);
    var first: OutlookError;
    if download.None? || |download.value| == 0 {
      first := NoPriceData;
    } else if |closes| == 0 {
      first := EmptyCloseSeries;
    } else if |closes| < MinHistory {
      first := NotEnoughHistory;
    } else if |logReturns| == 0 {
      first := EmptyLogReturns;
    } else if mu.NaN? || sigma.NaN? {
      first := InvalidStatistics;
    } else if sigma.v == 0.0 {
      first := ZeroVolatility;
    } else if sigma.v < 0.0 || sims < 0 || days < 0 {
      first := SamplerRejected;
    } else if days == 0 {
      first := EmptyHorizon;
    } else {
      assert Validate(download, days, sims, num).Success?;
      return;
    }
    assert Validate(download, days, sims, num) == Failure(first);
  }

  /** Validation is first-failure-wins: it fails with `e` exactly when check
      `e` fails and no earlier check does, and it passes exactly when no check
      fails. */
  lemma ValidationOrder(download: Option<seq<Float>>, days: int, sims: int,
                        num: Numerics, e: OutlookError)
    ensures Validate(download, days, sims, num) == Failure(e) <==> FailsFirst(e, download, days, sims, num)
    ensures Validate(download, days, sims, num).Success? <==>
              forall k :: 0 <= k < 8 ==> !Checks(download, days, sims, num)[k]
  {
    ValidationOutcome(download, days, sims, num);
    var r := Validate(download, days, sims, num);
    var failing := Checks(download, days, sims, num);
    if r.Failure? {
      var p, q := Position(r.error), Position(e);
      assert failing[p];
      if FailsFirst(e, download, days, sims, num) {
        assert failing[q];
        assert p == q;
      }
    }
  }

  /** The outlook reports the first failing check, and only that one. */
  lemma FirstFailureWins(download: Option<seq<Float>>, days: int, sims: int,
                         noise: seq<seq<real>>, num: Numerics, e: OutlookError)
    requires days >= 0 && sims >= 0 ==> IsMatrix(noise, sims, days)
    ensures GetOutlook(download, days, sims, noise, num) == Failure(e) <==> FailsFirst(e, download, days, sims, num)
    ensures GetOutlook(download, days, sims, noise, num).Success? <==>
              forall k :: 0 <= k < 8 ==> !Checks(download, days, sims, num)[k]
  {
    ValidationOrder(download, days, sims, num, e);
  }

  /** The 60-close floor counts surviving closes, the downloaded rows less the
      missing ones: with rows downloaded, fewer than 60 non-missing closes fail
      at the floor (or earlier, when none survive), and 60 or more get past it. */
  lemma HistoryFloor(download: Option<seq<Float>>, days: int, sims: int,
                     noise: seq<seq<real>>, num: Numerics)
    requires days >= 0 && sims >= 0 ==> IsMatrix(noise, sims, days)
    requires download.Some? && |download.value| > 0
    ensures |Closes(download)| == |download.value| - CountNaN(download.value)
    ensures 0 < |Closes(download)| < MinHistory ==>
              GetOutlook(download, days, sims, noise, num) == Failure(NotEnoughHistory)
    ensures |Closes(download)| >= MinHistory ==>
              var r := GetOutlook(download, days, sims, noise, num);
              r.Failure? ==> Position(r.error) > Position(NotEnoughHistory)
  {
    DropNaNShortensByNaNs(download.value);
  }

  /** Sixty downloaded rows with one missing close leave 59 closes and fail
      at the floor; sixty complete rows pass it. */
  lemma {:induction false} MissingCloseFallsBelowFloor(price: real, days: int, sims: int,
                                                       noise: seq<seq<real>>, num: Numerics)
    requires days >= 0 && sims >= 0 ==> IsMatrix(noise, sims, days)
    ensures GetOutlook(Some(seq(59, _ => Num(price)) + [NaN]), days, sims, noise, num)
              == Failure(NotEnoughHistory)
    ensures var r := GetOutlook(Some(seq(60, _ => Num(price))), days, sims, noise, num);
            r.Failure? ==> Position(r.error) > Position(NotEnoughHistory)
  {
    var complete: seq<Float> := seq(59, _ => Num(price));
    var full: seq<Float> := seq(60, _ => Num(price));
    DropNaNWithoutNaN(complete);
    DropNaNWithoutNaN(full);
    DropNaNAppend(complete, [NaN]);
    assert DropNaN([NaN]) == [];
    HistoryFloor(Some(complete + [NaN]), days, sims, noise, num);
    HistoryFloor(Some(full), days, sims, noise, num);
  }

  /** With 60 or more closes, the log returns can only come out empty when
      some consecutive pair has a NaN log ratio. */
  lemma EmptyLogReturnsNeedNaNRatio(download: Option<seq<Float>>, days: int, sims: int,
                                    noise: seq<seq<real>>, num: Numerics)
    requires days >= 0 && sims >= 0 ==> IsMatrix(noise, sims, days)
    requires GetOutlook(download, days, sims, noise, num) == Failure(EmptyLogReturns)
    ensures var closes := Closes(download);
            exists t :: 0 < t < |closes| && !HasLogReturn(closes, num.logRatio, t)
  {
    var closes := Closes(download);
    assert Validate(download, days, sims, num) == Failure(EmptyLogReturns);
    assert |closes| >= MinHistory && |LogReturns(closes, num.logRatio)| == 0;
    LogReturnsLength(closes, num.logRatio);
  }

  /** A flat history of at least 60 equal positive closes is rejected for
      zero volatility, given that the log ratio of equal prices is 0 and the
      estimators see a series of zeros as having a mean and no spread. */
  lemma FlatHistoryRejected(price: real, n: nat, days: int, sims: int,
                            noise: seq<seq<real>>, num: Numerics)
    requires days >= 0 && sims >= 0 ==> IsMatrix(noise, sims, days)
    requires n >= MinHistory
    requires num.logRatio(price, price) == Num(0.0)
    requires num.seriesMean(seq(n - 1, _ => 0.0)).Num?
    requires num.seriesStd(seq(n - 1, _ => 0.0)) == Num(0.0)
    ensures GetOutlook(Some(seq(n, _ => Num(price))), days, sims, noise, num) == Failure(ZeroVolatility)
  {
    var download: seq<Float> := seq(n, _ => Num(price));
    DropNaNWithoutNaN(download);
    var closes := Closes(Some(download));
    assert closes == seq(n, _ => price);
    var ratios := ShiftedLogRatios(closes, num.logRatio);
    assert ratios[1..] == seq(n - 1, _ => Num(0.0));
    assert ratios == [NaN] + ratios[1..];
    DropNaNAppend([NaN], ratios[1..]);
    assert DropNaN([NaN]) == [];
    DropNaNWithoutNaN(ratios[1..]);
    assert LogReturns(closes, num.logRatio) == seq(n - 1, _ => 0.0);
  }

  /** From a positive last close, `prob_up` is the share of rows of the noise
      matrix whose log-returns add up to a gain, and the label is chosen from
      that share. */
  lemma ProbUpCountsRisingPaths(download: Option<seq<Float>>, days: int, sims: int,
                                noise: seq<seq<real>>, num: Numerics)
    requires days >= 0 && sims >= 0 ==> IsMatrix(noise, sims, days)
    requires Validate(download, days, sims, num).Success?
    requires |Closes(download)| > 0 && Closes(download)[|Closes(download)| - 1] > 0.0
    requires forall x :: num.exp(x) > 1.0 <==> x > 0.0
    ensures sims > 0 ==>
              var o := GetOutlook(download, days, sims, noise, num).value;
              && o.probUp == Num(CountRising(noise) as real / sims as real)
              && o.outlookLabel == Classify(o.probUp)
  {
    var closes := Closes(download);
    var lastPrice := closes[|closes| - 1];
    OutlookSimulatesFromLastClose(download, days, sims, noise, num);
    PositiveReturnsCountRisingRows(lastPrice, noise, num.exp);
  }

  /** Once validation passes, the outlook is the simulation from the last close. */
  lemma OutlookSimulatesFromLastClose(download: Option<seq<Float>>, days: int, sims: int,
                                      noise: seq<seq<real>>, num: Numerics)
    requires days >= 0 && sims >= 0 ==> IsMatrix(noise, sims, days)
    requires Validate(download, days, sims, num).Success?
    ensures |Closes(download)| > 0
    ensures GetOutlook(download, days, sims, noise, num)
            == Success(Simulate(Closes(download)[|Closes(download)| - 1],
                                Validate(download, days, sims, num).value.mu,
                                Validate(download, days, sims, num).value.sigma,
                                days, noise, num))
  {
  }

  /** A larger `prob_up` never yields a lower-ranked label. */
  lemma LabelMonotone(p: real, q: real)
    requires p <= q
    ensures Classify(Num(p)).Rank() <= Classify(Num(q)).Rank()
  {
  }

  /** The thresholds are strict: a value exactly on one falls in the band below. */
  lemma ThresholdsFallBelow()
    ensures Classify(Num(0.65)) == ModeratelyBullish
    ensures Classify(Num(0.55)) == NeutralUncertain
    ensures Classify(Num(0.45)) == Bearish
  {
  }
}
