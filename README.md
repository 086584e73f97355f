# Monte-Carlo outlook of the corporate intelligence agent, in Dafny

This project models `get_outlook`, the one piece of the corporate intelligence
agent with decision logic of its own. Given a downloaded close-price history, it:

1. runs an ordered chain of validation checks;
2. estimates the drift `mu` and the volatility `sigma` of the daily log returns;
3. turns a `sims × days` matrix of normal noise into simulated price paths, `last_price * exp(cumsum(row))`;
4. takes each path's final simple return;
5. reports the share of paths that end higher (`prob_up`), the mean and spread of the final returns, and an annualised Sharpe ratio;
6. classifies `prob_up` into one of four ordered labels.

The model is pure, as the source is: straight-line guards, vectorised
expressions and an if/elif chain, written as functions and lemmas.

- `Floats` (floats.dfy): a double is `Num(v)` or `NaN`; pandas also uses NaN for a missing entry. This module holds `dropna()` (`DropNaN`), the count of strictly positive entries and the mean of the mask `s > 0` (`FractionPositive`).
- `Paths` (paths.dfy): the row sum, the row-wise `cumsum`, a price path, its final price and its final simple return.
- `FinancialTools` (financial_tools.dfy):
  - `Validate`: the validation chain.
  - `Checks` and `FailsFirst`: each check evaluated on its own, and the first-failure rule.
  - `Simulate`, `Sharpe`, `Classify`.
  - `GetOutlook`: the whole operation. It returns a tagged `Result`, either a named `OutlookError` or an `Outlook` record.
- `Wrappers` (wrappers.dfy): `Option` and `Result`.

Parameters stand for what the model cannot compute:

- The downloaded close column is `Option<seq<Float>>`. `None` is `data is None`, and `[]` is an empty frame.
- The noise matrix drawn by `np.random.normal` is a parameter. It must have `sims` rows of `days` entries whenever both are non-negative.
- `Numerics` bundles the numeric primitives as function values:
  - `logRatio`: `np.log(cur / prev)`;
  - `exp` and `sqrt`;
  - the pandas mean and standard deviation applied to the log returns;
  - the numpy mean and standard deviation applied to the final returns.
- A lemma that needs a property of a primitive states it as a hypothesis, for example "`exp(x) > 1` exactly when `x > 0`".

Behaviour of the code that the model keeps:

- The checks run in this order: no data, empty closes, fewer than 60 closes, empty log returns, NaN `mu` or `sigma`, zero `sigma`.
- Two more failures follow in the code. `np.random.normal` rejects a negative scale or a negative size (`SamplerRejected`). `price_paths[:, -1]` raises IndexError when `days == 0` (`EmptyHorizon`).
- A successful outlook always has `sigma > 0`, so the `else 0.0` branch of the Sharpe expression is unreachable.
- With `sims == 0` the mean of an empty mask is NaN. NaN fails every comparison, so the label is "Bearish".
- With a last close of 0, every simulated price is 0 and each return is 0/0, which is NaN.
- The code uses pandas' default (sample) standard deviation on the log returns and numpy's default (population) on the final returns, so the model keeps the two estimators as separate parameters.

## Model

| member | source | states |
|---|---|---|
| `FinancialTools.GetOutlook` | corporate_agent/tools/financial_tools.py:53-108 | Fails exactly when validation fails, and with the same error. On success `sigma > 0`, `mu` and `sigma` are the estimates of the log returns, the Sharpe ratio is `Sharpe(mu, sigma)`, `prob_up` is NaN exactly when `sims == 0`, and otherwise `0 <= prob_up <= 1` |
| `FinancialTools.Validate` | corporate_agent/tools/financial_tools.py:57-90 | Passing validation implies at least 60 surviving closes, `days > 0`, `sims >= 0`, `mu` and `sigma` equal to the estimators' values on the log returns, and `sigma > 0` |
| `FinancialTools.ValidationOutcome` | corporate_agent/tools/financial_tools.py:58-90 | The error validation reports is a check that fails with no earlier check failing. Passing means that no check fails |
| `FinancialTools.ValidationOrder` | corporate_agent/tools/financial_tools.py:58-90 | Validation fails with `e` if and only if check `e` fails and every earlier check passes. It passes if and only if no check fails |
| `FinancialTools.FirstFailureWins` | corporate_agent/tools/financial_tools.py:58-85 | The same first-failure-wins characterisation, for the outlook as a whole: `GetOutlook` returns error `e` exactly when `e` is the first failing check, and succeeds exactly when none fails |
| `FinancialTools.HistoryFloor` | corporate_agent/tools/financial_tools.py:61-67 | The closes counted are the downloaded rows less the missing ones. With rows downloaded, 1 to 59 surviving closes give "not enough history". 60 or more get past every check up to and including the floor |
| `FinancialTools.MissingCloseFallsBelowFloor` | corporate_agent/tools/financial_tools.py:61-67 | Sixty rows with one missing close fail at the floor. Sixty complete rows pass it |
| `FinancialTools.Closes` | corporate_agent/tools/financial_tools.py:61 | An absent download has no closes. Otherwise there are exactly as many closes as downloaded rows less the missing ones |
| `FinancialTools.ShiftedLogRatios` | corporate_agent/tools/financial_tools.py:70 | The shifted log ratios have one entry per close |
| `FinancialTools.LogReturns` | corporate_agent/tools/financial_tools.py:70 | There are never more log returns than closes |
| `FinancialTools.LogReturnsContents` | corporate_agent/tools/financial_tools.py:70 | When every consecutive pair of closes has a numeric log ratio, there are `n - 1` log returns and return `t` is the log ratio of close `t + 1` to close `t` |
| `FinancialTools.LogReturnsLength` | corporate_agent/tools/financial_tools.py:70 | There are fewer log returns than closes. When every consecutive pair has a numeric log ratio there are exactly `n - 1` |
| `FinancialTools.EmptyLogReturnsNeedNaNRatio` | corporate_agent/tools/financial_tools.py:66-73 | The "log returns are empty" error implies some consecutive pair of closes has a NaN log ratio |
| `FinancialTools.FlatHistoryRejected` | corporate_agent/tools/financial_tools.py:70-85 | At least 60 equal closes are rejected for zero volatility. This assumes `ln(1) = 0` and estimators that give a series of zeros a mean and a zero spread |
| `FinancialTools.Sharpe` | corporate_agent/tools/financial_tools.py:98 | With `sigma > 0` the ratio is `(mu / sigma) * sqrt(252)`. When also `sqrt(252) > 0`, it is positive exactly when `mu` is and negative exactly when `mu` is |
| `FinancialTools.Simulate` | corporate_agent/tools/financial_tools.py:87-108 | `prob_up` is NaN exactly when there are no paths, and otherwise lies in `[0, 1]`. The label is the classification of `prob_up` |
| `FinancialTools.ProbUpCountsRisingPaths` | corporate_agent/tools/financial_tools.py:88-108 | From a positive last close, and with `exp(x) > 1` exactly when `x > 0`, `prob_up` is the number of noise rows with a positive total divided by `sims`, and the label is chosen from it |
| `FinancialTools.Classify` | corporate_agent/tools/financial_tools.py:101-108 | The four bands are half-open intervals: above 0.65 "Bullish", (0.55, 0.65] "Moderately Bullish", (0.45, 0.55] "Neutral / Uncertain", at most 0.45 "Bearish". NaN is "Bearish" |
| `FinancialTools.LabelMonotone` | corporate_agent/tools/financial_tools.py:101-108 | A larger `prob_up` never gives a lower-ranked label |
| `FinancialTools.ThresholdsFallBelow` | corporate_agent/tools/financial_tools.py:101-108 | Exactly 0.65, 0.55 and 0.45 fall in the next lower band |
| `Paths.CumSum` | corporate_agent/tools/financial_tools.py:89 | The cumulative sum of a row has the row's length |
| `Paths.CumSumAt` | corporate_agent/tools/financial_tools.py:89 | Entry `k` of the cumulative sum is the total of entries `0..k` |
| `Paths.CumSumLast` | corporate_agent/tools/financial_tools.py:89-90 | The last entry of a row's cumulative sum is the row total |
| `Paths.PricePath` | corporate_agent/tools/financial_tools.py:89 | The price on day `t` is the last close times `exp` of the log-returns of days `0..t` |
| `Paths.FinalPrice` | corporate_agent/tools/financial_tools.py:89-90 | The final price of a path is the last close times `exp` of the row total |
| `Paths.FinalReturn` | corporate_agent/tools/financial_tools.py:92 | From a positive last close, the final return is strictly positive exactly when the final price is above the last close |
| `Paths.FinalReturns` | corporate_agent/tools/financial_tools.py:90-92 | There is one final return per simulated path |
| `Paths.RisingIffPositiveTotal` | corporate_agent/tools/financial_tools.py:88-92 | From a positive last close, and with `exp` of the row total above 1 exactly when the total is positive, a path ends higher exactly when its row of log-returns has a positive total |
| `Paths.ReturnAboveIffGrowth` | corporate_agent/tools/financial_tools.py:92 | From a positive last close, a price reached by growth factor `g` gives a positive return exactly when `g > 1` |
| `Paths.PositiveReturnsCountRisingRows` | corporate_agent/tools/financial_tools.py:88-94 | The number of strictly positive final returns equals the number of noise rows with a positive total |
| `Floats.DropNaN` | corporate_agent/tools/financial_tools.py:61 | Dropping NaN never lengthens a series |
| `Floats.DropNaNWithoutNaN` | corporate_agent/tools/financial_tools.py:61 | A series without NaN loses nothing and keeps every value in place |
| `Floats.DropNaNShortensByNaNs` | corporate_agent/tools/financial_tools.py:61 | The result is shorter than the input by exactly the number of NaN entries |
| `Floats.DropNaNAppend` | corporate_agent/tools/financial_tools.py:61 | Dropping NaN distributes over concatenation |
| `Floats.CountPositive` | corporate_agent/tools/financial_tools.py:94 | The count of strictly positive entries is at most the length. It equals the length exactly when all entries are positive, and is 0 exactly when none is |
| `Floats.CountPositiveAppend` | corporate_agent/tools/financial_tools.py:94 | The count of a concatenation is the sum of the counts |
| `Floats.CountPositivePermutation` | corporate_agent/tools/financial_tools.py:94 | Reordering the entries leaves the count unchanged |
| `Floats.FractionPositive` | corporate_agent/tools/financial_tools.py:94 | The mean of the mask `s > 0` is NaN exactly for an empty series and otherwise lies in `[0, 1]`. It is 1 exactly when all entries are positive and 0 exactly when none is |
| `Floats.FractionPositivePermutation` | corporate_agent/tools/financial_tools.py:94 | `prob_up` does not depend on the order of the paths |

## Left out

- The download through `yf.download` is network I/O through an external library. The close column is an input instead. The model assumes a single-ticker frame; a frame without a "Close" column is not modelled.
- `np.random.normal` is a random source. The noise matrix is an input, and nothing about its distribution is modelled. The statistical properties that depend on it are out of scope, for example that `expectedReturn` approaches `mu` for one-day horizons.
- `np.log`, `np.exp`, `np.sqrt`, and the pandas and numpy mean and standard deviation are transcendental or floating-point numerics. They are parameters, constrained only where a lemma states a hypothesis.
- Floating-point rounding and infinities are not modelled. A double is a real number or NaN.
- The summary text and its percentage rendering, the text of each error message, and the `logger.info` calls are presentation and side effects. The model returns the label (`Label.Text` gives its printed form) and a named error in their place.
- `get_fundamentals` formats fields of an external library's `info` object. It has no logic of its own.
- `parse_sec_filing` returns a constant mock string.
- The manager and specialist agents are LLM configuration and prompt text over an external agent framework, with no computable behaviour.
- The default arguments `days=30` and `sims=5000` are not modelled. `GetOutlook` takes both explicitly, and the defaults are one choice of those inputs.
- `Outlook` also carries `mu` and `sigma`. The code neither returns nor prints them; the record keeps them so that contracts can state what the Sharpe ratio is computed from.
- Determinism under a fixed seed holds by construction: every member is a function of its inputs.
- `FinancialTools.LogReturns`: its own contract states only that there are no more log returns than closes. The contents are stated by `FinancialTools.LogReturnsContents` and the exact count by `FinancialTools.LogReturnsLength`. A quantified contract on the function itself would slow every proof that unfolds validation.
- `FinancialTools.ShiftedLogRatios`: its contract states only the length. Entry by entry it is the definition, and `FinancialTools.LogReturnsContents` states what survives `.dropna()`.
- `Paths.FinalReturns`: its contract states only the length. What each return means is stated by `Paths.FinalPrice`, `Paths.FinalReturn` and `Paths.PositiveReturnsCountRisingRows`, because stating it in the function's own contract made the solver too slow.
