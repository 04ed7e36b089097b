# Multi-timeframe crypto screen: a Dafny model

`main.py` screens perpetual-swap symbols on three timeframes (1h, 15m, 5m).
For each timeframe it fetches OHLCV bars (`fetch_market_data`) and rejects the
fetch when it is short, stale or holds a non-numeric field. It then adds the
indicator columns (MACD, RSI-7 and its one-bar shift, price and volume moving
averages, and the volume ratio), drops every row with a NaN cell and keeps the
last `limit` rows. A rule is applied to the latest row
(`check_1h_conditions`, `check_15m_conditions`, `check_5m_conditions`).
`filter_by_conditions` passes a symbol only when all three timeframes pass.

The model has seven modules, one file each:

- `cells.dfy` (`Cells`): a frame cell is `Option<real>`, with `None` for
  pandas NaN. `Quotient` covers IEEE division: a finite value, plus or minus
  infinity, or NaN. Comparisons on cells and quotients are false on NaN, as
  in floating point.
- `series.dfy` (`Series`): sums and means of windows. It defines the
  trailing simple moving average and the volume ratio cell by cell, and proves
  facts about them.
- `candles.dfy` (`Candles`): timeframes and their delay bounds, raw rows with
  optional fields, the per-column null check, and the exchange as a function.
- `frame.dfy` (`Frame`): the enriched frame (`Enrich`) and `dropna()`
  (`DropNa`), with the lemmas that pin down what the tail of `dropna()` holds.
- `fetching.dfy` (`Fetching`): `fetch_market_data`. `FromResponse` and
  `MarketData` state the result as a function of the exchange's response.
  `FetchMarketData` is the step-by-step method, with the column loop and its
  early returns, proved equal to that function.
- `rules.dfy` (`Rules`): the three rules on the latest row, and the 1h rule
  restated without the division.
- `screening.dfy` (`Screening`): the `filter_by_conditions` loop, and lemmas
  that connect the rules to the fetched series.

The exchange, its clock and the MACD and RSI of `pandas_ta` are parameters.
`Exchange` maps a symbol, a timeframe and a bar count to either an error or
the rows plus the exchange clock. `Library` maps the close column to the
MACD columns, or to `None` when the library returns no frame, and to the
RSI column. A library call that raises is modelled as the `None` it turns into.

Three behaviours of the code are easy to misread; the model follows the code:

- The row-count gate compares the number of rows with `limit`, not `limit + 50`
  (`main.py:22`). Only `limit + 50` bars are requested.
- `dropna()` removes every row with a NaN cell, not only the leading warm-up
  rows. A complete row is kept even when a row before it was dropped.
- Timestamps are not checked to be increasing or unique. Only the last
  timestamp is read, for the staleness gate.

## Model

| member | source | states |
|---|---|---|
| Cells.Divide | main.py:70 | float division: finite exactly when the divisor is non-zero, and then the quotient times the divisor is the dividend; a zero divisor gives +inf, -inf or NaN according to the sign of the dividend |
| Candles.HasMissing | main.py:44-45 | `isnull().any()` on a column is true exactly when some row lacks that field |
| Candles.ParsesIffNoMissingField | main.py:43-47 | a row converts to numbers exactly when none of open, high, low, close, volume is missing |
| Candles.Parse | main.py:43-44 | the converted series has one bar per row, in order, carrying the row's timestamp and its open, high, low, close and volume values |
| Series.MovingAverage | main.py:61-67 | the SMA cell of length n at position i is defined exactly when i >= n - 1 |
| Series.SlidingSum | main.py:61-67 | moving the window one step adds the new value and removes the oldest |
| Series.MovingAverageStep | main.py:61-67 | the SMA satisfies the incremental recurrence MA[i] = MA[i-1] + (x[i] - x[i-n]) / n |
| Series.VolumeRatioPriorWindow | main.py:70 | the volume ratio at i is volume[i] divided by the mean of volume[i-5..i-1], and NaN for i < 5 |
| Series.WiderWindowLowerMean | main.py:61-63 | on strictly rising values, adding one older value to a trailing window lowers its mean |
| Series.ShorterWindowHigherMean | main.py:61-63 | on strictly rising values, a shorter trailing mean is above a longer one that ends at the same bar |
| Frame.Enrich | main.py:49-74 | the indicator step fails exactly when MACD yields no frame; otherwise one row per bar, in order, indexed by position |
| Frame.EnrichedRow | main.py:51-70 | cell by cell: MACD and RSI from the library, RSI_7_prev[i] = RSI_7[i-1] and undefined at 0, MA_n the mean of the last n closes and undefined before bar n-1, the volume MAs the same over volume, and the volume ratio over the five prior volumes |
| Frame.DropNa | main.py:85 | a row is kept exactly when it is in the frame and has no NaN cell |
| Frame.DropNaKeepsOrder | main.py:85 | `dropna()` keeps the original row order |
| Frame.KeptTail | main.py:85-90 | the last `limit` kept rows are complete and in order, each is the frame row at its index, and no complete row after the first of them is left out |
| Fetching.FromResponse | main.py:10-94 | a successful fetch holds exactly `limit` rows, with every cell defined |
| Fetching.FetchMarketData | main.py:10-94 | the step-by-step fetch, with its column loop and early returns, returns exactly `MarketData` |
| Fetching.DelayBounds | main.py:32-36 | the delay bounds are 300000 ms for 5m, 900000 ms for 15m and 3600000 ms for 1h |
| Fetching.StalenessBoundary | main.py:30-40 | a delay above the bound gives `None`; at or below it, the result is the same as with no delay |
| Fetching.ShortFetchRejected | main.py:21-24 | an empty fetch, or one with fewer than `limit` rows, gives `None` |
| Fetching.MissingFieldRejected | main.py:43-47 | one missing field in any row rejects the whole series |
| Fetching.SurvivorsDecide | main.py:50-90 | past the three gates, the fetch succeeds exactly when MACD yields a frame and at least `limit` rows survive `dropna()` |
| Fetching.FetchedWindow | main.py:85-90 | the result is the last `limit` complete rows of the enriched frame, in order, each the frame row at its index |
| Fetching.FetchedRowWarm | main.py:58-90 | every returned row lies at bar 19 or later, past the warm-up of MA20, of the volume ratio and of the RSI shift |
| Rules.Check1h | main.py:96-100 | the 1h rule fails on a missing or empty frame |
| Rules.Check15m | main.py:119-122 | the 15m rule fails on a missing or empty frame |
| Rules.Check5m | main.py:138-141 | the 5m rule fails on a missing or empty frame |
| Rules.DeviationBelowTwoPercent | main.py:105-111 | with MA20 > 0, the deviation clause holds exactly when 50 * close < 51 * MA20 |
| Rules.DeviationNegative | main.py:105-111 | with MA20 < 0 and close above it, the deviation is negative, so the clause holds |
| Rules.OneHourBand | main.py:105-113 | the 1h rule holds exactly when its cells are defined, MA20 < close < 1.02 * MA20 (any close above a negative MA20), MA10 > MA20, `MACD_hist` > 0 and volume MA5 > volume MA10 |
| Rules.ZeroMa20Fails | main.py:105-113 | an MA20 of zero makes the 1h rule false, not an error |
| Rules.DeviationClauseBinds | main.py:105-113 | with MA20 = 100 and the other clauses met, the rule passes exactly for 100 < close < 102 |
| Rules.RsiBoundsExcluded | main.py:129 | an RSI of exactly 40 or exactly 70 fails the 15m rule |
| Screening.Verdict | main.py:170-178 | a timeframe can pass only when its fetch succeeds |
| Screening.ScreenTimeframe | main.py:170-178 | one loop step records the rule's verdict on the fetched frame, or false when the fetch fails |
| Screening.FilterByConditions | main.py:155-184 | records one result per timeframe in the order 1h, 15m, 5m, even after a failure; returns true exactly when all three recorded results are true, that is, when all three timeframes pass |
| Screening.VolumeSurge | main.py:130 | for non-negative volumes, the 15m volume clause holds exactly when 10 * volume > 3 * (sum of the five prior volumes) |
| Screening.RatioAboveOneAndHalf | main.py:130 | a ratio of v to the mean of five values with sum s exceeds 1.5 exactly when 10v > 3s, including s = 0 |
| Screening.RisingClosesTrend | main.py:108-109 | strictly rising closes give close > MA5 > MA10 > MA20 on every fetched row |
| Screening.FiveMinuteMomentum | main.py:146-149 | on a fetched frame, the 5m rule compares the library's RSI at the latest bar with its RSI one bar earlier, and requires a positive `MACD_hist` (the third MACD column) |
| Screening.FailedFetchVetoes | main.py:176-178 | a timeframe whose fetch fails makes that timeframe fail, so the symbol fails |

## Left out

- Exchange access (`exchange.fetch_ohlcv`, `exchange.milliseconds`, `load_markets`, `fetch_tickers`) is network I/O. The exchange and its clock are the `Exchange` parameter.
- The internals of `ta.macd` and `ta.rsi` are a foreign library. Their columns are the `Library` parameter, aligned with the frame by position, and a column shorter than the frame is padded with NaN.
- `get_top_volume_perpetual` and `main` (`main.py:186-247`) rank symbols, format time zones, print and write CSV files. They hold no logic to verify.
- All `print` diagnostics are left out. A caught exception is modelled as the `None` or `false` result it produces.
- Floating-point rounding is not modelled, because prices and volumes are `real`. Division by zero is modelled through `Quotient`. NaN from other float operations, such as inf - inf, is not modelled.
- The `required_columns` check (`main.py:76-82`) cannot fail once the column assignments above it have run, so it has no branch in the model.
- Two inputs the code accepts are outside the model: an infinite open, high, low, close or volume, which passes `to_numeric` and `isnull()` (`main.py:44-45`); and a missing timestamp, which is NaN at `main.py:31`, passes the staleness comparison at `main.py:38` because a comparison with NaN is false, and whose row `dropna()` later drops.
- The `results` dictionary keyed by timeframe is a sequence of `TimeframeResult` in visiting order, which is the dictionary's insertion order.
- Rules.Check1h: its contract states only that a missing or empty frame fails. The full meaning of the 1h rule is stated by Rules.OneHourBand.
- Rules.Check15m: its contract states only that a missing or empty frame fails. Its clauses are stated through Screening.VolumeSurge and Rules.RsiBoundsExcluded.
- Rules.Check5m: its contract states only that a missing or empty frame fails. Its clauses are stated through Screening.FiveMinuteMomentum.
