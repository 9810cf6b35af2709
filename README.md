# Pairs trading, modelled in Dafny

This project models the core of a pandas/statsmodels pairs-trading pipeline and proves properties of the model. The pipeline has these steps:
- It cleans a table of adjusted closes.
- It scores every pair of tickers with an Engle–Granger cointegration test and keeps the best pairs.
- For each pair it estimates a rolling OLS hedge ratio, builds the spread and its rolling z-score, and turns z-scores into positions with a hysteresis state machine.
- It backtests each pair with a one-day lag and turnover costs.
- It averages the pairs into an equal-weight portfolio and summarises it with annualised return, Sharpe ratio, maximum drawdown and win rate.

Modelling conventions:
- Numbers are exact `real`s. pandas' NaN is `None` in `Option<real>`.
- A date-indexed series is a `seq` already aligned to one calendar. A price table is stored column by column, with dates as day numbers.
- The statistical routines are function parameters that the model never interprets:
  - `coint` for statsmodels' `coint`;
  - `adf` for `adfuller`;
  - `ols` for the slope of `OLS(y, [1, x])`;
  - `sqrt` for the square root;
  - `pow` for the fractional power.

One module per source file:
- `Series` (series.dfy): the shared pandas primitives (dropna, fillna, cumprod, cummax, NaN-propagating arithmetic, drawdown).
- `Sorting` (sorting.dfy): sorting by a key, and filtering.
- `Data`: data.py.
- `Stats`: stats.py.
- `Signals`: signals.py.
- `Backtest`: backtest.py.
- `Metrics`: metrics.py.
- `Plotting`: plotting.py.
- `Plots`: src/plots.py.
- `Cli`: cli.py.

Most of the source is whole-series expressions, and those are functions. The source's four loops are methods, each proved equal to a specification function:
- `Stats.RollingOlsBeta`: the `betas` array filled in place.
- `Signals.PositionsFromZ`: the state loop with `continue`.
- `Cli.SelectPairs` and `Cli.TradeLoop`: the loops of `select_pairs` and `run`. `Cli.TradePairs` and `Cli.Run` call `Cli.TradeLoop` and then build the portfolio and summary.

## Model

| member | source | states |
|---|---|---|
| Series.Plus | src/pairs_trading/backtest.py:50 | a sum is defined iff both operands are, and then equals their sum |
| Series.Minus | src/pairs_trading/backtest.py:59 | a difference is defined iff both operands are, and then equals their difference |
| Series.Times | src/pairs_trading/backtest.py:57 | a product is defined iff both operands are, and then equals their product |
| Series.AbsOf | src/pairs_trading/backtest.py:41 | an absolute value is defined iff its operand is, and is never negative |
| Series.Defined | src/pairs_trading/metrics.py:15 | dropna: the defined values in their original order, never more than the input |
| Series.DefinedEmptyIff | src/pairs_trading/metrics.py:15-17 | dropna leaves nothing iff every value is missing |
| Series.DefinedMembers | src/pairs_trading/metrics.py:37 | a value survives dropna iff it occurs as a defined entry |
| Series.FillZero | src/pairs_trading/metrics.py:9 | fillna(0) keeps defined values and puts 0 where a value is missing |
| Series.Mean | src/pairs_trading/backtest.py:78 | the mean of a non-empty sequence: its sum over its length |
| Series.MeanBounds | src/pairs_trading/backtest.py:78 | a mean lies between any lower and upper bound of the values |
| Series.ConstantHasNoSpread | src/pairs_trading/metrics.py:27 | values that are all equal to c have mean c and zero squared deviation |
| Series.CumProd | src/pairs_trading/metrics.py:10 | cumprod: entry i is the product of the first i+1 factors, one entry per factor |
| Series.CumProdStep | src/pairs_trading/metrics.py:10 | cumprod multiplies the previous cumulative product by the current factor |
| Series.ProdPositive | src/pairs_trading/metrics.py:18 | a product of positive factors is positive |
| Series.MaxOfIsMax | src/pairs_trading/metrics.py:32 | the maximum is at least every element and is one of them |
| Series.MinOfIsMin | src/pairs_trading/metrics.py:34 | the minimum is at most every element and is one of them |
| Series.RunningMax | src/pairs_trading/plotting.py:37 | cummax: entry i is the largest of the first i+1 values, one entry per value |
| Series.RunningMaxProperties | src/pairs_trading/plotting.py:37 | the running peak is at least the value at and before each index, is attained at or before it, and never decreases |
| Series.RelativeDrawdown | src/pairs_trading/plotting.py:38 | `equity / peak - 1` is defined iff the peak is nonzero, is at most 0 for 0 < equity <= peak, and is 0 iff equity equals the peak |
| Series.Drawdown | src/pairs_trading/plotting.py:30-40 | the drawdown series has the equity's length, is at most 0 where equity is positive, and is 0 exactly where equity is at its running peak |
| Sorting.SortBy | src/pairs_trading/cli.py:29 | the result is a permutation of the input with ascending keys |
| Sorting.Filter | src/pairs_trading/cli.py:30 | the kept rows all pass the test and form a sub-multiset of the input |
| Sorting.FilterMembers | src/pairs_trading/cli.py:30 | a row survives the threshold filter iff it is in the input and passes the test |
| Sorting.FilterCount | src/pairs_trading/cli.py:30 | filtering keeps every passing row exactly as often as it occurs, and nothing else |
| Sorting.FilterSorted | src/pairs_trading/cli.py:29-30 | filtering a sorted sequence leaves it sorted |
| Sorting.PermutationOfRange | src/pairs_trading/data.py:41 | a rearrangement of 0..n-1 lists every index exactly once |
| Data.SortOrder | src/pairs_trading/data.py:41 | the row order of sort_index is a permutation of the row indices along which dates ascend |
| Data.SortIndex | src/pairs_trading/data.py:41 | sort_index keeps the tickers and the row count, sorts the dates ascending, and moves every row as a whole |
| Data.FFillColumn | src/pairs_trading/data.py:42 | ffill on one column: same length; a missing cell takes the filled value of the row above, the first row has nothing above |
| Data.FFillPrefix | src/pairs_trading/data.py:42 | forward-filling a prefix of a column gives the prefix of the filled column |
| Data.FFillStep | src/pairs_trading/data.py:42 | a missing cell takes the filled value of the row above, and a present cell keeps its value |
| Data.FFillKeepsPresent | src/pairs_trading/data.py:42 | ffill leaves a present price unchanged |
| Data.FFillMissingIff | src/pairs_trading/data.py:42 | after ffill a cell is missing iff it and every cell above it were missing |
| Data.FFillNearestAbove | src/pairs_trading/data.py:42 | a missing cell takes the nearest present price above it |
| Data.FFillValueFromAbove | src/pairs_trading/data.py:42 | every filled value is a price found at or above its row |
| Data.FFill | src/pairs_trading/data.py:42 | ffill keeps the dates and tickers and fills each column independently |
| Data.NonMissing | src/pairs_trading/data.py:44 | `notna().sum()` of a column: the number of present prices, at most the column's length |
| Data.KeptColumns | src/pairs_trading/data.py:44 | a column index is kept iff its non-missing count is at least the minimum, and the kept indices ascend |
| Data.Screen | src/pairs_trading/data.py:45 | the column mask keeps a well-formed table with the same dates |
| Data.AlignPrices | src/pairs_trading/data.py:32-46 | the cleaned table is well formed, has the input's row count and ascending dates |
| Data.AlignedColumns | src/pairs_trading/data.py:39-45 | a ticker survives iff its forward-filled column has at least `min_overlap_days` prices, survivors keep their relative order, and each surviving column is the sorted, forward-filled original column |
| Data.AlignKeepsPositive | src/pairs_trading/data.py:39-45 | cleaning only moves and copies prices, so positive prices stay positive |
| Stats.Joint | src/pairs_trading/stats.py:32-33 | the inner-join dropna: the (y, x) rows of the dates with both prices, in date order, never more rows than dates |
| Stats.JointPrefix | src/pairs_trading/stats.py:33 | the joint dropna of a prefix is a prefix of the joint dropna |
| Stats.JointAt | src/pairs_trading/stats.py:33 | a date with both prices is one joint row, at the position given by the joint rows before it |
| Stats.JointMembers | src/pairs_trading/stats.py:33 | a pair of values is a joint row iff some date has exactly those two prices |
| Stats.JointAtMostDefined | src/pairs_trading/stats.py:12-14 | the joint rows are no more than the defined values of either series |
| Stats.EngleGrangerPValue | src/pairs_trading/stats.py:8-18 | the p-value is undefined iff fewer than 50 joint rows remain, and otherwise is the test's value on the joint rows |
| Stats.EngleGrangerShortSeries | src/pairs_trading/stats.py:12-16 | a series with fewer than 50 prices gives an undefined p-value |
| Stats.AdfPValue | src/pairs_trading/stats.py:20-25 | the ADF p-value is undefined iff fewer than 50 values are defined, and otherwise is the test's value on them |
| Stats.WindowBeta | src/pairs_trading/stats.py:40-45 | the slope at joint row k: undefined for the first lookback-1 rows, otherwise OLS over exactly the last lookback joint rows up to k |
| Stats.BetaAt | src/pairs_trading/stats.py:27-48 | the hedge ratio on a date from the dates up to it only: undefined unless both prices exist and at least lookback joint rows have been seen, otherwise OLS over the last lookback of them |
| Stats.BetaSeries | src/pairs_trading/stats.py:27-48 | the reference beta series: one beta per date, each the date's BetaAt |
| Stats.BetaAlongJoint | src/pairs_trading/stats.py:36-45 | on a date with both prices the beta is the window beta of its joint row, and it is undefined iff fewer than lookback-1 joint rows precede it |
| Stats.WindowOfPrefix | src/pairs_trading/stats.py:40-45 | the window of joint row k uses only joint rows up to k |
| Stats.BetaMissingPrice | src/pairs_trading/stats.py:47-48 | a date missing either price gets an undefined beta |
| Stats.BetaNoLookahead | src/pairs_trading/stats.py:40-45 | the beta on a date depends only on prices up to that date |
| Stats.ReindexJoint | src/pairs_trading/stats.py:47-48 | `reindex(y2.index)`: the joint-row values put back on their dates, one entry per date |
| Stats.ReindexAt | src/pairs_trading/stats.py:47-48 | reindexing to the inner-join index puts joint row values on dates with both prices and undefined elsewhere |
| Stats.RollingOlsBeta | src/pairs_trading/stats.py:27-48 | the window loop returns exactly the reference beta series |
| Stats.ReindexWindows | src/pairs_trading/stats.py:40-48 | reindexing the window slopes of the joint rows to every date gives the reference beta series |
| Signals.ComputeSpread | src/pairs_trading/signals.py:6-11 | the spread is y - beta*x, defined iff all three inputs are |
| Signals.SpreadOfRollingBeta | src/pairs_trading/signals.py:7-9 | with the rolling beta, the spread is defined iff both prices are there and at least lookback-1 joint rows came before |
| Signals.ZScoreAt | src/pairs_trading/signals.py:13-19 | z on day i: undefined before lookback values exist or when any value of the window is missing or the ddof=0 deviation is 0; otherwise (s_i - mean) / deviation over the window |
| Signals.RollingZScore | src/pairs_trading/signals.py:13-19 | one z-score per spread value, each the day's ZScoreAt |
| Signals.ZScoreWarmUp | src/pairs_trading/signals.py:15-17 | the first lookback-1 z-scores are undefined |
| Signals.ZScoreWindowOnly | src/pairs_trading/signals.py:15-17 | a z-score depends only on the last `lookback` values |
| Signals.ZScoreFlatWindow | src/pairs_trading/signals.py:16-17 | a constant full window has zero deviation and an undefined z-score |
| Signals.Transition | src/pairs_trading/signals.py:35-57 | one step of the state machine: an undefined z keeps the state; from flat z <= -entry goes long, else z >= entry goes short; from a position abs(z) <= exit goes flat |
| Signals.StateAfter | src/pairs_trading/signals.py:42-57 | the state after reading the first n z-scores, starting flat |
| Signals.Positions | src/pairs_trading/signals.py:39-60 | the reference positions: one per z-score, undefined where z is, else the state after that row |
| Signals.PositionsFromZ | src/pairs_trading/signals.py:21-60 | the loop emits exactly the state-machine positions |
| Signals.StateInRange | src/pairs_trading/signals.py:42-57 | the state is always -1, 0 or +1 |
| Signals.PositionValues | src/pairs_trading/signals.py:39-57 | every defined position is -1, 0 or +1 |
| Signals.UndefinedHoldsState | src/pairs_trading/signals.py:44-46 | an undefined z gives an undefined position and leaves the state unchanged |
| Signals.FromFlat | src/pairs_trading/signals.py:35-36 | from flat, z <= -entry goes long, otherwise z >= entry goes short, otherwise the position stays flat |
| Signals.FromPosition | src/pairs_trading/signals.py:37 | from a position, the pair goes flat iff abs(z) <= exit and otherwise holds |
| Signals.StateAcrossGap | src/pairs_trading/signals.py:44-46 | a run of undefined z-scores leaves the state unchanged |
| Signals.NoDirectReversal | src/pairs_trading/signals.py:48-55 | consecutive defined positions never jump between +1 and -1 |
| Signals.FirstPosition | src/pairs_trading/signals.py:42 | the first defined position is nonzero only past an entry threshold |
| Backtest.SimpleReturn | src/pairs_trading/backtest.py:34-35 | a one-day return is defined iff both prices are, takes the previous price to today's, and exceeds -1 |
| Backtest.ScaledWeights | src/pairs_trading/backtest.py:38-44 | raw weights p and -p*b scaled by lev over their gross exposure, a zero exposure giving undefined weights; the two legs are always defined together |
| Backtest.ExposureZeroIff | src/pairs_trading/backtest.py:41 | the gross exposure abs(p) + abs(p*b) is zero iff p is zero |
| Backtest.WeightsUndefinedIff | src/pairs_trading/backtest.py:41-44 | scaled weights are undefined iff the position or the beta is undefined, or the pair is flat |
| Backtest.GrossLeverageTarget | src/pairs_trading/backtest.py:41-44 | on a day with a position the absolute weights add up to the gross leverage |
| Backtest.WeightsShape | src/pairs_trading/backtest.py:38-44 | scaled weights keep the hedge ratio wx = -beta*wy, and the Y leg takes the position's sign |
| Backtest.YWeights | src/pairs_trading/backtest.py:43 | each Y weight is the scaled Y leg of that day |
| Backtest.XWeights | src/pairs_trading/backtest.py:44 | each X weight is the scaled X leg of that day |
| Backtest.CostRate | src/pairs_trading/backtest.py:56-57 | the cost per unit of turnover: (fee + slippage) / 10000 |
| Backtest.Assemble | src/pairs_trading/backtest.py:56-70 | the frame carries the gross returns and weights unchanged, with cost = turnover * rate and net = gross - cost |
| Backtest.PairReturns | src/pairs_trading/backtest.py:6-71 | as written: every column has the price series' length, gross and turnover follow the day rules, and cost and net are derived from them |
| Backtest.GrossAt | src/pairs_trading/backtest.py:47-50 | the gross return on day i: undefined on day 0, else yesterday's scaled weights times today's simple returns, summed over the legs |
| Backtest.TurnoverAt | src/pairs_trading/backtest.py:53-54 | the turnover on day i: undefined on day 0, else the absolute changes of the two scaled weights from yesterday, summed |
| Backtest.GrossReturnLagged | src/pairs_trading/backtest.py:47-50 | the gross return on day i is yesterday's weights times today's returns, and it is undefined if any part is |
| Backtest.GrossNoLookahead | src/pairs_trading/backtest.py:47-50 | the gross return on day i ignores today's position and beta, and every later value |
| Backtest.TurnoverNonNegative | src/pairs_trading/backtest.py:53-54 | turnover is undefined on the first day and never negative |
| Backtest.CostsNonNegative | src/pairs_trading/backtest.py:56-59 | with non-negative bps the cost is non-negative and the net return never exceeds the gross |
| Backtest.ExampleWeights | src/pairs_trading/backtest.py:38-44 | in the example, weights are +/-0.5 while in position and undefined when flat |
| Backtest.EntryAndExitNotCharged | src/pairs_trading/backtest.py:53-59 | as written: on the example, the entry and exit days have undefined turnover and cost, and the exit day's net return is undefined while its gross return is not |
| Backtest.ChargedTurnoverAt | src/pairs_trading/backtest.py:53-54 | corrected turnover is undefined only on day 0 and never negative |
| Backtest.PairReturnsCharged | src/pairs_trading/backtest.py:6-71 | corrected backtest: same gross returns and weights, with turnover measured on weights whose missing values count as 0 |
| Backtest.EntryTurnover | src/pairs_trading/backtest.py:53-57 | corrected: entering from flat or exiting to flat turns over exactly the gross leverage |
| Backtest.ChargedNetDefined | src/pairs_trading/backtest.py:56-59 | corrected: after day 0 the net return is defined iff the gross is, and cost is defined and non-negative |
| Backtest.ChargedExample | src/pairs_trading/backtest.py:56-59 | corrected, on the example: entry costs 1 bp and the exit day's net return is its gross minus 1 bp |
| Backtest.OnDate | src/pairs_trading/backtest.py:77 | a date's row holds every pair's value on that date |
| Backtest.EqualWeightPortfolio | src/pairs_trading/backtest.py:73-80 | with at least one pair the portfolio covers every date; an empty dict gives an empty portfolio |
| Backtest.PortfolioMean | src/pairs_trading/backtest.py:77-78 | with at least one pair, a date's portfolio return is undefined iff no pair has a value, lies between the pairs' bounds, and equals v when every defined value is v |
| Metrics.EquityCurve | src/pairs_trading/metrics.py:8-12 | the equity curve: one value per return, the cumulative product of 1 + r with missing returns as 0, times start |
| Metrics.EquityStep | src/pairs_trading/metrics.py:8-12 | equity starts at start*(1+r0) and then grows by (1+r_i), a missing return counting as 0 |
| Metrics.EquityMissingIsZero | src/pairs_trading/metrics.py:9 | a missing return and a zero return give the same curve |
| Metrics.EquityPositive | src/pairs_trading/metrics.py:10 | from a positive start, returns above -100% keep the equity positive |
| Metrics.EquityNonDecreasing | src/pairs_trading/metrics.py:10 | with no losing day the equity never falls |
| Metrics.AnnualizedReturn | src/pairs_trading/metrics.py:14-20 | the annualised return is undefined iff no return is defined |
| Metrics.SharpeDeviation | src/pairs_trading/metrics.py:27 | the annualised deviation is sqrt of the ddof=1 sample variance times sqrt(252) |
| Metrics.SharpeRatio | src/pairs_trading/metrics.py:22-28 | the Sharpe ratio is undefined with fewer than two defined returns; with two or more it is undefined iff the annualised deviation is 0, and otherwise its value times that deviation is the annualised mean |
| Metrics.SharpeFlat | src/pairs_trading/metrics.py:26-28 | equal returns have zero deviation, so the Sharpe ratio is undefined |
| Metrics.MaxDrawdown | src/pairs_trading/metrics.py:30-34 | the maximum drawdown is undefined iff no drawdown is defined, and is otherwise the smallest defined drawdown |
| Metrics.MaxDrawdownNonPositive | src/pairs_trading/metrics.py:30-34 | with every return above -100% the maximum drawdown is defined and at most 0 |
| Metrics.MaxDrawdownNoLosses | src/pairs_trading/metrics.py:30-34 | with no negative return the maximum drawdown is 0 |
| Metrics.Wins | src/pairs_trading/metrics.py:40 | the number of days whose return is defined and positive, counted on the raw series |
| Metrics.WinsCount | src/pairs_trading/metrics.py:37-40 | the positive values left by dropna are exactly the winning days, so `(r > 0).sum()` after dropna is `Wins` |
| Metrics.WinRate | src/pairs_trading/metrics.py:36-40 | the win rate is undefined iff no return is defined, and otherwise equals the number of winning days over the number of defined returns, in [0, 1] |
| Metrics.WinRateAllWins | src/pairs_trading/metrics.py:40 | all positive defined returns give a win rate of 1 |
| Metrics.FourSmallGains | src/pairs_trading/metrics.py:30-40 | four returns of 0.01 give a maximum drawdown of 0 and a win rate of 1 |
| Metrics.Summarize | src/pairs_trading/metrics.py:42-48 | the summary has exactly the four keys, each holding its metric |
| Plotting.EquityCurveFromReturns | src/pairs_trading/plotting.py:8-27 | the curve has the returns' length, starts at start*(1+r0) and grows by (1+r_i), a missing return counting as 0 |
| Plotting.AgreeAt | src/pairs_trading/plotting.py:24-25 | the two equity curves agree at every index |
| Plotting.SameAsMetricsCurve | src/pairs_trading/plotting.py:24-25 | the plotting curve equals the cumulative-product curve of metrics.py |
| Plotting.PlottedDrawdownNonPositive | src/pairs_trading/plotting.py:30-38 | from a positive start with returns above -100%, every plotted drawdown is defined and at most 0 |
| Plots.DefinedCount | src/plots.py:42 | the number of rows with a defined return |
| Plots.SortedDefined | src/plots.py:42-47 | the kept returns are sorted by date; each (date, v) occurs exactly as often as (date, v) occurs as a defined return, duplicates included; there is one kept row per defined return; nothing is kept iff no return is defined |
| Plots.Unwrap | src/plots.py:42 | taking the values out of all-defined rows keeps the number, order and dates of the rows |
| Plots.UnwrapCount | src/plots.py:42 | unwrapping keeps the multiplicity of every (date, value) pair |
| Plots.KeptCount | src/plots.py:42-47 | any arrangement of the unwrapped dropna rows holds (date, v) exactly as often as the input holds (date, Some(v)) |
| Plots.KeptMember | src/plots.py:42 | a (date, v) pair is kept iff it occurs as a defined return |
| Plots.KeptLength | src/plots.py:42-47 | any arrangement of the unwrapped dropna rows has one entry per defined return |
| Plots.KeptEmptyIff | src/plots.py:42-45 | no row is kept iff no return is defined |
| Plots.KeptMembers | src/plots.py:42-47 | dropna and sorting keep every defined return with its multiplicity, and nothing else |
| Plots.DuplicateDatesKept | src/plots.py:42-59 | two rows with the same date and return are both kept: the result is computed and its equity has two entries |
| Plots.Dates | src/plots.py:54-59 | the result's dates are the sorted returns' dates |
| Plots.Values | src/plots.py:49 | the compounded values are the sorted returns' values |
| Plots.Compounded | src/plots.py:49 | start times the cumulative product of 1 + r, one value per return |
| Plots.CompoundedStep | src/plots.py:49 | equity starts at start*(1+r0) and then grows by (1+r_i) |
| Plots.ComputeEquityAndDrawdown | src/plots.py:19-59 | the error is raised iff no return is defined; otherwise all four series have one entry per defined return, duplicate dates included, indexed by the sorted dates |
| Plots.EquityFollowsSortedReturns | src/plots.py:47-49 | equity compounds the date-sorted defined returns |
| Plots.DrawdownProperties | src/plots.py:50-52 | running max is at least equity and never falls; drawdown is at most 0 and is 0 iff at the running max; drawdown_pct is at most 0 for positive equity |
| Plots.CompoundedPositive | src/plots.py:49 | from a positive start, returns above -100% keep the equity positive |
| Plots.EquityPositive | src/plots.py:49 | with a positive start and returns above -100%, every equity value is positive |
| Cli.CombinationsFrom | src/pairs_trading/cli.py:20 | pairs (i, j) with start <= i < j < n, in strictly increasing lexicographic order |
| Cli.Block | src/pairs_trading/cli.py:20 | the pairs led by one index, by ascending partner |
| Cli.JoinBlocks | src/pairs_trading/cli.py:20 | a block for one leading index followed by blocks for larger ones stays in lexicographic order |
| Cli.Combinations | src/pairs_trading/cli.py:20 | every unordered pair of columns appears, as (i, j) with i < j, in lexicographic order |
| Cli.CombinationsDistinct | src/pairs_trading/cli.py:20 | no pair of columns is listed twice |
| Cli.Overlap | src/pairs_trading/cli.py:23-24 | `both.sum()`: the number of dates on which both columns have a price, at most the number of dates |
| Cli.CandidatesOf | src/pairs_trading/cli.py:20-27 | a row is scored iff its pair is listed and has enough overlap, carries the two tickers, and holds the pair's p-value |
| Cli.CandidatesStep | src/pairs_trading/cli.py:23-27 | scoring one more pair appends its row exactly when the overlap is enough |
| Cli.DropNa | src/pairs_trading/cli.py:28 | a row survives dropna iff its p-value is defined |
| Cli.Head | src/pairs_trading/cli.py:31 | head(n) is a prefix of length min(n, count), or all but the last -n rows when n is negative |
| Cli.Eligible | src/pairs_trading/cli.py:28-30 | the scored rows with a defined p-value, sorted by p-value, at or below the threshold |
| Cli.SelectPairsSpec | src/pairs_trading/cli.py:17-31 | what select_pairs returns: the first max_pairs eligible rows of the scored combinations |
| Cli.SelectPairs | src/pairs_trading/cli.py:17-31 | the loop returns exactly the specified selection |
| Cli.EligibleIff | src/pairs_trading/cli.py:18-30 | a row is eligible iff it names columns i < j by their tickers, the overlap is at least the minimum, and the p-value is defined and at most the threshold |
| Cli.SelectionSortedAndBelowThreshold | src/pairs_trading/cli.py:29-30 | the selection is in ascending p-value order and no p-value exceeds the threshold |
| Cli.SelectionIsBestEligible | src/pairs_trading/cli.py:31 | the selection is the first min(max_pairs, count) eligible rows |
| Cli.SelectedColumns | src/pairs_trading/cli.py:18-25 | every selected row names two columns, the first before the second, with enough overlap |
| Cli.PairKey | src/pairs_trading/cli.py:71 | the key is A ++ "__" ++ B, and A and B can be read back at the ends |
| Cli.PairSpread | src/pairs_trading/cli.py:53-54 | each pair's spread covers every date |
| Cli.PairBacktest | src/pairs_trading/cli.py:53-66 | each pair's net returns cover every date |
| Cli.Assign | src/pairs_trading/cli.py:72 | a dict assignment adds the key once, keeps other entries in place, stores the new value, and keeps keys distinct |
| Cli.AssignAll | src/pairs_trading/cli.py:48-72 | every stored value is one of the assigned values, and the dict is empty iff nothing was assigned |
| Cli.AssignAllStep | src/pairs_trading/cli.py:72 | one more loop iteration performs one more assignment |
| Cli.AssignAllContents | src/pairs_trading/cli.py:48-72 | the dict holds each assigned key once, with the value assigned to it last |
| Cli.PairKeys | src/pairs_trading/cli.py:71 | one key per selected pair, in order |
| Cli.NetSeries | src/pairs_trading/cli.py:58-72 | one net-return series per selected pair, covering every date |
| Cli.NetByPair | src/pairs_trading/cli.py:45-72 | every stored series covers every date, and the dict is empty iff no pair is selected |
| Cli.Diagnose | src/pairs_trading/cli.py:69-81 | one diagnostics dict: the pair key, the p-value, the ADF p-value of the spread, and n_days as the number of defined net returns |
| Cli.Diagnostics | src/pairs_trading/cli.py:74-81 | one diagnostics row per selected pair |
| Cli.DiagnosticsRows | src/pairs_trading/cli.py:69-81 | each row names its pair by key and repeats its p-value; n_days is at most the number of dates; the ADF p-value is undefined iff fewer than 50 spread values are defined |
| Cli.ReportOf | src/pairs_trading/cli.py:45-85 | the report of a run with pairs: the net-by-pair dict, the diagnostics, the equal-weight portfolio, its summary and its equity curve from 1 |
| Cli.BacktestPair | src/pairs_trading/cli.py:49-81 | one loop iteration yields the pair's key, its net returns and its diagnostics row |
| Cli.TradeLoop | src/pairs_trading/cli.py:48-81 | the loop over the selected pairs builds exactly the specified net-by-pair dict and diagnostics rows |
| Cli.TradePairs | src/pairs_trading/cli.py:48-85 | the loop and the portfolio step produce exactly the specified report |
| Cli.Run | src/pairs_trading/cli.py:33-85 | run stops with "not enough tickers" iff fewer than 2 columns survive cleaning, stops with "no pairs" iff none is selected, and otherwise reports the specified selection, backtests, portfolio, summary and equity |
| Cli.PairKeySet | src/pairs_trading/cli.py:71 | the keys of the selected pairs are exactly their `A__B` names |
| Cli.ReportLengths | src/pairs_trading/cli.py:83-85 | the portfolio and its equity cover every date when some pair is selected, and are empty otherwise |
| Cli.FinishedReport | src/pairs_trading/cli.py:71-85 | a report has one series per distinct pair key (that of the last pair with the key), a portfolio and equity over every date when some pair is selected and empty ones otherwise, and the four summary keys |
| Cli.NoPairsReport | src/pairs_trading/cli.py:83-85 | with no pairs, the dict, the portfolio and the equity are empty and every summary metric is undefined |

## Left out

- Downloading prices with `fetch_adj_close` (src/pairs_trading/data.py:6-30) is network I/O. `Cli.Run` takes the downloaded table as its input.
- `pd.to_datetime` on the index is not modelled. Dates are already day numbers.
- Argument parsing, `main`, `tqdm`, `print` and the printed tables in src/pairs_trading/cli.py are I/O and presentation and are not modelled. This includes the final `eq.iloc[0]` and `eq.iloc[-1]`.
- All matplotlib code in src/plots.py and src/pairs_trading/plotting.py renders figures and is not modelled. So is the `isinstance` TypeError check.
- statsmodels' `coint`, `adfuller` and `OLS`, the square root and the fractional power are uninterpreted function parameters. Only their undefined-result guards are modelled. The OLS slope is not given in closed form.
- IEEE floats are not modelled: no infinities, no NaN from 0/0, no rounding. A zero running peak gives an undefined drawdown, where floats would give inf or NaN.
- Prices must be positive wherever present: `Backtest.PairReturns` and `Cli.Run` require it. `pct_change` on a zero price would give inf.
- pandas index alignment (`align`, `reindex` in compute_spread and the backtest) is not modelled, because the series come pre-aligned. `pct_change` is modelled as the plain one-day return with no fill.
- Duplicate dates are not removed, just as in the source. The order among equal dates, and among equal p-values in `sort_values`, is a property of this model's sort, because pandas promises none.
- src/pairs_trading/config.py is only defaults; `Cli.DefaultConfig` records them. src/images.py and scripts/run_pipeline.py are not part of this model.
- Cli.Run: requires `beta_lookback >= 1` and `z_lookback >= 1`. A lookback of 0 would make pandas' rolling window and the source's slice bounds degenerate.
- Stats.RollingOlsBeta, Signals.ZScoreAt: these require `lookback >= 1` for the same reason.
- Stats.RollingOlsBeta: `sm.add_constant` (src/pairs_trading/stats.py:43) keeps its default `has_constant='skip'`. When every x in a window is the same nonzero value, for example a stale, forward-filled ticker, it therefore adds no intercept column, and `model.params[1]` (src/pairs_trading/stats.py:45) raises IndexError. The model's `ols` is a total function and returns a slope for such a window. So `Stats.BetaAlongJoint`'s "defined for every later joint row", and everything built on it, holds only for runs where no window's x values are constant and nonzero.
- Metrics.SharpeFlat: only "all returns equal implies undefined" is proved. The converse, that zero deviation implies equal returns, needs facts about squares and division that the model does not prove.
- Metrics.AnnualizedReturn: only its undefined-result guard is stated. Its value depends on the abstract `pow`.
- Metrics.SharpeRatio: its value is pinned down only through `value * SharpeDeviation == annualised mean`. The deviation is stated through the abstract `sqrt`, so the model cannot compute it further.
- Cli.Run, Cli.PairBacktest, Cli.BacktestPair: the backtest they run is `Backtest.PairReturnsCharged`, the corrected cost model of the finding below, not the as-written `Backtest.PairReturns`. `Cli.NetSeries`, `Cli.NetByPair`, `Cli.Diagnose`, `Cli.Diagnostics`, `Cli.TradeLoop`, `Cli.TradePairs`, `Cli.ReportOf` and `Cli.FinishedReport` inherit this through `Cli.PairBacktest`; for example `n_days` counts the corrected net returns.
- Cli.Candidate: a selected row carries its column indices alongside the tickers. `prices[A]` looks a column up by name, which is the same thing when the cleaned table's tickers are distinct.
- The `positions_from_z` docstring says `z > entry`, `z < -entry` and `|z| < exit`. The code compares with `>=`, `<=` and `<=`, and the model follows the code.

## Findings

| source | as written | input that shows it | evidently intended | confidence | as-written member | corrected member |
|---|---|---|---|---|---|---|
| src/pairs_trading/backtest.py:41-59 | A flat day has undefined scaled weights, because a zero gross exposure becomes NaN. So the turnover, and with it the cost, is undefined on every day the pair enters or leaves a position. No entry or exit is ever charged, and the exit day's net return is undefined although its gross return is defined. | py = 100, 101, 99, 100; px = 50 on every day; beta = 1; positions undefined, +1, +1, 0; fee 1 bp; leverage 1. Day 1 (entry) and day 3 (exit) have undefined turnover, and day 3's net return is undefined while its gross return is 1/198. | Entries and exits pay the per-leg fee on the full change of weights (a flat day counts as zero weight), as the config comment "per trade (entry/exit)" says, and the net return is defined wherever the gross return is. | not executed | Backtest.EntryAndExitNotCharged | Backtest.PairReturnsCharged |
