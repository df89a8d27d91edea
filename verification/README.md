# Long/short weight construction and static backtest, in Dafny

This project models the two algorithms at the centre of the `quant` package.

- **`construct_portfolio`**, the weight constructor. It reads one row per `Ticker, Prediction` line of a table (a ticker may repeat) and:
  1. sorts the rows by prediction, descending;
  2. goes long the first `top_n` rows at `1/top_n` each, and short the last `short_n` rows at `-1/short_n` each;
  3. clips every weight into `[-cap_per_name, cap_per_name]`;
  4. rescales the positive weights by their sum and the negative weights by the magnitude of theirs. Each side is rescaled only when its total is positive.

  The Streamlit page (`construct_from_df`) and the `POST /portfolio` endpoint repeat these steps line for line. The model treats them as two more callers of the same construction.
- **`backtest_portfolio`**, the static backtest. It takes a weights CSV path and a date range, fetches prices for the listed tickers, and then:
  1. computes simple returns;
  2. keeps the dates on which every column has a return;
  3. sums weight times return over the columns;
  4. compounds `1 + r` into an equity curve.

Numbers are `real`: the model computes exactly, without floating point.

## Modules

- `results.dfy` (`Results`): the `Result` type and the two ways a call can stop early. These are a division by zero for a zero count, and an uploaded table without the required columns.
- `ranking.dfy` (`Ranking`): prediction rows and the descending sort. pandas' `sort_values` defaults to an unstable quicksort, so the order among equal predictions is not fixed.
  - The sort is stated as a relation, `IsSortedPermutation`.
  - `SortDesc` is one function that meets it.
  - Lemmas show that any two sorted permutations agree on every prediction. When predictions are distinct, they are identical.
- `weights.dfy` (`Weights`): positions, clipping, the two side totals and the guarded per-side rescaling.
  - The source rescales with two in-place passes. `LongPass` and `ShortPass` model those passes.
  - `Normalize` states the same rescaling position by position.
  - `TwoPassesAgree` shows the two descriptions are the same.
- `construct.dfy` (`Construct`): the construction itself.
  - `Head` and `Tail` model pandas `head`/`tail`: they take `min(n, len)` rows.
  - `Build` runs the pipeline on one sorted order.
  - `ConstructPortfolio` is the whole function, including the division-by-zero error for a zero count.
  - Lemmas cover the properties listed in the table below, and the two worked examples.
- `entrypoints.dfy` (`Entrypoints`): the Streamlit page (widget bounds, the required-column check) and the HTTP endpoint.
- `backtest.dfy` (`Backtest`):
  - a price table whose rows hold prices for some of its columns;
  - `pct_change` followed by `dropna`;
  - `mul(weight_series, axis=1).sum(axis=1)` with pandas' label alignment: a column without a weight, or a weight without a column, adds nothing;
  - `cumprod`, and the assembled result rows.

## Model

| member | source | states |
|---|---|---|
| Ranking.SortDesc | quant/src/portfolio/construct.py:19 | The result is a permutation of the input rows (same multiset) ordered by prediction, non-increasing. |
| Ranking.NonIncreasingUnique | quant/src/portfolio/construct.py:19 | Two non-increasing sequences with the same multiset of values are equal, so any descending sort yields the same prediction column. |
| Ranking.SortedPermutationsAgree | quant/src/portfolio/construct.py:19 | Any two descending sorts of the same rows have the same length and the same prediction at every position. Ties may only swap rows with equal predictions. |
| Ranking.SortedPermutationUnique | quant/src/portfolio/construct.py:19 | With pairwise distinct predictions there is only one descending sort, so the unstable sort cannot change the result. |
| Ranking.PredictionsMultiset | quant/src/portfolio/construct.py:19 | Rearranging rows rearranges their predictions: equal row multisets give equal prediction multisets. |
| Ranking.PermutationKeepsDistinctTickers | quant/src/portfolio/construct.py:19 | Sorting cannot introduce a repeated ticker: a permutation of rows with distinct tickers has distinct tickers. |
| Construct.Head | quant/src/portfolio/construct.py:20 | `head(n)` keeps the first `min(n, len)` rows, unchanged and in order. |
| Construct.Tail | quant/src/portfolio/construct.py:21 | `tail(n)` keeps the last `min(n, len)` rows, unchanged and in order. |
| Construct.LongWeight | quant/src/portfolio/construct.py:23 | The initial long weight `1/top_n` lies in `(0, 1]` for every count of at least one. |
| Construct.ShortWeight | quant/src/portfolio/construct.py:24 | The initial short weight `-1/short_n` lies in `[-1, 0)` for every count of at least one. |
| Construct.EqualWeights | quant/src/portfolio/construct.py:20-25 | The concatenated table lists the long book (the first `min(top_n, n)` sorted tickers at `1/top_n`), then the short book (the last `min(short_n, n)` sorted tickers at `-1/short_n`). The denominator is the configured count, not the selected one. |
| Weights.Clip | quant/src/portfolio/construct.py:27 | A clipped weight lies in `[-cap, cap]`; a weight already in range is unchanged; one above or below goes to the nearer bound. |
| Weights.ClipAll | quant/src/portfolio/construct.py:27 | Clipping a table keeps its length and tickers, clips every weight into `[-cap, cap]`, and leaves in-range weights alone. |
| Construct.Clipped | quant/src/portfolio/construct.py:20-27 | After clipping, each long position holds `min(1/top_n, cap)` and each short `max(-1/short_n, -cap)`, on the same tickers and books. |
| Weights.LongTotal | quant/src/portfolio/construct.py:29 | `total_long`, the sum of the positive weights, is never negative. |
| Weights.ShortTotal | quant/src/portfolio/construct.py:30 | `total_short`, minus the sum of the negative weights, is never negative. |
| Weights.TotalZeroIff | quant/src/portfolio/construct.py:29-31 | `total_long` is 0 exactly when no weight is positive, and `total_short` is 0 exactly when no weight is negative. So the `> 0` guards skip precisely the empty sides (both directions). |
| Weights.TotalsConcat | quant/src/portfolio/construct.py:29-30 | Both side totals add up over a concatenation of tables. |
| Weights.TotalsDependOnWeightsOnly | quant/src/portfolio/construct.py:29-30 | Tables with the same weights in the same order have the same side totals, whatever their tickers. |
| Weights.RescaleLong | quant/src/portfolio/construct.py:32 | Dividing the positive weights by a positive total keeps length and tickers. Each positive weight becomes `w / total`, every other weight is unchanged, and exactly the positive weights stay positive. |
| Weights.RescaleShort | quant/src/portfolio/construct.py:34 | Dividing the negative weights by a positive total keeps length and tickers. Each negative weight becomes `w / total`, every other weight is unchanged, and exactly the negative weights stay negative. |
| Weights.RescaleLongTotals | quant/src/portfolio/construct.py:32 | Dividing the positive weights by `t` divides the long total by `t` and leaves the short total alone. |
| Weights.RescaleShortTotals | quant/src/portfolio/construct.py:34 | Dividing the negative weights by `t` divides the short total by `t` and leaves the long total alone. |
| Weights.LongPass | quant/src/portfolio/construct.py:29-32 | The guarded long rescale keeps tickers and signs and divides exactly the positive weights by `total_long`. A long side with total 0 is left as it was. Afterwards the long total is 1 (or stays 0) and the short total is unchanged. |
| Weights.ShortPass | quant/src/portfolio/construct.py:30-34 | The guarded short rescale keeps tickers and signs and divides exactly the negative weights by `total_short`. A short side with total 0 is left as it was. Afterwards the short total is 1 (or stays 0) and the long total is unchanged. |
| Weights.Normalize | quant/src/portfolio/construct.py:29-34 | Rescaling keeps length, order, tickers and the sign of every weight (both directions for positive and negative). |
| Weights.TwoPassesAgree | quant/src/portfolio/construct.py:29-34 | Running the long pass and then the short pass, with both totals taken first as the source does, gives the position-by-position `Normalize`. |
| Weights.NormalizeDividesBySideTotal | quant/src/portfolio/construct.py:29-34 | A positive weight ends as itself over a positive `total_long`, a negative one as itself over a positive `total_short`, and a zero weight stays zero. |
| Weights.NormalizeSideTotals | quant/src/portfolio/construct.py:29-34 | After rescaling, a side that held any weight sums to exactly 1 in magnitude, and an empty side still sums to 0. |
| Weights.NormalizeDependsOnWeightsOnly | quant/src/portfolio/construct.py:29-34 | Rescaling reads only the weights: equal weight columns give equal weight columns. |
| Construct.Build | quant/src/portfolio/construct.py:20-34 | The output has `min(top_n, n) + min(short_n, n)` rows. The first `min(top_n, n)` are the top sorted tickers, in order, with non-negative weights. The rest are the last sorted tickers, in order, with non-positive weights. |
| Construct.OverlapNotDeduplicated | quant/src/portfolio/construct.py:20-25 | The result has exactly `min(top_n, n) + min(short_n, n)` rows, with nothing merged. Every sorted row that falls in both windows appears twice, once in the long book and once at the matching place in the short book. With a positive cap the first entry is positive and the second negative. |
| Construct.FinalWeightsIgnoreCap | quant/src/portfolio/construct.py:23-34 | For any positive cap, every long ends at `1/min(top_n, n)` and every short at `-1/min(short_n, n)`, because the books are uniform and rescaling undoes the clip. |
| Construct.CapDoesNotBoundFinalWeights | quant/src/portfolio/construct.py:27-34 | With a positive cap below `1/min(top_n, n)`, every clipped weight is within the cap, yet the first final long weight exceeds it. `cap_per_name` does not bound the returned weights. |
| Construct.SidesSumToOne | quant/src/portfolio/construct.py:29-34 | With a positive cap and at least one row, the long weights sum to exactly 1 and the short weights to exactly -1. |
| Construct.ZeroCapGivesZeroWeights | quant/src/portfolio/construct.py:27-34 | With cap 0 every weight clips to 0. Both totals are 0, so neither side is rescaled and every returned weight is 0. |
| Construct.WeightsDependOnCountOnly | quant/src/portfolio/construct.py:20-34 | The weight column depends only on the number of rows and the parameters, not on the predictions. |
| Construct.SelectedPredictionsAgree | quant/src/portfolio/construct.py:19-25 | Two orders that agree on the prediction in every place select the same sequence of predictions into the two books. |
| Construct.TieOrderIrrelevant | quant/src/portfolio/construct.py:19-34 | Two descending sorts of the same rows give the same weight column and the same predictions in the selected rows. With distinct predictions they give the identical table. |
| Construct.ConstructPortfolio | quant/src/portfolio/construct.py:19-34 | Fails with a division by zero exactly when `top_n` or `short_n` is 0. Otherwise it returns `min(top_n, n) + min(short_n, n)` rows, built from some descending sort of the input. |
| Construct.ConstructAgreesWithEverySort | quant/src/portfolio/construct.py:19-34 | Whatever order the sort leaves ties in, the returned weights equal those built from any other descending sort of the rows. |
| Construct.ConstructTickersFromInput | quant/src/portfolio/construct.py:19-25 | Every returned ticker comes from an input row. |
| Construct.ConstructOnSortedRows | quant/src/portfolio/construct.py:19-34 | On rows already sorted descending, with distinct predictions, the result is the pipeline applied to the rows as given. |
| Construct.TwoLongTwoShort | quant/src/portfolio/construct.py:19-34 | For any `n >= 2` rows in order, top 2, short 2 and any positive cap, the result is the first two tickers at `.5` and the last two at `-.5`. |
| Construct.FiveDisjointBooks | quant/src/portfolio/construct.py:19-34 | With five sorted rows, top 2, short 2 and any positive cap, the result is `[(r0, .5), (r1, .5), (r3, -.5), (r4, -.5)]`. |
| Construct.OverlapOfThree | quant/src/portfolio/construct.py:19-34 | With three sorted rows, top 2, short 2 and any positive cap, the middle ticker is both long `.5` and short `-.5`. |
| Construct.ExampleFiveNames | quant/src/portfolio/construct.py:19-34 | A .9, B .5, C .1, D -.2, E -.9 with 2/2/0.5 gives A .5, B .5, D -.5, E -.5. |
| Construct.ExampleOverlap | quant/src/portfolio/construct.py:19-34 | A .9, B .5, C .1 with 2/2/1.0 gives A .5, B .5, B -.5, C -.5: B keeps long weight .5, since the long total is already 1. |
| Entrypoints.PageWeights | quant/src/app/streamlit_app.py:31-36 | The page rejects a table lacking `Ticker` or `Prediction` (and only such a table) with the missing-columns error. Within the widget bounds it otherwise returns at most 100 rows, built from a descending sort of the uploaded rows. |
| Entrypoints.PageAgreesWithConstructor | quant/src/app/streamlit_app.py:9-28 | Within the widget bounds (counts 1 to 50, cap 0 to 1) the page never divides by zero, and its result is exactly `construct_portfolio` on the same rows. |
| Entrypoints.ItemsToRows | quant/src/app/main.py:27 | The request's prediction items become a two-column table with one row per item, in order. |
| Entrypoints.PortfolioEndpoint | quant/src/app/main.py:27-44 | The endpoint fails with a division by zero exactly when a count is 0. Otherwise it returns `min(top_n, n) + min(short_n, n)` records: the construction applied to some descending order of the request's items. |
| Entrypoints.EndpointAgreesWithConstructor | quant/src/app/main.py:27-44 | With positive counts the endpoint answers with exactly `construct_portfolio`'s result on the request's items. Its weights are those the construction gives for every descending order of the items. |
| Entrypoints.EndpointTickerAtMostTwice | quant/src/app/main.py:27-34 | JSON keys are distinct, so each book lists a ticker at most once and no ticker appears three times in the response. |
| Backtest.ReturnAt | quant/src/portfolio/backtest.py:19 | A simple return from two positive prices is greater than -1. |
| Backtest.KeptBefore | quant/src/portfolio/backtest.py:19 | Among the first `n` dates, lists exactly the dates where every column has a return, strictly increasing. |
| Backtest.Kept | quant/src/portfolio/backtest.py:19 | Definition, with no contract of its own: `dropna` keeps a date when every column has a return on it. `KeptBefore` and `ReturnDates` state what follows from it. |
| Backtest.ReturnDates | quant/src/portfolio/backtest.py:19 | `dropna` keeps a date exactly when every column has a return there, in date order. When there is any column, the first date is never kept. |
| Backtest.SingleSeriesDates | quant/src/portfolio/backtest.py:19 | With one column priced on every date, every date but the first is kept. |
| Backtest.WeightOf | quant/src/portfolio/backtest.py:21-23 | Definition, with no contract of its own: the weight aligned to a column label, 0 when no entry has that label. `WeightOfAbsent` and `WeightOfOnlyMatch` state its values. |
| Backtest.WeightOfAbsent | quant/src/portfolio/backtest.py:21-23 | A column with no weight entry gets weight 0, as the row sum skips the missing product. |
| Backtest.WeightOfOnlyMatch | quant/src/portfolio/backtest.py:21-23 | When the weight tickers are distinct, a column gets the weight of its only matching entry. |
| Backtest.ColumnSum | quant/src/portfolio/backtest.py:23 | Definition, with no contract of its own: the row sum, over the columns, of aligned weight times return. `ColumnSumByHolding` relates it to the independent sum by holding. |
| Backtest.PortfolioReturn | quant/src/portfolio/backtest.py:19-23 | Definition, with no contract of its own: a kept date's portfolio return is the column sum over that date's returns. `PortfolioReturnByHolding` and `UnpricedHoldingContributesNothing` state its value. |
| Backtest.ColumnSumOfOne | quant/src/portfolio/backtest.py:23 | Over distinct columns, a single weight contributes `weight * return` of its own column if it has one, and 0 otherwise. |
| Backtest.ColumnSumSplit | quant/src/portfolio/backtest.py:23 | With distinct tickers, the weighted sum over the columns splits into the first holding's part plus the rest's. |
| Backtest.ColumnSumByHolding | quant/src/portfolio/backtest.py:21-23 | Summing weight times return by column equals summing it by holding, counting only holdings that have a column. |
| Backtest.PortfolioReturnByHolding | quant/src/portfolio/backtest.py:19-23 | On each kept date the portfolio return is the sum, over holdings with a price column, of weight times that column's return. |
| Backtest.UnpricedHoldingContributesNothing | quant/src/portfolio/backtest.py:21-23 | Adding a holding whose ticker has no price column leaves the portfolio return unchanged. |
| Backtest.PortfolioReturns | quant/src/portfolio/backtest.py:19-23 | One portfolio return per kept date, in date order. |
| Backtest.Equity | quant/src/portfolio/backtest.py:24 | One equity value per return. `EquityRecurrence` and `CumProd` state its values. |
| Backtest.EquityRecurrence | quant/src/portfolio/backtest.py:24 | The equity curve starts at `1 + r0`, and each later point is the previous one times `1 + r`. |
| Backtest.CumProd | quant/src/portfolio/backtest.py:24 | The running-product loop produces exactly the equity curve (the growth of every prefix). |
| Backtest.GrowthTelescopes | quant/src/portfolio/backtest.py:24 | Compounding the simple returns of a positive price path gives the current price over the first price. |
| Backtest.RunBacktest | quant/src/portfolio/backtest.py:19-25 | One result row per kept date, in date order, each carrying: the date; the sum over priced holdings of weight times return; and the compounded equity up to that date. |
| Backtest.ZeroWeightsFlatEquity | quant/src/portfolio/backtest.py:21-24 | With all weights 0, every portfolio return is 0 and the equity stays at 1. |
| Backtest.SingleHoldingReturn | quant/src/portfolio/backtest.py:19-23 | A single holding at weight 1 in a fully priced column earns that asset's simple return on each kept date. |
| Backtest.SingleHoldingTelescopes | quant/src/portfolio/backtest.py:19-24 | For a single holding at weight 1, the equity after each date is that date's price over the first date's price. |
| Backtest.TwoNamesDates | quant/src/portfolio/backtest.py:19 | In the two-name, two-date example only the second date is kept. |
| Backtest.TwoNamesDayReturns | quant/src/portfolio/backtest.py:19 | In the example, A returns 0.1 and B returns -0.1 on the second date. |
| Backtest.TwoNamesHoldingSum | quant/src/portfolio/backtest.py:23 | Weights 0.6 and 0.4 on returns 0.1 and -0.1 sum to 0.02. |
| Backtest.ExampleTwoNames | quant/src/portfolio/backtest.py:19-25 | A 100→110 and B 50→45, held at 0.6 and 0.4, give the return series `[0.02]` and the equity curve `[1.02]`. |

## Where the code and its own documentation differ

The model follows the code in each case.

- **Cap.** The docstring of `construct_portfolio` calls `cap_per_name` the "maximum absolute weight per ticker" (quant/src/portfolio/construct.py:13). The page's widget calls it the "maximum absolute weight per name" (quant/src/app/streamlit_app.py:11). In the code, the cap bounds only the clipped weights. Rescaling then restores each uniform side to `1/min(count, n)`, so a returned weight can exceed the cap (`FinalWeightsIgnoreCap`, `CapDoesNotBoundFinalWeights`).
- **Sort order.** The code calls `sort_values` with its default algorithm, quicksort, which is not stable (quant/src/portfolio/construct.py:19). Nothing fixes the order among equal predictions, so the model states the result for every descending sort (`ConstructPortfolio`, `TieOrderIrrelevant`).

## Left out

- **Input and output.** File I/O is not modelled: CSV reading and writing, `argparse`, and printing. Inputs are given as sequences of rows.
- **Presentation layers.** The Streamlit widgets and charts, and FastAPI's request parsing and JSON serialisation, are not modelled. The page and the endpoint are modelled from the point where they hold a table.
- **Price fetch.** `get_prices` needs the network, and date-range filtering belongs to it; neither is modelled. The model takes one aligned price table, dates by tickers, as a parameter.
- **The fetched prices' shape.** The code as written does not produce that table. `get_prices` returns a dictionary from ticker to a per-ticker price frame (quant/src/data/prices.py:5, 22-27), and `backtest_portfolio` calls `pct_change()` on that dictionary (quant/src/portfolio/backtest.py:19). A dictionary has no such method, so the function stops there before computing any return. The model assumes the fetch yields the aligned table that lines 19-25 evidently expect.
- **Forward-fill.** `pct_change`'s default forward-fill of missing prices is not modelled. A return exists only where both this date and the previous one carry a price.
- **Number representation.** Floating point, rounding and NaN are not modelled: arithmetic is exact over `real`, and a missing price is an absent map key. Prices are required to be positive, so a division by a zero price is not modelled.
- **Negative arguments.** Negative `top_n`, `short_n` and `cap_per_name` are excluded by preconditions. pandas gives `head`/`tail` with a negative count a different meaning, and clipping with reversed bounds is not modelled.
- **Duplicate weight tickers.** A weights file that lists a ticker twice is excluded (`UniqueTickers`): pandas' alignment of a Series with a duplicated index is not modelled. The constructor's own output is such a file whenever its books overlap (`OverlapNotDeduplicated`), so backtesting that output is outside the model.
- Construct.ConstructPortfolio: the order among rows with equal predictions is stated only as "some descending sort of the input", because the source's quicksort does not fix it. Weights and predictions are nonetheless determined (`ConstructAgreesWithEverySort`).
- Entrypoints.PageWeights: the result is stated through the same existential sort as `ConstructPortfolio`, for the same reason.
- Entrypoints.PortfolioEndpoint: the result is stated through the same existential sort as `ConstructPortfolio`, for the same reason (`EndpointAgreesWithConstructor` pins the weights).
- **Other modules.** Training, prediction, feature engineering and the fundamentals and macro fetchers are not part of this model.
