# LQ45 stock dashboard: the time-series pipeline in Dafny

The dashboard compares the historical closes of stocks of the Indonesian
LQ45 index. A user picks tickers and a horizon. The script then:

- upper-cases the tickers and stores them, comma-joined, in the `stocks` URL parameter;
- stops on an empty selection;
- downloads the closes and names every ticker that came back without data;
- rebases every ticker's closes to 1 at the first date;
- reports the best and the worst stock by their final rebased value, and stops if that value is NaN;
- for two or more tickers, compares every ticker with the average of its peers;
- separately, computes the 50/200-row moving averages and the "golden cross" flag
  of one ticker, and the 21- and 252-row returns of one ticker's full history.

This project models that pipeline and proves what it promises. Prices are
exact `real`s. pandas' NaN is the constructor `Cells.NaN`. Dates are row
positions. A multi-ticker table is a `seq<Column>` with one column per
selected ticker, in selection order.

Modules, one per component:

- `Cells`: cells, NaN-aware division, subtraction and comparison.
- `Tickers`: the default ticker list, `",".join`, `str.split(",")`, upper-casing, the `stocks` parameter.
- `Normalizer`: the empty-column check, rebasing, and the best/worst pick. The pick keeps the
  dictionary comprehension's real behaviour: a repeated value keeps its first place and takes the
  later ticker, and every NaN is a key of its own. `max`/`min` are CPython's left folds under tuple
  comparison.
- `PeerComparator`: `peers.mean(axis=1)`, which skips NaN, and the per-ticker loop computing peer
  average and delta.
- `Crossover`: the rolling mean as a running-sum method, proved equal to a window-sum
  specification, and the golden-cross flag.
- `Returns`: `pct_change(k)` and the reconstruction of a series from its returns.
- `StockFrames`: the single-ticker tables the script builds in place, as a class whose
  methods add columns.
- `Dashboard`: one pass over a selection. The download is a parameter.

Six behaviours of the code are worth stating outright, since a reader might expect otherwise:

- Tie-break of best/worst: the result is deterministic. Equal final values share one dictionary
  key, so the later ticker in list order is reported, and the ticker part of the tuple comparison
  is never reached.
- Empty series: a table with no rows has an all-NaN column for every ticker, so the run stops with
  the data-load error before rebasing; no series is rebased by a missing first row.
- Peer average: pandas skips NaN cells, so the mean is over the other tickers that have a number at
  that date, and NaN if none has, rather than over all other tickers.
- That skipped NaN is dropped silently: the peer mean at a date does not show that some peer had no
  value there.
- A missing first or last close: such a column passes the empty-column check, but its final rebased
  value is NaN. In a dictionary that NaN is a key that no comparison beats, so when the ticker is
  listed first, `max` and `min` both return it. If it is listed later, a numeric key is reported.
  When the first ticker's final value is NaN, showing it with `round(value * 100)` (python-kode.py:172)
  raises `ValueError`. That ends the run before any chart, the peer comparison, or the golden-cross
  and raw-data sections. The model reports this stop as `MetricError`.
- Golden crosses need history: a flag needs a defined 200-row average on the row before, so it
  appears only from row 200 on (`Crossover.GoldenCrossNeedsHistory`). The golden-cross tables are
  downloaded over the dashboard's horizon (python-kode.py:307-308). The 1-, 3- and 6-month horizons
  hold fewer than 201 trading rows, so they can never show a golden cross. 6 months is the default.

## Model

| member | source | states |
|---|---|---|
| `Cells.Div` | python-kode.py:157 | a quotient is a number exactly when both operands are numbers and the divisor is nonzero, and then quotient times divisor is the dividend |
| `Cells.Sub` | python-kode.py:245 | a difference is a number exactly when both operands are, and then difference plus subtrahend is the minuend |
| `Tickers.Join` | python-kode.py:67-68 | `stocks_to_str`: the tickers in order with one comma between neighbours, the empty string for no ticker (specification function, no contract of its own; `SplitJoin` and `JoinSplit` state its relation to `Split`) |
| `Tickers.Split` | python-kode.py:71-73 | splitting on commas gives one more part than there are commas, and no part holds a comma |
| `Tickers.SplitJoin` | python-kode.py:67-73 | splitting the comma-joined list gives the list back, for a non-empty list of comma-free tickers |
| `Tickers.JoinSplit` | python-kode.py:67-73 | joining the parts of any split gives the string back |
| `Tickers.Upper` | python-kode.py:116 | upper-casing keeps the length, maps each ASCII lower-case letter to its capital, keeps every other character, and leaves no lower-case letter |
| `Tickers.UpperAll` | python-kode.py:116 | the upper-cased selection has one ticker per selected ticker (specification function: the body defines each as the upper-cased original) |
| `Tickers.UpperIdempotent` | python-kode.py:116 | upper-casing twice is upper-casing once |
| `Tickers.UpperJoin` | python-kode.py:116-119 | joining the upper-cased tickers is upper-casing the joined string |
| `Tickers.StocksParamAfter` | python-kode.py:118-121 | the `stocks` parameter is present exactly when the selection is non-empty |
| `Tickers.InitialTickers` | python-kode.py:70-73 | a new session starts from at least one comma-free ticker |
| `Tickers.ParamRoundTrip` | python-kode.py:118-121 | a session started from the parameter written for a comma-free selection starts from that selection, or from the default list when the selection was empty |
| `Tickers.SelectionRoundTrip` | python-kode.py:70-121 | a session started from the URL written for an upper-cased comma-free selection starts from that upper-cased selection, or from the default list when nothing was selected |
| `Normalizer.EmptyColumns` | python-kode.py:150 | the reported tickers are exactly those whose column is all NaN; the report is empty exactly when no column is all NaN |
| `Normalizer.NoEmptyColumnMeansRows` | python-kode.py:150-157 | once no column is all NaN, the table has a first row to rebase by |
| `Normalizer.NormalizeColumn` | python-kode.py:157 | the rebased column has the input's length; it is 1 at the first row when the first close is a nonzero number; a cell is a number exactly when its close and the first close are numbers and the first close is nonzero; each rebased value times the first close is the close |
| `Normalizer.Normalize` | python-kode.py:157 | the rebased table has one column per ticker, every column of the date axis' length (specification function: the body defines each column as `NormalizeColumn` of the input column) |
| `Normalizer.FinalValues` | python-kode.py:159 | one final value per ticker (specification function: the body defines each, in ticker order, as the cell of the last date of that ticker's rebased column) |
| `Normalizer.Store` | python-kode.py:159 | one dictionary assignment grows the item list by at most one item and never empties it (specification function: the body defines that a NaN key and a new numeric key are appended, and that a present numeric key keeps its place and takes the new ticker) |
| `Normalizer.LatestNormValues` | python-kode.py:159 | the dictionary comprehension has at most one item per ticker and at least one for a non-empty selection; `LatestNormValuesShape` states its contents |
| `Normalizer.NormalizeScaleFree` | python-kode.py:157 | scaling a column's prices by any nonzero factor leaves its rebased column unchanged |
| `Normalizer.LatestNormValuesShape` | python-kode.py:159 | the dictionary's first item carries the first ticker's value as key; numeric keys are distinct; each item maps to the last ticker in list order with that value, and every numeric final value is a key |
| `Normalizer.FirstItemFromFirstTicker` | python-kode.py:159 | when the first ticker's final value is NaN, the first item of the dictionary is that NaN with the first ticker |
| `Normalizer.LexLess` | python-kode.py:160-161 | Python's `<` on strings: code-point lexicographic order, a proper prefix being smaller (specification predicate) |
| `Normalizer.PairGt` | python-kode.py:160 | Python's `>` on (value, ticker) tuples: between equal numbers the tickers decide, otherwise the values, with every comparison involving NaN false (specification predicate) |
| `Normalizer.PairLt` | python-kode.py:161 | Python's `<` on (value, ticker) tuples, the mirror image of `PairGt` (specification predicate) |
| `Normalizer.MaxItem` | python-kode.py:160 | `max` returns an item of the list; the first item when its key is NaN; otherwise an item with a numeric key at least every numeric key |
| `Normalizer.MinItem` | python-kode.py:161 | `min` returns an item of the list; the first item when its key is NaN; otherwise an item with a numeric key at most every numeric key |
| `Normalizer.Best` | python-kode.py:160 | the best stock is an item of the dictionary; `BestIsHighest` and `FirstNaNIsBestAndWorst` state which |
| `Normalizer.Worst` | python-kode.py:161 | the worst stock is an item of the dictionary; `WorstIsLowest` and `FirstNaNIsBestAndWorst` state which |
| `Normalizer.BestIsHighest` | python-kode.py:159-160 | when the first ticker's final value is a number, the best stock's value is at least every ticker's numeric final value, and its ticker is the last in list order with that value |
| `Normalizer.WorstIsLowest` | python-kode.py:159-161 | when the first ticker's final value is a number, the worst stock's value is at most every ticker's numeric final value, and its ticker is the last in list order with that value |
| `Normalizer.FirstNaNIsBestAndWorst` | python-kode.py:159-161 | when the first ticker's final value is NaN, that ticker with NaN is reported as both best and worst |
| `Normalizer.PickIsNaNIffFirstNaN` | python-kode.py:159-161 | the best value, and likewise the worst value, is NaN exactly when the first ticker's final value is NaN |
| `PeerComparator.PeerMean` | python-kode.py:209-210 | the mean of the numeric cells of the other tickers at one date, NaN when no other ticker has a number there (specification function) |
| `PeerComparator.PeerAverage` | python-kode.py:209-210 | the peer-average column has the date axis' length (specification function: the body defines its cell at every date as the peer mean there) |
| `PeerComparator.PeerAverageExcludesSelf` | python-kode.py:209-210 | replacing ticker t's own column by any other column leaves t's peer average unchanged at every date |
| `PeerComparator.PeerMeanOfDefinedRow` | python-kode.py:209-210 | at a date where every ticker has a number, the peer average of t is the row total less t's value, divided by the number of other tickers |
| `PeerComparator.ComparePeers` | python-kode.py:207-246 | the loop yields one peer-average column and one delta column per ticker, in ticker order; each delta column has the date axis' length, and at every date the delta is the ticker's normalized value minus its peer average; the two lists are exactly the `PeerAverage` and `Delta` columns that `Dashboard.Analyze` reports |
| `PeerComparator.Delta` | python-kode.py:245 | the delta column has the date axis' length (specification function: the body defines its cell at every date as the ticker's rebased value minus its peer mean, NaN wherever either is NaN) |
| `Crossover.MovingAverage` | python-kode.py:274-275 | the moving average has the closes' length and is a number exactly at rows w-1 and later |
| `Crossover.MovingAverageWithinWindow` | python-kode.py:274-275 | at a defined row, the moving average lies between any lower and upper bound of the w closes that end there |
| `Crossover.RollingMean` | python-kode.py:274-275 | the one-pass running-sum computation equals the window-sum specification: NaN below row w-1, then the sum of the w closes ending at the row divided by w |
| `Crossover.CrossFlags` | python-kode.py:278-281 | the flag column has the averages' length, holds only 0 and 1, is 0 at the first row, and never has 1 on two consecutive rows |
| `Cells.Gt` | python-kode.py:279 | `a > b` on cells: true only when both are numbers and a is larger, so every comparison with NaN is false (specification predicate) |
| `Cells.Le` | python-kode.py:280 | `a <= b` on cells: true only when both are numbers and a is not larger (specification predicate) |
| `Crossover.CrossFlagMeaning` | python-kode.py:278-281 | the flag is 1 at d exactly when d >= 1, both averages are numbers at d and d-1, MA50 > MA200 at d, and MA50 <= MA200 at d-1 |
| `Crossover.GoldenCross` | python-kode.py:274-281 | the golden-cross column has one flag per close (specification function: the body defines it as the cross flags of the 50- and 200-row moving averages) |
| `Crossover.GoldenCrossNeedsHistory` | python-kode.py:274-281 | a golden cross on the closes can only be flagged at row 200 or later |
| `Crossover.OneCrossPerUpwardRun` | python-kode.py:278-281 | a run of rows where MA50 stays above MA200, after a row where it is at or below, holds exactly one flag, on the run's first row |
| `Crossover.NoCrossWhileBelow` | python-kode.py:278-281 | if MA50 is never above MA200, no row is flagged |
| `Returns.PctChange` | python-kode.py:375-376 | the return has the closes' length; it is a number exactly from row k on where the close k rows earlier is nonzero; there, that earlier close times 1 plus the return is the close |
| `Returns.ReturnSign` | python-kode.py:375-376 | for a positive earlier close, the return is positive exactly when the price rose, and zero exactly when it is unchanged |
| `Returns.RebuildFromReturns` | python-kode.py:375-376 | with nonzero closes, the first k closes and the k-row returns rebuild the whole series |
| `StockFrames.StockFrame.constructor` | python-kode.py:270-272 | a fresh table holds the downloaded closes and no added columns |
| `StockFrames.StockFrame.AddMovingAverages` | python-kode.py:274-275 | adds the 50- and 200-row moving averages and leaves the other columns unchanged |
| `StockFrames.StockFrame.AddGoldenCrossFlag` | python-kode.py:278-281 | adds the cross flag of the two averages and leaves the other columns unchanged |
| `StockFrames.StockFrame.SetCode` | python-kode.py:283 | sets the ticker-code column and leaves the other columns unchanged |
| `StockFrames.StockFrame.AddReturns` | python-kode.py:375-376 | adds the 21- and 252-row returns and leaves the other columns unchanged |
| `StockFrames.PrepareGoldenCrossData` | python-kode.py:270-284 | a new table holding the closes, the ticker code, both moving averages and the golden-cross flag of the closes |
| `StockFrames.LoadRawData` | python-kode.py:368-378 | a new table holding the closes, the ticker code and the 1-month and 1-year returns |
| `Dashboard.Present` | python-kode.py:200-246 | with numeric best and worst values, one ticker gives the single-stock report and two or more the comparison; the report carries the rebased table and the pick; per ticker, the peer average and a delta over the whole date axis that is the ticker's rebased value minus that average |
| `Dashboard.Analyze` | python-kode.py:150-246 | after a complete download with no empty column, the table has a row, it is rebased, and best and worst are picked from its final row. The run stops with `MetricError` exactly when the first ticker's final value is NaN, which is when rounding the best or worst value raises. Otherwise one ticker gives the single-stock report, and two or more give, per ticker, the peer average and a delta over the whole date axis that is the ticker's rebased value minus that average |
| `Dashboard.Run` | python-kode.py:116-246 | an empty selection stops with the prompt; a rate limit stops with the warning; a failed download stops with the error; tickers without data stop the run and are named; otherwise the result is the analysis of the upper-cased selection, single-stock only for one ticker and a comparison only for two or more |
| `Dashboard.TwoTickerExample` | python-kode.py:157-246 | closes [10, 20, 10] and [10, 10, 10] selected as "a" and "b" rebase to [1, 2, 1] and [1, 1, 1]; B is both best and worst; the peer averages are B's and A's columns; the deltas are [0, 1, 0] and [0, -1, 0] |
| `Dashboard.MissingLastCloseExample` | python-kode.py:150-178 | closes [10, 20, NaN] and [10, 10, 10] selected as "a" and "b" pass the empty-column check; A's final value is NaN, `max` and `min` both give (NaN, "A"), and the run stops at the rounding of the best value |

## Left out

- Page setup, widgets, containers, columns, the horizon pills and `horizon_map`, the multiselect's
  option list, the golden-cross and raw-data select boxes, and the `tail(50)` column selection
  (python-kode.py:9-15, 84-114, 128-130, 163-180, 286-305, 380-406): user interface only.
- Every chart (python-kode.py:183-198, 212-261, 310-357): presentation only.
- The yfinance downloads (python-kode.py:133-148, 271, 370): network I/O. The multi-ticker download
  is the `Fetch` parameter of `Dashboard.Run`, and the single-ticker closes are a parameter of
  `StockFrames.PrepareGoldenCrossData` and `StockFrames.LoadRawData`.
- `Dashboard.Run`: `RuntimeError` for a download of `None` is not caught by the script. The model
  ends the run with `FetchError` instead of an uncaught exception.
- The `st.cache_resource`/`st.cache_data` caches, their 6-hour lifetime and `load_data.clear()`
  (python-kode.py:133, 147, 368): framework behaviour that the script cannot see.
- The Prophet import (python-kode.py:7): unused.
- IEEE floating point: all arithmetic is exact. For a number, the `round(value * 100)` percentage
  shown beside the best and worst stock (python-kode.py:172, 178) is display formatting, and the
  model does not compute it. For NaN it raises, which the model keeps as the `MetricError` stop. An
  infinite value from a zero first close would raise too, but the model has no infinity (see `Cells.Div`).
- `Cells.Div`: division by a zero close gives NaN. pandas gives plus or minus infinity for a nonzero
  dividend. Closes are positive prices, so this only matters for bad data.
- `Tickers.Upper`: only the ASCII letters a-z are mapped. Python's `str.upper` also maps other
  Unicode letters, and some of them change length. Ticker symbols are ASCII.
- `Tickers.StocksParamAfter`: the writing of the parameter into the live URL and the session state
  (python-kode.py:70-81, 118-121) is a side effect. The model gives only the value written. The
  callback `update_query_param` (python-kode.py:77-81) computes the same value but is never
  registered, so it has no row of its own.
- `Normalizer.EmptyColumns`: the columns are in selection order. yfinance may order the columns of
  its table differently, which changes only the order of the named tickers.
- `Dashboard.Run`: the table has one column per position of the selection. If upper-casing makes two
  selected tickers equal, the real table has one shared column. That case is not modelled.
- `Returns.PctChange`: where the close k rows earlier is zero, the model gives NaN. pandas divides
  by that zero and gives plus or minus infinity for a nonzero close, and NaN only for 0/0. Closes
  are positive prices, so this only matters for bad data.
- `Crossover.RollingMean`: the closes of a single-ticker download are taken to be numbers. A NaN close,
  which pandas would carry into every window that holds it, is not modelled. The same holds for
  `Returns.PctChange`, where pandas would forward-fill it.
- Dates: rows are positions. `reset_index(inplace=True)` (python-kode.py:272, 371) only turns the
  date index into a column, so it has no counterpart.
- `Dashboard.Run`: the golden-cross and raw-data sections are not part of `Run`. They run only once
  the peer comparison has run, since every earlier `st.stop()` ends the script. Their stocks
  come from their own select boxes. They are modelled by `StockFrames.PrepareGoldenCrossData`
  and `StockFrames.LoadRawData`.
