# Trading streams research — a Dafny model of the decision core

This project models the deterministic logic of a small crypto trading bot that
sits between the exchange's HTTP API and its order calls:

- two wavelet peak/valley strategies. `Wave_Strat` (`pv_wave.py`) builds a
  delayed signal column, its running-sum positions and the "last signal"
  report. `Wave_Strategy` (`peaks_valleys.py`) builds peak, valley, signal,
  delayed buy/sell flag and position columns and the "latest signal";
- the EMA and MACD crossover strategies (`ema.py`, `macd.py`);
- order-book shaping (`orderbook.py`): ladders projected to price/quantity
  lists, plus spread and spread percentage;
- fill pricing against the book and long/short profit after a fee
  (`profit_loss_logic.py`);
- account valuation (`account/main.py`): closed orders newest first and split
  by side; each non-zero balance replaced by a record with its cost basis,
  its liquidation value against the bids, the fee and the profit;
- the server's polling loops (`server.py`): one iteration reads the account and
  a strategy's signal and places at most one market order.

Modelling choices:

- Prices and quantities are `real` and signals are `int`.
- A pandas slot that can be NaN is an `Option` (`None` is NaN).
- A Python exception is the `Failure` case of a `Result`, naming the exception
  class the code runs into.
- Everything the code fetches over the network is a parameter: candles, order
  books, balances, closed orders. So is what the wavelet smoothing and the
  extrema finder compute (the peak and valley row indices). The exponential
  averages of the EMA and MACD strategies are computed by the model.
- An order is returned instead of being sent.
- Where the source updates an object's fields in place (`Wave_Strat`,
  `Wave_Strategy`), the model is a class whose methods modify those fields.
- The loops of the source (signal marking, the fill walk, the cost-basis
  search, the bid walk, the balance pass, the polling loops) are methods with
  loop invariants. Each is proved equal to a function, and the properties are
  lemmas about that function.

Two behaviours of the code that are easy to misread:

- `emaStrategy` reports the position, time and averages of row 0 of the
  time-ascending frame, i.e. the oldest candle, not the newest
  (src/strategies/ema.py:61-70). Its `execute_order` compares rows 0 and 1.
  Every `ewm(span).mean()` starts at its first input, so both averages equal
  the oldest close in row 0 and the reported position is always 0.
  `execute_order` is then "the fast average is above the slow one in row 1",
  and with the spans `run_ema` passes (12 and 26) that is "the second-oldest
  close is above the oldest". `run_ema` never buys; it sells 0.05 whenever
  that holds.
- `run_wave` keeps no signal state between iterations. Every iteration
  recomputes the strategy from freshly fetched candles and reads the holding
  from the account.

Files: `common.dfy` (Option, Result, exception kinds), `sorting.dfy`,
`orderbook.dfy`, `profit_loss.dfy`, `pv_wave.dfy`, `peaks_valleys.dfy`,
`ema.dfy`, `macd.dfy`, `account.dfy`, `server.dfy`.

## Model

| member | source | states |
|---|---|---|
| PvWave.MarkSignals | src/strategies/pv_wave.py:73-75 | the zero column gets -1 at every peak, then 1 at every valley: entry i is 1 at a valley, else -1 at a peak, else 0 (valleys win a clash) |
| PvWave.Shift | src/strategies/pv_wave.py:78 | shifting by the delay d keeps the length; the first d slots are NaN and slot i >= d holds entry i - d |
| PvWave.CumSum | src/strategies/pv_wave.py:83 | the skip-NaN running sum: a NaN slot stays NaN, any other slot is the sum of the present entries up to it |
| PvWave.PositionsAreRunningSums | src/strategies/pv_wave.py:78-83 | positions are NaN over the d leading slots, equal the first raw signal at row d, and from then on grow by exactly each row's signal |
| PvWave.LastNonZeroIndex | src/strategies/pv_wave.py:123-128 | the latest slot passing the `!= 0` filter (NaN passes), or none when every slot is 0 |
| PvWave.GetLastSignal | src/strategies/pv_wave.py:119-142 | an empty frame raises IndexError; without a non-zero slot the never-bound index raises; otherwise the report gives the last slot, 1/-1 by whether the latest non-zero slot is 1, periods since it in [0, n-1] (0 iff the last slot carries it), its close and the last close |
| PvWave.NoDelayFailsIffNoExtrema | src/strategies/pv_wave.py:119-140 | with no delay, the report fails exactly on an empty frame or when there is neither a peak nor a valley |
| PvWave.LeadingGapReportedAsSell | src/strategies/pv_wave.py:123-134 | with delay d > 0 and no real signal after the NaN slots, the last NaN slot is reported as a sell (-1) n - d periods back with its close |
| PvWave.WaveStrat.constructor | src/strategies/pv_wave.py:9-29 | constructing the strategy leaves the shifted signal column and its running-sum positions in the object |
| PvWave.WaveStrat.GenerateSignals | src/strategies/pv_wave.py:71-79 | the signal field becomes the marked column shifted by the delay |
| PvWave.WaveStrat.CalculateReturns | src/strategies/pv_wave.py:81-84 | the positions field becomes the running sum of the signal field |
| PeaksValleys.MarkColumns | src/strategies/peaks_valleys.py:63-72 | peak and valley flag columns are 1 exactly at the reported rows; the signal column is -1 at a peak, else 1 at a valley, else 0 (peaks win a clash) |
| PeaksValleys.DelayedFlag | src/strategies/peaks_valleys.py:75-76 | a flag column keeps the length, is NaN at row 0 and at row i >= 1 is 1 exactly when the signal of row i - 1 is the flagged value |
| PeaksValleys.FlagsNeverBothFire | src/strategies/peaks_valleys.py:75-76 | the buy and sell flags never fire on the same row |
| PeaksValleys.Positions | src/strategies/peaks_valleys.py:79 | the position of row i is the sum of the signals of the rows before it (0 at row 0) |
| PeaksValleys.PositionsStep | src/strategies/peaks_valleys.py:79 | the position starts at 0 and each row adds the previous row's signal |
| PeaksValleys.LatestNonZero | src/strategies/peaks_valleys.py:139-141 | the latest non-zero signal row, or none exactly when every signal is 0 |
| PeaksValleys.LatestSignal | src/strategies/peaks_valleys.py:130-143 | fails with IndexError exactly on an empty frame, at the last-row reads |
| PeaksValleys.LatestSignalOfColumns | src/strategies/peaks_valleys.py:130-143 | on the built columns the answer is -1, 0 or 1; it is 0 exactly when every signal is 0; a non-zero signal on the second-to-last row decides it; otherwise it is the latest non-zero signal |
| PeaksValleys.DelayedBuyOutranksNewerSell | src/strategies/peaks_valleys.py:133-141 | a valley on the second-to-last row and a peak on the last row answer 1, although the latest non-zero signal is the peak |
| PeaksValleys.WaveStrategy.constructor | src/strategies/peaks_valleys.py:9-48 | construction followed by `load_data`: the strategy holds the loaded frame and has no added columns yet |
| PeaksValleys.WaveStrategy.IdentifyPeaksValleys | src/strategies/peaks_valleys.py:50-76 | a missing price column raises KeyError and writes nothing; otherwise the peak, valley, signal and delayed flag columns are written |
| PeaksValleys.WaveStrategy.GeneratePositions | src/strategies/peaks_valleys.py:78-79 | without a signal column it raises KeyError; otherwise the position column is written from the signals |
| PeaksValleys.WaveStrategy.GetLatestSignal | src/strategies/peaks_valleys.py:120-143 | without the flag columns it raises KeyError; on an empty frame IndexError; otherwise -1, 0 or 1, and 0 exactly when no signal fired |
| Server.BaseHolding | server.py:62-64 | a missing base asset raises KeyError; a string entry reads as not held with balance 0, a record as held |
| Server.HeldIffNonZeroBalance | server.py:63-64 | after the balance pass the base asset reads as not held exactly when its parsed balance was 0 |
| Server.WaveDecision | server.py:92-108 | a market buy of `size` iff the latest signal is 1 and nothing is held, a market sell iff it is -1 and something is held, otherwise hold; never more than one order |
| Server.WaveStep | server.py:50-114 | one iteration: a missing base asset or a failing signal report raises before any order; an order always trades `size` of `base + quote` at market |
| Server.LastSignalOfMarkedExtrema | src/strategies/pv_wave.py:119-142 | on signals marking the extrema, the report succeeds exactly when there is an extremum, names the latest one, and calls it a buy exactly when it is a valley |
| Server.WaveStepOnLastSignal | server.py:92-108 | with the base asset present, an iteration applies the decision table to the latest signal and to whether the base is held, and raises when no signal was ever given |
| Server.DecisionOnLatest | server.py:92-108 | on the latest extremum, the decision table buys exactly when nothing is held and it is a valley, and sells exactly when something is held and it is a peak that is not a valley |
| Server.WaveTradesOnLatestExtremum | server.py:59-108 | end to end, `run_wave` buys exactly when the base is not held and the latest extremum is a valley, and sells exactly when it is held and the latest extremum is a peak that is not a valley |
| Server.RunWave | server.py:55-114 | every cycle is decided on its own data; an exception ends only its own iteration |
| Server.Replay | server.py:93-108 | replaying the decision over a run of signals gives one outcome per signal |
| Server.OrdersAlternate | server.py:93-108 | while orders fill, the orders placed alternate between buy and sell, the first a sell exactly when the asset was held |
| Server.EmaStep | server.py:27-41 | an order only when `execute_order` is set: a buy on position 1 and a sell otherwise, 0.05 of the reported pair at market; a failing strategy raises |
| Server.EmaTradesOnCrossover | server.py:14-41 | end to end, `run_ema` never buys; it sells the reported pair exactly when there are two rows, both spans are at least 1, and the fast average is above the slow one in row 1 |
| Server.EmaSellsIffSecondCloseRises | server.py:10-41 | with a fast span shorter than the slow one (12 and 26 by default), an iteration places a market sell of 0.05 exactly when the second-oldest candle closed above the oldest, and nothing else |
| Server.RunEma | server.py:11-47 | every iteration is decided on its own result; an exception ends only its own iteration |
| Account.OfSide | src/account/main.py:120-121 | the filter keeps exactly the orders of the given side, each as often as it occurs in the input, and drops the other side's |
| Account.OfSideAppend | src/account/main.py:120-121 | filtering a concatenation is the concatenation of the filtered parts, so the filter keeps the input's order |
| Account.OfSideKeepsNewestFirst | src/account/main.py:120-121 | filtering a newest-first list keeps it newest first |
| Account.GetClosedOrders | src/account/main.py:114-121 | the closed list is a permutation of the input sorted by close time descending; the buy and sell lists are the order-keeping filters of that list by side, each newest first |
| Account.ClosedOrdersKeepMultiplicity | src/account/main.py:114-121 | every buy occurs in the buy list as often as among the closed orders, every sell likewise in the sell list, and no order of the other side occurs |
| Account.CostBasisOf | src/account/main.py:54-58 | the cost of the first buy whose pair contains the asset name, and 0 when no buy matches |
| Account.CostBasisIsNewestMatchingBuy | src/account/main.py:54-58 | the cost basis belongs to a matching buy that closed no earlier than any other matching buy |
| Account.LookupCostBasis | src/account/main.py:54-58 | the search loop with its break computes that cost basis |
| Account.BidWalk | src/account/main.py:65-71 | the walk uses up at most the whole ladder |
| Account.BidWalkConserves | src/account/main.py:65-71 | the holding equals the quantities of the used-up levels plus the residual left in the `balance` field |
| Account.BidWalkStops | src/account/main.py:65-71 | each used-up level was below the balance left when reached; an early stop is at a level not below it |
| Account.BidWalkValue | src/account/main.py:65-71 | the value is the proceeds of the used-up levels plus the residual at the price of the level where the walk stopped |
| Account.WalkBids | src/account/main.py:65-71 | the loop computes the walk's value and residual |
| Account.Enrich | src/account/main.py:48-80 | the record's cost basis; value 0 and the balance whole when the book fails; otherwise value and residual from the bid walk; fee is 0.004 of the value, profit is value minus cost minus fee, after-execution value is value minus fee |
| Account.RecordBalanceIsResidual | src/account/main.py:65-71 | with a book on hand the record's `balance` is what the walk left, not the holding |
| Account.EnrichAsset | src/account/main.py:48-80 | the per-asset loop body computes that record |
| Account.EnrichBalances | src/account/main.py:43-80 | the loop over the assets: no asset is added or dropped; a zero balance keeps its original entry; every other becomes its record |
| Account.GetBalances | src/account/main.py:41-80 | the balance pass runs on the buy list of `getClosedOrders`: no asset is added or dropped, a zero balance keeps its entry, every other becomes its record with the cost basis from those buys |
| Sorting.SortBy | src/account/main.py:114 | the result is ordered by the key and is a permutation of the input |
| Sorting.SortPreservesLength | src/strategies/ema.py:37 | sorting keeps the number of rows |
| Sorting.SortedHeadIsLeast | src/strategies/ema.py:37 | the head of the sorted rows is an input row with the least key |
| Orderbook.ProjectLevels | src/execution/orderbook.py:16-17 | each level becomes its first two fields, in order; a level with fewer than two fields raises IndexError |
| Orderbook.GetOrderBookData | src/execution/orderbook.py:8-18 | a missing pair raises KeyError; the projected asks and bids keep their lengths |
| Orderbook.OrderBookData | src/execution/orderbook.py:32-52 | the four ladders are the price and quantity fields in order, the spread is best ask minus best bid, and percentage times best ask equals 100 times the spread; an empty side raises IndexError and a zero best ask raises ZeroDivisionError |
| Orderbook.SpreadPercentageWithinRange | src/execution/orderbook.py:34-39 | on an uncrossed book with non-negative prices the spread percentage lies in [0, 100] |
| ProfitLoss.FillLevels | src/execution/profit_loss_logic.py:9-21 | the loop's running totals end as the value and the amount the depth walk takes |
| ProfitLoss.CalculateEffectivePrice | src/execution/profit_loss_logic.py:3-24 | the loop computes the volume-weighted price of the depth walk, 0 when nothing fills |
| ProfitLoss.WalkConservesAmount | src/execution/profit_loss_logic.py:9-21 | filled amount plus amount still wanted equals the amount requested |
| ProfitLoss.WalkFillsUpToDepth | src/execution/profit_loss_logic.py:9-21 | with non-negative quantities the walk fills the smaller of the amount and the depth of the levels it can visit |
| ProfitLoss.WorkedExample | src/execution/profit_loss_logic.py:5-7 | 0.7 against the example bids takes 0.5 at 29900 and 0.2 at 29850 |
| ProfitLoss.ProfitOrLoss | src/execution/profit_loss_logic.py:26-77 | any position type other than "long" or "short" raises ValueError, and only those |
| ProfitLoss.LongShortMirror | src/execution/profit_loss_logic.py:50-75 | a long priced against a ladder gains exactly what a short priced against the same ladder loses |
| ProfitLoss.LongFullFillIsProceedsLessCost | src/execution/profit_loss_logic.py:50-72 | when the bids cover the amount, the long result is the walk's proceeds less the fee less the entry cost |
| ProfitLoss.LongPartialFillValuesWholeAmount | src/execution/profit_loss_logic.py:3-72 | when the bids are shallower than the amount, only the visible depth fills and the rest stays wanted, yet the long result values the whole amount at the depth's average price, less the fee, less the entry cost |
| ProfitLoss.ShortPartialFillValuesWholeAmount | src/execution/profit_loss_logic.py:3-75 | the same for a short against shallow asks: the entry value less the whole amount at the asks' average price net of the fee |
| ProfitLoss.LongEmptyBookLosesEntry | src/execution/profit_loss_logic.py:3-72 | with no visible bid depth the effective price is 0 and a long loses its whole entry cost |
| Ema.Alpha | src/strategies/ema.py:47-48 | the smoothing factor 2 / (span + 1) of a span of at least 1 lies in (0, 1] |
| Ema.AlphaFallsWithSpan | src/strategies/ema.py:47-48 | a longer span has a smaller factor |
| Ema.Weights | src/strategies/ema.py:47-48 | one weighted sum per row; row 0 is its input with weight 1, and every weight total is at least 1 |
| Ema.EwmAdjusted | src/strategies/ema.py:47-48 | the `adjust=True` average has one output per input and starts at the first input |
| Ema.EwmAdjustedSecondRow | src/strategies/ema.py:47-48 | the second output moves from the first input towards the second by 1 / (2 - alpha) of the step |
| Ema.FasterAboveIffRise | src/strategies/ema.py:47-51 | in row 1 the average with the larger factor is above the other exactly when the second input is above the first |
| Ema.CrossPosition | src/strategies/ema.py:51 | one position per row |
| Ema.EmaStrategy | src/strategies/ema.py:23-70 | no rows or a span below 1 raises ValueError, one row IndexError; otherwise the position is 0, both reported averages equal the oldest close, `execute_order` holds iff the fast average is above the slow one in row 1, and the time is the earliest row time |
| Ema.ExecutesIffSecondCloseRises | src/strategies/ema.py:37-69 | with a fast span shorter than the slow one, `execute_order` holds exactly when the second-oldest close is above the oldest |
| Macd.Ewm | src/strategies/macd.py:48-51 | the adjust=False average has one output per input and starts at the first input |
| Macd.EwmRecurrence | src/strategies/macd.py:48-51 | each later output is alpha times the input plus (1 - alpha) times the previous output |
| Macd.EwmBounded | src/strategies/macd.py:48-51 | with alpha in [0, 1] the average stays within any bounds the inputs keep |
| Macd.Indicators | src/strategies/macd.py:48-54 | every column has one entry per close; the position is 0 or 1, and 1 exactly where the histogram is positive |
| Macd.MacdStrategy | src/strategies/macd.py:24-59 | the frame is always read from "SOLUSD" (KeyError when absent, IndexError when empty); the answer is 0 or 1, and 1 iff the last histogram value is positive |
| Macd.FlatMarketStaysOut | src/strategies/macd.py:48-54 | a flat close series never goes long |

## Left out

- Network I/O is not modelled; its results are parameters. This covers the OHLC, depth, balance, trade-balance, closed-order, trade-volume and asset-pair requests, and `executeOrder`. `getAccountSummary` only wraps `getBalances` around such requests.
- `getBalances` returns the trade-balance response untouched next to the balances; that pass-through is not modelled.
- The order-book snapshots `getBalances` fetches per asset are modelled as one map from pair to book.
- Request signing (HMAC with SHA-512 and SHA-256, Base64) and the nonce clock are not modelled.
- The wavelet smoothing (`pywt`) and `scipy.signal.find_peaks` are foreign floating-point library code. The peak and valley row indices they return are inputs and must be in range.
- Parsing of the exchange's decimal strings to floats is not modelled: numbers arrive parsed. A zero balance's entry `Raw(amount)` stands for the original string, and an order's volume is the already formatted `str(size)`.
- The exponential averages are computed in exact real arithmetic; floating-point rounding is not modelled.
- Ema.CrossPosition: only its length is stated in its own contract. Its values are stated through `Ema.EmaStrategy` and `Macd.Indicators`.
- Sorting.SortBy: the sort is a stable insertion sort, like Python's `sorted` and a time sort. Stability itself (equal keys keep their order) is not proved.
- Human-readable times (`nice-time`), console output, colours, plots, sleeps, and the backtest columns and statistics (`returns`, `strategy_returns`, `cumulative_returns`, performance metrics) are not modelled.
- `run_wave` and `run_ema` loop forever. The model runs a finite sequence of iterations, each with its own fetched data.
- PvWave.WaveStrat.constructor: only non-negative signal delays are modelled. `run_wave` always uses 0.
- Errors that can only come from the fetched JSON's shape (missing `result` keys, wrong column counts other than an empty frame) are not modelled. The exceptions the decision logic itself reaches are modelled.
- Server.WaveStep: a failure while fetching or smoothing is not modelled; only the failures of the balance read and of `get_last_signal` are.
- Server.OrdersAlternate: it assumes every order fills and nothing else moves the balance, which the source does not guarantee.
