# EMA-crossover backtester

A Dafny model of the backtesting core of a Bithumb trading bot. The core has two parts.

- `strategy.py` computes an exponential moving average (EMA). It then derives a buy signal, the golden cross, and a sell signal, the dead cross.
- `backtest.py` replays those signals in an all-in/all-out single-asset simulator that charges a 0.04% fee. It searches a fixed 3×3 grid of `(ema_short, ema_long)` periods for the combination with the greatest final value.

The model is split into three modules:

- `Strategy` (`strategy.dfy`):
  - The EMA is the left fold `Fold`, seeded with the first close, with factor `Alpha(period) = 2 / (period + 1)`.
  - `calculate_ema` is the imperative method `CalculateEma`. Its loop is proved to compute that fold.
  - `should_buy` and `should_sell` are the pure functions `ShouldBuy` and `ShouldSell`. They work on a window of candle rows (`seq<real>`) whose close is column 4.
- `Backtest` (`backtest.dfy`):
  - The constants `grid` and `FEE_RATE` (backtest.py:6-11) are `EmaShorts`, `EmaLongs` and `FeeRate`. `GridCandidates` states what the grid yields, and `Simulate` runs with `FeeRate`.
  - `Step` and `StateAt` are the specification of the simulator. They give the portfolio `(cash, btc)` after each time step.
  - `FinalValue` is the mark-to-market value at the last close.
  - `Candidates` lists the combinations that the nested loops simulate, in loop order.
  - `Selected` is the "replace only on strictly greater" scan of the final values.
  - `optimize_params` is imperative. It is modelled as methods, each proved against those functions:
    - `Simulate` is the time loop, with the buy/sell branches written in place.
    - `TryParams` is one grid cell.
    - `SearchLongs` is the inner loop over `ema_long`.
    - `OptimizeOver` is the outer loop, over arbitrary candidate lists.
    - `OptimizeParams` runs on the fixed grid.
  - `Replay` carries out a fixed sequence of trades. It is used to show that the fee only ever scales the holdings down. `RunTrades` lists the trades a run makes, and a run is proved to be the replay of them.
- `Scenarios` (`scenarios.dfy`) is a worked run. With EMA(1)/EMA(2) on eight closes, a single golden cross at close 100 turns 1000 into 1099.56.

Prices and money are exact reals.

## Model

| member | source | states |
|---|---|---|
| Strategy.Alpha | strategy.py:5 | The smoothing factor is in (0, 2]. It is at most 1 exactly when period >= 1, and equals 1 exactly when period == 1. |
| Strategy.AlphaAntitone | strategy.py:5 | A longer period never gets a larger smoothing factor. |
| Strategy.Closes | strategy.py:15 | The close column has one entry per row, and entry i is column 4 of row i. |
| Strategy.Fold | strategy.py:7-8 | The smoothing loop from a given accumulator. With factor 1 each step forgets the accumulator, so the result is the last price. |
| Strategy.Ema | strategy.py:4-9 | The EMA is the fold seeded with the first close. On a one-element list the loop body never runs, so it is that element. With period 1 it is the last close. |
| Strategy.CalculateEma | strategy.py:4-9 | On a non-empty list (`closes[0]` is read), the loop returns the left fold of the smoothing step, seeded with the first close. |
| Strategy.FoldSnoc | strategy.py:7-8 | Appending a price to the fold applies one more smoothing step to the previous result. |
| Strategy.EmaSnoc | strategy.py:7-8 | ema(xs + [x]) == alpha*x + (1-alpha)*ema(xs) for non-empty xs. |
| Strategy.FoldWithin | strategy.py:7-8 | With a factor in [0, 1], each step is a convex combination, so the fold stays within any bounds that hold for the seed and every price. |
| Strategy.EmaWithinRange | strategy.py:5-8 | For period >= 1 the EMA lies between the least and the greatest close. |
| Strategy.WindowAverages | strategy.py:15-22 | The previous EMAs are over the closes without the last row, the current ones over all closes. With equal periods the short and long EMAs coincide, both previous and current. |
| Strategy.ShouldBuy | strategy.py:11-24 | A golden cross needs the short EMA to move from strictly below the long EMA to strictly above it. With equal periods it never fires. |
| Strategy.ShouldSell | strategy.py:26-39 | The dead cross never fires with equal periods. It never fires on data where the golden cross fires. |
| Strategy.SignalsReadOnlyCloses | strategy.py:15-24 | Windows with the same close column give the same buy and sell signals. |
| Strategy.CurrentFromPrevious | strategy.py:19-22 | Each current EMA is the previous EMA (over the closes without the last one) smoothed by one step with the last close. |
| Strategy.GoldenCrossNeedsCloseAboveLong | strategy.py:19-24 | For 1 <= ema_short <= ema_long, a golden cross fires only when the last close is above the previous long EMA. |
| Strategy.DeadCrossNeedsCloseBelowLong | strategy.py:34-39 | For 1 <= ema_short <= ema_long, a dead cross fires only when the last close is below the previous long EMA. |
| Backtest.WindowSize | backtest.py:24 | The warm-up window is max(ema_short, ema_long): at least both periods, and equal to one of them. |
| Backtest.Value | backtest.py:41 | The value `cash + btc * price` is the cash when no coin is held, the coin at the price when no cash is held, and non-negative for non-negative holdings and price. |
| Backtest.BuyQuantity | backtest.py:33 | The coin bought with all cash is worth, at the buy price, the cash less the fee fraction. |
| Backtest.SellProceeds | backtest.py:38 | Selling all coin yields its value at the price without a fee, and at most that value, but never below 0, with a fee in [0, 1]. |
| Backtest.Step | backtest.py:31-39 | On a buy signal with cash > price, the whole cash is converted. Otherwise, on a sell signal while holding coin, the whole coin is sold. Otherwise nothing changes. A step never both buys and sells. |
| Backtest.StepKeepsValid | backtest.py:31-39 | With a positive price and a fee in [0, 1], a step keeps cash and coin non-negative and keeps at least one of them at 0. |
| Backtest.StepChargesFee | backtest.py:31-39 | A trade changes the holding. It loses exactly the fee fraction of its value at the trade price. A step without a trade keeps the value. |
| Backtest.BuySellRoundTrip | backtest.py:31-39 | Buying with all cash and then selling at the same price leaves cash*(1-fee)^2 <= cash and no coin. |
| Backtest.StepAppliesTradeTaken | backtest.py:31-39 | A step carries out the trade its guards select: buy on a buy signal with cash > price, else sell on a sell signal while holding coin, else hold. |
| Backtest.ReplayProportional | backtest.py:33-39 | Over the same trades and prices, holdings proportional by k stay proportional. The factor is multiplied by 1 - fee at every buy and sell. |
| Backtest.ReplayChargesEveryTrade | backtest.py:33-39 | Over a fixed sequence of trades, the holdings with the fee are the fee-free holdings times (1 - fee)^k, with k the number of buys and sells. |
| Backtest.FeesNeverGain | backtest.py:33-41 | Over a fixed sequence of trades, the value at the last close with a fee in [0, 1] is never larger than without the fee. |
| Backtest.ReplaySnoc | backtest.py:29-39 | Replaying one more trade at one more price applies that trade to the replayed holdings. |
| Backtest.RunTrades | backtest.py:29-39 | A run up to row n makes one trade (possibly a hold) per row from the window size on: n - window of them, or none during the warm-up. |
| Backtest.RunNext | backtest.py:29-39 | The trade at row i is the branch the signals of the trailing window and the holdings before row i select, made at the close of row i. |
| Backtest.RunIsReplay | backtest.py:22-39 | The state of a run after row n is the replay, from all cash, of the trades the run makes at the closes of its rows. |
| Backtest.RunFeesNeverGain | backtest.py:22-41 | The final value of a run with FEE_RATE is never larger than the value at the last close of the same trades made without a fee. |
| Backtest.FeeCanChangeTrades | backtest.py:31-38 | The fee can change which trades a run makes. From 100.05 in cash, a buy and a sell at 100 leave less than 100 with the fee, so a later buy at 100 is skipped. Without the fee it is made. |
| Backtest.StateAt | backtest.py:22-39 | From (capital, 0), every state has cash == 0 or btc == 0. With non-negative capital and fee in [0, 1], both holdings stay non-negative. |
| Backtest.StateAtNext | backtest.py:26-39 | Step i (from the window size on) reads the trailing window of window+1 rows ending at row i, and the close of row i. |
| Backtest.WarmUpKeepsCapital | backtest.py:24-41 | With no more rows than max(ema_short, ema_long), no step runs and the final value is the initial capital. |
| Backtest.FinalValue | backtest.py:41 | The final value is the last state valued at the last close, with no exit fee. By Value and StateAt, that is the cash when the run ends out of the market and the coin at the last close otherwise. It is non-negative from a non-negative capital and a fee in [0, 1]. |
| Backtest.Simulate | backtest.py:22-41 | The time loop, with the buy/sell branches in its body, returns the final value of the run. |
| Backtest.PairsWith | backtest.py:18-20 | Every combination tried for one short period has that short period and a strictly longer long period. |
| Backtest.Candidates | backtest.py:17-20 | Every simulated combination has ema_short < ema_long. |
| Backtest.PairsWithMembership | backtest.py:18-20 | (es, el) is tried for es exactly when el is a candidate long period and es < el. |
| Backtest.CandidatesMembership | backtest.py:17-20 | A combination is simulated exactly when both periods come from the candidate lists and ema_short < ema_long. One with es >= el never is. |
| Backtest.NoCandidateWithoutShortBelowLong | backtest.py:14-20 | When no short period is below any long one, nothing is simulated. |
| Backtest.GridCandidates | backtest.py:6-9 | The fixed grid yields all nine combinations, in es-outer / el-inner order. None of them is skipped. |
| Backtest.FirstMaxUnique | backtest.py:42-44 | There is at most one first greatest final value. |
| Backtest.Selected | backtest.py:42-44 | The scan keeps nothing exactly when there is nothing to scan. Otherwise it keeps an index into the scanned values. |
| Backtest.SelectedSnoc | backtest.py:42-44 | One more value moves the selection to it when nothing is kept yet or it is strictly greater than the kept one. Otherwise the selection stays. |
| Backtest.SelectedIsFirstMax | backtest.py:42-44 | The kept index has the greatest value, and every earlier index has a strictly smaller one. Ties go to the first. |
| Backtest.TryParams | backtest.py:21-44 | One grid cell simulates the combination. The combination and its final value become the best when nothing is kept yet or the value is strictly greater; otherwise best and best value stay. |
| Backtest.SearchLongs | backtest.py:18-44 | The inner loop simulates exactly the long periods above es, in order, and keeps the first-greatest selection over everything simulated so far. It still has no best only when it had none and no long period is above es. |
| Backtest.SelectsFirstMax | backtest.py:42-46 | After the scan, the kept combination is the first with the greatest final value. |
| Backtest.OptimizeOver | backtest.py:13-46 | The search simulates exactly the valid combinations in loop order. It returns None exactly when there are none, and otherwise the first combination with the greatest final value. |
| Backtest.OptimizeParams | backtest.py:6-46 | On the fixed grid a combination is always returned. It comes from the grid, has ema_short < ema_long, and is the first of the nine with the greatest final value. |
| Scenarios.CrossOnThreeRows | strategy.py:11-39 | For periods 1 and 2 on closes a, b, c: buy iff b < a and 3c > 2b + a, and sell iff b > a and 3c < 2b + a. |
| Scenarios.ScenarioState | backtest.py:26-39 | On closes 100,100,100,90,100,110,110,110 the run stays in cash until the buy at row 4. It then holds 9.996 coin to the end. |
| Scenarios.GoldenCrossRun | backtest.py:22-41 | That run ends with the final value 1099.56 from a capital of 1000. |

## Left out

- `bot.py` and `bot-test.py` are live-trading glue: exchange calls, balance queries, notifications, sleeps and retries. The profit-target exit in the live loop is not part of the backtester. These files are not part of this model.
- The pandas DataFrame is a `seq<Row>` of numeric rows. The step price `df['close'].iloc[i]` is modelled as column 4 of row `i`, the same column the signals read. A frame whose `close` column is not column 4 is not modelled.
- A defect of the source: the only caller, bot.py:60-62, builds the frame with the columns `ts, o, h, l, c, v`. That frame has no `close` column, so `df['close']` at backtest.py:28 and backtest.py:41 raises KeyError as soon as a combination runs a step or reaches its final value. The model reads the close as column 4 throughout, which is the column `c` holds.
- Floating point is not modelled: prices and money are exact reals, with no rounding, NaN or infinities. The `-float('inf')` starting best is modelled as `None`. Any real final value beats it, as any finite float does.
- Simulate: requires every close to be positive. The source divides by the price only on a buy with cash > price, so a zero or negative price is not modelled.
- Simulate: requires at least one row and a close column in every row. The source fails on an empty frame when it reads the last close.
- Strategy.CalculateEma: requires a non-empty list. The source fails on `closes[0]`.
- Strategy.ShouldBuy and Strategy.ShouldSell: require at least two rows. The source fails on a single row, because `closes[:-1]` is then empty.
- The returned `params.copy()` dictionary is a `Params` value.
- When no combination is valid, the source returns None without raising, and `OptimizeOver` models that.
- Only the EMA crossover exists in the code. There is no MACD, RSI, Bollinger, ADX or reversal rule, and no entry price, so none is modelled.
- The EMAs of a signal are computed over the trailing window of max(ema_short, ema_long) + 1 rows, as the code does. An EMA over the whole series is not modelled. Scenarios.GoldenCrossRun proves that the code's trailing-window run on the eight-close example ends at 1099.56.
- Fee monotonicity of whole runs: a run with the fee is not compared with the same run without the fee. The `cash > price` guard at backtest.py:31 reads cash that earlier fees reduced, so the fee can change which trades happen (Backtest.FeeCanChangeTrades). The comparison is proved for a fixed sequence of trades (Backtest.FeesNeverGain), and so for the trades the fee-charging run itself makes (Backtest.RunFeesNeverGain).
- The grid loops are split into the methods `TryParams` and `SearchLongs`. The selection carries ghost bookkeeping of the simulated combinations and their values. The source keeps only `best_val` and `best_params`.
