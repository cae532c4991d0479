# Trench simulator: price process and position ledger

A Dafny model of the logic inside the `MarketSimulator` component of a
browser paper-trading game. The component does two things:

- **Price process.** Every 500 ms a timer asks for a new OHLC candle. The
  candle opens at the previous close. Its close follows a random walk with
  a random drift, and a spike now and then multiplies the move. The new candle
  goes onto a price history that keeps the 200 most recent candles. Its close
  becomes the current price.
- **Position ledger.** The user holds a cash balance (200 at the start) and at
  most one long position, given by `investment` (the amount invested) and
  `investmentPrice` (its entry price). A purchase spends up to the balance. A
  sale of 25, 50, 75 or 100 percent credits the balance. Both append a line to
  the trade log.

Modules:

- `Basics` (basics.dfy): `Option`, `Instant`, and real `Min`/`Max`.
- `PriceProcess` (price_process.dfy): `Candle`, the draws one candle uses, the
  generator one formula at a time, `NextCandle`, and the history `Window`.
- `Ledger` (ledger.dfy): `Trade`, `Account`, `ProfitLoss`, and the pure
  transitions `BuyStep` and `SellStep`. It also holds the ledger invariant and
  lemmas about equity (cash plus the position marked to market).
- `Simulator` (simulator.dfy): the component's state as a value (`Snapshot`),
  one action as a reducer (`Step`), a session as `Run`, and the state invariant
  `Consistent`. The class `MarketSimulator` keeps the state in mutable fields.
  Its methods `OnTick`, `HandleBuy` and `HandleSell` update those fields in
  place. Each method is proved to leave `State() == Step(old(State()), event)`.

Modelling choices:

- Every `Math.random()` call becomes a field of `Draws`. `ValidDraws` says each
  field lies in [0,1). The spike-size draw is taken only when the spike fires;
  since the draws are independent, naming it a field changes nothing.
- `Date.now()` and `new Date()` become an `Instant` parameter. The model stores
  it and never computes with it.
- Prices and amounts are mathematical reals.
- The requested purchase amount is a `real`, not the text of the input field.
- The tick callback reads the price history captured when its effect last
  ran, and the effect re-runs only when the current price changes. The tick
  sets the current price and the history one after the other
  (MarketSimulator.tsx lines 56-57). React 18 batches these two updates
  automatically into one render. With that batching, the last close of any
  captured history equals the current price, so the callback builds the same
  candle as one reading the latest history. `OnTick` reads the latest
  history. The argument depends on that batching; React itself is not
  part of this model.

Where the code differs from a weighted-average-cost ledger, the model follows
the code:

- A purchase replaces the entry price with the current price. It does not
  average (MarketSimulator.tsx line 168). `Ledger.BuyForfeitsOpenProfit`
  proves what follows: a purchase throws away the unrealised pnl of the
  position already held.
- A sale credits `investment + pnl`, the whole position, whatever the
  percentage (lines 191-197). The two branches of the `pnl >= 0` test are
  identical and are modelled as one expression. `Ledger.PartialSellCreditsUnsoldShare`
  proves that a partial sale raises equity by the unsold part of the investment.
  `Ledger.FullSellKeepsEquity` proves that a full sale leaves equity unchanged.
- The SELL line records `amount: investment`, the position before the sale, not
  the amount sold (line 203).
- The entry price is therefore not a weighted average of the purchases. As the
  ledger invariant states, while a position is open it equals the price of the
  most recent BUY line in the log (`Ledger.LastBuyPrice`).
- A candle's low is not kept positive. `PriceProcess.LowCanBeNegative` gives
  draws for which a candle closing on the floor has a negative low. The floor
  of 1 applies only to the close.

## Model

| member | source | states |
|---|---|---|
| PriceProcess.Volatility | src/components/MarketSimulator.tsx:32-33 | for a draw in [0,1) the volatility lies in [8, 12) |
| PriceProcess.Bias | src/components/MarketSimulator.tsx:34-35 | for draws in [0,1) the drift lies strictly inside (-2, 2); it is 0 for a zero trend strength or a centred draw |
| PriceProcess.SpikeMultiplier | src/components/MarketSimulator.tsx:36-37 | the multiplier is 1 unless the spike draw exceeds 0.9; then it lies in [1, 3) |
| PriceProcess.WickVolatility | src/components/MarketSimulator.tsx:41 | for a draw in [0,1) and positive volatility the wick volatility lies in [volatility/2, volatility) |
| PriceProcess.NextCandle | src/components/MarketSimulator.tsx:29-52 | the candle opens at the previous close and is stamped now; the close is never below open + move nor below 1, and equals open + move unless it sits on 1, so it is the larger of 1 and open + move |
| PriceProcess.MoveBounded | src/components/MarketSimulator.tsx:33-40 | for draws in [0,1) the move of the close lies strictly inside (-90, 90) |
| PriceProcess.WickReachBounded | src/components/MarketSimulator.tsx:41-43 | for draws in [0,1) each wick reaches a distance in [0, 36) beyond the body |
| PriceProcess.NextCandleShape | src/components/MarketSimulator.tsx:39-43 | for draws in [0,1): high >= max(open, close), low <= min(open, close), the body falls by less than 90 and rises by less than 90 unless it sits on the floor, each wick is shorter than 36 |
| PriceProcess.LowCanBeNegative | src/components/MarketSimulator.tsx:43 | there are draws in [0,1) for which a candle following a close of 1 has a negative low |
| PriceProcess.Window | src/components/MarketSimulator.tsx:57-59 | the history after an append holds 1 to 200 candles; it ends with the new candle; it is the most recent suffix of old history plus the new candle, in order; nothing is dropped below capacity; at capacity it holds exactly 200 |
| PriceProcess.WindowKeepsChain | src/components/MarketSimulator.tsx:57-59 | if each candle opens at the previous close and the new candle opens at the last close, the window keeps that chain |
| Ledger.ProfitLoss | src/components/MarketSimulator.tsx:157-161 | the pnl is 0 when the investment or the entry price is not positive |
| Ledger.ProfitLossSign | src/components/MarketSimulator.tsx:157-161 | the pnl is 0 when investment <= 0 or entry price <= 0; otherwise it is positive iff the price is above the entry price and negative iff below |
| Ledger.ProfitLossMarksToMarket | src/components/MarketSimulator.tsx:157-161 | with a positive entry price, investment + pnl = investment * price / entry price |
| Ledger.LossBounded | src/components/MarketSimulator.tsx:157-161 | at a non-negative price the loss never exceeds the investment; at a positive price an open position loses strictly less than it |
| Ledger.ProfitLossScales | src/components/MarketSimulator.tsx:159 | the pnl of k times an investment is k times its pnl |
| Ledger.LastBuyPrice | src/components/MarketSimulator.tsx:175-181 | the result is 0 when every line is a SELL (or the log is empty), and otherwise 0 or the price of some BUY line; with positive prices it is positive iff the log holds a BUY line |
| Ledger.LastBuyPriceIsMostRecent | src/components/MarketSimulator.tsx:168 | if line i is a BUY and only SELL lines follow it, the result is the price of line i: the entry price comes from the most recent purchase |
| Ledger.BuyStep | src/components/MarketSimulator.tsx:163-183 | no change iff the request or the balance is not positive; a request at or above the balance spends exactly the balance; a smaller request spends exactly the request; the balance never goes negative from a non-negative start; balance + investment is unchanged; the entry price becomes the current price; the log gains one BUY line with the amount spent and no pnl |
| Ledger.SellStep | src/components/MarketSimulator.tsx:185-209 | no change without an open position; otherwise the pnl is the percentage share of the unrealised pnl; the balance gains investment + pnl; one SELL line holds the pre-sale investment, the price and that pnl; at 100 the investment and entry price become 0 and the balance becomes the old equity; at any other percentage the investment becomes investment - investment * percentage/100 and the entry price is kept |
| Ledger.PartialSellKeepsShare | src/components/MarketSimulator.tsx:187-198 | a sale of a percentage strictly between 0 and 100 leaves investment * (1 - percentage/100) invested, strictly between 0 and the old investment |
| Ledger.BuyKeepsValid | src/components/MarketSimulator.tsx:163-183 | a purchase at a positive price keeps the ledger invariant: balance, investment and entry price non-negative; entry price positive iff open; entry price equal to the last BUY price; every log line well formed |
| Ledger.SellKeepsValid | src/components/MarketSimulator.tsx:185-209 | a sale of (0, 100] percent at a positive price keeps the ledger invariant; in particular the credited amount never drives the balance negative |
| Ledger.SellKeepsBalance | src/components/MarketSimulator.tsx:187-197 | a sale of (0, 100] percent at a non-negative price never lowers the balance |
| Ledger.BuyForfeitsOpenProfit | src/components/MarketSimulator.tsx:166-168 | a purchase lowers equity at the purchase price by exactly the unrealised pnl held before it |
| Ledger.FullSellKeepsEquity | src/components/MarketSimulator.tsx:191-199 | a 100 percent sale leaves equity at the sale price unchanged |
| Ledger.PartialSellCreditsUnsoldShare | src/components/MarketSimulator.tsx:187-198 | a partial sale raises equity at the sale price by the investment still held afterwards |
| Ledger.TwoBuysThenHalfSell | src/components/MarketSimulator.tsx:163-209 | from 200: buying 50 at 100 and then 30 at 120 leaves entry price 120, investment 80 and balance 120; selling 50 percent at 120 gives balance 200, investment 40, and a SELL line of amount 80 with pnl 0 |
| Simulator.Step | src/components/MarketSimulator.tsx:54-60 | one action keeps the price history non-empty; a tick leaves the ledger alone, its new last candle opens at the old last close, and that candle's close becomes the current price; a purchase or a sale leaves the current price and the history unchanged |
| Simulator.InitialConsistent | src/components/MarketSimulator.tsx:9-22 | the mounted state (balance 200, no position, price 100, one flat candle) satisfies the state invariant |
| Simulator.TickKeepsHistory | src/components/MarketSimulator.tsx:54-60 | a tick with draws in [0,1) keeps the history between 1 and 200 candles, chained, with every candle well formed and closing at or above 1, and its last close as the current price |
| Simulator.StepKeepsConsistent | src/components/MarketSimulator.tsx:54-60 | a tick with draws in [0,1), any purchase, or a sale of (0, 100] percent keeps the state invariant; the trade log gains at most one line and keeps its earlier lines |
| Simulator.RunKeepsConsistent | src/components/MarketSimulator.tsx:175-207 | over any session of such actions the state invariant holds; the log grows by at most one line per action; the lines it started with are unchanged |
| Simulator.ReachableConsistent | src/components/MarketSimulator.tsx:9-22 | every state reached from mount keeps a non-negative balance and investment, a price of at least 1, and no more log lines than actions |
| Simulator.MarketSimulator.constructor | src/components/MarketSimulator.tsx:9-22 | the fields start as the mounted state and satisfy the invariant |
| Simulator.MarketSimulator.CalculateProfitLoss | src/components/MarketSimulator.tsx:157-161 | the result is ProfitLoss of the fields: investment * (price - entry price) / entry price, and 0 when the investment or the entry price is not positive; when open at a positive price, the loss is less than the investment |
| Simulator.MarketSimulator.OnTick | src/components/MarketSimulator.tsx:54-60 | the fields become the tick step of the old state: the next candle is appended to the window and its close becomes the current price; the invariant is kept |
| Simulator.MarketSimulator.HandleBuy | src/components/MarketSimulator.tsx:163-183 | the fields become BuyStep of the old ledger at the current price; price and history are unchanged; the invariant is kept |
| Simulator.MarketSimulator.HandleSell | src/components/MarketSimulator.tsx:185-209 | the fields become SellStep of the old ledger at the current price; price and history are unchanged; the invariant is kept |

## Left out

- Canvas drawing of the chart (`drawCandle`, `animate`, the animation frame loop) and the JSX layout: rendering only.
- The interval timer, its 500 ms period and its teardown: one tick is one call to `OnTick`.
- `Math.random()` and the clock: draws and instants are parameters.
- Parsing the amount field with `Number(...)`, and the NaN test on the clamped amount: the requested amount is a real, so NaN and infinities are not modelled.
- The toast notification after a purchase: a UI side effect.
- `formatPnL` and every `toFixed` call: rendering numbers as decimal text.
- The button `disabled` flags: they only stop calls that the guards in the handlers already turn into no-ops.
- The login and leaderboard components: remote storage, local storage and navigation.
- IEEE-754 rounding: all arithmetic is on mathematical reals.
- Simulator.MarketSimulator.HandleSell: requires a percentage in (0, 100], which is what the four sell buttons pass; the handler itself accepts any number.
