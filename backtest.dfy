/** The grid-search backtester of backtest.py: an all-in/all-out portfolio
    simulator replaying the EMA-crossover rule, and an exhaustive search over
    (ema_short, ema_long) that keeps the first best combination.
 */
module Backtest {
  import opened Strategy

  datatype Option<T> = None | Some(value: T)

  /** Candidate short periods, iterated in the outer loop. */
  const EmaShorts: seq<nat> := [5, 10, 15]

  /** Candidate long periods, iterated in the inner loop. */
  const EmaLongs: seq<nat> := [20, 30, 50]

  /** Trading fee charged on both entry and exit notional (0.04%). */
  const FeeRate: real := 0.0004

  /** A price history the simulator can replay: non-empty (the final value
      reads the last close), every row has a close, every close is positive
      (a buy divides by it). */
  predicate ValidSeries(data: seq<Row>) {
    && |data| > 0
    && HasCloses(data)
    && forall i :: 0 <= i < |data| ==> data[i][CloseColumn] > 0.0
  }

  /** Number of rows before the first step: max(ema_short, ema_long). */
  function WindowSize(params: Params): (w: nat)
    ensures w >= params.emaShort && w >= params.emaLong
    ensures w == params.emaShort || w == params.emaLong
  {
    if params.emaShort >= params.emaLong then params.emaShort else params.emaLong
  }

  // ---------------------------------------------------------------------------
  // Portfolio simulator
  // ---------------------------------------------------------------------------

  /** Cash and coin held by one simulation run. */
  datatype Portfolio = Portfolio(cash: real, btc: real)

  /** Both holdings non-negative and the run fully in one asset. */
  predicate Valid(p: Portfolio) {
    p.cash >= 0.0 && p.btc >= 0.0 && (p.cash == 0.0 || p.btc == 0.0)
  }

  /** Mark-to-market value at `price`, with no fee on the open position. */
  function Value(p: Portfolio, price: real): (v: real)
    ensures p.btc == 0.0 ==> v == p.cash
    ensures p.cash == 0.0 ==> v == p.btc * price
    ensures p.cash >= 0.0 && p.btc >= 0.0 && price >= 0.0 ==> v >= 0.0
  {
    p.cash + p.btc * price
  }

  /** One time step: buy with all cash on a buy signal when the cash exceeds
      the price; otherwise sell all coin on a sell signal when holding coin;
      otherwise nothing changes. A step never both buys and sells. */
  function Step(s: Portfolio, buy: bool, sell: bool, price: real, fee: real): (r: Portfolio)
    requires price > 0.0
    ensures buy && s.cash > price ==> r.cash == 0.0
    ensures !(buy && s.cash > price) && sell && s.btc > 0.0 ==> r.btc == 0.0
    ensures !(buy && s.cash > price) && !(sell && s.btc > 0.0) ==> r == s
  {
    if buy && s.cash > price then Portfolio(0.0, BuyQuantity(s.cash, price, fee))
    else if sell && s.btc > 0.0 then Portfolio(SellProceeds(s.btc, price, fee), 0.0)
    else s
  }

  /** Coin bought with all `cash` at `price`, net of the fee. */
  function BuyQuantity(cash: real, price: real, fee: real): (q: real)
    requires price > 0.0
    ensures q * price == (1.0 - fee) * cash
  {
    (cash / price) * (1.0 - fee)
  }

  /** Cash from selling all `btc` at `price`, net of the fee. */
  function SellProceeds(btc: real, price: real, fee: real): (proceeds: real)
    ensures fee == 0.0 ==> proceeds == btc * price
    ensures btc >= 0.0 && price >= 0.0 && 0.0 <= fee <= 1.0 ==> 0.0 <= proceeds <= btc * price
  {
    NetWithin(btc, price, fee);
    btc * price * (1.0 - fee)
  }

  /** Keeping the fraction 1 - fee of a non-negative value leaves between 0
      and that value. */
  lemma NetWithin(btc: real, price: real, fee: real)
    ensures btc >= 0.0 && price >= 0.0 && 0.0 <= fee <= 1.0 ==> 0.0 <= btc * price * (1.0 - fee) <= btc * price
  {
    if btc >= 0.0 && price >= 0.0 && 0.0 <= fee <= 1.0 {
      MulNonNegative(btc, price);
      MulNonNegative(btc * price, fee);
      MulNonNegative(btc * price, 1.0 - fee);
    }
  }

  /** A step keeps both holdings non-negative and the run in one asset. */
  lemma StepKeepsValid(s: Portfolio, buy: bool, sell: bool, price: real, fee: real)
    requires price > 0.0 && 0.0 <= fee <= 1.0
    requires Valid(s)
    ensures Valid(Step(s, buy, sell, price, fee))
  {
    if buy && s.cash > price {
      assert s.cash / price > 0.0;
      assert BuyQuantity(s.cash, price, fee) >= 0.0;
    } else if sell && s.btc > 0.0 {
      assert s.btc * price > 0.0;
      assert SellProceeds(s.btc, price, fee) >= 0.0;
    }
  }

  /** A trade converts the whole holding and loses the fee fraction of its
      value at the trade price; a step without a trade keeps the value. */
  lemma StepChargesFee(s: Portfolio, buy: bool, sell: bool, price: real, fee: real)
    requires price > 0.0
    requires s.cash == 0.0 || s.btc == 0.0
    ensures var r := Step(s, buy, sell, price, fee);
            && ((buy && s.cash > price) || (sell && s.btc > 0.0) ==> r != s)
            && Value(r, price) == if r == s then Value(s, price) else (1.0 - fee) * Value(s, price)
  {
    if buy && s.cash > price {
      assert BuyQuantity(s.cash, price, fee) * price == s.cash * (1.0 - fee);
    }
  }

  /** Buying with all cash and selling back at the same price leaves the cash
      reduced by the fee twice: fees only lose value. */
  lemma BuySellRoundTrip(cash: real, price: real, fee: real)
    requires cash > price > 0.0
    requires 0.0 <= fee <= 1.0
    ensures var bought := Step(Portfolio(cash, 0.0), true, false, price, fee);
            var sold := Step(bought, false, true, price, fee);
            && sold.btc == 0.0
            && sold.cash == cash * (1.0 - fee) * (1.0 - fee)
            && sold.cash <= cash
  {
    var bought := Step(Portfolio(cash, 0.0), true, false, price, fee);
    assert bought.btc * price == cash * (1.0 - fee);
    if fee < 1.0 {
      assert bought.btc > 0.0 by {
        assert cash * (1.0 - fee) > 0.0;
      }
    }
    assert (1.0 - fee) * (1.0 - fee) <= 1.0;
    assert cash * ((1.0 - fee) * (1.0 - fee)) <= cash * 1.0;
  }

  // ---------------------------------------------------------------------------
  // Fees over a fixed sequence of trades
  // ---------------------------------------------------------------------------

  /** What a step does: convert all cash to coin, all coin to cash, or nothing. */
  datatype Trade = Buy | Sell | Hold

  /** The trade a step makes on its signals: the branch of Step it takes. */
  function TradeTaken(s: Portfolio, buy: bool, sell: bool, price: real): Trade {
    if buy && s.cash > price then Buy
    else if sell && s.btc > 0.0 then Sell
    else Hold
  }

  /** Carries out a trade whatever the guards say. */
  function Apply(s: Portfolio, t: Trade, price: real, fee: real): Portfolio
    requires price > 0.0
  {
    match t
    case Buy => Portfolio(0.0, BuyQuantity(s.cash, price, fee))
    case Sell => Portfolio(SellProceeds(s.btc, price, fee), 0.0)
    case Hold => s
  }

  /** A step carries out the trade its guards select. */
  lemma StepAppliesTradeTaken(s: Portfolio, buy: bool, sell: bool, price: real, fee: real)
    requires price > 0.0
    ensures Step(s, buy, sell, price, fee) == Apply(s, TradeTaken(s, buy, sell, price), price, fee)
  {
  }

  predicate Positive(prices: seq<real>) {
    forall k :: 0 <= k < |prices| ==> prices[k] > 0.0
  }

  /** Carries out `trades[k]` at `prices[k]`, in order. */
  function Replay(s: Portfolio, trades: seq<Trade>, prices: seq<real>, fee: real): Portfolio
    requires |trades| == |prices| && Positive(prices)
    decreases |trades|
  {
    if trades == [] then s
    else Replay(Apply(s, trades[0], prices[0], fee), trades[1..], prices[1..], fee)
  }

  /** Number of trades that convert the holding, each charged one fee. */
  function TradeCount(trades: seq<Trade>): nat
    decreases |trades|
  {
    if trades == [] then 0
    else (if trades[0] == Hold then 0 else 1) + TradeCount(trades[1..])
  }

  function Pow(b: real, k: nat): real {
    if k == 0 then 1.0 else b * Pow(b, k - 1)
  }

  /** Both holdings of `a` are those of `f` multiplied by `k`. */
  predicate Proportional(a: Portfolio, f: Portfolio, k: real) {
    a.cash == k * f.cash && a.btc == k * f.btc
  }

  /** A trade with a fee on holdings proportional to fee-free ones keeps them
      proportional, the factor shrinking by 1 - fee when the trade converts
      the holding. */
  lemma ApplyProportional(a: Portfolio, f: Portfolio, t: Trade, price: real, fee: real, k: real)
    requires price > 0.0 && Proportional(a, f, k)
    ensures Proportional(Apply(a, t, price, fee), Apply(f, t, price, 0.0), if t == Hold then k else k * (1.0 - fee))
  {
    match t
    case Buy =>
      assert a.cash / price == k * (f.cash / price);
      assert (k * (f.cash / price)) * (1.0 - fee) == k * (1.0 - fee) * ((f.cash / price) * (1.0 - 0.0));
    case Sell =>
      assert (k * f.btc) * price * (1.0 - fee) == k * (1.0 - fee) * (f.btc * price * (1.0 - 0.0));
    case Hold =>
  }

  lemma {:induction false} ReplayProportional(a: Portfolio, f: Portfolio, trades: seq<Trade>, prices: seq<real>,
                                              fee: real, k: real)
    requires |trades| == |prices| && Positive(prices)
    requires Proportional(a, f, k)
    ensures Proportional(Replay(a, trades, prices, fee), Replay(f, trades, prices, 0.0),
                         k * Pow(1.0 - fee, TradeCount(trades)))
    decreases |trades|
  {
    if trades != [] {
      var t, rest, ps := trades[0], trades[1..], prices[1..];
      var k' := if t == Hold then k else k * (1.0 - fee);
      assert Positive(ps);
      ApplyProportional(a, f, t, prices[0], fee, k);
      ReplayProportional(Apply(a, t, prices[0], fee), Apply(f, t, prices[0], 0.0), rest, ps, fee, k');
      ReplayProportionalStep(a, f, trades, prices, fee, k, k');
    } else {
      ProportionalSame(a, f, k, k * Pow(1.0 - fee, TradeCount(trades)));
    }
  }

  /** The step of ReplayProportional: proportionality after the first trade
      with factor k' gives it over the whole list with factor k. */
  lemma ReplayProportionalStep(a: Portfolio, f: Portfolio, trades: seq<Trade>, prices: seq<real>,
                               fee: real, k: real, k': real)
    requires |trades| == |prices| && Positive(prices) && trades != []
    requires k' == if trades[0] == Hold then k else k * (1.0 - fee)
    requires Positive(prices[1..])
    requires Proportional(Replay(Apply(a, trades[0], prices[0], fee), trades[1..], prices[1..], fee),
                          Replay(Apply(f, trades[0], prices[0], 0.0), trades[1..], prices[1..], 0.0),
                          k' * Pow(1.0 - fee, TradeCount(trades[1..])))
    ensures Proportional(Replay(a, trades, prices, fee), Replay(f, trades, prices, 0.0),
                         k * Pow(1.0 - fee, TradeCount(trades)))
  {
    FactorStep(trades, fee, k, k');
    assert Proportional(Replay(Apply(a, trades[0], prices[0], fee), trades[1..], prices[1..], fee),
                        Replay(Apply(f, trades[0], prices[0], 0.0), trades[1..], prices[1..], 0.0),
                        k' * Pow(1.0 - fee, TradeCount(trades[1..])));
    assert k' * Pow(1.0 - fee, TradeCount(trades[1..])) == k * Pow(1.0 - fee, TradeCount(trades));
    ProportionalSame(Replay(Apply(a, trades[0], prices[0], fee), trades[1..], prices[1..], fee),
                     Replay(Apply(f, trades[0], prices[0], 0.0), trades[1..], prices[1..], 0.0),
                     k' * Pow(1.0 - fee, TradeCount(trades[1..])), k * Pow(1.0 - fee, TradeCount(trades)));
  }

  lemma ProportionalSame(a: Portfolio, f: Portfolio, c: real, d: real)
    requires Proportional(a, f, c) && c == d
    ensures Proportional(a, f, d)
  {
  }

  /** The factor after the first trade, times the fee powers still to come,
      is the factor over the whole list. */
  lemma FactorStep(trades: seq<Trade>, fee: real, k: real, k': real)
    requires trades != []
    requires k' == if trades[0] == Hold then k else k * (1.0 - fee)
    ensures k' * Pow(1.0 - fee, TradeCount(trades[1..])) == k * Pow(1.0 - fee, TradeCount(trades))
  {
    var p := Pow(1.0 - fee, TradeCount(trades[1..]));
    if trades[0] != Hold {
      assert TradeCount(trades) == TradeCount(trades[1..]) + 1;
      assert k * (1.0 - fee) * p == k * ((1.0 - fee) * p);
    }
  }

  /** Over a fixed sequence of trades, the holdings with a fee are the
      fee-free holdings scaled by (1 - fee) once per converting trade. */
  lemma ReplayChargesEveryTrade(s: Portfolio, trades: seq<Trade>, prices: seq<real>, fee: real)
    requires |trades| == |prices| && Positive(prices)
    ensures Proportional(Replay(s, trades, prices, fee), Replay(s, trades, prices, 0.0),
                         Pow(1.0 - fee, TradeCount(trades)))
  {
    ReplayProportional(s, s, trades, prices, fee, 1.0);
  }

  lemma {:induction false} ReplayNonNegative(s: Portfolio, trades: seq<Trade>, prices: seq<real>, fee: real)
    requires |trades| == |prices| && Positive(prices)
    requires s.cash >= 0.0 && s.btc >= 0.0 && 0.0 <= fee <= 1.0
    ensures var r := Replay(s, trades, prices, fee);
            r.cash >= 0.0 && r.btc >= 0.0
    decreases |trades|
  {
    if trades != [] {
      var price := prices[0];
      MulNonNegative(s.cash / price, 1.0 - fee);
      assert Positive(prices[1..]);
      ReplayNonNegative(Apply(s, trades[0], price, fee), trades[1..], prices[1..], fee);
    }
  }

  lemma {:induction false} PowWithin(b: real, k: nat)
    requires 0.0 <= b <= 1.0
    ensures 0.0 <= Pow(b, k) <= 1.0
  {
    if k > 0 {
      PowWithin(b, k - 1);
      MulNonNegative(b, Pow(b, k - 1));
      MulNonNegative(b, 1.0 - Pow(b, k - 1));
    }
  }

  /** Fees never gain: over the same trades and prices, the value at any
      non-negative close with a fee in [0, 1] is no larger than without a fee. */
  lemma FeesNeverGain(s: Portfolio, trades: seq<Trade>, prices: seq<real>, fee: real, last: real)
    requires |trades| == |prices| && Positive(prices)
    requires s.cash >= 0.0 && s.btc >= 0.0 && 0.0 <= fee <= 1.0 && last >= 0.0
    ensures Value(Replay(s, trades, prices, fee), last) <= Value(Replay(s, trades, prices, 0.0), last)
  {
    ReplayChargesEveryTrade(s, trades, prices, fee);
    ReplayNonNegative(s, trades, prices, 0.0);
    PowWithin(1.0 - fee, TradeCount(trades));
    ProportionalValue(Replay(s, trades, prices, fee), Replay(s, trades, prices, 0.0),
                      Pow(1.0 - fee, TradeCount(trades)), last);
  }

  lemma ProportionalValue(r: Portfolio, free: Portfolio, k: real, last: real)
    requires Proportional(r, free, k) && 0.0 <= k <= 1.0
    requires free.cash >= 0.0 && free.btc >= 0.0 && last >= 0.0
    ensures Value(r, last) <= Value(free, last)
  {
    assert Value(r, last) == k * Value(free, last) by {
      assert (k * free.btc) * last == k * (free.btc * last);
    }
    MulNonNegative(free.btc, last);
    MulNonNegative(1.0 - k, Value(free, last));
  }

  /** The fee can change which trades a run makes: after a buy and a sell at
      100 starting from 100.05 in cash, the fee leaves less than 100 and a
      later buy at 100 is skipped, while without a fee it is made. */
  lemma FeeCanChangeTrades()
    ensures var start := Portfolio(100.05, 0.0);
            var withFee := Step(Step(start, true, false, 100.0, FeeRate), false, true, 100.0, FeeRate);
            var noFee := Step(Step(start, true, false, 100.0, 0.0), false, true, 100.0, 0.0);
            && TradeTaken(withFee, true, false, 100.0) == Hold
            && TradeTaken(noFee, true, false, 100.0) == Buy
  {
    BuySellRoundTrip(100.05, 100.0, FeeRate);
    BuySellRoundTrip(100.05, 100.0, 0.0);
  }

  /** The portfolio after the steps at indices WindowSize(params) .. n-1. */
  function StateAt(data: seq<Row>, params: Params, capital: real, fee: real, n: nat): (s: Portfolio)
    requires ValidSeries(data) && WindowSize(params) >= 1 && n <= |data|
    ensures s.cash == 0.0 || s.btc == 0.0
    ensures capital >= 0.0 && 0.0 <= fee <= 1.0 ==> Valid(s)
    decreases n
  {
    var w := WindowSize(params);
    if n <= w then Portfolio(capital, 0.0)
    else
      var i := n - 1;
      var window := data[i - w .. i + 1];
      var prev := StateAt(data, params, capital, fee, i);
      var buy, sell := ShouldBuy(window, params), ShouldSell(window, params);
      if capital >= 0.0 && 0.0 <= fee <= 1.0 then
        StepKeepsValid(prev, buy, sell, data[i][CloseColumn], fee);
        Step(prev, buy, sell, data[i][CloseColumn], fee)
      else
        Step(prev, buy, sell, data[i][CloseColumn], fee)
  }

  /** The terminal value of one run: the holdings valued at the last close,
      with no exit fee. From a non-negative capital and a fee in [0, 1] it is
      never negative. */
  function FinalValue(data: seq<Row>, params: Params, capital: real, fee: real): (v: real)
    requires ValidSeries(data) && WindowSize(params) >= 1
    ensures capital >= 0.0 && 0.0 <= fee <= 1.0 ==> v >= 0.0
  {
    var s := StateAt(data, params, capital, fee, |data|);
    Value(s, data[|data| - 1][CloseColumn])
  }

  /** The step at index i (past the warm-up) reads the trailing window of
      WindowSize(params) + 1 rows ending at row i, and the close of row i. */
  lemma StateAtNext(data: seq<Row>, params: Params, capital: real, fee: real, i: nat)
    requires ValidSeries(data) && WindowSize(params) >= 1
    requires WindowSize(params) <= i < |data|
    ensures var w := WindowSize(params);
            var window := data[i - w .. i + 1];
            && |window| >= 2 && HasCloses(window)
            && StateAt(data, params, capital, fee, i + 1)
               == Step(StateAt(data, params, capital, fee, i),
                       ShouldBuy(window, params), ShouldSell(window, params),
                       data[i][CloseColumn], fee)
  {
  }

  /** A history no longer than the warm-up window runs no step: the final
      value is the initial capital. */
  lemma WarmUpKeepsCapital(data: seq<Row>, params: Params, capital: real, fee: real)
    requires ValidSeries(data) && WindowSize(params) >= 1
    requires |data| <= WindowSize(params)
    ensures FinalValue(data, params, capital, fee) == capital
  {
  }

  /** The trades a run makes at indices WindowSize(params) .. n-1: at each,
      the branch of Step its signals and the holdings select. */
  function RunTrades(data: seq<Row>, params: Params, capital: real, fee: real, n: nat): (ts: seq<Trade>)
    requires ValidSeries(data) && WindowSize(params) >= 1 && n <= |data|
    ensures |ts| == if n <= WindowSize(params) then 0 else n - WindowSize(params)
    decreases n
  {
    var w := WindowSize(params);
    if n <= w then []
    else
      var i := n - 1;
      var window := data[i - w .. i + 1];
      RunTrades(data, params, capital, fee, i)
        + [TradeTaken(StateAt(data, params, capital, fee, i), ShouldBuy(window, params), ShouldSell(window, params),
                      data[i][CloseColumn])]
  }

  /** The closes at which those trades are made. */
  function RunPrices(data: seq<Row>, params: Params, n: nat): (ps: seq<real>)
    requires ValidSeries(data) && WindowSize(params) >= 1 && n <= |data|
    ensures |ps| == if n <= WindowSize(params) then 0 else n - WindowSize(params)
    ensures Positive(ps)
    decreases n
  {
    if n <= WindowSize(params) then [] else RunPrices(data, params, n - 1) + [data[n - 1][CloseColumn]]
  }

  /** The trade and the close of index i extend those of the indices before. */
  lemma RunNext(data: seq<Row>, params: Params, capital: real, fee: real, i: nat)
    requires ValidSeries(data) && WindowSize(params) >= 1
    requires WindowSize(params) <= i < |data|
    ensures var window := data[i - WindowSize(params) .. i + 1];
            && RunTrades(data, params, capital, fee, i + 1)
               == RunTrades(data, params, capital, fee, i)
                  + [TradeTaken(StateAt(data, params, capital, fee, i), ShouldBuy(window, params),
                                ShouldSell(window, params), data[i][CloseColumn])]
            && RunPrices(data, params, i + 1) == RunPrices(data, params, i) + [data[i][CloseColumn]]
  {
  }

  /** Replaying one more trade applies it to the replayed holdings. */
  lemma {:induction false} ReplaySnoc(s: Portfolio, ts: seq<Trade>, ps: seq<real>, t: Trade, p: real, fee: real)
    requires |ts| == |ps| && Positive(ps) && p > 0.0
    ensures Positive(ps + [p])
    ensures Replay(s, ts + [t], ps + [p], fee) == Apply(Replay(s, ts, ps, fee), t, p, fee)
    decreases |ts|
  {
    assert Positive(ps + [p]);
    if ts != [] {
      assert (ts + [t])[1..] == ts[1..] + [t];
      assert (ps + [p])[1..] == ps[1..] + [p];
      assert Positive(ps[1..]);
      ReplaySnoc(Apply(s, ts[0], ps[0], fee), ts[1..], ps[1..], t, p, fee);
    } else {
      assert (ts + [t])[1..] == [];
    }
  }

  /** A step from replayed holdings is the replay with the trade it takes
      appended. */
  lemma ReplayStep(start: Portfolio, ts: seq<Trade>, ps: seq<real>, s: Portfolio, buy: bool, sell: bool,
                   price: real, fee: real)
    requires |ts| == |ps| && Positive(ps) && price > 0.0
    requires s == Replay(start, ts, ps, fee)
    ensures Positive(ps + [price])
    ensures Step(s, buy, sell, price, fee) == Replay(start, ts + [TradeTaken(s, buy, sell, price)], ps + [price], fee)
  {
    ReplaySnoc(start, ts, ps, TradeTaken(s, buy, sell, price), price, fee);
    StepAppliesTradeTaken(s, buy, sell, price, fee);
  }

  /** A run is the replay, from all cash, of the trades it makes. */
  lemma {:induction false} RunIsReplay(data: seq<Row>, params: Params, capital: real, fee: real, n: nat)
    requires ValidSeries(data) && WindowSize(params) >= 1 && n <= |data|
    ensures StateAt(data, params, capital, fee, n)
         == Replay(Portfolio(capital, 0.0), RunTrades(data, params, capital, fee, n), RunPrices(data, params, n), fee)
    decreases n
  {
    var w := WindowSize(params);
    if n > w {
      var i := n - 1;
      var window := data[i - w .. i + 1];
      RunIsReplay(data, params, capital, fee, i);
      RunNext(data, params, capital, fee, i);
      StateAtNext(data, params, capital, fee, i);
      ReplayStep(Portfolio(capital, 0.0), RunTrades(data, params, capital, fee, i), RunPrices(data, params, i),
                 StateAt(data, params, capital, fee, i), ShouldBuy(window, params), ShouldSell(window, params),
                 data[i][CloseColumn], fee);
      assert StateAt(data, params, capital, fee, n) == StateAt(data, params, capital, fee, i + 1);
      assert RunTrades(data, params, capital, fee, n) == RunTrades(data, params, capital, fee, i + 1);
      assert RunPrices(data, params, n) == RunPrices(data, params, i + 1);
    } else {
      assert StateAt(data, params, capital, fee, n) == Portfolio(capital, 0.0);
      assert RunTrades(data, params, capital, fee, n) == [] && RunPrices(data, params, n) == [];
    }
  }

  /** The terminal value of a run with FEE_RATE is no larger than that of
      the same trades, at the same closes, made without a fee. */
  lemma RunFeesNeverGain(data: seq<Row>, params: Params, capital: real)
    requires ValidSeries(data) && WindowSize(params) >= 1 && capital >= 0.0
    ensures FinalValue(data, params, capital, FeeRate)
              <= Value(Replay(Portfolio(capital, 0.0), RunTrades(data, params, capital, FeeRate, |data|),
                              RunPrices(data, params, |data|), 0.0),
                       data[|data| - 1][CloseColumn])
  {
    RunIsReplay(data, params, capital, FeeRate, |data|);
    FeesNeverGain(Portfolio(capital, 0.0), RunTrades(data, params, capital, FeeRate, |data|),
                  RunPrices(data, params, |data|), FeeRate, data[|data| - 1][CloseColumn]);
  }

  /** The per-combination loop of optimize_params: starting all in cash,
      trades at every index from max(ema_short, ema_long) on, then values the
      holdings at the last close. */
  method Simulate(data: seq<Row>, params: Params, capital: real) returns (finalVal: real)
    requires ValidSeries(data) && WindowSize(params) >= 1
    ensures finalVal == FinalValue(data, params, capital, FeeRate)
  {
    var cash, btc := capital, 0.0;
    var window := WindowSize(params);
    var i := window;
    while i < |data|
      invariant window <= i && (i <= |data| || i == window)
      invariant Portfolio(cash, btc) == StateAt(data, params, capital, FeeRate, if i <= |data| then i else |data|)
    {
      var windowData := data[i - window .. i + 1];
      var price := data[i][CloseColumn];
      StateAtNext(data, params, capital, FeeRate, i);
      if ShouldBuy(windowData, params) && cash > price {
        btc := BuyQuantity(cash, price, FeeRate);
        cash := 0.0;
      } else if ShouldSell(windowData, params) && btc > 0.0 {
        cash := SellProceeds(btc, price, FeeRate);
        btc := 0.0;
      }
      i := i + 1;
    }
    assert Portfolio(cash, btc) == StateAt(data, params, capital, FeeRate, |data|);
    finalVal := Value(Portfolio(cash, btc), data[|data| - 1][CloseColumn]);
  }

  // ---------------------------------------------------------------------------
  // Grid search
  // ---------------------------------------------------------------------------

  /** The combinations (es, el) with el drawn from `longs` in order, keeping
      only es < el. */
  function PairsWith(es: nat, longs: seq<nat>): (ps: seq<Params>)
    ensures forall k :: 0 <= k < |ps| ==> ps[k].emaShort == es < ps[k].emaLong
    decreases |longs|
  {
    if longs == [] then []
    else
      var el := longs[|longs| - 1];
      PairsWith(es, longs[..|longs| - 1]) + (if es < el then [Params(es, el)] else [])
  }

  /** The combinations simulated by the nested loops, in es-outer / el-inner
      order, with every es >= el skipped. */
  function Candidates(shorts: seq<nat>, longs: seq<nat>): (cs: seq<Params>)
    ensures forall k :: 0 <= k < |cs| ==> cs[k].emaShort < cs[k].emaLong
    decreases |shorts|
  {
    if shorts == [] then []
    else Candidates(shorts[..|shorts| - 1], longs) + PairsWith(shorts[|shorts| - 1], longs)
  }

  lemma {:induction false} PairsWithMembership(es: nat, longs: seq<nat>, p: Params)
    ensures p in PairsWith(es, longs) <==> p.emaShort == es && p.emaLong in longs && es < p.emaLong
    decreases |longs|
  {
    if longs != [] {
      var init := longs[..|longs| - 1];
      PairsWithMembership(es, init, p);
      assert longs == init + [longs[|longs| - 1]];
    }
  }

  /** Exactly the combinations with es < el from the two lists are simulated;
      one with es >= el never is. */
  lemma {:induction false} CandidatesMembership(shorts: seq<nat>, longs: seq<nat>, p: Params)
    ensures p in Candidates(shorts, longs) <==>
              p.emaShort in shorts && p.emaLong in longs && p.emaShort < p.emaLong
    decreases |shorts|
  {
    if shorts != [] {
      var init := shorts[..|shorts| - 1];
      CandidatesMembership(init, longs, p);
      PairsWithMembership(shorts[|shorts| - 1], longs, p);
      assert shorts == init + [shorts[|shorts| - 1]];
    }
  }

  /** When no short period is below any long one nothing is simulated, and
      optimize_params ends with best_params still None. */
  lemma NoCandidateWithoutShortBelowLong(shorts: seq<nat>, longs: seq<nat>)
    requires forall es, el :: es in shorts && el in longs ==> es >= el
    ensures Candidates(shorts, longs) == []
  {
    var cs := Candidates(shorts, longs);
    if cs != [] {
      CandidatesMembership(shorts, longs, cs[0]);
      assert false;
    }
  }

  lemma PairsWithGridLongs(es: nat)
    requires es < 20
    ensures PairsWith(es, EmaLongs) == [Params(es, 20), Params(es, 30), Params(es, 50)]
  {
    var l2, l1 := EmaLongs[..2], EmaLongs[..2][..1];
    assert l2 == [20, 30] && l1 == [20] && l1[..0] == [];
    assert PairsWith(es, l1) == [Params(es, 20)];
    assert PairsWith(es, l2) == [Params(es, 20), Params(es, 30)];
  }

  /** The combinations of the fixed grid, in the order they are tried: every
      short period is below every long one, so none is skipped. */
  lemma GridCandidates()
    ensures Candidates(EmaShorts, EmaLongs) ==
              [Params(5, 20), Params(5, 30), Params(5, 50),
               Params(10, 20), Params(10, 30), Params(10, 50),
               Params(15, 20), Params(15, 30), Params(15, 50)]
  {
    CandidatesOfThree(5, 10, 15, EmaLongs);
    PairsWithGridLongs(5);
    PairsWithGridLongs(10);
    PairsWithGridLongs(15);
    ConcatThrees(PairsWith(5, EmaLongs), PairsWith(10, EmaLongs), PairsWith(15, EmaLongs));
  }

  lemma CandidatesOfThree(a: nat, b: nat, c: nat, longs: seq<nat>)
    ensures Candidates([a, b, c], longs) == PairsWith(a, longs) + PairsWith(b, longs) + PairsWith(c, longs)
  {
    var shorts := [a, b, c];
    var pa, pb, pc := PairsWith(a, longs), PairsWith(b, longs), PairsWith(c, longs);
    assert shorts[..0] == [] && shorts[..3] == shorts;
    CandidatesExtend(shorts, longs, 0);
    assert [] + pa == pa;
    assert Candidates(shorts[..1], longs) == pa;
    CandidatesExtend(shorts, longs, 1);
    assert Candidates(shorts[..2], longs) == pa + pb;
    CandidatesExtend(shorts, longs, 2);
  }

  lemma ConcatThrees(a: seq<Params>, b: seq<Params>, c: seq<Params>)
    requires |a| == |b| == |c| == 3
    ensures a + b + c == [a[0], a[1], a[2], b[0], b[1], b[2], c[0], c[1], c[2]]
  {
  }

  /** Every combination has ema_short < ema_long, so it can be simulated. */
  predicate Simulable(cands: seq<Params>) {
    forall k :: 0 <= k < |cands| ==> cands[k].emaShort < cands[k].emaLong
  }

  /** The final value of each combination, in order. */
  function Scores(cands: seq<Params>, data: seq<Row>, capital: real, fee: real): (xs: seq<real>)
    requires cands != [] ==> ValidSeries(data)
    requires Simulable(cands)
    ensures |xs| == |cands|
  {
    seq(|cands|, k requires 0 <= k < |cands| => FinalValue(data, cands[k], capital, fee))
  }

  lemma ScoresSnoc(cands: seq<Params>, p: Params, data: seq<Row>, capital: real, fee: real)
    requires ValidSeries(data) && Simulable(cands) && p.emaShort < p.emaLong
    ensures Simulable(cands + [p])
    ensures Scores(cands + [p], data, capital, fee) == Scores(cands, data, capital, fee) + [FinalValue(data, p, capital, fee)]
  {
    var cs := cands + [p];
    assert forall k :: 0 <= k < |cands| ==> cs[k] == cands[k];
  }

  /** `k` indexes the first greatest element of `xs`. */
  predicate IsFirstMax(xs: seq<real>, k: int) {
    && 0 <= k < |xs|
    && (forall j :: 0 <= j < |xs| ==> xs[j] <= xs[k])
    && (forall j :: 0 <= j < k ==> xs[j] < xs[k])
  }

  /** There is at most one first greatest element. */
  lemma FirstMaxUnique(xs: seq<real>, k1: int, k2: int)
    requires IsFirstMax(xs, k1) && IsFirstMax(xs, k2)
    ensures k1 == k2
  {
    assert xs[k1] <= xs[k2] <= xs[k1];
  }

  /** The index the selection of optimize_params keeps when scanning `xs` in
      order: the first score replaces "nothing yet" (the -inf sentinel), and a
      later one replaces the best so far only when strictly greater. */
  function Selected(xs: seq<real>): (r: Option<nat>)
    ensures r.None? <==> xs == []
    ensures r.Some? ==> r.value < |xs|
    decreases |xs|
  {
    if xs == [] then None
    else
      var prev := Selected(xs[..|xs| - 1]);
      if prev.None? || xs[|xs| - 1] > xs[prev.value] then Some(|xs| - 1) else prev
  }

  /** Scanning one more score either moves the selection to it, when it beats
      the kept one, or keeps the selection. */
  lemma SelectedSnoc(xs: seq<real>, x: real)
    ensures var prev := Selected(xs);
            Selected(xs + [x]) == if prev.None? || x > xs[prev.value] then Some(|xs|) else prev
  {
    assert (xs + [x])[..|xs|] == xs;
  }

  /** The kept index is the first with the greatest score: ties go to the
      earliest. */
  lemma {:induction false} SelectedIsFirstMax(xs: seq<real>)
    requires xs != []
    ensures IsFirstMax(xs, Selected(xs).value)
    decreases |xs|
  {
    var n := |xs|;
    var init := xs[..n - 1];
    if init != [] {
      SelectedIsFirstMax(init);
      assert forall j :: 0 <= j < n - 1 ==> init[j] == xs[j];
    }
  }

  /** `score` gives the final value of a run for every combination that can
      be simulated on `data`. The link is only drawn where a final value
      already appears, so the search proofs never unfold the simulation. */
  ghost predicate ScoresRuns(score: Params -> real, data: seq<Row>, capital: real) {
    forall p {:trigger FinalValue(data, p, capital, FeeRate)} ::
      ValidSeries(data) && WindowSize(p) >= 1 ==> score(p) == FinalValue(data, p, capital, FeeRate)
  }

  /** There is a score function for the runs on `data`. */
  lemma RunScore(data: seq<Row>, capital: real) returns (score: Params -> real)
    ensures ScoresRuns(score, data, capital)
  {
    score := p => if ValidSeries(data) && WindowSize(p) >= 1 then FinalValue(data, p, capital, FeeRate) else 0.0;
  }

  /** `values` holds the score of each combination of `cands`, in order. */
  ghost predicate ScoredBy(cands: seq<Params>, values: seq<real>, score: Params -> real)
    decreases |cands|
  {
    if cands == [] then values == []
    else
      && |values| == |cands|
      && ScoredBy(cands[..|cands| - 1], values[..|values| - 1], score)
      && values[|values| - 1] == score(cands[|cands| - 1])
  }

  /** What the selection knows after scanning `values` in order: `best` is
      None exactly when nothing was scanned, and otherwise the combination at
      the index the selection keeps, with its value in `bestVal`. */
  ghost predicate Selects(cands: seq<Params>, values: seq<real>, best: Option<Params>, bestVal: real, bestIdx: nat) {
    && |values| == |cands|
    && (best.None? <==> cands == [])
    && (best.Some? ==>
          && Selected(values) == Some(bestIdx)
          && bestIdx < |cands| && cands[bestIdx] == best.value && bestVal == values[bestIdx])
  }

  /** The inner loop of optimize_params for one short period `es`: tries each
      long period in order, skips es >= el, simulates the rest and replaces
      the best so far only on a strictly greater final value. */
  method SearchLongs(es: nat, longs: seq<nat>, data: seq<Row>, capital: real,
                     best: Option<Params>, bestVal: real,
                     ghost score: Params -> real,
                     ghost simulated: seq<Params>, ghost values: seq<real>, ghost bestIdx: nat)
    returns (best': Option<Params>, bestVal': real,
             ghost simulated': seq<Params>, ghost values': seq<real>, ghost bestIdx': nat)
    requires PairsWith(es, longs) != [] ==> ValidSeries(data)
    requires ScoresRuns(score, data, capital)
    requires ScoredBy(simulated, values, score)
    requires Selects(simulated, values, best, bestVal, bestIdx)
    ensures best'.None? <==> best.None? && PairsWith(es, longs) == []
    ensures simulated' == simulated + PairsWith(es, longs)
    ensures ScoredBy(simulated', values', score)
    ensures Selects(simulated', values', best', bestVal', bestIdx')
  {
    best', bestVal', simulated', values', bestIdx' := best, bestVal, simulated, values, bestIdx;
    ghost var tried: seq<Params> := [];
    var j := 0;
    while j < |longs|
      invariant 0 <= j <= |longs|
      invariant tried == PairsWith(es, longs[..j]) && simulated' == simulated + tried
      invariant ScoredBy(simulated', values', score)
      invariant Selects(simulated', values', best', bestVal', bestIdx')
    {
      var el := longs[j];
      PairsWithExtend(es, longs, j);
      if es < el {
        PairsWithMembership(es, longs, Params(es, el));
        AppendAssociative(simulated, tried, Params(es, el));
        best', bestVal', simulated', values', bestIdx' :=
          TryParams(Params(es, el), data, capital, best', bestVal', score, simulated', values', bestIdx');
        tried := tried + [Params(es, el)];
      }
      j := j + 1;
    }
    assert longs[..|longs|] == longs;
  }

  /** The body of optimize_params' inner loop for one valid combination:
      simulate it and keep it only when its final value is strictly greater
      than the best so far. */
  method TryParams(params: Params, data: seq<Row>, capital: real,
                   best: Option<Params>, bestVal: real,
                   ghost score: Params -> real,
                   ghost simulated: seq<Params>, ghost values: seq<real>, ghost bestIdx: nat)
    returns (best': Option<Params>, bestVal': real,
             ghost simulated': seq<Params>, ghost values': seq<real>, ghost bestIdx': nat)
    requires ValidSeries(data) && params.emaShort < params.emaLong
    requires ScoresRuns(score, data, capital)
    requires ScoredBy(simulated, values, score)
    requires Selects(simulated, values, best, bestVal, bestIdx)
    ensures best.None? || score(params) > bestVal ==> best' == Some(params) && bestVal' == score(params)
    ensures best.Some? && score(params) <= bestVal ==> best' == best && bestVal' == bestVal
    ensures simulated' == simulated + [params]
    ensures ScoredBy(simulated', values', score)
    ensures Selects(simulated', values', best', bestVal', bestIdx')
  {
    var val := Simulate(data, params, capital);
    SelectedSnoc(values, val);
    ScoredBySnoc(simulated, values, params, val, score);
    simulated', values' := simulated + [params], values + [val];
    if best.None? || val > bestVal {
      best', bestVal', bestIdx' := Some(params), val, |values|;
    } else {
      best', bestVal', bestIdx' := best, bestVal, bestIdx;
    }
  }

  /** One more long period extends the combinations tried by at most one. */
  lemma PairsWithExtend(es: nat, longs: seq<nat>, j: nat)
    requires j < |longs|
    ensures es < longs[j] ==> PairsWith(es, longs[..j + 1]) == PairsWith(es, longs[..j]) + [Params(es, longs[j])]
    ensures es >= longs[j] ==> PairsWith(es, longs[..j + 1]) == PairsWith(es, longs[..j])
  {
    assert longs[..j + 1][..j] == longs[..j];
  }

  /** One more short period appends its combinations, and a short period
      with any combination makes the whole candidate list non-empty. */
  lemma CandidatesExtend(shorts: seq<nat>, longs: seq<nat>, i: nat)
    requires i < |shorts|
    ensures Candidates(shorts[..i + 1], longs) == Candidates(shorts[..i], longs) + PairsWith(shorts[i], longs)
    ensures PairsWith(shorts[i], longs) != [] ==> Candidates(shorts, longs) != []
  {
    assert shorts[..i + 1][..i] == shorts[..i];
    if PairsWith(shorts[i], longs) != [] {
      var p := PairsWith(shorts[i], longs)[0];
      PairsWithMembership(shorts[i], longs, p);
      CandidatesMembership(shorts, longs, p);
    }
  }

  lemma AppendAssociative(a: seq<Params>, b: seq<Params>, x: Params)
    ensures a + b + [x] == a + (b + [x])
  {
  }

  lemma ScoredBySnoc(cands: seq<Params>, values: seq<real>, p: Params, v: real, score: Params -> real)
    requires ScoredBy(cands, values, score)
    requires v == score(p)
    ensures ScoredBy(cands + [p], values + [v], score)
  {
    assert (cands + [p])[..|cands|] == cands;
    assert (values + [v])[..|values|] == values;
  }

  /** Values recorded by a score function for the runs are the scores. */
  lemma {:induction false} ScoredByScores(cands: seq<Params>, values: seq<real>, score: Params -> real,
                                          data: seq<Row>, capital: real)
    requires ScoredBy(cands, values, score) && ScoresRuns(score, data, capital)
    requires cands != [] ==> ValidSeries(data)
    requires Simulable(cands)
    ensures Scores(cands, data, capital, FeeRate) == values
    decreases |cands|
  {
    if cands != [] {
      var init, p := cands[..|cands| - 1], cands[|cands| - 1];
      assert Simulable(init);
      ScoredByScores(init, values[..|values| - 1], score, data, capital);
      ScoresSnoc(init, p, data, capital, FeeRate);
      assert init + [p] == cands;
      assert values[..|values| - 1] + [values[|values| - 1]] == values;
    }
  }

  /** optimize_params over arbitrary candidate lists: simulates every
      combination with es < el in es-outer / el-inner order and returns the
      first one with the greatest final value, or None when no combination
      is valid. */
  method OptimizeOver(shorts: seq<nat>, longs: seq<nat>, data: seq<Row>, capital: real)
    returns (best: Option<Params>)
    requires Candidates(shorts, longs) != [] ==> ValidSeries(data)
    ensures best.None? <==> Candidates(shorts, longs) == []
    ensures best.Some? ==>
              exists k :: IsFirstMax(Scores(Candidates(shorts, longs), data, capital, FeeRate), k)
                          && Candidates(shorts, longs)[k] == best.value
  {
    ghost var score := RunScore(data, capital);
    best := None;
    var bestVal := 0.0;
    ghost var simulated: seq<Params> := [];
    ghost var values: seq<real> := [];
    ghost var bestIdx: nat := 0;
    var i := 0;
    while i < |shorts|
      invariant 0 <= i <= |shorts|
      invariant simulated == Candidates(shorts[..i], longs)
      invariant ScoredBy(simulated, values, score)
      invariant Selects(simulated, values, best, bestVal, bestIdx)
    {
      var es := shorts[i];
      CandidatesExtend(shorts, longs, i);
      best, bestVal, simulated, values, bestIdx :=
        SearchLongs(es, longs, data, capital, best, bestVal, score, simulated, values, bestIdx);
      i := i + 1;
    }
    assert shorts[..|shorts|] == shorts;
    SelectsFirstMax(simulated, values, score, data, capital, best, bestVal, bestIdx);
  }

  /** Once every combination is scored, the one the selection keeps is the
      first with the greatest final value. */
  lemma SelectsFirstMax(cands: seq<Params>, values: seq<real>, score: Params -> real, data: seq<Row>, capital: real,
                        best: Option<Params>, bestVal: real, bestIdx: nat)
    requires ScoredBy(cands, values, score) && ScoresRuns(score, data, capital)
    requires cands != [] ==> ValidSeries(data)
    requires Simulable(cands)
    requires Selects(cands, values, best, bestVal, bestIdx)
    ensures best.Some? ==> exists k :: IsFirstMax(Scores(cands, data, capital, FeeRate), k) && cands[k] == best.value
  {
    if best.Some? {
      ScoredByScores(cands, values, score, data, capital);
      SelectedIsFirstMax(values);
    }
  }

  /** optimize_params on the fixed grid: always finds a combination, and it is
      the first with the greatest final value among the nine valid ones. */
  method OptimizeParams(data: seq<Row>, capital: real) returns (best: Option<Params>)
    requires ValidSeries(data)
    ensures best.Some?
    ensures best.value.emaShort in EmaShorts && best.value.emaLong in EmaLongs
    ensures best.value.emaShort < best.value.emaLong
    ensures exists k :: IsFirstMax(Scores(Candidates(EmaShorts, EmaLongs), data, capital, FeeRate), k)
                        && Candidates(EmaShorts, EmaLongs)[k] == best.value
  {
    GridCandidates();
    best := OptimizeOver(EmaShorts, EmaLongs, data, capital);
    CandidatesMembership(EmaShorts, EmaLongs, best.value);
  }
}
