/** The EMA indicator and the EMA-crossover signal rule of strategy.py.

    A data window is a sequence of candle rows; each row is a list of numeric
    columns and the close price is column 4. Prices are exact reals: no
    floating-point rounding is modelled.
 */
module Strategy {

  /** One candle row: timestamp, open, high, low, close, volume. */
  type Row = seq<real>

  /** Column of the close price in a row. */
  const CloseColumn: nat := 4

  /** The two tunable EMA periods of the strategy. */
  datatype Params = Params(emaShort: nat, emaLong: nat)

  /** Every row of `data` has a close column. */
  predicate HasCloses(data: seq<Row>) {
    forall i :: 0 <= i < |data| ==> |data[i]| > CloseColumn
  }

  /** The close column of `data`, row by row. */
  function Closes(data: seq<Row>): (closes: seq<real>)
    requires HasCloses(data)
    ensures |closes| == |data|
    ensures forall i :: 0 <= i < |data| ==> closes[i] == data[i][CloseColumn]
  {
    seq(|data|, i requires 0 <= i < |data| => data[i][CloseColumn])
  }

  // ---------------------------------------------------------------------------
  // Exponential moving average
  // ---------------------------------------------------------------------------

  /** The smoothing factor 2 / (period + 1). */
  function Alpha(period: nat): (a: real)
    ensures 0.0 < a <= 2.0
    ensures period >= 1 <==> a <= 1.0
    ensures period == 1 <==> a == 1.0
  {
    2.0 / (period as real + 1.0)
  }

  /** A longer period smooths more: its factor is no larger. */
  lemma AlphaAntitone(p: nat, q: nat)
    requires p <= q
    ensures Alpha(q) <= Alpha(p)
  {
    var a, b := p as real + 1.0, q as real + 1.0;
    assert 2.0 / b <= 2.0 / a by {
      assert (2.0 / b) * b == 2.0 == (2.0 / a) * a;
    }
  }

  /** The smoothing loop run from accumulator `acc` over the remaining
      `prices`. With factor 1 each step forgets the accumulator, so the
      result is the last price. */
  function Fold(alpha: real, acc: real, prices: seq<real>): (r: real)
    ensures alpha == 1.0 && prices != [] ==> r == prices[|prices| - 1]
    decreases |prices|
  {
    if prices == [] then acc
    else Fold(alpha, alpha * prices[0] + (1.0 - alpha) * acc, prices[1..])
  }

  /** The EMA of `closes`: the left fold seeded with the first close. On a
      single close the loop body never runs; with period 1 the factor is 1
      and the EMA is the last close. */
  function Ema(closes: seq<real>, period: nat): (e: real)
    requires |closes| > 0
    ensures |closes| == 1 ==> e == closes[0]
    ensures period == 1 ==> e == closes[|closes| - 1]
  {
    Fold(Alpha(period), closes[0], closes[1..])
  }

  /** The loop of calculate_ema, which updates one accumulator per price. */
  method CalculateEma(closes: seq<real>, period: nat) returns (ema: real)
    requires |closes| > 0
    ensures ema == Ema(closes, period)
  {
    var alpha := 2.0 / (period as real + 1.0);
    ema := closes[0];
    var i := 1;
    while i < |closes|
      invariant 1 <= i <= |closes|
      invariant Fold(alpha, ema, closes[i..]) == Ema(closes, period)
    {
      assert closes[i..][1..] == closes[i + 1..];
      ema := alpha * closes[i] + (1.0 - alpha) * ema;
      i := i + 1;
    }
  }

  /** One unfolding of the loop on a non-empty list of prices. */
  lemma FoldStep(alpha: real, acc: real, prices: seq<real>)
    requires prices != []
    ensures Fold(alpha, acc, prices) == Fold(alpha, alpha * prices[0] + (1.0 - alpha) * acc, prices[1..])
  {
  }

  lemma {:induction false} FoldSnoc(alpha: real, acc: real, prices: seq<real>, x: real)
    ensures Fold(alpha, acc, prices + [x]) == alpha * x + (1.0 - alpha) * Fold(alpha, acc, prices)
    decreases |prices|
  {
    if prices == [] {
      assert [x][1..] == [];
    } else {
      var px := prices + [x];
      var next := alpha * prices[0] + (1.0 - alpha) * acc;
      assert px[0] == prices[0] && px[1..] == prices[1..] + [x];
      FoldStep(alpha, acc, px);
      FoldStep(alpha, acc, prices);
      assert alpha * px[0] + (1.0 - alpha) * acc == next;
      assert Fold(alpha, acc, px) == Fold(alpha, next, px[1..]);
      FoldSnoc(alpha, next, prices[1..], x);
    }
  }

  /** Appending one close updates the EMA by one smoothing step. */
  lemma EmaSnoc(xs: seq<real>, x: real, period: nat)
    requires |xs| > 0
    ensures Ema(xs + [x], period) == Alpha(period) * x + (1.0 - Alpha(period)) * Ema(xs, period)
  {
    assert (xs + [x])[1..] == xs[1..] + [x];
    FoldSnoc(Alpha(period), xs[0], xs[1..], x);
  }

  /** The least element of a non-empty sequence. */
  function SeqMin(s: seq<real>): (m: real)
    requires |s| > 0
    ensures m in s
    ensures forall i :: 0 <= i < |s| ==> m <= s[i]
    decreases |s|
  {
    if |s| == 1 then s[0]
    else
      var rest := SeqMin(s[1..]);
      if s[0] <= rest then s[0] else rest
  }

  /** The greatest element of a non-empty sequence. */
  function SeqMax(s: seq<real>): (m: real)
    requires |s| > 0
    ensures m in s
    ensures forall i :: 0 <= i < |s| ==> s[i] <= m
    decreases |s|
  {
    if |s| == 1 then s[0]
    else
      var rest := SeqMax(s[1..]);
      if s[0] >= rest then s[0] else rest
  }

  lemma ConvexWithin(t: real, x: real, y: real, lo: real, hi: real)
    requires 0.0 <= t <= 1.0
    requires lo <= x <= hi && lo <= y <= hi
    ensures lo <= t * x + (1.0 - t) * y <= hi
  {
    MulNonNegative(t, x - lo);
    MulNonNegative(1.0 - t, y - lo);
    MulNonNegative(t, hi - x);
    MulNonNegative(1.0 - t, hi - y);
    assert t * x + (1.0 - t) * y - lo == t * (x - lo) + (1.0 - t) * (y - lo);
    assert hi - (t * x + (1.0 - t) * y) == t * (hi - x) + (1.0 - t) * (hi - y);
  }

  lemma MulNonNegative(a: real, b: real)
    requires a >= 0.0 && b >= 0.0
    ensures a * b >= 0.0
  {
  }

  lemma {:induction false} FoldWithin(alpha: real, acc: real, prices: seq<real>, lo: real, hi: real)
    requires 0.0 <= alpha <= 1.0
    requires lo <= acc <= hi
    requires forall i :: 0 <= i < |prices| ==> lo <= prices[i] <= hi
    ensures lo <= Fold(alpha, acc, prices) <= hi
    decreases |prices|
  {
    if prices != [] {
      ConvexWithin(alpha, prices[0], acc, lo, hi);
      FoldWithin(alpha, alpha * prices[0] + (1.0 - alpha) * acc, prices[1..], lo, hi);
    }
  }

  /** For period >= 1 every step is a convex combination, so the EMA stays
      between the least and the greatest close. */
  lemma EmaWithinRange(closes: seq<real>, period: nat)
    requires |closes| > 0
    requires period >= 1
    ensures SeqMin(closes) <= Ema(closes, period) <= SeqMax(closes)
  {
    FoldWithin(Alpha(period), closes[0], closes[1..], SeqMin(closes), SeqMax(closes));
  }

  // ---------------------------------------------------------------------------
  // Crossover signals
  // ---------------------------------------------------------------------------

  /** The four averages a signal compares: short and long EMA over the window
      without its last row (previous) and over the whole window (current). */
  datatype Averages = Averages(prevShort: real, prevLong: real, currShort: real, currLong: real)

  function WindowAverages(data: seq<Row>, params: Params): (a: Averages)
    requires |data| >= 2 && HasCloses(data)
    ensures params.emaShort == params.emaLong ==> a.prevShort == a.prevLong && a.currShort == a.currLong
  {
    var closes := Closes(data);
    var prev := closes[..|closes| - 1];
    Averages(Ema(prev, params.emaShort), Ema(prev, params.emaLong),
             Ema(closes, params.emaShort), Ema(closes, params.emaLong))
  }

  /** Golden cross: the short EMA was below the long EMA and is now above it. */
  function ShouldBuy(data: seq<Row>, params: Params): (buy: bool)
    requires |data| >= 2 && HasCloses(data)
    ensures params.emaShort == params.emaLong ==> !buy
  {
    var a := WindowAverages(data, params);
    a.prevShort < a.prevLong && a.currShort > a.currLong
  }

  /** Dead cross: the short EMA was above the long EMA and is now below it. */
  function ShouldSell(data: seq<Row>, params: Params): (sell: bool)
    requires |data| >= 2 && HasCloses(data)
    ensures params.emaShort == params.emaLong ==> !sell
    ensures sell ==> !ShouldBuy(data, params)
  {
    var a := WindowAverages(data, params);
    a.prevShort > a.prevLong && a.currShort < a.currLong
  }

  /** The signals read only the close column: windows with the same closes
      give the same signals. */
  lemma SignalsReadOnlyCloses(d1: seq<Row>, d2: seq<Row>, params: Params)
    requires |d1| >= 2 && HasCloses(d1) && HasCloses(d2)
    requires Closes(d1) == Closes(d2)
    ensures |d2| == |d1|
    ensures ShouldBuy(d1, params) == ShouldBuy(d2, params)
    ensures ShouldSell(d1, params) == ShouldSell(d2, params)
  {
    assert |Closes(d2)| == |d2|;
  }

  /** One smoothing step of a faster average (factor aS) against a slower one
      (factor aL): if the fast one starts below and the new price is not above
      the slow one, the fast one cannot end above it. */
  lemma StepCannotCrossUp(aS: real, aL: real, pS: real, pL: real, c: real)
    requires 0.0 < aL <= aS <= 1.0
    requires pS < pL && c <= pL
    ensures aS * c + (1.0 - aS) * pS <= aL * c + (1.0 - aL) * pL
  {
    assert (aL * c + (1.0 - aL) * pL) - (aS * c + (1.0 - aS) * pS)
        == (1.0 - aS) * (pL - pS) + (aS - aL) * (pL - c);
    assert (1.0 - aS) * (pL - pS) >= 0.0;
    assert (aS - aL) * (pL - c) >= 0.0;
  }

  /** The mirror of StepCannotCrossUp. */
  lemma StepCannotCrossDown(aS: real, aL: real, pS: real, pL: real, c: real)
    requires 0.0 < aL <= aS <= 1.0
    requires pS > pL && c >= pL
    ensures aS * c + (1.0 - aS) * pS >= aL * c + (1.0 - aL) * pL
  {
    assert (aS * c + (1.0 - aS) * pS) - (aL * c + (1.0 - aL) * pL)
        == (1.0 - aS) * (pS - pL) + (aS - aL) * (c - pL);
    assert (1.0 - aS) * (pS - pL) >= 0.0;
    assert (aS - aL) * (c - pL) >= 0.0;
  }

  /** Splits a window's closes into the previous closes and the last close,
      and unfolds both current EMAs by one step. */
  lemma CurrentFromPrevious(data: seq<Row>, params: Params)
    requires |data| >= 2 && HasCloses(data)
    ensures var closes := Closes(data);
            var prev := closes[..|closes| - 1];
            var c := closes[|closes| - 1];
            var a := WindowAverages(data, params);
            && a.currShort == Alpha(params.emaShort) * c + (1.0 - Alpha(params.emaShort)) * a.prevShort
            && a.currLong == Alpha(params.emaLong) * c + (1.0 - Alpha(params.emaLong)) * a.prevLong
  {
    var closes := Closes(data);
    var prev := closes[..|closes| - 1];
    assert closes == prev + [closes[|closes| - 1]];
    EmaSnoc(prev, closes[|closes| - 1], params.emaShort);
    EmaSnoc(prev, closes[|closes| - 1], params.emaLong);
  }

  /** A golden cross of a shorter over a longer period fires only on a last
      close above the previous long EMA. */
  lemma GoldenCrossNeedsCloseAboveLong(data: seq<Row>, params: Params)
    requires |data| >= 2 && HasCloses(data)
    requires 1 <= params.emaShort <= params.emaLong
    requires ShouldBuy(data, params)
    ensures Closes(data)[|data| - 1] > WindowAverages(data, params).prevLong
  {
    var a := WindowAverages(data, params);
    var c := Closes(data)[|data| - 1];
    CurrentFromPrevious(data, params);
    AlphaAntitone(params.emaShort, params.emaLong);
    if c <= a.prevLong {
      StepCannotCrossUp(Alpha(params.emaShort), Alpha(params.emaLong), a.prevShort, a.prevLong, c);
      assert false;
    }
  }

  /** A dead cross of a shorter under a longer period fires only on a last
      close below the previous long EMA. */
  lemma DeadCrossNeedsCloseBelowLong(data: seq<Row>, params: Params)
    requires |data| >= 2 && HasCloses(data)
    requires 1 <= params.emaShort <= params.emaLong
    requires ShouldSell(data, params)
    ensures Closes(data)[|data| - 1] < WindowAverages(data, params).prevLong
  {
    var a := WindowAverages(data, params);
    var c := Closes(data)[|data| - 1];
    CurrentFromPrevious(data, params);
    AlphaAntitone(params.emaShort, params.emaLong);
    if c >= a.prevLong {
      StepCannotCrossDown(Alpha(params.emaShort), Alpha(params.emaLong), a.prevShort, a.prevLong, c);
      assert false;
    }
  }
}
