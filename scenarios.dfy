/** Worked runs of the backtester on small, fixed inputs. */
module Scenarios {
  import opened Strategy
  import opened Backtest

  /** A candle row with only the close filled in. */
  function Candle(close: real): Row {
    [0.0, 0.0, 0.0, 0.0, close]
  }

  /** With ema_short = 1 and ema_long = 2 a window has three rows; on closes
      a, b, c the golden cross is b < a and 3c > 2b + a, the dead cross
      b > a and 3c < 2b + a. */
  lemma CrossOnThreeRows(data: seq<Row>)
    requires |data| == 3 && HasCloses(data)
    ensures var a, b, c := data[0][CloseColumn], data[1][CloseColumn], data[2][CloseColumn];
            && (ShouldBuy(data, Params(1, 2)) <==> b < a && 3.0 * c > 2.0 * b + a)
            && (ShouldSell(data, Params(1, 2)) <==> b > a && 3.0 * c < 2.0 * b + a)
  {
    var closes := Closes(data);
    var a, b, c := closes[0], closes[1], closes[2];
    assert closes[..2] == [a, b];
    assert Alpha(2) == 2.0 / 3.0;
    assert Ema([a, b], 2) == (2.0 * b + a) / 3.0 by {
      assert [a, b][1..] == [b];
      FoldStep(2.0 / 3.0, a, [b]);
      assert [b][1..] == [];
    }
    EmaSnoc([a, b], c, 2);
    assert closes == [a, b] + [c];
  }

  const ScenarioCloses: seq<real> := [100.0, 100.0, 100.0, 90.0, 100.0, 110.0, 110.0, 110.0]

  function ScenarioRows(): (rows: seq<Row>)
    ensures |rows| == 8 && ValidSeries(rows)
  {
    seq(8, i requires 0 <= i < 8 => Candle(ScenarioCloses[i]))
  }

  /** Signals of the window ending at row i of the scenario: only the window
      ending at row 4 (closes 100, 90, 100) is a golden cross. */
  lemma ScenarioSignals(i: nat)
    requires 2 <= i < 8
    ensures var window := ScenarioRows()[i - 2 .. i + 1];
            && |window| == 3 && HasCloses(window)
            && ShouldBuy(window, Params(1, 2)) == (i == 4)
            && !ShouldSell(window, Params(1, 2))
  {
    var window := ScenarioRows()[i - 2 .. i + 1];
    assert forall k :: 0 <= k < 3 ==> window[k][CloseColumn] == ScenarioCloses[i - 2 + k];
    CrossOnThreeRows(window);
  }

  /** The portfolio after the steps before row n: all cash up to the buy at
      row 4, then 9.996 coin (1000 / 100 less the fee) to the end. */
  lemma {:induction false} ScenarioState(n: nat)
    requires 2 <= n <= 8
    ensures StateAt(ScenarioRows(), Params(1, 2), 1000.0, FeeRate, n)
            == if n <= 4 then Portfolio(1000.0, 0.0) else Portfolio(0.0, 9.996)
    decreases n
  {
    if n > 2 {
      ScenarioState(n - 1);
      ScenarioSignals(n - 1);
      StateAtNext(ScenarioRows(), Params(1, 2), 1000.0, FeeRate, n - 1);
    }
  }

  /** The EMA(1)/EMA(2) cross on eight closes: one buy at index 4 with the
      whole capital at price 100, no sell after it, and the coin valued at the
      last close 110. */
  lemma GoldenCrossRun()
    ensures FinalValue(ScenarioRows(), Params(1, 2), 1000.0, FeeRate) == 1099.56
  {
    ScenarioState(8);
  }
}
