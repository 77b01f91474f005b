/**
 * The MACD crossover strategy (`MACD.macdStrategy`): the 12- and 26-span
 * exponential averages of the close, their difference (the MACD line), its
 * 9-span average (the signal line), the histogram between the two, and a
 * 0/1 position that is 1 where the MACD line is above the signal line.
 *
 * The averages use pandas `ewm(span, adjust=False)`, a first-order
 * recurrence seeded by the first input.
 */
module Macd {
  import opened Common
  import Ema

  /** `ewm(alpha, adjust=False).mean()`: one output per input, the first output equal to the first input. */
  function Ewm(xs: seq<real>, alpha: real): (ys: seq<real>)
    ensures |ys| == |xs|
    ensures |xs| > 0 ==> ys[0] == xs[0]
  {
    if |xs| <= 1 then xs
    else
      var prev := Ewm(xs[..|xs| - 1], alpha);
      prev + [alpha * xs[|xs| - 1] + (1.0 - alpha) * prev[|prev| - 1]]
  }

  /** From the second row on, each average is alpha times the new input plus (1 - alpha) times the previous average. */
  lemma {:induction false} EwmRecurrence(xs: seq<real>, alpha: real, t: nat)
    requires 1 <= t < |xs|
    ensures Ewm(xs, alpha)[t] == alpha * xs[t] + (1.0 - alpha) * Ewm(xs, alpha)[t - 1]
  {
    if t < |xs| - 1 {
      var front := xs[..|xs| - 1];
      assert front[t] == xs[t];
      EwmRecurrence(front, alpha, t);
    }
  }

  /** One more input keeps the earlier averages and appends one more. */
  lemma EwmSnoc(xs: seq<real>, alpha: real)
    requires |xs| > 1
    ensures var prev, ys := Ewm(xs[..|xs| - 1], alpha), Ewm(xs, alpha);
      && (forall i :: 0 <= i < |xs| - 1 ==> ys[i] == prev[i])
      && ys[|xs| - 1] == alpha * xs[|xs| - 1] + (1.0 - alpha) * prev[|xs| - 2]
  {
  }

  /** A weighted mean of two values within bounds stays within them. */
  lemma MeanBetween(alpha: real, x: real, y: real, lo: real, hi: real)
    requires 0.0 <= alpha <= 1.0 && lo <= x <= hi && lo <= y <= hi
    ensures lo <= alpha * x + (1.0 - alpha) * y <= hi
  {
    MulNonNegative(alpha, x - lo);
    MulNonNegative(1.0 - alpha, y - lo);
    MulNonNegative(alpha, hi - x);
    MulNonNegative(1.0 - alpha, hi - y);
    assert alpha * (x - lo) == alpha * x - alpha * lo;
    assert (1.0 - alpha) * (y - lo) == (1.0 - alpha) * y - (1.0 - alpha) * lo;
    assert alpha * (hi - x) == alpha * hi - alpha * x;
    assert (1.0 - alpha) * (hi - y) == (1.0 - alpha) * hi - (1.0 - alpha) * y;
    assert alpha * lo + (1.0 - alpha) * lo == lo;
    assert alpha * hi + (1.0 - alpha) * hi == hi;
  }

  /** With 0 <= alpha <= 1 the average stays within any bounds the inputs keep. */
  lemma {:induction false} EwmBounded(xs: seq<real>, alpha: real, lo: real, hi: real)
    requires 0.0 <= alpha <= 1.0
    requires forall i :: 0 <= i < |xs| ==> lo <= xs[i] <= hi
    ensures forall i :: 0 <= i < |xs| ==> lo <= Ewm(xs, alpha)[i] <= hi
  {
    if |xs| > 1 {
      var front := xs[..|xs| - 1];
      EwmBounded(front, alpha, lo, hi);
      var prev := Ewm(front, alpha);
      var x, y := xs[|xs| - 1], prev[|prev| - 1];
      EwmSnoc(xs, alpha);
      MeanBetween(alpha, x, y, lo, hi);
      var ys := Ewm(xs, alpha);
      forall i | 0 <= i < |xs| ensures lo <= ys[i] <= hi {
        if i < |xs| - 1 {
          assert ys[i] == prev[i];
        }
      }
    }
  }

  function Diff(a: seq<real>, b: seq<real>): seq<real>
    requires |a| == |b|
  {
    seq(|a|, i requires 0 <= i < |a| => a[i] - b[i])
  }

  /** The indicator columns of `macdStrategy`. */
  datatype MacdFrame = MacdFrame(
    ema12: seq<real>,
    ema26: seq<real>,
    macd: seq<real>,
    signal: seq<real>,
    hist: seq<real>,
    position: seq<int>)

  /**
   * The indicator chain.  Every column has one entry per close, and the
   * position is 1 exactly where the histogram is positive.
   */
  function Indicators(close: seq<real>): (f: MacdFrame)
    ensures |f.ema12| == |f.ema26| == |f.macd| == |f.signal| == |f.hist| == |f.position| == |close|
    ensures forall i :: 0 <= i < |close| ==>
      && (f.position[i] == 0 || f.position[i] == 1)
      && (f.position[i] == 1 <==> f.hist[i] > 0.0)
  {
    var ema12 := Ewm(close, Ema.Alpha(12));
    var ema26 := Ewm(close, Ema.Alpha(26));
    var macd := Diff(ema12, ema26);
    var signal := Ewm(macd, Ema.Alpha(9));
    MacdFrame(ema12, ema26, macd, signal, Diff(macd, signal), Ema.CrossPosition(macd, signal))
  }

  /**
   * `macdStrategy` over the decoded OHLC `result` object (close column per
   * pair).  The frame is always read from the "SOLUSD" entry, whatever pair
   * was requested; an empty series fails at `iloc[-1]`.
   */
  function MacdStrategy(result: map<string, seq<real>>): (r: Result<int>)
    ensures "SOLUSD" !in result ==> r == Failure(KeyError)
    ensures "SOLUSD" in result ==> (r.Success? <==> result["SOLUSD"] != [])
    ensures "SOLUSD" in result && r.Failure? ==> r.error == IndexError
    ensures r.Success? ==>
      var close := result["SOLUSD"];
      && (r.value == 0 || r.value == 1)
      && (r.value == 1 <==> Indicators(close).hist[|close| - 1] > 0.0)
  {
    if "SOLUSD" !in result then Failure(KeyError)
    else
      var close := result["SOLUSD"];
      if close == [] then Failure(IndexError)
      else Success(Indicators(close).position[|close| - 1])
  }

  /** A flat close series never goes long: every average equals the close and the histogram is 0. */
  lemma FlatMarketStaysOut(close: seq<real>, c: real)
    requires forall i :: 0 <= i < |close| ==> close[i] == c
    ensures forall i :: 0 <= i < |close| ==> Indicators(close).position[i] == 0
  {
    EwmBounded(close, Ema.Alpha(12), c, c);
    EwmBounded(close, Ema.Alpha(26), c, c);
    var f := Indicators(close);
    EwmBounded(f.macd, Ema.Alpha(9), 0.0, 0.0);
  }
}
