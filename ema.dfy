/**
 * The EMA crossover strategy (`EMA.emaStrategy`): candles are put in time
 * order, a fast and a slow exponential average of the close are compared
 * row by row, and the result reports the position of the first row of the
 * ordered frame.
 *
 * The averages are pandas `ewm(span).mean()` with its default
 * `adjust=True` weighting: at row t the input of row i weighs
 * (1 - alpha)^(t - i), and the weighted sum is divided by the sum of the
 * weights.  Both averages therefore start at the first close.
 */
module Ema {
  import opened Common
  import Sorting

  /** One OHLC row; only its open time and close take part in the strategy. */
  datatype Candle = Candle(time: int, close: real)

  /** The smoothing factor of a span: 2 / (span + 1), in (0, 1] for a span of at least 1. */
  function Alpha(span: int): (a: real)
    requires span >= 1
    ensures 0.0 < a <= 1.0
  {
    DivideByLarger(2.0, 2.0, span as real + 1.0);
    2.0 / (span as real + 1.0)
  }

  /** A larger divisor moves a quotient towards 0: down for a positive dividend, up for a negative one. */
  lemma DivideByLarger(d: real, a: real, b: real)
    requires 0.0 < a <= b
    ensures d > 0.0 ==> d / a >= d / b > 0.0
    ensures d > 0.0 && a < b ==> d / a > d / b
    ensures d == 0.0 ==> d / a == d / b == 0.0
    ensures d < 0.0 ==> d / a <= d / b < 0.0
    ensures d < 0.0 && a < b ==> d / a < d / b
  {
    var p, q := d / a, d / b;
    assert p * a == d && q * b == d;
    if d > 0.0 {
      assert p > 0.0 && q > 0.0;
      MulLe(q, a, b);
      assert q * a <= p * a;
      if a < b {
        MulLt(q, a, b);
      }
    } else if d < 0.0 {
      assert p < 0.0 && q < 0.0;
      MulLe(-q, a, b);
      assert (-q) * a == -(q * a) && (-q) * b == -(q * b);
      if a < b {
        MulLt(-q, a, b);
      }
    }
  }

  lemma MulLe(x: real, a: real, b: real)
    requires 0.0 < x && 0.0 < a <= b
    ensures x * a <= x * b
  {
    assert x * b - x * a == x * (b - a);
  }

  lemma MulLt(x: real, a: real, b: real)
    requires 0.0 < x && 0.0 < a < b
    ensures x * a < x * b
  {
    assert x * b - x * a == x * (b - a);
  }

  /** The weighted sum and the sum of the weights of the `adjust=True` average, one pair per row. */
  datatype Weighted = Weighted(sum: real, weight: real)

  /**
   * Row 0 weighs its input by 1; every later row scales the previous sums by
   * (1 - alpha) and adds its own input with weight 1.
   */
  function Weights(xs: seq<real>, alpha: real): (ws: seq<Weighted>)
    requires 0.0 < alpha <= 1.0
    ensures |ws| == |xs|
    ensures |xs| > 0 ==> ws[0] == Weighted(xs[0], 1.0)
    ensures forall i :: 0 <= i < |ws| ==> ws[i].weight >= 1.0
    decreases |xs|
  {
    if |xs| <= 1 then seq(|xs|, i requires 0 <= i < |xs| => Weighted(xs[i], 1.0))
    else
      var prev := Weights(xs[..|xs| - 1], alpha);
      var last := prev[|prev| - 1];
      MulNonNegative(1.0 - alpha, last.weight);
      prev + [Weighted(xs[|xs| - 1] + (1.0 - alpha) * last.sum, 1.0 + (1.0 - alpha) * last.weight)]
  }

  /** `ewm(span).mean()` with `adjust=True`: the weighted sum over the sum of the weights, row by row. */
  function EwmAdjusted(xs: seq<real>, alpha: real): (ys: seq<real>)
    requires 0.0 < alpha <= 1.0
    ensures |ys| == |xs|
    ensures |xs| > 0 ==> ys[0] == xs[0]
  {
    var ws := Weights(xs, alpha);
    seq(|xs|, i requires 0 <= i < |xs| => ws[i].sum / ws[i].weight)
  }

  /** The second average moves from the first input towards the second by 1 / (2 - alpha) of the step. */
  lemma EwmAdjustedSecondRow(xs: seq<real>, alpha: real)
    requires 0.0 < alpha <= 1.0 && |xs| >= 2
    ensures EwmAdjusted(xs, alpha)[1] == xs[0] + (xs[1] - xs[0]) / (2.0 - alpha)
  {
    var front := xs[..2];
    WeightsPrefix(xs, alpha, 2);
    var w := Weights(front, alpha)[1];
    assert front[..1] == [xs[0]];
    assert w == Weighted(xs[1] + (1.0 - alpha) * xs[0], 2.0 - alpha);
    var y := w.sum / w.weight;
    assert y * (2.0 - alpha) == xs[1] + (1.0 - alpha) * xs[0];
    var z := xs[0] + (xs[1] - xs[0]) / (2.0 - alpha);
    assert (xs[1] - xs[0]) / (2.0 - alpha) * (2.0 - alpha) == xs[1] - xs[0];
    assert z * (2.0 - alpha) == xs[0] * (2.0 - alpha) + (xs[1] - xs[0]);
  }

  /** The weights of a prefix are the prefix of the weights. */
  lemma {:induction false} WeightsPrefix(xs: seq<real>, alpha: real, n: nat)
    requires 0.0 < alpha <= 1.0 && n <= |xs|
    ensures Weights(xs[..n], alpha) == Weights(xs, alpha)[..n]
    decreases |xs|
  {
    if n < |xs| {
      var front := xs[..|xs| - 1];
      WeightsPrefix(front, alpha, n);
      assert front[..n] == xs[..n];
    } else {
      assert xs[..n] == xs;
    }
  }

  /** The crossover position column: 1 where the fast line is above the slow one, else 0. */
  function CrossPosition(fast: seq<real>, slow: seq<real>): (r: seq<int>)
    requires |fast| == |slow|
    ensures |r| == |fast|
  {
    seq(|fast|, i requires 0 <= i < |fast| => if fast[i] > slow[i] then 1 else 0)
  }

  /** What `emaStrategy` returns (the human-readable time is left out). */
  datatype EmaSignal = EmaSignal(
    position: int,
    pair: string,
    time: int,
    shortEma: real,
    longEma: real,
    executeOrder: bool)

  function TimeKey(c: Candle): real {
    c.time as real
  }

  /** The closes of the rows, in their order. */
  function Closes(rows: seq<Candle>): (r: seq<real>)
    ensures |r| == |rows| && forall k :: 0 <= k < |rows| ==> r[k] == rows[k].close
  {
    seq(|rows|, k requires 0 <= k < |rows| => rows[k].close)
  }

  /**
   * `emaStrategy` over the fetched rows.  No rows at all fails when the
   * eight column names are assigned to a frame without columns, a span
   * below 1 is rejected by `ewm`, and a single row fails at the `iloc[1]`
   * reads.  Every reported field comes from row 0 of the ordered frame, the
   * oldest candle, where both averages equal its close: the position is
   * always 0 and an order is asked for exactly when the fast average is
   * above the slow one in row 1.
   */
  function EmaStrategy(pair: string, rows: seq<Candle>, shortPeriod: int, longPeriod: int)
    : (r: Result<EmaSignal>)
    ensures rows == [] || shortPeriod < 1 || longPeriod < 1 ==> r == Failure(ValueError)
    ensures rows != [] && shortPeriod >= 1 && longPeriod >= 1 && |rows| == 1 ==> r == Failure(IndexError)
    ensures r.Success? <==> |rows| >= 2 && shortPeriod >= 1 && longPeriod >= 1
    ensures r.Success? ==>
      var v, ordered := r.value, Sorting.SortBy(rows, TimeKey);
      var fast := EwmAdjusted(Closes(ordered), Alpha(shortPeriod));
      var slow := EwmAdjusted(Closes(ordered), Alpha(longPeriod));
      && |ordered| == |rows|
      && v.position == 0
      && v.shortEma == v.longEma == ordered[0].close
      && v.pair == pair
      && (v.executeOrder <==> fast[1] > slow[1])
      && (exists k :: 0 <= k < |rows| && rows[k].time == v.time)
      && (forall k :: 0 <= k < |rows| ==> v.time <= rows[k].time)
  {
    if rows == [] || shortPeriod < 1 || longPeriod < 1 then Failure(ValueError)
    else
      var ordered := Sorting.SortBy(rows, TimeKey);
      Sorting.SortedHeadIsLeast(rows, TimeKey);
      var closes := Closes(ordered);
      var fast := EwmAdjusted(closes, Alpha(shortPeriod));
      var slow := EwmAdjusted(closes, Alpha(longPeriod));
      var position := CrossPosition(fast, slow);
      if |ordered| < 2 then Failure(IndexError)
      else
        Success(EmaSignal(
          position[0], pair, ordered[0].time, fast[0], slow[0],
          position[0] != position[1]))
  }

  /**
   * With the fast span shorter than the slow one, the fast average of row 1
   * is above the slow one exactly when the second-oldest close is above the
   * oldest: `emaStrategy` asks for an order exactly then.
   */
  lemma ExecutesIffSecondCloseRises(pair: string, rows: seq<Candle>, shortPeriod: int, longPeriod: int)
    requires 1 <= shortPeriod < longPeriod
    ensures var r, ordered := EmaStrategy(pair, rows, shortPeriod, longPeriod), Sorting.SortBy(rows, TimeKey);
      r.Success? ==> |ordered| >= 2 && (r.value.executeOrder <==> ordered[1].close > ordered[0].close)
  {
    var r := EmaStrategy(pair, rows, shortPeriod, longPeriod);
    if r.Success? {
      AlphaFallsWithSpan(shortPeriod, longPeriod);
      FasterAboveIffRise(Closes(Sorting.SortBy(rows, TimeKey)), Alpha(shortPeriod), Alpha(longPeriod));
    }
  }

  /** A longer span smooths more: its factor is smaller. */
  lemma AlphaFallsWithSpan(shortSpan: int, longSpan: int)
    requires 1 <= shortSpan < longSpan
    ensures Alpha(shortSpan) > Alpha(longSpan)
  {
    DivideByLarger(2.0, shortSpan as real + 1.0, longSpan as real + 1.0);
  }

  /** In row 1 the faster average is above the slower one exactly when the second input is above the first. */
  lemma FasterAboveIffRise(xs: seq<real>, fastAlpha: real, slowAlpha: real)
    requires 0.0 < slowAlpha < fastAlpha <= 1.0 && |xs| >= 2
    ensures EwmAdjusted(xs, fastAlpha)[1] > EwmAdjusted(xs, slowAlpha)[1] <==> xs[1] > xs[0]
  {
    EwmAdjustedSecondRow(xs, fastAlpha);
    EwmAdjustedSecondRow(xs, slowAlpha);
    DivideByLarger(xs[1] - xs[0], 2.0 - fastAlpha, 2.0 - slowAlpha);
  }
}
