/**
 * The wavelet peak/valley strategy used by the live polling loop
 * (`Wave_Strat`): peaks and valleys of the denoised close become a
 * -1/0/1 signal column, delayed by `signal_delay` rows, summed into a
 * position column, and queried for the latest non-zero signal.
 *
 * The denoising and the extrema finder are library calls; their output,
 * the peak and valley row indices, is taken as input.
 */
module PvWave {
  import opened Common

  /** Every index reported by the extrema finder addresses a row of the frame. */
  predicate InRange(idx: seq<nat>, n: nat) {
    forall k :: 0 <= k < |idx| ==> idx[k] < n
  }

  /**
   * The signal column before the delay: 1 at a valley, otherwise -1 at a
   * peak, otherwise 0.  Valleys are written after peaks, so they win a clash.
   */
  function RawSignal(n: nat, peaks: seq<nat>, valleys: seq<nat>): seq<int> {
    seq(n, i => if i in valleys then 1 else if i in peaks then -1 else 0)
  }

  /**
   * The writes of `generate_signals` into a zeroed column: -1 at every peak,
   * then 1 at every valley.
   */
  method MarkSignals(n: nat, peaks: seq<nat>, valleys: seq<nat>) returns (s: seq<int>)
    requires InRange(peaks, n) && InRange(valleys, n)
    ensures s == RawSignal(n, peaks, valleys)
  {
    var a := new int[n](_ => 0);
    for k := 0 to |peaks|
      invariant forall i :: 0 <= i < n ==> a[i] == (if i in peaks[..k] then -1 else 0)
    {
      assert peaks[..k + 1] == peaks[..k] + [peaks[k]];
      a[peaks[k]] := -1;
    }
    assert peaks[..|peaks|] == peaks;
    for k := 0 to |valleys|
      invariant forall i :: 0 <= i < n ==>
        a[i] == (if i in valleys[..k] then 1 else if i in peaks then -1 else 0)
    {
      assert valleys[..k + 1] == valleys[..k] + [valleys[k]];
      a[valleys[k]] := 1;
    }
    assert valleys[..|valleys|] == valleys;
    s := a[..];
  }

  /** pandas `shift(d)`: `d` NaN slots, then the series moved `d` rows later. */
  function Shift(s: seq<int>, d: nat): (r: seq<Option<int>>)
    ensures |r| == |s|
    ensures forall i :: 0 <= i < |s| ==> r[i] == if i < d then None else Some(s[i - d])
  {
    if d >= |s| then seq(|s|, _ => None)
    else seq(d, _ => None) + seq(|s| - d, i requires 0 <= i < |s| - d => Some(s[i]))
  }

  /** The sum of the present entries (pandas sums skip NaN). */
  function SumPresent(s: seq<Option<int>>): int {
    if s == [] then 0
    else (if s[0].Some? then s[0].value else 0) + SumPresent(s[1..])
  }

  /** A running total started at `acc` that skips NaN slots and leaves them NaN. */
  function RunningTotal(s: seq<Option<int>>, acc: int): (r: seq<Option<int>>)
    ensures |r| == |s|
    ensures forall i :: 0 <= i < |s| ==>
      r[i] == if s[i].None? then None else Some(acc + SumPresent(s[..i + 1]))
  {
    if s == [] then []
    else
      var acc' := if s[0].Some? then acc + s[0].value else acc;
      var rest := RunningTotal(s[1..], acc');
      assert forall i :: 1 <= i < |s| ==> s[..i + 1][1..] == s[1..][..i];
      [if s[0].None? then None else Some(acc')] + rest
  }

  /** pandas `cumsum()` with its default `skipna`: the position column. */
  function CumSum(s: seq<Option<int>>): (r: seq<Option<int>>)
    ensures |r| == |s|
    ensures forall i :: 0 <= i < |s| ==>
      r[i] == if s[i].None? then None else Some(SumPresent(s[..i + 1]))
  {
    RunningTotal(s, 0)
  }

  /** The index of the latest entry that passes the `!= 0` filter; a NaN slot passes it. */
  function LastNonZeroIndex(s: seq<Option<int>>): (r: Option<nat>)
    ensures r.Some? ==> r.value < |s| && s[r.value] != Some(0)
                        && forall j :: r.value < j < |s| ==> s[j] == Some(0)
    ensures r.None? ==> forall j :: 0 <= j < |s| ==> s[j] == Some(0)
  {
    if s == [] then None
    else if s[|s| - 1] != Some(0) then Some(|s| - 1)
    else LastNonZeroIndex(s[..|s| - 1])
  }

  /** What `get_last_signal` reports. */
  datatype LastSignal = LastSignal(
    lastSignal: Option<int>,
    lastNonZeroPosition: int,
    periodsSinceLastSignal: nat,
    lastNonZeroClosePrice: real,
    currentClosePrice: real)

  /**
   * `get_last_signal` over the (shifted) signal column and the close column
   * of the same frame.  An empty frame raises at the first `iloc[-1]`; a
   * column without any entry passing the filter raises when the close at the
   * never-bound `last_non_zero_index` is read.
   */
  function GetLastSignal(signals: seq<Option<int>>, close: seq<real>): (r: Result<LastSignal>)
    requires |close| == |signals|
    ensures signals == [] ==> r == Failure(IndexError)
    ensures signals != [] ==>
      (r.Success? <==> exists k :: 0 <= k < |signals| && signals[k] != Some(0))
    ensures r.Failure? && signals != [] ==> r.error == UnboundLocalError
    ensures r.Success? ==>
      var n, v := |signals|, r.value;
      && v.periodsSinceLastSignal < n
      && var k := n - 1 - v.periodsSinceLastSignal;
      && signals[k] != Some(0)
      && (forall j :: k < j < n ==> signals[j] == Some(0))
      && v.lastNonZeroPosition == (if signals[k] == Some(1) then 1 else -1)
      && v.lastNonZeroClosePrice == close[k]
      && v.lastSignal == signals[n - 1]
      && v.currentClosePrice == close[n - 1]
      && (v.periodsSinceLastSignal == 0 <==> signals[n - 1] != Some(0))
  {
    if signals == [] then Failure(IndexError)
    else
      match LastNonZeroIndex(signals)
      case None => Failure(UnboundLocalError)
      case Some(k) =>
        Success(LastSignal(
          signals[|signals| - 1],
          if signals[k] == Some(1) then 1 else -1,
          |signals| - 1 - k,
          close[k],
          close[|close| - 1]))
  }

  /** Appending one entry adds its value (or nothing, for NaN) to the sum. */
  lemma {:induction false} SumPresentSnoc(a: seq<Option<int>>, x: Option<int>)
    ensures SumPresent(a + [x]) == SumPresent(a) + (if x.Some? then x.value else 0)
  {
    if a != [] {
      assert (a + [x])[1..] == a[1..] + [x];
      SumPresentSnoc(a[1..], x);
    }
  }

  /** A run of NaN slots sums to zero. */
  lemma {:induction false} SumPresentOfNone(s: seq<Option<int>>)
    requires forall i :: 0 <= i < |s| ==> s[i].None?
    ensures SumPresent(s) == 0
  {
    if s != [] {
      SumPresentOfNone(s[1..]);
    }
  }

  /**
   * Positions are running sums of the delayed signal: NaN over the `d`
   * leading slots, the first real signal at row `d`, and from then on each
   * row adds exactly the signal it carries.
   */
  lemma PositionsAreRunningSums(raw: seq<int>, d: nat, i: nat)
    requires i < |raw|
    ensures var p := CumSum(Shift(raw, d));
      && (i < d ==> p[i] == None)
      && (i == d ==> p[i] == Some(raw[0]))
      && (i > d ==> p[i].Some? && p[i - 1].Some? && p[i].value - p[i - 1].value == raw[i - d])
  {
    var s := Shift(raw, d);
    if i >= d {
      assert s[..i + 1] == s[..i] + [s[i]];
      SumPresentSnoc(s[..i], s[i]);
      if i == d {
        SumPresentOfNone(s[..i]);
      }
    }
  }

  /**
   * With no delay, `get_last_signal` fails (on a non-empty frame) exactly
   * when the extrema finder reported neither a peak nor a valley.
   */
  lemma NoDelayFailsIffNoExtrema(n: nat, peaks: seq<nat>, valleys: seq<nat>, close: seq<real>)
    requires InRange(peaks, n) && InRange(valleys, n) && |close| == n
    ensures var r := GetLastSignal(Shift(RawSignal(n, peaks, valleys), 0), close);
      r.Failure? <==> (n == 0 || (peaks == [] && valleys == []))
  {
    var s := Shift(RawSignal(n, peaks, valleys), 0);
    if peaks != [] {
      assert s[peaks[0]] != Some(0);
    } else if valleys != [] {
      assert s[valleys[0]] != Some(0);
    }
  }

  /**
   * With a positive delay the NaN slots pass the non-zero filter: when no real
   * signal follows them, the last NaN slot is reported as a sell (-1), with
   * its close, `n - d` periods ago.
   */
  lemma LeadingGapReportedAsSell(raw: seq<int>, d: nat, close: seq<real>)
    requires 0 < d <= |raw| == |close|
    requires forall i :: 0 <= i < |raw| - d ==> raw[i] == 0
    ensures var s := Shift(raw, d);
      GetLastSignal(s, close)
        == Success(LastSignal(s[|raw| - 1], -1, |raw| - d, close[d - 1], close[|raw| - 1]))
  {
    var s := Shift(raw, d);
    assert s[d - 1] == None;
  }

  /**
   * `Wave_Strat`: the constructor runs the signal pipeline, filling the
   * frame's `signal` and `position` columns in place.
   */
  class WaveStrat {
    var close: seq<real>
    var signalDelay: nat
    var peaks: seq<nat>
    var valleys: seq<nat>
    var signals: seq<Option<int>>
    var positions: seq<Option<int>>

    constructor (close: seq<real>, signalDelay: nat, peaks: seq<nat>, valleys: seq<nat>)
      requires InRange(peaks, |close|) && InRange(valleys, |close|)
      ensures this.close == close && this.signalDelay == signalDelay
      ensures this.peaks == peaks && this.valleys == valleys
      ensures signals == Shift(RawSignal(|close|, peaks, valleys), signalDelay)
      ensures positions == CumSum(signals)
    {
      this.close := close;
      this.signalDelay := signalDelay;
      this.peaks := peaks;
      this.valleys := valleys;
      signals := [];
      positions := [];
      new;
      GenerateSignals();
      CalculateReturns();
    }

    /** `generate_signals`: the marked column, shifted by the delay. */
    method GenerateSignals()
      requires InRange(peaks, |close|) && InRange(valleys, |close|)
      modifies this`signals
      ensures signals == Shift(RawSignal(|close|, peaks, valleys), signalDelay)
    {
      var raw := MarkSignals(|close|, peaks, valleys);
      signals := Shift(raw, signalDelay);
    }

    /** `calculate_returns`, its position column: the running sum of the signal. */
    method CalculateReturns()
      modifies this`positions
      ensures positions == CumSum(signals)
    {
      positions := CumSum(signals);
    }
  }
}
