/**
 * The earlier wavelet strategy (`Wave_Strategy`): it adds peak, valley and
 * signal columns to the loaded frame, a one-row-delayed buy and sell flag,
 * a position column, and answers the latest actionable signal.
 *
 * The Haar-wavelet smoothing and the extrema finder are library calls;
 * their output, the peak and valley row indices, is taken as input.
 */
module PeaksValleys {
  import opened Common
  import PvWave

  /** A flag column: 1 at the listed rows, else 0. */
  function Flags(n: nat, idx: seq<nat>): seq<int> {
    seq(n, i => if i in idx then 1 else 0)
  }

  /**
   * The signal column: -1 at a peak, otherwise 1 at a valley, otherwise 0.
   * The peak mask is applied last, so a peak wins a clash.
   */
  function PvSignal(n: nat, peaks: seq<nat>, valleys: seq<nat>): seq<int> {
    seq(n, i => if i in peaks then -1 else if i in valleys then 1 else 0)
  }

  /** Every signal is -1, 0 or 1. */
  predicate Ternary(signal: seq<int>) {
    forall i :: 0 <= i < |signal| ==> -1 <= signal[i] <= 1
  }

  /**
   * The column writes of `identify_peaks_valleys`: the zeroed peak and valley
   * columns get a 1 at each reported row, then the signal column gets 1
   * where the valley flag is set and, after that, -1 where the peak flag is set.
   */
  method MarkColumns(n: nat, peaks: seq<nat>, valleys: seq<nat>)
    returns (peak: seq<int>, valley: seq<int>, signal: seq<int>)
    requires PvWave.InRange(peaks, n) && PvWave.InRange(valleys, n)
    ensures peak == Flags(n, peaks) && valley == Flags(n, valleys)
    ensures signal == PvSignal(n, peaks, valleys)
  {
    var p := new int[n](_ => 0);
    for k := 0 to |peaks|
      invariant forall i :: 0 <= i < n ==> p[i] == (if i in peaks[..k] then 1 else 0)
    {
      assert peaks[..k + 1] == peaks[..k] + [peaks[k]];
      p[peaks[k]] := 1;
    }
    assert peaks[..|peaks|] == peaks;
    peak := p[..];
    var v := new int[n](_ => 0);
    for k := 0 to |valleys|
      invariant forall i :: 0 <= i < n ==> v[i] == (if i in valleys[..k] then 1 else 0)
    {
      assert valleys[..k + 1] == valleys[..k] + [valleys[k]];
      v[valleys[k]] := 1;
    }
    assert valleys[..|valleys|] == valleys;
    valley := v[..];
    var s := new int[n](_ => 0);
    for i := 0 to n
      invariant forall j :: 0 <= j < n ==> s[j] == (if j < i && valley[j] == 1 then 1 else 0)
    {
      if valley[i] == 1 {
        s[i] := 1;
      }
    }
    for i := 0 to n
      invariant forall j :: 0 <= j < n ==>
        s[j] == (if j < i && peak[j] == 1 then -1 else if valley[j] == 1 then 1 else 0)
    {
      if peak[i] == 1 {
        s[i] := -1;
      }
    }
    signal := s[..];
  }

  /** `(signal == v).astype(int).shift(1)`: NaN at row 0, then whether the previous row's signal was `v`. */
  function DelayedFlag(signal: seq<int>, v: int): (r: seq<Option<int>>)
    ensures |r| == |signal|
    ensures |signal| > 0 ==> r[0] == None
    ensures forall i :: 1 <= i < |signal| ==> r[i] == Some(if signal[i - 1] == v then 1 else 0)
  {
    if signal == [] then []
    else [None] + seq(|signal| - 1, i requires 0 <= i < |signal| - 1 => Some(if signal[i] == v then 1 else 0))
  }

  /** The buy and sell flags never fire on the same row. */
  lemma FlagsNeverBothFire(signal: seq<int>)
    ensures forall i :: 0 <= i < |signal| ==>
      !(DelayedFlag(signal, 1)[i] == Some(1) && DelayedFlag(signal, -1)[i] == Some(1))
  {
  }

  function Sum(s: seq<int>): int {
    if s == [] then 0 else s[0] + Sum(s[1..])
  }

  /** Running sums started at `acc` (pandas `cumsum`). */
  function RunningSums(s: seq<int>, acc: int): (r: seq<int>)
    ensures |r| == |s|
    ensures forall i :: 0 <= i < |s| ==> r[i] == acc + Sum(s[..i + 1])
  {
    if s == [] then []
    else
      var rest := RunningSums(s[1..], acc + s[0]);
      assert forall i :: 1 <= i < |s| ==> s[..i + 1][1..] == s[1..][..i];
      [acc + s[0]] + rest
  }

  /** `signal.cumsum().shift(1).fillna(0)`: the position held during each row. */
  function Positions(signal: seq<int>): (r: seq<int>)
    ensures |r| == |signal|
    ensures forall i :: 0 <= i < |signal| ==> r[i] == Sum(signal[..i])
  {
    if signal == [] then []
    else
      var sums := RunningSums(signal, 0);
      assert signal[..0] == [];
      [0] + sums[..|signal| - 1]
  }

  lemma {:induction false} SumSnoc(a: seq<int>, x: int)
    ensures Sum(a + [x]) == Sum(a) + x
  {
    if a != [] {
      assert (a + [x])[1..] == a[1..] + [x];
      SumSnoc(a[1..], x);
    }
  }

  /** The position starts flat and each row adds the signal of the row before it. */
  lemma PositionsStep(signal: seq<int>, i: nat)
    requires i + 1 < |signal|
    ensures Positions(signal)[0] == 0
    ensures Positions(signal)[i + 1] == Positions(signal)[i] + signal[i]
  {
    assert signal[..i + 1] == signal[..i] + [signal[i]];
    SumSnoc(signal[..i], signal[i]);
  }

  /** The index of the latest non-zero signal, if any. */
  function LatestNonZero(signal: seq<int>): (r: Option<nat>)
    ensures r.Some? ==> r.value < |signal| && signal[r.value] != 0
                        && forall j :: r.value < j < |signal| ==> signal[j] == 0
    ensures r.None? ==> forall j :: 0 <= j < |signal| ==> signal[j] == 0
  {
    if signal == [] then None
    else if signal[|signal| - 1] != 0 then Some(|signal| - 1)
    else LatestNonZero(signal[..|signal| - 1])
  }

  /**
   * `get_latest_signal` over the signal, buy-flag and sell-flag columns: the
   * delayed buy flag of the last row, else its delayed sell flag, else the
   * latest non-zero signal, else 0.  An empty frame fails at `iloc[-1]`.
   */
  function LatestSignal(signal: seq<int>, buySignal: seq<Option<int>>, sellSignal: seq<Option<int>>)
    : (r: Result<int>)
    requires |buySignal| == |signal| && |sellSignal| == |signal|
    ensures r.Failure? <==> signal == []
    ensures r.Failure? ==> r.error == IndexError
  {
    if signal == [] then Failure(IndexError)
    else if buySignal[|signal| - 1] == Some(1) then Success(1)
    else if sellSignal[|signal| - 1] == Some(1) then Success(-1)
    else
      match LatestNonZero(signal)
      case None => Success(0)
      case Some(k) => Success(signal[k])
  }

  /**
   * On the columns `identify_peaks_valleys` builds, the latest signal is
   * -1, 0 or 1; it is 0 exactly when the whole signal column is 0; a
   * non-zero signal on the second-to-last row decides it; otherwise it is
   * the latest non-zero signal.
   */
  lemma LatestSignalOfColumns(signal: seq<int>)
    requires signal != [] && Ternary(signal)
    ensures var n, r := |signal|, LatestSignal(signal, DelayedFlag(signal, 1), DelayedFlag(signal, -1));
      && r.Success?
      && -1 <= r.value <= 1
      && (r.value == 0 <==> forall i :: 0 <= i < n ==> signal[i] == 0)
      && (n >= 2 && signal[n - 2] != 0 ==> r.value == signal[n - 2])
      && ((n == 1 || signal[n - 2] == 0) && r.value != 0 ==>
            exists k :: 0 <= k < n && signal[k] == r.value && forall j :: k < j < n ==> signal[j] == 0)
  {
    var n := |signal|;
    if n >= 2 && signal[n - 2] != 0 {
      assert signal[n - 2] == 1 || signal[n - 2] == -1;
    }
  }

  /**
   * The delayed flag outranks a newer signal: a valley on the second-to-last
   * row and a peak on the last row still answer 1.
   */
  lemma DelayedBuyOutranksNewerSell(signal: seq<int>)
    requires |signal| >= 2 && signal[|signal| - 2] == 1 && signal[|signal| - 1] == -1
    ensures LatestSignal(signal, DelayedFlag(signal, 1), DelayedFlag(signal, -1)) == Success(1)
    ensures LatestNonZero(signal) == Some(|signal| - 1)
  {
  }

  /** The columns `identify_peaks_valleys` adds to the frame. */
  datatype SignalColumns = SignalColumns(
    peak: seq<int>,
    valley: seq<int>,
    signal: seq<int>,
    buySignal: seq<Option<int>>,
    sellSignal: seq<Option<int>>)

  /** `Wave_Strategy` after `load_data`: the loaded numeric columns and the columns it adds in place. */
  class WaveStrategy {
    const priceCol: string
    const frame: map<string, seq<real>>
    const rows: nat
    var columns: Option<SignalColumns>
    var position: Option<seq<int>>

    /** The frame's columns all have one entry per row, and the added columns fit together. */
    ghost predicate Valid()
      reads this
    {
      && (forall c :: c in frame ==> |frame[c]| == rows)
      && (columns.Some? ==>
            var cols := columns.value;
            && |cols.peak| == |cols.valley| == |cols.signal| == rows
            && Ternary(cols.signal)
            && cols.buySignal == DelayedFlag(cols.signal, 1)
            && cols.sellSignal == DelayedFlag(cols.signal, -1))
      && (position.Some? ==> |position.value| == rows)
    }

    constructor (frame: map<string, seq<real>>, rows: nat, priceCol: string)
      requires forall c :: c in frame ==> |frame[c]| == rows
      ensures Valid()
      ensures this.frame == frame && this.rows == rows && this.priceCol == priceCol
      ensures columns == None && position == None
    {
      this.frame := frame;
      this.rows := rows;
      this.priceCol := priceCol;
      columns := None;
      position := None;
    }

    /** `identify_peaks_valleys`: a missing price column raises before anything is written. */
    method IdentifyPeaksValleys(peaks: seq<nat>, valleys: seq<nat>) returns (raised: Option<PyError>)
      requires Valid() && PvWave.InRange(peaks, rows) && PvWave.InRange(valleys, rows)
      modifies this`columns
      ensures Valid()
      ensures priceCol !in frame ==> raised == Some(KeyError) && columns == old(columns)
      ensures priceCol in frame ==> raised == None
      ensures priceCol in frame ==>
        var signal := PvSignal(rows, peaks, valleys);
        columns == Some(SignalColumns(
          Flags(rows, peaks), Flags(rows, valleys), signal,
          DelayedFlag(signal, 1), DelayedFlag(signal, -1)))
    {
      if priceCol !in frame {
        return Some(KeyError);
      }
      var peak, valley, signal := MarkColumns(rows, peaks, valleys);
      columns := Some(SignalColumns(peak, valley, signal, DelayedFlag(signal, 1), DelayedFlag(signal, -1)));
      raised := None;
    }

    /** `generate_positions`: the position column from the signal column, which must exist. */
    method GeneratePositions() returns (raised: Option<PyError>)
      requires Valid()
      modifies this`position
      ensures Valid()
      ensures columns.None? ==> raised == Some(KeyError) && position == old(position)
      ensures columns.Some? ==> raised == None && position == Some(Positions(columns.value.signal))
    {
      if columns.None? {
        return Some(KeyError);
      }
      position := Some(Positions(columns.value.signal));
      raised := None;
    }

    /**
     * `get_latest_signal` on the frame: without the flag columns it raises;
     * with them it answers -1, 0 or 1, and 0 exactly when no signal fired.
     */
    function GetLatestSignal(): (r: Result<int>)
      reads this
      requires Valid()
      ensures columns.None? ==> r == Failure(KeyError)
      ensures columns.Some? && rows == 0 ==> r == Failure(IndexError)
      ensures columns.Some? && rows > 0 ==>
        && r.Success? && -1 <= r.value <= 1
        && (r.value == 0 <==> forall i :: 0 <= i < rows ==> columns.value.signal[i] == 0)
    {
      if columns.None? then Failure(KeyError)
      else
        var cols := columns.value;
        if cols.signal == [] then LatestSignal(cols.signal, cols.buySignal, cols.sellSignal)
        else
          LatestSignalOfColumns(cols.signal);
          LatestSignal(cols.signal, cols.buySignal, cols.sellSignal)
    }
  }
}
