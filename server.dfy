/**
 * The polling loops of the trading server (`run_wave`, `run_ema`): each
 * iteration reads the account, asks a strategy for its latest signal and
 * reconciles the position, placing at most one market order.
 *
 * The exchange data an iteration fetches (account balances, candles, the
 * extrema the smoothing finds, the EMA result) is its input; the order is
 * its output instead of a request; sleeping and console output are left out.
 */
module Server {
  import opened Common
  import PvWave
  import Account
  import Ema
  import Sorting

  datatype Side = Buy | Sell

  /** The arguments of `executeOrder`. */
  datatype Order = Order(orderType: string, side: Side, volume: string, pair: string)

  /** What one iteration of a polling loop does: place one order, hold, or stop at an exception. */
  datatype Iteration = Placed(order: Order) | Held | Raised(error: PyError)

  /** The volume `run_ema` always trades. */
  const EmaVolume: string := "0.05"

  // ---------------------------------------------------------------------------
  // run_wave

  /**
   * The balance read of `run_wave`: whether the base asset is held, and its
   * balance.  A string entry (a zero balance left as the exchange sent it)
   * reads as not held with balance 0; a missing asset raises.
   */
  function BaseHolding(balances: map<string, Account.BalanceEntry>, base: string): (r: Result<(bool, real)>)
    ensures base !in balances ==> r == Failure(KeyError)
    ensures base in balances ==> r.Success? && (r.value.0 <==> balances[base].Enriched?)
    ensures r.Success? && !r.value.0 ==> r.value.1 == 0.0
  {
    if base !in balances then Failure(KeyError)
    else
      match balances[base]
      case Raw(_) => Success((false, 0.0))
      case Enriched(rec) => Success((true, rec.balance))
  }

  /** The asset reads as held exactly when its parsed balance was not zero. */
  lemma HeldIffNonZeroBalance(
    balances: map<string, real>, buys: seq<Account.ClosedOrder>,
    depth: map<string, Account.Orderbook.RawBook>, base: string)
    requires base in balances
    ensures var entries := map a | a in balances :: Account.EntryOf(a, balances[a], buys, depth);
      BaseHolding(entries, base) == Success((false, 0.0)) <==> balances[base] == 0.0
  {
  }

  /**
   * The decision table of `run_wave`: buy when the latest signal is a buy
   * and nothing is held, sell when it is a sell and something is held, and
   * otherwise hold.
   */
  function WaveDecision(lastNonZeroPosition: int, isBalance: bool, size: string, asset: string): (r: Iteration)
    ensures !r.Raised?
    ensures r.Placed? <==> (lastNonZeroPosition == 1 && !isBalance) || (lastNonZeroPosition == -1 && isBalance)
    ensures r.Placed? ==>
      && r.order.orderType == "market" && r.order.volume == size && r.order.pair == asset
      && (r.order.side == Buy <==> lastNonZeroPosition == 1)
  {
    if lastNonZeroPosition == 1 && !isBalance then Placed(Order("market", Buy, size, asset))
    else if lastNonZeroPosition == -1 && isBalance then Placed(Order("market", Sell, size, asset))
    else Held
  }

  /**
   * One iteration of `run_wave` on the fetched balances and candles and the
   * extrema found in them.  The strategy runs with no signal delay; the
   * order trades `size` of the pair `base + quote`.
   */
  function WaveStep(
    base: string, quote: string, size: string, balances: map<string, Account.BalanceEntry>,
    close: seq<real>, peaks: seq<nat>, valleys: seq<nat>): (r: Iteration)
    requires PvWave.InRange(peaks, |close|) && PvWave.InRange(valleys, |close|)
    ensures base !in balances ==> r == Raised(KeyError)
    ensures base in balances && close == [] ==> r == Raised(IndexError)
    ensures r.Raised? ==> r.error == KeyError || r.error == IndexError || r.error == UnboundLocalError
    ensures r.Placed? ==>
      r.order.orderType == "market" && r.order.volume == size && r.order.pair == base + quote
  {
    match BaseHolding(balances, base)
    case Failure(e) => Raised(e)
    case Success((isBalance, _)) =>
      var signals := PvWave.Shift(PvWave.RawSignal(|close|, peaks, valleys), 0);
      match PvWave.GetLastSignal(signals, close)
      case Failure(e) => Raised(e)
      case Success(last) => WaveDecision(last.lastNonZeroPosition, isBalance, size, base + quote)
  }

  /** Row `k` is the latest extremum: a peak or a valley with none after it. */
  predicate LatestExtremum(n: nat, peaks: seq<nat>, valleys: seq<nat>, k: nat) {
    k < n && (k in peaks || k in valleys) && forall j :: k < j < n ==> j !in peaks && j !in valleys
  }

  /** At most one row is the latest extremum. */
  lemma LatestExtremumUnique(n: nat, peaks: seq<nat>, valleys: seq<nat>, k: nat, k': nat)
    requires LatestExtremum(n, peaks, valleys, k) && LatestExtremum(n, peaks, valleys, k')
    ensures k == k'
  {
  }

  /** With no delay, a row's signal is non-zero exactly at an extremum, and a buy exactly at a valley. */
  lemma UndelayedSignals(n: nat, peaks: seq<nat>, valleys: seq<nat>)
    ensures var signals := PvWave.Shift(PvWave.RawSignal(n, peaks, valleys), 0);
      && |signals| == n
      && (forall i :: 0 <= i < n ==> (signals[i] != Some(0) <==> i in peaks || i in valleys))
      && (forall i :: 0 <= i < n ==> (signals[i] == Some(1) <==> i in valleys))
  {
    var raw := PvWave.RawSignal(n, peaks, valleys);
    assert forall i :: 0 <= i < n ==> PvWave.Shift(raw, 0)[i] == Some(raw[i]);
  }

  /** The signals mark the extrema: non-zero exactly at a peak or a valley, a buy exactly at a valley. */
  predicate MarksExtrema(signals: seq<Option<int>>, peaks: seq<nat>, valleys: seq<nat>) {
    && (forall i :: 0 <= i < |signals| ==> (signals[i] != Some(0) <==> i in peaks || i in valleys))
    && (forall i :: 0 <= i < |signals| ==> (signals[i] == Some(1) <==> i in valleys))
  }

  /**
   * On signals that mark the extrema, `get_last_signal` succeeds exactly
   * when there is an extremum, reports the latest one, and reports it as a
   * buy exactly when it is a valley.
   */
  lemma LastSignalOfMarkedExtrema(signals: seq<Option<int>>, close: seq<real>, peaks: seq<nat>, valleys: seq<nat>)
    requires |signals| == |close| && MarksExtrema(signals, peaks, valleys)
    ensures var n, last := |close|, PvWave.GetLastSignal(signals, close);
      && (last.Success? <==> exists k :: LatestExtremum(n, peaks, valleys, k))
      && (last.Success? ==>
            var k := n - 1 - last.value.periodsSinceLastSignal;
            && LatestExtremum(n, peaks, valleys, k)
            && (last.value.lastNonZeroPosition == 1 <==> k in valleys))
  {
    var n := |close|;
    var last := PvWave.GetLastSignal(signals, close);
    if last.Success? {
      var k := n - 1 - last.value.periodsSinceLastSignal;
      assert signals[k] != Some(0);
      assert LatestExtremum(n, peaks, valleys, k);
    }
  }

  /**
   * End to end, `run_wave` buys exactly when the base asset is not held and
   * the latest extremum is a valley, and sells exactly when it is held and
   * the latest extremum is a peak that is not also a valley.
   */
  lemma WaveTradesOnLatestExtremum(
    base: string, quote: string, size: string, balances: map<string, Account.BalanceEntry>,
    close: seq<real>, peaks: seq<nat>, valleys: seq<nat>)
    requires PvWave.InRange(peaks, |close|) && PvWave.InRange(valleys, |close|)
    ensures var r, n := WaveStep(base, quote, size, balances, close, peaks, valleys), |close|;
      && (r.Placed? && r.order.side == Buy <==>
            base in balances && balances[base].Raw?
            && exists k :: LatestExtremum(n, peaks, valleys, k) && k in valleys)
      && (r.Placed? && r.order.side == Sell <==>
            base in balances && balances[base].Enriched?
            && exists k :: LatestExtremum(n, peaks, valleys, k) && k in peaks && k !in valleys)
  {
    var n := |close|;
    var signals := PvWave.Shift(PvWave.RawSignal(n, peaks, valleys), 0);
    UndelayedSignals(n, peaks, valleys);
    LastSignalOfMarkedExtrema(signals, close, peaks, valleys);
    var last := PvWave.GetLastSignal(signals, close);
    if base in balances {
      WaveStepOnLastSignal(base, quote, size, balances, close, peaks, valleys);
      var held := balances[base].Enriched?;
      if last.Success? {
        var k := n - 1 - last.value.periodsSinceLastSignal;
        DecisionOnLatest(n, peaks, valleys, k, last.value.lastNonZeroPosition, held, size, base + quote);
      }
    }
  }

  /** The decision table on the latest extremum: buy at a valley when not held, sell at a peak only when held. */
  lemma DecisionOnLatest(
    n: nat, peaks: seq<nat>, valleys: seq<nat>, k: nat, lastNonZeroPosition: int, held: bool, size: string, asset: string)
    requires LatestExtremum(n, peaks, valleys, k)
    requires lastNonZeroPosition == 1 || lastNonZeroPosition == -1
    requires lastNonZeroPosition == 1 <==> k in valleys
    ensures var r := WaveDecision(lastNonZeroPosition, held, size, asset);
      && (r.Placed? && r.order.side == Buy <==> !held && exists k' :: LatestExtremum(n, peaks, valleys, k') && k' in valleys)
      && (r.Placed? && r.order.side == Sell <==>
            held && exists k' :: LatestExtremum(n, peaks, valleys, k') && k' in peaks && k' !in valleys)
  {
    forall k' | LatestExtremum(n, peaks, valleys, k') ensures k' == k {
      LatestExtremumUnique(n, peaks, valleys, k, k');
    }
  }

  /** With the base asset present, the iteration is the decision table on the latest signal, or raises when there is none. */
  lemma WaveStepOnLastSignal(
    base: string, quote: string, size: string, balances: map<string, Account.BalanceEntry>,
    close: seq<real>, peaks: seq<nat>, valleys: seq<nat>)
    requires PvWave.InRange(peaks, |close|) && PvWave.InRange(valleys, |close|)
    requires base in balances
    ensures var r := WaveStep(base, quote, size, balances, close, peaks, valleys);
      var last := PvWave.GetLastSignal(PvWave.Shift(PvWave.RawSignal(|close|, peaks, valleys), 0), close);
      && (last.Success? ==> r == WaveDecision(last.value.lastNonZeroPosition, balances[base].Enriched?, size, base + quote))
      && (last.Failure? ==> r.Raised?)
  {
    assert BaseHolding(balances, base).value.0 == balances[base].Enriched?;
  }

  /** A cycle's fetched data: the account balances, the candles' closes and the extrema found in them. */
  datatype Cycle = Cycle(
    balances: map<string, Account.BalanceEntry>,
    close: seq<real>,
    peaks: seq<nat>,
    valleys: seq<nat>)

  /**
   * `run_wave` over a finite run of cycles: an exception ends only its own
   * iteration, and every cycle is decided on its own data.
   */
  method RunWave(base: string, quote: string, size: string, cycles: seq<Cycle>) returns (outcomes: seq<Iteration>)
    requires forall k :: 0 <= k < |cycles| ==>
      PvWave.InRange(cycles[k].peaks, |cycles[k].close|) && PvWave.InRange(cycles[k].valleys, |cycles[k].close|)
    ensures |outcomes| == |cycles|
    ensures forall k :: 0 <= k < |cycles| ==>
      outcomes[k] == WaveStep(base, quote, size, cycles[k].balances, cycles[k].close, cycles[k].peaks, cycles[k].valleys)
  {
    outcomes := [];
    for k := 0 to |cycles|
      invariant |outcomes| == k
      invariant forall i :: 0 <= i < k ==>
        outcomes[i] == WaveStep(base, quote, size, cycles[i].balances, cycles[i].close, cycles[i].peaks, cycles[i].valleys)
    {
      var c := cycles[k];
      var outcome := WaveStep(base, quote, size, c.balances, c.close, c.peaks, c.valleys);
      outcomes := outcomes + [outcome];
    }
  }

  /** Whether the asset is held after an iteration whose order filled and nothing else moved the balance. */
  function Settle(isBalance: bool, it: Iteration): bool {
    if it.Placed? then it.order.side == Buy else isBalance
  }

  /** The decisions of `run_wave` on a run of latest signals, the holding settled after each order. */
  function Replay(positions: seq<int>, isBalance: bool, size: string, asset: string): (r: seq<Iteration>)
    ensures |r| == |positions|
  {
    if positions == [] then []
    else
      var it := WaveDecision(positions[0], isBalance, size, asset);
      [it] + Replay(positions[1..], Settle(isBalance, it), size, asset)
  }

  /** The sides of the orders placed, in order. */
  function PlacedSides(its: seq<Iteration>): seq<Side> {
    if its == [] then []
    else if its[0].Placed? then [its[0].order.side] + PlacedSides(its[1..])
    else PlacedSides(its[1..])
  }

  /**
   * While orders fill and nothing else moves the balance, the orders
   * `run_wave` places alternate between buy and sell, starting with a sell
   * exactly when the asset was already held.
   */
  lemma {:induction false} OrdersAlternate(positions: seq<int>, isBalance: bool, size: string, asset: string)
    ensures var sides := PlacedSides(Replay(positions, isBalance, size, asset));
      && (forall i :: 0 <= i < |sides| - 1 ==> sides[i] != sides[i + 1])
      && (sides != [] ==> (sides[0] == Sell <==> isBalance))
  {
    if positions != [] {
      var it := WaveDecision(positions[0], isBalance, size, asset);
      OrdersAlternate(positions[1..], Settle(isBalance, it), size, asset);
      var its := Replay(positions, isBalance, size, asset);
      assert its[0] == it && its[1..] == Replay(positions[1..], Settle(isBalance, it), size, asset);
    }
  }

  // ---------------------------------------------------------------------------
  // run_ema

  /**
   * One iteration of `run_ema` on the strategy's result: an order only when
   * the strategy asks for one, a buy on position 1 and a sell on any other
   * position, always 0.05 of the reported pair at market.
   */
  function EmaStep(result: Result<Ema.EmaSignal>): (r: Iteration)
    ensures result.Failure? ==> r == Raised(result.error)
    ensures result.Success? ==> (r.Placed? <==> result.value.executeOrder) && !r.Raised?
    ensures r.Placed? ==>
      && r.order.orderType == "market" && r.order.volume == EmaVolume
      && r.order.pair == result.value.pair
      && (r.order.side == Buy <==> result.value.position == 1)
  {
    match result
    case Failure(e) => Raised(e)
    case Success(signal) =>
      if !signal.executeOrder then Held
      else if signal.position == 1 then Placed(Order("market", Buy, EmaVolume, signal.pair))
      else Placed(Order("market", Sell, EmaVolume, signal.pair))
  }

  /**
   * End to end, `run_ema` never buys: the strategy reports row 0 of the
   * time-ordered frame, where both averages equal the first close, so its
   * position is 0.  It sells exactly when the fast average is above the
   * slow one in row 1.
   */
  lemma EmaTradesOnCrossover(pair: string, rows: seq<Ema.Candle>, shortPeriod: int, longPeriod: int)
    ensures var r := EmaStep(Ema.EmaStrategy(pair, rows, shortPeriod, longPeriod));
      && (r.Placed? ==> r.order.side == Sell && r.order.pair == pair)
      && (r.Placed? <==>
            && |rows| >= 2 && shortPeriod >= 1 && longPeriod >= 1
            && var closes := Ema.Closes(Sorting.SortBy(rows, Ema.TimeKey));
               Ema.EwmAdjusted(closes, Ema.Alpha(shortPeriod))[1] > Ema.EwmAdjusted(closes, Ema.Alpha(longPeriod))[1])
  {
  }

  /**
   * With `run_ema`'s spans (a fast span shorter than the slow one) an
   * iteration sells 0.05 exactly when the second-oldest fetched candle closed
   * above the oldest, and never buys.
   */
  lemma EmaSellsIffSecondCloseRises(pair: string, rows: seq<Ema.Candle>, shortPeriod: int, longPeriod: int)
    requires 1 <= shortPeriod < longPeriod
    ensures var r, ordered := EmaStep(Ema.EmaStrategy(pair, rows, shortPeriod, longPeriod)), Sorting.SortBy(rows, Ema.TimeKey);
      && |ordered| == |rows|
      && (r.Placed? ==> r.order == Order("market", Sell, EmaVolume, pair))
      && (r.Placed? <==> |rows| >= 2 && ordered[1].close > ordered[0].close)
  {
    Ema.ExecutesIffSecondCloseRises(pair, rows, shortPeriod, longPeriod);
    Sorting.SortPreservesLength(rows, Ema.TimeKey);
  }

  /** `run_ema` over a finite run of strategy results: an exception ends only its own iteration. */
  method RunEma(results: seq<Result<Ema.EmaSignal>>) returns (outcomes: seq<Iteration>)
    ensures |outcomes| == |results|
    ensures forall k :: 0 <= k < |results| ==> outcomes[k] == EmaStep(results[k])
  {
    outcomes := [];
    for k := 0 to |results|
      invariant |outcomes| == k
      invariant forall i :: 0 <= i < k ==> outcomes[i] == EmaStep(results[i])
    {
      outcomes := outcomes + [EmaStep(results[k])];
    }
  }
}
