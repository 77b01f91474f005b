/**
 * Order-book fill pricing (`ProfitLossLogic`): the volume-weighted price of
 * filling an amount level by level against a depth ladder, and the profit
 * or loss of closing a long or short position at that price after a
 * percentage fee.
 */
module ProfitLoss {
  import opened Common

  /** The state of the depth walk: value and amount taken so far, amount still wanted. */
  datatype Fill = Fill(totalValue: real, totalAmount: real, remaining: real)

  /**
   * The depth walk over `zip(prices, quantities)`: it stops once nothing is
   * wanted, takes a level whole when its quantity does not exceed the amount
   * still wanted, and otherwise takes only that amount.
   */
  function Walk(prices: seq<real>, quantities: seq<real>, amount: real): Fill
    decreases |prices|
  {
    if prices == [] || quantities == [] || amount <= 0.0 then Fill(0.0, 0.0, amount)
    else if quantities[0] <= amount then
      var f := Walk(prices[1..], quantities[1..], amount - quantities[0]);
      Fill(prices[0] * quantities[0] + f.totalValue, quantities[0] + f.totalAmount, f.remaining)
    else Fill(prices[0] * amount, amount, 0.0)
  }

  /** The volume-weighted price of the walk, or 0 when nothing was filled. */
  function EffectivePriceOf(prices: seq<real>, quantities: seq<real>, amount: real): real {
    var f := Walk(prices, quantities, amount);
    if f.totalAmount == 0.0 then 0.0 else f.totalValue / f.totalAmount
  }

  /** One level of the walk: take the level whole or only what is still wanted, then walk the rest. */
  lemma WalkStep(prices: seq<real>, quantities: seq<real>, amount: real, i: nat)
    requires i < |prices| && i < |quantities| && amount > 0.0
    ensures var take := if quantities[i] <= amount then quantities[i] else amount;
      var next := Walk(prices[i + 1..], quantities[i + 1..], amount - take);
      var here := Walk(prices[i..], quantities[i..], amount);
      here.totalValue == prices[i] * take + next.totalValue && here.totalAmount == take + next.totalAmount
  {
    assert prices[i..][1..] == prices[i + 1..] && quantities[i..][1..] == quantities[i + 1..];
  }

  /** The loop of `calculate_effective_price`: the value and amount the depth walk takes. */
  method FillLevels(prices: seq<real>, quantities: seq<real>, amount: real)
    returns (totalValue: real, totalAmount: real)
    ensures totalValue == Walk(prices, quantities, amount).totalValue
    ensures totalAmount == Walk(prices, quantities, amount).totalAmount
  {
    var left := amount;
    totalValue, totalAmount := 0.0, 0.0;
    var i := 0;
    while i < |prices| && i < |quantities|
      invariant i <= |prices| && i <= |quantities|
      invariant var rest := Walk(prices[i..], quantities[i..], left);
        && Walk(prices, quantities, amount).totalValue == totalValue + rest.totalValue
        && Walk(prices, quantities, amount).totalAmount == totalAmount + rest.totalAmount
    {
      if left <= 0.0 {
        break;
      }
      var take := if quantities[i] <= left then quantities[i] else left;
      WalkStep(prices, quantities, left, i);
      totalValue := totalValue + prices[i] * take;
      totalAmount := totalAmount + take;
      left := left - take;
      i := i + 1;
    }
  }

  /** `calculate_effective_price`. */
  method CalculateEffectivePrice(prices: seq<real>, quantities: seq<real>, amount: real)
    returns (price: real)
    ensures price == EffectivePriceOf(prices, quantities, amount)
  {
    var totalValue, totalAmount := FillLevels(prices, quantities, amount);
    if totalAmount == 0.0 {
      return 0.0;
    }
    price := totalValue / totalAmount;
  }

  /** The amount filled plus the amount still wanted is the amount requested. */
  lemma {:induction false} WalkConservesAmount(prices: seq<real>, quantities: seq<real>, amount: real)
    ensures var f := Walk(prices, quantities, amount);
      f.totalAmount + f.remaining == amount
    decreases |prices|
  {
    if prices != [] && quantities != [] && amount > 0.0 && quantities[0] <= amount {
      WalkConservesAmount(prices[1..], quantities[1..], amount - quantities[0]);
    }
  }

  /** The quantities of the levels the walk can visit: as many as both lists have. */
  function Visited(prices: seq<real>, quantities: seq<real>): seq<real> {
    if |prices| < |quantities| then quantities[..|prices|] else quantities
  }

  /**
   * With non-negative quantities the walk fills the smaller of the amount
   * requested and the depth of the levels it can visit.
   */
  lemma {:induction false} WalkFillsUpToDepth(prices: seq<real>, quantities: seq<real>, amount: real)
    requires amount >= 0.0
    requires forall k :: 0 <= k < |quantities| ==> quantities[k] >= 0.0
    ensures var depth := Sum(Visited(prices, quantities));
      Walk(prices, quantities, amount).totalAmount == if amount <= depth then amount else depth
    decreases |prices|
  {
    var v := Visited(prices, quantities);
    if prices == [] || quantities == [] {
      assert v == [];
    } else {
      assert v[0] == quantities[0] && v[1..] == Visited(prices[1..], quantities[1..]);
      SumNonNegative(Visited(prices[1..], quantities[1..]));
      if amount > 0.0 && quantities[0] <= amount {
        WalkFillsUpToDepth(prices[1..], quantities[1..], amount - quantities[0]);
      }
    }
  }

  lemma {:induction false} SumNonNegative(s: seq<real>)
    requires forall k :: 0 <= k < |s| ==> s[k] >= 0.0
    ensures Sum(s) >= 0.0
  {
    if s != [] {
      SumNonNegative(s[1..]);
    }
  }

  /**
   * The worked example of the source: 0.7 against bids of 0.5 @ 29900,
   * 0.3 @ 29850 and 0.2 @ 29800 takes 0.5 @ 29900 and 0.2 @ 29850.
   */
  lemma WorkedExample()
    ensures Walk([29900.0, 29850.0, 29800.0], [0.5, 0.3, 0.2], 0.7) == Fill(20920.0, 0.7, 0.0)
    ensures EffectivePriceOf([29900.0, 29850.0, 29800.0], [0.5, 0.3, 0.2], 0.7) == 209200.0 / 7.0
  {
    var p, q := [29900.0, 29850.0, 29800.0], [0.5, 0.3, 0.2];
    assert p[1..] == [29850.0, 29800.0] && q[1..] == [0.3, 0.2];
    assert Walk(p[1..], q[1..], 0.2) == Fill(5970.0, 0.2, 0.0);
  }

  /**
   * `calculate_profit_or_loss_with_order_book`: a long position is priced
   * against the bids, a short one against the asks; the fee is a percentage
   * of the price times the requested amount.
   */
  function ProfitOrLoss(
    positionType: string, entryPrice: real, amount: real, feePercentage: real,
    bidPrices: seq<real>, bidQuantities: seq<real>, askPrices: seq<real>, askQuantities: seq<real>)
    : (r: Result<real>)
    ensures r.Failure? <==> positionType != "long" && positionType != "short"
    ensures r.Failure? ==> r.error == ValueError
  {
    var initialValue := entryPrice * amount;
    if positionType != "long" && positionType != "short" then Failure(ValueError)
    else
      var effectivePrice :=
        if positionType == "long" then EffectivePriceOf(bidPrices, bidQuantities, amount)
        else EffectivePriceOf(askPrices, askQuantities, amount);
      var totalAmount := effectivePrice * amount;
      var totalFee := totalAmount * (feePercentage / 100.0);
      var netAmount := totalAmount - totalFee;
      if positionType == "long" then Success(netAmount - initialValue)
      else Success(initialValue - netAmount)
  }

  /**
   * Long and short mirror each other: closing a long against a ladder gains
   * exactly what closing a short against the same ladder loses.
   */
  lemma LongShortMirror(
    entryPrice: real, amount: real, feePercentage: real,
    prices: seq<real>, quantities: seq<real>, others: seq<real>, otherQuantities: seq<real>)
    ensures ProfitOrLoss("long", entryPrice, amount, feePercentage, prices, quantities, others, otherQuantities).value
         == -ProfitOrLoss("short", entryPrice, amount, feePercentage, others, otherQuantities, prices, quantities).value
  {
  }

  /**
   * When the bids are deep enough for the whole amount, the long result is
   * the proceeds of the levels actually taken, less the fee, less the entry cost.
   */
  lemma {:induction false} LongFullFillIsProceedsLessCost(
    entryPrice: real, amount: real, feePercentage: real,
    bidPrices: seq<real>, bidQuantities: seq<real>, askPrices: seq<real>, askQuantities: seq<real>)
    requires amount > 0.0
    requires forall k :: 0 <= k < |bidQuantities| ==> bidQuantities[k] >= 0.0
    requires amount <= Sum(Visited(bidPrices, bidQuantities))
    ensures var proceeds := Walk(bidPrices, bidQuantities, amount).totalValue;
      var r := ProfitOrLoss("long", entryPrice, amount, feePercentage, bidPrices, bidQuantities, askPrices, askQuantities);
      r.Success? && r.value == proceeds * (1.0 - feePercentage / 100.0) - entryPrice * amount
  {
    WalkFillsUpToDepth(bidPrices, bidQuantities, amount);
    assert "long" != "short";
    var f := Walk(bidPrices, bidQuantities, amount);
    var price := EffectivePriceOf(bidPrices, bidQuantities, amount);
    var r := ProfitOrLoss("long", entryPrice, amount, feePercentage, bidPrices, bidQuantities, askPrices, askQuantities);
    assert r.Success?;
    assert r.value == price * amount - price * amount * (feePercentage / 100.0) - entryPrice * amount;
    assert price * amount == f.totalValue;
    var fraction := feePercentage / 100.0;
    assert f.totalValue - f.totalValue * fraction == f.totalValue * (1.0 - fraction);
    assert r.value == f.totalValue * (1.0 - fraction) - entryPrice * amount;
  }

  /** Taking a percentage fee off a gross amount leaves the complementary fraction of it. */
  lemma NetOfFee(gross: real, feePercentage: real)
    ensures gross - gross * (feePercentage / 100.0) == gross * (1.0 - feePercentage / 100.0)
  {
  }

  /**
   * When the bids are shallower than the amount, only the visible depth
   * fills and the rest stays unfilled; the whole requested amount is still
   * valued at the average price of the depth, less the fee, less the entry cost.
   */
  lemma {:induction false} LongPartialFillValuesWholeAmount(
    entryPrice: real, amount: real, feePercentage: real,
    bidPrices: seq<real>, bidQuantities: seq<real>, askPrices: seq<real>, askQuantities: seq<real>)
    requires forall k :: 0 <= k < |bidQuantities| ==> bidQuantities[k] >= 0.0
    requires 0.0 < Sum(Visited(bidPrices, bidQuantities)) < amount
    ensures var depth, f := Sum(Visited(bidPrices, bidQuantities)), Walk(bidPrices, bidQuantities, amount);
      var r := ProfitOrLoss("long", entryPrice, amount, feePercentage, bidPrices, bidQuantities, askPrices, askQuantities);
      && f.totalAmount == depth
      && f.remaining == amount - depth > 0.0
      && r.Success?
      && r.value == f.totalValue / depth * amount * (1.0 - feePercentage / 100.0) - entryPrice * amount
  {
    WalkFillsUpToDepth(bidPrices, bidQuantities, amount);
    WalkConservesAmount(bidPrices, bidQuantities, amount);
    assert "long" != "short";
    var price := EffectivePriceOf(bidPrices, bidQuantities, amount);
    NetOfFee(price * amount, feePercentage);
  }

  /** The mirror for a short: the whole amount is bought back at the average price of the visible asks. */
  lemma {:induction false} ShortPartialFillValuesWholeAmount(
    entryPrice: real, amount: real, feePercentage: real,
    bidPrices: seq<real>, bidQuantities: seq<real>, askPrices: seq<real>, askQuantities: seq<real>)
    requires forall k :: 0 <= k < |askQuantities| ==> askQuantities[k] >= 0.0
    requires 0.0 < Sum(Visited(askPrices, askQuantities)) < amount
    ensures var depth, f := Sum(Visited(askPrices, askQuantities)), Walk(askPrices, askQuantities, amount);
      var r := ProfitOrLoss("short", entryPrice, amount, feePercentage, bidPrices, bidQuantities, askPrices, askQuantities);
      && f.totalAmount == depth
      && f.remaining == amount - depth > 0.0
      && r.Success?
      && r.value == entryPrice * amount - f.totalValue / depth * amount * (1.0 - feePercentage / 100.0)
  {
    WalkFillsUpToDepth(askPrices, askQuantities, amount);
    WalkConservesAmount(askPrices, askQuantities, amount);
    var price := EffectivePriceOf(askPrices, askQuantities, amount);
    NetOfFee(price * amount, feePercentage);
  }

  /** With no depth at all nothing fills, the price is 0, and a long loses its whole entry cost. */
  lemma {:induction false} LongEmptyBookLosesEntry(
    entryPrice: real, amount: real, feePercentage: real,
    bidPrices: seq<real>, bidQuantities: seq<real>, askPrices: seq<real>, askQuantities: seq<real>)
    requires amount >= 0.0
    requires forall k :: 0 <= k < |bidQuantities| ==> bidQuantities[k] >= 0.0
    requires Sum(Visited(bidPrices, bidQuantities)) == 0.0
    ensures ProfitOrLoss("long", entryPrice, amount, feePercentage, bidPrices, bidQuantities, askPrices, askQuantities)
         == Success(-(entryPrice * amount))
  {
    WalkFillsUpToDepth(bidPrices, bidQuantities, amount);
    assert "long" != "short";
  }
}
