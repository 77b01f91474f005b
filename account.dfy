/**
 * Account valuation (`Account.getBalances`, `Account.getClosedOrders`):
 * closed orders newest first and split by side, and every non-zero balance
 * replaced by a record holding its cost basis (the newest matching buy),
 * its liquidation value against the bid ladder, the exchange fee on that
 * value and the profit after the fee.
 *
 * The private-API requests are left out: the decoded balances (parsed to
 * numbers), the closed orders and the order-book snapshots are inputs.
 */
module Account {
  import opened Common
  import Sorting
  import Orderbook

  /** The fee rate `getBalances` charges on a liquidation: 0.4%. */
  const FeeRate: real := 0.004

  /** The record that replaces a non-zero balance. */
  datatype BalanceRecord = BalanceRecord(
    balance: real,
    costBasis: real,
    currentValueToOrderbook: real,
    fee: real,
    pnlMinusFee: real,
    afterExecutionUsdValue: real)

  /** A balance entry: still the exchange's string (here its parsed amount), or the record replacing it. */
  datatype BalanceEntry = Raw(amount: real) | Enriched(record: BalanceRecord)

  /** A closed order, with the fields the account code reads. */
  datatype ClosedOrder = ClosedOrder(txid: string, closetm: real, side: string, pair: string, cost: real)

  /** What `getClosedOrders` returns. */
  datatype ClosedOrders = ClosedOrders(closed: seq<ClosedOrder>, closedBuy: seq<ClosedOrder>, closedSell: seq<ClosedOrder>)

  // ---------------------------------------------------------------------------
  // Closed orders

  /** The sort key of `sorted(..., key=closetm, reverse=True)`, as an ascending key. */
  function NewestFirst(o: ClosedOrder): real {
    -o.closetm
  }

  /** Close times never increase along `s`. */
  predicate Newest(s: seq<ClosedOrder>) {
    forall i, j :: 0 <= i < j < |s| ==> s[i].closetm >= s[j].closetm
  }

  /** The orders of `s` on the given side, in their order. */
  function OfSide(s: seq<ClosedOrder>, side: string): (r: seq<ClosedOrder>)
    ensures forall o :: o in r <==> o in s && o.side == side
    ensures forall o :: multiset(r)[o] == if o.side == side then multiset(s)[o] else 0
    ensures |r| <= |s|
  {
    if s == [] then []
    else
      assert s == [s[0]] + s[1..];
      if s[0].side == side then [s[0]] + OfSide(s[1..], side)
      else OfSide(s[1..], side)
  }

  /** Filtering a concatenation filters each part and keeps their order. */
  lemma {:induction false} OfSideAppend(a: seq<ClosedOrder>, b: seq<ClosedOrder>, side: string)
    ensures OfSide(a + b, side) == OfSide(a, side) + OfSide(b, side)
  {
    if a == [] {
      assert a + b == b;
    } else {
      assert (a + b)[0] == a[0] && (a + b)[1..] == a[1..] + b;
      OfSideAppend(a[1..], b, side);
    }
  }

  /** Keeping only one side keeps a newest-first list newest first. */
  lemma {:induction false} OfSideKeepsNewestFirst(s: seq<ClosedOrder>, side: string)
    requires Newest(s)
    ensures Newest(OfSide(s, side))
  {
    if s != [] {
      OfSideKeepsNewestFirst(s[1..], side);
      var rest := OfSide(s[1..], side);
      forall k | 0 <= k < |rest| ensures s[0].closetm >= rest[k].closetm {
        assert rest[k] in s[1..];
      }
    }
  }

  /**
   * `getClosedOrders`: every closed order, newest first, then the buys and
   * the sells of that list.
   */
  function GetClosedOrders(closed: seq<ClosedOrder>): (r: ClosedOrders)
    ensures multiset(r.closed) == multiset(closed)
    ensures Newest(r.closed) && Newest(r.closedBuy) && Newest(r.closedSell)
    ensures r.closedBuy == OfSide(r.closed, "buy") && r.closedSell == OfSide(r.closed, "sell")
    ensures forall o :: o in r.closedBuy <==> o in closed && o.side == "buy"
    ensures forall o :: o in r.closedSell <==> o in closed && o.side == "sell"
  {
    var sorted := Sorting.SortBy(closed, NewestFirst);
    assert forall o :: o in sorted <==> o in multiset(sorted);
    assert Newest(sorted) by {
      forall i, j | 0 <= i < j < |sorted| ensures sorted[i].closetm >= sorted[j].closetm {
        assert NewestFirst(sorted[i]) <= NewestFirst(sorted[j]);
      }
    }
    OfSideKeepsNewestFirst(sorted, "buy");
    OfSideKeepsNewestFirst(sorted, "sell");
    ClosedOrders(sorted, OfSide(sorted, "buy"), OfSide(sorted, "sell"))
  }

  /** The buys and the sells each occur as often as in the closed orders; the other side's orders not at all. */
  lemma ClosedOrdersKeepMultiplicity(closed: seq<ClosedOrder>)
    ensures var r := GetClosedOrders(closed);
      && (forall o :: multiset(r.closedBuy)[o] == if o.side == "buy" then multiset(closed)[o] else 0)
      && (forall o :: multiset(r.closedSell)[o] == if o.side == "sell" then multiset(closed)[o] else 0)
  {
  }

  // ---------------------------------------------------------------------------
  // Cost basis

  /** `needle` occurs in `hay` starting at `i`. */
  predicate OccursAt(hay: string, needle: string, i: nat) {
    i + |needle| <= |hay| && hay[i..i + |needle|] == needle
  }

  /** Python's `needle in hay` on strings. */
  predicate Contains(hay: string, needle: string) {
    exists i: nat :: i <= |hay| && OccursAt(hay, needle, i)
  }

  /** The cost of the first buy whose pair contains the asset name, or 0 when none does. */
  function CostBasisOf(asset: string, buys: seq<ClosedOrder>): (r: real)
    ensures (forall k :: 0 <= k < |buys| ==> !Contains(buys[k].pair, asset)) ==> r == 0.0
    ensures (exists k :: 0 <= k < |buys| && Contains(buys[k].pair, asset)) ==>
      exists k :: && 0 <= k < |buys| && Contains(buys[k].pair, asset) && r == buys[k].cost
                  && forall j :: 0 <= j < k ==> !Contains(buys[j].pair, asset)
  {
    if buys == [] then 0.0
    else if Contains(buys[0].pair, asset) then buys[0].cost
    else
      var r := CostBasisOf(asset, buys[1..]);
      assert forall k :: 1 <= k < |buys| ==> buys[k] == buys[1..][k - 1];
      r
  }

  /** On a newest-first list, the first buy matching the asset closed no earlier than any other match. */
  lemma FirstMatchIsNewest(asset: string, buys: seq<ClosedOrder>, j: nat)
    requires Newest(buys) && j < |buys| && Contains(buys[j].pair, asset)
    ensures exists k :: && 0 <= k < |buys| && Contains(buys[k].pair, asset)
                        && CostBasisOf(asset, buys) == buys[k].cost && buys[j].closetm <= buys[k].closetm
  {
    var k :| && 0 <= k < |buys| && Contains(buys[k].pair, asset)
             && CostBasisOf(asset, buys) == buys[k].cost
             && forall i :: 0 <= i < k ==> !Contains(buys[i].pair, asset);
    assert k <= j;
  }

  /**
   * The cost basis is the cost of the newest closed buy whose pair contains
   * the asset name: no other matching buy closed later.
   */
  lemma CostBasisIsNewestMatchingBuy(asset: string, closed: seq<ClosedOrder>, p: ClosedOrder)
    requires p in closed && p.side == "buy" && Contains(p.pair, asset)
    ensures exists o :: && o in closed && o.side == "buy" && Contains(o.pair, asset)
                        && CostBasisOf(asset, GetClosedOrders(closed).closedBuy) == o.cost
                        && p.closetm <= o.closetm
  {
    var buys := GetClosedOrders(closed).closedBuy;
    assert p in buys;
    var j :| 0 <= j < |buys| && buys[j] == p;
    FirstMatchIsNewest(asset, buys, j);
    var k :| && 0 <= k < |buys| && Contains(buys[k].pair, asset)
             && CostBasisOf(asset, buys) == buys[k].cost && buys[j].closetm <= buys[k].closetm;
    assert buys[k] in buys;
  }

  // ---------------------------------------------------------------------------
  // Liquidation against the bids

  /** Where the bid walk ends: the value taken, the balance left in the record, the levels used up. */
  datatype Liquidation = Liquidation(value: real, residual: real, consumed: nat)

  /**
   * The bid walk: while the balance left exceeds a level's quantity the
   * whole level is valued and subtracted; the first level that does not
   * fall short of it values the rest of the balance and ends the walk.
   */
  function BidWalk(balance: real, prices: seq<real>, quantities: seq<real>): (w: Liquidation)
    requires |prices| == |quantities|
    ensures w.consumed <= |quantities|
    decreases |quantities|
  {
    if quantities == [] then Liquidation(0.0, balance, 0)
    else if balance > quantities[0] then
      var w := BidWalk(balance - quantities[0], prices[1..], quantities[1..]);
      Liquidation(quantities[0] * prices[0] + w.value, w.residual, w.consumed + 1)
    else Liquidation(balance * prices[0], balance, 0)
  }

  /** The proceeds of selling every level in full. */
  function Proceeds(prices: seq<real>, quantities: seq<real>): real
    requires |prices| == |quantities|
  {
    if quantities == [] then 0.0 else quantities[0] * prices[0] + Proceeds(prices[1..], quantities[1..])
  }

  /** The holding is the quantities of the levels used up plus the residual left in the record. */
  lemma {:induction false} BidWalkConserves(balance: real, prices: seq<real>, quantities: seq<real>)
    requires |prices| == |quantities|
    decreases |quantities|
    ensures var w := BidWalk(balance, prices, quantities);
      balance == Sum(quantities[..w.consumed]) + w.residual
  {
    var w := BidWalk(balance, prices, quantities);
    if quantities != [] && balance > quantities[0] {
      BidWalkConserves(balance - quantities[0], prices[1..], quantities[1..]);
      var c := w.consumed;
      assert quantities[..c][0] == quantities[0];
      assert quantities[..c][1..] == quantities[1..][..c - 1];
    } else {
      assert quantities[..0] == [];
    }
  }

  /** A walk that stops early stops at the first level not below the balance left. */
  lemma {:induction false} BidWalkStops(balance: real, prices: seq<real>, quantities: seq<real>)
    requires |prices| == |quantities|
    decreases |quantities|
    ensures var w := BidWalk(balance, prices, quantities);
      && (w.consumed < |quantities| ==> w.residual <= quantities[w.consumed])
      && (forall k :: 0 <= k < w.consumed ==> quantities[k] < balance - Sum(quantities[..k]))
  {
    var w := BidWalk(balance, prices, quantities);
    if quantities != [] && balance > quantities[0] {
      BidWalkStops(balance - quantities[0], prices[1..], quantities[1..]);
      var rest := quantities[1..];
      forall k | 0 <= k < w.consumed ensures quantities[k] < balance - Sum(quantities[..k]) {
        if k > 0 {
          assert quantities[..k][0] == quantities[0];
          assert quantities[..k][1..] == rest[..k - 1];
          assert quantities[k] == rest[k - 1];
        } else {
          assert quantities[..0] == [];
        }
      }
    }
  }

  /**
   * The value is the proceeds of the used-up levels plus the residual at the
   * price of the level where the walk stopped, if it stopped before the end.
   */
  lemma {:induction false} BidWalkValue(balance: real, prices: seq<real>, quantities: seq<real>)
    requires |prices| == |quantities|
    decreases |quantities|
    ensures var w := BidWalk(balance, prices, quantities);
      w.value == Proceeds(prices[..w.consumed], quantities[..w.consumed])
                 + (if w.consumed < |quantities| then w.residual * prices[w.consumed] else 0.0)
  {
    var w := BidWalk(balance, prices, quantities);
    if quantities != [] && balance > quantities[0] {
      var ps, qs := prices[1..], quantities[1..];
      BidWalkValue(balance - quantities[0], ps, qs);
      ProceedsCons(prices, quantities, w.consumed);
      if w.consumed < |quantities| {
        assert prices[w.consumed] == ps[w.consumed - 1];
      }
    } else {
      assert quantities[..0] == [] && prices[..0] == [];
    }
  }

  /** The proceeds of a non-empty prefix are its first level plus the proceeds of the rest of the prefix. */
  lemma ProceedsCons(prices: seq<real>, quantities: seq<real>, c: nat)
    requires |prices| == |quantities| && 1 <= c <= |quantities|
    ensures Proceeds(prices[..c], quantities[..c])
      == quantities[0] * prices[0] + Proceeds(prices[1..][..c - 1], quantities[1..][..c - 1])
  {
    assert prices[..c][1..] == prices[1..][..c - 1] && quantities[..c][1..] == quantities[1..][..c - 1];
  }

  // ---------------------------------------------------------------------------
  // Enrichment

  /** The record that replaces a non-zero balance of `asset`. */
  function Enrich(asset: string, amount: real, buys: seq<ClosedOrder>, depth: map<string, Orderbook.RawBook>)
    : (rec: BalanceRecord)
    ensures rec.costBasis == CostBasisOf(asset, buys)
    ensures Orderbook.OrderBookData(depth, asset + "USD").Failure? ==>
      rec.currentValueToOrderbook == 0.0 && rec.balance == amount
    ensures Orderbook.OrderBookData(depth, asset + "USD").Success? ==>
      var book := Orderbook.OrderBookData(depth, asset + "USD").value;
      var w := BidWalk(amount, book.bidPrices, book.bidQuantities);
      rec.currentValueToOrderbook == w.value && rec.balance == w.residual
    ensures rec.fee == FeeRate * rec.currentValueToOrderbook
    ensures rec.pnlMinusFee == rec.currentValueToOrderbook - rec.costBasis - rec.fee
    ensures rec.afterExecutionUsdValue == rec.currentValueToOrderbook - rec.fee
  {
    var cost := CostBasisOf(asset, buys);
    var (value, left) :=
      match Orderbook.OrderBookData(depth, asset + "USD")
      case Failure(_) => (0.0, amount)
      case Success(book) =>
        var w := BidWalk(amount, book.bidPrices, book.bidQuantities);
        (w.value, w.residual);
    var fee := value * FeeRate;
    BalanceRecord(left, cost, value, fee, value - cost - fee, value - fee)
  }

  /**
   * With an order book on hand the record's `balance` field is what the walk
   * left over, not the holding: the holding is the used-up bid quantities
   * plus that field.
   */
  lemma RecordBalanceIsResidual(asset: string, amount: real, buys: seq<ClosedOrder>, depth: map<string, Orderbook.RawBook>)
    requires Orderbook.OrderBookData(depth, asset + "USD").Success?
    ensures var book := Orderbook.OrderBookData(depth, asset + "USD").value;
      var rec := Enrich(asset, amount, buys, depth);
      exists c :: 0 <= c <= |book.bidQuantities| && amount == Sum(book.bidQuantities[..c]) + rec.balance
  {
    var book := Orderbook.OrderBookData(depth, asset + "USD").value;
    BidWalkConserves(amount, book.bidPrices, book.bidQuantities);
    var w := BidWalk(amount, book.bidPrices, book.bidQuantities);
    assert 0 <= w.consumed <= |book.bidQuantities|;
  }

  /** The cost-basis search: the first buy whose pair contains the asset. */
  method LookupCostBasis(asset: string, buys: seq<ClosedOrder>) returns (costBasis: real)
    ensures costBasis == CostBasisOf(asset, buys)
  {
    costBasis := 0.0;
    var k := 0;
    while k < |buys|
      invariant k <= |buys|
      invariant CostBasisOf(asset, buys) == CostBasisOf(asset, buys[k..])
    {
      assert buys[k..][1..] == buys[k + 1..];
      if Contains(buys[k].pair, asset) {
        costBasis := buys[k].cost;
        break;
      }
      k := k + 1;
    }
  }

  /** The bid walk as `getBalances` runs it, updating the value and the balance left. */
  method WalkBids(amount: real, prices: seq<real>, quantities: seq<real>) returns (value: real, balance: real)
    requires |prices| == |quantities|
    ensures value == BidWalk(amount, prices, quantities).value
    ensures balance == BidWalk(amount, prices, quantities).residual
  {
    value, balance := 0.0, amount;
    var i := 0;
    while i < |quantities|
      invariant i <= |quantities|
      invariant var w, rest := BidWalk(amount, prices, quantities), BidWalk(balance, prices[i..], quantities[i..]);
        w.value == value + rest.value && w.residual == rest.residual
    {
      assert prices[i..][1..] == prices[i + 1..] && quantities[i..][1..] == quantities[i + 1..];
      if balance > quantities[i] {
        value := value + quantities[i] * prices[i];
        balance := balance - quantities[i];
      } else {
        value := value + balance * prices[i];
        break;
      }
      i := i + 1;
    }
  }

  /**
   * The loop body of `getBalances` for one non-zero asset: the cost-basis
   * search, then the bid walk on the asset's USD book (a failing book leaves
   * the value 0 and the balance whole), then the fee and profit fields.
   */
  method EnrichAsset(asset: string, amount: real, buys: seq<ClosedOrder>, depth: map<string, Orderbook.RawBook>)
    returns (rec: BalanceRecord)
    ensures rec == Enrich(asset, amount, buys, depth)
  {
    var costBasis := LookupCostBasis(asset, buys);
    var value, balance := 0.0, amount;
    var book := Orderbook.OrderBookData(depth, asset + "USD");
    if book.Success? {
      value, balance := WalkBids(amount, book.value.bidPrices, book.value.bidQuantities);
    }
    var fee := value * FeeRate;
    rec := BalanceRecord(balance, costBasis, value, fee, value - costBasis - fee, value - fee);
  }

  /** What `getBalances` leaves under one asset: a zero balance untouched, any other enriched. */
  function EntryOf(asset: string, amount: real, buys: seq<ClosedOrder>, depth: map<string, Orderbook.RawBook>)
    : BalanceEntry
  {
    if amount == 0.0 then Raw(amount) else Enriched(Enrich(asset, amount, buys, depth))
  }

  /**
   * The loop of `getBalances`: each asset of the balance map is visited
   * once; a zero balance keeps its original entry and every other one is
   * replaced by its enriched record.  No asset is added or dropped.
   */
  method EnrichBalances(balances: map<string, real>, buys: seq<ClosedOrder>, depth: map<string, Orderbook.RawBook>)
    returns (result: map<string, BalanceEntry>)
    ensures result.Keys == balances.Keys
    ensures forall a :: a in balances && balances[a] == 0.0 ==> result[a] == Raw(balances[a])
    ensures forall a :: a in balances ==> result[a] == EntryOf(a, balances[a], buys, depth)
  {
    result := map a | a in balances :: Raw(balances[a]);
    var todo := balances.Keys;
    while todo != {}
      invariant todo <= balances.Keys
      invariant result.Keys == balances.Keys
      invariant forall a :: a in balances ==>
        result[a] == if a in todo then Raw(balances[a]) else EntryOf(a, balances[a], buys, depth)
      decreases |todo|
    {
      var a :| a in todo;
      if balances[a] != 0.0 {
        var rec := EnrichAsset(a, balances[a], buys, depth);
        result := result[a := Enriched(rec)];
      }
      todo := todo - {a};
    }
  }

  /** `getBalances`: the balance pass with the cost bases taken from the closed buys, newest first. */
  method GetBalances(balances: map<string, real>, closed: seq<ClosedOrder>, depth: map<string, Orderbook.RawBook>)
    returns (result: map<string, BalanceEntry>)
    ensures result.Keys == balances.Keys
    ensures forall a :: a in balances && balances[a] == 0.0 ==> result[a] == Raw(balances[a])
    ensures forall a :: a in balances ==>
      result[a] == EntryOf(a, balances[a], GetClosedOrders(closed).closedBuy, depth)
  {
    result := EnrichBalances(balances, GetClosedOrders(closed).closedBuy, depth);
  }
}
