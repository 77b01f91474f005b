/**
 * Shaping of an order-book depth snapshot (`OrderBook`): each level reduced
 * to price and quantity, the ladders split into parallel price and quantity
 * lists, and the spread between the best ask and the best bid.
 *
 * The HTTP request is left out: its decoded `result` object, keyed by pair,
 * is the input, with the string fields already parsed to numbers.
 */
module Orderbook {
  import opened Common

  /** A pair's snapshot as the exchange sends it: per level, its fields (price, volume, timestamp). */
  datatype RawBook = RawBook(asks: seq<seq<real>>, bids: seq<seq<real>>)

  /** A level reduced to [price, quantity]. */
  datatype Level = Level(price: real, quantity: real)

  /** What `orderBookData` returns. */
  datatype BookData = BookData(
    bidPrices: seq<real>,
    bidQuantities: seq<real>,
    askPrices: seq<real>,
    askQuantities: seq<real>,
    spread: real,
    spreadPercentage: real)

  /** Every level has at least a price and a quantity field. */
  predicate WellFormed(entries: seq<seq<real>>) {
    forall k :: 0 <= k < |entries| ==> |entries[k]| >= 2
  }

  /** `[[float(e[0]), float(e[1])] for e in entries]`: later fields dropped; a short entry raises. */
  function ProjectLevels(entries: seq<seq<real>>): (r: Result<seq<Level>>)
    ensures r.Success? <==> WellFormed(entries)
    ensures r.Failure? ==> r.error == IndexError
    ensures r.Success? ==>
      && |r.value| == |entries|
      && forall k :: 0 <= k < |entries| ==> r.value[k] == Level(entries[k][0], entries[k][1])
  {
    if entries == [] then Success([])
    else if |entries[0]| < 2 then Failure(IndexError)
    else
      match ProjectLevels(entries[1..])
      case Failure(e) => Failure(e)
      case Success(rest) => Success([Level(entries[0][0], entries[0][1])] + rest)
  }

  /** `get_order_book_data`: the pair's asks and bids, projected (asks first). */
  function GetOrderBookData(result: map<string, RawBook>, pair: string): (r: Result<(seq<Level>, seq<Level>)>)
    ensures pair !in result ==> r == Failure(KeyError)
    ensures pair in result ==>
      (r.Success? <==> WellFormed(result[pair].asks) && WellFormed(result[pair].bids))
    ensures r.Failure? && pair in result ==> r.error == IndexError
    ensures r.Success? ==>
      var raw := result[pair];
      && |r.value.0| == |raw.asks|
      && |r.value.1| == |raw.bids|
      && (forall k :: 0 <= k < |raw.asks| ==> r.value.0[k] == Level(raw.asks[k][0], raw.asks[k][1]))
      && (forall k :: 0 <= k < |raw.bids| ==> r.value.1[k] == Level(raw.bids[k][0], raw.bids[k][1]))
  {
    if pair !in result then Failure(KeyError)
    else
      match ProjectLevels(result[pair].asks)
      case Failure(e) => Failure(e)
      case Success(asks) =>
        match ProjectLevels(result[pair].bids)
        case Failure(e) => Failure(e)
        case Success(bids) => Success((asks, bids))
  }

  function Prices(levels: seq<Level>): seq<real> {
    seq(|levels|, k requires 0 <= k < |levels| => levels[k].price)
  }

  function Quantities(levels: seq<Level>): seq<real> {
    seq(|levels|, k requires 0 <= k < |levels| => levels[k].quantity)
  }

  /**
   * `orderBookData`: the parallel ladders and the spread.  Reading the best
   * ask or bid of an empty side raises, and so does dividing by a best ask
   * of zero.
   */
  function OrderBookData(result: map<string, RawBook>, pair: string): (r: Result<BookData>)
    ensures pair !in result ==> r == Failure(KeyError)
    ensures pair in result && (result[pair].asks == [] || result[pair].bids == []) ==>
      r == Failure(IndexError)
    ensures pair in result && r.Failure? ==> r.error == IndexError || r.error == ZeroDivisionError
    ensures pair in result && WellFormed(result[pair].asks) && WellFormed(result[pair].bids)
            && result[pair].asks != [] && result[pair].bids != [] ==>
      (r.Success? <==> result[pair].asks[0][0] != 0.0)
    ensures r.Success? ==>
      var raw, d := result[pair], r.value;
      && |d.bidPrices| == |d.bidQuantities| == |raw.bids| > 0
      && |d.askPrices| == |d.askQuantities| == |raw.asks| > 0
      && WellFormed(raw.bids) && WellFormed(raw.asks)
      && (forall k :: 0 <= k < |raw.bids| ==>
            d.bidPrices[k] == raw.bids[k][0] && d.bidQuantities[k] == raw.bids[k][1])
      && (forall k :: 0 <= k < |raw.asks| ==>
            d.askPrices[k] == raw.asks[k][0] && d.askQuantities[k] == raw.asks[k][1])
      && d.spread == d.askPrices[0] - d.bidPrices[0]
      && d.askPrices[0] != 0.0
      && d.spreadPercentage * d.askPrices[0] == d.spread * 100.0
  {
    match GetOrderBookData(result, pair)
    case Failure(e) => Failure(e)
    case Success((asks, bids)) =>
      if asks == [] || bids == [] then Failure(IndexError)
      else
        var spread := asks[0].price - bids[0].price;
        if asks[0].price == 0.0 then Failure(ZeroDivisionError)
        else
          Success(BookData(
            Prices(bids), Quantities(bids), Prices(asks), Quantities(asks),
            spread, spread / asks[0].price * 100.0))
  }

  /**
   * On an uncrossed book with non-negative prices the spread percentage lies
   * between 0 and 100.
   */
  lemma SpreadPercentageWithinRange(result: map<string, RawBook>, pair: string)
    requires OrderBookData(result, pair).Success?
    requires var d := OrderBookData(result, pair).value;
      0.0 <= d.bidPrices[0] <= d.askPrices[0]
    ensures var d := OrderBookData(result, pair).value;
      0.0 <= d.spreadPercentage <= 100.0
  {
    var d := OrderBookData(result, pair).value;
    var ask, sp := d.askPrices[0], d.spread;
    assert d.spreadPercentage == sp / ask * 100.0;
    assert 0.0 < ask && 0.0 <= sp <= ask;
    FractionOfUnit(sp, ask);
  }

  /** A part no larger than a positive whole is a fraction between 0 and 1 of it. */
  lemma FractionOfUnit(part: real, whole: real)
    requires 0.0 < whole && 0.0 <= part <= whole
    ensures 0.0 <= part / whole <= 1.0
  {
    var q := part / whole;
    assert q * whole == part;
    if q < 0.0 {
      MulPositive(-q, whole);
    }
    if q > 1.0 {
      MulPositive(q - 1.0, whole);
    }
  }

  lemma MulPositive(a: real, b: real)
    requires 0.0 < a && 0.0 < b
    ensures 0.0 < a * b
  {
  }
}
