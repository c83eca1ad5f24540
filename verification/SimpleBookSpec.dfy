/** What the simple order book does, over flat lists in price-time order. */
module SimpleBookSpec {
  import opened Types
  import opened Ladder

  datatype SimpleBody = SimpleBody(trader: TraderId, qty: int, orderType: OrderType, timestamp: Timestamp)

  type BookOrder = Node<SimpleBody>

  datatype SimpleBook = SimpleBook(symbol: Symbol, bids: seq<BookOrder>, asks: seq<BookOrder>)

  datatype SimpleSweep = SimpleSweep(trades: seq<Trade>, rest: seq<BookOrder>, remaining: int)

  predicate Stops(incoming: BookOrder, price: int) {
    incoming.body.orderType.Limit? && (if incoming.side.Buy? then price > incoming.price else price < incoming.price)
  }

  /** A trade record as this book fills it in: no trade id and no traders. */
  function SimpleTrade(resting: BookOrder, incoming: BookOrder, symbol: Symbol, qty: int, ts: Timestamp): Trade {
    Trade(0, resting.id, incoming.id, 0, 0, symbol, incoming.side, resting.price, qty, ts)
  }

  function Reduce(o: BookOrder, qty: int): BookOrder {
    o.(body := o.body.(qty := o.body.qty - qty))
  }

  ghost function Match(
      s: seq<BookOrder>, incoming: BookOrder, remaining: int, symbol: Symbol, ts: Timestamp): SimpleSweep {
    if remaining <= 0 || |s| == 0 || Stops(incoming, s[0].price) then SimpleSweep([], s, remaining)
    else
      var qty := Min(remaining, s[0].body.qty);
      var trade := SimpleTrade(s[0], incoming, symbol, qty, ts);
      if qty == s[0].body.qty then
        var r := Match(s[1..], incoming, remaining - qty, symbol, ts);
        SimpleSweep([trade] + r.trades, r.rest, r.remaining)
      else SimpleSweep([trade], [Reduce(s[0], qty)] + s[1..], remaining - qty)
  }

  ghost function SimpleSide(b: SimpleBook, side: Side): seq<BookOrder> {
    if side.Buy? then b.bids else b.asks
  }

  ghost function WithSimpleSide(b: SimpleBook, side: Side, s: seq<BookOrder>): SimpleBook {
    if side.Buy? then b.(bids := s) else b.(asks := s)
  }

  ghost predicate Holds(b: SimpleBook, id: OrderId) {
    Queued(b.bids, id) || Queued(b.asks, id)
  }

  ghost function Add(b: SimpleBook, o: BookOrder): SimpleBook {
    WithSimpleSide(b, o.side, Insert(SimpleSide(b, o.side), o))
  }

  ghost function Cancel(b: SimpleBook, id: OrderId): SimpleBook {
    if Queued(b.bids, id) then b.(bids := RemoveAt(b.bids, Pos(b.bids, id)))
    else if Queued(b.asks, id) then b.(asks := RemoveAt(b.asks, Pos(b.asks, id)))
    else b
  }

  ghost function Incoming(b: SimpleBook, incoming: BookOrder, ts: Timestamp): SimpleSweep {
    Match(SimpleSide(b, incoming.side.Opposite()), incoming, incoming.body.qty, b.symbol, ts)
  }

  ghost function Total(s: seq<BookOrder>): int {
    if |s| == 0 then 0 else s[0].body.qty + Total(s[1..])
  }

  lemma {:induction false} TotalSnoc(s: seq<BookOrder>, i: nat)
    requires i < |s|
    ensures Total(s[..i + 1]) == Total(s[..i]) + s[i].body.qty
  {
    if i > 0 {
      TotalSnoc(s[1..], i - 1);
      assert s[..i + 1][1..] == s[1..][..i] && s[..i][1..] == s[1..][..i - 1];
    } else {
      assert s[..1] == [s[0]];
    }
  }

  /** A level as this book reports it; the order count keeps its default. */
  ghost function SimpleSummary(level: Level<SimpleBody>): BookLevel {
    BookLevel(level.price, Total(level.queue), 0)
  }

  ghost function SimpleSummaries(levels: seq<Level<SimpleBody>>): seq<BookLevel> {
    seq(|levels|, i requires 0 <= i < |levels| => SimpleSummary(levels[i]))
  }

  /** A trade names the incoming order, its side, the book and the time; this book knows neither trade ids nor
      traders. */
  predicate SimplyNames(t: Trade, incoming: BookOrder, symbol: Symbol, ts: Timestamp) {
    && t.incomingId == incoming.id && t.aggressor == incoming.side && t.symbol == symbol && t.timestamp == ts
    && t.tradeId == 0 && t.restingTrader == 0 && t.incomingTrader == 0
  }

  lemma {:induction false} MatchTradesAre(
      s: seq<BookOrder>, incoming: BookOrder, remaining: int, symbol: Symbol, ts: Timestamp)
    ensures forall t | t in Match(s, incoming, remaining, symbol, ts).trades :: SimplyNames(t, incoming, symbol, ts)
  {
    hide Stops;
    if remaining > 0 && |s| > 0 && !Stops(incoming, s[0].price) {
      var qty := Min(remaining, s[0].body.qty);
      MatchTradesAre(s[1..], incoming, remaining - qty, symbol, ts);
      assert SimplyNames(SimpleTrade(s[0], incoming, symbol, qty, ts), incoming, symbol, ts);
    }
  }
}
