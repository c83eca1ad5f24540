/** What the L3 order book does, over two flat lists of orders in price-time order and the tape
    of trades. Matching is a fold that eats the opposite list from the front. */
module BookSpec {
  import opened Types
  import opened Ladder

  datatype L3Body = L3Body(
    trader: TraderId,
    visible: int,
    hidden: int,
    filled: int,
    entryTime: Timestamp,
    queuePos: nat,
    iceberg: bool)

  type L3Order = Node<L3Body>

  /** Bids and asks best first, and every trade reported so far, oldest first. */
  datatype Book = Book(symbol: Symbol, bids: seq<L3Order>, asks: seq<L3Order>, tape: seq<Trade>)

  datatype Sweep = Sweep(trades: seq<Trade>, rest: seq<L3Order>, remaining: int)

  datatype Outcome = Outcome(book: Book, report: ExecutionReport)

  // ---------- One fill ----------

  function Available(o: L3Order): int {
    o.body.visible + o.body.hidden
  }

  /** The most an iceberg shows again after its visible part is gone. */
  const REPLENISH := 100

  function Replenish(body: L3Body): L3Body {
    if body.visible == 0 && body.hidden > 0 && body.iceberg then
      var shown := Min(body.hidden, REPLENISH);
      body.(visible := shown, hidden := body.hidden - shown)
    else body
  }

  /** A resting order after trading `qty`: visible quantity first, hidden quantity in place after it. */
  function Fill(o: L3Order, qty: int): L3Order {
    var filled := o.body.filled + qty;
    var taken :=
      if qty <= o.body.visible then o.body.(filled := filled, visible := o.body.visible - qty)
      else o.body.(filled := filled, visible := 0, hidden := o.body.hidden - (qty - o.body.visible));
    o.(body := Replenish(taken))
  }

  /** What holds of every queued order. Icebergs may rest here although AddOrder creates none. */
  predicate OrderOk(o: L3Order) {
    && o.body.visible > 0 && o.body.hidden >= 0 && o.body.filled >= 0
    && (o.body.hidden > 0 ==> o.body.iceberg)
  }

  ghost predicate AllOk(s: seq<L3Order>) {
    forall i | 0 <= i < |s| :: OrderOk(s[i])
  }

  /** A fill moves quantity from available to filled and loses none; short of everything it
      leaves an order the book may keep. Visible quantity goes first; once it is gone an iceberg shows up
      to 100 of what is hidden. Nothing else about the order changes. */
  lemma FillConserves(o: L3Order, qty: int)
    ensures Available(Fill(o, qty)) == Available(o) - qty
    ensures Fill(o, qty).body.filled == o.body.filled + qty
    ensures OrderOk(o) && 0 < qty < Available(o) ==> OrderOk(Fill(o, qty))
    ensures Fill(o, qty).body.visible ==
            if qty < o.body.visible then o.body.visible - qty
            else if o.body.iceberg && Available(o) > qty then Min(100, Available(o) - qty) else 0
    ensures var left := Fill(o, qty);
            left == o.(body := o.body.(visible := left.body.visible, hidden := left.body.hidden,
                                       filled := left.body.filled))
  {
  }

  // ---------- Matching ----------

  predicate Acceptable(incoming: Order, price: int) {
    || incoming.orderType.Market?
    || (if incoming.side.Buy? then price <= incoming.price else price >= incoming.price)
  }

  function TradeOf(resting: L3Order, incoming: Order, symbol: Symbol, qty: int, id: nat, ts: Timestamp): Trade {
    Trade(id, resting.id, incoming.id, resting.body.trader, incoming.trader,
          symbol, incoming.side, resting.price, qty, ts)
  }

  /** Trades `remaining` against a price-time list from its front. */
  ghost function Consume(
      s: seq<L3Order>, incoming: Order, remaining: int, symbol: Symbol, id: nat, ts: Timestamp): Sweep {
    if remaining <= 0 || |s| == 0 || !Acceptable(incoming, s[0].price) then Sweep([], s, remaining)
    else
      var qty := Min(remaining, Available(s[0]));
      var r := Consume(s[1..], incoming, remaining - qty, symbol, id + 1, ts);
      var left := Fill(s[0], qty);
      Sweep([TradeOf(s[0], incoming, symbol, qty, id, ts)] + r.trades,
            (if Available(left) == 0 then [] else [left]) + r.rest,
            r.remaining)
  }

  /** Everything an incoming order could trade: the orders before the first unacceptable price. */
  ghost function Liquidity(s: seq<L3Order>, incoming: Order): int {
    if |s| == 0 || !Acceptable(incoming, s[0].price) then 0
    else Available(s[0]) + Liquidity(s[1..], incoming)
  }

  ghost function TotalAvailable(s: seq<L3Order>): int {
    if |s| == 0 then 0 else Available(s[0]) + TotalAvailable(s[1..])
  }

  /** The i-th trade is with the i-th order and its trader, at its price, with the next id; all but the last
      take everything. */
  ghost predicate EatsInOrder(
      trades: seq<Trade>, s: seq<L3Order>, incoming: Order, symbol: Symbol, id: nat, ts: Timestamp)
  {
    && |trades| <= |s|
    && forall i | 0 <= i < |trades| ::
         && trades[i].tradeId == id + i && trades[i].symbol == symbol && trades[i].timestamp == ts
         && trades[i].restingId == s[i].id && trades[i].restingTrader == s[i].body.trader
         && trades[i].incomingId == incoming.id && trades[i].incomingTrader == incoming.trader
         && trades[i].aggressor == incoming.side && trades[i].price == s[i].price
         && Acceptable(incoming, s[i].price)
         && 0 < trades[i].qty <= Available(s[i])
         && (i < |trades| - 1 ==> trades[i].qty == Available(s[i]))
  }

  lemma EatsCons(
      t: Trade, o: L3Order, trades: seq<Trade>, s: seq<L3Order>,
      incoming: Order, symbol: Symbol, id: nat, ts: Timestamp)
    requires EatsInOrder(trades, s, incoming, symbol, id + 1, ts)
    requires t == TradeOf(o, incoming, symbol, t.qty, id, ts) && Acceptable(incoming, o.price)
    requires 0 < t.qty <= Available(o) && (|trades| > 0 ==> t.qty == Available(o))
    ensures EatsInOrder([t] + trades, [o] + s, incoming, symbol, id, ts)
  {
    var ts', s' := [t] + trades, [o] + s;
    assert forall i | 0 < i < |ts'| :: ts'[i] == trades[i - 1] && s'[i] == s[i - 1];
  }

  /** Matching eats a prefix of the list, in order, and trades exactly what leaves the incoming order. */
  lemma {:induction false} ConsumeEatsPrefix(
      s: seq<L3Order>, incoming: Order, remaining: int, symbol: Symbol, id: nat, ts: Timestamp)
    requires AllOk(s)
    ensures var r := Consume(s, incoming, remaining, symbol, id, ts);
            && EatsInOrder(r.trades, s, incoming, symbol, id, ts)
            && SumQty(r.trades) == remaining - r.remaining
            && (remaining >= 0 ==> r.remaining >= 0)
  {
    hide Fill, Acceptable;
    if remaining <= 0 || |s| == 0 || !Acceptable(incoming, s[0].price) {
    } else {
      var qty := Min(remaining, Available(s[0]));
      var tail := Consume(s[1..], incoming, remaining - qty, symbol, id + 1, ts);
      ConsumeEatsPrefix(s[1..], incoming, remaining - qty, symbol, id + 1, ts);
      var t := TradeOf(s[0], incoming, symbol, qty, id, ts);
      EatsCons(t, s[0], tail.trades, s[1..], incoming, symbol, id, ts);
      assert [s[0]] + s[1..] == s;
      assert ([t] + tail.trades)[1..] == tail.trades;
    }
  }

  /** Matching stops because nothing remains, the list ran out, or the next price is not acceptable. */
  lemma {:induction false} ConsumeStops(
      s: seq<L3Order>, incoming: Order, remaining: int, symbol: Symbol, id: nat, ts: Timestamp)
    requires AllOk(s)
    ensures var r := Consume(s, incoming, remaining, symbol, id, ts);
            && (r.remaining > 0 ==> |r.rest| == 0 || !Acceptable(incoming, r.rest[0].price))
            && (remaining <= 0 ==> r.trades == [] && r.rest == s && r.remaining == remaining)
  {
    hide Fill, Acceptable;
    if remaining <= 0 || |s| == 0 || !Acceptable(incoming, s[0].price) {
    } else {
      var qty := Min(remaining, Available(s[0]));
      FillConserves(s[0], qty);
      ConsumeStops(s[1..], incoming, remaining - qty, symbol, id + 1, ts);
    }
  }

  /** The list after the given trades took its front: at most one order is left part filled. */
  ghost function Leftover(s: seq<L3Order>, trades: seq<Trade>): seq<L3Order>
    requires |trades| <= |s|
  {
    var n := |trades|;
    if n > 0 && trades[n - 1].qty < Available(s[n - 1]) then [Fill(s[n - 1], trades[n - 1].qty)] + s[n..]
    else s[n..]
  }

  lemma LeftoverOfNone(s: seq<L3Order>)
    ensures Leftover(s, []) == s
  {
  }

  lemma LeftoverStep(s: seq<L3Order>, t: Trade, trades: seq<Trade>)
    requires |s| > 0 && |trades| < |s|
    requires t.qty < Available(s[0]) ==> trades == []
    ensures Leftover(s, [t] + trades) ==
            if t.qty < Available(s[0]) then [Fill(s[0], t.qty)] + s[1..] else Leftover(s[1..], trades)
  {
    hide Fill, Available;
    var all, n, u := [t] + trades, |trades|, s[1..];
    if n > 0 {
      assert all[n] == trades[n - 1] && s[n] == u[n - 1] && u[n..] == s[n + 1..];
    } else {
      assert all[0] == t && all == [t];
    }
  }

  /** What is left is the list behind the eaten prefix, with at most one part-filled order before it. */
  lemma {:induction false} ConsumeLeaves(
      s: seq<L3Order>, incoming: Order, remaining: int, symbol: Symbol, id: nat, ts: Timestamp)
    requires AllOk(s)
    ensures var r := Consume(s, incoming, remaining, symbol, id, ts);
            |r.trades| <= |s| && r.rest == Leftover(s, r.trades)
  {
    hide Fill, Acceptable, Leftover;
    if remaining <= 0 || |s| == 0 || !Acceptable(incoming, s[0].price) {
      LeftoverOfNone(s);
    } else {
      var qty := Min(remaining, Available(s[0]));
      var tail := Consume(s[1..], incoming, remaining - qty, symbol, id + 1, ts);
      LeftoverOfNone(s[1..]);
      var t := TradeOf(s[0], incoming, symbol, qty, id, ts);
      FillConserves(s[0], qty);
      ConsumeLeaves(s[1..], incoming, remaining - qty, symbol, id + 1, ts);
      ConsumeStops(s[1..], incoming, remaining - qty, symbol, id + 1, ts);
      LeftoverStep(s, t, tail.trades);
    }
  }

  /** Matching fills the whole quantity exactly when the reachable liquidity covers it. */
  lemma {:induction false} FillsIffLiquid(
      s: seq<L3Order>, incoming: Order, remaining: int, symbol: Symbol, id: nat, ts: Timestamp)
    requires AllOk(s) && remaining >= 0
    ensures Consume(s, incoming, remaining, symbol, id, ts).remaining ==
            if Liquidity(s, incoming) >= remaining then 0 else remaining - Liquidity(s, incoming)
    ensures Liquidity(s, incoming) >= 0
  {
    hide Fill, Acceptable;
    if |s| > 0 && Acceptable(incoming, s[0].price) {
      var qty := Min(remaining, Available(s[0]));
      FillsIffLiquid(s[1..], incoming, remaining - qty, symbol, id + 1, ts);
    }
  }

  /** The quantity that leaves the list is the quantity on the new trades. */
  lemma {:induction false} ConsumeConserves(
      s: seq<L3Order>, incoming: Order, remaining: int, symbol: Symbol, id: nat, ts: Timestamp)
    ensures var r := Consume(s, incoming, remaining, symbol, id, ts);
            TotalAvailable(s) == TotalAvailable(r.rest) + SumQty(r.trades)
  {
    hide Fill, Acceptable;
    if remaining <= 0 || |s| == 0 || !Acceptable(incoming, s[0].price) {
    } else {
      var qty := Min(remaining, Available(s[0]));
      FillConserves(s[0], qty);
      var tail := Consume(s[1..], incoming, remaining - qty, symbol, id + 1, ts);
      ConsumeConserves(s[1..], incoming, remaining - qty, symbol, id + 1, ts);
      var r := Consume(s, incoming, remaining, symbol, id, ts);
      assert r.trades[1..] == tail.trades;
      if Available(Fill(s[0], qty)) == 0 {
        assert r.rest == tail.rest;
      } else {
        assert r.rest[1..] == tail.rest;
      }
    }
  }

  // ---------- Book operations ----------

  ghost function SideOf(b: Book, side: Side): seq<L3Order> {
    if side.Buy? then b.bids else b.asks
  }

  ghost function WithSide(b: Book, side: Side, s: seq<L3Order>): Book {
    if side.Buy? then b.(bids := s) else b.(asks := s)
  }

  ghost predicate Resting(b: Book, id: OrderId) {
    Queued(b.bids, id) || Queued(b.asks, id)
  }

  ghost function MatchIncoming(b: Book, order: Order, ts: Timestamp): Sweep {
    var s := SideOf(b, order.side.Opposite());
    if order.tif.FOK? && Liquidity(s, order) < order.quantity then Sweep([], s, order.quantity)
    else Consume(s, order, order.quantity, b.symbol, |b.tape| + 1, ts)
  }

  /** Whether a remainder goes onto the book. */
  predicate Rests(order: Order, remaining: int) {
    remaining > 0 && order.orderType.Limit? && (order.tif.Day? || order.tif.GTC?)
  }

  function RestingOrder(order: Order, remaining: int, queuePos: nat, ts: Timestamp): L3Order {
    Node(order.id, order.side, order.price,
         L3Body(order.trader, remaining, 0, order.quantity - remaining, ts, queuePos, false))
  }

  function BlankFor(order: Order, ts: Timestamp): ExecutionReport {
    BLANK_REPORT.(orderId := order.id, trader := order.trader, symbol := order.symbol, side := order.side,
                  orderType := order.orderType, price := order.price, orderQty := order.quantity, transactTime := ts)
  }

  function ReportOf(order: Order, trades: seq<Trade>, remaining: int, ts: Timestamp): ExecutionReport {
    var filled := order.quantity - remaining;
    var status := if remaining == 0 then Filled else if filled > 0 then PartiallyFilled else New;
    var plain := BlankFor(order, ts).(filledQty := filled, leavesQty := remaining, status := status);
    var rpt := if status.PartiallyFilled? && |trades| > 0 then
                 plain.(lastQty := trades[|trades| - 1].qty, lastPrice := trades[|trades| - 1].price)
               else plain;
    if remaining > 0 && order.orderType.Limit? && order.tif.IOC? then
      rpt.(status := if filled > 0 then PartiallyFilled else Canceled, leavesQty := 0)
    else if remaining > 0 && order.orderType.Limit? && order.tif.FOK? then
      rpt.(status := Rejected, reason := InsufficientLiquidity, filledQty := 0, leavesQty := 0)
    else rpt
  }

  ghost function Rest(b: Book, order: Order, remaining: int, ts: Timestamp): Book {
    var own := SideOf(b, order.side);
    WithSide(b, order.side, Insert(own, RestingOrder(order, remaining, CountAt(own, order.price), ts)))
  }

  ghost function AddOrder(b: Book, order: Order, ts: Timestamp): Outcome {
    if Resting(b, order.id) then
      Outcome(b, BlankFor(order, ts).(status := Rejected, reason := DuplicateOrderId))
    else
      var r := MatchIncoming(b, order, ts);
      var matched := WithSide(b, order.side.Opposite(), r.rest).(tape := b.tape + r.trades);
      Outcome(if Rests(order, r.remaining) then Rest(matched, order, r.remaining, ts) else matched,
              ReportOf(order, r.trades, r.remaining, ts))
  }

  /** Numbers the orders at a price from `pos` upward; no other field or order changes. */
  ghost function Renumber(s: seq<L3Order>, price: int, pos: nat): seq<L3Order> {
    if |s| == 0 then []
    else if s[0].price == price then
      [s[0].(body := s[0].body.(queuePos := pos))] + Renumber(s[1..], price, pos + 1)
    else [s[0]] + Renumber(s[1..], price, pos)
  }

  function CancelReport(o: L3Order, symbol: Symbol, ts: Timestamp): ExecutionReport {
    BLANK_REPORT.(orderId := o.id, transactTime := ts, trader := o.body.trader, symbol := symbol, side := o.side,
                  price := o.price, orderQty := Available(o) + o.body.filled, filledQty := o.body.filled,
                  leavesQty := 0, status := Canceled)
  }

  /** The order an id names. */
  ghost function OrderAt(b: Book, id: OrderId): L3Order
    requires Resting(b, id)
  {
    if Queued(b.bids, id) then b.bids[Pos(b.bids, id)] else b.asks[Pos(b.asks, id)]
  }

  ghost function Remove(s: seq<L3Order>, id: OrderId): seq<L3Order>
    requires Queued(s, id)
  {
    var k := Pos(s, id);
    Renumber(RemoveAt(s, k), s[k].price, 0)
  }

  ghost function CancelOrder(b: Book, id: OrderId, ts: Timestamp): Outcome {
    if !Resting(b, id) then
      Outcome(b, BLANK_REPORT.(orderId := id, transactTime := ts, status := Rejected))
    else
      Outcome(if Queued(b.bids, id) then b.(bids := Remove(b.bids, id)) else b.(asks := Remove(b.asks, id)),
              CancelReport(OrderAt(b, id), b.symbol, ts))
  }

  function ReplacementFor(req: ReplaceRequest, side: Side, ts: Timestamp): Order {
    Order(req.orderId, req.trader, req.symbol, side, Limit, Day, req.newPrice, req.newQty, ts)
  }

  ghost function ReplaceOrder(b: Book, req: ReplaceRequest, ts: Timestamp): Outcome {
    var c := CancelOrder(b, req.orderId, ts);
    if c.report.status != Canceled then Outcome(c.book, c.report.(status := Rejected))
    else AddOrder(c.book, ReplacementFor(req, c.report.side, ts), ts)
  }
}
