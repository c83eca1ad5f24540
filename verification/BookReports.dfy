/** What a client of the L3 book is told and what it gets: reports, trades and resting orders of a submission,
    a replace and a cancel, in terms of the request alone. */
module BookReports {
  import opened Types
  import opened Ladder
  import opened BookSpec
  import opened BookTheorems

  /** The trades a book made on the way from one state to a later one. */
  ghost function NewTrades(before: Book, after: Book): seq<Trade> {
    if |before.tape| <= |after.tape| then after.tape[|before.tape|..] else []
  }

  // ---------- Submissions ----------

  lemma NewTradesAre(b: Book, order: Order, ts: Timestamp)
    requires !Resting(b, order.id)
    ensures NewTrades(b, AddOrder(b, order, ts).book) == MatchIncoming(b, order, ts).trades
    ensures AddOrder(b, order, ts).book.tape == b.tape + MatchIncoming(b, order, ts).trades
  {
    hide Consume, Insert, Liquidity;
  }

  /** Whether a limit order may trade at a price; a market order may at any. */
  predicate NoWorse(order: Order, price: int) {
    order.orderType.Limit? ==> if order.side.Buy? then price <= order.price else price >= order.price
  }

  /** Every trade of a submission is with the next order of the other side in price-time order, at that
      order's price, no worse than the limit, and carries the next trade id. */
  lemma AddTradesAre(b: Book, order: Order, ts: Timestamp)
    requires ValidBook(b) && !Resting(b, order.id)
    ensures var s, trades := SideOf(b, order.side.Opposite()), NewTrades(b, AddOrder(b, order, ts).book);
            && |trades| <= |s|
            && forall i | 0 <= i < |trades| ::
                 && trades[i].tradeId == |b.tape| + 1 + i && trades[i].timestamp == ts && trades[i].symbol == b.symbol
                 && trades[i].restingId == s[i].id && trades[i].restingTrader == s[i].body.trader
                 && trades[i].incomingId == order.id && trades[i].incomingTrader == order.trader
                 && trades[i].aggressor == order.side && trades[i].price == s[i].price
                 && NoWorse(order, trades[i].price)
                 && 0 < trades[i].qty <= Available(s[i])
                 && (i < |trades| - 1 ==> trades[i].qty == Available(s[i]))
  {
    hide Consume, Insert;
    NewTradesAre(b, order, ts);
    ConsumeEatsPrefix(SideOf(b, order.side.Opposite()), order, order.quantity, b.symbol, |b.tape| + 1, ts);
  }

  /** When quantity is left after a submission that is not fill-or-kill, the other side is empty or its best
      price is beyond the limit: a market order only stops at an empty side. */
  lemma AddStops(b: Book, order: Order, ts: Timestamp)
    requires ValidBook(b) && !Resting(b, order.id) && !order.tif.FOK?
    requires SumQty(NewTrades(b, AddOrder(b, order, ts).book)) < order.quantity
    ensures var opp := SideOf(AddOrder(b, order, ts).book, order.side.Opposite());
            |opp| == 0 || !NoWorse(order, opp[0].price)
  {
    hide Consume, Insert;
    NewTradesAre(b, order, ts);
    MatchAmounts(b, order, ts);
  }

  /** The report repeats the order and the time, whatever happens to it. */
  lemma ReportNamesOrder(b: Book, order: Order, ts: Timestamp)
    ensures var rpt := AddOrder(b, order, ts).report;
            && rpt.orderId == order.id && rpt.trader == order.trader && rpt.symbol == order.symbol
            && rpt.side == order.side && rpt.orderType == order.orderType && rpt.price == order.price
            && rpt.orderQty == order.quantity && rpt.transactTime == ts
  {
    hide MatchIncoming, Rest, Resting;
  }

  /** A duplicate is rejected as such and changes nothing. */
  lemma DuplicateIsRejected(b: Book, order: Order, ts: Timestamp)
    ensures Resting(b, order.id) <==> AddOrder(b, order, ts).report.reason == DuplicateOrderId
    ensures Resting(b, order.id) ==>
              var out := AddOrder(b, order, ts);
              && out.book == b && out.report.status == Rejected
              && out.report.filledQty == out.report.leavesQty == out.report.lastQty == out.report.lastPrice == 0
  {
    hide MatchIncoming, Rest, Resting;
  }

  /** What a report says of the trades made: status, quantities and last fill, for a new id and a positive
      quantity. */
  lemma ReportTellsTrades(b: Book, order: Order, ts: Timestamp)
    requires ValidBook(b) && !Resting(b, order.id) && order.quantity > 0
    ensures var out := AddOrder(b, order, ts);
            var trades := NewTrades(b, out.book);
            var traded, rpt := SumQty(trades), out.report;
            && 0 <= traded <= order.quantity && rpt.filledQty == traded
            && (rpt.status == Filled <==> traded == order.quantity)
            && (rpt.status == PartiallyFilled <==> 0 < traded < order.quantity)
            && (rpt.status == Canceled <==> traded == 0 && order.orderType.Limit? && order.tif.IOC?)
            && (rpt.status == Rejected <==> traded == 0 && order.orderType.Limit? && order.tif.FOK?)
            && (rpt.status == New <==> traded == 0 && !(order.orderType.Limit? && (order.tif.IOC? || order.tif.FOK?)))
            && rpt.reason == (if rpt.status == Rejected then InsufficientLiquidity else NoReason)
            && rpt.leavesQty == (if order.orderType.Limit? && (order.tif.IOC? || order.tif.FOK?) then 0
                                 else order.quantity - traded)
            && (rpt.status == PartiallyFilled ==>
                  && |trades| > 0
                  && rpt.lastQty == trades[|trades| - 1].qty && rpt.lastPrice == trades[|trades| - 1].price)
            && (rpt.status != PartiallyFilled ==> rpt.lastQty == 0 && rpt.lastPrice == 0)
  {
    hide Consume, Insert, Liquidity, Acceptable, Resting, ValidBook;
    var s := SideOf(b, order.side.Opposite());
    NewTradesAre(b, order, ts);
    MatchAmounts(b, order, ts);
    assert AllOk(s) by { SideIsOk(b, order.side.Opposite()); }
    FillsIffLiquid(s, order, order.quantity, b.symbol, |b.tape| + 1, ts);
  }

  /** An order without quantity trades nothing and rests nowhere. */
  lemma NoQuantityNoChange(b: Book, order: Order, ts: Timestamp)
    requires ValidBook(b) && !Resting(b, order.id) && order.quantity <= 0
    ensures var out := AddOrder(b, order, ts);
            && out.book == b && out.report.filledQty == 0
            && out.report.status == if order.quantity == 0 then Filled else New
  {
    hide Consume, Insert;
    MatchAmounts(b, order, ts);
    assert b.tape + [] == b.tape;
  }

  lemma InsertedAt(s: seq<L3Order>, o: L3Order)
    ensures Place(o.side, s, o.price) < |Insert(s, o)| && Insert(s, o)[Place(o.side, s, o.price)] == o
  {
  }

  /** What comes to rest: day and good-till-cancel limit orders with what they did not trade, as displayed
      quantity, with their own price, side and trader. */
  lemma AddRests(b: Book, order: Order, ts: Timestamp)
    requires ValidBook(b) && !Resting(b, order.id)
    ensures var out := AddOrder(b, order, ts);
            var traded := SumQty(NewTrades(b, out.book));
            && (Resting(out.book, order.id) <==>
                order.orderType.Limit? && (order.tif.Day? || order.tif.GTC?) && traded < order.quantity)
            && (Resting(out.book, order.id) ==>
                  var o := OrderAt(out.book, order.id);
                  && o.id == order.id && o.side == order.side && o.price == order.price
                  && o.body.trader == order.trader && o.body.visible == order.quantity - traded && o.body.hidden == 0
                  && o.body.filled == traded && o.body.entryTime == ts && !o.body.iceberg)
  {
    hide Consume, Insert, Acceptable, Liquidity;
    var out, side := AddOrder(b, order, ts), order.side;
    var own, r := SideOf(b, side), MatchIncoming(b, order, ts);
    NewTradesAre(b, order, ts);
    MatchKeepsAbsent(b, order, ts, order.id);
    MatchAmounts(b, order, ts);
    AddKeepsValid(b, order, ts);
    if Rests(order, r.remaining) {
      var o := RestingOrder(order, r.remaining, CountAt(own, order.price), ts);
      InsertedAt(own, o);
      OrderAtIs(out.book, side, Place(side, own, order.price));
    }
  }

  // ---------- Replaces ----------

  lemma CancelKeepsTape(b: Book, id: OrderId, ts: Timestamp)
    ensures CancelOrder(b, id, ts).book.tape == b.tape && CancelOrder(b, id, ts).book.symbol == b.symbol
  {
    hide Remove, Resting;
  }

  /** A replace of a resting order, told by the request alone: the report carries the new price, quantity and
      trader and the side the order had; new trades and what then waits make up the new quantity; what waits
      does so at the new price on that side; and no trade is at a price worse than the new one. */
  lemma ReplaceDoes(b: Book, req: ReplaceRequest, ts: Timestamp)
    requires ValidBook(b) && Resting(b, req.orderId) && req.newQty > 0
    ensures var out, side := ReplaceOrder(b, req, ts), OrderAt(b, req.orderId).side;
            var trades, rpt := NewTrades(b, out.book), out.report;
            && rpt.orderId == req.orderId && rpt.price == req.newPrice && rpt.orderQty == req.newQty
            && rpt.trader == req.trader && rpt.symbol == req.symbol && rpt.side == side && rpt.orderType == Limit
            && rpt.transactTime == ts
            && b.tape <= out.book.tape
            && SumQty(trades) + Waiting(out.book, req.orderId) == req.newQty
            && (Resting(out.book, req.orderId) ==>
                  var o := OrderAt(out.book, req.orderId);
                  o.price == req.newPrice && o.side == side && o.body.trader == req.trader)
            && forall i | 0 <= i < |trades| ::
                 && (if side.Buy? then trades[i].price <= req.newPrice else trades[i].price >= req.newPrice)
                 && trades[i].aggressor == side && trades[i].incomingTrader == req.trader
                 && trades[i].incomingId == req.orderId
  {
    hide AddOrder, CancelOrder, ValidBook, Resting, OrderAt;
    var c, side := CancelOrder(b, req.orderId, ts), OrderAt(b, req.orderId).side;
    var order := Order(req.orderId, req.trader, req.symbol, side, Limit, Day, req.newPrice, req.newQty, ts);
    ReplaceIsCancelThenAdd(b, req, ts);
    CancelKeepsValid(b, req.orderId, ts);
    CancelKeepsTape(b, req.orderId, ts);
    ReportNamesOrder(c.book, order, ts);
    NewTradesAre(c.book, order, ts);
    AddTradesAre(c.book, order, ts);
    AddRests(c.book, order, ts);
    ReportTellsTrades(c.book, order, ts);
    assert NewTrades(b, ReplaceOrder(b, req, ts).book) == NewTrades(c.book, AddOrder(c.book, order, ts).book);
  }

  /** A replace of an order that does not rest is rejected and changes nothing. */
  lemma ReplaceOfNothing(b: Book, req: ReplaceRequest, ts: Timestamp)
    requires !Resting(b, req.orderId)
    ensures var out := ReplaceOrder(b, req, ts);
            out.book == b && out.report.status == Rejected && out.report.orderId == req.orderId
            && out.report.transactTime == ts
  {
    hide Resting;
  }

  // ---------- Cancels ----------

  /** The report of a cancel describes the order as it rested, and says Canceled exactly when it did. */
  lemma CancelReportDescribes(b: Book, id: OrderId, ts: Timestamp)
    requires ValidBook(b)
    ensures var out := CancelOrder(b, id, ts);
            && (out.report.status == Canceled <==> Resting(b, id))
            && (out.report.status == Rejected <==> !Resting(b, id))
            && out.report.orderId == id && out.report.transactTime == ts
            && out.report.leavesQty == 0 && out.report.reason == NoReason
            && !Resting(out.book, id) && (!Resting(b, id) ==> out.book == b)
            && (Resting(b, id) ==>
                  var o := OrderAt(b, id);
                  && out.report.trader == o.body.trader && out.report.symbol == b.symbol && out.report.side == o.side
                  && out.report.price == o.price && out.report.filledQty == o.body.filled
                  && out.report.orderQty == o.body.visible + o.body.hidden + o.body.filled)
  {
    hide Remove, ValidBook;
    CancelKeepsValid(b, id, ts);
  }
}
