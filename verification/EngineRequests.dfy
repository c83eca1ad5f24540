/** What each request does to an engine, told by the request and the engine alone, and what a killed trader can
    no longer do. */
module EngineRequests {
  import opened Types
  import opened Ladder
  import opened BookSpec
  import opened BookTheorems
  import opened BookReports
  import R = RiskSpec
  import RT = RiskTheorems
  import opened EngineSpec
  import opened EngineTheorems
  import opened EngineLedger

  // ---------- New orders ----------

  /** A refusal names the order, the reason and the time. */
  predicate Refuses(rpt: ExecutionReport, order: Order, reason: RejectReason, ts: Timestamp) {
    && rpt.orderId == order.id && rpt.trader == order.trader && rpt.symbol == order.symbol
    && rpt.status == Rejected && rpt.reason == reason && rpt.transactTime == ts
    && rpt.filledQty == 0 && rpt.leavesQty == 0
  }

  lemma RefusalRefuses(order: Order, reason: RejectReason, ts: Timestamp)
    ensures Refuses(Refusal(order, reason, ts), order, reason, ts)
  {
  }

  /** An order for an unknown symbol is refused as such: only the counters move. */
  lemma UnknownSymbolIsRefused(e: Engine, order: Order, ts: Timestamp)
    requires order.symbol !in e.books
    ensures var (after, rpt) := NewOrder(e, order, ts);
            && Refuses(rpt, order, UnknownSymbol, ts)
            && after == e.(processed := e.processed + 1, rejects := e.rejects + 1)
  {
  }

  /** An order that risk refuses is refused for its reason, and reaches no book and no route. */
  lemma RiskRefusalIsTold(e: Engine, order: Order, ts: Timestamp)
    requires order.symbol in e.books && e.risk.Some? && R.CheckOrder(e.risk.value, order).1 != NoReason
    ensures var (after, rpt) := NewOrder(e, order, ts);
            && Refuses(rpt, order, R.CheckOrder(e.risk.value, order).1, ts)
            && after == e.(processed := e.processed + 1, rejects := e.rejects + 1,
                           risk := Some(R.CheckOrder(e.risk.value, order).0))
  {
    hide R.CheckOrder;
  }

  /** An order that risk lets pass, or that no risk engine looks at, is submitted to the book of its symbol; the
      answer is the book's, and of the rest only route, trade count and risk move. */
  lemma PassedOrderReachesBook(e: Engine, order: Order, ts: Timestamp)
    requires order.symbol in e.books
    requires e.risk.Some? ==> R.CheckOrder(e.risk.value, order).1 == NoReason
    ensures var (after, rpt) := NewOrder(e, order, ts);
            var b, out := e.books[order.symbol], AddOrder(e.books[order.symbol], order, ts);
            && rpt == out.report && after.books == e.books[order.symbol := out.book]
            && after.processed == e.processed + 1 && after.rejects == e.rejects && after.cancels == e.cancels
            && (forall id | id != order.id :: id in after.routes <==> id in e.routes)
            && (forall id | id != order.id && id in e.routes :: after.routes[id] == e.routes[id])
            && (rpt.status != Rejected && rpt.status != Filled ==>
                  order.id in after.routes && after.routes[order.id] == order.symbol)
            && (rpt.status == Rejected || rpt.status == Filled ==> after.routes == e.routes)
            && after.risk.Some? == e.risk.Some?
            && (e.risk.Some? && rpt.filledQty <= 0 ==> after.risk.value == R.CheckOrder(e.risk.value, order).0)
            && (e.risk.Some? && rpt.filledQty > 0 ==>
                  after.risk.value == R.OnFill(R.CheckOrder(e.risk.value, order).0,
                                               order.trader, order.symbol, order.side, rpt.filledQty))
  {
    hide AddOrder, R.CheckOrder, R.OnFill;
  }

  // ---------- Cancels ----------

  /** A cancel that names a known symbol is answered Canceled if and only if the order rests in that book. Then
      it rests there no longer, its route is gone, one more cancel is counted and nothing else moves; otherwise
      it is rejected and nothing moves at all. */
  lemma NamedCancelReachesItsBook(e: Engine, req: CancelRequest, ts: Timestamp)
    requires BooksValid(e) && req.symbol != BLANK && req.symbol in e.books
    ensures var (after, rpt) := CancelRequested(e, req, ts);
            var b := e.books[req.symbol];
            && rpt.orderId == req.orderId && rpt.transactTime == ts
            && (rpt.status == Canceled <==> Resting(b, req.orderId))
            && (rpt.status == Rejected <==> !Resting(b, req.orderId))
            && (Resting(b, req.orderId) ==>
                  && req.symbol in after.books && !Resting(after.books[req.symbol], req.orderId)
                  && after.books == e.books[req.symbol := CancelOrder(b, req.orderId, ts).book]
                  && req.orderId !in after.routes
                  && after == e.(books := after.books, routes := e.routes - {req.orderId}, cancels := e.cancels + 1))
            && (!Resting(b, req.orderId) ==> after == e)
  {
    hide CancelOrder, ValidBook, Resting;
    CancelReportDescribes(e.books[req.symbol], req.orderId, ts);
    assert e.books[req.symbol := e.books[req.symbol]] == e.books;
  }

  /** A cancel for an unknown symbol is rejected as such, and nothing moves. */
  lemma UnknownCancelIsRejected(e: Engine, req: CancelRequest, ts: Timestamp)
    requires req.symbol != BLANK && req.symbol !in e.books
    ensures var (after, rpt) := CancelRequested(e, req, ts);
            && after == e && rpt.status == Rejected && rpt.reason == UnknownSymbol
            && rpt.orderId == req.orderId && rpt.transactTime == ts
  {
  }

  /** A cancel without symbol is the cancel that names the symbol on record, and is rejected without one. */
  lemma BlankCancelIsRouted(e: Engine, id: OrderId, ts: Timestamp)
    ensures id in e.routes && e.routes[id] != BLANK ==>
              CancelRequested(e, CancelRequest(id, BLANK), ts) ==
              CancelRequested(e, CancelRequest(id, e.routes[id]), ts)
    ensures id !in e.routes ==>
              var (after, rpt) := CancelRequested(e, CancelRequest(id, BLANK), ts);
              && after == e && rpt.status == Rejected && rpt.reason == NoReason
              && rpt.orderId == id && rpt.transactTime == ts
  {
    hide CancelOrder;
  }

  // ---------- Replaces ----------

  /** A replace is made in the book of its symbol; neither routes, risk nor order counters move. */
  lemma ReplaceReachesItsBook(e: Engine, req: ReplaceRequest, ts: Timestamp)
    requires req.symbol in e.books
    ensures var (after, rpt) := ReplaceRequested(e, req, ts);
            var out := ReplaceOrder(e.books[req.symbol], req, ts);
            && rpt == out.report && after.books == e.books[req.symbol := out.book]
            && after.trades - e.trades == |out.book.tape| - |e.books[req.symbol].tape|
            && after == e.(books := after.books, trades := after.trades)
  {
    hide ReplaceOrder;
  }

  lemma UnknownReplaceIsRejected(e: Engine, req: ReplaceRequest, ts: Timestamp)
    requires req.symbol !in e.books
    ensures var (after, rpt) := ReplaceRequested(e, req, ts);
            && after == e && rpt.status == Rejected && rpt.reason == UnknownSymbol
            && rpt.orderId == req.orderId && rpt.transactTime == ts
  {
  }

  // ---------- Killed traders ----------

  /** An order of a killed trader is refused by the kill switch and reaches no book and no route. */
  lemma KilledIsRefused(e: Engine, order: Order, ts: Timestamp)
    requires e.risk.Some? && order.symbol in e.books
    requires e.risk.value.globalKill ||
             (order.trader in e.risk.value.states && e.risk.value.states[order.trader].killed)
    ensures var (after, rpt) := NewOrder(e, order, ts);
            && Refuses(rpt, order, KillSwitchActive, ts)
            && after.books == e.books && after.routes == e.routes && after.trades == e.trades
  {
    hide R.CheckOrder, AddOrder;
    RT.VerdictIs(e.risk.value, order);
    RiskRefusalIsTold(e, order, ts);
  }

  /** No request lifts or throws a switch. */
  lemma HandleKeepsSwitches(e: Engine, request: Request, trader: TraderId)
    requires e.risk.Some?
    ensures Handle(e, request).risk.Some?
    ensures R.Killed(Handle(e, request).risk.value, trader) <==> R.Killed(e.risk.value, trader)
  {
    hide R.CheckOrder, R.OnFill, R.Killed, AddOrder, CancelOrder, ReplaceOrder;
    if request.Enter? && request.order.symbol in e.books {
      var order := request.order;
      RT.CheckKeepsSwitches(e.risk.value, order, trader);
      RT.FillKeepsSwitches(R.CheckOrder(e.risk.value, order).0, order.trader, order.symbol, order.side,
                           AddOrder(e.books[order.symbol], order, request.ts).report.filledQty, trader);
    }
  }

  ghost function NewcomersOf(e: Engine, request: Request, trader: TraderId): seq<OrderId> {
    if request.Enter? && request.order.trader == trader && request.order.symbol in e.books
       && request.order.symbol in Handle(e, request).books
       && !Resting(e.books[request.order.symbol], request.order.id)
       && Resting(Handle(e, request).books[request.order.symbol], request.order.id)
    then [request.order.id] else []
  }

  /** The ids a trader's entered orders brought to rest in a run. */
  ghost function Newcomers(e: Engine, requests: seq<Request>, trader: TraderId): seq<OrderId>
    decreases |requests|
  {
    if |requests| == 0 then []
    else NewcomersOf(e, requests[0], trader) + Newcomers(Handle(e, requests[0]), requests[1..], trader)
  }

  /** No trade of a list has the trader as its aggressor. */
  ghost predicate NeverAggressor(trades: seq<Trade>, trader: TraderId) {
    forall i | 0 <= i < |trades| :: trades[i].incomingTrader != trader
  }

  lemma RequestOfKilled(e: Engine, request: Request, trader: TraderId)
    requires BooksValid(e) && e.risk.Some? && R.Killed(e.risk.value, trader)
    ensures !Passes(e, request, trader) && NewcomersOf(e, request, trader) == []
    ensures NeverAggressor(EntryTrades(e, request), trader)
  {
    hide R.CheckOrder, AddOrder, ValidBook, Resting, CancelOrder, ReplaceOrder, R.OnFill, NewTrades;
    if request.Enter? && request.order.symbol in e.books {
      var order := request.order;
      var b := e.books[order.symbol];
      RT.VerdictIs(e.risk.value, order);
      SameTape(b);
      if order.trader == trader {
        KilledIsRefused(e, order, request.ts);
      } else {
        AddMakesOwnTrades(b, order, request.ts);
      }
    }
  }

  /** While a trader is killed, in any run none of its orders passes, it is the aggressor in no trade of an
      entered order, no entered order of its own comes to rest, and it stays killed. */
  lemma {:induction false} KilledTraderIsShutOut(e: Engine, requests: seq<Request>, trader: TraderId)
    requires BooksValid(e) && e.risk.Some? && R.Killed(e.risk.value, trader)
    ensures Passed(e, requests, trader) == [] && Newcomers(e, requests, trader) == []
    ensures NeverAggressor(AllEntryTrades(e, requests), trader)
    ensures HandleAll(e, requests).risk.Some? && R.Killed(HandleAll(e, requests).risk.value, trader)
    decreases |requests|
  {
    hide BooksValid, Handle, Passes, NewcomersOf, EntryTrades, R.Killed;
    if |requests| > 0 {
      HandleKeepsBooks(e, requests[0]);
      HandleKeepsSwitches(e, requests[0], trader);
      RequestOfKilled(e, requests[0], trader);
      KilledTraderIsShutOut(Handle(e, requests[0]), requests[1..], trader);
    }
  }
}
