/** The multi-symbol engine: risk check, book operation, routing entry and fill, in that order. */
module EngineSpec {
  import opened Types
  import opened BookSpec
  import R = RiskSpec

  /** Books by symbol, the order-to-symbol routing index, an optional risk engine, and counters. */
  datatype Engine = Engine(
    books: map<Symbol, Book>,
    routes: map<OrderId, Symbol>,
    risk: Option<R.Risk>,
    processed: nat,
    trades: int,
    cancels: nat,
    rejects: nat)

  function Refusal(order: Order, reason: RejectReason, ts: Timestamp): ExecutionReport {
    BLANK_REPORT.(orderId := order.id, trader := order.trader, symbol := order.symbol, status := Rejected,
                  reason := reason, transactTime := ts)
  }

  predicate Routable(rpt: ExecutionReport) {
    rpt.status != Rejected && rpt.status != Filled
  }

  /** How many trades a book has made since. */
  function Made(before: Book, after: Book): int {
    |after.tape| - |before.tape|
  }

  /** An order that passed every check, on its book. */
  ghost function Accept(e: Engine, order: Order, ts: Timestamp): (Engine, ExecutionReport)
    requires order.symbol in e.books
  {
    var out := AddOrder(e.books[order.symbol], order, ts);
    var routes := if Routable(out.report) then e.routes[order.id := order.symbol] else e.routes;
    var risk := if e.risk.Some? && out.report.filledQty > 0
                then Some(R.OnFill(e.risk.value, order.trader, order.symbol, order.side, out.report.filledQty))
                else e.risk;
    (e.(books := e.books[order.symbol := out.book], routes := routes, risk := risk,
        trades := e.trades + Made(e.books[order.symbol], out.book)), out.report)
  }

  ghost function NewOrder(e0: Engine, order: Order, ts: Timestamp): (Engine, ExecutionReport) {
    var e := e0.(processed := e0.processed + 1);
    if order.symbol !in e.books then
      (e.(rejects := e.rejects + 1), Refusal(order, UnknownSymbol, ts))
    else if e.risk.None? then Accept(e, order, ts)
    else
      var (checked, reason) := R.CheckOrder(e.risk.value, order);
      if reason != NoReason then
        (e.(risk := Some(checked), rejects := e.rejects + 1), Refusal(order, reason, ts))
      else Accept(e.(risk := Some(checked)), order, ts)
  }

  ghost function CancelRequested(e: Engine, req: CancelRequest, ts: Timestamp): (Engine, ExecutionReport) {
    var blank := BLANK_REPORT.(orderId := req.orderId, status := Rejected, transactTime := ts);
    if req.symbol == BLANK && req.orderId !in e.routes then (e, blank)
    else
      var symbol := if req.symbol == BLANK then e.routes[req.orderId] else req.symbol;
      if symbol !in e.books then (e, blank.(reason := UnknownSymbol))
      else
        var out := CancelOrder(e.books[symbol], req.orderId, ts);
        var after := e.(books := e.books[symbol := out.book]);
        (if out.report.status == Canceled
         then after.(cancels := e.cancels + 1, routes := e.routes - {req.orderId}) else after,
         out.report)
  }

  ghost function ReplaceRequested(e: Engine, req: ReplaceRequest, ts: Timestamp): (Engine, ExecutionReport) {
    if req.symbol !in e.books then
      (e, BLANK_REPORT.(orderId := req.orderId, status := Rejected, reason := UnknownSymbol, transactTime := ts))
    else
      var out := ReplaceOrder(e.books[req.symbol], req, ts);
      (e.(books := e.books[req.symbol := out.book], trades := e.trades + Made(e.books[req.symbol], out.book)),
       out.report)
  }
}
