/** Runs of the whole engine: position limits hold, and cancels find their book. */
module EngineTheorems {
  import opened Types
  import opened Ladder
  import opened BookSpec
  import opened BookTheorems
  import R = RiskSpec
  import RT = RiskTheorems
  import opened EngineSpec

  datatype Request =
    | Enter(order: Order, ts: Timestamp)
    | Withdraw(cancel: CancelRequest, ts: Timestamp)
    | Amend(replace: ReplaceRequest, ts: Timestamp)

  ghost function Handle(e: Engine, request: Request): Engine {
    match request
    case Enter(order, ts) => NewOrder(e, order, ts).0
    case Withdraw(req, ts) => CancelRequested(e, req, ts).0
    case Amend(req, ts) => ReplaceRequested(e, req, ts).0
  }

  ghost function HandleAll(e: Engine, requests: seq<Request>): Engine
    decreases |requests|
  {
    if |requests| == 0 then e else HandleAll(Handle(e, requests[0]), requests[1..])
  }

  ghost predicate BooksValid(e: Engine) {
    forall s | s in e.books :: ValidBook(e.books[s])
  }

  lemma AcceptKeepsBooks(e: Engine, order: Order, ts: Timestamp)
    requires BooksValid(e) && order.symbol in e.books
    ensures BooksValid(Accept(e, order, ts).0)
  {
    hide ValidBook, AddOrder, R.OnFill;
    AddKeepsValid(e.books[order.symbol], order, ts);
  }

  lemma HandleKeepsBooks(e: Engine, request: Request)
    requires BooksValid(e)
    ensures BooksValid(Handle(e, request))
  {
    hide ValidBook, Accept, CancelOrder, ReplaceOrder, R.CheckOrder;
    match request
    case Enter(order, ts) =>
      if order.symbol in e.books {
        var e1 := e.(processed := e.processed + 1);
        AcceptKeepsBooks(e1, order, ts);
        if e.risk.Some? {
          AcceptKeepsBooks(e1.(risk := Some(R.CheckOrder(e.risk.value, order).0)), order, ts);
        }
      }
    case Withdraw(req, ts) =>
      forall s | s in e.books
        ensures ValidBook(CancelOrder(e.books[s], req.orderId, ts).book)
      {
        CancelKeepsValid(e.books[s], req.orderId, ts);
      }
    case Amend(req, ts) =>
      if req.symbol in e.books {
        ReplaceKeepsValid(e.books[req.symbol], req, ts);
      }
  }

  // ---------- Position limits ----------

  ghost predicate RiskHolds(e: Engine) {
    e.risk.Some? && RT.AllWithin(e.risk.value) && RT.SaneLimits(e.risk.value)
  }

  lemma CheckedQuantity(r: R.Risk, order: Order)
    ensures R.CheckOrder(r, order).1 == NoReason ==> order.quantity > 0
  {
    hide R.RateCheck, R.WithinPosition;
  }

  lemma HandleKeepsRisk(e: Engine, request: Request)
    requires BooksValid(e) && RiskHolds(e)
    ensures RiskHolds(Handle(e, request))
  {
    hide ValidBook, AddOrder, R.CheckOrder, R.OnFill, RT.AllWithin, RT.SaneLimits;
    if request.Enter? && request.order.symbol in e.books {
      var order, ts := request.order, request.ts;
      RT.CheckKeepsWithin(e.risk.value, order);
      CheckedQuantity(e.risk.value, order);
      if R.CheckOrder(e.risk.value, order).1 == NoReason {
        ReportMatchesTape(e.books[order.symbol], order, ts);
        RT.CheckedFillKeepsWithin(e.risk.value, order, AddOrder(e.books[order.symbol], order, ts).report.filledQty);
      }
    }
  }

  /** With fixed limits, after any requests, every tracked position and every net position is within
      its limit, and every net is the sum of that trader's positions. */
  lemma {:induction false} PositionsStayWithin(e: Engine, requests: seq<Request>)
    requires BooksValid(e) && RiskHolds(e)
    ensures BooksValid(HandleAll(e, requests)) && RiskHolds(HandleAll(e, requests))
    decreases |requests|
  {
    if |requests| > 0 {
      HandleKeepsBooks(e, requests[0]);
      HandleKeepsRisk(e, requests[0]);
      PositionsStayWithin(Handle(e, requests[0]), requests[1..]);
    }
  }

  // ---------- Order rates ----------

  /** Whether a request is an order of a trader that reaches the risk checks, and whether it passes them. */
  ghost predicate Checked(e: Engine, request: Request, trader: TraderId) {
    request.Enter? && request.order.trader == trader && e.risk.Some? && request.order.symbol in e.books
  }

  ghost predicate Passes(e: Engine, request: Request, trader: TraderId) {
    Checked(e, request, trader) && R.CheckOrder(e.risk.value, request.order).1 == NoReason
  }

  /** The submit times of a trader's orders, and of those that pass the risk checks in a run. */
  ghost function Submitted(requests: seq<Request>, trader: TraderId): seq<Timestamp> {
    if |requests| == 0 then []
    else (if requests[0].Enter? && requests[0].order.trader == trader then [requests[0].order.submitTime] else [])
         + Submitted(requests[1..], trader)
  }

  ghost function Passed(e: Engine, requests: seq<Request>, trader: TraderId): seq<Timestamp>
    decreases |requests|
  {
    if |requests| == 0 then []
    else (if Passes(e, requests[0], trader) then [requests[0].order.submitTime] else [])
         + Passed(Handle(e, requests[0]), requests[1..], trader)
  }

  /** The trader's deque of time stamps, with what passed so far, behaves as a limiter. */
  ghost predicate Paced(e: Engine, trader: TraderId, passed: seq<Timestamp>, now: Timestamp) {
    && e.risk.Some?
    && var limits := R.LimitsOf(e.risk.value, trader);
       && RT.Tracks(RT.Limiter(R.StateOf(e.risk.value, trader).timestamps, passed), now, R.WindowOf(limits))
       && RT.Spaced(passed, limits)
  }

  /** What one check does to the limiter of a trader: its own order that gets to the rate check is checked by
      it, and everything else leaves it alone. */
  lemma CheckLimits(r: R.Risk, order: Order, trader: TraderId)
    ensures var (c, reason) := R.CheckOrder(r, order);
            var limits := R.LimitsOf(r, trader);
            var before, after := R.StateOf(r, trader).timestamps, R.StateOf(c, trader).timestamps;
            && R.LimitsOf(c, trader) == limits
            && (order.trader == trader && (reason == NoReason || reason == RateLimit) ==>
                  (after, reason == NoReason) == R.RateCheck(before, limits, order.submitTime))
            && (order.trader != trader || (reason != NoReason && reason != RateLimit) ==> after == before)
  {
    hide R.RateCheck, R.WithinPosition;
  }

  lemma FillLimits(r: R.Risk, filler: TraderId, symbol: Symbol, side: Side, qty: int, trader: TraderId)
    ensures var c := R.OnFill(r, filler, symbol, side, qty);
            && R.LimitsOf(c, trader) == R.LimitsOf(r, trader)
            && R.StateOf(c, trader).timestamps == R.StateOf(r, trader).timestamps
  {
  }

  /** After the risk checks nothing touches the stamps or the limits. */
  lemma HandleLimits(e: Engine, request: Request, trader: TraderId)
    requires e.risk.Some?
    ensures var e' := Handle(e, request);
            && e'.risk.Some?
            && var r := if request.Enter? && request.order.symbol in e.books
                        then R.CheckOrder(e.risk.value, request.order).0 else e.risk.value;
               && R.LimitsOf(e'.risk.value, trader) == R.LimitsOf(r, trader)
               && R.StateOf(e'.risk.value, trader).timestamps == R.StateOf(r, trader).timestamps
  {
    hide R.CheckOrder, R.OnFill, AddOrder, CancelOrder, ReplaceOrder, R.LimitsOf, R.StateOf;
    if request.Enter? && request.order.symbol in e.books {
      var order := request.order;
      var filled := AddOrder(e.books[order.symbol], order, request.ts).report.filledQty;
      FillLimits(R.CheckOrder(e.risk.value, order).0, order.trader, order.symbol, order.side, filled, trader);
    }
  }

  lemma HandlePaces(e: Engine, request: Request, trader: TraderId, passed: seq<Timestamp>, before: Timestamp)
    requires Paced(e, trader, passed, before)
    requires request.Enter? && request.order.trader == trader ==> before <= request.order.submitTime < R.TWO_64
    ensures var mine := request.Enter? && request.order.trader == trader;
            var now := if mine then request.order.submitTime else before;
            Paced(Handle(e, request), trader,
                  if Passes(e, request, trader) then passed + [request.order.submitTime] else passed, now)
    ensures R.LimitsOf(Handle(e, request).risk.value, trader) == R.LimitsOf(e.risk.value, trader)
  {
    hide R.RateCheck, R.CheckOrder, RT.Tracks, RT.Spaced, Handle, R.LimitsOf, R.StateOf, R.WindowOf;
    HandleLimits(e, request, trader);
    if request.Enter? {
      var order, limits := request.order, R.LimitsOf(e.risk.value, trader);
      CheckLimits(e.risk.value, order, trader);
      if order.trader == trader {
        var l := RT.Limiter(R.StateOf(e.risk.value, trader).timestamps, passed);
        RT.WindowIsExact(l, before, limits, order.submitTime);
        RT.CheckKeepsSpaced(l, before, limits, order.submitTime);
        RT.TracksLater(l, before, R.WindowOf(limits), order.submitTime);
      }
    }
  }

  lemma SubmittedNext(before: Timestamp, requests: seq<Request>, trader: TraderId)
    requires |requests| > 0 && RT.NonDecreasing(before, Submitted(requests, trader))
    ensures var mine := requests[0].Enter? && requests[0].order.trader == trader;
            && (mine ==> before <= requests[0].order.submitTime < R.TWO_64)
            && RT.NonDecreasing(if mine then requests[0].order.submitTime else before, Submitted(requests[1..], trader))
  {
    var rest := Submitted(requests[1..], trader);
    if requests[0].Enter? && requests[0].order.trader == trader {
      assert Submitted(requests, trader)[1..] == rest;
      RT.RestIsNonDecreasing(before, Submitted(requests, trader));
    } else {
      assert Submitted(requests, trader) == rest;
    }
  }

  lemma PassesIsMine(e: Engine, request: Request, trader: TraderId)
    requires Passes(e, request, trader)
    ensures request.Enter? && request.order.trader == trader
  {
  }

  /** Over any run of the engine, whatever other traders do, whatever else is refused or filled in between:
      with fixed limits and the trader's own submit times not running backwards, any max_order_rate + 1
      consecutive orders that pass span more than the window, and the trader's deque stays exact. */
  lemma {:induction false} RunPaces(
      e: Engine, requests: seq<Request>, trader: TraderId, passed: seq<Timestamp>, before: Timestamp)
    returns (now: Timestamp)
    requires Paced(e, trader, passed, before) && RT.NonDecreasing(before, Submitted(requests, trader))
    ensures Paced(HandleAll(e, requests), trader, passed + Passed(e, requests, trader), now)
    ensures R.LimitsOf(HandleAll(e, requests).risk.value, trader) == R.LimitsOf(e.risk.value, trader)
    decreases |requests|
  {
    hide Paced, Handle, Passes, R.LimitsOf, RT.NonDecreasing, Submitted;
    if |requests| == 0 {
      assert passed + [] == passed;
      now := before;
    } else {
      var request := requests[0];
      var mine := request.Enter? && request.order.trader == trader;
      SubmittedNext(before, requests, trader);
      HandlePaces(e, request, trader, passed, before);
      if Passes(e, request, trader) {
        PassesIsMine(e, request, trader);
      }
      var head := if Passes(e, request, trader) then [request.order.submitTime] else [];
      assert passed + [] == passed;
      now := RunPaces(Handle(e, request), requests[1..], trader, passed + head,
                      if mine then request.order.submitTime else before);
      Associate(passed, head, Passed(Handle(e, request), requests[1..], trader));
    }
  }

  /** The rate limit a trader starts with holds over every run from there. */
  lemma RateLimitHolds(e: Engine, requests: seq<Request>, trader: TraderId)
    requires e.risk.Some? && R.StateOf(e.risk.value, trader).timestamps == []
    requires RT.NonDecreasing(0, Submitted(requests, trader))
    ensures RT.Spaced(Passed(e, requests, trader), R.LimitsOf(e.risk.value, trader))
  {
    hide HandleAll, Passed, R.LimitsOf;
    var now := RunPaces(e, requests, trader, [], 0);
    assert [] + Passed(e, requests, trader) == Passed(e, requests, trader);
  }

  // ---------- Cancel routing ----------

  /** Every resting order's id leads to its own book. */
  ghost predicate Routed(e: Engine) {
    forall s, id | s in e.books && Resting(e.books[s], id) :: id in e.routes && e.routes[id] == s
  }

  lemma InsertedId(s: seq<L3Order>, o: L3Order, id: OrderId)
    ensures Queued(Insert(s, o), id) ==> Queued(s, id) || id == o.id
  {
    var k := Place(o.side, s, o.price);
    QueuedMid(s[..k], o, s[k..], id);
    assert s[..k] + s[k..] == s;
  }

  lemma RestingIsRoutable(order: Order, trades: seq<Trade>, remaining: int, ts: Timestamp)
    requires Rests(order, remaining)
    ensures Routable(ReportOf(order, trades, remaining, ts))
  {
  }

  /** Adding brings in nobody but the order itself, and the order itself only when its report says it may rest. */
  lemma AddResidents(b: Book, order: Order, ts: Timestamp, id: OrderId)
    requires ValidBook(b) && Resting(AddOrder(b, order, ts).book, id)
    ensures Resting(b, id) || (id == order.id && Routable(AddOrder(b, order, ts).report))
  {
    hide Insert, Consume, ReportOf;
    if !Resting(b, order.id) {
      var r, m := MatchIncoming(b, order, ts), Matched(b, order, ts);
      MatchKeepsSide(b, order, ts);
      MatchAmounts(b, order, ts);
      if Resting(m, id) {
        if Queued(r.rest, id) {
        }
      } else {
        var own := SideOf(m, order.side);
        var o := RestingOrder(order, r.remaining, CountAt(own, order.price), ts);
        InsertedId(own, o, id);
        RestingIsRoutable(order, r.trades, r.remaining, ts);
      }
    }
  }

  lemma CancelResidents(b: Book, id: OrderId, ts: Timestamp, other: OrderId)
    requires ValidBook(b)
    ensures Resting(CancelOrder(b, id, ts).book, other) ==> Resting(b, other) && other != id
  {
    CancelKeepsValid(b, id, ts);
    if Resting(b, id) {
      var s := if Queued(b.bids, id) then b.bids else b.asks;
      RemoveKeeps(s, id);
      if Queued(Remove(s, id), other) {
        var i :| 0 <= i < |Remove(s, id)| && Remove(s, id)[i].id == other;
        assert s[if i < Pos(s, id) then i else i + 1].id == other;
      }
    }
  }

  lemma ReplaceResidents(b: Book, req: ReplaceRequest, ts: Timestamp, id: OrderId)
    requires ValidBook(b) && Resting(ReplaceOrder(b, req, ts).book, id)
    ensures Resting(b, id)
  {
    hide ValidBook, AddOrder, Resting, Remove;
    CancelKeepsValid(b, req.orderId, ts);
    var c := CancelOrder(b, req.orderId, ts);
    if c.report.status == Canceled {
      var o := ReplacementFor(req, c.report.side, ts);
      AddResidents(c.book, o, ts, id);
      CancelResidents(b, req.orderId, ts, id);
    }
  }

  /** What decides, before the order is entered, whether a route will be recorded for it: a new id, and
      liquidity short of the quantity, except for a fill-or-kill limit order. */
  ghost predicate WillRoute(b: Book, order: Order) {
    && !Resting(b, order.id)
    && (|| order.quantity < 0
        || (&& Liquidity(SideOf(b, order.side.Opposite()), order) < order.quantity
            && !(order.tif.FOK? && order.orderType.Limit?)))
  }

  lemma RoutableIff(b: Book, order: Order, ts: Timestamp)
    requires ValidBook(b)
    ensures Routable(AddOrder(b, order, ts).report) <==> WillRoute(b, order)
  {
    hide ValidBook, Resting, Consume, Liquidity, Insert;
    if !Resting(b, order.id) {
      var opp := SideOf(b, order.side.Opposite());
      MatchAmounts(b, order, ts);
      SideIsOk(b, order.side.Opposite());
      if order.quantity >= 0 {
        FillsIffLiquid(opp, order, order.quantity, b.symbol, |b.tape| + 1, ts);
      }
    }
  }

  /** The order takes a route away from an order of the same id resting under another symbol. */
  ghost predicate Steals(e: Engine, order: Order) {
    && order.symbol in e.books
    && WillRoute(e.books[order.symbol], order)
    && exists s :: s in e.books && s != order.symbol && Resting(e.books[s], order.id)
  }

  /** Accepting an order keeps every resting order routed exactly when it does not take over the id of an
      order resting under another symbol. (A duplicate that is rejected or filled on the spot never
      writes a route.) */
  lemma AcceptKeepsRoutesIff(e: Engine, order: Order, ts: Timestamp)
    requires BooksValid(e) && Routed(e) && order.symbol in e.books
    ensures Routed(Accept(e, order, ts).0) <==> !Steals(e, order)
  {
    hide ValidBook, AddOrder, R.OnFill, Resting, WillRoute;
    var e' := Accept(e, order, ts).0;
    RoutableIff(e.books[order.symbol], order, ts);
    if Steals(e, order) {
      var s :| s in e.books && s != order.symbol && Resting(e.books[s], order.id);
      assert s in e'.books && Resting(e'.books[s], order.id) && e'.routes[order.id] != s;
    } else {
      forall s, id | s in e'.books && Resting(e'.books[s], id)
        ensures id in e'.routes && e'.routes[id] == s
      {
        if s == order.symbol {
          AddResidents(e.books[s], order, ts, id);
        }
        assert s in e.books;
      }
    }
  }

  lemma CancelFinds(b: Book, id: OrderId, ts: Timestamp)
    ensures CancelOrder(b, id, ts).report.status == Canceled <==> Resting(b, id)
    ensures Resting(b, id) ==> CancelOrder(b, id, ts).report.orderId == id
  {
  }

  /** A cancel leaves every book as it is or cancels in it, and only takes out a route when the order rested
      in a book it was cancelled in. */
  lemma CancelTouches(e: Engine, req: CancelRequest, ts: Timestamp)
    ensures var e' := CancelRequested(e, req, ts).0;
            && e'.books.Keys == e.books.Keys
            && (forall s | s in e.books ::
                  e'.books[s] == e.books[s] || e'.books[s] == CancelOrder(e.books[s], req.orderId, ts).book)
            && (|| e'.routes == e.routes
                || (&& e'.routes == e.routes - {req.orderId}
                    && exists t :: t in e.books && Resting(e.books[t], req.orderId)
                                   && e'.books[t] == CancelOrder(e.books[t], req.orderId, ts).book))
  {
    hide CancelOrder, Resting;
    forall t | t in e.books
      ensures CancelOrder(e.books[t], req.orderId, ts).report.status == Canceled <==> Resting(e.books[t], req.orderId)
    {
      CancelFinds(e.books[t], req.orderId, ts);
    }
  }

  /** Cancels and replaces always keep resting orders routed. */
  lemma CancelKeepsRoutes(e: Engine, req: CancelRequest, ts: Timestamp)
    requires BooksValid(e) && Routed(e)
    ensures Routed(CancelRequested(e, req, ts).0)
  {
    hide ValidBook, Resting, CancelOrder, CancelRequested;
    var e' := CancelRequested(e, req, ts).0;
    CancelTouches(e, req, ts);
    forall s, id | s in e'.books && Resting(e'.books[s], id)
      ensures id in e'.routes && e'.routes[id] == s
    {
      assert s in e.books;
      CancelResidents(e.books[s], req.orderId, ts, id);
      assert Resting(e.books[s], id);
    }
  }

  lemma ReplaceKeepsRoutes(e: Engine, req: ReplaceRequest, ts: Timestamp)
    requires BooksValid(e) && Routed(e)
    ensures Routed(ReplaceRequested(e, req, ts).0)
  {
    hide ValidBook, Resting, ReplaceOrder;
    var e' := ReplaceRequested(e, req, ts).0;
    forall s, id | s in e'.books && Resting(e'.books[s], id)
      ensures id in e'.routes && e'.routes[id] == s
    {
      if s == req.symbol {
        ReplaceResidents(e.books[s], req, ts, id);
      }
      assert Resting(e.books[s], id);
    }
  }

  /** The request does not reuse the id of an order resting under another symbol. */
  ghost predicate FreshElsewhere(e: Engine, request: Request) {
    request.Enter? ==>
      forall s | s in e.books && s != request.order.symbol :: !Resting(e.books[s], request.order.id)
  }

  /** No order of the run reuses the id of an order resting under another symbol. */
  ghost predicate Honest(e: Engine, requests: seq<Request>)
    decreases |requests|
  {
    |requests| > 0 ==> FreshElsewhere(e, requests[0]) && Honest(Handle(e, requests[0]), requests[1..])
  }

  lemma EnterKeepsRoutes(e: Engine, order: Order, ts: Timestamp)
    requires BooksValid(e) && Routed(e)
    requires forall s | s in e.books && s != order.symbol :: !Resting(e.books[s], order.id)
    ensures Routed(NewOrder(e, order, ts).0)
  {
    hide ValidBook, Accept, R.CheckOrder, Resting;
    if order.symbol in e.books {
      var e1 := e.(processed := e.processed + 1);
      AcceptKeepsRoutesIff(e1, order, ts);
      if e.risk.Some? {
        AcceptKeepsRoutesIff(e1.(risk := Some(R.CheckOrder(e.risk.value, order).0)), order, ts);
      }
    }
  }

  /** What one request keeps of an engine: positions within limits, and resting orders routed. */
  ghost predicate PromisesKept(e: Engine, e': Engine, request: Request) {
    && (RiskHolds(e) ==> RiskHolds(e'))
    && (Routed(e) && FreshElsewhere(e, request) ==> Routed(e'))
  }

  lemma HandleKeepsRoutes(e: Engine, request: Request)
    requires BooksValid(e) && Routed(e) && FreshElsewhere(e, request)
    ensures Routed(Handle(e, request))
  {
    hide BooksValid, Routed, NewOrder, CancelRequested, ReplaceRequested;
    match request {
      case Enter(order, ts) => EnterKeepsRoutes(e, order, ts);
      case Withdraw(req, ts) => CancelKeepsRoutes(e, req, ts);
      case Amend(req, ts) => ReplaceKeepsRoutes(e, req, ts);
    }
  }

  lemma HandleKeepsPromises(e: Engine, request: Request)
    requires BooksValid(e)
    ensures PromisesKept(e, Handle(e, request), request)
  {
    hide BooksValid, RiskHolds, Routed, NewOrder, CancelRequested, ReplaceRequested;
    if RiskHolds(e) {
      HandleKeepsRisk(e, request);
    }
    if Routed(e) && FreshElsewhere(e, request) {
      HandleKeepsRoutes(e, request);
    }
  }

  lemma {:induction false} RunKeepsRoutes(e: Engine, requests: seq<Request>)
    requires BooksValid(e) && Routed(e) && Honest(e, requests)
    ensures BooksValid(HandleAll(e, requests)) && Routed(HandleAll(e, requests))
    decreases |requests|
  {
    hide Routed, BooksValid, Handle, FreshElsewhere;
    if |requests| > 0 {
      HandleKeepsBooks(e, requests[0]);
      HandleKeepsRoutes(e, requests[0]);
      RunKeepsRoutes(Handle(e, requests[0]), requests[1..]);
    }
  }

  /** After any honest run, a cancel with a blank symbol reaches the book of the order it names:
      it is answered Canceled, the order is gone, and no other book changes. */
  lemma BlankCancelReachesItsBook(e: Engine, requests: seq<Request>, symbol: Symbol, id: OrderId, ts: Timestamp)
    requires BooksValid(e) && Routed(e) && Honest(e, requests)
    requires var e' := HandleAll(e, requests); symbol in e'.books && Resting(e'.books[symbol], id)
    ensures var e' := HandleAll(e, requests);
            var (after, rpt) := CancelRequested(e', CancelRequest(id, BLANK), ts);
            && rpt.status == Canceled && rpt.orderId == id
            && after.books == e'.books[symbol := CancelOrder(e'.books[symbol], id, ts).book]
            && !Resting(after.books[symbol], id)
  {
    hide ValidBook, Resting, Remove;
    var e' := HandleAll(e, requests);
    RunKeepsRoutes(e, requests);
    CancelKeepsValid(e'.books[symbol], id, ts);
    CancelFinds(e'.books[symbol], id, ts);
  }

  lemma NothingRests(e: Engine)
    requires forall s | s in e.books :: e.books[s] == EmptyBook(s)
    ensures BooksValid(e) && Routed(e)
  {
  }

  lemma TwoRequests(e: Engine, a: Request, b: Request)
    ensures HandleAll(e, [a, b]) == Handle(Handle(e, a), b)
  {
    hide Handle;
    assert [a, b][1..] == [b] && [b][1..] == [];
    assert HandleAll(Handle(e, a), [b]) == HandleAll(Handle(Handle(e, a), b), []);
  }

  /** A day limit order comes to rest in an empty book and leaves the other books alone. */
  lemma RestsAlone(e: Engine, order: Order)
    requires e.risk.None? && order.symbol in e.books && e.books[order.symbol] == EmptyBook(order.symbol)
    requires order.orderType.Limit? && order.tif.Day? && order.quantity > 0
    ensures var e' := Handle(e, Enter(order, 0));
            && e'.risk.None? && order.symbol in e'.books && Resting(e'.books[order.symbol], order.id)
            && forall s | s in e.books && s != order.symbol :: s in e'.books && e'.books[s] == e.books[s]
  {
    hide AddOrder, ValidBook;
    var b := e.books[order.symbol];
    AddUncrossed(b, order, 0);
    var o := RestingOrder(order, order.quantity, CountAt(SideOf(b, order.side), order.price), 0);
    assert Insert([], o) == [o] && [o][0].id == order.id;
  }

  lemma NothingToTake(b: Book, order: Order)
    requires b == EmptyBook(b.symbol) && order.orderType.Limit? && order.tif.IOC? && order.quantity > 0
    ensures AddOrder(b, order, 0).book == b && Routable(AddOrder(b, order, 0).report)
  {
    assert b.tape + [] == b.tape;
  }

  /** An immediate-or-cancel order in an empty book leaves nothing behind but its route. */
  lemma LeavesOnlyRoute(e: Engine, order: Order)
    requires e.risk.None? && order.symbol in e.books && e.books[order.symbol] == EmptyBook(order.symbol)
    requires order.orderType.Limit? && order.tif.IOC? && order.quantity > 0
    ensures var e' := Handle(e, Enter(order, 0));
            && e'.books == e.books && order.id in e'.routes && e'.routes[order.id] == order.symbol
  {
    hide AddOrder;
    NothingToTake(e.books[order.symbol], order);
  }

  lemma BlankMisses(e: Engine, id: OrderId, symbol: Symbol)
    requires id in e.routes && e.routes[id] == symbol && symbol in e.books && e.books[symbol] == EmptyBook(symbol)
    ensures CancelRequested(e, CancelRequest(id, BLANK), 0).1.status == Rejected
  {
  }

  /** A concrete stolen route: id 1 rests under A, a second order with id 1 finds no liquidity under B and is
      gone at once, and now a blank cancel of id 1 is rejected although the first order still rests. */
  lemma StolenRouteMisses()
    ensures exists e, requests ::
              && BooksValid(e) && Routed(e) && "A" in e.books && "B" in e.books
              && var e' := HandleAll(e, requests);
                 && "A" in e'.books && Resting(e'.books["A"], 1)
                 && CancelRequested(e', CancelRequest(1, BLANK), 0).1.status == Rejected
  {
    hide Handle, CancelRequested, Resting;
    var e := Engine(map["A" := EmptyBook("A"), "B" := EmptyBook("B")], map[], None, 0, 0, 0, 0);
    var first := Order(1, 1, "A", Buy, Limit, Day, 10, 5, 0);
    var second := Order(1, 1, "B", Buy, Limit, IOC, 10, 5, 0);
    var requests := [Enter(first, 0), Enter(second, 0)];
    assert BooksValid(e) && Routed(e) by { NothingRests(e); }
    RestsAlone(e, first);
    var e1 := Handle(e, requests[0]);
    LeavesOnlyRoute(e1, second);
    var e2 := Handle(e1, requests[1]);
    BlankMisses(e2, 1, "B");
    TwoRequests(e, requests[0], requests[1]);
  }
}
