/** What an engine's counters and tracked positions have to do with the trades on its books' tapes. */
module EngineLedger {
  import opened Types
  import opened MapSum
  import opened Ladder
  import opened BookSpec
  import opened BookTheorems
  import opened BookReports
  import R = RiskSpec
  import RT = RiskTheorems
  import opened EngineSpec
  import opened EngineTheorems

  // ---------- The trade counter ----------

  /** The trade counter is the number of trades on all tapes. */
  ghost predicate TradesCounted(e: Engine) {
    e.trades == Sum(map s | s in e.books :: |e.books[s].tape|)
  }

  lemma OneBookMoves(e: Engine, symbol: Symbol, after: Book)
    requires symbol in e.books
    ensures Sum(map s | s in e.books :: |e.books[symbol := after][s].tape|) ==
            Sum(map s | s in e.books :: |e.books[s].tape|) + Made(e.books[symbol], after)
  {
    hide Sum;
    var lengths := map s | s in e.books :: |e.books[s].tape|;
    SumUpdate(lengths, symbol, |after.tape|);
    assert (map s | s in e.books :: |e.books[symbol := after][s].tape|) == lengths[symbol := |after.tape|];
  }

  lemma BooksMove(e: Engine, e': Engine, symbol: Symbol)
    requires TradesCounted(e) && symbol in e.books && symbol in e'.books
    requires e'.books == e.books[symbol := e'.books[symbol]]
    requires e'.trades == e.trades + Made(e.books[symbol], e'.books[symbol])
    ensures TradesCounted(e')
  {
    hide Sum;
    OneBookMoves(e, symbol, e'.books[symbol]);
    assert (map s | s in e'.books :: |e'.books[s].tape|) ==
           (map s | s in e.books :: |e.books[symbol := e'.books[symbol]][s].tape|);
  }

  /** Which one book a request may change, and how the counter moves with it. */
  lemma HandleMovesOne(e: Engine, request: Request) returns (symbol: Symbol)
    ensures var e' := Handle(e, request);
            || (e'.books == e.books && e'.trades == e.trades)
            || (&& symbol in e.books && symbol in e'.books && e'.books == e.books[symbol := e'.books[symbol]]
                && e'.trades == e.trades + Made(e.books[symbol], e'.books[symbol]))
  {
    hide AddOrder, CancelOrder, ReplaceOrder, R.CheckOrder, R.OnFill;
    match request
    case Enter(order, ts) => symbol := order.symbol;
    case Withdraw(req, ts) =>
      symbol := if req.symbol == BLANK && req.orderId in e.routes then e.routes[req.orderId] else req.symbol;
      if symbol in e.books {
        CancelKeepsTape(e.books[symbol], req.orderId, ts);
      }
    case Amend(req, ts) => symbol := req.symbol;
  }

  lemma HandleKeepsCounted(e: Engine, request: Request)
    requires TradesCounted(e)
    ensures TradesCounted(Handle(e, request))
  {
    hide Handle, Made;
    var symbol := HandleMovesOne(e, request);
    var e' := Handle(e, request);
    if e'.books != e.books || e'.trades != e.trades {
      hide TradesCounted;
      BooksMove(e, e', symbol);
    }
  }

  /** Over any run total_trades() is the number of trades on all books' tapes. */
  lemma {:induction false} RunKeepsCounted(e: Engine, requests: seq<Request>)
    requires TradesCounted(e)
    ensures TradesCounted(HandleAll(e, requests))
    decreases |requests|
  {
    hide TradesCounted, Handle;
    if |requests| > 0 {
      HandleKeepsCounted(e, requests[0]);
      RunKeepsCounted(Handle(e, requests[0]), requests[1..]);
    }
  }

  // ---------- Tracked positions ----------

  /** Every book carries the symbol it is kept under. */
  ghost predicate Named(e: Engine) {
    forall s | s in e.books :: e.books[s].symbol == s
  }

  /** The trades made by a request when it enters an order. */
  ghost function EntryTrades(e: Engine, request: Request): seq<Trade> {
    if request.Enter? && request.order.symbol in e.books && request.order.symbol in Handle(e, request).books
    then NewTrades(e.books[request.order.symbol], Handle(e, request).books[request.order.symbol]) else []
  }

  /** The trades made by all entered orders of a run, replacements not included. */
  ghost function AllEntryTrades(e: Engine, requests: seq<Request>): seq<Trade>
    decreases |requests|
  {
    if |requests| == 0 then []
    else EntryTrades(e, requests[0]) + AllEntryTrades(Handle(e, requests[0]), requests[1..])
  }

  /** What a trader bought less what it sold in a symbol as the aggressor. */
  ghost function Aggressed(trades: seq<Trade>, trader: TraderId, symbol: Symbol): int {
    if |trades| == 0 then 0
    else
      var t := trades[0];
      (if t.incomingTrader == trader && t.symbol == symbol then R.Signed(t.aggressor, t.qty) else 0)
      + Aggressed(trades[1..], trader, symbol)
  }

  lemma {:induction false} AggressedConcat(a: seq<Trade>, b: seq<Trade>, trader: TraderId, symbol: Symbol)
    ensures Aggressed(a + b, trader, symbol) == Aggressed(a, trader, symbol) + Aggressed(b, trader, symbol)
  {
    if |a| == 0 {
      assert a + b == b;
    } else {
      assert (a + b)[1..] == a[1..] + b;
      AggressedConcat(a[1..], b, trader, symbol);
    }
  }

  /** Trades of one order: its trader, its side, one symbol. */
  ghost predicate AllOf(trades: seq<Trade>, trader: TraderId, symbol: Symbol, side: Side) {
    forall i | 0 <= i < |trades| ::
      trades[i].incomingTrader == trader && trades[i].symbol == symbol && trades[i].aggressor == side
  }

  lemma {:induction false} AggressedOfOne(
      trades: seq<Trade>, taker: TraderId, at: Symbol, side: Side, trader: TraderId, symbol: Symbol)
    requires AllOf(trades, taker, at, side)
    ensures Aggressed(trades, trader, symbol) ==
            if trader == taker && symbol == at then R.Signed(side, SumQty(trades)) else 0
  {
    if |trades| > 0 {
      AggressedOfOne(trades[1..], taker, at, side, trader, symbol);
    }
  }

  /** The new trades of a submission are the order's own, and sum to the fill it reports. */
  lemma AddMakesOwnTrades(b: Book, order: Order, ts: Timestamp)
    requires ValidBook(b)
    ensures var out := AddOrder(b, order, ts);
            && out.book.symbol == b.symbol
            && AllOf(NewTrades(b, out.book), order.trader, b.symbol, order.side)
            && SumQty(NewTrades(b, out.book)) == out.report.filledQty >= 0
  {
    var out := AddOrder(b, order, ts);
    ReportMatchesTape(b, order, ts);
    if !Resting(b, order.id) {
      var s := SideOf(b, order.side.Opposite());
      MatchAmounts(b, order, ts);
      ConsumeEatsPrefix(s, order, order.quantity, b.symbol, |b.tape| + 1, ts);
      var trades := Consume(s, order, order.quantity, b.symbol, |b.tape| + 1, ts).trades;
      PositiveSum(s, order, trades, b.symbol, |b.tape| + 1, ts);
      assert out.book.tape == b.tape + MatchIncoming(b, order, ts).trades;
      assert NewTrades(b, out.book) == MatchIncoming(b, order, ts).trades;
    }
  }

  /** What risk holds of a trader in a symbol. */
  ghost function Tracked(e: Engine, trader: TraderId, symbol: Symbol): int
    requires e.risk.Some?
  {
    R.PositionOf(R.StateOf(e.risk.value, trader), symbol)
  }

  lemma CheckMovesNothing(r: R.Risk, order: Order, trader: TraderId)
    ensures R.StateOf(R.CheckOrder(r, order).0, trader).positions == R.StateOf(r, trader).positions
  {
    hide R.RateCheck, R.WithinPosition;
  }

  lemma FillMoves(r: R.Risk, filler: TraderId, at: Symbol, side: Side, qty: int, trader: TraderId, symbol: Symbol)
    ensures R.PositionOf(R.StateOf(R.OnFill(r, filler, at, side, qty), trader), symbol) ==
            R.PositionOf(R.StateOf(r, trader), symbol) +
            if trader == filler && symbol == at then R.Signed(side, qty) else 0
  {
  }

  lemma AcceptTracks(e: Engine, order: Order, ts: Timestamp, trader: TraderId, symbol: Symbol)
    requires BooksValid(e) && Named(e) && e.risk.Some? && order.symbol in e.books
    ensures var e' := Accept(e, order, ts).0;
            && Named(e') && e'.risk.Some? && order.symbol in e'.books
            && Tracked(e', trader, symbol) == Tracked(e, trader, symbol) +
                 Aggressed(NewTrades(e.books[order.symbol], e'.books[order.symbol]), trader, symbol)
  {
    hide ValidBook, AddOrder, NewTrades, AllOf, R.OnFill, R.StateOf, R.PositionOf;
    var b, out := e.books[order.symbol], AddOrder(e.books[order.symbol], order, ts);
    AddMakesOwnTrades(b, order, ts);
    AggressedOfOne(NewTrades(b, out.book), order.trader, b.symbol, order.side, trader, symbol);
    FillMoves(e.risk.value, order.trader, order.symbol, order.side, out.report.filledQty, trader, symbol);
  }

  lemma ReplaceKeepsName(b: Book, req: ReplaceRequest, ts: Timestamp)
    ensures ReplaceOrder(b, req, ts).book.symbol == b.symbol
  {
    hide CancelOrder, Resting, Consume, Insert;
    CancelKeepsTape(b, req.orderId, ts);
  }

  lemma OthersKeepNames(e: Engine, request: Request)
    requires Named(e) && !request.Enter?
    ensures Named(Handle(e, request)) && Handle(e, request).risk == e.risk
  {
    hide AddOrder, CancelOrder, ReplaceOrder;
    match request
    case Withdraw(req, ts) =>
      forall s | s in e.books ensures CancelOrder(e.books[s], req.orderId, ts).book.symbol == e.books[s].symbol {
        CancelKeepsTape(e.books[s], req.orderId, ts);
      }
    case Amend(req, ts) =>
      if req.symbol in e.books {
        ReplaceKeepsName(e.books[req.symbol], req, ts);
      }
  }

  lemma NothingAggressed(trader: TraderId, symbol: Symbol)
    ensures Aggressed([], trader, symbol) == 0
  {
  }

  lemma SamePositions(s: R.TraderState, s': R.TraderState, symbol: Symbol)
    requires s.positions == s'.positions
    ensures R.PositionOf(s, symbol) == R.PositionOf(s', symbol)
  {
  }

  lemma SameBooks(e: Engine, e': Engine)
    requires e'.books == e.books
    ensures (BooksValid(e) <==> BooksValid(e')) && (Named(e) <==> Named(e'))
  {
  }

  lemma SameTape(b: Book)
    ensures NewTrades(b, b) == []
  {
  }

  lemma HandleTracks(e: Engine, request: Request, trader: TraderId, symbol: Symbol)
    requires BooksValid(e) && Named(e) && e.risk.Some?
    ensures var e' := Handle(e, request);
            && Named(e') && e'.risk.Some?
            && Tracked(e', trader, symbol) ==
               Tracked(e, trader, symbol) + Aggressed(EntryTrades(e, request), trader, symbol)
  {
    hide BooksValid, Named, Accept, Aggressed, R.CheckOrder, R.StateOf, R.PositionOf, CancelRequested, ReplaceRequested;
    NothingAggressed(trader, symbol);
    if request.Enter? {
      var order := request.order;
      CheckMovesNothing(e.risk.value, order, trader);
      SamePositions(R.StateOf(e.risk.value, trader), R.StateOf(R.CheckOrder(e.risk.value, order).0, trader), symbol);
      if order.symbol in e.books {
        var (checked, reason) := R.CheckOrder(e.risk.value, order);
        var e1 := e.(processed := e.processed + 1);
        var e2 := e1.(risk := Some(checked));
        SameBooks(e, e1.(rejects := e1.rejects + 1, risk := Some(checked)));
        SameBooks(e, e2);
        SameTape(e.books[order.symbol]);
        if reason == NoReason {
          AcceptTracks(e2, order, request.ts, trader, symbol);
        }
      } else {
        SameBooks(e, e.(processed := e.processed + 1, rejects := e.rejects + 1));
      }
    } else {
      OthersKeepNames(e, request);
    }
  }

  /** Over any engine run a trader's tracked position in a symbol moves by the signed trades in which its own
      entered orders were the aggressor: neither passive fills nor fills of replacements are seen. */
  lemma {:induction false} PositionsFollowEntries(e: Engine, requests: seq<Request>, trader: TraderId, symbol: Symbol)
    requires BooksValid(e) && Named(e) && e.risk.Some?
    ensures var e' := HandleAll(e, requests);
            && e'.risk.Some?
            && Tracked(e', trader, symbol) ==
               Tracked(e, trader, symbol) + Aggressed(AllEntryTrades(e, requests), trader, symbol)
    decreases |requests|
  {
    hide BooksValid, Named, Handle, Tracked, Aggressed, EntryTrades;
    NothingAggressed(trader, symbol);
    if |requests| > 0 {
      HandleKeepsBooks(e, requests[0]);
      HandleTracks(e, requests[0], trader, symbol);
      var e1 := Handle(e, requests[0]);
      PositionsFollowEntries(e1, requests[1..], trader, symbol);
      AggressedConcat(EntryTrades(e, requests[0]), AllEntryTrades(e1, requests[1..]), trader, symbol);
    }
  }

  // ---------- Passive fills ----------

  /** What a trader bought less what it sold in a symbol, on either side of the trades. */
  ghost function Involved(trades: seq<Trade>, trader: TraderId, symbol: Symbol): int {
    if |trades| == 0 then 0
    else
      var t := trades[0];
      (if t.incomingTrader == trader && t.symbol == symbol then R.Signed(t.aggressor, t.qty) else 0)
      + (if t.restingTrader == trader && t.symbol == symbol then R.Signed(t.aggressor.Opposite(), t.qty) else 0)
      + Involved(trades[1..], trader, symbol)
  }

  lemma {:induction false} InvolvedPassively(trades: seq<Trade>, trader: TraderId, symbol: Symbol, side: Side)
    requires forall i | 0 <= i < |trades| ::
               && trades[i].restingTrader == trader != trades[i].incomingTrader
               && trades[i].symbol == symbol && trades[i].aggressor == side.Opposite()
    ensures Involved(trades, trader, symbol) == R.Signed(side, SumQty(trades))
    ensures Aggressed(trades, trader, symbol) == 0
  {
    if |trades| > 0 {
      InvolvedPassively(trades[1..], trader, symbol, side);
    }
  }

  /** A risk state in which nobody holds a position, is killed, or has been accepted more than n times. */
  ghost predicate Calm(r: R.Risk, defaults: R.Limits, limits: map<TraderId, R.Limits>, n: nat) {
    && !r.globalKill && r.defaults == defaults && r.limits == limits
    && forall t | t in r.states ::
         r.states[t].positions == map[] && r.states[t].net == 0 && !r.states[t].killed && |r.states[t].timestamps| <= n
  }

  lemma CalmPasses(r: R.Risk, defaults: R.Limits, limits: map<TraderId, R.Limits>, n: nat, order: Order)
    requires Calm(r, defaults, limits, n) && order.orderType.Limit? && order.price > 0 && order.quantity > 0
    requires var own := R.LimitsOf(r, order.trader);
             order.quantity <= own.maxPositionPerSymbol && order.quantity <= own.maxNetPosition && n < own.maxOrderRate
    ensures R.CheckOrder(r, order).1 == NoReason && Calm(R.CheckOrder(r, order).0, defaults, limits, n + 1)
  {
    RT.PurgeShrinks(R.StateOf(r, order.trader).timestamps, order.submitTime, R.WindowOf(R.LimitsOf(r, order.trader)));
  }

  /** A bid into a book without asks comes to rest, and risk sees nothing of it but the order. */
  lemma BidRests(e: Engine, order: Order, defaults: R.Limits, limits: map<TraderId, R.Limits>, n: nat)
    requires BooksValid(e) && e.risk.Some? && Calm(e.risk.value, defaults, limits, n)
    requires order.symbol in e.books && e.books[order.symbol].asks == [] && !Resting(e.books[order.symbol], order.id)
    requires order.orderType.Limit? && order.tif.Day? && order.side.Buy? && order.price > 0 && order.quantity > 0
    requires var own := R.LimitsOf(e.risk.value, order.trader);
             order.quantity <= own.maxPositionPerSymbol && order.quantity <= own.maxNetPosition && n < own.maxOrderRate
    ensures var e' := Handle(e, Enter(order, 0));
            var b := e.books[order.symbol];
            && e'.risk.Some? && Calm(e'.risk.value, defaults, limits, n + 1)
            && order.symbol in e'.books
            && e'.books[order.symbol] ==
               b.(bids := Insert(b.bids, RestingOrder(order, order.quantity, CountAt(b.bids, order.price), 0)))
  {
    hide ValidBook, R.CheckOrder, Calm, AddOrder, R.LimitsOf, Insert, Resting, R.OnFill;
    var b := e.books[order.symbol];
    CalmPasses(e.risk.value, defaults, limits, n, order);
    AddUncrossed(b, order, 0);
    ReportMatchesTape(b, order, 0);
    assert AddOrder(b, order, 0).book.tape[|b.tape|..] == [];
  }

  lemma FreshEngine(e: Engine, defaults: R.Limits, limits: map<TraderId, R.Limits>)
    requires e.books == map["A" := EmptyBook("A")]
    requires e.risk == Some(R.Risk(defaults, limits, map[], false, 0, 0)) && RT.SaneLimits(e.risk.value)
    ensures BooksValid(e) && Named(e) && RiskHolds(e) && Calm(e.risk.value, defaults, limits, 0)
  {
  }

  lemma ThreeRequests(e: Engine, a: Request, b: Request, c: Request)
    ensures HandleAll(e, [a, b, c]) == Handle(Handle(Handle(e, a), b), c)
  {
    hide Handle;
    assert [a, b, c][1..] == [b, c];
    TwoRequests(Handle(e, a), b, c);
  }

  /** Two bids of 5 at 10 by one trader, queued in the order they came. */
  ghost predicate TwoQueued(b: Book, trader: TraderId) {
    && b.symbol == "A" && b.asks == [] && b.tape == [] && |b.bids| == 2
    && forall i | 0 <= i < 2 ::
         && b.bids[i].id == i + 1 && b.bids[i].price == 10 && Available(b.bids[i]) == 5
         && b.bids[i].body.trader == trader
  }

  lemma TwoBids(e: Engine, bid1: Order, bid2: Order, defaults: R.Limits, limits: map<TraderId, R.Limits>)
    requires BooksValid(e) && e.risk.Some? && Calm(e.risk.value, defaults, limits, 0)
    requires "A" in e.books && e.books["A"] == EmptyBook("A")
    requires bid1 == Order(1, 1, "A", Buy, Limit, Day, 10, 5, 0) && bid2 == bid1.(id := 2)
    requires 1 !in limits && defaults.maxOrderRate > 2
    requires defaults.maxPositionPerSymbol >= 5 && defaults.maxNetPosition >= 5
    ensures var e2 := Handle(Handle(e, Enter(bid1, 0)), Enter(bid2, 0));
            && e2.risk.Some? && Calm(e2.risk.value, defaults, limits, 2)
            && "A" in e2.books && TwoQueued(e2.books["A"], 1)
  {
    hide BooksValid, Handle, Insert;
    BidRests(e, bid1, defaults, limits, 0);
    var e1 := Handle(e, Enter(bid1, 0));
    HandleKeepsBooks(e, Enter(bid1, 0));
    var first := RestingOrder(bid1, 5, CountAt<L3Body>([], 10), 0);
    var second := RestingOrder(bid2, 5, CountAt([first], 10), 0);
    InsertTwo(first, second);
    assert e1.books["A"].bids == [first];
    BidRests(e1, bid2, defaults, limits, 1);
  }

  lemma BothLiquid(b: Book, sell: Order)
    requires TwoQueued(b, 1) && sell.side.Sell? && sell.price == 10
    ensures Liquidity(b.bids, sell) == 10
  {
    assert b.bids[1..][0] == b.bids[1] && b.bids[1..][1..] == [];
    assert Liquidity(b.bids[1..], sell) == 5 + Liquidity([], sell);
  }

  /** The sweep through both bids. */
  lemma SweepsBoth(b: Book, sell: Order)
    requires ValidBook(b) && TwoQueued(b, 1) && sell == Order(3, 2, "A", Sell, Limit, Day, 10, 10, 0)
    ensures var tape := AddOrder(b, sell, 0).book.tape;
            Involved(tape, 1, "A") == 10 && Aggressed(tape, 1, "A") == 0
  {
    hide Consume, Insert, Involved, Aggressed, Acceptable;
    assert !Resting(b, 3);
    var r := Consume(b.bids, sell, 10, "A", 1, 0);
    BothLiquid(b, sell);
    FillsIffLiquid(b.bids, sell, 10, "A", 1, 0);
    ConsumeEatsPrefix(b.bids, sell, 10, "A", 1, 0);
    InvolvedPassively(r.trades, 1, "A", Buy);
    assert b.tape + r.trades == r.trades;
  }

  lemma OneBook(e: Engine, symbol: Symbol)
    requires BooksValid(e) && symbol in e.books
    ensures ValidBook(e.books[symbol])
  {
  }

  lemma NoTapeYet(before: Book, after: Book)
    requires TwoQueued(before, 1)
    ensures NewTrades(before, after) == after.tape
  {
  }

  lemma SellsIntoBoth(e: Engine, sell: Order, defaults: R.Limits, limits: map<TraderId, R.Limits>)
    requires BooksValid(e) && Named(e) && e.risk.Some? && Calm(e.risk.value, defaults, limits, 2)
    requires "A" in e.books && TwoQueued(e.books["A"], 1) && 1 !in limits && 2 in limits
    requires limits[2].maxPositionPerSymbol >= 10 && limits[2].maxNetPosition >= 10 && limits[2].maxOrderRate > 2
    requires sell == Order(3, 2, "A", Sell, Limit, Day, 10, 10, 0)
    ensures var e' := Handle(e, Enter(sell, 0));
            && e'.risk.Some? && "A" in e'.books
            && Tracked(e', 1, "A") == 0 && Involved(e'.books["A"].tape, 1, "A") == 10
            && R.LimitsOf(e'.risk.value, 1) == defaults
  {
    hide BooksValid, Named, Involved, Aggressed, AddOrder, R.CheckOrder, R.OnFill, TwoQueued, ValidBook;
    var e', b := Handle(e, Enter(sell, 0)), e.books["A"];
    assert ValidBook(b) by { OneBook(e, "A"); }
    CalmPasses(e.risk.value, defaults, limits, 2, sell);
    SweepsBoth(b, sell);
    HandleTracks(e, Enter(sell, 0), 1, "A");
    HandleLimits(e, Enter(sell, 0), 1);
    assert e'.books["A"] == AddOrder(b, sell, 0).book;
    NoTapeYet(b, e'.books["A"]);
  }

  /** A run whose passive fills pass a limit that risk goes on seeing kept: trader 1 may hold 5, bids 5 twice,
      and trader 2 sells 10 into both bids. Risk tracks nothing for trader 1, who has bought 10. */
  lemma PassiveFillsPassLimit()
    ensures exists e, requests ::
              && BooksValid(e) && Named(e) && RiskHolds(e) && "A" in e.books && e.books["A"] == EmptyBook("A")
              && var e' := HandleAll(e, requests);
                 && e'.risk.Some? && "A" in e'.books
                 && Tracked(e', 1, "A") == 0
                 && Involved(e'.books["A"].tape, 1, "A") > R.LimitsOf(e'.risk.value, 1).maxPositionPerSymbol
  {
    hide BooksValid, Named, RiskHolds, Handle, Tracked, Involved, R.LimitsOf, Calm;
    var small, large := R.Limits(5, 5, 100, 1000), R.Limits(10, 10, 100, 1000);
    var limits := map[2 := large];
    var e := Engine(map["A" := EmptyBook("A")], map[], Some(R.Risk(small, limits, map[], false, 0, 0)), 0, 0, 0, 0);
    var bid1 := Order(1, 1, "A", Buy, Limit, Day, 10, 5, 0);
    var bid2 := Order(2, 1, "A", Buy, Limit, Day, 10, 5, 0);
    var sell := Order(3, 2, "A", Sell, Limit, Day, 10, 10, 0);
    FreshEngine(e, small, limits);
    var e1 := Handle(e, Enter(bid1, 0));
    var e2 := Handle(e1, Enter(bid2, 0));
    var e3 := Handle(e2, Enter(sell, 0));
    ThreeRequests(e, Enter(bid1, 0), Enter(bid2, 0), Enter(sell, 0));
    TwoBids(e, bid1, bid2, small, limits);
    HandleKeepsBooks(e, Enter(bid1, 0));
    HandleKeepsBooks(e1, Enter(bid2, 0));
    HandleTracks(e, Enter(bid1, 0), 1, "A");
    HandleTracks(e1, Enter(bid2, 0), 1, "A");
    SellsIntoBoth(e2, sell, small, limits);
  }
}
