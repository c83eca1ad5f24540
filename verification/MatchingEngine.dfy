/** The matching engine: a map of books, a routing index and an optional risk engine, updated in place. */
module MatchingEngines {
  import opened Types
  import opened L3OrderBooks
  import opened RiskEngines
  import BookSpec
  import BookTheorems
  import RiskSpec
  import opened EngineSpec
  import ET = EngineTheorems

  class MatchingEngine {
    var books: map<Symbol, L3OrderBook>
    var routes: map<OrderId, Symbol>
    var risk: RiskEngine?
    var ordersProcessed: nat
    var tradesGenerated: int
    var cancelsProcessed: nat
    var rejects: nat

    ghost function Books(): set<object>
      reads this`books
    {
      set symbol | symbol in books :: books[symbol]
    }

    ghost function Footprint(): set<object>
      reads this`books, this`risk
    {
      Books() + {this} + (if risk == null then {} else {risk})
    }

    /** Every symbol has its own book, in a valid state. */
    ghost predicate Valid()
      reads this`books, Books()
    {
      && (forall s | s in books :: books[s].Valid() && books[s].symbol == s)
      && (forall s, t | s in books && t in books && s != t :: books[s] != books[t])
    }

    ghost function BookStates(): map<Symbol, BookSpec.Book>
      reads this`books, Books()
    {
      map s | s in books :: books[s].State()
    }

    ghost function RiskState(): Option<RiskSpec.Risk>
      reads this`risk, risk
    {
      if risk == null then None else Some(risk.State())
    }

    ghost function State(): Engine
      reads this, Books(), risk
    {
      Engine(BookStates(), routes, RiskState(), ordersProcessed, tradesGenerated, cancelsProcessed, rejects)
    }

    /** A valid engine is one the run theorems speak of. */
    lemma HoldsValidBooks()
      requires Valid()
      ensures ET.BooksValid(State())
    {
    }

    /** What a call on one book does to the engine: its state changes, the others do not. */
    twostate lemma OneBookChanged(symbol: Symbol)
      requires old(Valid()) && books == old(books) && symbol in books
      requires forall s | s in books && books[s] != books[symbol] :: unchanged(books[s])
      requires books[symbol].Valid()
      ensures Valid() && BookStates() == old(BookStates())[symbol := books[symbol].State()]
    {
      hide L3OrderBook.Valid, L3OrderBook.State;
    }

    twostate lemma NoBookChanged()
      requires old(Valid()) && books == old(books)
      requires forall s | s in books :: unchanged(books[s])
      ensures Valid() && BookStates() == old(BookStates())
    {
      hide L3OrderBook.Represented, BookTheorems.ValidBook, L3OrderBook.State;
    }

    constructor ()
      ensures Valid() && State() == Engine(map[], map[], None, 0, 0, 0, 0)
      ensures fresh(Footprint())
    {
      books, routes, risk := map[], map[], null;
      ordersProcessed, tradesGenerated, cancelsProcessed, rejects := 0, 0, 0, 0;
    }

    method SetRiskEngine(r: RiskEngine?)
      requires Valid()
      modifies this`risk
      ensures Valid() && risk == r && books == old(books)
      ensures State() == old(State()).(risk := if r == null then None else Some(r.State()))
    {
      hide Valid, BookStates;
      risk := r;
      NoBookChanged();
    }

    /** Opens an empty book for a symbol that has none. */
    method AddSymbol(symbol: Symbol)
      requires Valid()
      modifies this`books
      ensures Valid() && fresh(Footprint() - old(Footprint()))
      ensures State() == if symbol in old(books) then old(State())
                         else old(State()).(books := old(BookStates())[symbol := BookTheorems.EmptyBook(symbol)])
    {
      hide L3OrderBook.Represented, BookTheorems.ValidBook;
      if symbol in books { return; }
      var book := new L3OrderBook(symbol);
      books := books[symbol := book];
      BookAdded(symbol);
    }

    twostate lemma BookAdded(symbol: Symbol)
      requires old(Valid()) && symbol !in old(books) && symbol in books && books == old(books)[symbol := books[symbol]]
      requires forall s | s in old(books) :: unchanged(books[s]) && books[s] != books[symbol]
      requires books[symbol].Valid() && books[symbol].symbol == symbol
      ensures Valid() && BookStates() == old(BookStates())[symbol := books[symbol].State()]
    {
      hide L3OrderBook.Represented, BookTheorems.ValidBook, L3OrderBook.State;
    }

    /** Validates the symbol, checks risk, submits to the book, records the route, reports the fill to risk. */
    method ProcessNewOrder(order: Order, ts: Timestamp) returns (rpt: ExecutionReport)
      requires Valid()
      modifies Footprint()
      ensures Valid() && Footprint() == old(Footprint()) && books == old(books) && risk == old(risk)
      ensures (State(), rpt) == NewOrder(old(State()), order, ts)
      ensures ET.PromisesKept(old(State()), State(), ET.Enter(order, ts))
    {
      hide RiskSpec.CheckOrder, Accept, Valid, BookStates, ET.PromisesKept, ET.BooksValid, L3OrderBook.State,
           L3OrderBook.Valid, BookSpec.AddOrder;
      HoldsValidBooks();
      ET.HandleKeepsPromises(State(), ET.Enter(order, ts));
      ordersProcessed := ordersProcessed + 1;
      if order.symbol !in books {
        rejects := rejects + 1;
        NoBookChanged();
        NoBook(order.symbol);
        return Refusal(order, UnknownSymbol, ts);
      }
      NoBook(order.symbol);
      if risk != null {
        var reason := risk.CheckOrder(order);
        NoBookChanged();
        if reason != NoReason {
          rejects := rejects + 1;
          NoBookChanged();
          return Refusal(order, reason, ts);
        }
      }
      rpt := Submit(order, ts);
    }

    lemma NoBook(symbol: Symbol)
      ensures symbol in books <==> symbol in BookStates()
    {
    }

    /** A book tells its callback of each of its trades once. */
    lemma CountsItsTape(symbol: Symbol)
      requires Valid() && symbol in books
      ensures books[symbol].tradeCount == |books[symbol].State().tape|
    {
    }

    /** The part of order processing after the checks. */
    method Submit(order: Order, ts: Timestamp) returns (rpt: ExecutionReport)
      requires Valid() && order.symbol in books
      modifies Footprint()
      ensures Valid() && Footprint() == old(Footprint()) && books == old(books) && risk == old(risk)
      ensures order.symbol in old(BookStates())
      ensures (State(), rpt) == Accept(old(State()), order, ts)
    {
      hide BookSpec.AddOrder, RiskSpec.OnFill, Valid, BookStates, L3OrderBook.State, L3OrderBook.Valid;
      BookOf(order.symbol);
      var book := books[order.symbol];
      CountsItsTape(order.symbol);
      var told := book.tradeCount;
      rpt := book.AddOrder(order, ts);
      OneBookChanged(order.symbol);
      CountsItsTape(order.symbol);
      tradesGenerated := tradesGenerated + (book.tradeCount - told);
      if rpt.status != Rejected && rpt.status != Filled {
        routes := routes[order.id := order.symbol];
      }
      label submitted:
      if risk != null && rpt.filledQty > 0 {
        risk.OnFill(order.trader, order.symbol, order.side, rpt.filledQty);
        NoBookChanged@submitted();
      }
    }

    lemma BookOf(symbol: Symbol)
      requires Valid() && symbol in books
      ensures symbol in BookStates() && BookStates()[symbol] == books[symbol].State() && books[symbol].Valid()
      ensures books[symbol].symbol == symbol
    {
    }

    /** Routes a cancel by its symbol, or by the routing index when the symbol is blank. */
    method ProcessCancel(req: CancelRequest, ts: Timestamp) returns (rpt: ExecutionReport)
      requires Valid()
      modifies Footprint()
      ensures Valid() && Footprint() == old(Footprint()) && books == old(books) && risk == old(risk)
      ensures (State(), rpt) == CancelRequested(old(State()), req, ts)
      ensures ET.PromisesKept(old(State()), State(), ET.Withdraw(req, ts))
    {
      hide BookSpec.CancelOrder, Valid, BookStates, L3OrderBook.State, L3OrderBook.Valid, ET.PromisesKept,
           ET.BooksValid;
      HoldsValidBooks();
      ET.HandleKeepsPromises(State(), ET.Withdraw(req, ts));
      rpt := BLANK_REPORT.(orderId := req.orderId, status := Rejected, transactTime := ts);
      var symbol := req.symbol;
      if symbol == BLANK {
        if req.orderId !in routes { return; }
        symbol := routes[req.orderId];
      }
      NoBook(symbol);
      if symbol !in books {
        rpt := rpt.(reason := UnknownSymbol);
        return;
      }
      BookOf(symbol);
      var book := books[symbol];
      rpt := book.CancelOrder(req.orderId, ts);
      OneBookChanged(symbol);
      if rpt.status == Canceled {
        cancelsProcessed := cancelsProcessed + 1;
        routes := routes - {req.orderId};
      }
    }

    /** Routes a cancel-replace by its symbol; neither risk nor the routing index is involved. */
    method ProcessReplace(req: ReplaceRequest, ts: Timestamp) returns (rpt: ExecutionReport)
      requires Valid()
      modifies Footprint()
      ensures Valid() && Footprint() == old(Footprint()) && books == old(books) && risk == old(risk)
      ensures (State(), rpt) == ReplaceRequested(old(State()), req, ts)
      ensures ET.PromisesKept(old(State()), State(), ET.Amend(req, ts))
    {
      hide BookSpec.ReplaceOrder, Valid, BookStates, L3OrderBook.State, L3OrderBook.Valid, ET.PromisesKept,
           ET.BooksValid;
      HoldsValidBooks();
      ET.HandleKeepsPromises(State(), ET.Amend(req, ts));
      NoBook(req.symbol);
      if req.symbol !in books {
        return BLANK_REPORT.(orderId := req.orderId, status := Rejected, reason := UnknownSymbol, transactTime := ts);
      }
      BookOf(req.symbol);
      var book := books[req.symbol];
      CountsItsTape(req.symbol);
      var told := book.tradeCount;
      rpt := book.ReplaceOrder(req, ts);
      OneBookChanged(req.symbol);
      CountsItsTape(req.symbol);
      tradesGenerated := tradesGenerated + (book.tradeCount - told);
    }
  }
}
