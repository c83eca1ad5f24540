/** What every reachable L3 book keeps, and what single operations promise. */
module BookTheorems {
  import opened Types
  import opened Ladder
  import opened BookSpec

  // ---------- The book invariant ----------

  ghost predicate Apart(a: seq<L3Order>, b: seq<L3Order>) {
    forall i, j | 0 <= i < |a| && 0 <= j < |b| :: a[i].id != b[j].id
  }

  ghost predicate SideValid(side: Side, s: seq<L3Order>) {
    Sorted(side, s) && AllOk(s) && Distinct(s)
  }

  /** Every bid is strictly below every ask. */
  ghost predicate Uncrossed(b: Book) {
    forall i, j | 0 <= i < |b.bids| && 0 <= j < |b.asks| :: b.bids[i].price < b.asks[j].price
  }

  ghost predicate ValidBook(b: Book) {
    SideValid(Buy, b.bids) && SideValid(Sell, b.asks) && Apart(b.bids, b.asks) && Uncrossed(b)
  }

  lemma SideIsOk(b: Book, side: Side)
    requires ValidBook(b)
    ensures AllOk(SideOf(b, side)) && Sorted(side, SideOf(b, side))
  {
  }

  ghost function EmptyBook(symbol: Symbol): Book {
    Book(symbol, [], [], [])
  }

  lemma EmptyIsValid(symbol: Symbol)
    ensures ValidBook(EmptyBook(symbol))
  {
  }

  /** The same orders, by id, side and price, as the end of `s`. */
  ghost predicate TailOf(rest: seq<L3Order>, s: seq<L3Order>) {
    && |rest| <= |s|
    && forall i | 0 <= i < |rest| ::
         var o := s[|s| - |rest| + i];
         rest[i].id == o.id && rest[i].price == o.price && rest[i].side == o.side
  }

  lemma LeftoverIsTail(s: seq<L3Order>, trades: seq<Trade>)
    requires AllOk(s) && |trades| <= |s|
    requires |trades| > 0 ==> trades[|trades| - 1].qty > 0
    ensures TailOf(Leftover(s, trades), s) && AllOk(Leftover(s, trades))
  {
    var n := |trades|;
    if n > 0 && trades[n - 1].qty < Available(s[n - 1]) {
      var f := Fill(s[n - 1], trades[n - 1].qty);
      FillConserves(s[n - 1], trades[n - 1].qty);
      assert OrderOk(f) && f.id == s[n - 1].id && f.price == s[n - 1].price && f.side == s[n - 1].side;
      assert Leftover(s, trades) == [f] + s[n..];
    } else {
      assert Leftover(s, trades) == s[n..];
    }
  }

  lemma TailKeepsSide(side: Side, s: seq<L3Order>, rest: seq<L3Order>)
    requires SideValid(side, s) && TailOf(rest, s) && AllOk(rest)
    ensures SideValid(side, rest)
  {
    var d := |s| - |rest|;
    forall i, j | 0 <= i < j < |rest|
      ensures rest[i].id != rest[j].id && !Better(side, rest[j].price, rest[i].price)
    {
      assert s[d + i].id != s[d + j].id && !Better(side, s[d + j].price, s[d + i].price);
    }
  }

  lemma ConsumeLeavesTail(s: seq<L3Order>, order: Order, symbol: Symbol, id: nat, ts: Timestamp)
    requires AllOk(s)
    ensures var rest := Consume(s, order, order.quantity, symbol, id, ts).rest;
            TailOf(rest, s) && AllOk(rest)
  {
    var trades := Consume(s, order, order.quantity, symbol, id, ts).trades;
    assert |trades| <= |s| && (|trades| > 0 ==> trades[|trades| - 1].qty > 0) by {
      ConsumeEatsPrefix(s, order, order.quantity, symbol, id, ts);
    }
    ConsumeLeaves(s, order, order.quantity, symbol, id, ts);
    LeftoverIsTail(s, trades);
  }

  /** Matching leaves a valid end of the side it eats. */
  lemma MatchKeepsSide(b: Book, order: Order, ts: Timestamp)
    requires ValidBook(b)
    ensures var s, r := SideOf(b, order.side.Opposite()), MatchIncoming(b, order, ts);
            SideValid(order.side.Opposite(), r.rest) && TailOf(r.rest, s)
  {
    var side := order.side.Opposite();
    var s, rest := SideOf(b, side), MatchIncoming(b, order, ts).rest;
    assert SideValid(side, s);
    assert TailOf(rest, s) && AllOk(rest) by {
      ConsumeLeavesTail(s, order, b.symbol, |b.tape| + 1, ts);
    }
    TailKeepsSide(side, s, rest);
  }

  lemma {:induction false} PositiveSum(
      s: seq<L3Order>, incoming: Order, trades: seq<Trade>, symbol: Symbol, id: nat, ts: Timestamp)
    requires EatsInOrder(trades, s, incoming, symbol, id, ts)
    ensures SumQty(trades) >= |trades|
  {
    if |trades| > 0 {
      var t, u := trades[1..], s[1..];
      assert forall i | 0 <= i < |t| :: t[i] == trades[i + 1] && u[i] == s[i + 1];
      PositiveSum(u, incoming, t, symbol, id + 1, ts);
    }
  }

  /** How much matching trades, and why it stops. */
  lemma MatchAmounts(b: Book, order: Order, ts: Timestamp)
    requires ValidBook(b)
    ensures var s, r := SideOf(b, order.side.Opposite()), MatchIncoming(b, order, ts);
            && SumQty(r.trades) == order.quantity - r.remaining
            && (order.quantity >= 0 ==> 0 <= r.remaining <= order.quantity)
            && (!order.tif.FOK? && r.remaining > 0 ==> |r.rest| == 0 || !Acceptable(order, r.rest[0].price))
            && (order.quantity <= 0 ==> r == Sweep([], s, order.quantity))
  {
    var s := SideOf(b, order.side.Opposite());
    var r := Consume(s, order, order.quantity, b.symbol, |b.tape| + 1, ts);
    ConsumeEatsPrefix(s, order, order.quantity, b.symbol, |b.tape| + 1, ts);
    ConsumeStops(s, order, order.quantity, b.symbol, |b.tape| + 1, ts);
    PositiveSum(s, order, r.trades, b.symbol, |b.tape| + 1, ts);
  }

  lemma InsertKeepsSide(s: seq<L3Order>, o: L3Order)
    requires SideValid(o.side, s) && OrderOk(o) && !Queued(s, o.id)
    ensures SideValid(o.side, Insert(s, o))
  {
    var k := Place(o.side, s, o.price);
    var t := Insert(s, o);
    assert t[k] == o;
    assert forall i | 0 <= i < |t| && i != k :: t[i] == s[if i < k then i else i - 1];
    forall i | k <= i < |s|
      ensures Better(o.side, o.price, s[i].price)
    {
      assert i > k ==> !Better(o.side, s[i].price, s[k].price);
    }
  }

  lemma InsertMembers(s: seq<L3Order>, o: L3Order, i: nat) returns (j: nat)
    requires i < |Insert(s, o)|
    ensures Insert(s, o)[i] == o || (j < |s| && Insert(s, o)[i] == s[j])
  {
    var k := Place(o.side, s, o.price);
    j := if i < k then i else if i == k then 0 else i - 1;
  }

  /** The part of the invariant that relates the two sides, seen from either of them. */
  ghost predicate SidesAgree(side: Side, own: seq<L3Order>, opp: seq<L3Order>) {
    Apart(own, opp) && forall i, j | 0 <= i < |own| && 0 <= j < |opp| :: Better(side, opp[j].price, own[i].price)
  }

  lemma ValidFrom(b: Book, side: Side)
    ensures ValidBook(b) <==>
            && SideValid(side, SideOf(b, side))
            && SideValid(side.Opposite(), SideOf(b, side.Opposite()))
            && SidesAgree(side, SideOf(b, side), SideOf(b, side.Opposite()))
  {
  }

  lemma TailKeepsAgreement(side: Side, own: seq<L3Order>, s: seq<L3Order>, rest: seq<L3Order>)
    requires SidesAgree(side, own, s) && TailOf(rest, s)
    ensures SidesAgree(side, own, rest)
  {
    forall i, j | 0 <= i < |own| && 0 <= j < |rest|
      ensures own[i].id != rest[j].id && Better(side, rest[j].price, own[i].price)
    {
      var o := s[|s| - |rest| + j];
      assert own[i].id != o.id && Better(side, o.price, own[i].price);
    }
  }

  /** A remainder rests only beyond every price it could have traded at. */
  lemma UnacceptableIsBeyond(order: Order, rest: seq<L3Order>)
    requires Sorted(order.side.Opposite(), rest) && order.orderType.Limit?
    requires |rest| == 0 || !Acceptable(order, rest[0].price)
    ensures forall j | 0 <= j < |rest| :: Better(order.side, rest[j].price, order.price)
  {
    forall j | 0 <= j < |rest|
      ensures Better(order.side, rest[j].price, order.price)
    {
      assert j > 0 ==> !Better(order.side.Opposite(), rest[j].price, rest[0].price);
    }
  }

  lemma InsertKeepsAgreement(own: seq<L3Order>, opp: seq<L3Order>, o: L3Order)
    requires SidesAgree(o.side, own, opp)
    requires !Queued(opp, o.id)
    requires forall j | 0 <= j < |opp| :: Better(o.side, opp[j].price, o.price)
    ensures SidesAgree(o.side, Insert(own, o), opp)
  {
    forall i, j | 0 <= i < |Insert(own, o)| && 0 <= j < |opp|
      ensures Insert(own, o)[i].id != opp[j].id && Better(o.side, opp[j].price, Insert(own, o)[i].price)
    {
      var k := InsertMembers(own, o, i);
    }
  }

  lemma TailKeepsAbsent(s: seq<L3Order>, rest: seq<L3Order>, id: OrderId)
    requires TailOf(rest, s) && !Queued(s, id)
    ensures !Queued(rest, id)
  {
  }

  // ---------- Every operation keeps the invariant ----------

  /** The book between matching and resting. */
  ghost function Matched(b: Book, order: Order, ts: Timestamp): Book {
    var r := MatchIncoming(b, order, ts);
    WithSide(b, order.side.Opposite(), r.rest).(tape := b.tape + r.trades)
  }

  lemma MatchKeepsValid(b: Book, order: Order, ts: Timestamp)
    requires ValidBook(b)
    ensures ValidBook(Matched(b, order, ts))
    ensures SideOf(Matched(b, order, ts), order.side) == SideOf(b, order.side)
    ensures SideOf(Matched(b, order, ts), order.side.Opposite()) == MatchIncoming(b, order, ts).rest
  {
    MatchKeepsSide(b, order, ts);
    ValidFrom(b, order.side);
    var rest := MatchIncoming(b, order, ts).rest;
    TailKeepsAgreement(order.side, SideOf(b, order.side), SideOf(b, order.side.Opposite()), rest);
    ValidFrom(Matched(b, order, ts), order.side);
  }

  lemma RestKeepsValid(b: Book, order: Order, remaining: int, ts: Timestamp)
    requires ValidBook(b) && !Resting(b, order.id) && Rests(order, remaining) && remaining <= order.quantity
    requires var opp := SideOf(b, order.side.Opposite()); |opp| == 0 || !Acceptable(order, opp[0].price)
    ensures ValidBook(Rest(b, order, remaining, ts))
  {
    var own, opp := SideOf(b, order.side), SideOf(b, order.side.Opposite());
    var o := RestingOrder(order, remaining, CountAt(own, order.price), ts);
    ValidFrom(b, order.side);
    InsertKeepsSide(own, o);
    UnacceptableIsBeyond(order, opp);
    InsertKeepsAgreement(own, opp, o);
    ValidFrom(Rest(b, order, remaining, ts), order.side);
  }

  lemma MatchKeepsAbsent(b: Book, order: Order, ts: Timestamp, id: OrderId)
    requires ValidBook(b) && !Resting(b, id)
    ensures !Resting(Matched(b, order, ts), id)
  {
    MatchKeepsSide(b, order, ts);
    TailKeepsAbsent(SideOf(b, order.side.Opposite()), MatchIncoming(b, order, ts).rest, id);
  }

  /** Adding keeps the book valid, and so uncrossed, whatever the type, time in force, price and quantity. */
  lemma AddKeepsValid(b: Book, order: Order, ts: Timestamp)
    requires ValidBook(b)
    ensures ValidBook(AddOrder(b, order, ts).book)
  {
    if !Resting(b, order.id) {
      MatchKeepsValid(b, order, ts);
      MatchAmounts(b, order, ts);
      var r := MatchIncoming(b, order, ts);
      if Rests(order, r.remaining) {
        MatchKeepsAbsent(b, order, ts, order.id);
        RestKeepsValid(Matched(b, order, ts), order, r.remaining, ts);
      }
    }
  }

  /** Renumbering touches nothing but stored queue positions. */
  lemma {:induction false} RenumberKeeps(s: seq<L3Order>, price: int, pos: nat)
    ensures |Renumber(s, price, pos)| == |s|
    ensures forall i | 0 <= i < |s| ::
              var o := Renumber(s, price, pos)[i];
              o == s[i].(body := s[i].body.(queuePos := o.body.queuePos))
  {
    if |s| > 0 {
      RenumberKeeps(s[1..], price, if s[0].price == price then pos + 1 else pos);
    }
  }

  /** Removing takes out the named order, keeps all others in order, and renumbers. */
  lemma RemoveKeeps(s: seq<L3Order>, id: OrderId)
    requires Queued(s, id)
    ensures var k, t := Pos(s, id), Remove(s, id);
            && |t| == |s| - 1
            && forall i | 0 <= i < |t| ::
                 var o := s[if i < k then i else i + 1];
                 t[i] == o.(body := o.body.(queuePos := t[i].body.queuePos))
  {
    var k := Pos(s, id);
    RenumberKeeps(RemoveAt(s, k), s[k].price, 0);
  }

  lemma RemoveKeepsSide(side: Side, s: seq<L3Order>, id: OrderId)
    requires SideValid(side, s) && Queued(s, id)
    ensures SideValid(side, Remove(s, id)) && !Queued(Remove(s, id), id)
  {
    var k, t := Pos(s, id), Remove(s, id);
    RemoveKeeps(s, id);
    forall i, j | 0 <= i < j < |t|
      ensures t[i].id != t[j].id && !Better(side, t[j].price, t[i].price)
    {
      var i', j' := if i < k then i else i + 1, if j < k then j else j + 1;
      assert s[i'].id != s[j'].id && !Better(side, s[j'].price, s[i'].price);
    }
  }

  lemma RemoveKeepsAgreement(side: Side, own: seq<L3Order>, opp: seq<L3Order>, id: OrderId)
    requires SidesAgree(side, own, opp) && Queued(own, id)
    ensures SidesAgree(side, Remove(own, id), opp)
  {
    RemoveKeeps(own, id);
  }

  lemma CancelKeepsValid(b: Book, id: OrderId, ts: Timestamp)
    requires ValidBook(b)
    ensures ValidBook(CancelOrder(b, id, ts).book)
    ensures !Resting(CancelOrder(b, id, ts).book, id)
  {
    if Resting(b, id) {
      var side := if Queued(b.bids, id) then Buy else Sell;
      ValidFrom(b, side);
      RemoveKeepsSide(side, SideOf(b, side), id);
      RemoveKeepsAgreement(side, SideOf(b, side), SideOf(b, side.Opposite()), id);
      ValidFrom(CancelOrder(b, id, ts).book, side);
      var i :| 0 <= i < |SideOf(b, side)| && SideOf(b, side)[i].id == id;
    }
  }

  lemma ReplaceKeepsValid(b: Book, req: ReplaceRequest, ts: Timestamp)
    requires ValidBook(b)
    ensures ValidBook(ReplaceOrder(b, req, ts).book)
  {
    CancelKeepsValid(b, req.orderId, ts);
    var c := CancelOrder(b, req.orderId, ts);
    if c.report.status == Canceled {
      AddKeepsValid(c.book, ReplacementFor(req, c.report.side, ts), ts);
    }
  }

  // ---------- Runs ----------

  datatype Command =
    | Submit(order: Order, ts: Timestamp)
    | Cancel(id: OrderId, ts: Timestamp)
    | Replace(req: ReplaceRequest, ts: Timestamp)

  ghost function Apply(b: Book, c: Command): Outcome {
    match c
    case Submit(order, ts) => AddOrder(b, order, ts)
    case Cancel(id, ts) => CancelOrder(b, id, ts)
    case Replace(req, ts) => ReplaceOrder(b, req, ts)
  }

  ghost function Run(b: Book, commands: seq<Command>): Book
    decreases |commands|
  {
    if |commands| == 0 then b else Run(Apply(b, commands[0]).book, commands[1..])
  }

  lemma {:induction false} RunKeepsValid(b: Book, commands: seq<Command>)
    requires ValidBook(b)
    ensures ValidBook(Run(b, commands))
    decreases |commands|
  {
    if |commands| > 0 {
      match commands[0] {
        case Submit(order, ts) => AddKeepsValid(b, order, ts);
        case Cancel(id, ts) => CancelKeepsValid(b, id, ts);
        case Replace(req, ts) => ReplaceKeepsValid(b, req, ts);
      }
      RunKeepsValid(Apply(b, commands[0]).book, commands[1..]);
    }
  }

  /** Never crossed: after any commands of any types, times in force, prices and quantities, the
      book that started empty has every bid strictly below every ask. */
  lemma NeverCrossed(symbol: Symbol, commands: seq<Command>)
    ensures ValidBook(Run(EmptyBook(symbol), commands))
    ensures Uncrossed(Run(EmptyBook(symbol), commands))
  {
    RunKeepsValid(EmptyBook(symbol), commands);
  }

  // ---------- Promises of single operations ----------

  /** A report accounts for the tape: what it says was filled is what the new trades exchanged,
      and it is between nothing and the quantity ordered. */
  lemma ReportMatchesTape(b: Book, order: Order, ts: Timestamp)
    requires ValidBook(b)
    ensures var out := AddOrder(b, order, ts);
            && b.tape <= out.book.tape
            && out.report.filledQty == SumQty(out.book.tape[|b.tape|..])
            && (order.quantity >= 0 ==> 0 <= out.report.filledQty <= order.quantity)
  {
    var out := AddOrder(b, order, ts);
    if !Resting(b, order.id) {
      MatchAmounts(b, order, ts);
      var r := MatchIncoming(b, order, ts);
      assert out.book.tape == b.tape + r.trades;
      assert out.book.tape[|b.tape|..] == r.trades;
      if order.tif.FOK? && order.quantity > 0 {
        FillsIffLiquid(SideOf(b, order.side.Opposite()), order, order.quantity, b.symbol, |b.tape| + 1, ts);
      }
    }
  }

  /** The tape numbers its trades 1, 2, 3, ... */
  ghost predicate Numbered(tape: seq<Trade>) {
    forall i | 0 <= i < |tape| :: tape[i].tradeId == i + 1
  }

  lemma AddNumbersTrades(b: Book, order: Order, ts: Timestamp)
    requires ValidBook(b) && Numbered(b.tape)
    ensures Numbered(AddOrder(b, order, ts).book.tape)
  {
    if !Resting(b, order.id) {
      var s := SideOf(b, order.side.Opposite());
      ConsumeEatsPrefix(s, order, order.quantity, b.symbol, |b.tape| + 1, ts);
    }
  }

  /** A fill-or-kill order trades its whole quantity, or nothing happens at all; which of the two
      is decided by the reachable liquidity, and a rejection never hides a trade. */
  lemma FokAllOrNothing(b: Book, order: Order, ts: Timestamp)
    requires ValidBook(b) && !Resting(b, order.id)
    requires order.tif.FOK? && order.quantity > 0
    ensures var out := AddOrder(b, order, ts);
            var liquid := Liquidity(SideOf(b, order.side.Opposite()), order) >= order.quantity;
            && (liquid ==> out.report.status == Filled && out.report.filledQty == order.quantity
                           && SumQty(out.book.tape[|b.tape|..]) == order.quantity)
            && (!liquid ==> out.book == b && out.report.filledQty == 0 && out.report.status != Filled)
            && (out.book == b <==> !liquid)
            && !Resting(out.book, order.id)
  {
    var s := SideOf(b, order.side.Opposite());
    FillsIffLiquid(s, order, order.quantity, b.symbol, |b.tape| + 1, ts);
    ReportMatchesTape(b, order, ts);
    MatchKeepsAbsent(b, order, ts, order.id);
  }

  /** "Reject completely" is what the design promises of a killed fill-or-kill order. The report
      says Rejected exactly for limit orders: a killed market order is reported New. */
  lemma KilledFokRejectedIffLimit(b: Book, order: Order, ts: Timestamp)
    requires ValidBook(b) && !Resting(b, order.id)
    requires order.tif.FOK? && order.quantity > 0
    requires Liquidity(SideOf(b, order.side.Opposite()), order) < order.quantity
    ensures AddOrder(b, order, ts).report.status == Rejected <==> order.orderType.Limit?
    ensures order.orderType.Market? ==> AddOrder(b, order, ts).report.status == New
    ensures AddOrder(b, order, ts).report.leavesQty == if order.orderType.Limit? then 0 else order.quantity
  {
    FokAllOrNothing(b, order, ts);
  }

  /** A concrete killed market fill-or-kill order that is reported New with quantity left over. */
  lemma KilledMarketFokReportsNew()
    ensures exists order: Order ::
              && order.tif.FOK? && order.quantity > 0
              && AddOrder(EmptyBook("X"), order, 0).report.status == New
              && AddOrder(EmptyBook("X"), order, 0).report.leavesQty == order.quantity
              && !Resting(AddOrder(EmptyBook("X"), order, 0).book, order.id)
  {
    hide AddOrder;
    var order := Order(1, 1, "X", Buy, Market, FOK, 0, 10, 0);
    EmptyIsValid("X");
    KilledFokRejectedIffLimit(EmptyBook("X"), order, 0);
    FokAllOrNothing(EmptyBook("X"), order, 0);
  }

  /** The quantity of order `id` waiting in the book. */
  ghost function Waiting(b: Book, id: OrderId): int {
    if Resting(b, id) then Available(OrderAt(b, id)) else 0
  }

  lemma OrderAtIs(b: Book, side: Side, i: nat)
    requires ValidBook(b) && i < |SideOf(b, side)|
    ensures Resting(b, SideOf(b, side)[i].id)
    ensures OrderAt(b, SideOf(b, side)[i].id) == SideOf(b, side)[i]
  {
    var o := SideOf(b, side)[i];
    var k := Pos(SideOf(b, side), o.id);
    assert side.Sell? ==> !Queued(b.bids, o.id);
  }

  /** The leaves quantity of a report is the quantity waiting in the book, exactly unless a market
      order outran the liquidity: its remainder is reported but never rests. */
  lemma LeavesIsWaitingUnlessMarket(b: Book, order: Order, ts: Timestamp)
    requires ValidBook(b) && !Resting(b, order.id) && order.quantity > 0
    ensures var out := AddOrder(b, order, ts);
            out.report.leavesQty == Waiting(out.book, order.id) <==>
            !(order.orderType.Market? && Liquidity(SideOf(b, order.side.Opposite()), order) < order.quantity)
  {
    var out, side := AddOrder(b, order, ts), order.side;
    var own, opp := SideOf(b, side), SideOf(b, side.Opposite());
    var r := MatchIncoming(b, order, ts);
    FillsIffLiquid(opp, order, order.quantity, b.symbol, |b.tape| + 1, ts);
    MatchKeepsAbsent(b, order, ts, order.id);
    MatchAmounts(b, order, ts);
    AddKeepsValid(b, order, ts);
    if Rests(order, r.remaining) {
      var k := Place(side, own, order.price);
      var o := RestingOrder(order, r.remaining, CountAt(own, order.price), ts);
      assert SideOf(out.book, side) == Insert(own, o) && Insert(own, o)[k] == o;
      OrderAtIs(out.book, side, k);
    }
  }

  /** The same orders in the same places, apart from stored queue positions at one price. */
  ghost predicate SameExceptPositions(s: seq<L3Order>, t: seq<L3Order>, price: int) {
    && |s| == |t|
    && forall i | 0 <= i < |s| ::
         && (s[i].price != price ==> t[i] == s[i])
         && t[i] == s[i].(body := s[i].body.(queuePos := t[i].body.queuePos))
  }

  /** The same book, apart from stored queue positions at one price. */
  ghost predicate SameBookExceptPositions(a: Book, b: Book, price: int) {
    && a.symbol == b.symbol && a.tape == b.tape
    && SameExceptPositions(a.bids, b.bids, price) && SameExceptPositions(a.asks, b.asks, price)
  }

  lemma {:induction false} RenumberIsSame(s: seq<L3Order>, price: int, pos: nat)
    ensures SameExceptPositions(s, Renumber(s, price, pos), price)
  {
    if |s| > 0 {
      RenumberIsSame(s[1..], price, if s[0].price == price then pos + 1 else pos);
    }
  }

  lemma InsertTwo(first: L3Order, second: L3Order)
    requires first.price == second.price && first.side == second.side
    ensures Insert([], first) == [first] && Insert([first], second) == [first, second]
  {
    assert Place(second.side, [first], second.price) == 1;
  }

  lemma InsertThenRemove(s: seq<L3Order>, o: L3Order)
    requires !Queued(s, o.id)
    ensures Queued(Insert(s, o), o.id) && Insert(s, o)[Pos(Insert(s, o), o.id)] == o
    ensures Remove(Insert(s, o), o.id) == Renumber(s, o.price, 0)
  {
    var k, t := Place(o.side, s, o.price), Insert(s, o);
    assert t[k] == o;
    assert forall i | 0 <= i < |t| && i != k :: t[i] == s[if i < k then i else i - 1];
    assert RemoveAt(t, k) == s;
  }

  /** A limit order that meets no acceptable price just joins its side. */
  lemma AddUncrossed(b: Book, order: Order, ts: Timestamp)
    requires !Resting(b, order.id)
    requires order.orderType.Limit? && (order.tif.Day? || order.tif.GTC?) && order.quantity > 0
    requires var opp := SideOf(b, order.side.Opposite()); |opp| == 0 || !Acceptable(order, opp[0].price)
    ensures var own := SideOf(b, order.side);
            AddOrder(b, order, ts).book ==
            WithSide(b, order.side, Insert(own, RestingOrder(order, order.quantity, CountAt(own, order.price), ts)))
    ensures AddOrder(b, order, ts).report.status == New && AddOrder(b, order, ts).report.leavesQty == order.quantity
  {
    assert b.tape + [] == b.tape;
  }

  /** Adding an order that trades nothing and cancelling it again gives the book back, up to
      refreshed queue positions at its price. */
  lemma AddThenCancel(b: Book, order: Order, ts: Timestamp, ts': Timestamp)
    requires ValidBook(b) && !Resting(b, order.id)
    requires order.orderType.Limit? && (order.tif.Day? || order.tif.GTC?) && order.quantity > 0
    requires var opp := SideOf(b, order.side.Opposite()); |opp| == 0 || !Acceptable(order, opp[0].price)
    ensures var added := AddOrder(b, order, ts);
            var cancelled := CancelOrder(added.book, order.id, ts');
            && added.report.status == New && added.report.leavesQty == order.quantity
            && cancelled.report.status == Canceled
            && cancelled.report.orderQty == order.quantity && cancelled.report.filledQty == 0
            && cancelled.book == WithSide(b, order.side, Renumber(SideOf(b, order.side), order.price, 0))
            && SameBookExceptPositions(b, cancelled.book, order.price)
  {
    var side := order.side;
    var own := SideOf(b, side);
    AddUncrossed(b, order, ts);
    RenumberIsSame(own, order.price, 0);
    InsertThenRemove(own, RestingOrder(order, order.quantity, CountAt(own, order.price), ts));
  }

  /** Replacing is cancelling, then adding a day limit order on the same side under the same id. It is
      rejected, and changes nothing, exactly when no such order rests. */
  lemma ReplaceIsCancelThenAdd(b: Book, req: ReplaceRequest, ts: Timestamp)
    requires ValidBook(b)
    ensures Resting(b, req.orderId) <==> ReplaceOrder(b, req, ts).report.status != Rejected
    ensures !Resting(b, req.orderId) ==> ReplaceOrder(b, req, ts).book == b
    ensures Resting(b, req.orderId) ==>
              var c := CancelOrder(b, req.orderId, ts);
              var order := Order(req.orderId, req.trader, req.symbol, OrderAt(b, req.orderId).side,
                                 Limit, Day, req.newPrice, req.newQty, ts);
              ReplaceOrder(b, req, ts) == AddOrder(c.book, order, ts)
  {
    CancelKeepsValid(b, req.orderId, ts);
  }
}
