/** The L3 book and the simple book, driven with the same orders and cancels, trade the same. */
module BooksAgree {
  import opened Types
  import opened Ladder
  import opened BookSpec
  import opened BookTheorems
  import opened L3Lemmas
  import S = SimpleBookSpec

  /** The same queue, as far as the simple book can tell: no hidden quantity anywhere. */
  ghost predicate Mirrors(a: seq<L3Order>, b: seq<S.BookOrder>) {
    && |a| == |b|
    && forall i | 0 <= i < |a| ::
         && a[i].id == b[i].id && a[i].side == b[i].side && a[i].price == b[i].price
         && a[i].body.visible == b[i].body.qty && a[i].body.hidden == 0
  }

  ghost predicate Coupled(b: Book, s: S.SimpleBook) {
    ValidBook(b) && Mirrors(b.bids, s.bids) && Mirrors(b.asks, s.asks)
  }

  /** What a client sees of a trade in either book. */
  datatype Fill = Fill(restingId: OrderId, price: int, qty: int)

  ghost function Fills(trades: seq<Trade>): seq<Fill> {
    seq(|trades|, i requires 0 <= i < |trades| => Fill(trades[i].restingId, trades[i].price, trades[i].qty))
  }

  function Simple(order: Order, qty: int, ts: Timestamp): S.BookOrder {
    Node(order.id, order.side, order.price, S.SimpleBody(order.trader, qty, order.orderType, ts))
  }

  // ---------- Matching ----------

  lemma MirrorsFront(a: seq<L3Order>, b: seq<S.BookOrder>)
    requires Mirrors(a, b)
    ensures |a| == |b|
    ensures |a| > 0 ==> a[0].price == b[0].price && a[0].id == b[0].id && Available(a[0]) == b[0].body.qty
    ensures |a| > 0 ==> Mirrors(a[1..], b[1..])
  {
  }

  lemma PartFillMirrors(a: seq<L3Order>, b: seq<S.BookOrder>, qty: int)
    requires Mirrors(a, b) && |a| > 0 && 0 < qty < Available(a[0])
    ensures Mirrors([BookSpec.Fill(a[0], qty)] + a[1..], [S.Reduce(b[0], qty)] + b[1..])
  {
  }

  lemma FillsCons(t: Trade, t': Trade, trades: seq<Trade>, trades': seq<Trade>)
    requires t.restingId == t'.restingId && t.price == t'.price && t.qty == t'.qty
    requires Fills(trades) == Fills(trades')
    ensures Fills([t] + trades) == Fills([t'] + trades')
  {
    var u, u' := [t] + trades, [t'] + trades';
    assert |trades| == |Fills(trades)| == |trades'|;
    forall i | 0 <= i < |u|
      ensures Fills(u)[i] == Fills(u')[i]
    {
      if i > 0 {
        assert Fills(trades)[i - 1] == Fills(trades')[i - 1];
      }
    }
  }

  lemma {:induction false} MatchesAgree(
      a: seq<L3Order>, b: seq<S.BookOrder>, order: Order, o: S.BookOrder, remaining: int,
      symbol: Symbol, symbol': Symbol, id: nat, ts: Timestamp)
    requires Mirrors(a, b) && AllOk(a)
    requires o.side == order.side && o.price == order.price && o.body.orderType == order.orderType
    ensures var r, r' := Consume(a, order, remaining, symbol, id, ts), S.Match(b, o, remaining, symbol', ts);
            Mirrors(r.rest, r'.rest) && r.remaining == r'.remaining && Fills(r.trades) == Fills(r'.trades)
  {
    hide Fills, BookSpec.Fill, Mirrors, OrderOk;
    MirrorsFront(a, b);
    if remaining <= 0 || |a| == 0 || !Acceptable(order, a[0].price) {
    } else {
      var qty := Min(remaining, Available(a[0]));
      var tail := Consume(a[1..], order, remaining - qty, symbol, id + 1, ts);
      var tail' := S.Match(b[1..], o, remaining - qty, symbol', ts);
      var t, t' := TradeOf(a[0], order, symbol, qty, id, ts), S.SimpleTrade(b[0], o, symbol', qty, ts);
      FillConserves(a[0], qty);
      MatchesAgree(a[1..], b[1..], order, o, remaining - qty, symbol, symbol', id + 1, ts);
      if qty == Available(a[0]) {
        FillsCons(t, t', tail.trades, tail'.trades);
        assert [] + tail.rest == tail.rest;
      } else {
        FillsCons(t, t', [], []);
        assert tail == Sweep([], a[1..], 0) && [t] + [] == [t] && [t'] + [] == [t'];
        PartFillMirrors(a, b, qty);
      }
    }
  }

  lemma PlacesAgree(side: Side, a: seq<L3Order>, b: seq<S.BookOrder>, price: int)
    requires Mirrors(a, b)
    ensures Place(side, a, price) == Place(side, b, price)
  {
    var k, k' := Place(side, a, price), Place(side, b, price);
    assert k < |a| ==> a[k].price == b[k].price;
    assert k' < |a| ==> a[k'].price == b[k'].price;
  }

  lemma InsertsAgree(a: seq<L3Order>, b: seq<S.BookOrder>, x: L3Order, y: S.BookOrder)
    requires Mirrors(a, b) && Mirrors([x], [y])
    ensures Mirrors(Insert(a, x), Insert(b, y))
  {
    assert [x][0] == x && [y][0] == y;
    PlacesAgree(x.side, a, b, x.price);
  }

  lemma QueuedAgree(a: seq<L3Order>, b: seq<S.BookOrder>, id: OrderId)
    requires Mirrors(a, b)
    ensures Queued(a, id) <==> Queued(b, id)
    ensures Pos(a, id) == Pos(b, id)
  {
    if Queued(a, id) {
      var i :| 0 <= i < |a| && a[i].id == id;
      assert b[i].id == id;
    }
    if Queued(b, id) {
      var i :| 0 <= i < |b| && b[i].id == id;
      assert a[i].id == id;
    }
    var k, k' := Pos(a, id), Pos(b, id);
    assert k < |a| ==> a[k].id == b[k].id;
    assert k' < |a| ==> a[k'].id == b[k'].id;
  }

  lemma RemovesAgree(a: seq<L3Order>, b: seq<S.BookOrder>, id: OrderId)
    requires Mirrors(a, b) && Queued(a, id)
    ensures Queued(b, id) && Mirrors(Remove(a, id), RemoveAt(b, Pos(b, id)))
  {
    QueuedAgree(a, b, id);
    RemoveKeeps(a, id);
  }

  // ---------- Steps ----------

  /** Enter any order that is not fill-or-kill, or withdraw one. */
  datatype Step = Enter(order: Order, ts: Timestamp) | Withdraw(id: OrderId, ts: Timestamp)

  /** The answer to a step: the fills and the quantity not filled, or whether the order was found. */
  datatype Answer = Traded(fills: seq<Fill>, left: int) | Withdrawn(found: bool)

  ghost predicate Fresh(b: Book, step: Step) {
    step.Enter? ==> !Resting(b, step.order.id) && step.order.quantity > 0 && !step.order.tif.FOK?
  }

  ghost function L3Step(b: Book, step: Step): (Book, Answer) {
    match step
    case Enter(order, ts) =>
      var out := AddOrder(b, order, ts);
      var before := Min(|b.tape|, |out.book.tape|);
      (out.book, Traded(Fills(out.book.tape[before..]), order.quantity - out.report.filledQty))
    case Withdraw(id, ts) =>
      var out := CancelOrder(b, id, ts);
      (out.book, Withdrawn(out.report.status == Canceled))
  }

  /** Driving the simple book: match, then queue the remainder when the order is one that rests. */
  ghost function SimpleStep(b: S.SimpleBook, step: Step): (S.SimpleBook, Answer) {
    match step
    case Enter(order, ts) =>
      var r := S.Incoming(b, Simple(order, order.quantity, ts), ts);
      var matched := S.WithSimpleSide(b, order.side.Opposite(), r.rest);
      (if Rests(order, r.remaining) then S.Add(matched, Simple(order, r.remaining, ts)) else matched,
       Traded(Fills(r.trades), r.remaining))
    case Withdraw(id, ts) =>
      (S.Cancel(b, id), Withdrawn(S.Holds(b, id)))
  }

  lemma MirrorOne(x: L3Order, y: S.BookOrder)
    requires x.id == y.id && x.side == y.side && x.price == y.price
    requires x.body.visible == y.body.qty && x.body.hidden == 0
    ensures Mirrors([x], [y])
  {
  }

  lemma SubmitAgrees(b: Book, s: S.SimpleBook, order: Order, ts: Timestamp)
    requires Coupled(b, s) && Fresh(b, Enter(order, ts))
    ensures var x, y := L3Step(b, Enter(order, ts)), SimpleStep(s, Enter(order, ts));
            Coupled(x.0, y.0) && x.1 == y.1
  {
    hide Consume, S.Match, Insert, Mirrors, Sorted, Distinct, AllOk, Uncrossed, Apart, Fills;
    var side := order.side;
    var out, r := AddOrder(b, order, ts), MatchIncoming(b, order, ts);
    var o := Simple(order, order.quantity, ts);
    var r' := S.Incoming(s, o, ts);
    AddKeepsValid(b, order, ts);
    MatchesAgree(SideOf(b, side.Opposite()), S.SimpleSide(s, side.Opposite()), order, o, order.quantity,
                 b.symbol, s.symbol, |b.tape| + 1, ts);
    assert b.tape <= out.book.tape && out.book.tape[|b.tape|..] == r.trades;
    if Rests(order, r.remaining) {
      var own := SideOf(b, side);
      var x := RestingOrder(order, r.remaining, CountAt(own, order.price), ts);
      MirrorOne(x, Simple(order, r.remaining, ts));
      InsertsAgree(own, S.SimpleSide(s, side), x, Simple(order, r.remaining, ts));
    }
  }

  lemma WithdrawAgrees(b: Book, s: S.SimpleBook, id: OrderId, ts: Timestamp)
    requires Coupled(b, s)
    ensures var x, y := L3Step(b, Withdraw(id, ts)), SimpleStep(s, Withdraw(id, ts));
            Coupled(x.0, y.0) && x.1 == y.1
  {
    CancelKeepsValid(b, id, ts);
    QueuedAgree(b.bids, s.bids, id);
    QueuedAgree(b.asks, s.asks, id);
    if Queued(b.bids, id) {
      RemovesAgree(b.bids, s.bids, id);
    } else if Queued(b.asks, id) {
      RemovesAgree(b.asks, s.asks, id);
    }
  }

  // ---------- Runs ----------

  ghost predicate FreshRun(b: Book, steps: seq<Step>)
    decreases |steps|
  {
    |steps| > 0 ==> Fresh(b, steps[0]) && FreshRun(L3Step(b, steps[0]).0, steps[1..])
  }

  ghost function L3Run(b: Book, steps: seq<Step>): (Book, seq<Answer>)
    decreases |steps|
  {
    if |steps| == 0 then (b, [])
    else
      var x := L3Step(b, steps[0]);
      var rest := L3Run(x.0, steps[1..]);
      (rest.0, [x.1] + rest.1)
  }

  ghost function SimpleRun(b: S.SimpleBook, steps: seq<Step>): (S.SimpleBook, seq<Answer>)
    decreases |steps|
  {
    if |steps| == 0 then (b, [])
    else
      var x := SimpleStep(b, steps[0]);
      var rest := SimpleRun(x.0, steps[1..]);
      (rest.0, [x.1] + rest.1)
  }

  lemma StepAgrees(b: Book, s: S.SimpleBook, step: Step)
    requires Coupled(b, s) && Fresh(b, step)
    ensures Coupled(L3Step(b, step).0, SimpleStep(s, step).0) && L3Step(b, step).1 == SimpleStep(s, step).1
  {
    match step
    case Enter(order, ts) => SubmitAgrees(b, s, order, ts);
    case Withdraw(id, ts) => WithdrawAgrees(b, s, id, ts);
  }

  lemma {:induction false} RunsCoupled(b: Book, s: S.SimpleBook, steps: seq<Step>)
    requires Coupled(b, s) && FreshRun(b, steps)
    ensures Coupled(L3Run(b, steps).0, SimpleRun(s, steps).0) && L3Run(b, steps).1 == SimpleRun(s, steps).1
    decreases |steps|
  {
    hide Coupled, L3Step, SimpleStep, Fresh;
    if |steps| > 0 {
      StepAgrees(b, s, steps[0]);
      RunsCoupled(L3Step(b, steps[0]).0, SimpleStep(s, steps[0]).0, steps[1..]);
    }
  }

  /** The same prices and quantities, level by level. */
  ghost predicate SameDepth(a: seq<L3Order>, b: seq<S.BookOrder>) {
    var x, y := Group(a), Group(b);
    && |x| == |y|
    && forall i | 0 <= i < |x| ::
         Summary(x[i]).price == S.SimpleSummary(y[i]).price && Summary(x[i]).qty == S.SimpleSummary(y[i]).qty
  }

  lemma {:induction false} RunLengthsAgree(a: seq<L3Order>, b: seq<S.BookOrder>)
    requires Mirrors(a, b) && |a| > 0
    ensures RunLength(a) == RunLength(b)
  {
    if |a| > 1 && a[1].price == a[0].price {
      RunLengthsAgree(a[1..], b[1..]);
    }
  }

  lemma {:induction false} SumsAgree(a: seq<L3Order>, b: seq<S.BookOrder>)
    requires Mirrors(a, b)
    ensures Visible(a) == S.Total(b)
  {
    if |a| > 0 {
      SumsAgree(a[1..], b[1..]);
    }
  }

  lemma {:induction false} DepthsAgree(a: seq<L3Order>, b: seq<S.BookOrder>)
    requires Mirrors(a, b)
    ensures SameDepth(a, b)
    decreases |a|
  {
    if |a| > 0 {
      RunLengthsAgree(a, b);
      var n := RunLength(a);
      SumsAgree(a[..n], b[..n]);
      DepthsAgree(a[n..], b[n..]);
    }
  }

  /** From empty, over any run of fresh positive submissions (limit or market; day, good-till-cancel
      or immediate-or-cancel) and cancels, the two books give the same fills, remainders and
      cancel answers, and show the same depth on both sides. */
  lemma TwoBooksAgree(symbol: Symbol, steps: seq<Step>)
    requires FreshRun(EmptyBook(symbol), steps)
    ensures var x, y := L3Run(EmptyBook(symbol), steps), SimpleRun(S.SimpleBook(symbol, [], []), steps);
            && x.1 == y.1
            && SameDepth(x.0.bids, y.0.bids) && SameDepth(x.0.asks, y.0.asks)
  {
    hide SameDepth;
    var x, y := L3Run(EmptyBook(symbol), steps), SimpleRun(S.SimpleBook(symbol, [], []), steps);
    RunsCoupled(EmptyBook(symbol), S.SimpleBook(symbol, [], []), steps);
    DepthsAgree(x.0.bids, y.0.bids);
    DepthsAgree(x.0.asks, y.0.asks);
  }

  // ---------- Depth ----------
}
