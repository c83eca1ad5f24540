/** The life of one resting order: what it was accepted for, what it traded since, and what is left. */
module Lifetime {
  import opened Types
  import opened Ladder
  import opened BookSpec
  import opened BookTheorems
  import opened BookReports

  /** The quantity an order was accepted for, and the length of the tape just before. */
  datatype Account = Account(quantity: int, since: nat)

  type Ledger = map<OrderId, Account>

  /** What an order traded, on either side of the trades. */
  ghost function Traded(trades: seq<Trade>, id: OrderId): int {
    if |trades| == 0 then 0
    else
      (if trades[0].restingId == id || trades[0].incomingId == id then trades[0].qty else 0)
      + Traded(trades[1..], id)
  }

  lemma {:induction false} TradedConcat(a: seq<Trade>, b: seq<Trade>, id: OrderId)
    ensures Traded(a + b, id) == Traded(a, id) + Traded(b, id)
  {
    if |a| == 0 {
      assert a + b == b;
    } else {
      assert (a + b)[1..] == a[1..] + b;
      TradedConcat(a[1..], b, id);
    }
  }

  /** An order's quantities agree with its account and with the tape. */
  ghost predicate Settled(o: L3Order, tape: seq<Trade>, ledger: Ledger) {
    && o.id in ledger && ledger[o.id].since <= |tape|
    && o.body.filled + Available(o) == ledger[o.id].quantity
    && o.body.filled == Traded(tape[ledger[o.id].since..], o.id)
  }

  ghost predicate SideSettled(s: seq<L3Order>, tape: seq<Trade>, ledger: Ledger) {
    forall i | 0 <= i < |s| :: Settled(s[i], tape, ledger)
  }

  /** Every queued order: filled + visible + hidden is the quantity accepted, and filled is the sum
      of the trades it took part in since. */
  ghost predicate AllSettled(b: Book, ledger: Ledger) {
    SideSettled(b.bids, b.tape, ledger) && SideSettled(b.asks, b.tape, ledger)
  }

  // ---------- Trades of one sweep ----------

  lemma {:induction false} TradedByNone(trades: seq<Trade>, id: OrderId)
    requires forall i | 0 <= i < |trades| :: trades[i].restingId != id && trades[i].incomingId != id
    ensures Traded(trades, id) == 0
  {
    if |trades| > 0 {
      TradedByNone(trades[1..], id);
    }
  }

  lemma {:induction false} TradedByAll(trades: seq<Trade>, id: OrderId)
    requires forall i | 0 <= i < |trades| :: trades[i].restingId == id || trades[i].incomingId == id
    ensures Traded(trades, id) == SumQty(trades)
  {
    if |trades| > 0 {
      TradedByAll(trades[1..], id);
    }
  }

  lemma TradedByLast(trades: seq<Trade>, id: OrderId)
    requires |trades| > 0 && trades[|trades| - 1].restingId == id
    requires forall i | 0 <= i < |trades| - 1 :: trades[i].restingId != id && trades[i].incomingId != id
    ensures Traded(trades, id) == trades[|trades| - 1].qty
  {
    var n := |trades| - 1;
    TradedByNone(trades[..n], id);
    TradedConcat(trades[..n], trades[n..], id);
    assert trades == trades[..n] + trades[n..] && trades[n..] == [trades[n]];
  }

  /** More trades settle an order that took its part of them. */
  lemma SettledAfter(o: L3Order, o': L3Order, tape: seq<Trade>, trades: seq<Trade>, ledger: Ledger)
    requires Settled(o, tape, ledger) && o'.id == o.id
    requires o'.body.filled == o.body.filled + Traded(trades, o.id)
    requires Available(o') == Available(o) - Traded(trades, o.id)
    ensures Settled(o', tape + trades, ledger)
  {
    var since := ledger[o.id].since;
    assert (tape + trades)[since..] == tape[since..] + trades;
    TradedConcat(tape[since..], trades, o.id);
  }

  lemma UntouchedSettled(s: seq<L3Order>, tape: seq<Trade>, trades: seq<Trade>, ledger: Ledger)
    requires SideSettled(s, tape, ledger)
    requires forall i, j | 0 <= i < |s| && 0 <= j < |trades| ::
               trades[j].restingId != s[i].id && trades[j].incomingId != s[i].id
    ensures SideSettled(s, tape + trades, ledger)
  {
    forall i | 0 <= i < |s|
      ensures Settled(s[i], tape + trades, ledger)
    {
      TradedByNone(trades, s[i].id);
      SettledAfter(s[i], s[i], tape, trades, ledger);
    }
  }

  /** The trades of a sweep name the eaten orders, in turn, and one incoming order. */
  ghost predicate NamesPrefix(trades: seq<Trade>, s: seq<L3Order>, incoming: OrderId) {
    && |trades| <= |s|
    && forall i | 0 <= i < |trades| :: trades[i].restingId == s[i].id && trades[i].incomingId == incoming
  }

  lemma LeftoverSettled(s: seq<L3Order>, tape: seq<Trade>, trades: seq<Trade>, incoming: OrderId, ledger: Ledger)
    requires SideSettled(s, tape, ledger) && Distinct(s) && NamesPrefix(trades, s, incoming) && !Queued(s, incoming)
    ensures SideSettled(Leftover(s, trades), tape + trades, ledger)
  {
    var n := |trades|;
    assert SideSettled(s[n..], tape + trades, ledger) by {
      assert forall i | 0 <= i < |s[n..]| :: s[n..][i] == s[n + i];
      UntouchedSettled(s[n..], tape, trades, ledger);
    }
    if n > 0 && trades[n - 1].qty < Available(s[n - 1]) {
      var o := s[n - 1];
      TradedByLast(trades, o.id);
      FillConserves(o, trades[n - 1].qty);
      SettledAfter(o, Fill(o, trades[n - 1].qty), tape, trades, ledger);
    }
  }

  lemma SweepNamesPrefix(b: Book, order: Order, ts: Timestamp)
    requires ValidBook(b)
    ensures var s, r := SideOf(b, order.side.Opposite()), MatchIncoming(b, order, ts);
            NamesPrefix(r.trades, s, order.id) && r.rest == Leftover(s, r.trades)
  {
    var s := SideOf(b, order.side.Opposite());
    ConsumeEatsPrefix(s, order, order.quantity, b.symbol, |b.tape| + 1, ts);
    ConsumeLeaves(s, order, order.quantity, b.symbol, |b.tape| + 1, ts);
  }

  // ---------- Operations ----------

  /** An order that comes to rest opens an account. */
  ghost function Opened(b: Book, ledger: Ledger, order: Order, ts: Timestamp): Ledger {
    if !Resting(b, order.id) && Resting(AddOrder(b, order, ts).book, order.id)
    then ledger[order.id := Account(order.quantity, |b.tape|)] else ledger
  }

  ghost function Keep(b: Book, ledger: Ledger, c: Command): Ledger {
    match c
    case Submit(order, ts) => Opened(b, ledger, order, ts)
    case Cancel(_, _) => ledger
    case Replace(req, ts) =>
      if Resting(b, req.orderId) && Resting(ReplaceOrder(b, req, ts).book, req.orderId)
      then ledger[req.orderId := Account(req.newQty, |b.tape|)] else ledger
  }

  lemma MatchedSettled(b: Book, ledger: Ledger, order: Order, ts: Timestamp)
    requires ValidBook(b) && AllSettled(b, ledger) && !Resting(b, order.id)
    ensures AllSettled(Matched(b, order, ts), ledger)
    ensures Traded(MatchIncoming(b, order, ts).trades, order.id) == SumQty(MatchIncoming(b, order, ts).trades)
  {
    var own, opp := SideOf(b, order.side), SideOf(b, order.side.Opposite());
    var r := MatchIncoming(b, order, ts);
    SweepNamesPrefix(b, order, ts);
    LeftoverSettled(opp, b.tape, r.trades, order.id, ledger);
    UntouchedSettled(own, b.tape, r.trades, ledger);
    TradedByAll(r.trades, order.id);
  }

  lemma RestSettled(m: Book, ledger: Ledger, o: L3Order, ledger': Ledger)
    requires AllSettled(m, ledger) && !Resting(m, o.id) && Settled(o, m.tape, ledger')
    requires ledger' == ledger[o.id := ledger'[o.id]]
    ensures AllSettled(WithSide(m, o.side, Insert(SideOf(m, o.side), o)), ledger')
  {
    forall i | 0 <= i < |Insert(SideOf(m, o.side), o)|
      ensures Settled(Insert(SideOf(m, o.side), o)[i], m.tape, ledger')
    {
      var j := InsertMembers(SideOf(m, o.side), o, i);
      if Insert(SideOf(m, o.side), o)[i] != o {
        assert SideOf(m, o.side)[j].id != o.id && Settled(SideOf(m, o.side)[j], m.tape, ledger);
      }
    }
    assert SideSettled(SideOf(m, o.side.Opposite()), m.tape, ledger');
  }

  lemma AddKeepsSettled(b: Book, ledger: Ledger, order: Order, ts: Timestamp)
    requires ValidBook(b) && AllSettled(b, ledger)
    ensures AllSettled(AddOrder(b, order, ts).book, Opened(b, ledger, order, ts))
  {
    if !Resting(b, order.id) {
      var r, m := MatchIncoming(b, order, ts), Matched(b, order, ts);
      MatchedSettled(b, ledger, order, ts);
      MatchAmounts(b, order, ts);
      MatchKeepsAbsent(b, order, ts, order.id);
      if Rests(order, r.remaining) {
        var own := SideOf(m, order.side);
        var o := RestingOrder(order, r.remaining, CountAt(own, order.price), ts);
        var ledger' := ledger[order.id := Account(order.quantity, |b.tape|)];
        assert m.tape[|b.tape|..] == r.trades;
        RestSettled(m, ledger, o, ledger');
        var k := Place(order.side, own, order.price);
        assert Insert(own, o)[k] == o;
        assert Queued(Insert(own, o), order.id);
      }
    }
  }

  lemma CancelKeepsSettled(b: Book, ledger: Ledger, id: OrderId, ts: Timestamp)
    requires ValidBook(b) && AllSettled(b, ledger)
    ensures AllSettled(CancelOrder(b, id, ts).book, ledger)
  {
    if Resting(b, id) {
      var s := if Queued(b.bids, id) then b.bids else b.asks;
      RemoveKeeps(s, id);
      forall i | 0 <= i < |Remove(s, id)|
        ensures Settled(Remove(s, id)[i], b.tape, ledger)
      {
        assert Settled(s[if i < Pos(s, id) then i else i + 1], b.tape, ledger);
      }
    }
  }

  ghost function KeepAll(b: Book, ledger: Ledger, commands: seq<Command>): Ledger
    decreases |commands|
  {
    if |commands| == 0 then ledger
    else KeepAll(Apply(b, commands[0]).book, Keep(b, ledger, commands[0]), commands[1..])
  }

  /** Lifetime conservation over whole runs, from any settled book. */
  lemma {:induction false} RunKeepsSettled(b: Book, ledger: Ledger, commands: seq<Command>) returns (final: Ledger)
    requires ValidBook(b) && AllSettled(b, ledger)
    ensures ValidBook(Run(b, commands)) && AllSettled(Run(b, commands), final)
    ensures final == KeepAll(b, ledger, commands)
    decreases |commands|
  {
    final := ledger;
    if |commands| > 0 {
      var b' := Apply(b, commands[0]).book;
      match commands[0] {
        case Submit(order, ts) =>
          AddKeepsSettled(b, ledger, order, ts);
        case Cancel(id, ts) =>
          CancelKeepsSettled(b, ledger, id, ts);
        case Replace(req, ts) =>
          CancelKeepsSettled(b, ledger, req.orderId, ts);
          CancelKeepsValid(b, req.orderId, ts);
          var c := CancelOrder(b, req.orderId, ts);
          CancelKeepsTape(b, req.orderId, ts);
          CancelReportDescribes(b, req.orderId, ts);
          if c.report.status == Canceled {
            AddKeepsSettled(c.book, ledger, ReplacementFor(req, c.report.side, ts), ts);
          }
      }
      RunKeepsValid(b, commands[..1]);
      assert Run(b, commands[..1]) == b' by {
        assert commands[..1][1..] == [];
      }
      final := RunKeepsSettled(b', Keep(b, ledger, commands[0]), commands[1..]);
    }
  }

  /** After any run from an empty book, the report of a cancel states the quantity the order was
      accepted for, and the sum of the trades it took part in since. */
  lemma CancelReportsLifetime(symbol: Symbol, commands: seq<Command>, id: OrderId, ts: Timestamp)
    requires Resting(Run(EmptyBook(symbol), commands), id)
    ensures var b, ledger := Run(EmptyBook(symbol), commands), KeepAll(EmptyBook(symbol), map[], commands);
            var rpt := CancelOrder(b, id, ts).report;
            && id in ledger && ledger[id].since <= |b.tape|
            && rpt.orderQty == ledger[id].quantity
            && rpt.filledQty == Traded(b.tape[ledger[id].since..], id)
  {
    var b := Run(EmptyBook(symbol), commands);
    var ledger := RunKeepsSettled(EmptyBook(symbol), map[], commands);
    var side := if Queued(b.bids, id) then Buy else Sell;
    assert Settled(SideOf(b, side)[Pos(SideOf(b, side), id)], b.tape, ledger);
  }
}
