/** The L3 order book: two ordered maps of FIFO queues, an order index and counters, updated in
    place. Every method is proved to do to its `State()` what BookSpec says. */
module L3OrderBooks {
  import opened Types
  import opened Ladder
  import opened BookSpec
  import opened BookTheorems
  import opened L3Lemmas

  /** What is promised of a two-sided quote. */
  predicate QuotesWell(tob: TopOfBook) {
    var bid, ask := tob.bestBid, tob.bestAsk;
    && tob.spread == ask.price - bid.price > 0
    && bid.qty > 0 && ask.qty > 0
    && tob.midPrice == TruncDiv(bid.price + ask.price, 2)
    && tob.microPrice == TruncDiv(bid.price * ask.qty + ask.price * bid.qty, bid.qty + ask.qty)
    && bid.price <= tob.midPrice <= ask.price
    && bid.price <= tob.microPrice <= ask.price
    && (bid.qty >= ask.qty ==> tob.microPrice >= tob.midPrice)
    && (bid.qty <= ask.qty ==> tob.microPrice <= tob.midPrice)
  }

  class L3OrderBook {
    const symbol: Symbol
    var bids: seq<Level<L3Body>>
    var asks: seq<Level<L3Body>>
    var orderIndex: map<OrderId, Location>
    var tradeCount: nat
    var nextTradeId: nat
    var totalVolume: int
    var lastTradePrice: int
    var bidOrderCount: nat
    var askOrderCount: nat
    /** What the trade callback has been told. */
    ghost var tape: seq<Trade>

    ghost function State(): Book
      reads this
    {
      Book(symbol, Flat(bids), Flat(asks), tape)
    }

    ghost predicate Counted()
      reads this`nextTradeId, this`tradeCount, this`totalVolume, this`lastTradePrice, this`tape
    {
      && nextTradeId == |tape| + 1 && tradeCount == |tape|
      && totalVolume == SumQty(tape) && lastTradePrice == LastPrice(tape)
      && Numbered(tape)
    }

    /** Index and counts agree with the given contents of the two sides. */
    ghost predicate Indexed(side: Side, own: seq<L3Order>, other: seq<L3Order>)
      reads this`orderIndex, this`bidOrderCount, this`askOrderCount
    {
      && Coherent(orderIndex, Whole(side, own, other))
      && bidOrderCount == (if side.Buy? then |own| else |other|)
      && askOrderCount == (if side.Buy? then |other| else |own|)
    }

    /** The representation: well-formed ladders, an index that is a bijection with the queued orders,
        exact counts, counters that agree with the tape, and sound queue positions. */
    ghost predicate Represented()
      reads this
    {
      && WellFormed(Buy, bids) && WellFormed(Sell, asks)
      && Indexed(Buy, Flat(bids), Flat(asks))
      && Counted()
      && AllBound(bids) && AllBound(asks)
    }

    ghost predicate Valid()
      reads this
    {
      Represented() && ValidBook(State())
    }

    constructor (symbol: Symbol)
      ensures Valid() && State() == EmptyBook(symbol)
    {
      this.symbol := symbol;
      bids, asks, orderIndex := [], [], map[];
      tradeCount, nextTradeId, totalVolume, lastTradePrice := 0, 1, 0, 0;
      bidOrderCount, askOrderCount := 0, 0;
      tape := [];
      new;
      FreshIsRepresented();
      EmptyIsValid(symbol);
    }

    lemma FreshIsRepresented()
      requires bids == [] && asks == [] && orderIndex == map[] && tape == []
      requires bidOrderCount == askOrderCount == 0
      requires tradeCount == 0 && nextTradeId == 1 && totalVolume == 0 && lastTradePrice == 0
      ensures Represented() && State() == EmptyBook(symbol)
    {
      hide Coherent, WellFormed, AllBound, Flat;
      EmptyIsIndexed();
      EmptyIsWellFormed(Buy);
      EmptyIsWellFormed(Sell);
      FreshIsCounted();
    }

    lemma FreshIsCounted()
      requires tape == [] && tradeCount == 0 && nextTradeId == 1 && totalVolume == 0 && lastTradePrice == 0
      ensures Counted()
    {
    }

    ghost function LadderOf(side: Side): seq<Level<L3Body>>
      reads this
    {
      if side.Buy? then bids else asks
    }

    lemma IndexedFrom(side: Side, own: seq<L3Order>, other: seq<L3Order>)
      ensures Indexed(side, own, other) <==> Indexed(side.Opposite(), other, own)
    {
    }

    lemma IndexedRewrite(side: Side, s: seq<L3Order>, t: seq<L3Order>, other: seq<L3Order>)
      requires Indexed(side, s, other) && SameKeys(s, t)
      ensures Indexed(side, t, other)
    {
      WholeRewrite(orderIndex, side, s, t, other);
    }

    lemma InIndex(id: OrderId)
      requires Represented()
      ensures id in orderIndex <==> Resting(State(), id)
    {
      QueuedConcat(Flat(bids), Flat(asks), id);
      assert id in orderIndex <==> Queued(Flat(bids) + Flat(asks), id);
    }

    /** Reports a trade and advances the trade counters. */
    method RecordTrade(trade: Trade)
      requires Counted() && trade.tradeId == nextTradeId
      modifies this`tradeCount, this`nextTradeId, this`totalVolume, this`lastTradePrice, this`tape
      ensures Counted() && tape == old(tape) + [trade] && nextTradeId == old(nextTradeId) + 1
    {
      SumQtyConcat(tape, [trade]);
      nextTradeId := nextTradeId + 1;
      tradeCount := tradeCount + 1;
      totalVolume := totalVolume + trade.qty;
      lastTradePrice := trade.price;
      tape := tape + [trade];
    }

    /** Takes a traded quantity off a resting order, visible part first, and shows more of an iceberg. */
    static method Reduce(resting: L3Order, matchQty: int) returns (left: L3Order)
      ensures left == Fill(resting, matchQty)
      ensures left.id == resting.id && left.side == resting.side && left.price == resting.price
      ensures left.body.queuePos == resting.body.queuePos
    {
      var visible, hidden := resting.body.visible, resting.body.hidden;
      if matchQty <= visible {
        visible := visible - matchQty;
      } else {
        var fromHidden := matchQty - visible;
        visible := 0;
        hidden := hidden - fromHidden;
      }
      if visible == 0 && hidden > 0 && resting.body.iceberg {
        var replenish := Min(hidden, 100);
        visible := replenish;
        hidden := hidden - replenish;
      }
      left := resting.(body := resting.body.(visible := visible, hidden := hidden,
                                             filled := resting.body.filled + matchQty));
    }

    /** Drops a fully filled order from the index and its side's count. */
    method Drop(resting: L3Order, ghost kept: seq<L3Order>, ghost behind: seq<L3Order>, ghost other: seq<L3Order>)
      requires Indexed(resting.side, kept + ([resting] + behind), other)
      modifies this`orderIndex, this`bidOrderCount, this`askOrderCount
      ensures Indexed(resting.side, kept + behind, other)
    {
      WholeErase(orderIndex, resting.side, kept, resting, behind, other);
      orderIndex := orderIndex - {resting.id};
      if resting.side.Buy? {
        bidOrderCount := bidOrderCount - 1;
      } else {
        askOrderCount := askOrderCount - 1;
      }
    }

    /** Trades against one queue, front first, erasing orders as they empty. What comes out of the
        queue is what comes off the fold. */
    method MatchLevel(
        side: Side, levelPrice: int, queue0: seq<L3Order>, incoming: Order, remaining0: int, ts: Timestamp,
        ghost above: seq<L3Order>, ghost below: seq<L3Order>, ghost other: seq<L3Order>)
      returns (
        queue: seq<L3Order>, remaining: int, trades: seq<Trade>,
        ghost kept: seq<L3Order>, ghost tail: seq<L3Order>)
      requires side == incoming.side.Opposite()
      requires Acceptable(incoming, levelPrice)
      requires QueueOk(side, levelPrice, queue0)
      requires Indexed(side, above + (queue0 + below), other) && Counted()
      modifies this`orderIndex, this`tradeCount, this`nextTradeId, this`totalVolume, this`lastTradePrice,
               this`bidOrderCount, this`askOrderCount, this`tape
      ensures QueueOk(side, levelPrice, queue)
      ensures Counted() && tape == old(tape) + trades
      ensures queue == kept + tail && (remaining <= 0 || tail == [])
      ensures Indexed(side, (above + kept) + (tail + below), other)
      ensures Joined(trades, kept, Consume(tail + below, incoming, remaining, symbol, nextTradeId, ts)) ==
              Consume(queue0 + below, incoming, remaining0, symbol, old(nextTradeId), ts)
    {
      hide Consume, Coherent, Counted, QueueOk, Fill, Min, Indexed;
      queue, remaining, trades := queue0, remaining0, [];
      kept, tail := [], queue0;
      var i := 0;
      ghost var all := Consume(queue0 + below, incoming, remaining0, symbol, nextTradeId, ts);
      assert Joined([], [], all) == all && [] + queue == queue && above + [] == above;
      while remaining > 0 && i < |queue|
        invariant queue == kept + tail && |kept| == i
        invariant QueueOk(side, levelPrice, queue)
        invariant Indexed(side, (above + kept) + (tail + below), other) && Counted()
        invariant Joined(trades, kept, Consume(tail + below, incoming, remaining, symbol, nextTradeId, ts)) == all
        invariant tape == old(tape) + trades
        decreases |queue| - i
      {
        var resting := queue[i];
        var matchQty := Min(remaining, resting.body.visible + resting.body.hidden);
        var trade := Trade(nextTradeId, resting.id, incoming.id, resting.body.trader, incoming.trader,
                           symbol, incoming.side, levelPrice, matchQty, ts);
        ghost var rest := tail[1..];
        assert tail == [resting] + rest;
        Associate([resting], rest, below);
        QueueMember(side, levelPrice, queue, i);
        JoinedStep(trades, kept, resting, rest + below, incoming, remaining, symbol, nextTradeId, ts);
        Associate(old(tape), trades, [trade]);
        RecordTrade(trade);
        trades := trades + [trade];
        remaining := remaining - matchQty;
        var left := Reduce(resting, matchQty);
        if left.body.visible + left.body.hidden == 0 {
          Drop(resting, above + kept, rest + below, other);
          QueueErase(side, levelPrice, kept, resting, rest);
          queue := RemoveAt(queue, i);
          tail := rest;
        } else {
          RewriteMid(above + kept, resting, left, rest + below);
          IndexedRewrite(side, (above + kept) + ([resting] + (rest + below)),
                         ((above + kept) + [left]) + (rest + below), other);
          Associate(above, kept, [left]);
          QueueUpdate(side, levelPrice, kept, resting, left, rest);
          queue := queue[i := left];
          i := i + 1;
          kept, tail := kept + [left], rest;
        }
      }
    }

    /** Trades `quantity` of an incoming order against the opposite side: best level first, front of
        each queue first, erasing orders and levels as they empty. */
    method MatchAgainst(incoming: Order, quantity: int, ts: Timestamp) returns (remaining: int, trades: seq<Trade>)
      requires Represented()
      modifies this
      ensures Represented()
      ensures var side := incoming.side.Opposite();
              var r := Consume(SideOf(old(State()), side), incoming, quantity, symbol, |old(tape)| + 1, ts);
              && remaining == r.remaining && trades == r.trades
              && State() == WithSide(old(State()), side, r.rest).(tape := old(tape) + r.trades)
    {
      hide Consume, Coherent, Counted, AllBound, QueueOk, WellFormed, Flat, Represented, Indexed, Joined;
      var side := incoming.side.Opposite();
      var levels := if side.Buy? then bids else asks;
      ghost var other := Flat(LadderOf(side.Opposite()));
      ghost var all := Consume(Flat(levels), incoming, quantity, symbol, nextTradeId, ts);
      remaining, trades := quantity, [];
      var level := 0;
      Start(side, all);
      assert tape + [] == tape;
      while remaining > 0 && level < |levels|
        invariant level <= |levels| && WellFormed(side, levels) && AllBound(levels)
        invariant Joined(trades, Flat(levels[..level]),
                         Consume(Flat(levels[level..]), incoming, remaining, symbol, nextTradeId, ts)) == all
        invariant Indexed(side, Flat(levels), other) && Counted()
        invariant tape == old(tape) + trades
        invariant bids == old(bids) && asks == old(asks)
        decreases |levels| - level
      {
        var levelPrice := levels[level].price;
        if incoming.orderType.Limit? &&
           (if incoming.side.Buy? then levelPrice > incoming.price else levelPrice < incoming.price) {
          break;
        }
        ghost var id, above, below := nextTradeId, Flat(levels[..level]), Flat(levels[level + 1..]);
        LevelStart(side, levels, level);
        var queue, left, made, kept, tail :=
          MatchLevel(side, levelPrice, levels[level].queue, incoming, remaining, ts, above, below, other);
        LevelDone(side, levels, level, kept, tail, trades, made,
                  incoming, remaining, left, symbol, id, nextTradeId, ts);
        Associate(old(tape), trades, made);
        trades, remaining := trades + made, left;
        levels := SetQueue(levels, level, queue);
        if |queue| != 0 {
          level := level + 1;
        }
      }
      Stopped(side, levels, level, trades, incoming, remaining, symbol, nextTradeId, ts);
      Store(side, levels, other);
    }

    lemma Start(side: Side, all: Sweep)
      requires Represented()
      ensures WellFormed(side, LadderOf(side)) && AllBound(LadderOf(side))
      ensures WellFormed(side.Opposite(), LadderOf(side.Opposite())) && AllBound(LadderOf(side.Opposite()))
      ensures Indexed(side, Flat(LadderOf(side)), Flat(LadderOf(side.Opposite()))) && Counted()
      ensures nextTradeId == |tape| + 1
      ensures Joined([], Flat(LadderOf(side)[..0]), all) == all && LadderOf(side)[0..] == LadderOf(side)
    {
      hide Coherent, WellFormed, AllBound;
      IndexedFrom(Buy, Flat(bids), Flat(asks));
      assert LadderOf(side)[..0] == [];
    }

    /** Writes a side back once its index entries and counts are in place. */
    method Store(side: Side, levels: seq<Level<L3Body>>, ghost other: seq<L3Order>)
      requires WellFormed(side, levels) && AllBound(levels)
      requires Indexed(side, Flat(levels), other) && Counted()
      requires WellFormed(side.Opposite(), LadderOf(side.Opposite())) && AllBound(LadderOf(side.Opposite()))
      requires other == Flat(LadderOf(side.Opposite()))
      modifies this`bids, this`asks
      ensures Represented()
      ensures State() == WithSide(old(State()), side, Flat(levels))
    {
      IndexedFrom(side, Flat(levels), other);
      if side.Buy? {
        bids := levels;
      } else {
        asks := levels;
      }
    }

    static method SumLevel(queue: seq<L3Order>) returns (total: int)
      ensures total == TotalAvailable(queue)
    {
      total := 0;
      for i := 0 to |queue|
        invariant total == TotalAvailable(queue[..i])
      {
        TotalSnoc(queue, i);
        total := total + queue[i].body.visible + queue[i].body.hidden;
      }
      assert queue[..|queue|] == queue;
    }

    /** The fill-or-kill pre-scan: adds up acceptable levels and stops early once they suffice. */
    method ScanLiquidity(order: Order) returns (available: int)
      requires Valid()
      ensures var side := order.side.Opposite();
              available >= order.quantity <==> Liquidity(SideOf(State(), side), order) >= order.quantity
    {
      hide Represented, ValidBook, WellFormed, Flat, Liquidity, AllOk;
      ghost var side := order.side.Opposite();
      var levels := if order.side.Buy? then asks else bids;
      SideIsOk(side);
      available := 0;
      var level := 0;
      assert levels[0..] == levels;
      while level < |levels|
        invariant level <= |levels|
        invariant available + Liquidity(Flat(levels[level..]), order) == Liquidity(Flat(levels), order)
        invariant AllOk(Flat(levels[level..]))
        decreases |levels| - level
      {
        LevelLiquidity(side, levels, level, order);
        var price, queue := levels[level].price, levels[level].queue;
        if order.orderType.Limit? && (if order.side.Buy? then price > order.price else price < order.price) {
          return;
        }
        var inLevel := SumLevel(queue);
        available := available + inLevel;
        level := level + 1;
        if available >= order.quantity {
          return;
        }
      }
      NoLiquidity(levels, order);
    }

    lemma SideIsOk(side: Side)
      requires Valid()
      ensures WellFormed(side, LadderOf(side)) && AllOk(Flat(LadderOf(side)))
    {
      hide WellFormed, Flat;
    }

    /** Fill-or-kill check first, then matching. */
    method MatchIncoming(order: Order, ts: Timestamp) returns (remaining: int, trades: seq<Trade>)
      requires Valid()
      modifies this
      ensures Represented()
      ensures var r := BookSpec.MatchIncoming(old(State()), order, ts);
              && remaining == r.remaining && trades == r.trades
              && State() == Matched(old(State()), order, ts)
    {
      hide Consume, Liquidity, ValidBook, Coherent, WellFormed, AllBound, Flat, Counted;
      if order.tif.FOK? {
        var available := ScanLiquidity(order);
        if available < order.quantity {
          assert tape + [] == tape;
          return order.quantity, [];
        }
      }
      remaining, trades := MatchAgainst(order, order.quantity, ts);
    }

    /** Queues a remainder at the back of its price level. */
    method AddRestingOrder(order: Order, remaining: int, ts: Timestamp)
      requires Represented() && order.id !in orderIndex
      modifies this`bids, this`asks, this`orderIndex, this`bidOrderCount, this`askOrderCount
      ensures Represented()
      ensures State() == Rest(old(State()), order, remaining, ts)
    {
      hide Coherent, Counted, WellFormed, AllBound, Flat, Open, Insert, Represented;
      var side := order.side;
      var levels := if side.Buy? then bids else asks;
      ghost var other := Flat(LadderOf(side.Opposite()));
      Start(side, Sweep([], [], 0));
      var l3 := RestingOrder(order, remaining, 0, ts);
      var ladder := Open(side, levels, order.price);
      OpenedAt(side, levels, order.price);
      var k := Find(ladder, order.price);
      var o := l3.(body := l3.body.(queuePos := |ladder[k].queue|));
      RestRefines(levels, o, orderIndex, other);
      orderIndex := orderIndex[order.id := Location(side, order.price, order.id)];
      if side.Buy? {
        bidOrderCount := bidOrderCount + 1;
      } else {
        askOrderCount := askOrderCount + 1;
      }
      Store(side, ladder[k := Level(order.price, ladder[k].queue + [o])], other);
    }

    /** Submits an order: duplicate check, matching, then resting, cancelling or rejecting the remainder. */
    method AddOrder(order: Order, ts: Timestamp) returns (rpt: ExecutionReport)
      requires Valid()
      modifies this
      ensures Valid()
      ensures State() == BookSpec.AddOrder(old(State()), order, ts).book
      ensures rpt == BookSpec.AddOrder(old(State()), order, ts).report
    {
      hide Coherent, Counted, WellFormed, AllBound, Flat, Insert, ValidBook, Represented, BookSpec.MatchIncoming,
           Resting, Rest;
      ghost var before := State();
      ValidIsRepresented();
      InIndex(order.id);
      rpt := BLANK_REPORT.(orderId := order.id, trader := order.trader, symbol := order.symbol, side := order.side,
                           orderType := order.orderType, price := order.price, orderQty := order.quantity,
                           transactTime := ts);
      if order.id in orderIndex {
        rpt := rpt.(status := Rejected, reason := DuplicateOrderId, leavesQty := 0);
        return;
      }
      AddKeepsValid(before, order, ts);
      MatchKeepsAbsent(before, order, ts, order.id);
      var remaining, trades := MatchIncoming(order, ts);
      InIndex(order.id);

      var filled := order.quantity - remaining;
      rpt := rpt.(filledQty := filled, leavesQty := remaining);
      if remaining == 0 {
        rpt := rpt.(status := Filled);
      } else if filled > 0 {
        rpt := rpt.(status := PartiallyFilled);
        if |trades| != 0 {
          rpt := rpt.(lastQty := trades[|trades| - 1].qty, lastPrice := trades[|trades| - 1].price);
        }
      } else {
        rpt := rpt.(status := New);
      }
      if remaining > 0 && order.orderType.Limit? {
        if order.tif.Day? || order.tif.GTC? {
          AddRestingOrder(order, remaining, ts);
        } else if order.tif.IOC? {
          rpt := rpt.(status := if filled > 0 then PartiallyFilled else Canceled, leavesQty := 0);
        } else {
          rpt := rpt.(status := Rejected, reason := InsufficientLiquidity, filledQty := 0, leavesQty := 0);
        }
      }
      BecomeValid();
    }

    lemma ValidIsRepresented()
      ensures Valid() <==> Represented() && ValidBook(State())
    {
    }

    lemma BecomeValid()
      requires Represented() && ValidBook(State())
      ensures Valid()
    {
    }

    /** Rewrites the stored queue positions of one level. */
    method UpdateQueuePositions(side: Side, price: int)
      modifies this`bids, this`asks
      ensures LadderOf(side.Opposite()) == old(LadderOf(side.Opposite()))
      ensures var levels, k := old(LadderOf(side)), Find(old(LadderOf(side)), price);
              LadderOf(side) == if k < |levels| then levels[k := Level(price, Renumbered(levels[k].queue))] else levels
    {
      var levels := if side.Buy? then bids else asks;
      var it := Find(levels, price);
      if it == |levels| { return; }
      var queue := levels[it].queue;
      for pos := 0 to |queue|
        invariant |queue| == |levels[it].queue|
        invariant forall j | 0 <= j < pos :: queue[j] == Renumbered(levels[it].queue)[j]
        invariant forall j | pos <= j < |queue| :: queue[j] == levels[it].queue[j]
      {
        queue := queue[pos := queue[pos].(body := queue[pos].body.(queuePos := pos))];
      }
      assert queue == Renumbered(levels[it].queue);
      if side.Buy? {
        bids := levels[it := Level(price, queue)];
      } else {
        asks := levels[it := Level(price, queue)];
      }
    }

    /** Erases an order from its list, and the level with it or the positions behind it. */
    method EraseNode(side: Side, price: int, id: OrderId)
      requires var levels := LadderOf(side); var k := Find(levels, price);
               && WellFormed(side, levels) && AllBound(levels) && Distinct(Flat(levels))
               && k < |levels| && Pos(levels[k].queue, id) < |levels[k].queue|
      modifies this`bids, this`asks
      ensures LadderOf(side.Opposite()) == old(LadderOf(side.Opposite()))
      ensures var k := Find(old(LadderOf(side)), price);
              LadderOf(side) == Cancelled(old(LadderOf(side)), k, Pos(old(LadderOf(side))[k].queue, id))
    {
      hide WellFormed, AllBound, Flat, Distinct;
      var levels := if side.Buy? then bids else asks;
      var k := Find(levels, price);
      var queue := RemoveAt(levels[k].queue, Pos(levels[k].queue, id));
      if |queue| == 0 {
        if side.Buy? { bids := RemoveAt(levels, k); } else { asks := RemoveAt(levels, k); }
      } else {
        var after := levels[k := Level(price, queue)];
        if side.Buy? { bids := after; } else { asks := after; }
        assert Find(after, price) == k by {
          assert forall i | 0 <= i < k :: after[i] == levels[i];
          assert after[k].price == price;
        }
        UpdateQueuePositions(side, price);
      }
    }

    /** Cancels a resting order through its index entry. */
    method CancelOrder(id: OrderId, ts: Timestamp) returns (rpt: ExecutionReport)
      requires Valid()
      modifies this
      ensures Valid()
      ensures State() == BookSpec.CancelOrder(old(State()), id, ts).book
      ensures rpt == BookSpec.CancelOrder(old(State()), id, ts).report
      ensures rpt.status == Canceled ==> PositionsExact(rpt.side, rpt.price)
    {
      hide Coherent, Counted, WellFormed, AllBound, Flat, ValidBook, Represented, Resting, Cancelled, Remove,
           Distinct, RemoveAt, Indexed, OrderAt, PositionsExact;
      ValidIsRepresented();
      InIndex(id);
      rpt := BLANK_REPORT.(orderId := id, transactTime := ts);
      if id !in orderIndex {
        rpt := rpt.(status := Rejected, reason := NoReason);
        return;
      }
      var loc := orderIndex[id];
      var levels := if loc.side.Buy? then bids else asks;
      ghost var other := Flat(LadderOf(loc.side.Opposite()));
      Dereference(id);
      var k := Find(levels, loc.price);
      var i := Pos(levels[k].queue, loc.it);
      var l3 := levels[k].queue[i];
      rpt := rpt.(trader := l3.body.trader, symbol := symbol, side := l3.side, price := l3.price,
                  orderQty := l3.body.visible + l3.body.hidden + l3.body.filled, filledQty := l3.body.filled,
                  leavesQty := 0, status := Canceled);
      BeforeErase(loc.side, k, i, id, ts);
      EraseNode(loc.side, loc.price, loc.it);
      if loc.side.Buy? {
        bidOrderCount := bidOrderCount - 1;
      } else {
        askOrderCount := askOrderCount - 1;
      }
      orderIndex := orderIndex - {id};
      AfterErase(loc.side, levels, k, i, other);
      BecomeValid();
    }

    /** What erasing a located order will do to its ladder, the index and the abstract book. */
    lemma BeforeErase(side: Side, k: nat, i: nat, id: OrderId, ts: Timestamp)
      requires Valid() && k < |LadderOf(side)| && i < |LadderOf(side)[k].queue|
      requires LadderOf(side)[k].queue[i].id == id && (Queued(Flat(bids), id) <==> side.Buy?)
      requires Resting(State(), id)
      ensures var levels, other := LadderOf(side), Flat(LadderOf(side.Opposite()));
              var after := Cancelled(levels, k, i);
              && WellFormed(side, levels) && AllBound(levels) && Distinct(Flat(levels)) && Counted()
              && WellFormed(side, after) && AllBound(after)
              && WellFormed(side.Opposite(), LadderOf(side.Opposite())) && AllBound(LadderOf(side.Opposite()))
              && Coherent(orderIndex - {id}, Whole(side, Flat(after), other))
              && |Flat(levels)| == |Flat(after)| + 1
              && bidOrderCount == (if side.Buy? then |Flat(levels)| else |other|)
              && askOrderCount == (if side.Buy? then |other| else |Flat(levels)|)
              && WithSide(State(), side, Flat(after)) == BookSpec.CancelOrder(State(), id, ts).book
              && ValidBook(WithSide(State(), side, Flat(after)))
    {
      hide Coherent, Counted, WellFormed, AllBound, Flat, Cancelled, Sorted, AllOk, Distinct, Uncrossed, Apart, Remove;
      Start(side, Sweep([], [], 0));
      CancelRefines(side, LadderOf(side), k, i);
      IndexedRemove(side, Flat(LadderOf(side)), id, Flat(LadderOf(side.Opposite())));
      CancelKeepsValid(State(), id, ts);
    }

    lemma AfterErase(side: Side, levels: seq<Level<L3Body>>, k: nat, i: nat, other: seq<L3Order>)
      requires WellFormed(side, levels) && k < |levels| && i < |levels[k].queue|
      requires LadderOf(side) == Cancelled(levels, k, i)
      requires WellFormed(side, LadderOf(side)) && AllBound(LadderOf(side)) && Counted()
      requires WellFormed(side.Opposite(), LadderOf(side.Opposite())) && AllBound(LadderOf(side.Opposite()))
      requires other == Flat(LadderOf(side.Opposite()))
      requires Coherent(orderIndex, Whole(side, Flat(LadderOf(side)), other))
      requires bidOrderCount == (if side.Buy? then |Flat(LadderOf(side))| else |other|)
      requires askOrderCount == (if side.Buy? then |other| else |Flat(LadderOf(side))|)
      ensures Represented() && PositionsExact(side, levels[k].price)
    {
      hide Coherent, Counted, WellFormed, AllBound, Flat, PositionsExact, Cancelled;
      IndexedFrom(side, Flat(LadderOf(side)), other);
      CancelledExact(side, levels, k, i);
    }

    /** Every stored position at a price is the true index in its level. */
    ghost predicate PositionsExact(side: Side, price: int)
      reads this
    {
      var levels := LadderOf(side);
      var k := Find(levels, price);
      k < |levels| ==> forall j | 0 <= j < |levels[k].queue| :: levels[k].queue[j].body.queuePos == j
    }

    /** An index entry leads to its order: the right side, level and node. */
    lemma Dereference(id: OrderId)
      requires Valid() && id in orderIndex
      ensures Resting(State(), id)
      ensures var loc := orderIndex[id];
              var levels := LadderOf(loc.side);
              var k := Find(levels, loc.price);
              && loc.it == id
              && k < |levels| && Pos(levels[k].queue, id) < |levels[k].queue|
              && levels[k].queue[Pos(levels[k].queue, id)] == OrderAt(State(), id)
              && OrderAt(State(), id).side == loc.side && levels[k].price == OrderAt(State(), id).price == loc.price
              && Queued(Flat(levels), id) && (Queued(Flat(bids), id) <==> loc.side.Buy?)
              && Distinct(Flat(levels))
    {
      hide Counted, AllBound, Ordered, LevelOk, Flat, Uncrossed;
      var b := State();
      InIndex(id);
      var side := if Queued(b.bids, id) then Buy else Sell;
      var s := SideOf(b, side);
      var j := Pos(s, id);
      IndexEntry(side, j);
      Start(side, Sweep([], [], 0));
      Locate(side, LadderOf(side), s[j].price, id, j);
      var k := Find(LadderOf(side), s[j].price);
      CancelRefines(side, LadderOf(side), k, Pos(LadderOf(side)[k].queue, id));
    }

    lemma IndexEntry(side: Side, j: nat)
      requires Represented() && j < |Flat(LadderOf(side))|
      ensures var o := Flat(LadderOf(side))[j];
              && o.id in orderIndex && orderIndex[o.id] == Location(o.side, o.price, o.id) && o.side == side
    {
      hide Distinct, Flat, Ordered, LevelOk, Counted, AllBound;
      var s := Flat(bids) + Flat(asks);
      var at := if side.Buy? then j else |Flat(bids)| + j;
      assert s[at] == Flat(LadderOf(side))[j];
      FlatSorted(side, LadderOf(side));
    }

    lemma IndexedRemove(side: Side, s: seq<L3Order>, id: OrderId, other: seq<L3Order>)
      requires Indexed(side, s, other) && Queued(s, id)
      ensures Coherent(orderIndex - {id}, Whole(side, Remove(s, id), other))
      ensures |Remove(s, id)| == |s| - 1 && |s| > 0
      ensures bidOrderCount == (if side.Buy? then |s| else |other|)
      ensures askOrderCount == (if side.Buy? then |other| else |s|)
    {
      hide Coherent;
      WholeRemove(orderIndex, side, s, id, other);
      RemoveKeeps(s, id);
    }

    lemma CancelledExact(side: Side, levels: seq<Level<L3Body>>, k: nat, i: nat)
      requires WellFormed(side, levels) && k < |levels| && i < |levels[k].queue|
      requires LadderOf(side) == Cancelled(levels, k, i)
      ensures PositionsExact(side, levels[k].price)
    {
      var after := Cancelled(levels, k, i);
      var f := Find(after, levels[k].price);
      forall j | 0 <= j < |levels| && j != k
        ensures levels[j].price != levels[k].price
      {
        assert j < k ==> Better(side, levels[j].price, levels[k].price);
        assert j > k ==> Better(side, levels[k].price, levels[j].price);
      }
    }

    /** Cancel-replace: cancels, then submits a limit day order under the same id on the same side. */
    method ReplaceOrder(req: ReplaceRequest, ts: Timestamp) returns (rpt: ExecutionReport)
      requires Valid()
      modifies this
      ensures Valid()
      ensures State() == BookSpec.ReplaceOrder(old(State()), req, ts).book
      ensures rpt == BookSpec.ReplaceOrder(old(State()), req, ts).report
    {
      hide Coherent, Counted, WellFormed, AllBound, Flat, ValidBook, Represented, Valid;
      rpt := CancelOrder(req.orderId, ts);
      if rpt.status != Canceled {
        rpt := rpt.(status := Rejected);
        return;
      }
      var replacement := Order(req.orderId, req.trader, req.symbol, rpt.side, Limit, Day, req.newPrice, req.newQty, ts);
      rpt := AddOrder(replacement, ts);
    }

    // ---------- Queries ----------

    lemma LadderIsGrouped(side: Side)
      requires Valid()
      ensures Group(SideOf(State(), side)) == LadderOf(side)
      ensures WellFormed(side, LadderOf(side))
    {
      GroupFlat(side, LadderOf(side));
    }

    static method Summarize(level: Level<L3Body>) returns (r: BookLevel)
      ensures r == Summary(level)
    {
      var total, count := 0, 0;
      for i := 0 to |level.queue|
        invariant total == Visible(level.queue[..i]) && count == i
      {
        VisibleSnoc(level.queue, i);
        total := total + level.queue[i].body.visible;
        count := count + 1;
      }
      assert level.queue[..|level.queue|] == level.queue;
      r := BookLevel(level.price, total, count);
    }

    /** The best level of a side: the first order's price, with everything queued there. */
    method Best(side: Side) returns (r: Option<BookLevel>)
      requires Valid()
      ensures r.None? <==> SideOf(State(), side) == []
      ensures r.Some? ==> r.value == Summary(Group(SideOf(State(), side))[0]) && r.value.qty > 0
      ensures r.Some? ==>
                var s := SideOf(State(), side);
                && r.value.price == s[0].price && r.value.orderCount == CountAt(s, s[0].price)
                && r.value.qty == VisibleAt(s, s[0].price)
    {
      hide Represented, ValidBook, WellFormed, Group;
      LadderIsGrouped(side);
      var levels := if side.Buy? then bids else asks;
      if |levels| == 0 {
        return None;
      }
      BestIsPositive(side);
      LevelShows(side, levels, 0);
      var level := Summarize(levels[0]);
      r := Some(level);
    }

    lemma BestIsPositive(side: Side)
      requires Valid() && |LadderOf(side)| > 0
      ensures SideOf(State(), side) != []
      ensures Visible(LadderOf(side)[0].queue) > 0
      ensures LadderOf(side)[0].price == SideOf(State(), side)[0].price
    {
      var levels := LadderOf(side);
      assert LevelOk(side, levels[0]);
      assert forall i | 0 <= i < |levels[0].queue| :: levels[0].queue[i] == Flat(levels)[i];
      VisiblePositive(levels[0].queue);
    }

    /** Up to `count` levels of a side, best first. */
    method Depth(side: Side, count: nat) returns (r: seq<BookLevel>)
      requires Valid()
      ensures var all := Summaries(Group(SideOf(State(), side))); r == all[..Min(count, |all|)]
      ensures DepthShows(side, SideOf(State(), side), r, count)
    {
      hide Represented, ValidBook, WellFormed, Group;
      LadderIsGrouped(side);
      var levels := if side.Buy? then bids else asks;
      FirstLevelsShow(side, levels, count);
      r := SummarizeFirst(levels, count);
    }

    static method SummarizeFirst(levels: seq<Level<L3Body>>, count: nat) returns (r: seq<BookLevel>)
      ensures r == Summaries(levels)[..Min(count, |levels|)]
    {
      hide Summary;
      r := [];
      var n := 0;
      while n < |levels|
        invariant n <= |levels| && n <= count && |r| == n
        invariant forall i | 0 <= i < n :: r[i] == Summary(levels[i])
      {
        if n >= count { break; }
        var level := Summarize(levels[n]);
        r := r + [level];
        n := n + 1;
      }
    }

    /** The stored queue position of an order: never less than the number of orders ahead at its price, and
        equal to it where the stored positions are exact, as after a cancel there. */
    method QueuePosition(id: OrderId) returns (pos: Option<nat>)
      requires Valid()
      ensures pos.None? <==> !Resting(State(), id)
      ensures pos.Some? ==>
                var side := OrderAt(State(), id).side;
                var s := SideOf(State(), side);
                && pos.value == OrderAt(State(), id).body.queuePos
                && Queued(s, id) && pos.value >= CountAt(s[..Pos(s, id)], OrderAt(State(), id).price)
                && (PositionsExact(side, OrderAt(State(), id).price) ==>
                      pos.value == CountAt(s[..Pos(s, id)], OrderAt(State(), id).price))
    {
      hide Represented, ValidBook, WellFormed, Coherent, Flat, Counted, Resting, OrderAt;
      ValidIsRepresented();
      InIndex(id);
      if id !in orderIndex {
        return None;
      }
      var loc := orderIndex[id];
      Dereference(id);
      var levels := if loc.side.Buy? then bids else asks;
      var k := Find(levels, loc.price);
      var i := Pos(levels[k].queue, loc.it);
      Start(loc.side, Sweep([], [], 0));
      AheadInLevel(loc.side, levels, k, i);
      pos := Some(levels[k].queue[i].body.queuePos);
    }

    /** The displayed quantity ahead of an order at its price; 0 for an unknown order. */
    method QuantityAhead(id: OrderId) returns (ahead: int)
      requires Valid()
      ensures !Resting(State(), id) ==> ahead == 0
      ensures Resting(State(), id) ==> ahead == VisibleAhead(SideOf(State(), OrderAt(State(), id).side), id)
    {
      hide Represented, ValidBook, WellFormed, Coherent, Flat, Counted, Resting, OrderAt, VisibleAhead;
      ValidIsRepresented();
      InIndex(id);
      if id !in orderIndex {
        return 0;
      }
      var loc := orderIndex[id];
      Dereference(id);
      var levels := if loc.side.Buy? then bids else asks;
      var k := Find(levels, loc.price);
      var queue := levels[k].queue;
      ahead := 0;
      var i := 0;
      while i < |queue|
        invariant i <= Pos(queue, id)
        invariant ahead == Visible(queue[..i])
        decreases |queue| - i
      {
        if queue[i].id == id { break; }
        VisibleSnoc(queue, i);
        ahead := ahead + queue[i].body.visible;
        i := i + 1;
      }
      Start(loc.side, Sweep([], [], 0));
      AheadInLevel(loc.side, levels, k, i);
    }

    /** Top of book. With both sides present the spread is positive, the zero-quantity fallback is
        never taken, mid and micro price lie between best bid and best ask, and the micro price leans
        towards the side with less quantity. A one-sided book quotes its only price as the mid. */
    method QuoteTop(ts: Timestamp) returns (tob: TopOfBook, ghost fallback: bool)
      requires Valid()
      ensures var bids, asks := Group(SideOf(State(), Buy)), Group(SideOf(State(), Sell));
              && tob.symbol == symbol && tob.timestamp == ts
              && (tob.valid <==> bids != [] || asks != [])
              && tob.bestBid == (if bids != [] then Summary(bids[0]) else NO_LEVEL)
              && tob.bestAsk == (if asks != [] then Summary(asks[0]) else NO_LEVEL)
              && (bids == [] && asks == [] ==> tob.midPrice == 0)
              && (bids != [] && asks == [] ==> tob.midPrice == tob.bestBid.price)
              && (bids == [] && asks != [] ==> tob.midPrice == tob.bestAsk.price)
              && (bids == [] || asks == [] ==> tob.microPrice == 0 && tob.spread == 0)
              && (bids != [] && asks != [] ==> QuotesWell(tob))
      ensures !fallback
    {
      hide Represented, WellFormed, Group, Summary, SideValid, Apart, TruncDiv;
      fallback := false;
      tob := TopOfBook(symbol, NO_LEVEL, NO_LEVEL, 0, 0, 0, ts, false);
      NoGroups(Buy);
      NoGroups(Sell);
      var bb := Best(Buy);
      var ba := Best(Sell);
      if bb.Some? && ba.Some? {
        BestPrice(Buy);
        BestPrice(Sell);
        QuotesBetween(bb.value, ba.value);
        MicroLeans(bb.value, ba.value);
        tob := tob.(valid := true, bestBid := bb.value, bestAsk := ba.value,
                    midPrice := TruncDiv(bb.value.price + ba.value.price, 2),
                    spread := ba.value.price - bb.value.price);
        var totalQty := bb.value.qty + ba.value.qty;
        if totalQty > 0 {
          tob := tob.(microPrice := TruncDiv(bb.value.price * ba.value.qty + ba.value.price * bb.value.qty, totalQty));
        } else {
          tob := tob.(microPrice := tob.midPrice);
          fallback := true;
        }
      } else if bb.Some? {
        tob := tob.(valid := true, bestBid := bb.value, midPrice := bb.value.price);
      } else if ba.Some? {
        tob := tob.(valid := true, bestAsk := ba.value, midPrice := ba.value.price);
      }
    }

    lemma NoGroups(side: Side)
      ensures Group(SideOf(State(), side)) == [] <==> SideOf(State(), side) == []
    {
    }

    lemma BestPrice(side: Side)
      requires Valid() && SideOf(State(), side) != []
      ensures |Group(SideOf(State(), side))| > 0
      ensures Summary(Group(SideOf(State(), side))[0]).price == SideOf(State(), side)[0].price
    {
    }
  }

  const NO_LEVEL := BookLevel(0, 0, 0)

  /** The abstract book determines the whole representation: price maps, index, counts and counters. */
  lemma RepresentationUnique(a: L3OrderBook, b: L3OrderBook)
    requires a.Valid() && b.Valid() && a.State() == b.State()
    ensures a.bids == b.bids && a.asks == b.asks && a.orderIndex == b.orderIndex
    ensures a.bidOrderCount == b.bidOrderCount && a.askOrderCount == b.askOrderCount
    ensures a.nextTradeId == b.nextTradeId && a.tradeCount == b.tradeCount
    ensures a.totalVolume == b.totalVolume && a.lastTradePrice == b.lastTradePrice
  {
    hide ValidBook;
    GroupFlat(Buy, a.bids);
    GroupFlat(Buy, b.bids);
    GroupFlat(Sell, a.asks);
    GroupFlat(Sell, b.asks);
    var s := Flat(a.bids) + Flat(a.asks);
    IndexUnique(a.orderIndex, b.orderIndex, s);
  }

  /** Two books that differ in nothing but stored queue positions at one price, as before an add and after
      its cancel, have the same index, counts and counters, and price maps that differ in nothing else. */
  lemma RepresentationUpToPositions(a: L3OrderBook, b: L3OrderBook, price: int)
    requires a.Valid() && b.Valid() && SameBookExceptPositions(a.State(), b.State(), price)
    ensures a.orderIndex == b.orderIndex
    ensures SameLadders(a.bids, b.bids, price) && SameLadders(a.asks, b.asks, price)
    ensures a.bidOrderCount == b.bidOrderCount && a.askOrderCount == b.askOrderCount
    ensures a.nextTradeId == b.nextTradeId && a.tradeCount == b.tradeCount
    ensures a.totalVolume == b.totalVolume && a.lastTradePrice == b.lastTradePrice
  {
    hide ValidBook, WellFormed, Coherent, SameLadders, SameExceptPositions;
    RepresentationFollows(a.bids, a.asks, a.orderIndex, b.bids, b.asks, b.orderIndex, price);
  }

  /** One book, a resting order added, and the same order cancelled: price maps, index, counts and counters
      are back, apart from refreshed queue positions at its price. */
  method AddAndCancel(book: L3OrderBook, order: Order, ts: Timestamp, ts': Timestamp)
    requires book.Valid() && !Resting(book.State(), order.id)
    requires order.orderType.Limit? && (order.tif.Day? || order.tif.GTC?) && order.quantity > 0
    requires var opp := SideOf(book.State(), order.side.Opposite()); |opp| == 0 || !Acceptable(order, opp[0].price)
    modifies book
    ensures book.Valid()
    ensures book.orderIndex == old(book.orderIndex)
    ensures SameLadders(old(book.bids), book.bids, order.price) && SameLadders(old(book.asks), book.asks, order.price)
    ensures book.bidOrderCount == old(book.bidOrderCount) && book.askOrderCount == old(book.askOrderCount)
    ensures book.nextTradeId == old(book.nextTradeId) && book.tradeCount == old(book.tradeCount)
    ensures book.totalVolume == old(book.totalVolume) && book.lastTradePrice == old(book.lastTradePrice)
  {
    hide BookSpec.AddOrder, BookSpec.CancelOrder, ValidBook, WellFormed, Coherent, SameLadders, SameExceptPositions,
         AllBound, Acceptable, Resting;
    AddThenCancel(book.State(), order, ts, ts');
    ghost var bids, asks, index := book.bids, book.asks, book.orderIndex;
    var added := book.AddOrder(order, ts);
    var cancelled := book.CancelOrder(order.id, ts');
    RepresentationFollows(bids, asks, index, book.bids, book.asks, book.orderIndex, order.price);
  }
}
