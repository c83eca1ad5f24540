/** The simple limit order book: the same ladders and index, a shorter matching loop. */
module OrderBooks {
  import opened Types
  import opened Ladder
  import opened SimpleBookSpec

  ghost function Prepend(trades: seq<Trade>, r: SimpleSweep): SimpleSweep {
    SimpleSweep(trades + r.trades, r.rest, r.remaining)
  }

  lemma MatchStep(
      trades: seq<Trade>, o: BookOrder, rest: seq<BookOrder>, incoming: BookOrder, remaining: int,
      symbol: Symbol, ts: Timestamp)
    requires remaining > 0 && !Stops(incoming, o.price)
    ensures var qty := Min(remaining, o.body.qty);
            Prepend(trades, Match([o] + rest, incoming, remaining, symbol, ts)) ==
            Prepend(trades + [SimpleTrade(o, incoming, symbol, qty, ts)],
                    Match(if qty == o.body.qty then rest else [Reduce(o, qty)] + rest,
                          incoming, remaining - qty, symbol, ts))
  {
    var qty := Min(remaining, o.body.qty);
    var t := SimpleTrade(o, incoming, symbol, qty, ts);
    assert ([o] + rest)[1..] == rest;
    if qty == o.body.qty {
      var r := Match(rest, incoming, remaining - qty, symbol, ts);
      Associate(trades, [t], r.trades);
    } else {
      assert [t] + [] == [t] && trades + [t] + [] == trades + [t];
    }
  }

  lemma MatchStopped(
      levels: seq<Level<SimpleBody>>, side: Side, incoming: BookOrder, remaining: int, symbol: Symbol, ts: Timestamp)
    requires WellFormed(side, levels)
    requires remaining <= 0 || |levels| == 0 || Stops(incoming, levels[0].price)
    ensures Match(Flat(levels), incoming, remaining, symbol, ts) == SimpleSweep([], Flat(levels), remaining)
  {
    if |levels| > 0 {
      assert LevelOk(side, levels[0]);
    }
  }

  ghost predicate Uniform(side: Side, price: int, queue: seq<BookOrder>) {
    forall j | 0 <= j < |queue| :: queue[j].price == price && queue[j].side == side
  }

  lemma FrontLevel(side: Side, levels: seq<Level<SimpleBody>>)
    requires WellFormed(side, levels) && |levels| > 0
    ensures Flat(levels) == levels[0].queue + Flat(levels[1..])
    ensures Uniform(side, levels[0].price, levels[0].queue) && |levels[0].queue| > 0
  {
    assert LevelOk(side, levels[0]);
  }

  lemma SetFront(side: Side, levels: seq<Level<SimpleBody>>, queue: seq<BookOrder>)
    requires WellFormed(side, levels) && |levels| > 0 && Uniform(side, levels[0].price, queue)
    ensures WellFormed(side, SetQueue(levels, 0, queue))
    ensures Flat(SetQueue(levels, 0, queue)) == queue + Flat(levels[1..])
  {
    SetQueueRefines(side, levels, 0, queue);
    assert levels[..0] == [] && [] + queue == queue;
  }

  lemma FrontUniform(side: Side, price: int, o: BookOrder, rest: seq<BookOrder>, left: BookOrder)
    requires Uniform(side, price, [o] + rest) && left.price == o.price && left.side == o.side
    ensures Uniform(side, price, rest) && Uniform(side, price, [left] + rest)
    ensures o.price == price && o.side == side
  {
    assert ([o] + rest)[0] == o && forall j | 0 <= j < |rest| :: rest[j] == ([o] + rest)[j + 1];
  }

  lemma EraseFront(index: map<OrderId, Location>, side: Side, o: BookOrder, rest: seq<BookOrder>, other: seq<BookOrder>)
    requires Coherent(index, Whole(side, [o] + rest, other))
    ensures Coherent(index - {o.id}, Whole(side, rest, other))
  {
    hide Coherent, Whole;
    assert [] + ([o] + rest) == [o] + rest && [] + rest == rest;
    WholeErase(index, side, [], o, rest, other);
  }

  lemma RewriteFront(
      index: map<OrderId, Location>, side: Side, o: BookOrder, left: BookOrder,
      rest: seq<BookOrder>, other: seq<BookOrder>)
    requires Coherent(index, Whole(side, [o] + rest, other))
    requires left.id == o.id && left.side == o.side && left.price == o.price
    ensures Coherent(index, Whole(side, [left] + rest, other))
  {
    hide Coherent, Whole;
    WholeRewrite(index, side, [o] + rest, [left] + rest, other);
  }

  /** A second node with a queued id ruins the index whatever the index says. */
  lemma DuplicateRuinsIndex(index: map<OrderId, Location>, s: seq<BookOrder>, o: BookOrder, other: seq<BookOrder>)
    requires Queued(s, o.id) || Queued(other, o.id)
    ensures !Coherent(index, Whole(o.side, Insert(s, o), other))
  {
    var k := Place(o.side, s, o.price);
    var w := Whole(o.side, Insert(s, o), other);
    var base := if o.side.Buy? then 0 else |other|;
    assert w[base + k] == o;
    if Queued(s, o.id) {
      var i :| 0 <= i < |s| && s[i].id == o.id;
      assert w[base + if i < k then i else i + 1] == s[i];
    } else {
      var i :| 0 <= i < |other| && other[i].id == o.id;
      assert w[if o.side.Buy? then |s| + 1 + i else i] == other[i];
    }
  }

  lemma FindAt(side: Side, levels: seq<Level<SimpleBody>>, k: nat)
    requires WellFormed(side, levels) && k < |levels|
    ensures Find(levels, levels[k].price) == k
  {
    var k0 := Find(levels, levels[k].price);
    assert k0 < k ==> Better(side, levels[k0].price, levels[k].price);
  }

  lemma LevelUniform(side: Side, levels: seq<Level<SimpleBody>>, k: nat)
    requires WellFormed(side, levels) && k < |levels|
    ensures Uniform(side, levels[k].price, levels[k].queue)
    ensures forall i | 0 <= i < |levels[k].queue| :: Uniform(side, levels[k].price, RemoveAt(levels[k].queue, i))
  {
    assert LevelOk(side, levels[k]);
  }

  lemma Locate(side: Side, levels: seq<Level<SimpleBody>>, j: nat)
    requires WellFormed(side, levels) && Distinct(Flat(levels)) && j < |Flat(levels)|
    ensures var o := Flat(levels)[j];
            var k := Find(levels, o.price);
            && k < |levels| && Pos(levels[k].queue, o.id) < |levels[k].queue|
            && (var queue := RemoveAt(levels[k].queue, Pos(levels[k].queue, o.id));
                && Uniform(side, levels[k].price, queue)
                && Flat(levels[..k]) + queue + Flat(levels[k + 1..]) == RemoveAt(Flat(levels), j))
  {
    hide Flat, Distinct, Ordered, LevelOk;
    var o := Flat(levels)[j];
    var k := FlatFrom(side, levels, j);
    FindAt(side, levels, k);
    FlatSplit(levels, k);
    var i := Pos(levels[k].queue, o.id);
    LevelUniform(side, levels, k);
    PosInMiddle(Flat(levels[..k]), levels[k].queue, Flat(levels[k + 1..]), i);
    PosIs(Flat(levels), j);
  }

  class OrderBook {
    const symbol: Symbol
    var bids: seq<Level<SimpleBody>>
    var asks: seq<Level<SimpleBody>>
    var orderIndex: map<OrderId, Location>

    ghost function State(): SimpleBook
      reads this
    {
      SimpleBook(symbol, Flat(bids), Flat(asks))
    }

    ghost function LadderOf(side: Side): seq<Level<SimpleBody>>
      reads this
    {
      if side.Buy? then bids else asks
    }

    ghost predicate Ladders()
      reads this
    {
      WellFormed(Buy, bids) && WellFormed(Sell, asks)
    }

    ghost predicate Valid()
      reads this
    {
      Ladders() && Coherent(orderIndex, Flat(bids) + Flat(asks))
    }

    constructor (symbol: Symbol)
      ensures Valid() && State() == SimpleBook(symbol, [], [])
    {
      this.symbol := symbol;
      bids, asks, orderIndex := [], [], map[];
    }

    lemma SideFacts(side: Side)
      requires Valid()
      ensures WellFormed(side, LadderOf(side)) && WellFormed(side.Opposite(), LadderOf(side.Opposite()))
      ensures Coherent(orderIndex, Whole(side, Flat(LadderOf(side)), Flat(LadderOf(side.Opposite()))))
      ensures Distinct(Flat(LadderOf(side)))
    {
      hide WellFormed;
      DistinctParts(Flat(bids), Flat(asks));
    }

    lemma InIndex(id: OrderId)
      requires Valid()
      ensures id in orderIndex <==> Holds(State(), id)
    {
      QueuedConcat(Flat(bids), Flat(asks), id);
      assert id in orderIndex <==> Queued(Flat(bids) + Flat(asks), id);
    }

    /** Stores a side whose index entries are in place. */
    method Store(side: Side, levels: seq<Level<SimpleBody>>, ghost other: seq<BookOrder>)
      requires WellFormed(side, levels) && WellFormed(side.Opposite(), LadderOf(side.Opposite()))
      requires other == Flat(LadderOf(side.Opposite()))
      modifies this`bids, this`asks
      ensures Ladders() && State() == WithSimpleSide(old(State()), side, Flat(levels))
      ensures Valid() <==> Coherent(orderIndex, Whole(side, Flat(levels), other))
    {
      if side.Buy? {
        bids := levels;
      } else {
        asks := levels;
      }
    }

    /** Queues an order without matching. The ladders take it in price-time order always; the index
        stays right exactly when the id was not queued yet, which the code does not check. */
    method AddOrder(o: BookOrder)
      requires Valid()
      modifies this
      ensures Ladders() && State() == Add(old(State()), o)
      ensures Valid() <==> !old(Holds(State(), o.id))
    {
      hide Coherent, WellFormed, Flat, Valid, Holds, Insert, Ladders;
      var side := o.side;
      var levels := if side.Buy? then bids else asks;
      ghost var other := Flat(LadderOf(side.Opposite()));
      SideFacts(side);
      InIndex(o.id);
      AddFacts(levels, o, other);
      var ladder := Open(side, levels, o.price);
      var k := LowerBound(side, levels, o.price);
      orderIndex := orderIndex[o.id := Location(side, o.price, o.id)];
      Store(side, ladder[k := Level(o.price, ladder[k].queue + [o])], other);
    }

    lemma AddFacts(levels: seq<Level<SimpleBody>>, o: BookOrder, other: seq<BookOrder>)
      requires Valid() && levels == LadderOf(o.side) && other == Flat(LadderOf(o.side.Opposite()))
      ensures WellFormed(o.side, Push(levels, o)) && Flat(Push(levels, o)) == Insert(Flat(levels), o)
      ensures Coherent(orderIndex[o.id := Location(o.side, o.price, o.id)], Whole(o.side, Flat(Push(levels, o)), other))
              <==> !Holds(State(), o.id)
    {
      hide Coherent, WellFormed, Flat;
      PushRefines(levels, o);
      SideFacts(o.side);
      InIndex(o.id);
      if Holds(State(), o.id) {
        DuplicateRuinsIndex(orderIndex[o.id := Location(o.side, o.price, o.id)], Flat(levels), o, other);
      } else {
        WholeInsert(orderIndex, Flat(levels), o, other);
      }
    }

    /** Removes an order through its index entry. */
    method CancelOrder(id: OrderId) returns (found: bool)
      requires Valid()
      modifies this
      ensures Valid()
      ensures found <==> old(Holds(State(), id))
      ensures State() == Cancel(old(State()), id)
    {
      hide Coherent, WellFormed, Flat, Valid, Holds, Ladders, Distinct, Queued;
      InIndex(id);
      if id !in orderIndex {
        NotHeld(id);
        return false;
      }
      var loc := orderIndex[id];
      CancelFacts(id);
      var levels := if loc.side.Buy? then bids else asks;
      ghost var other := Flat(LadderOf(loc.side.Opposite()));
      var k := Find(levels, loc.price);
      var queue := RemoveAt(levels[k].queue, Pos(levels[k].queue, loc.it));
      orderIndex := orderIndex - {id};
      Store(loc.side, SetQueue(levels, k, queue), other);
      found := true;
    }

    lemma NotHeld(id: OrderId)
      requires Valid() && !Holds(State(), id)
      ensures Cancel(State(), id) == State()
    {
    }

    lemma CancelFacts(id: OrderId)
      requires Valid() && id in orderIndex
      ensures var loc := orderIndex[id];
              var levels, other := LadderOf(loc.side), Flat(LadderOf(loc.side.Opposite()));
              var k := Find(levels, loc.price);
              && loc.it == id && k < |levels| && Pos(levels[k].queue, id) < |levels[k].queue|
              && WellFormed(loc.side.Opposite(), LadderOf(loc.side.Opposite()))
              && (var after := SetQueue(levels, k, RemoveAt(levels[k].queue, Pos(levels[k].queue, id)));
                  && WellFormed(loc.side, after)
                  && Coherent(orderIndex - {id}, Whole(loc.side, Flat(after), other))
                  && WithSimpleSide(State(), loc.side, Flat(after)) == Cancel(State(), id))
    {
      hide Flat, WellFormed, Coherent, Queued, Distinct;
      InIndex(id);
      var side := if Queued(State().bids, id) then Buy else Sell;
      var s := SimpleSide(State(), side);
      HeldAt(s, id);
      IndexEntry(side, Pos(s, id));
      SideFacts(side);
      EraseFacts(side, LadderOf(side), Pos(s, id), Flat(LadderOf(side.Opposite())), orderIndex);
    }

    static lemma HeldAt(s: seq<BookOrder>, id: OrderId)
      requires Queued(s, id)
      ensures Pos(s, id) < |s| && s[Pos(s, id)].id == id
    {
    }

    static lemma EraseFacts(
        side: Side, levels: seq<Level<SimpleBody>>, j: nat, other: seq<BookOrder>, index: map<OrderId, Location>)
      requires WellFormed(side, levels) && Distinct(Flat(levels)) && j < |Flat(levels)|
      requires Coherent(index, Whole(side, Flat(levels), other))
      ensures var o := Flat(levels)[j];
              var k := Find(levels, o.price);
              && k < |levels| && Pos(levels[k].queue, o.id) < |levels[k].queue|
              && (var after := SetQueue(levels, k, RemoveAt(levels[k].queue, Pos(levels[k].queue, o.id)));
                  && WellFormed(side, after)
                  && Flat(after) == RemoveAt(Flat(levels), j)
                  && Coherent(index - {o.id}, Whole(side, Flat(after), other)))
    {
      hide Flat, WellFormed, Coherent, Distinct;
      var s := Flat(levels);
      Locate(side, levels, j);
      var k := Find(levels, s[j].price);
      SetQueueRefines(side, levels, k, RemoveAt(levels[k].queue, Pos(levels[k].queue, s[j].id)));
      assert s == s[..j] + ([s[j]] + s[j + 1..]);
      WholeErase(index, side, s[..j], s[j], s[j + 1..], other);
    }

    lemma IndexEntry(side: Side, j: nat)
      requires Valid() && j < |Flat(LadderOf(side))|
      ensures var o := Flat(LadderOf(side))[j];
              && o.id in orderIndex && orderIndex[o.id] == Location(o.side, o.price, o.id) && o.side == side
    {
      hide Distinct, Flat, Ordered, LevelOk;
      var s := Flat(bids) + Flat(asks);
      var at := if side.Buy? then j else |Flat(bids)| + j;
      assert s[at] == Flat(LadderOf(side))[j];
      FlatSorted(side, LadderOf(side));
    }

    /** Matches an incoming order: always the front order of the best level, until nothing remains,
        the side is empty, or a limit order meets a price it does not accept. */
    method MatchIncoming(incoming: BookOrder, ts: Timestamp) returns (trades: seq<Trade>, remaining: int)
      requires Valid()
      modifies this
      ensures Valid()
      ensures var r := Incoming(old(State()), incoming, ts);
              && trades == r.trades && remaining == r.remaining
              && State() == WithSimpleSide(old(State()), incoming.side.Opposite(), r.rest)
    {
      hide Coherent, WellFormed, Flat, Valid, Match, Uniform, Ladders, Prepend, Stops;
      var side := incoming.side.Opposite();
      SideFacts(side);
      var levels := if side.Buy? then bids else asks;
      ghost var other := Flat(LadderOf(side.Opposite()));
      ghost var all := Match(Flat(levels), incoming, incoming.body.qty, symbol, ts);
      trades, remaining := [], incoming.body.qty;
      PrependNothing(all);
      while remaining > 0 && |levels| != 0
        invariant WellFormed(side, levels)
        invariant Prepend(trades, Match(Flat(levels), incoming, remaining, symbol, ts)) == all
        invariant Coherent(orderIndex, Whole(side, Flat(levels), other))
        invariant bids == old(bids) && asks == old(asks)
        decreases |levels|, remaining
      {
        var price := levels[0].price;
        if Stops(incoming, price) {
          break;
        }
        FrontLevel(side, levels);
        ghost var below := Flat(levels[1..]);
        var queue, made, left :=
          MatchQueue(side, price, levels[0].queue, incoming, remaining, trades, ts, below, other);
        SetFront(side, levels, queue);
        levels := SetQueue(levels, 0, queue);
        trades, remaining := made, left;
      }
      MatchStopped(levels, side, incoming, remaining, symbol, ts);
      PrependDone(trades, Flat(levels), remaining);
      Store(side, levels, other);
    }

    static lemma PrependNothing(r: SimpleSweep)
      ensures Prepend([], r) == r
    {
    }

    static lemma PrependDone(trades: seq<Trade>, s: seq<BookOrder>, remaining: int)
      ensures Prepend(trades, SimpleSweep([], s, remaining)) == SimpleSweep(trades, s, remaining)
    {
      assert trades + [] == trades;
    }

    /** The inner loop: trades with the front of one queue. */
    method MatchQueue(
        side: Side, price: int, queue0: seq<BookOrder>, incoming: BookOrder, remaining0: int,
        trades0: seq<Trade>, ts: Timestamp,
        ghost below: seq<BookOrder>, ghost other: seq<BookOrder>)
      returns (queue: seq<BookOrder>, trades: seq<Trade>, remaining: int)
      requires !Stops(incoming, price) && Uniform(side, price, queue0)
      requires Coherent(orderIndex, Whole(side, queue0 + below, other))
      modifies this`orderIndex
      ensures Uniform(side, price, queue) && (remaining <= 0 || queue == [])
      ensures Coherent(orderIndex, Whole(side, queue + below, other))
      ensures Prepend(trades, Match(queue + below, incoming, remaining, symbol, ts)) ==
              Prepend(trades0, Match(queue0 + below, incoming, remaining0, symbol, ts))
    {
      hide Coherent, Match, Uniform, Prepend, Stops, Whole;
      queue, trades, remaining := queue0, trades0, remaining0;
      ghost var all := Prepend(trades0, Match(queue0 + below, incoming, remaining0, symbol, ts));
      while remaining > 0 && |queue| != 0
        invariant Uniform(side, price, queue)
        invariant Coherent(orderIndex, Whole(side, queue + below, other))
        invariant Prepend(trades, Match(queue + below, incoming, remaining, symbol, ts)) == all
        decreases |queue|, remaining
      {
        var resting := queue[0];
        ghost var rest := queue[1..];
        assert queue == [resting] + rest;
        Associate([resting], rest, below);
        var matchedQty := Min(remaining, resting.body.qty);
        var left := resting.(body := resting.body.(qty := resting.body.qty - matchedQty));
        FrontUniform(side, price, resting, rest, left);
        MatchStep(trades, resting, rest + below, incoming, remaining, symbol, ts);
        trades := trades + [Trade(0, resting.id, incoming.id, 0, 0, symbol, incoming.side, price, matchedQty, ts)];
        remaining := remaining - matchedQty;
        if left.body.qty == 0 {
          EraseFront(orderIndex, side, resting, rest + below, other);
          orderIndex := orderIndex - {resting.id};
          queue := queue[1..];
        } else {
          Associate([left], rest, below);
          RewriteFront(orderIndex, side, resting, left, rest + below, other);
          queue := [left] + queue[1..];
        }
      }
    }

    // ---------- Queries ----------

    static method Summarize(level: Level<SimpleBody>) returns (r: BookLevel)
      ensures r == SimpleSummary(level)
    {
      var total := 0;
      for i := 0 to |level.queue|
        invariant total == Total(level.queue[..i])
      {
        TotalSnoc(level.queue, i);
        total := total + level.queue[i].body.qty;
      }
      assert level.queue[..|level.queue|] == level.queue;
      r := BookLevel(level.price, total, 0);
    }

    static method SummarizeFirst(levels: seq<Level<SimpleBody>>, depth: nat) returns (r: seq<BookLevel>)
      ensures r == SimpleSummaries(levels)[..Min(depth, |levels|)]
    {
      hide SimpleSummary;
      r := [];
      var count := 0;
      while count < |levels|
        invariant count <= |levels| && count <= depth && |r| == count
        invariant forall i | 0 <= i < count :: r[i] == SimpleSummary(levels[i])
      {
        if count >= depth { break; }
        var level := Summarize(levels[count]);
        r := r + [level];
        count := count + 1;
      }
    }

    /** Up to `depth` levels of a side, best first, read off the flat state. */
    method Depth(side: Side, depth: nat) returns (r: seq<BookLevel>)
      requires Valid()
      ensures var all := SimpleSummaries(Group(SimpleSide(State(), side))); r == all[..Min(depth, |all|)]
    {
      hide Coherent, Group, WellFormed;
      GroupFlat(side, LadderOf(side));
      var levels := if side.Buy? then bids else asks;
      r := SummarizeFirst(levels, depth);
    }
  }
}
