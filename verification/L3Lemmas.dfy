/** Steps of the refinement proof of the L3 order book: what one loop iteration does to the fold,
    the index and the queue positions. */
module L3Lemmas {
  import opened Types
  import opened Arithmetic
  import opened Ladder
  import opened BookSpec
  import opened BookTheorems

  // ---------- Matching, one step at a time ----------

  /** The fold so far: trades made, orders already passed over, and the fold of what is left. */
  ghost function Joined(trades: seq<Trade>, kept: seq<L3Order>, r: Sweep): Sweep {
    Sweep(trades + r.trades, kept + r.rest, r.remaining)
  }

  lemma JoinedStep(
      trades: seq<Trade>, kept: seq<L3Order>, o: L3Order, rest: seq<L3Order>,
      incoming: Order, remaining: int, symbol: Symbol, id: nat, ts: Timestamp)
    requires remaining > 0 && Acceptable(incoming, o.price)
    ensures var qty := Min(remaining, Available(o));
            var left := Fill(o, qty);
            Joined(trades, kept, Consume([o] + rest, incoming, remaining, symbol, id, ts)) ==
            Joined(trades + [TradeOf(o, incoming, symbol, qty, id, ts)],
                   if Available(left) == 0 then kept else kept + [left],
                   Consume(rest, incoming, remaining - qty, symbol, id + 1, ts))
  {
    assert ([o] + rest)[1..] == rest;
    var qty := Min(remaining, Available(o));
    var r := Consume(rest, incoming, remaining - qty, symbol, id + 1, ts);
    assert trades + ([TradeOf(o, incoming, symbol, qty, id, ts)] + r.trades) ==
           trades + [TradeOf(o, incoming, symbol, qty, id, ts)] + r.trades;
    assert kept + ([Fill(o, qty)] + r.rest) == kept + [Fill(o, qty)] + r.rest;
    assert kept + ([] + r.rest) == kept + r.rest;
  }

  // ---------- Queue positions ----------

  /** Stored queue positions never understate how many orders are ahead in the level. */
  ghost predicate PositionsBound(queue: seq<L3Order>) {
    forall j | 0 <= j < |queue| :: queue[j].body.queuePos >= j
  }

  ghost predicate AllBound(levels: seq<Level<L3Body>>) {
    forall i | 0 <= i < |levels| :: PositionsBound(levels[i].queue)
  }

  ghost predicate Uniform(side: Side, price: int, queue: seq<L3Order>) {
    forall j | 0 <= j < |queue| :: queue[j].price == price && queue[j].side == side
  }

  ghost predicate QueueOk(side: Side, price: int, queue: seq<L3Order>) {
    Uniform(side, price, queue) && PositionsBound(queue)
  }

  lemma QueueMember(side: Side, price: int, queue: seq<L3Order>, i: nat)
    requires QueueOk(side, price, queue) && i < |queue|
    ensures queue[i].side == side && queue[i].price == price
  {
  }

  lemma QueueErase(side: Side, price: int, kept: seq<L3Order>, o: L3Order, tail: seq<L3Order>)
    requires QueueOk(side, price, kept + ([o] + tail))
    ensures QueueOk(side, price, kept + tail)
    ensures RemoveAt(kept + ([o] + tail), |kept|) == kept + tail
  {
    var s, t := kept + ([o] + tail), kept + tail;
    assert forall j | 0 <= j < |t| :: t[j] == s[if j < |kept| then j else j + 1];
  }

  lemma QueueUpdate(side: Side, price: int, kept: seq<L3Order>, o: L3Order, left: L3Order, tail: seq<L3Order>)
    requires QueueOk(side, price, kept + ([o] + tail))
    requires left.price == o.price && left.side == o.side && left.body.queuePos == o.body.queuePos
    ensures QueueOk(side, price, (kept + [left]) + tail)
    ensures (kept + ([o] + tail))[|kept| := left] == (kept + [left]) + tail
  {
    var s, t := kept + ([o] + tail), (kept + [left]) + tail;
    assert s[|kept|] == o && t[|kept|] == left;
    assert forall j | 0 <= j < |t| && j != |kept| :: t[j] == s[j];
  }

  function Renumbered(queue: seq<L3Order>): seq<L3Order> {
    seq(|queue|, i requires 0 <= i < |queue| => queue[i].(body := queue[i].body.(queuePos := i)))
  }

  lemma {:induction false} RenumberElsewhere(s: seq<L3Order>, price: int, pos: nat, t: seq<L3Order>)
    requires forall i | 0 <= i < |s| :: s[i].price != price
    ensures Renumber(s + t, price, pos) == s + Renumber(t, price, pos)
  {
    if |s| == 0 {
      assert s + t == t;
    } else {
      assert (s + t)[1..] == s[1..] + t;
      RenumberElsewhere(s[1..], price, pos, t);
    }
  }

  lemma {:induction false} RenumberLevel(queue: seq<L3Order>, price: int, pos: nat, t: seq<L3Order>)
    requires forall i | 0 <= i < |queue| :: queue[i].price == price
    ensures Renumber(queue + t, price, pos) ==
            seq(|queue|, i requires 0 <= i < |queue| => queue[i].(body := queue[i].body.(queuePos := pos + i)))
            + Renumber(t, price, pos + |queue|)
  {
    if |queue| == 0 {
      assert queue + t == t;
    } else {
      assert (queue + t)[1..] == queue[1..] + t;
      RenumberLevel(queue[1..], price, pos + 1, t);
    }
  }

  lemma RenumberFlat(a: seq<L3Order>, queue: seq<L3Order>, b: seq<L3Order>, side: Side, price: int)
    requires AllBetter(side, a, price) && AllWorse(side, b, price)
    requires forall i | 0 <= i < |queue| :: queue[i].price == price
    ensures Renumber(a + queue + b, price, 0) == a + Renumbered(queue) + b
  {
    RenumberElsewhere(a, price, 0, queue + b);
    RenumberLevel(queue, price, 0, b);
    RenumberElsewhere(b, price, |queue|, []);
    assert b + [] == b;
    assert a + queue + b == a + (queue + b);
    assert Renumbered(queue) ==
           seq(|queue|, i requires 0 <= i < |queue| => queue[i].(body := queue[i].body.(queuePos := 0 + i)));
  }

  ghost function LastPrice(tape: seq<Trade>): int {
    if |tape| == 0 then 0 else tape[|tape| - 1].price
  }

  lemma EmptyIsIndexed()
    ensures Coherent(map[], Whole<L3Body>(Buy, [], []))
  {
  }

  lemma EmptyIsWellFormed(side: Side)
    ensures WellFormed<L3Body>(side, []) && AllBound([]) && Flat<L3Body>([]) == []
  {
  }

  lemma LevelStart(side: Side, levels: seq<Level<L3Body>>, k: nat)
    requires WellFormed(side, levels) && AllBound(levels) && k < |levels|
    ensures QueueOk(side, levels[k].price, levels[k].queue)
    ensures Flat(levels) == Flat(levels[..k]) + (levels[k].queue + Flat(levels[k + 1..]))
  {
    FlatSplit(levels, k);
    Associate(Flat(levels[..k]), levels[k].queue, Flat(levels[k + 1..]));
  }

  /** The fold has nothing left to do where the loop stopped. */
  lemma Stopped(
      side: Side, levels: seq<Level<L3Body>>, k: nat, trades: seq<Trade>,
      incoming: Order, remaining: int, symbol: Symbol, id: nat, ts: Timestamp)
    requires WellFormed(side, levels) && k <= |levels|
    requires remaining <= 0 || k == |levels| || !Acceptable(incoming, levels[k].price)
    ensures Joined(trades, Flat(levels[..k]), Consume(Flat(levels[k..]), incoming, remaining, symbol, id, ts)) ==
            Sweep(trades, Flat(levels), remaining)
  {
    if k < |levels| {
      FlatSplit(levels, k);
      assert LevelOk(side, levels[k]);
    }
    FlatConcat(levels[..k], levels[k..]);
    assert levels == levels[..k] + levels[k..] && trades + [] == trades;
  }

  lemma TailUntouched(
      tail: seq<L3Order>, below: seq<L3Order>, incoming: Order, left: int, symbol: Symbol, id: nat, ts: Timestamp)
    requires left <= 0 || tail == []
    ensures var r := Consume(below, incoming, left, symbol, id, ts);
            Consume(tail + below, incoming, left, symbol, id, ts) == Sweep(r.trades, tail + r.rest, r.remaining)
  {
    if left > 0 {
      assert tail + below == below;
    }
  }

  lemma FlatAfter(levels: seq<Level<L3Body>>, k: nat, queue: seq<L3Order>)
    requires k < |levels|
    ensures var after, next := SetQueue(levels, k, queue), if |queue| == 0 then k else k + 1;
            Flat(after[..next]) == Flat(levels[..k]) + queue && Flat(after[next..]) == Flat(levels[k + 1..])
  {
    var after := SetQueue(levels, k, queue);
    if |queue| == 0 {
      assert after[..k] == levels[..k] && after[k..] == levels[k + 1..];
    } else {
      FlatSplit(after[..k + 1], k);
      assert after[..k + 1][..k] == levels[..k] && after[..k + 1][k + 1..] == [];
      assert after[k + 1..] == levels[k + 1..];
    }
  }

  lemma FoldMoves(
      levels: seq<Level<L3Body>>, k: nat, kept: seq<L3Order>, tail: seq<L3Order>, trades: seq<Trade>, made: seq<Trade>,
      incoming: Order, remaining: int, left: int, symbol: Symbol, id: nat, nextId: nat, ts: Timestamp)
    requires k < |levels| && (left <= 0 || tail == [])
    requires var below := Flat(levels[k + 1..]);
             Joined(made, kept, Consume(tail + below, incoming, left, symbol, nextId, ts)) ==
             Consume(levels[k].queue + below, incoming, remaining, symbol, id, ts)
    ensures var queue := kept + tail;
            var after, next := SetQueue(levels, k, queue), if |queue| == 0 then k else k + 1;
            Joined(trades + made, Flat(after[..next]),
                   Consume(Flat(after[next..]), incoming, left, symbol, nextId, ts)) ==
            Joined(trades, Flat(levels[..k]), Consume(Flat(levels[k..]), incoming, remaining, symbol, id, ts))
  {
    hide Consume;
    var above, below := Flat(levels[..k]), Flat(levels[k + 1..]);
    var r := Consume(below, incoming, left, symbol, nextId, ts);
    FlatSplit(levels, k);
    TailUntouched(tail, below, incoming, left, symbol, nextId, ts);
    Associate(trades, made, r.trades);
    Associate(kept, tail, r.rest);
    Associate(above, kept + tail, r.rest);
    FlatAfter(levels, k, kept + tail);
  }

  lemma SetQueueOk(side: Side, levels: seq<Level<L3Body>>, k: nat, queue: seq<L3Order>)
    requires WellFormed(side, levels) && AllBound(levels) && k < |levels| && QueueOk(side, levels[k].price, queue)
    ensures WellFormed(side, SetQueue(levels, k, queue)) && AllBound(SetQueue(levels, k, queue))
    ensures Flat(SetQueue(levels, k, queue)) == Flat(levels[..k]) + queue + Flat(levels[k + 1..])
  {
    SetQueueRefines(side, levels, k, queue);
  }

  /** Finishing a level moves the fold past it. */
  lemma LevelDone(
      side: Side, levels: seq<Level<L3Body>>, k: nat, kept: seq<L3Order>, tail: seq<L3Order>,
      trades: seq<Trade>, made: seq<Trade>,
      incoming: Order, remaining: int, left: int, symbol: Symbol, id: nat, nextId: nat, ts: Timestamp)
    requires WellFormed(side, levels) && AllBound(levels) && k < |levels|
    requires QueueOk(side, levels[k].price, kept + tail) && (left <= 0 || tail == [])
    requires var below := Flat(levels[k + 1..]);
             Joined(made, kept, Consume(tail + below, incoming, left, symbol, nextId, ts)) ==
             Consume(levels[k].queue + below, incoming, remaining, symbol, id, ts)
    ensures var queue := kept + tail;
            var after, next := SetQueue(levels, k, queue), if |queue| == 0 then k else k + 1;
            && Joined(trades + made, Flat(after[..next]),
                      Consume(Flat(after[next..]), incoming, left, symbol, nextId, ts)) ==
               Joined(trades, Flat(levels[..k]), Consume(Flat(levels[k..]), incoming, remaining, symbol, id, ts))
            && WellFormed(side, after) && AllBound(after)
            && Flat(after) == (Flat(levels[..k]) + kept) + (tail + Flat(levels[k + 1..]))
  {
    FoldMoves(levels, k, kept, tail, trades, made, incoming, remaining, left, symbol, id, nextId, ts);
    SetQueueOk(side, levels, k, kept + tail);
    var above, below := Flat(levels[..k]), Flat(levels[k + 1..]);
    Associate(above, kept, tail);
    Associate(above + kept, tail, below);
  }

  // ---------- The fill-or-kill scan ----------

  lemma {:induction false} LiquidityOfLevel(queue: seq<L3Order>, rest: seq<L3Order>, order: Order)
    requires forall i | 0 <= i < |queue| :: Acceptable(order, queue[i].price)
    ensures Liquidity(queue + rest, order) == TotalAvailable(queue) + Liquidity(rest, order)
  {
    if |queue| == 0 {
      assert queue + rest == rest;
    } else {
      assert (queue + rest)[1..] == queue[1..] + rest;
      LiquidityOfLevel(queue[1..], rest, order);
    }
  }

  lemma {:induction false} LiquidityIsNatural(s: seq<L3Order>, order: Order)
    requires AllOk(s)
    ensures Liquidity(s, order) >= 0
  {
    if |s| > 0 {
      LiquidityIsNatural(s[1..], order);
    }
  }

  lemma {:induction false} TotalSnoc(s: seq<L3Order>, i: nat)
    requires i < |s|
    ensures TotalAvailable(s[..i + 1]) == TotalAvailable(s[..i]) + Available(s[i])
  {
    if i > 0 {
      TotalSnoc(s[1..], i - 1);
      assert s[..i + 1][1..] == s[1..][..i] && s[..i][1..] == s[1..][..i - 1];
    } else {
      assert s[..1] == [s[0]];
    }
  }

  lemma RestIsOk(a: seq<L3Order>, b: seq<L3Order>)
    requires AllOk(a + b)
    ensures AllOk(b)
  {
    assert forall i | 0 <= i < |b| :: b[i] == (a + b)[|a| + i];
  }

  // ---------- Cancelling ----------

  lemma LevelReached(queue: seq<L3Order>, below: seq<L3Order>, price: int, order: Order)
    requires |queue| > 0 && forall i | 0 <= i < |queue| :: queue[i].price == price
    ensures Liquidity(queue + below, order) ==
            if Acceptable(order, price) then TotalAvailable(queue) + Liquidity(below, order) else 0
  {
    hide Acceptable;
    assert (queue + below)[0] == queue[0];
    if Acceptable(order, price) {
      LiquidityOfLevel(queue, below, order);
    }
  }

  /** One level of the fill-or-kill scan: its liquidity and what lies below, or nothing when it is out of reach. */
  lemma LevelLiquidity(side: Side, levels: seq<Level<L3Body>>, k: nat, order: Order)
    requires WellFormed(side, levels) && k < |levels| && AllOk(Flat(levels[k..]))
    ensures AllOk(Flat(levels[k + 1..])) && Liquidity(Flat(levels[k + 1..]), order) >= 0
    ensures Liquidity(Flat(levels[k..]), order) ==
            if Acceptable(order, levels[k].price)
            then TotalAvailable(levels[k].queue) + Liquidity(Flat(levels[k + 1..]), order) else 0
  {
    hide Ordered, Liquidity, TotalAvailable, OrderOk, Acceptable;
    FlatSplit(levels, k);
    assert LevelOk(side, levels[k]);
    var queue, below := levels[k].queue, Flat(levels[k + 1..]);
    RestIsOk(queue, below);
    LiquidityIsNatural(below, order);
    LevelReached(queue, below, levels[k].price, order);
  }

  lemma NoLiquidity(levels: seq<Level<L3Body>>, order: Order)
    ensures Liquidity(Flat(levels[|levels|..]), order) == 0
  {
  }

  /** Finds a queued order from its index entry. */
  lemma Locate(side: Side, levels: seq<Level<L3Body>>, price: int, id: OrderId, j: nat)
    requires WellFormed(side, levels) && j < |Flat(levels)|
    requires Flat(levels)[j].id == id && Flat(levels)[j].price == price
    ensures var k := Find(levels, price);
            && k < |levels| && levels[k].price == price
            && Pos(levels[k].queue, id) < |levels[k].queue|
  {
    var k' := FlatFrom(side, levels, j);
    var k := Find(levels, price);
    assert k == k';
    var i :| 0 <= i < |levels[k].queue| && levels[k].queue[i] == Flat(levels)[j];
  }

  /** The ladder after a cancel: the order gone, the level erased if empty and renumbered otherwise. */
  ghost function Cancelled(levels: seq<Level<L3Body>>, k: nat, i: nat): seq<Level<L3Body>>
    requires k < |levels| && i < |levels[k].queue|
  {
    SetQueue(levels, k, Renumbered(RemoveAt(levels[k].queue, i)))
  }

  lemma CancelRefines(side: Side, levels: seq<Level<L3Body>>, k: nat, i: nat)
    requires WellFormed(side, levels) && AllBound(levels) && Distinct(Flat(levels))
    requires k < |levels| && i < |levels[k].queue|
    ensures WellFormed(side, Cancelled(levels, k, i)) && AllBound(Cancelled(levels, k, i))
    ensures Queued(Flat(levels), levels[k].queue[i].id)
    ensures Flat(levels)[Pos(Flat(levels), levels[k].queue[i].id)] == levels[k].queue[i]
    ensures Flat(Cancelled(levels, k, i)) == Remove(Flat(levels), levels[k].queue[i].id)
  {
    hide Flat, Renumber;
    var queue, p := levels[k].queue, levels[k].price;
    var a, b := Flat(levels[..k]), Flat(levels[k + 1..]);
    SplitAtPrice(side, levels, k);
    PosInMiddle(a, queue, b, i);
    assert (a + queue + b)[|a| + i] == queue[i];
    RenumberFlat(a, RemoveAt(queue, i), b, side, p);
    SetQueueOk(side, levels, k, Renumbered(RemoveAt(queue, i)));
  }

  lemma WholeRemove(index: map<OrderId, Location>, side: Side, s: seq<L3Order>, id: OrderId, other: seq<L3Order>)
    requires Coherent(index, Whole(side, s, other)) && Queued(s, id)
    ensures Coherent(index - {id}, Whole(side, Remove(s, id), other))
  {
    hide Coherent;
    var k := Pos(s, id);
    assert s == s[..k] + ([s[k]] + s[k + 1..]);
    WholeErase(index, side, s[..k], s[k], s[k + 1..], other);
    RenumberKeeps(RemoveAt(s, k), s[k].price, 0);
    WholeRewrite(index - {id}, side, RemoveAt(s, k), Remove(s, id), other);
  }

  /** Pushing keeps queue positions sound: the newcomer's position is its index. */
  lemma PushBound(levels: seq<Level<L3Body>>, o: L3Order)
    requires WellFormed(o.side, levels) && AllBound(levels)
    requires o.body.queuePos == |QueueAt(o.side, levels, o.price)|
    ensures AllBound(Push(levels, o))
  {
    var k := LowerBound(o.side, levels, o.price);
    var ladder := Open(o.side, levels, o.price);
    assert AllBound(ladder) && ladder[k].queue == QueueAt(o.side, levels, o.price);
  }

  /** What pushing a remainder does to a ladder and the index. */
  lemma RestRefines(levels: seq<Level<L3Body>>, o: L3Order, index: map<OrderId, Location>, other: seq<L3Order>)
    requires WellFormed(o.side, levels) && AllBound(levels)
    requires Coherent(index, Whole(o.side, Flat(levels), other)) && o.id !in index
    requires o.body.queuePos == |QueueAt(o.side, levels, o.price)|
    ensures WellFormed(o.side, Push(levels, o)) && AllBound(Push(levels, o))
    ensures Flat(Push(levels, o)) == Insert(Flat(levels), o) && |Insert(Flat(levels), o)| == |Flat(levels)| + 1
    ensures Coherent(index[o.id := Location(o.side, o.price, o.id)], Whole(o.side, Flat(Push(levels, o)), other))
    ensures o.body.queuePos == CountAt(Flat(levels), o.price)
  {
    hide Coherent, Push, WellFormed, AllBound, Flat;
    PushRefines(levels, o);
    PushBound(levels, o);
    CountIsQueueLength(o.side, levels, o.price);
    WholeInsert(index, Flat(levels), o, other);
  }

  /** `operator[]` opens the level where find looks for it. */
  lemma OpenedAt(side: Side, levels: seq<Level<L3Body>>, price: int)
    requires WellFormed(side, levels)
    ensures var ladder, k := Open(side, levels, price), LowerBound(side, levels, price);
            Find(ladder, price) == k && k < |ladder| && ladder[k] == Level(price, QueueAt(side, levels, price))
  {
    var ladder, k := Open(side, levels, price), LowerBound(side, levels, price);
    assert ladder[k].price == price;
    assert forall i | 0 <= i < k :: ladder[i] == levels[i] && Better(side, levels[i].price, price);
  }

  // ---------- Queries ----------

  ghost function Visible(s: seq<L3Order>): int {
    if |s| == 0 then 0 else s[0].body.visible + Visible(s[1..])
  }

  lemma {:induction false} VisibleSnoc(s: seq<L3Order>, i: nat)
    requires i < |s|
    ensures Visible(s[..i + 1]) == Visible(s[..i]) + s[i].body.visible
  {
    if i > 0 {
      VisibleSnoc(s[1..], i - 1);
      assert s[..i + 1][1..] == s[1..][..i] && s[..i][1..] == s[1..][..i - 1];
    } else {
      assert s[..1] == [s[0]];
    }
  }

  lemma {:induction false} VisiblePositive(s: seq<L3Order>)
    requires AllOk(s)
    ensures Visible(s) >= |s|
  {
    if |s| > 0 {
      VisiblePositive(s[1..]);
    }
  }

  /** What a market-data reader is shown of a level: price, displayed quantity, number of orders. */
  ghost function Summary(level: Level<L3Body>): BookLevel {
    BookLevel(level.price, Visible(level.queue), |level.queue|)
  }

  ghost function Summaries(levels: seq<Level<L3Body>>): seq<BookLevel> {
    seq(|levels|, i requires 0 <= i < |levels| => Summary(levels[i]))
  }

  ghost function VisibleAt(s: seq<L3Order>, price: int): int {
    if |s| == 0 then 0 else (if s[0].price == price then s[0].body.visible else 0) + VisibleAt(s[1..], price)
  }

  /** The displayed quantity of the orders queued before `id` at its price. */
  ghost function VisibleAhead(s: seq<L3Order>, id: OrderId): int {
    var k := Pos(s, id);
    if k < |s| then VisibleAt(s[..k], s[k].price) else 0
  }

  lemma {:induction false} VisibleAtSplit(a: seq<L3Order>, q: seq<L3Order>, price: int)
    requires forall i | 0 <= i < |a| :: a[i].price != price
    requires forall i | 0 <= i < |q| :: q[i].price == price
    ensures VisibleAt(a + q, price) == Visible(q)
  {
    if |a| > 0 {
      assert (a + q)[1..] == a[1..] + q;
      VisibleAtSplit(a[1..], q, price);
    } else if |q| > 0 {
      assert a + q == q && [] + q[1..] == q[1..];
      VisibleAtSplit([], q[1..], price);
    }
  }

  lemma {:induction false} VisibleAtConcat(a: seq<L3Order>, b: seq<L3Order>, price: int)
    ensures VisibleAt(a + b, price) == VisibleAt(a, price) + VisibleAt(b, price)
  {
    if |a| == 0 {
      assert a + b == b;
    } else {
      assert (a + b)[1..] == a[1..] + b;
      VisibleAtConcat(a[1..], b, price);
    }
  }

  lemma {:induction false} VisibleElsewhere(s: seq<L3Order>, price: int)
    requires forall i | 0 <= i < |s| :: s[i].price != price
    ensures VisibleAt(s, price) == 0
  {
    if |s| > 0 {
      VisibleElsewhere(s[1..], price);
    }
  }

  /** A level's summary counts and adds up exactly the orders at its price. */
  lemma LevelShows(side: Side, levels: seq<Level<L3Body>>, k: nat)
    requires WellFormed(side, levels) && k < |levels|
    ensures var shown := Summary(levels[k]);
            && shown.price == levels[k].price
            && shown.orderCount == CountAt(Flat(levels), shown.price) > 0
            && shown.qty == VisibleAt(Flat(levels), shown.price)
  {
    hide Flat, Ordered, CountAt, VisibleAt, Visible;
    var a, queue, b, price := Flat(levels[..k]), levels[k].queue, Flat(levels[k + 1..]), levels[k].price;
    assert LevelOk(side, levels[k]);
    SplitAtPrice(side, levels, k);
    CountSplit(side, a, queue, b, price);
    VisibleAtSplit(a, queue, price);
    VisibleAtConcat(a + queue, b, price);
    VisibleElsewhere(b, price);
  }

  /** What a depth query shows of the orders of a side: levels in order, each with the number and the displayed
      quantity of all orders at its price; an order's price is shown, or the levels asked for are all better. */
  ghost predicate DepthShows(side: Side, s: seq<L3Order>, r: seq<BookLevel>, count: nat) {
    && |r| <= count
    && (forall k | 0 <= k < |r| ::
          r[k].orderCount == CountAt(s, r[k].price) > 0 && r[k].qty == VisibleAt(s, r[k].price))
    && (forall j, k | 0 <= j < k < |r| :: Better(side, r[j].price, r[k].price))
    && (forall i | 0 <= i < |s| ::
          || (exists k :: 0 <= k < |r| && r[k].price == s[i].price)
          || (|r| == count && forall k | 0 <= k < |r| :: Better(side, r[k].price, s[i].price)))
  }

  lemma LevelsInOrder(side: Side, levels: seq<Level<L3Body>>)
    requires WellFormed(side, levels)
    ensures forall j, k | 0 <= j < k < |levels| :: Better(side, levels[j].price, levels[k].price)
    ensures forall k | 0 <= k < |levels| :: LevelOk(side, levels[k])
  {
  }

  lemma FirstLevelsShow(side: Side, levels: seq<Level<L3Body>>, count: nat)
    requires WellFormed(side, levels)
    ensures DepthShows(side, Flat(levels), Summaries(levels)[..Min(count, |levels|)], count)
  {
    hide Flat, CountAt, VisibleAt, Summary, LevelOk, WellFormed;
    var s, r := Flat(levels), Summaries(levels)[..Min(count, |levels|)];
    LevelsInOrder(side, levels);
    forall k | 0 <= k < |r|
      ensures r[k].price == levels[k].price
      ensures r[k].orderCount == CountAt(s, r[k].price) > 0 && r[k].qty == VisibleAt(s, r[k].price)
    {
      LevelShows(side, levels, k);
    }
    forall i | 0 <= i < |s|
      ensures || (exists k :: 0 <= k < |r| && r[k].price == s[i].price)
              || (|r| == count && forall k | 0 <= k < |r| :: Better(side, r[k].price, s[i].price))
    {
      var k := FlatFrom(side, levels, i);
      if k < |r| {
        assert r[k].price == s[i].price;
      }
    }
  }

  /** Where an order stands in its level, read off the flat view. */
  lemma AheadInLevel(side: Side, levels: seq<Level<L3Body>>, k: nat, i: nat)
    requires WellFormed(side, levels) && Distinct(Flat(levels)) && k < |levels| && i < |levels[k].queue|
    ensures var s, o := Flat(levels), levels[k].queue[i];
            && VisibleAhead(s, o.id) == Visible(levels[k].queue[..i])
            && Pos(s, o.id) < |s| && CountAt(s[..Pos(s, o.id)], o.price) == i
  {
    hide Flat, Ordered;
    var queue, p := levels[k].queue, levels[k].price;
    var a, b := Flat(levels[..k]), Flat(levels[k + 1..]);
    SplitAtPrice(side, levels, k);
    assert LevelOk(side, levels[k]);
    PosInMiddle(a, queue, b, i);
    assert (a + queue + b)[|a| + i] == queue[i];
    assert (a + queue + b)[..|a| + i] == a + queue[..i];
    VisibleAtSplit(a, queue[..i], p);
    CountSplit(side, a, queue[..i], [], p);
    assert a + queue[..i] + [] == a + queue[..i];
  }

  // ---------- What the flat book determines ----------

  /** The same levels, apart from stored queue positions at one price. */
  ghost predicate SameLadders(x: seq<Level<L3Body>>, y: seq<Level<L3Body>>, price: int) {
    && |x| == |y|
    && forall k | 0 <= k < |x| ::
         && y[k].price == x[k].price
         && (x[k].price != price ==> y[k] == x[k])
         && SameExceptPositions(x[k].queue, y[k].queue, price)
  }

  lemma {:induction false} RunsSame(s: seq<L3Order>, t: seq<L3Order>, price: int)
    requires SameExceptPositions(s, t, price) && |s| > 0
    ensures RunLength(s) == RunLength(t)
  {
    if |s| > 1 && s[1].price == s[0].price {
      RunsSame(s[1..], t[1..], price);
    }
  }

  lemma {:induction false} GroupsSame(s: seq<L3Order>, t: seq<L3Order>, price: int)
    requires SameExceptPositions(s, t, price)
    ensures SameLadders(Group(s), Group(t), price)
    decreases |s|
  {
    if |s| > 0 {
      var n := RunLength(s);
      RunsSame(s, t, price);
      RunIsUniform(s);
      assert s[0].price != price ==> s[..n] == t[..n];
      GroupsSame(s[n..], t[n..], price);
    }
  }

  /** Two representations of books that differ in nothing but stored queue positions at one price: the same
      index, the same numbers of orders, and ladders that differ in nothing else either. */
  lemma RepresentationFollows(
      bids: seq<Level<L3Body>>, asks: seq<Level<L3Body>>, index: map<OrderId, Location>,
      bids': seq<Level<L3Body>>, asks': seq<Level<L3Body>>, index': map<OrderId, Location>, price: int)
    requires WellFormed(Buy, bids) && WellFormed(Sell, asks) && Coherent(index, Flat(bids) + Flat(asks))
    requires WellFormed(Buy, bids') && WellFormed(Sell, asks') && Coherent(index', Flat(bids') + Flat(asks'))
    requires SameExceptPositions(Flat(bids), Flat(bids'), price)
    requires SameExceptPositions(Flat(asks), Flat(asks'), price)
    ensures SameLadders(bids, bids', price) && SameLadders(asks, asks', price) && index == index'
    ensures |Flat(bids)| == |Flat(bids')| && |Flat(asks)| == |Flat(asks')|
  {
    hide WellFormed, Coherent, Flat, Group, SameLadders;
    GroupFlat(Buy, bids);
    GroupFlat(Buy, bids');
    GroupFlat(Sell, asks);
    GroupFlat(Sell, asks');
    GroupsSame(Flat(bids), Flat(bids'), price);
    GroupsSame(Flat(asks), Flat(asks'), price);
    CoherentRewrite(index, Flat(bids) + Flat(asks), Flat(bids') + Flat(asks'));
    IndexUnique(index, index', Flat(bids') + Flat(asks'));
  }

  // ---------- Prices between the best bid and the best ask ----------

  /** Both prices quoted between two sides, with C++ truncating division, lie between the sides,
      also for negative prices. */
  lemma QuotesBetween(bid: BookLevel, ask: BookLevel)
    requires bid.price < ask.price && bid.qty > 0 && ask.qty > 0
    ensures bid.price <= TruncDiv(bid.price + ask.price, 2) <= ask.price
    ensures bid.price <= TruncDiv(bid.price * ask.qty + ask.price * bid.qty, bid.qty + ask.qty) <= ask.price
  {
    TruncatedBetween(bid.price + ask.price, 2, bid.price, ask.price);
    var num := bid.price * ask.qty + ask.price * bid.qty;
    assert num - bid.price * (bid.qty + ask.qty) == (ask.price - bid.price) * bid.qty;
    assert ask.price * (bid.qty + ask.qty) - num == (ask.price - bid.price) * ask.qty;
    TruncatedBetween(num, bid.qty + ask.qty, bid.price, ask.price);
  }

  lemma LeanIs(bid: int, ask: int, bidQty: int, askQty: int)
    ensures (bid * askQty + ask * bidQty) * 2 - (bid + ask) * (bidQty + askQty) == (bidQty - askQty) * (ask - bid)
  {
  }

  /** The micro price leans from the mid towards the side with less quantity displayed. */
  lemma MicroLeans(bid: BookLevel, ask: BookLevel)
    requires bid.price < ask.price && bid.qty > 0 && ask.qty > 0
    ensures var mid := TruncDiv(bid.price + ask.price, 2);
            var micro := TruncDiv(bid.price * ask.qty + ask.price * bid.qty, bid.qty + ask.qty);
            && (bid.qty >= ask.qty ==> micro >= mid)
            && (bid.qty <= ask.qty ==> micro <= mid)
  {
    hide TruncDiv;
    var num, den := bid.price * ask.qty + ask.price * bid.qty, bid.qty + ask.qty;
    var sum, gap := bid.price + ask.price, ask.price - bid.price;
    LeanIs(bid.price, ask.price, bid.qty, ask.qty);
    if bid.qty >= ask.qty {
      Products(0, bid.qty - ask.qty, gap);
      TruncationOrdered(sum, 2, num, den);
    }
    if bid.qty <= ask.qty {
      Products(bid.qty - ask.qty, 0, gap);
      TruncationOrdered(num, den, sum, 2);
    }
  }
}
