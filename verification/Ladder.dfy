/** One side of a book: the ordered map from price to FIFO queue that both order books keep,
    read best price first, and the id-to-location index beside it. */
module Ladder {
  import opened Types

  /** A queued order: the part every book looks at, and a book-specific body. */
  datatype Node<T> = Node(id: OrderId, side: Side, price: int, body: T)

  datatype Level<T> = Level(price: int, queue: seq<Node<T>>)

  /** An entry of the order index. `it` names the list node by the id of the order in it. */
  datatype Location = Location(side: Side, price: int, it: OrderId)

  /** The comparator of the price map: bids run from high to low, asks from low to high. */
  predicate Better(side: Side, p: int, q: int) {
    if side.Buy? then p > q else p < q
  }

  lemma Associate<T>(a: seq<T>, b: seq<T>, c: seq<T>)
    ensures (a + b) + c == a + (b + c)
  {
  }

  // ---------- Well-formed ladders and the flat price-time view ----------

  ghost predicate LevelOk<T>(side: Side, level: Level<T>) {
    && |level.queue| > 0
    && forall j | 0 <= j < |level.queue| :: level.queue[j].price == level.price && level.queue[j].side == side
  }

  ghost predicate Ordered<T>(side: Side, levels: seq<Level<T>>) {
    forall i, j | 0 <= i < j < |levels| :: Better(side, levels[i].price, levels[j].price)
  }

  ghost predicate WellFormed<T>(side: Side, levels: seq<Level<T>>) {
    && Ordered(side, levels)
    && forall i | 0 <= i < |levels| :: LevelOk(side, levels[i])
  }

  ghost function Flat<T>(levels: seq<Level<T>>): seq<Node<T>> {
    if |levels| == 0 then [] else levels[0].queue + Flat(levels[1..])
  }

  ghost predicate Sorted<T>(side: Side, s: seq<Node<T>>) {
    && (forall i, j | 0 <= i < j < |s| :: !Better(side, s[j].price, s[i].price))
    && (forall i | 0 <= i < |s| :: s[i].side == side)
  }

  lemma {:induction false} FlatConcat<T>(a: seq<Level<T>>, b: seq<Level<T>>)
    ensures Flat(a + b) == Flat(a) + Flat(b)
  {
    if |a| == 0 {
      assert a + b == b;
    } else {
      assert (a + b)[1..] == a[1..] + b;
      FlatConcat(a[1..], b);
    }
  }

  lemma FlatSplit<T>(levels: seq<Level<T>>, k: nat)
    requires k < |levels|
    ensures Flat(levels) == Flat(levels[..k]) + levels[k].queue + Flat(levels[k + 1..])
    ensures Flat(levels[k..]) == levels[k].queue + Flat(levels[k + 1..])
  {
    FlatConcat(levels[..k], levels[k..]);
    assert levels == levels[..k] + levels[k..];
    assert levels[k..][1..] == levels[k + 1..];
  }

  /** Every order of the flat view sits in a level of its price. */
  lemma {:induction false} FlatFrom<T>(side: Side, levels: seq<Level<T>>, i: nat) returns (k: nat)
    requires forall i | 0 <= i < |levels| :: LevelOk(side, levels[i])
    requires i < |Flat(levels)|
    ensures k < |levels| && Flat(levels)[i] in levels[k].queue
    ensures Flat(levels)[i].price == levels[k].price && Flat(levels)[i].side == side
  {
    if i < |levels[0].queue| {
      assert LevelOk(side, levels[0]);
      k := 0;
    } else {
      assert forall j | 0 <= j < |levels[1..]| :: levels[1..][j] == levels[j + 1];
      k := FlatFrom(side, levels[1..], i - |levels[0].queue|);
      k := k + 1;
    }
  }

  /** A well-formed ladder reads out in price order. */
  lemma {:induction false} FlatSorted<T>(side: Side, levels: seq<Level<T>>)
    requires WellFormed(side, levels)
    ensures Sorted(side, Flat(levels))
  {
    if |levels| > 0 {
      var rest := levels[1..];
      assert forall j | 0 <= j < |rest| :: rest[j] == levels[j + 1];
      FlatSorted(side, rest);
      assert LevelOk(side, levels[0]);
      forall j | 0 <= j < |Flat(rest)|
        ensures Better(side, levels[0].price, Flat(rest)[j].price)
      {
        var k := FlatFrom(side, rest, j);
      }
    }
  }

  // ---------- The flat view determines the ladder ----------

  /** How many leading orders share the first order's price. */
  ghost function RunLength<T>(s: seq<Node<T>>): (n: nat)
    requires |s| > 0
    ensures 0 < n <= |s|
  {
    if |s| == 1 || s[1].price != s[0].price then 1 else 1 + RunLength(s[1..])
  }

  lemma {:induction false} RunIsUniform<T>(s: seq<Node<T>>)
    requires |s| > 0
    ensures forall j | 0 <= j < RunLength(s) :: s[j].price == s[0].price
  {
    if |s| > 1 && s[1].price == s[0].price {
      RunIsUniform(s[1..]);
      forall j | 0 < j < RunLength(s) ensures s[j].price == s[0].price {
        assert s[j] == s[1..][j - 1];
      }
    }
  }

  ghost function Group<T>(s: seq<Node<T>>): seq<Level<T>>
    decreases |s|
  {
    if |s| == 0 then [] else
      var n := RunLength(s);
      [Level(s[0].price, s[..n])] + Group(s[n..])
  }

  lemma {:induction false} RunLengthIs<T>(a: seq<Node<T>>, b: seq<Node<T>>)
    requires |a| > 0 && forall j | 0 <= j < |a| :: a[j].price == a[0].price
    requires |b| > 0 ==> b[0].price != a[0].price
    ensures RunLength(a + b) == |a|
  {
    if |a| > 1 {
      assert (a + b)[1..] == a[1..] + b;
      assert a[1].price == a[0].price;
      RunLengthIs(a[1..], b);
    }
  }

  /** Grouping the flat view by price gives the ladder back, so two well-formed ladders
      with the same flat view are the same ladder. */
  lemma {:induction false} GroupFlat<T>(side: Side, levels: seq<Level<T>>)
    requires WellFormed(side, levels)
    ensures Group(Flat(levels)) == levels
  {
    if |levels| > 0 {
      var q, rest := levels[0].queue, levels[1..];
      assert LevelOk(side, levels[0]);
      assert forall j | 0 <= j < |rest| :: rest[j] == levels[j + 1];
      if |Flat(rest)| > 0 {
        var k := FlatFrom(side, rest, 0);
        assert Flat(rest)[0].price != q[0].price;
      }
      RunLengthIs(q, Flat(rest));
      assert Flat(levels)[..|q|] == q && Flat(levels)[|q|..] == Flat(rest);
      GroupFlat(side, rest);
    }
  }

  // ---------- Map operations ----------

  /** `find`: the position of the level at a price, or |levels|. */
  function Find<T>(levels: seq<Level<T>>, price: int): (k: nat)
    ensures k <= |levels|
    ensures k < |levels| ==> levels[k].price == price
    ensures forall i | 0 <= i < k :: levels[i].price != price
  {
    if |levels| == 0 || levels[0].price == price then 0 else 1 + Find(levels[1..], price)
  }

  /** The first position whose price is not strictly better. */
  function LowerBound<T>(side: Side, levels: seq<Level<T>>, price: int): (k: nat)
    ensures k <= |levels|
    ensures forall i | 0 <= i < k :: Better(side, levels[i].price, price)
    ensures k < |levels| ==> !Better(side, levels[k].price, price)
  {
    if |levels| == 0 || !Better(side, levels[0].price, price) then 0 else 1 + LowerBound(side, levels[1..], price)
  }

  /** `operator[]`: the ladder with a level at `price`, created empty where there was none. */
  function Open<T>(side: Side, levels: seq<Level<T>>, price: int): seq<Level<T>> {
    var k := LowerBound(side, levels, price);
    if k < |levels| && levels[k].price == price then levels
    else levels[..k] + [Level(price, [])] + levels[k..]
  }

  // ---------- Flat operations ----------

  /** How many leading orders a newcomer at `price` queues behind. */
  function Place<T>(side: Side, s: seq<Node<T>>, price: int): (k: nat)
    ensures k <= |s|
    ensures forall i | 0 <= i < k :: !Better(side, price, s[i].price)
    ensures k < |s| ==> Better(side, price, s[k].price)
  {
    if |s| == 0 || Better(side, price, s[0].price) then 0 else 1 + Place(side, s[1..], price)
  }

  /** Price-time insertion: behind everything at the same price or better. */
  function Insert<T>(s: seq<Node<T>>, o: Node<T>): seq<Node<T>> {
    var k := Place(o.side, s, o.price);
    s[..k] + [o] + s[k..]
  }

  /** The position of the node holding order `id`, or |s|. */
  function Pos<T>(s: seq<Node<T>>, id: OrderId): (k: nat)
    ensures k <= |s|
    ensures k < |s| ==> s[k].id == id
    ensures forall i | 0 <= i < k :: s[i].id != id
  {
    if |s| == 0 || s[0].id == id then 0 else 1 + Pos(s[1..], id)
  }

  function RemoveAt<T>(s: seq<T>, k: nat): seq<T>
    requires k < |s|
  {
    s[..k] + s[k + 1..]
  }

  /** The number of orders queued at a price. */
  ghost function CountAt<T>(s: seq<Node<T>>, price: int): nat {
    if |s| == 0 then 0 else (if s[0].price == price then 1 else 0) + CountAt(s[1..], price)
  }

  lemma {:induction false} CountAtConcat<T>(a: seq<Node<T>>, b: seq<Node<T>>, price: int)
    ensures CountAt(a + b, price) == CountAt(a, price) + CountAt(b, price)
  {
    if |a| == 0 {
      assert a + b == b;
    } else {
      assert (a + b)[1..] == a[1..] + b;
      CountAtConcat(a[1..], b, price);
    }
  }

  lemma {:induction false} CountAtUniform<T>(s: seq<Node<T>>, price: int, here: bool)
    requires forall i | 0 <= i < |s| :: (s[i].price == price) == here
    ensures CountAt(s, price) == if here then |s| else 0
  {
    if |s| > 0 {
      CountAtUniform(s[1..], price, here);
    }
  }

  // ---------- The ladder operations refine the flat ones ----------

  ghost predicate AllBetter<T>(side: Side, s: seq<Node<T>>, price: int) {
    forall i | 0 <= i < |s| :: Better(side, s[i].price, price)
  }

  ghost predicate AllWorse<T>(side: Side, s: seq<Node<T>>, price: int) {
    forall i | 0 <= i < |s| :: Better(side, price, s[i].price)
  }

  lemma BetterBefore<T>(side: Side, levels: seq<Level<T>>, price: int)
    requires forall i | 0 <= i < |levels| :: LevelOk(side, levels[i])
    requires forall i | 0 <= i < |levels| :: Better(side, levels[i].price, price)
    ensures AllBetter(side, Flat(levels), price)
  {
    forall i | 0 <= i < |Flat(levels)|
      ensures Better(side, Flat(levels)[i].price, price)
    {
      var k := FlatFrom(side, levels, i);
    }
  }

  lemma WorseAfter<T>(side: Side, levels: seq<Level<T>>, price: int)
    requires forall i | 0 <= i < |levels| :: LevelOk(side, levels[i])
    requires forall i | 0 <= i < |levels| :: Better(side, price, levels[i].price)
    ensures AllWorse(side, Flat(levels), price)
  {
    forall i | 0 <= i < |Flat(levels)|
      ensures Better(side, price, Flat(levels)[i].price)
    {
      var k := FlatFrom(side, levels, i);
    }
  }

  /** Splits a ladder at a level: strictly better orders, the level itself, strictly worse orders. */
  lemma SplitAtPrice<T>(side: Side, levels: seq<Level<T>>, k: nat)
    requires WellFormed(side, levels) && k < |levels|
    ensures Flat(levels) == Flat(levels[..k]) + levels[k].queue + Flat(levels[k + 1..])
    ensures AllBetter(side, Flat(levels[..k]), levels[k].price)
    ensures AllWorse(side, Flat(levels[k + 1..]), levels[k].price)
  {
    FlatSplit(levels, k);
    BetterBefore(side, levels[..k], levels[k].price);
    WorseAfter(side, levels[k + 1..], levels[k].price);
  }

  lemma CountSplit<T>(side: Side, a: seq<Node<T>>, q: seq<Node<T>>, b: seq<Node<T>>, price: int)
    requires AllBetter(side, a, price) && AllWorse(side, b, price)
    requires forall i | 0 <= i < |q| :: q[i].price == price
    ensures CountAt(a + q + b, price) == |q|
  {
    CountAtConcat(a + q, b, price);
    CountAtConcat(a, q, price);
    CountAtUniform(a, price, false);
    CountAtUniform(q, price, true);
    CountAtUniform(b, price, false);
  }

  /** The ladder after `levels[o.price].push_back(o)`. */
  function Push<T>(levels: seq<Level<T>>, o: Node<T>): seq<Level<T>> {
    var ladder := Open(o.side, levels, o.price);
    var k := LowerBound(o.side, levels, o.price);
    ladder[k := Level(o.price, ladder[k].queue + [o])]
  }

  /** The queue `levels[price]` names: empty when the level is missing. */
  ghost function QueueAt<T>(side: Side, levels: seq<Level<T>>, price: int): seq<Node<T>> {
    var k := LowerBound(side, levels, price);
    if k < |levels| && levels[k].price == price then levels[k].queue else []
  }

  /** The levels strictly worse than a price. */
  ghost function Beyond<T>(side: Side, levels: seq<Level<T>>, price: int): seq<Level<T>> {
    var k := LowerBound(side, levels, price);
    if k < |levels| && levels[k].price == price then levels[k + 1..] else levels[k..]
  }

  lemma BeyondIsWorse<T>(side: Side, levels: seq<Level<T>>, price: int)
    requires WellFormed(side, levels)
    ensures forall i | 0 <= i < |Beyond(side, levels, price)| ::
              Better(side, price, Beyond(side, levels, price)[i].price)
    ensures WellFormed(side, Beyond(side, levels, price))
  {
    var k := LowerBound(side, levels, price);
    forall i | k < i < |levels|
      ensures Better(side, price, levels[i].price)
    {
      assert Better(side, levels[k].price, levels[i].price);
    }
  }

  lemma QueueAtUniform<T>(side: Side, levels: seq<Level<T>>, price: int)
    requires WellFormed(side, levels)
    ensures forall i | 0 <= i < |QueueAt(side, levels, price)| ::
              QueueAt(side, levels, price)[i].price == price && QueueAt(side, levels, price)[i].side == side
  {
    var k := LowerBound(side, levels, price);
    assert k < |levels| ==> LevelOk(side, levels[k]);
  }

  lemma FlatAtPrice<T>(side: Side, levels: seq<Level<T>>, price: int)
    requires WellFormed(side, levels)
    ensures var k := LowerBound(side, levels, price);
            Flat(levels) == Flat(levels[..k]) + QueueAt(side, levels, price) + Flat(Beyond(side, levels, price))
  {
    var k := LowerBound(side, levels, price);
    if k < |levels| && levels[k].price == price {
      FlatSplit(levels, k);
    } else {
      FlatConcat(levels[..k], levels[k..]);
      assert levels == levels[..k] + levels[k..];
    }
  }

  lemma FlatJoin<T>(a: seq<Level<T>>, level: Level<T>, b: seq<Level<T>>)
    ensures Flat(a + [level] + b) == Flat(a) + level.queue + Flat(b)
  {
    var s := a + [level] + b;
    FlatSplit(s, |a|);
    assert s[..|a|] == a && s[|a| + 1..] == b;
  }

  lemma OrderedJoin<T>(side: Side, a: seq<Level<T>>, level: Level<T>, b: seq<Level<T>>)
    requires Ordered(side, a) && Ordered(side, b)
    requires forall i | 0 <= i < |a| :: Better(side, a[i].price, level.price)
    requires forall i | 0 <= i < |b| :: Better(side, level.price, b[i].price)
    ensures Ordered(side, a + [level] + b)
  {
    var s := a + [level] + b;
    forall i, j | 0 <= i < j < |s|
      ensures Better(side, s[i].price, s[j].price)
    {
      if i < |a| && j > |a| {
        assert Better(side, a[i].price, level.price) && Better(side, level.price, b[j - |a| - 1].price);
      }
    }
  }

  lemma WellFormedJoin<T>(side: Side, a: seq<Level<T>>, level: Level<T>, b: seq<Level<T>>)
    requires WellFormed(side, a) && WellFormed(side, b) && LevelOk(side, level)
    requires forall i | 0 <= i < |a| :: Better(side, a[i].price, level.price)
    requires forall i | 0 <= i < |b| :: Better(side, level.price, b[i].price)
    ensures WellFormed(side, a + [level] + b)
    ensures Flat(a + [level] + b) == Flat(a) + level.queue + Flat(b)
  {
    hide LevelOk, Flat;
    OrderedJoin(side, a, level, b);
    FlatJoin(a, level, b);
    var s := a + [level] + b;
    forall i | 0 <= i < |s|
      ensures LevelOk(side, s[i])
    {
      assert s[i] == if i < |a| then a[i] else if i == |a| then level else b[i - |a| - 1];
    }
  }

  lemma PushShape<T>(levels: seq<Level<T>>, o: Node<T>)
    ensures var k := LowerBound(o.side, levels, o.price);
            Push(levels, o) ==
            levels[..k] + [Level(o.price, QueueAt(o.side, levels, o.price) + [o])] + Beyond(o.side, levels, o.price)
  {
  }

  lemma {:induction false} PlaceIs<T>(side: Side, a: seq<Node<T>>, b: seq<Node<T>>, price: int)
    requires forall i | 0 <= i < |a| :: !Better(side, price, a[i].price)
    requires |b| > 0 ==> Better(side, price, b[0].price)
    ensures Place(side, a + b, price) == |a|
    ensures (a + b)[..|a|] == a && (a + b)[|a|..] == b
  {
    if |a| == 0 {
      assert a + b == b;
    } else {
      assert (a + b)[1..] == a[1..] + b;
      PlaceIs(side, a[1..], b, price);
    }
  }

  lemma InsertShape<T>(a: seq<Node<T>>, o: Node<T>, b: seq<Node<T>>)
    requires forall i | 0 <= i < |a| :: !Better(o.side, o.price, a[i].price)
    requires |b| > 0 ==> Better(o.side, o.price, b[0].price)
    ensures Insert(a + b, o) == a + [o] + b
  {
    PlaceIs(o.side, a, b, o.price);
  }

  /** The three stretches of the flat view around a price. */
  lemma Stretches<T>(side: Side, levels: seq<Level<T>>, price: int)
    requires WellFormed(side, levels)
    ensures AllBetter(side, Flat(levels[..LowerBound(side, levels, price)]), price)
    ensures AllWorse(side, Flat(Beyond(side, levels, price)), price)
  {
    BeyondIsWorse(side, levels, price);
    BetterBefore(side, levels[..LowerBound(side, levels, price)], price);
    WorseAfter(side, Beyond(side, levels, price), price);
  }

  lemma CountIsQueueLength<T>(side: Side, levels: seq<Level<T>>, price: int)
    requires WellFormed(side, levels)
    ensures CountAt(Flat(levels), price) == |QueueAt(side, levels, price)|
  {
    Stretches(side, levels, price);
    QueueAtUniform(side, levels, price);
    FlatAtPrice(side, levels, price);
    CountSplit(side, Flat(levels[..LowerBound(side, levels, price)]), QueueAt(side, levels, price),
               Flat(Beyond(side, levels, price)), price);
  }

  lemma InsertAtPrice<T>(a: seq<Node<T>>, q: seq<Node<T>>, o: Node<T>, b: seq<Node<T>>)
    requires AllBetter(o.side, a, o.price) && AllWorse(o.side, b, o.price)
    requires forall i | 0 <= i < |q| :: q[i].price == o.price
    ensures Insert(a + q + b, o) == a + (q + [o]) + b
  {
    InsertShape(a + q, o, b);
  }

  /** Pushing at the back of a level, opening it when missing, is price-time insertion. */
  lemma PushRefines<T>(levels: seq<Level<T>>, o: Node<T>)
    requires WellFormed(o.side, levels)
    ensures WellFormed(o.side, Push(levels, o))
    ensures Flat(Push(levels, o)) == Insert(Flat(levels), o)
  {
    hide Flat, Insert, Push, AllBetter, AllWorse;
    var side, p := o.side, o.price;
    var k := LowerBound(side, levels, p);
    var q, rest := QueueAt(side, levels, p), Beyond(side, levels, p);
    BeyondIsWorse(side, levels, p);
    QueueAtUniform(side, levels, p);
    PushShape(levels, o);
    WellFormedJoin(side, levels[..k], Level(p, q + [o]), rest);
    Stretches(side, levels, p);
    FlatAtPrice(side, levels, p);
    InsertAtPrice(Flat(levels[..k]), q, o, Flat(rest));
  }

  /** The ladder with the queue of level k replaced, the level erased when that queue is empty. */
  function SetQueue<T>(levels: seq<Level<T>>, k: nat, queue: seq<Node<T>>): seq<Level<T>>
    requires k < |levels|
  {
    if |queue| == 0 then RemoveAt(levels, k) else levels[k := Level(levels[k].price, queue)]
  }

  lemma MadeLevelOk<T>(side: Side, level: Level<T>)
    requires |level.queue| > 0
    requires forall j | 0 <= j < |level.queue| :: level.queue[j].price == level.price && level.queue[j].side == side
    ensures LevelOk(side, level)
  {
  }

  lemma SetQueueRefines<T>(side: Side, levels: seq<Level<T>>, k: nat, queue: seq<Node<T>>)
    requires WellFormed(side, levels) && k < |levels|
    requires forall j | 0 <= j < |queue| :: queue[j].price == levels[k].price && queue[j].side == side
    ensures WellFormed(side, SetQueue(levels, k, queue))
    ensures Flat(SetQueue(levels, k, queue)) == Flat(levels[..k]) + queue + Flat(levels[k + 1..])
  {
    hide LevelOk, Flat;
    var after := SetQueue(levels, k, queue);
    if |queue| == 0 {
      FlatConcat(levels[..k], levels[k + 1..]);
      assert forall i | 0 <= i < |after| :: after[i] == levels[if i < k then i else i + 1];
    } else {
      var level := Level(levels[k].price, queue);
      MadeLevelOk(side, level);
      FlatJoin(levels[..k], level, levels[k + 1..]);
      assert after == levels[..k] + [level] + levels[k + 1..];
      assert forall i | 0 <= i < |after| && i != k :: after[i] == levels[i];
    }
  }

  // ---------- The order index ----------

  ghost predicate Distinct<T>(s: seq<Node<T>>) {
    forall i, j | 0 <= i < j < |s| :: s[i].id != s[j].id
  }

  lemma DistinctParts<T>(a: seq<Node<T>>, b: seq<Node<T>>)
    requires Distinct(a + b)
    ensures Distinct(a) && Distinct(b)
  {
    assert forall i | 0 <= i < |a| :: a[i] == (a + b)[i];
    assert forall i | 0 <= i < |b| :: b[i] == (a + b)[|a| + i];
  }

  ghost predicate Queued<T>(s: seq<Node<T>>, id: OrderId) {
    exists i | 0 <= i < |s| :: s[i].id == id
  }

  lemma QueuedConcat<T>(a: seq<Node<T>>, b: seq<Node<T>>, id: OrderId)
    ensures Queued(a + b, id) <==> Queued(a, id) || Queued(b, id)
  {
    if Queued(a, id) {
      var i :| 0 <= i < |a| && a[i].id == id;
      assert (a + b)[i].id == id;
    }
    if Queued(b, id) {
      var i :| 0 <= i < |b| && b[i].id == id;
      assert (a + b)[|a| + i].id == id;
    }
  }

  /** The index is a bijection with the queued orders: each id once, with its own side, price and node. */
  ghost predicate Coherent<T>(index: map<OrderId, Location>, s: seq<Node<T>>) {
    && Distinct(s)
    && (forall i | 0 <= i < |s| ::
          s[i].id in index && index[s[i].id] == Location(s[i].side, s[i].price, s[i].id))
    && (forall id | id in index :: Queued(s, id))
  }

  lemma DistinctErase<T>(a: seq<Node<T>>, o: Node<T>, b: seq<Node<T>>)
    requires Distinct(a + [o] + b)
    ensures Distinct(a + b) && !Queued(a + b, o.id)
  {
    var s, t := a + [o] + b, a + b;
    assert s[|a|] == o;
    assert forall i | 0 <= i < |t| :: t[i] == s[if i < |a| then i else i + 1];
  }

  lemma QueuedMid<T>(a: seq<Node<T>>, o: Node<T>, b: seq<Node<T>>, id: OrderId)
    ensures Queued(a + [o] + b, id) <==> Queued(a + b, id) || id == o.id
  {
    QueuedConcat(a + [o], b, id);
    QueuedConcat(a, [o], id);
    QueuedConcat(a, b, id);
    assert [o][0] == o;
  }

  lemma QueuedAt<T>(s: seq<Node<T>>, i: nat)
    requires i < |s|
    ensures Queued(s, s[i].id)
  {
  }

  lemma CoherentErase<T>(index: map<OrderId, Location>, a: seq<Node<T>>, o: Node<T>, b: seq<Node<T>>)
    requires Coherent(index, a + [o] + b)
    ensures Coherent(index - {o.id}, a + b)
  {
    hide Distinct, Queued;
    var s, t := a + [o] + b, a + b;
    DistinctErase(a, o, b);
    forall i | 0 <= i < |t|
      ensures t[i].id in index - {o.id} && index[t[i].id] == Location(t[i].side, t[i].price, t[i].id)
    {
      assert t[i] == s[if i < |a| then i else i + 1];
      QueuedAt(t, i);
    }
    forall id | id in index - {o.id}
      ensures Queued(t, id)
    {
      QueuedMid(a, o, b, id);
    }
  }

  /** Rewriting one node in place, keeping its id, side and price, leaves the index right. */
  lemma CoherentRewrite<T>(index: map<OrderId, Location>, s: seq<Node<T>>, t: seq<Node<T>>)
    requires Coherent(index, s)
    requires |t| == |s|
    requires forall i | 0 <= i < |s| :: t[i].id == s[i].id && t[i].side == s[i].side && t[i].price == s[i].price
    ensures Coherent(index, t)
  {
    forall id | id in index
      ensures Queued(t, id)
    {
      var i :| 0 <= i < |s| && s[i].id == id;
      assert t[i].id == id;
    }
  }

  lemma CoherentInsert<T>(index: map<OrderId, Location>, a: seq<Node<T>>, o: Node<T>, b: seq<Node<T>>)
    requires Coherent(index, a + b)
    requires o.id !in index
    ensures Coherent(index[o.id := Location(o.side, o.price, o.id)], a + [o] + b)
  {
    var s, t := a + b, a + [o] + b;
    assert forall i | 0 <= i < |t| && i != |a| :: t[i] == s[if i < |a| then i else i - 1];
    assert t[|a|] == o;
    forall id | id in index[o.id := Location(o.side, o.price, o.id)]
      ensures Queued(t, id)
    {
      if id == o.id {
        assert t[|a|].id == id;
      } else {
        var i :| 0 <= i < |s| && s[i].id == id;
        assert t[if i < |a| then i else i + 1].id == id;
      }
    }
  }

  lemma IndexUnique<T>(m: map<OrderId, Location>, n: map<OrderId, Location>, s: seq<Node<T>>)
    requires Coherent(m, s) && Coherent(n, s)
    ensures m == n
  {
    forall id | id in m
      ensures id in n && n[id] == m[id]
    {
      var i :| 0 <= i < |s| && s[i].id == id;
    }
    forall id | id in n
      ensures id in m
    {
      var i :| 0 <= i < |s| && s[i].id == id;
    }
  }

  /** Pos finds the one order with an id. */
  lemma PosIs<T>(s: seq<Node<T>>, k: nat)
    requires Distinct(s) && k < |s|
    ensures Pos(s, s[k].id) == k
  {
  }

  /** Both sides in index order. */
  ghost function Whole<T>(side: Side, own: seq<Node<T>>, other: seq<Node<T>>): seq<Node<T>> {
    if side.Buy? then own + other else other + own
  }

  lemma WholeErase<T>(
      index: map<OrderId, Location>, side: Side, a: seq<Node<T>>, o: Node<T>, b: seq<Node<T>>, other: seq<Node<T>>)
    requires Coherent(index, Whole(side, a + ([o] + b), other))
    ensures Coherent(index - {o.id}, Whole(side, a + b, other))
  {
    hide Coherent;
    if side.Buy? {
      assert a + ([o] + b) + other == a + [o] + (b + other);
      CoherentErase(index, a, o, b + other);
      assert a + (b + other) == a + b + other;
    } else {
      assert other + (a + ([o] + b)) == (other + a) + [o] + b;
      CoherentErase(index, other + a, o, b);
      assert other + a + b == other + (a + b);
    }
  }

  ghost predicate SameKeys<T>(s: seq<Node<T>>, t: seq<Node<T>>) {
    && |s| == |t|
    && forall i | 0 <= i < |s| :: t[i].id == s[i].id && t[i].side == s[i].side && t[i].price == s[i].price
  }

  lemma WholeRewrite<T>(
      index: map<OrderId, Location>, side: Side, s: seq<Node<T>>, t: seq<Node<T>>, other: seq<Node<T>>)
    requires Coherent(index, Whole(side, s, other)) && SameKeys(s, t)
    ensures Coherent(index, Whole(side, t, other))
  {
    CoherentRewrite(index, Whole(side, s, other), Whole(side, t, other));
  }

  lemma WholeInsert<T>(index: map<OrderId, Location>, s: seq<Node<T>>, o: Node<T>, other: seq<Node<T>>)
    requires Coherent(index, Whole(o.side, s, other)) && o.id !in index
    ensures Coherent(index[o.id := Location(o.side, o.price, o.id)], Whole(o.side, Insert(s, o), other))
  {
    hide Coherent;
    var k := Place(o.side, s, o.price);
    var a, b := s[..k], s[k..];
    if o.side.Buy? {
      assert a + (b + other) == s + other;
      CoherentInsert(index, a, o, b + other);
      assert a + [o] + (b + other) == Insert(s, o) + other;
    } else {
      assert (other + a) + b == other + s;
      CoherentInsert(index, other + a, o, b);
      assert (other + a) + [o] + b == other + Insert(s, o);
    }
  }

  lemma RewriteMid<T>(a: seq<Node<T>>, o: Node<T>, left: Node<T>, b: seq<Node<T>>)
    requires left.id == o.id && left.side == o.side && left.price == o.price
    ensures SameKeys(a + ([o] + b), (a + [left]) + b)
  {
  }

  lemma PosInMiddle<T>(a: seq<Node<T>>, queue: seq<Node<T>>, b: seq<Node<T>>, i: nat)
    requires Distinct(a + queue + b) && i < |queue|
    ensures Pos(a + queue + b, queue[i].id) == |a| + i
    ensures RemoveAt(a + queue + b, |a| + i) == a + RemoveAt(queue, i) + b
  {
    var s := a + queue + b;
    assert s[|a| + i] == queue[i];
    PosIs(s, |a| + i);
  }
}
