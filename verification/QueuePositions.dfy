/** Stored queue positions: when they are right, and by how much they are wrong over whole runs. */
module QueuePositions {
  import opened Types
  import opened Ladder
  import opened BookSpec
  import opened BookTheorems

  /** By how much the stored queue position of the i-th order overstates its place at its price. */
  ghost function Drift(s: seq<L3Order>, i: nat): int
    requires i < |s|
  {
    s[i].body.queuePos - CountAt(s[..i], s[i].price)
  }

  lemma {:induction false} CountAtTail(a: seq<L3Order>, b: seq<L3Order>, price: int)
    requires |a| == |b| && forall i | 0 <= i < |a| :: a[i].price == b[i].price
    ensures CountAt(a, price) == CountAt(b, price)
  {
    if |a| > 0 {
      CountAtTail(a[1..], b[1..], price);
    }
  }

  lemma LeftoverKeepsPositions(s: seq<L3Order>, trades: seq<Trade>, i: nat)
    requires |trades| <= |s| && i < |Leftover(s, trades)|
    ensures var rest := Leftover(s, trades);
            |rest| <= |s| && rest[i].body.queuePos == s[|s| - |rest| + i].body.queuePos
  {
  }

  lemma TailDrift(s: seq<L3Order>, rest: seq<L3Order>, i: nat)
    requires TailOf(rest, s) && i < |rest|
    requires rest[i].body.queuePos == s[|s| - |rest| + i].body.queuePos
    ensures var d := |s| - |rest|; Drift(rest, i) == Drift(s, d + i) + CountAt(s[..d], rest[i].price)
  {
    hide CountAt;
    var d := |s| - |rest|;
    CountAtTail(rest[..i], s[d..d + i], rest[i].price);
    CountAtConcat(s[..d], s[d..d + i], rest[i].price);
    assert s[..d] + s[d..d + i] == s[..d + i];
  }

  /** Matching makes the stored position of a surviving order drift by exactly the number of orders
      at its price that it erased: the position stays right if and only if there were none. */
  lemma MatchDrifts(s: seq<L3Order>, incoming: Order, symbol: Symbol, id: nat, ts: Timestamp, i: nat)
    requires AllOk(s)
    requires i < |Consume(s, incoming, incoming.quantity, symbol, id, ts).rest|
    ensures var rest := Consume(s, incoming, incoming.quantity, symbol, id, ts).rest;
            var erased := |s| - |rest|;
            && erased >= 0 && rest[i].price == s[erased + i].price
            && Drift(rest, i) == Drift(s, erased + i) + CountAt(s[..erased], rest[i].price)
  {
    hide Consume, AllOk, CountAt, Drift, Leftover;
    var rest := Consume(s, incoming, incoming.quantity, symbol, id, ts).rest;
    ConsumeLeavesTail(s, incoming, symbol, id, ts);
    ConsumeLeaves(s, incoming, incoming.quantity, symbol, id, ts);
    LeftoverKeepsPositions(s, Consume(s, incoming, incoming.quantity, symbol, id, ts).trades, i);
    TailDrift(s, rest, i);
  }

  lemma CountAroundJoin(a: seq<L3Order>, o: L3Order, b: seq<L3Order>, j: nat, price: int)
    requires j <= |b| && o.price != price
    ensures CountAt((a + [o] + b)[..|a| + 1 + j], price) == CountAt((a + b)[..|a| + j], price)
  {
    assert (a + [o] + b)[..|a| + 1 + j] == (a + [o]) + b[..j];
    assert (a + b)[..|a| + j] == a + b[..j];
    CountAtConcat(a + [o], b[..j], price);
    CountAtConcat(a, [o], price);
    CountAtConcat(a, b[..j], price);
  }

  lemma BeyondPlace(s: seq<L3Order>, o: L3Order)
    requires Sorted(o.side, s)
    ensures var k := Place(o.side, s, o.price); forall i | k <= i < |s| :: s[i].price != o.price
  {
    var k := Place(o.side, s, o.price);
    forall i | k <= i < |s|
      ensures s[i].price != o.price
    {
      assert i > k ==> !Better(o.side, s[i].price, s[k].price);
    }
  }

  lemma JoinDrift(a: seq<L3Order>, o: L3Order, b: seq<L3Order>, i: nat)
    requires o.body.queuePos == CountAt(a + b, o.price) && i < |a + [o] + b|
    requires forall j | 0 <= j < |b| :: b[j].price != o.price
    ensures var s, t := a + b, a + [o] + b;
            && (i == |a| ==> t[i] == o && Drift(t, i) == 0)
            && (i < |a| ==> Drift(t, i) == Drift(s, i))
            && (i > |a| ==> Drift(t, i) == Drift(s, i - 1))
  {
    hide CountAt;
    var s, t := a + b, a + [o] + b;
    if i < |a| {
      assert t[..i] == a[..i] && s[..i] == a[..i];
    } else if i == |a| {
      assert t[..i] == a;
      CountAtConcat(a, b, o.price);
      CountAtUniform(b, o.price, false);
    } else {
      assert t[i] == s[i - 1] == b[i - 1 - |a|];
      CountAroundJoin(a, o, b, i - 1 - |a|, s[i - 1].price);
    }
  }

  /** A joining order has the right position, and nobody else's drift changes. */
  lemma JoinDoesNotDrift(s: seq<L3Order>, o: L3Order, i: nat)
    requires Sorted(o.side, s) && o.body.queuePos == CountAt(s, o.price) && i < |Insert(s, o)|
    ensures var k, t := Place(o.side, s, o.price), Insert(s, o);
            && (i == k ==> t[i] == o && Drift(t, i) == 0)
            && (i < k ==> Drift(t, i) == Drift(s, i))
            && (i > k ==> Drift(t, i) == Drift(s, i - 1))
  {
    hide CountAt, Sorted, Place;
    var k := Place(o.side, s, o.price);
    BeyondPlace(s, o);
    assert s == s[..k] + s[k..];
    JoinDrift(s[..k], o, s[k..], i);
  }

  // ---------- Which orders matching erases ----------

  lemma {:induction false} TotalIsPositive(s: seq<L3Order>)
    requires AllOk(s)
    ensures TotalAvailable(s) >= |s|
  {
    if |s| > 0 {
      TotalIsPositive(s[1..]);
    }
  }

  lemma {:induction false} RestNoLonger(
      s: seq<L3Order>, incoming: Order, remaining: int, symbol: Symbol, id: nat, ts: Timestamp)
    ensures |Consume(s, incoming, remaining, symbol, id, ts).rest| <= |s|
  {
    hide Fill, Acceptable;
    if remaining <= 0 || |s| == 0 || !Acceptable(incoming, s[0].price) {
    } else {
      RestNoLonger(s[1..], incoming, remaining - Min(remaining, Available(s[0])), symbol, id + 1, ts);
    }
  }

  lemma FrontIsBest(side: Side, s: seq<L3Order>, incoming: Order, k: nat)
    requires Sorted(side, s) && side == incoming.side.Opposite() && k < |s|
    ensures Acceptable(incoming, s[k].price) ==> Acceptable(incoming, s[0].price)
    ensures Sorted(side, s[1..])
  {
    assert k > 0 ==> !Better(side, s[k].price, s[0].price);
  }

  /** Matching erases the order at k exactly when its price is acceptable and the quantity covers everything
      available up to and including it: what can be told before the call. */
  lemma {:induction false} ErasesIff(
      s: seq<L3Order>, incoming: Order, remaining: int, symbol: Symbol, id: nat, ts: Timestamp, k: nat)
    requires AllOk(s) && Sorted(incoming.side.Opposite(), s) && k < |s|
    ensures var rest := Consume(s, incoming, remaining, symbol, id, ts).rest;
            |s| - |rest| > k <==> Acceptable(incoming, s[k].price) && TotalAvailable(s[..k + 1]) <= remaining
  {
    hide Fill, Acceptable, Sorted, OrderOk;
    FrontIsBest(incoming.side.Opposite(), s, incoming, k);
    TotalIsPositive(s[..k + 1]);
    assert s[..k + 1][0] == s[0] && s[..k + 1][1..] == s[1..][..k];
    TotalIsPositive(s[1..][..k]);
    if remaining <= 0 || !Acceptable(incoming, s[0].price) {
    } else {
      var qty := Min(remaining, Available(s[0]));
      FillConserves(s[0], qty);
      RestNoLonger(s[1..], incoming, remaining - qty, symbol, id + 1, ts);
      if qty < Available(s[0]) {
        ConsumeStops(s[1..], incoming, remaining - qty, symbol, id + 1, ts);
      } else if k > 0 {
        ErasesIff(s[1..], incoming, remaining - qty, symbol, id + 1, ts, k - 1);
      }
    }
  }

  /** The first order at a price, or |s|. */
  function FirstAt(s: seq<L3Order>, price: int): (f: nat)
    ensures f <= |s|
    ensures f < |s| ==> s[f].price == price
    ensures forall i | 0 <= i < f :: s[i].price != price
  {
    if |s| == 0 || s[0].price == price then 0 else 1 + FirstAt(s[1..], price)
  }

  lemma CountsFromFirst(s: seq<L3Order>, price: int, n: nat)
    requires n <= |s|
    ensures CountAt(s[..n], price) > 0 <==> FirstAt(s, price) < n
  {
    var f := FirstAt(s, price);
    if f < n {
      assert s[..n] == s[..f] + s[f..n] && s[f..n][0] == s[f];
      CountAtConcat(s[..f], s[f..n], price);
    } else {
      CountAtUniform(s[..n], price, false);
    }
  }

  /** Whether submitting an order makes stored positions at a price on the other side drift: its id is new,
      it is not a killed fill-or-kill order, and it takes everything up to and including the first order at
      that price. All of it is known before the call. */
  ghost predicate ErasesAt(b: Book, order: Order, price: int) {
    var s := SideOf(b, order.side.Opposite());
    var f := FirstAt(s, price);
    && !Resting(b, order.id)
    && !(order.tif.FOK? && Liquidity(s, order) < order.quantity)
    && f < |s| && Acceptable(order, price) && TotalAvailable(s[..f + 1]) <= order.quantity
  }

  /** A survivor's stored position stays as right as it was exactly when nothing at its price is erased, and
      otherwise drifts. */
  lemma AddDriftsIff(b: Book, order: Order, ts: Timestamp, i: nat)
    requires ValidBook(b) && i < |SideOf(AddOrder(b, order, ts).book, order.side.Opposite())|
    ensures var s, t := SideOf(b, order.side.Opposite()), SideOf(AddOrder(b, order, ts).book, order.side.Opposite());
            && |t| <= |s| && t[i].id == s[|s| - |t| + i].id
            && Drift(t, i) >= Drift(s, |s| - |t| + i)
            && (Drift(t, i) == Drift(s, |s| - |t| + i) <==> !ErasesAt(b, order, s[|s| - |t| + i].price))
  {
    hide Consume, CountAt, Drift, Liquidity, Acceptable, TotalAvailable, Insert, Sorted, AllOk, ValidBook, Resting,
         FirstAt;
    SideIsOk(b, order.side.Opposite());
    var s, t := SideOf(b, order.side.Opposite()), SideOf(AddOrder(b, order, ts).book, order.side.Opposite());
    if !Resting(b, order.id) && !(order.tif.FOK? && Liquidity(s, order) < order.quantity) {
      var id := |b.tape| + 1;
      assert t == Consume(s, order, order.quantity, b.symbol, id, ts).rest;
      MatchDrifts(s, order, b.symbol, id, ts, i);
      MatchKeepsSide(b, order, ts);
      var erased := |s| - |t|;
      var f := FirstAt(s, s[erased + i].price);
      CountsFromFirst(s, s[erased + i].price, erased);
      ErasesIff(s, order, order.quantity, b.symbol, id, ts, f);
    }
  }

  // ---------- Drift over whole runs ----------

  /** What matters to stored positions: an order joins its queue, matching erases an order at a price, a
      cancel renumbers the queue at a price. */
  datatype QueueEvent = Joined(id: OrderId) | Erased(side: Side, price: int) | Refreshed(side: Side, price: int)

  /** The erasures at an order's price since the later of its joining and the last refresh there. */
  ghost function Missed(log: seq<QueueEvent>, id: OrderId, side: Side, price: int): nat {
    if |log| == 0 then 0
    else
      var n := |log| - 1;
      if log[n] == Joined(id) || log[n] == Refreshed(side, price) then 0
      else Missed(log[..n], id, side, price) + if log[n] == Erased(side, price) then 1 else 0
  }

  ghost function Erasures(s: seq<L3Order>, side: Side): seq<QueueEvent> {
    seq(|s|, i requires 0 <= i < |s| => Erased(side, s[i].price))
  }

  ghost function AddEvents(b: Book, order: Order, ts: Timestamp): seq<QueueEvent> {
    if Resting(b, order.id) then []
    else
      var s, r := SideOf(b, order.side.Opposite()), MatchIncoming(b, order, ts);
      (if |r.rest| <= |s| then Erasures(s[..|s| - |r.rest|], order.side.Opposite()) else [])
      + (if Rests(order, r.remaining) then [Joined(order.id)] else [])
  }

  ghost function CancelEvents(b: Book, id: OrderId): seq<QueueEvent> {
    if !Resting(b, id) then []
    else [Refreshed(if Queued(b.bids, id) then Buy else Sell, OrderAt(b, id).price)]
  }

  ghost function Events(b: Book, c: Command): seq<QueueEvent> {
    match c
    case Submit(order, ts) => AddEvents(b, order, ts)
    case Cancel(id, ts) => CancelEvents(b, id)
    case Replace(req, ts) =>
      var cancelled := CancelOrder(b, req.orderId, ts);
      if cancelled.report.status != Canceled then []
      else CancelEvents(b, req.orderId) + AddEvents(cancelled.book, ReplacementFor(req, cancelled.report.side, ts), ts)
  }

  ghost function LogOf(b: Book, commands: seq<Command>): seq<QueueEvent>
    decreases |commands|
  {
    if |commands| == 0 then [] else Events(b, commands[0]) + LogOf(Apply(b, commands[0]).book, commands[1..])
  }

  /** Every order's drift is what it missed. */
  ghost predicate SideLogged(s: seq<L3Order>, side: Side, log: seq<QueueEvent>) {
    forall i | 0 <= i < |s| :: Drift(s, i) == Missed(log, s[i].id, side, s[i].price)
  }

  ghost predicate Logged(b: Book, log: seq<QueueEvent>) {
    SideLogged(b.bids, Buy, log) && SideLogged(b.asks, Sell, log)
  }

  lemma MissedNext(log: seq<QueueEvent>, e: QueueEvent, id: OrderId, side: Side, price: int)
    ensures Missed(log + [e], id, side, price) ==
            if e == Joined(id) || e == Refreshed(side, price) then 0
            else Missed(log, id, side, price) + if e == Erased(side, price) then 1 else 0
  {
    assert (log + [e])[..|log|] == log;
  }

  lemma CountNext(s: seq<L3Order>, o: L3Order, price: int)
    ensures CountAt(s + [o], price) == CountAt(s, price) + if o.price == price then 1 else 0
  {
    CountAtConcat(s, [o], price);
  }

  lemma {:induction false} MissedErasures(
      log: seq<QueueEvent>, s: seq<L3Order>, at: Side, id: OrderId, side: Side, price: int)
    ensures Missed(log + Erasures(s, at), id, side, price) ==
            Missed(log, id, side, price) + if at == side then CountAt(s, price) else 0
  {
    hide Missed, CountAt;
    if |s| == 0 {
      assert s == [] && log + Erasures(s, at) == log;
      CountAtUniform(s, price, false);
    } else {
      var n := |s| - 1;
      assert s == s[..n] + [s[n]];
      MissedErasures(log, s[..n], at, id, side, price);
      assert log + Erasures(s, at) == log + Erasures(s[..n], at) + [Erased(at, s[n].price)];
      MissedNext(log + Erasures(s[..n], at), Erased(at, s[n].price), id, side, price);
      CountNext(s[..n], s[n], price);
    }
  }

  /** Orders that stay put miss what is erased on their side, and nothing else. */
  lemma ErasuresLogged(s: seq<L3Order>, side: Side, log: seq<QueueEvent>, gone: seq<L3Order>, at: Side)
    requires SideLogged(s, side, log) && at != side
    ensures SideLogged(s, side, log + Erasures(gone, at))
  {
    hide Missed, Drift, CountAt;
    forall i | 0 <= i < |s| ensures Drift(s, i) == Missed(log + Erasures(gone, at), s[i].id, side, s[i].price) {
      MissedErasures(log, gone, at, s[i].id, side, s[i].price);
    }
  }

  lemma MatchLogged(b: Book, order: Order, ts: Timestamp, log: seq<QueueEvent>)
    requires ValidBook(b) && Logged(b, log)
    ensures var side := order.side.Opposite();
            var s, rest := SideOf(b, side), MatchIncoming(b, order, ts).rest;
            && |rest| <= |s|
            && SideLogged(rest, side, log + Erasures(s[..|s| - |rest|], side))
            && SideLogged(SideOf(b, order.side), order.side, log + Erasures(s[..|s| - |rest|], side))
  {
    hide Missed, Drift, CountAt, Consume, SideValid, Liquidity;
    var side := order.side.Opposite();
    var s, rest := SideOf(b, side), MatchIncoming(b, order, ts).rest;
    MatchKeepsSide(b, order, ts);
    var erased := |s| - |rest|;
    ErasuresLogged(SideOf(b, order.side), order.side, log, s[..erased], side);
    if order.tif.FOK? && Liquidity(s, order) < order.quantity {
      assert log + Erasures(s[..0], side) == log;
    } else {
      assert AllOk(s) by { SideIsOk(b, side); }
      forall i | 0 <= i < |rest|
        ensures Drift(rest, i) == Missed(log + Erasures(s[..erased], side), rest[i].id, side, rest[i].price)
      {
        MatchDrifts(s, order, b.symbol, |b.tape| + 1, ts, i);
        MissedErasures(log, s[..erased], side, rest[i].id, side, rest[i].price);
      }
    }
  }

  lemma JoinLogged(s: seq<L3Order>, o: L3Order, log: seq<QueueEvent>)
    requires Sorted(o.side, s) && o.body.queuePos == CountAt(s, o.price) && !Queued(s, o.id)
    requires SideLogged(s, o.side, log)
    ensures SideLogged(Insert(s, o), o.side, log + [Joined(o.id)])
  {
    hide Missed, Drift, CountAt, Sorted;
    var k, t := Place(o.side, s, o.price), Insert(s, o);
    forall i | 0 <= i < |t| ensures Drift(t, i) == Missed(log + [Joined(o.id)], t[i].id, o.side, t[i].price) {
      JoinDoesNotDrift(s, o, i);
      MissedNext(log, Joined(o.id), t[i].id, o.side, t[i].price);
      assert i != k ==> t[i] == s[if i < k then i else i - 1];
    }
  }

  /** An event about neither an order nor its price leaves what it missed. */
  lemma OthersLogged(s: seq<L3Order>, side: Side, log: seq<QueueEvent>, e: QueueEvent)
    requires SideLogged(s, side, log)
    requires forall i | 0 <= i < |s| ::
               e != Joined(s[i].id) && e != Refreshed(side, s[i].price) && e != Erased(side, s[i].price)
    ensures SideLogged(s, side, log + [e])
  {
    hide Missed, Drift;
    forall i | 0 <= i < |s| ensures Drift(s, i) == Missed(log + [e], s[i].id, side, s[i].price) {
      MissedNext(log, e, s[i].id, side, s[i].price);
    }
  }

  lemma {:induction false} RenumberIsExact(s: seq<L3Order>, price: int, pos: nat, i: nat)
    requires i < |s| && s[i].price == price
    ensures |Renumber(s, price, pos)| == |s|
    ensures Renumber(s, price, pos)[i].body.queuePos == pos + CountAt(s[..i], price)
  {
    RenumberKeeps(s, price, pos);
    if i > 0 {
      assert s[..i][1..] == s[1..][..i - 1] && s[..i][0] == s[0];
      RenumberIsExact(s[1..], price, if s[0].price == price then pos + 1 else pos, i - 1);
    }
  }

  /** Removing an order makes the positions at its price exact and leaves the other drifts alone. */
  lemma RemoveDrifts(s: seq<L3Order>, id: OrderId, i: nat)
    requires Queued(s, id) && i < |Remove(s, id)|
    ensures var k, t := Pos(s, id), Remove(s, id);
            && k < |s| && |t| == |s| - 1
            && (t[i].price == s[k].price ==> Drift(t, i) == 0)
            && (t[i].price != s[k].price ==>
                  var j := if i < k then i else i + 1;
                  Drift(t, i) == Drift(s, j) && t[i].id == s[j].id && t[i].price == s[j].price)
  {
    hide CountAt;
    var k, t := Pos(s, id), Remove(s, id);
    var u := RemoveAt(s, k);
    var price := s[k].price;
    RemoveKeeps(s, id);
    RenumberIsSame(u, price, 0);
    CountAtTail(t[..i], u[..i], t[i].price);
    if t[i].price == price {
      RenumberIsExact(u, price, 0, i);
    } else {
      assert s == s[..k] + [s[k]] + s[k + 1..] && u == s[..k] + s[k + 1..];
      if i < k {
        assert u[..i] == s[..i];
      } else {
        CountAroundJoin(s[..k], s[k], s[k + 1..], i - k, t[i].price);
      }
    }
  }

  lemma RemoveLogged(s: seq<L3Order>, side: Side, id: OrderId, log: seq<QueueEvent>)
    requires SideLogged(s, side, log) && Queued(s, id) && Pos(s, id) < |s|
    ensures SideLogged(Remove(s, id), side, log + [Refreshed(side, s[Pos(s, id)].price)])
  {
    hide Missed, Drift, Remove;
    var t, e := Remove(s, id), Refreshed(side, s[Pos(s, id)].price);
    forall i | 0 <= i < |t| ensures Drift(t, i) == Missed(log + [e], t[i].id, side, t[i].price) {
      RemoveDrifts(s, id, i);
      MissedNext(log, e, t[i].id, side, t[i].price);
    }
  }

  lemma OthersOnOtherSide(s: seq<L3Order>, side: Side, log: seq<QueueEvent>, e: QueueEvent)
    requires SideLogged(s, side, log) && e.Refreshed? && e.side != side
    ensures SideLogged(s, side, log + [e])
  {
    hide Drift;
    OthersLogged(s, side, log, e);
  }

  lemma CancelLogged(b: Book, id: OrderId, ts: Timestamp, log: seq<QueueEvent>)
    requires Logged(b, log)
    ensures Logged(CancelOrder(b, id, ts).book, log + CancelEvents(b, id))
  {
    hide SideLogged, Remove;
    if Queued(b.bids, id) {
      var k :| 0 <= k < |b.bids| && b.bids[k].id == id;
      RemoveLogged(b.bids, Buy, id, log);
      OthersOnOtherSide(b.asks, Sell, log, Refreshed(Buy, OrderAt(b, id).price));
    } else if Queued(b.asks, id) {
      var k :| 0 <= k < |b.asks| && b.asks[k].id == id;
      RemoveLogged(b.asks, Sell, id, log);
      OthersOnOtherSide(b.bids, Buy, log, Refreshed(Sell, OrderAt(b, id).price));
    } else {
      assert log + [] == log;
    }
  }

  lemma JoinOpposite(s: seq<L3Order>, side: Side, log: seq<QueueEvent>, id: OrderId)
    requires SideLogged(s, side, log) && !Queued(s, id)
    ensures SideLogged(s, side, log + [Joined(id)])
  {
    hide Drift;
    OthersLogged(s, side, log, Joined(id));
  }

  lemma AddLogged(b: Book, order: Order, ts: Timestamp, log: seq<QueueEvent>)
    requires ValidBook(b) && Logged(b, log)
    ensures Logged(AddOrder(b, order, ts).book, log + AddEvents(b, order, ts))
  {
    hide SideLogged, Consume, Insert, SideValid, Uncrossed, Apart, CountAt, Erasures;
    if Resting(b, order.id) {
      assert log + [] == log;
    } else {
      var side, opp := order.side, order.side.Opposite();
      var s, r := SideOf(b, opp), MatchIncoming(b, order, ts);
      MatchLogged(b, order, ts, log);
      var gone := Erasures(s[..|s| - |r.rest|], opp);
      if Rests(order, r.remaining) {
        var own := SideOf(b, side);
        var o := RestingOrder(order, r.remaining, CountAt(own, order.price), ts);
        SideIsOk(b, side);
        JoinLogged(own, o, log + gone);
        MatchKeepsAbsent(b, order, ts, order.id);
        JoinOpposite(r.rest, opp, log + gone, order.id);
        Associate(log, gone, [Joined(order.id)]);
      } else {
        assert gone + [] == gone;
      }
    }
  }

  lemma MissedCancel(b: Book, id: OrderId, ts: Timestamp)
    ensures CancelOrder(b, id, ts).report.status != Canceled ==>
              CancelOrder(b, id, ts).book == b && CancelEvents(b, id) == []
  {
    hide Resting, Remove;
  }

  lemma StepLogged(b: Book, c: Command, log: seq<QueueEvent>)
    requires ValidBook(b) && Logged(b, log)
    ensures ValidBook(Apply(b, c).book) && Logged(Apply(b, c).book, log + Events(b, c))
  {
    hide ValidBook, Logged, AddEvents, CancelEvents, AddOrder, CancelOrder;
    match c
    case Submit(order, ts) =>
      AddKeepsValid(b, order, ts);
      AddLogged(b, order, ts, log);
    case Cancel(id, ts) =>
      CancelKeepsValid(b, id, ts);
      CancelLogged(b, id, ts, log);
    case Replace(req, ts) =>
      var out := CancelOrder(b, req.orderId, ts);
      CancelKeepsValid(b, req.orderId, ts);
      CancelLogged(b, req.orderId, ts, log);
      MissedCancel(b, req.orderId, ts);
      if out.report.status == Canceled {
        var order := ReplacementFor(req, out.report.side, ts);
        AddKeepsValid(out.book, order, ts);
        AddLogged(out.book, order, ts, log + CancelEvents(b, req.orderId));
        Associate(log, CancelEvents(b, req.orderId), AddEvents(out.book, order, ts));
      } else {
        assert log + [] == log;
      }
  }

  /** Over any run an order's stored position overstates its place by exactly the number of orders that
      matching erased at its price since the later of its joining and the last cancel there. */
  lemma {:induction false} RunLogged(b: Book, commands: seq<Command>, log: seq<QueueEvent>)
    requires ValidBook(b) && Logged(b, log)
    ensures Logged(Run(b, commands), log + LogOf(b, commands))
    decreases |commands|
  {
    hide ValidBook, Logged, Events, Apply;
    if |commands| == 0 {
      assert log + [] == log;
    } else {
      var b1 := Apply(b, commands[0]).book;
      StepLogged(b, commands[0], log);
      RunLogged(b1, commands[1..], log + Events(b, commands[0]));
      Associate(log, Events(b, commands[0]), LogOf(b1, commands[1..]));
    }
  }

  lemma DriftIsMissed(symbol: Symbol, commands: seq<Command>)
    ensures Logged(Run(EmptyBook(symbol), commands), LogOf(EmptyBook(symbol), commands))
  {
    hide Run, LogOf;
    EmptyIsValid(symbol);
    RunLogged(EmptyBook(symbol), commands, []);
    assert [] + LogOf(EmptyBook(symbol), commands) == LogOf(EmptyBook(symbol), commands);
  }

  /** Two bids of 5 at 10 join, and a sell of 5 takes the first. */
  ghost function DriftingRun(): seq<Command> {
    var bid := Order(1, 1, "X", Buy, Limit, Day, 10, 5, 0);
    [Submit(bid, 0), Submit(bid.(id := 2), 0), Submit(Order(3, 3, "X", Sell, Limit, Day, 10, 5, 0), 0)]
  }

  lemma RunThree(b: Book, x: Command, y: Command, z: Command)
    ensures Run(b, [x, y, z]) == Apply(Apply(Apply(b, x).book, y).book, z).book
  {
    hide Apply;
    var b1 := Apply(b, x).book;
    var b2 := Apply(b1, y).book;
    assert [x, y, z][1..] == [y, z] && [y, z][1..] == [z] && [z][1..] == [];
    assert Run(b2, [z]) == Run(Apply(b2, z).book, []);
    assert Run(b1, [y, z]) == Run(b2, [z]);
  }

  lemma TakeFirst(first: L3Order, second: L3Order, taker: Order)
    requires taker.quantity == Available(first) > 0 && taker.tif.Day? && taker.side.Sell?
    requires Acceptable(taker, first.price) && taker.id != first.id && taker.id != second.id
    ensures AddOrder(Book("X", [first, second], [], []), taker, 0).book.bids == [second]
  {
    hide Fill, Acceptable;
    FillConserves(first, taker.quantity);
    assert [first, second][1..] == [second];
    assert Consume([second], taker, 0, "X", 2, 0) == Sweep([], [second], 0);
  }

  /** After that run from an empty book the second bid is alone and still reports one order ahead of it. */
  lemma PositionsCanDrift()
    ensures var bids := Run(EmptyBook("X"), DriftingRun()).bids;
            |bids| == 1 && bids[0].id == 2 && Drift(bids, 0) == 1
  {
    hide Run, AddOrder, Insert;
    var b, run := EmptyBook("X"), DriftingRun();
    RunThree(b, run[0], run[1], run[2]);
    var first := RestingOrder(run[0].order, 5, CountAt<L3Body>([], 10), 0);
    var second := RestingOrder(run[1].order, 5, CountAt([first], 10), 0);
    InsertTwo(first, second);
    AddUncrossed(b, run[0].order, 0);
    AddUncrossed(b.(bids := [first]), run[1].order, 0);
    TakeFirst(first, second, run[2].order);
  }
}
