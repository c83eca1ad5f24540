/** The trade engine: positions of all traders in all symbols, updated trade by trade. */
module TradeEngines {
  import opened Types
  import opened MapSum
  import opened TradeSpec

  type Positions = map<Key, Position>

  predicate AllSound(ps: Positions) {
    forall k | k in ps :: Sound(ps[k])
  }

  /** The position a key has, or gets on first use. */
  function PositionAt(ps: Positions, k: Key): Position {
    if k in ps then ps[k] else FLAT.(symbol := k.symbol)
  }

  /** The position a leg finds. */
  function Found(ps: Positions, k: Key): Position {
    PositionAt(ps, k).(symbol := k.symbol)
  }

  function Fill(ps: Positions, k: Key, leg: Leg): (r: Positions)
    requires Averages(Found(ps, k), leg)
    ensures AllSound(ps) && leg.qty > 0 ==> AllSound(r)
  {
    ps[k := Update(Found(ps, k), leg)]
  }

  function IncomingKey(t: Trade): Key { Key(t.incomingTrader, t.symbol) }

  function RestingKey(t: Trade): Key { Key(t.restingTrader, t.symbol) }

  function IncomingLeg(t: Trade): Leg { Leg(t.aggressor, t.qty, t.price) }

  function RestingLeg(t: Trade): Leg { Leg(t.aggressor.Opposite(), t.qty, t.price) }

  /** No average is divided by zero in either leg of a trade. Positive quantities always settle. */
  predicate Settles(ps: Positions, t: Trade) {
    && Averages(Found(ps, IncomingKey(t)), IncomingLeg(t))
    && Averages(Found(Fill(ps, IncomingKey(t), IncomingLeg(t)), RestingKey(t)), RestingLeg(t))
  }

  lemma PositiveSettles(ps: Positions, t: Trade)
    requires AllSound(ps) && t.qty > 0
    ensures Settles(ps, t)
  {
    hide Update;
    UpdateIsSound(Found(ps, IncomingKey(t)), IncomingLeg(t));
    UpdateIsSound(Found(Fill(ps, IncomingKey(t), IncomingLeg(t)), RestingKey(t)), RestingLeg(t));
  }

  /** A trade fills the aggressor first, then the passive party on the opposite side. */
  function Settle(ps: Positions, t: Trade): (r: Positions)
    requires Settles(ps, t)
    ensures AllSound(ps) && t.qty > 0 ==> AllSound(r)
  {
    Fill(Fill(ps, IncomingKey(t), IncomingLeg(t)), RestingKey(t), RestingLeg(t))
  }

  function Mark(ps: Positions, symbol: Symbol, price: int): (r: Positions)
    ensures AllSound(ps) ==> AllSound(r)
  {
    map k | k in ps :: if k.symbol == symbol then ps[k].(unrealized := Unrealized(ps[k], price)) else ps[k]
  }

  class TradeEngine {
    var positions: Positions
    var totalTrades: nat
    var totalVolume: int
    var totalNotional: real

    constructor ()
      ensures positions == map[] && totalTrades == 0 && totalVolume == 0 && totalNotional == 0.0
    {
      positions := map[];
      totalTrades, totalVolume, totalNotional := 0, 0, 0.0;
    }

    /** Books one trade for both parties and adds it to the running totals. */
    method ProcessTrade(t: Trade)
      requires Settles(positions, t)
      modifies this
      ensures positions == Settle(old(positions), t)
      ensures totalTrades == old(totalTrades) + 1 && totalVolume == old(totalVolume) + t.qty
      ensures totalNotional == old(totalNotional) + t.qty as real * t.price as real
    {
      totalTrades := totalTrades + 1;
      totalVolume := totalVolume + t.qty;
      totalNotional := totalNotional + t.qty as real * t.price as real;
      UpdatePosition(t.incomingTrader, t.symbol, t.aggressor, t.qty, t.price);
      var passive := if t.aggressor.Buy? then Sell else Buy;
      UpdatePosition(t.restingTrader, t.symbol, passive, t.qty, t.price);
    }

    method UpdatePosition(trader: TraderId, symbol: Symbol, side: Side, qty: int, price: int)
      requires Averages(Found(positions, Key(trader, symbol)), Leg(side, qty, price))
      modifies this`positions
      ensures positions == Fill(old(positions), Key(trader, symbol), Leg(side, qty, price))
    {
      hide Update;
      var key := Key(trader, symbol);
      var pos := (if key in positions then positions[key] else FLAT).(symbol := symbol);
      assert pos == Found(positions, key);
      if side.Buy? {
        pos := Bought(pos, qty, price);
      } else {
        pos := Sold(pos, qty, price);
      }
      assert side == if side.Buy? then Buy else Sell;
      assert pos == Update(Found(positions, key), Leg(side, qty, price));
      positions := positions[key := pos];
      assert positions == Fill(old(positions), key, Leg(side, qty, price));
    }

    static method Bought(p: Position, qty: int, price: int) returns (pos: Position)
      requires Averages(p, Leg(Buy, qty, price))
      ensures pos == Update(p, Leg(Buy, qty, price))
    {
      hide Average;
      pos := p;
      if pos.net < 0 {
        var closeQty := Min(qty, -pos.net);
        pos := pos.(realized := pos.realized + closeQty as real * (pos.avgSell - price as real));
      }
      if pos.net >= 0 {
        var avg := Averaged(pos.avgBuy, pos.buyQty, price, qty);
        pos := pos.(buyQty := pos.buyQty + qty, avgBuy := avg);
      }
      pos := pos.(net := pos.net + qty);
    }

    static method Sold(p: Position, qty: int, price: int) returns (pos: Position)
      requires Averages(p, Leg(Sell, qty, price))
      ensures pos == Update(p, Leg(Sell, qty, price))
    {
      hide Average;
      pos := p;
      if pos.net > 0 {
        var closeQty := Min(qty, pos.net);
        pos := pos.(realized := pos.realized + closeQty as real * (price as real - pos.avgBuy));
      }
      if pos.net <= 0 {
        var avg := Averaged(pos.avgSell, pos.sellQty, price, qty);
        pos := pos.(sellQty := pos.sellQty + qty, avgSell := avg);
      }
      pos := pos.(net := pos.net - qty);
    }

    static method Averaged(avg: real, held: int, price: int, qty: int) returns (r: real)
      requires held + qty != 0
      ensures r == Average(avg, held, price, qty)
    {
      var oldCost := avg * held as real;
      r := (oldCost + price as real * qty as real) / (held + qty) as real;
    }

    /** Reprices every position in a symbol; nothing but unrealized profit changes. */
    method MarkToMarket(symbol: Symbol, price: int)
      modifies this`positions
      ensures positions == Mark(old(positions), symbol, price)
    {
      ghost var before := positions;
      var left := positions.Keys;
      while left != {}
        invariant left <= positions.Keys == before.Keys
        invariant forall k | k in left :: positions[k] == before[k]
        invariant forall k | k in before && k !in left :: positions[k] == Mark(before, symbol, price)[k]
        decreases left
      {
        var k :| k in left;
        var pos := positions[k];
        if k.symbol == symbol {
          if pos.net > 0 {
            pos := pos.(unrealized := pos.net as real * (price as real - pos.avgBuy));
          } else if pos.net < 0 {
            pos := pos.(unrealized := (-pos.net) as real * (pos.avgSell - price as real));
          } else {
            pos := pos.(unrealized := 0.0);
          }
          positions := positions[k := pos];
        }
        left := left - {k};
      }
    }
  }

  // ---------- Runs ----------

  datatype Event = Traded(trade: Trade) | Marked(symbol: Symbol, price: int)

  predicate Positive(e: Event) {
    e.Traded? ==> e.trade.qty > 0
  }

  ghost predicate AllPositiveEvents(events: seq<Event>) {
    forall i | 0 <= i < |events| :: Positive(events[i])
  }

  /** The positions after a history of trades and marks, newest last, from nothing. */
  ghost function After(events: seq<Event>): (ps: Positions)
    requires AllPositiveEvents(events)
    ensures AllSound(ps)
  {
    if |events| == 0 then map[]
    else
      var n := |events| - 1;
      match events[n]
      case Traded(t) =>
        PositiveSettles(After(events[..n]), t);
        Settle(After(events[..n]), t)
      case Marked(symbol, price) => Mark(After(events[..n]), symbol, price)
  }

  // ---------- Conservation ----------

  ghost function NetIn(ps: Positions, symbol: Symbol): int {
    Sum(map k | k in ps && k.symbol == symbol :: ps[k].net)
  }

  ghost function SignedQty(leg: Leg): int {
    if leg.side.Buy? then leg.qty else -leg.qty
  }

  lemma FillMovesNet(ps: Positions, k: Key, leg: Leg, symbol: Symbol)
    requires AllSound(ps) && leg.qty > 0
    ensures NetIn(Fill(ps, k, leg), symbol) == NetIn(ps, symbol) + if k.symbol == symbol then SignedQty(leg) else 0
  {
    hide Average, Sum, Update;
    var nets := map x | x in ps && x.symbol == symbol :: ps[x].net;
    var ps' := Fill(ps, k, leg);
    var nets' := map x | x in ps' && x.symbol == symbol :: ps'[x].net;
    if k.symbol == symbol {
      UpdateNet(Found(ps, k), leg);
      SumUpdate(nets, k, nets'[k]);
      assert nets' == nets[k := nets'[k]];
    } else {
      assert nets' == nets;
    }
  }

  lemma NothingNets(symbol: Symbol)
    ensures NetIn(map[], symbol) == 0
  {
    var none: Positions := map[];
    assert (map k | k in none && k.symbol == symbol :: none[k].net) == map[];
  }

  lemma MarkKeepsNets(ps: Positions, s: Symbol, price: int, symbol: Symbol)
    ensures NetIn(Mark(ps, s, price), symbol) == NetIn(ps, symbol)
  {
    var ps' := Mark(ps, s, price);
    assert (map k | k in ps' && k.symbol == symbol :: ps'[k].net) ==
           (map k | k in ps && k.symbol == symbol :: ps[k].net);
  }

  /** Zero sum: after any history the net quantities of all traders in a symbol add up to nothing,
      also when a trader trades with itself. */
  lemma {:induction false} NetsCancel(events: seq<Event>, symbol: Symbol)
    requires AllPositiveEvents(events)
    ensures NetIn(After(events), symbol) == 0
  {
    hide Sum, Fill;
    if |events| == 0 {
      NothingNets(symbol);
    } else {
      var n := |events| - 1;
      var ps := After(events[..n]);
      NetsCancel(events[..n], symbol);
      match events[n] {
        case Traded(t) =>
          FillMovesNet(ps, IncomingKey(t), IncomingLeg(t), symbol);
          FillMovesNet(Fill(ps, IncomingKey(t), IncomingLeg(t)), RestingKey(t), RestingLeg(t), symbol);
        case Marked(s, price) =>
          MarkKeepsNets(ps, s, price, symbol);
      }
    }
  }

  // ---------- Every position is the replay of its own legs ----------

  ghost function LegsOfTrade(t: Trade, k: Key): seq<Leg> {
    (if k == Key(t.incomingTrader, t.symbol) then [Leg(t.aggressor, t.qty, t.price)] else [])
    + (if k == Key(t.restingTrader, t.symbol) then [Leg(t.aggressor.Opposite(), t.qty, t.price)] else [])
  }

  /** The legs of one trader in one symbol, oldest first. */
  ghost function LegsOf(events: seq<Event>, k: Key): (legs: seq<Leg>)
    requires AllPositiveEvents(events)
    ensures AllPositive(legs)
  {
    if |events| == 0 then []
    else
      var n := |events| - 1;
      LegsOf(events[..n], k) + match events[n] case Traded(t) => LegsOfTrade(t, k) case Marked(_, _) => []
  }

  /** A position, apart from its last mark, is the replay of a list of legs. */
  ghost predicate Replays(ps: Positions, k: Key, legs: seq<Leg>)
    requires AllPositive(legs)
  {
    && PositionAt(ps, k).(unrealized := 0.0) == Replay(k.symbol, legs)
    && (k in ps <==> |legs| > 0)
  }

  lemma {:induction false} ReplayKeepsSymbol(symbol: Symbol, legs: seq<Leg>)
    requires AllPositive(legs)
    ensures Replay(symbol, legs).symbol == symbol
  {
    hide Average;
    if |legs| > 0 {
      ReplayKeepsSymbol(symbol, legs[..|legs| - 1]);
    }
  }

  lemma UpdateIgnoresMark(p: Position, leg: Leg)
    requires Sound(p) && leg.qty > 0
    ensures Update(p, leg).(unrealized := 0.0) == Update(p.(unrealized := 0.0), leg)
  {
    hide Average;
  }

  lemma FillReplays(ps: Positions, at: Key, leg: Leg, k: Key, legs: seq<Leg>)
    requires AllSound(ps) && leg.qty > 0 && AllPositive(legs) && Replays(ps, k, legs)
    ensures Replays(Fill(ps, at, leg), k, if at == k then legs + [leg] else legs)
  {
    hide Average;
    if at == k {
      assert (legs + [leg])[..|legs|] == legs;
      UpdateIgnoresMark(PositionAt(ps, k), leg);
      ReplayKeepsSymbol(k.symbol, legs);
    }
  }

  lemma NothingReplays(k: Key)
    ensures Replays(map[], k, [])
  {
  }

  lemma MarkReplays(ps: Positions, s: Symbol, price: int, k: Key, legs: seq<Leg>)
    requires AllPositive(legs) && Replays(ps, k, legs)
    ensures Replays(Mark(ps, s, price), k, legs)
  {
    hide Replay;
  }

  /** Whatever else happens in the engine, a position is what its own legs alone make of it. */
  lemma {:induction false} PositionsReplay(events: seq<Event>, k: Key)
    requires AllPositiveEvents(events)
    ensures Replays(After(events), k, LegsOf(events, k))
  {
    hide Replay, Fill, Replays;
    if |events| == 0 {
      NothingReplays(k);
    } else {
      var n := |events| - 1;
      var ps, legs := After(events[..n]), LegsOf(events[..n], k);
      PositionsReplay(events[..n], k);
      match events[n] {
        case Traded(t) =>
          FillReplays(ps, IncomingKey(t), IncomingLeg(t), k, legs);
          var legs' := if IncomingKey(t) == k then legs + [IncomingLeg(t)] else legs;
          FillReplays(Fill(ps, IncomingKey(t), IncomingLeg(t)), RestingKey(t), RestingLeg(t), k, legs');
          assert LegsOf(events, k) == if RestingKey(t) == k then legs' + [RestingLeg(t)] else legs';
        case Marked(s, price) =>
          MarkReplays(ps, s, price, k, legs);
          assert legs + [] == legs;
      }
    }
  }

  lemma ReplaysMeans(ps: Positions, k: Key, legs: seq<Leg>)
    requires AllPositive(legs) && Replays(ps, k, legs) && |legs| > 0
    ensures k in ps && ps[k].(unrealized := 0.0) == Replay(k.symbol, legs)
  {
    hide Replay;
  }

  lemma ShowsIdentity(p: Position, p0: Position, cash: real, price: int)
    requires p.(unrealized := 0.0) == p0 && Identity(p0, cash, price)
    ensures p.realized + Unrealized(p, price) == cash + p.net as real * price as real
  {
    assert p.realized == p0.realized && p.net == p0.net && p.avgBuy == p0.avgBuy && p.avgSell == p0.avgSell;
    assert Unrealized(p, price) == Unrealized(p0, price);
  }

  /** After any history and a mark in the symbol, a position whose legs all keep the identity shows
      realized plus unrealized profit equal to its cash flow plus its open quantity at the mark. */
  lemma MarkedProfit(events: seq<Event>, k: Key, price: int)
    requires AllPositiveEvents(events)
    requires var legs := LegsOf(events, k);
             |legs| > 0 && forall i | 0 <= i < |legs| :: KeepsIdentity(Replay(k.symbol, legs[..i]), legs[i])
    ensures var ps := Mark(After(events), k.symbol, price);
            && k in ps
            && ps[k].realized + ps[k].unrealized == Cash(LegsOf(events, k)) as real + ps[k].net as real * price as real
  {
    hide Replay, KeepsIdentity, Cash, Identity, Unrealized, After, LegsOf, AllPositiveEvents, Replays;
    var ps, legs := After(events), LegsOf(events, k);
    PositionsReplay(events, k);
    ReplaysMeans(ps, k, legs);
    ProfitIdentity(k.symbol, legs, price);
    ShowsIdentity(ps[k], Replay(k.symbol, legs), Cash(legs) as real, price);
  }

  // ---------- Marks ----------

  /** A mark reprices the positions in its symbol and no others, and nothing but their unrealized profit. */
  lemma MarkTouches(ps: Positions, symbol: Symbol, price: int)
    ensures var ps' := Mark(ps, symbol, price);
            && ps'.Keys == ps.Keys
            && (forall k | k in ps && k.symbol != symbol :: ps'[k] == ps[k])
            && forall k | k in ps && k.symbol == symbol ::
                 var p, now := ps[k], ps'[k].unrealized;
                 && ps'[k] == p.(unrealized := now)
                 && (p.net > 0 ==> now == p.net as real * (price as real - p.avgBuy))
                 && (p.net < 0 ==> now == (-p.net) as real * (p.avgSell - price as real))
                 && (p.net == 0 ==> now == 0.0)
  {
  }

  /** The unrealized profit on record for a key, 0.0 for one without a position. */
  function OnRecord(ps: Positions, k: Key): real {
    PositionAt(ps, k).unrealized
  }

  lemma FillKeepsRecord(ps: Positions, at: Key, leg: Leg, k: Key)
    requires Averages(Found(ps, at), leg)
    ensures OnRecord(Fill(ps, at, leg), k) == OnRecord(ps, k)
  {
    hide Average;
  }

  lemma SettleKeepsRecord(ps: Positions, t: Trade, k: Key)
    requires Settles(ps, t)
    ensures OnRecord(Settle(ps, t), k) == OnRecord(ps, k)
  {
    hide Fill, OnRecord, Averages;
    FillKeepsRecord(ps, IncomingKey(t), IncomingLeg(t), k);
    FillKeepsRecord(Fill(ps, IncomingKey(t), IncomingLeg(t)), RestingKey(t), RestingLeg(t), k);
  }

  lemma MarkRecords(ps: Positions, symbol: Symbol, price: int, k: Key)
    ensures OnRecord(Mark(ps, symbol, price), k) ==
            if k.symbol == symbol && k in ps then Unrealized(ps[k], price) else OnRecord(ps, k)
  {
  }

  lemma LastEvent(events: seq<Event>, k: Key)
    requires AllPositiveEvents(events) && |events| > 0
    ensures var n := |events| - 1;
            var before := After(events[..n]);
            OnRecord(After(events), k) ==
            if events[n].Marked? && events[n].symbol == k.symbol && k in before
            then Unrealized(before[k], events[n].price) else OnRecord(before, k)
  {
    hide Settle, Mark, OnRecord, Unrealized;
    var n := |events| - 1;
    match events[n] {
      case Traded(t) =>
        PositiveSettles(After(events[..n]), t);
        SettleKeepsRecord(After(events[..n]), t, k);
      case Marked(symbol, price) =>
        MarkRecords(After(events[..n]), symbol, price, k);
    }
  }

  ghost predicate MarksSymbol(e: Event, symbol: Symbol) {
    e.Marked? && e.symbol == symbol
  }

  lemma NoRecord(ps: Positions, k: Key)
    ensures k !in ps ==> OnRecord(ps, k) == 0.0
  {
  }

  /** After any history a stored unrealized profit is the one at the last mark of its own symbol, from the
      position as it was then. */
  lemma {:induction false} RecordIsLastMark(events: seq<Event>, k: Key, i: nat)
    requires AllPositiveEvents(events) && i < |events| && MarksSymbol(events[i], k.symbol)
    requires forall j | i < j < |events| :: !MarksSymbol(events[j], k.symbol)
    ensures OnRecord(After(events), k) ==
            if k in After(events[..i]) then Unrealized(After(events[..i])[k], events[i].price) else 0.0
    decreases |events|
  {
    hide After, Unrealized, OnRecord;
    var n := |events| - 1;
    LastEvent(events, k);
    if i < n {
      assert events[..n][..i] == events[..i];
      RecordIsLastMark(events[..n], k, i);
    } else {
      NoRecord(After(events[..n]), k);
    }
  }

  /** Without a mark of its symbol it is zero. */
  lemma {:induction false} NeverMarkedIsZero(events: seq<Event>, k: Key)
    requires AllPositiveEvents(events)
    requires forall j | 0 <= j < |events| :: !MarksSymbol(events[j], k.symbol)
    ensures OnRecord(After(events), k) == 0.0
    decreases |events|
  {
    hide Unrealized, OnRecord;
    if |events| == 0 {
      NoRecord(map[], k);
    } else {
      LastEvent(events, k);
      NeverMarkedIsZero(events[..|events| - 1], k);
    }
  }

  /** A trade moves the aggressor's position its own way and the passive party's the other way, by the quantity
      traded, and touches no other position. */
  lemma TradeMoves(ps: Positions, t: Trade, k: Key)
    requires Settles(ps, t)
    ensures var moved := if t.aggressor.Buy? then t.qty else -t.qty;
            PositionAt(Settle(ps, t), k).net ==
            PositionAt(ps, k).net
            + (if k == Key(t.incomingTrader, t.symbol) then moved else 0)
            - (if k == Key(t.restingTrader, t.symbol) then moved else 0)
    ensures k != Key(t.incomingTrader, t.symbol) && k != Key(t.restingTrader, t.symbol) ==>
              (k in Settle(ps, t) <==> k in ps) && PositionAt(Settle(ps, t), k) == PositionAt(ps, k)
  {
    hide Average;
  }
}
