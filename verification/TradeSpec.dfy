/** Position keeping: how one fill changes one position, and what follows for whole histories. */
module TradeSpec {
  import opened Types

  datatype Position = Position(
    symbol: Symbol,
    net: int,
    buyQty: int,
    sellQty: int,
    avgBuy: real,
    avgSell: real,
    realized: real,
    unrealized: real)

  const FLAT := Position(BLANK, 0, 0, 0, 0.0, 0.0, 0.0, 0.0)

  datatype Key = Key(trader: TraderId, symbol: Symbol)

  /** One side of one trade, as it reaches one position. */
  datatype Leg = Leg(side: Side, qty: int, price: int)

  /** Bought and sold quantities are not negative, as they stay when every trade has a positive quantity. */
  predicate Sound(p: Position) {
    p.buyQty >= 0 && p.sellQty >= 0
  }

  function Average(avg: real, held: int, price: int, qty: int): real
    requires held + qty != 0
  {
    (avg * held as real + price as real * qty as real) / (held + qty) as real
  }

  /** The new average, where the leg moves one, is not divided by zero. */
  predicate Averages(p: Position, leg: Leg) {
    if leg.side.Buy? then p.net >= 0 ==> p.buyQty + leg.qty != 0
    else p.net <= 0 ==> p.sellQty + leg.qty != 0
  }

  /** A fill: realizes what it closes at the opposite average, and moves its own average only when
      the position was not on the other side. */
  function Update(p: Position, leg: Leg): Position
    requires Averages(p, leg)
  {
    if leg.side.Buy? then
      var realized := if p.net < 0
                      then p.realized + Min(leg.qty, -p.net) as real * (p.avgSell - leg.price as real) else p.realized;
      var added := if p.net >= 0
                   then p.(buyQty := p.buyQty + leg.qty,
                           avgBuy := Average(p.avgBuy, p.buyQty, leg.price, leg.qty))
                   else p;
      added.(realized := realized, net := p.net + leg.qty)
    else
      var realized := if p.net > 0
                      then p.realized + Min(leg.qty, p.net) as real * (leg.price as real - p.avgBuy) else p.realized;
      var added := if p.net <= 0
                   then p.(sellQty := p.sellQty + leg.qty,
                           avgSell := Average(p.avgSell, p.sellQty, leg.price, leg.qty))
                   else p;
      added.(realized := realized, net := p.net - leg.qty)
  }

  lemma UpdateIsSound(p: Position, leg: Leg)
    requires Sound(p) && leg.qty > 0
    ensures Averages(p, leg) && Sound(Update(p, leg))
  {
    hide Average;
  }

  /** The unrealized profit of a position at a market price. */
  function Unrealized(p: Position, mark: int): real {
    if p.net > 0 then p.net as real * (mark as real - p.avgBuy)
    else if p.net < 0 then (-p.net) as real * (p.avgSell - mark as real)
    else 0.0
  }

  // ---------- One position over its legs ----------

  ghost predicate AllPositive(legs: seq<Leg>) {
    forall i | 0 <= i < |legs| :: legs[i].qty > 0
  }

  /** The position after a history of legs, newest last. */
  ghost function Replay(symbol: Symbol, legs: seq<Leg>): (p: Position)
    requires AllPositive(legs)
    ensures Sound(p)
  {
    if |legs| == 0 then FLAT.(symbol := symbol)
    else
      var n := |legs| - 1;
      Update(Replay(symbol, legs[..n]), legs[n])
  }

  function Held(p: Position, side: Side): int {
    if side.Buy? then p.buyQty else p.sellQty
  }

  function AverageOf(p: Position, side: Side): real {
    if side.Buy? then p.avgBuy else p.avgSell
  }

  /** The cost a position's average and quantity stand for. */
  function Cost(p: Position, side: Side): real {
    AverageOf(p, side) * Held(p, side) as real
  }

  /** Whether a leg builds its side: a buy made while not short, a sell made while not long. */
  predicate Builds(p: Position, leg: Leg, side: Side) {
    leg.side == side && (if side.Buy? then p.net >= 0 else p.net <= 0)
  }

  /** Quantity and cost of the legs that built a side. */
  ghost function Built(symbol: Symbol, legs: seq<Leg>, side: Side): (int, real)
    requires AllPositive(legs)
  {
    if |legs| == 0 then (0, 0.0)
    else
      var n := |legs| - 1;
      var before := Built(symbol, legs[..n], side);
      if Builds(Replay(symbol, legs[..n]), legs[n], side)
      then (before.0 + legs[n].qty, before.1 + legs[n].qty as real * legs[n].price as real)
      else before
  }

  lemma AverageTimesQty(avg: real, held: int, price: int, qty: int)
    requires held + qty != 0
    ensures Average(avg, held, price, qty) * (held + qty) as real == avg * held as real + qty as real * price as real
  {
  }

  lemma UpdateBuilds(p: Position, leg: Leg, side: Side)
    requires Sound(p) && leg.qty > 0
    ensures var p' := Update(p, leg);
            if Builds(p, leg, side) then
              && Held(p', side) == Held(p, side) + leg.qty
              && Cost(p', side) == Cost(p, side) + leg.qty as real * leg.price as real
            else Held(p', side) == Held(p, side) && Cost(p', side) == Cost(p, side)
  {
    hide Average;
    AverageTimesQty(AverageOf(p, side), Held(p, side), leg.price, leg.qty);
  }

  lemma NothingBuilt(symbol: Symbol, side: Side)
    ensures var p := FLAT.(symbol := symbol); Held(p, side) == 0 && Cost(p, side) == 0.0
  {
  }

  /** The stored average times the stored quantity is the summed cost of the legs that built the side. */
  lemma {:induction false} AveragesAreCosts(symbol: Symbol, legs: seq<Leg>, side: Side)
    requires AllPositive(legs)
    ensures var p, built := Replay(symbol, legs), Built(symbol, legs, side);
            Held(p, side) == built.0 && Cost(p, side) == built.1
  {
    hide Update, Held, Cost, Builds;
    if |legs| == 0 {
      NothingBuilt(symbol, side);
    } else {
      var n := |legs| - 1;
      AveragesAreCosts(symbol, legs[..n], side);
      UpdateBuilds(Replay(symbol, legs[..n]), legs[n], side);
    }
  }

  // ---------- Profit and loss ----------

  /** Cash received minus cash paid. */
  function CashOf(leg: Leg): int {
    if leg.side.Buy? then -(leg.qty * leg.price) else leg.qty * leg.price
  }

  ghost function Cash(legs: seq<Leg>): int {
    if |legs| == 0 then 0
    else Cash(legs[..|legs| - 1]) + CashOf(legs[|legs| - 1])
  }

  /** The average a position's open quantity is held at. */
  function Basis(p: Position): real {
    if p.net > 0 then p.avgBuy else if p.net < 0 then p.avgSell else 0.0
  }

  /** Realized plus marked unrealized profit, less cash flow plus open quantity at the mark. */
  function Gap(p: Position, cash: real): real {
    p.realized - p.net as real * Basis(p) - cash
  }

  /** The profit identity: realized plus marked unrealized profit is cash flow plus open quantity at the mark. */
  predicate Identity(p: Position, cash: real, mark: int) {
    p.realized + Unrealized(p, mark) == cash + p.net as real * mark as real
  }

  lemma GapIsIdentity(p: Position, cash: real, mark: int)
    ensures Identity(p, cash, mark) <==> Gap(p, cash) == 0.0
  {
    var n, m := p.net as real, mark as real;
    assert n * (m - p.avgBuy) == n * m - n * p.avgBuy;
    assert (-n) * (p.avgSell - m) == n * m - n * p.avgSell;
    assert (-p.net) as real == -n;
  }

  /** How far one leg moves the gap. */
  ghost function Deviation(p: Position, leg: Leg): real
    requires Sound(p) && leg.qty > 0
  {
    var price := leg.price as real;
    if leg.side.Buy? then
      if p.net >= 0 then (Average(p.avgBuy, p.buyQty, leg.price, leg.qty) - p.avgBuy) * (p.buyQty - p.net) as real
      else if leg.qty <= -p.net then 0.0
      else (p.net + leg.qty) as real * (price - p.avgBuy)
    else
      if p.net <= 0 then (p.avgSell - Average(p.avgSell, p.sellQty, leg.price, leg.qty)) * (p.sellQty + p.net) as real
      else if leg.qty <= p.net then 0.0
      else (p.net - leg.qty) as real * (price - p.avgSell)
  }

  lemma BuildMovesGap(avg: real, held: int, net: int, price: int, qty: int)
    requires held >= 0 && qty > 0
    ensures var avg' := Average(avg, held, price, qty);
            price as real * qty as real - (net + qty) as real * avg' + net as real * avg ==
                (avg' - avg) * (held - net) as real
  {
  }

  lemma CloseMovesGap(p: Position, leg: Leg, cash: real)
    requires Sound(p) && leg.qty > 0 && (leg.side.Buy? ==> p.net < 0) && (leg.side.Sell? ==> p.net > 0)
    ensures Gap(Update(p, leg), cash + CashOf(leg) as real) == Gap(p, cash) + Deviation(p, leg)
  {
  }

  lemma GapMoves(p: Position, leg: Leg, cash: real)
    requires Sound(p) && leg.qty > 0
    ensures Gap(Update(p, leg), cash + CashOf(leg) as real) == Gap(p, cash) + Deviation(p, leg)
  {
    if leg.side.Buy? && p.net >= 0 {
      BuildMovesGap(p.avgBuy, p.buyQty, p.net, leg.price, leg.qty);
    } else if leg.side.Sell? && p.net <= 0 {
      BuildMovesGap(p.avgSell, p.sellQty, -p.net, leg.price, leg.qty);
    } else if leg.side.Buy? {
      CloseMovesGap(p, leg, cash);
    } else {
      CloseMovesGap(p, leg, cash);
    }
  }

  ghost function Deviations(symbol: Symbol, legs: seq<Leg>): real
    requires AllPositive(legs)
  {
    if |legs| == 0 then 0.0
    else
      var n := |legs| - 1;
      Deviations(symbol, legs[..n]) + Deviation(Replay(symbol, legs[..n]), legs[n])
  }

  /** Over any history the gap is the sum of the deviations of its legs. */
  lemma {:induction false} GapIsDeviations(symbol: Symbol, legs: seq<Leg>)
    requires AllPositive(legs)
    ensures Gap(Replay(symbol, legs), Cash(legs) as real) == Deviations(symbol, legs)
  {
    hide Update, Deviation, CashOf;
    if |legs| > 0 {
      hide Gap;
      var n := |legs| - 1;
      GapIsDeviations(symbol, legs[..n]);
      GapMoves(Replay(symbol, legs[..n]), legs[n], Cash(legs[..n]) as real);
    }
  }

  /** When a leg leaves the identity intact: adding to a side at its average or before any of it was
      closed; closing without going through zero; going through zero at the other side's average. */
  predicate KeepsIdentity(p: Position, leg: Leg) {
    var price := leg.price as real;
    if leg.side.Buy? then
      if p.net >= 0 then p.buyQty == p.net || price == p.avgBuy
      else leg.qty <= -p.net || price == p.avgBuy
    else
      if p.net <= 0 then p.sellQty == -p.net || price == p.avgSell
      else leg.qty <= p.net || price == p.avgSell
  }

  lemma ProductZeroIff(a: real, b: real)
    ensures a * b == 0.0 <==> a == 0.0 || b == 0.0
  {
  }

  lemma AverageMovesIff(avg: real, held: int, price: int, qty: int)
    requires held >= 0 && qty > 0
    ensures Average(avg, held, price, qty) == avg <==> price as real == avg
  {
    var a := Average(avg, held, price, qty);
    AverageTimesQty(avg, held, price, qty);
    assert (a - avg) * (held + qty) as real == qty as real * (price as real - avg);
    ProductZeroIff(a - avg, (held + qty) as real);
    ProductZeroIff(qty as real, price as real - avg);
  }

  /** A leg moves the gap by nothing exactly when it is of one of those kinds. */
  lemma DeviationZeroIff(p: Position, leg: Leg)
    requires Sound(p) && leg.qty > 0
    ensures Deviation(p, leg) == 0.0 <==> KeepsIdentity(p, leg)
  {
    if leg.side.Buy? && p.net >= 0 {
      AverageMovesIff(p.avgBuy, p.buyQty, leg.price, leg.qty);
      ProductZeroIff(Average(p.avgBuy, p.buyQty, leg.price, leg.qty) - p.avgBuy, (p.buyQty - p.net) as real);
    } else if leg.side.Sell? && p.net <= 0 {
      AverageMovesIff(p.avgSell, p.sellQty, leg.price, leg.qty);
      ProductZeroIff(p.avgSell - Average(p.avgSell, p.sellQty, leg.price, leg.qty), (p.sellQty + p.net) as real);
    } else if leg.side.Buy? {
      ProductZeroIff((p.net + leg.qty) as real, leg.price as real - p.avgBuy);
    } else {
      ProductZeroIff((p.net - leg.qty) as real, leg.price as real - p.avgSell);
    }
  }

  lemma {:induction false} NoDeviations(symbol: Symbol, legs: seq<Leg>)
    requires AllPositive(legs)
    requires forall i | 0 <= i < |legs| :: KeepsIdentity(Replay(symbol, legs[..i]), legs[i])
    ensures Deviations(symbol, legs) == 0.0
  {
    hide Deviation, Update, KeepsIdentity;
    if |legs| > 0 {
      var n := |legs| - 1;
      assert forall i | 0 <= i < n :: legs[..n][..i] == legs[..i];
      NoDeviations(symbol, legs[..n]);
      DeviationZeroIff(Replay(symbol, legs[..n]), legs[n]);
    }
  }

  /** If every leg of a history keeps the identity, realized plus marked unrealized profit equals cash
      flow plus open quantity at the mark, at any mark. */
  lemma ProfitIdentity(symbol: Symbol, legs: seq<Leg>, mark: int)
    requires AllPositive(legs)
    requires forall i | 0 <= i < |legs| :: KeepsIdentity(Replay(symbol, legs[..i]), legs[i])
    ensures Identity(Replay(symbol, legs), Cash(legs) as real, mark)
  {
    hide Identity, Gap, Update, KeepsIdentity;
    GapIsDeviations(symbol, legs);
    NoDeviations(symbol, legs);
    GapIsIdentity(Replay(symbol, legs), Cash(legs) as real, mark);
  }

  /** The first leg that breaks the identity really breaks it: after it, the identity fails at every mark. */
  lemma FirstBreakFails(symbol: Symbol, legs: seq<Leg>, mark: int)
    requires AllPositive(legs) && |legs| > 0
    requires forall i | 0 <= i < |legs| - 1 :: KeepsIdentity(Replay(symbol, legs[..i]), legs[i])
    ensures Identity(Replay(symbol, legs), Cash(legs) as real, mark) <==>
            KeepsIdentity(Replay(symbol, legs[..|legs| - 1]), legs[|legs| - 1])
  {
    hide Deviation, Update, KeepsIdentity, Identity, Gap;
    var n := |legs| - 1;
    assert forall i | 0 <= i < n :: legs[..n][..i] == legs[..i];
    NoDeviations(symbol, legs[..n]);
    GapIsDeviations(symbol, legs);
    DeviationZeroIff(Replay(symbol, legs[..n]), legs[n]);
    GapIsIdentity(Replay(symbol, legs), Cash(legs) as real, mark);
  }

  /** A concrete break: buy 10 at 10, sell 5 at 10, buy 5 at 20. The second purchase averages against all ten
      ever bought, and the identity fails at every mark. */
  lemma ReAddingBreaks(symbol: Symbol, mark: int)
    ensures var legs := [Leg(Buy, 10, 10), Leg(Sell, 5, 10), Leg(Buy, 5, 20)];
            AllPositive(legs) && !Identity(Replay(symbol, legs), Cash(legs) as real, mark)
  {
    var legs := [Leg(Buy, 10, 10), Leg(Sell, 5, 10), Leg(Buy, 5, 20)];
    var p0 := FLAT.(symbol := symbol);
    var p1 := p0.(net := 10, buyQty := 10, avgBuy := 10.0);
    var p2 := p1.(net := 5);
    assert legs[..0] == [] && legs[..1] == [Leg(Buy, 10, 10)] && legs[..1][..0] == [];
    assert legs[..2] == [Leg(Buy, 10, 10), Leg(Sell, 5, 10)] && legs[..2][..1] == legs[..1];
    assert Replay(symbol, legs[..0]) == p0;
    assert Average(0.0, 0, 10, 10) == 10.0;
    assert Replay(symbol, legs[..1]) == Update(p0, legs[0]) == p1;
    assert Replay(symbol, legs[..2]) == Update(p1, legs[1]) == p2;
    FirstBreakFails(symbol, legs, mark);
  }

  /** A position built from flat by legs of one side. */
  ghost predicate OneSided(legs: seq<Leg>, side: Side) {
    forall i | 0 <= i < |legs| :: legs[i].side == side
  }

  lemma {:induction false} BuildingHolds(symbol: Symbol, legs: seq<Leg>, side: Side)
    requires AllPositive(legs) && OneSided(legs, side)
    ensures var p := Replay(symbol, legs);
            if side.Buy? then p.net == p.buyQty >= 0 else -p.net == p.sellQty >= 0
  {
    hide Average;
    if |legs| > 0 {
      BuildingHolds(symbol, legs[..|legs| - 1], side);
    }
  }

  lemma UpdateNet(p: Position, leg: Leg)
    requires Sound(p) && leg.qty > 0
    ensures Update(p, leg).net == p.net + (if leg.side.Buy? then leg.qty else -leg.qty)
  {
    hide Average;
  }

  lemma {:induction false} ReducingKeepsSign(symbol: Symbol, legs: seq<Leg>, k: nat, side: Side, i: nat)
    requires AllPositive(legs) && k <= i <= |legs|
    requires OneSided(legs[..k], side) && OneSided(legs[k..], side.Opposite())
    requires forall j | k <= j < |legs| :: legs[j].qty <= Abs(Replay(symbol, legs[..j]).net)
    ensures var p := Replay(symbol, legs[..i]); if side.Buy? then p.net >= 0 else p.net <= 0
  {
    hide Update;
    if i == k {
      BuildingHolds(symbol, legs[..k], side);
    } else {
      UpdateNet(Replay(symbol, legs[..i - 1]), legs[i - 1]);
      ReducingKeepsSign(symbol, legs, k, side, i - 1);
      assert legs[..i][..i - 1] == legs[..i - 1] && legs[i - 1] == legs[k..][i - 1 - k];
    }
  }

  /** The plain life of a position: built by one side, then only reduced without crossing zero. */
  lemma BuiltThenReduced(symbol: Symbol, legs: seq<Leg>, k: nat, side: Side, mark: int)
    requires AllPositive(legs) && k <= |legs|
    requires OneSided(legs[..k], side) && OneSided(legs[k..], side.Opposite())
    requires forall i | k <= i < |legs| :: legs[i].qty <= Abs(Replay(symbol, legs[..i]).net)
    ensures Identity(Replay(symbol, legs), Cash(legs) as real, mark)
  {
    hide Update, Identity;
    forall i | 0 <= i < |legs|
      ensures KeepsIdentity(Replay(symbol, legs[..i]), legs[i])
    {
      if i < k {
        assert legs[..i] == legs[..k][..i] && legs[i] == legs[..k][i];
        BuildingHolds(symbol, legs[..i], side);
      } else {
        assert legs[i] == legs[k..][i - k];
        ReducingKeepsSign(symbol, legs, k, side, i);
      }
    }
    ProfitIdentity(symbol, legs, mark);
  }
}
