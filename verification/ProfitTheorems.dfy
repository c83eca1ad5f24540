/** What all traders' positions in a symbol add up to: no cash is made, and profits cancel up to the
    deviations of single legs from the profit identity. */
module ProfitTheorems {
  import opened Types
  import opened MapSum
  import opened TradeSpec
  import opened TradeEngines

  // ---------- Cash ----------

  /** Cash received less cash paid, per key. */
  type CashBook = map<Key, int>

  ghost function Pay(c: CashBook, k: Key, amount: int): CashBook {
    c[k := (if k in c then c[k] else 0) + amount]
  }

  ghost function CashAfter(events: seq<Event>): CashBook {
    if |events| == 0 then map[]
    else
      var n := |events| - 1;
      match events[n]
      case Traded(t) =>
        Pay(Pay(CashAfter(events[..n]), IncomingKey(t), CashOf(IncomingLeg(t))), RestingKey(t), CashOf(RestingLeg(t)))
      case Marked(_, _) => CashAfter(events[..n])
  }

  ghost function CashIn(c: CashBook, symbol: Symbol): int {
    Sum(map k | k in c && k.symbol == symbol :: c[k])
  }

  lemma PayMovesCash(c: CashBook, k: Key, amount: int, symbol: Symbol)
    ensures CashIn(Pay(c, k, amount), symbol) == CashIn(c, symbol) + if k.symbol == symbol then amount else 0
  {
    hide Sum;
    var part := map x | x in c && x.symbol == symbol :: c[x];
    var c' := Pay(c, k, amount);
    var part' := map x | x in c' && x.symbol == symbol :: c'[x];
    if k.symbol == symbol {
      SumUpdate(part, k, c'[k]);
      assert part' == part[k := c'[k]];
    } else {
      assert part' == part;
    }
  }

  lemma NoCash(symbol: Symbol)
    ensures CashIn(map[], symbol) == 0
  {
    var none: CashBook := map[];
    assert (map k | k in none && k.symbol == symbol :: none[k]) == map[];
  }

  /** What one party to a trade pays the other receives. */
  lemma {:induction false} CashBookCancels(events: seq<Event>, symbol: Symbol)
    ensures CashIn(CashAfter(events), symbol) == 0
  {
    hide Sum, CashIn, Pay;
    if |events| == 0 {
      NoCash(symbol);
    } else {
      var n := |events| - 1;
      var c := CashAfter(events[..n]);
      CashBookCancels(events[..n], symbol);
      match events[n] {
        case Traded(t) =>
          PayMovesCash(c, IncomingKey(t), CashOf(IncomingLeg(t)), symbol);
          PayMovesCash(Pay(c, IncomingKey(t), CashOf(IncomingLeg(t))), RestingKey(t), CashOf(RestingLeg(t)), symbol);
        case Marked(_, _) =>
      }
    }
  }

  /** The cash book holds the cash flow of a key's legs, once it has any. */
  ghost predicate Holds(c: CashBook, k: Key, legs: seq<Leg>) {
    (k in c <==> |legs| > 0) && (if k in c then c[k] else 0) == Cash(legs)
  }

  lemma PayHolds(c: CashBook, at: Key, leg: Leg, k: Key, legs: seq<Leg>)
    requires Holds(c, k, legs)
    ensures Holds(Pay(c, at, CashOf(leg)), k, if at == k then legs + [leg] else legs)
  {
    hide CashOf;
    if at == k {
      assert (legs + [leg])[..|legs|] == legs;
    }
  }

  lemma NothingHeld(k: Key)
    ensures Holds(map[], k, [])
  {
  }

  lemma {:induction false} CashBookHolds(events: seq<Event>, k: Key)
    requires AllPositiveEvents(events)
    ensures Holds(CashAfter(events), k, LegsOf(events, k))
  {
    hide Holds, Pay, Cash, CashOf;
    if |events| == 0 {
      NothingHeld(k);
    } else {
      var n := |events| - 1;
      var c, legs := CashAfter(events[..n]), LegsOf(events[..n], k);
      CashBookHolds(events[..n], k);
      match events[n] {
        case Traded(t) =>
          PayHolds(c, IncomingKey(t), IncomingLeg(t), k, legs);
          var legs' := if IncomingKey(t) == k then legs + [IncomingLeg(t)] else legs;
          PayHolds(Pay(c, IncomingKey(t), CashOf(IncomingLeg(t))), RestingKey(t), RestingLeg(t), k, legs');
          assert LegsOf(events, k) == if RestingKey(t) == k then legs' + [RestingLeg(t)] else legs';
        case Marked(_, _) =>
          assert legs + [] == legs;
      }
    }
  }

  /** The cash flows of all traders with a position in a symbol. */
  ghost function CashFlows(events: seq<Event>, symbol: Symbol): map<Key, int>
    requires AllPositiveEvents(events)
  {
    map k | k in After(events) && k.symbol == symbol :: Cash(LegsOf(events, k))
  }

  /** They sum to zero after any history. */
  lemma CashFlowsCancel(events: seq<Event>, symbol: Symbol)
    requires AllPositiveEvents(events)
    ensures Sum(CashFlows(events, symbol)) == 0
  {
    hide Sum, After, LegsOf, CashAfter, Cash, Replay, AllPositiveEvents;
    var c := CashAfter(events);
    CashBookCancels(events, symbol);
    forall k
      ensures (k in c <==> k in After(events)) && (k in c ==> c[k] == Cash(LegsOf(events, k)))
    {
      CashBookHolds(events, k);
      PositionsReplay(events, k);
    }
    assert CashFlows(events, symbol) == map k | k in c && k.symbol == symbol :: c[k];
  }

  // ---------- Profit ----------

  /** Realized plus unrealized profit of every position in a symbol, marked at a price. */
  ghost function Profits(events: seq<Event>, symbol: Symbol, price: int): map<Key, real>
    requires AllPositiveEvents(events)
  {
    var ps := Mark(After(events), symbol, price);
    map k | k in ps && k.symbol == symbol :: ps[k].realized + ps[k].unrealized
  }

  /** How far each position's legs took it from the profit identity. */
  ghost function AllDeviations(events: seq<Event>, symbol: Symbol): map<Key, real>
    requires AllPositiveEvents(events)
  {
    map k | k in After(events) && k.symbol == symbol :: Deviations(k.symbol, LegsOf(events, k))
  }

  lemma GapIsProfit(p: Position, cash: int, mark: int)
    ensures p.realized + Unrealized(p, mark) == Gap(p, cash as real) + (cash + mark * p.net) as real
  {
    var n, m := p.net as real, mark as real;
    assert n * (m - p.avgBuy) == n * m - n * p.avgBuy;
    assert (-n) * (p.avgSell - m) == n * m - n * p.avgSell;
    assert (-p.net) as real == -n && (mark * p.net) as real == m * n;
  }

  lemma HasLegs(ps: Positions, k: Key, legs: seq<Leg>)
    requires AllPositive(legs) && Replays(ps, k, legs) && k in ps
    ensures |legs| > 0
  {
  }

  lemma GapIgnoresMark(p: Position, cash: real)
    ensures Gap(p, cash) == Gap(p.(unrealized := 0.0), cash)
  {
  }

  lemma ProfitOf(events: seq<Event>, k: Key, price: int)
    requires AllPositiveEvents(events) && k in After(events)
    ensures var ps := Mark(After(events), k.symbol, price);
            && k in ps
            && ps[k].realized + ps[k].unrealized ==
               Deviations(k.symbol, LegsOf(events, k))
               + (Cash(LegsOf(events, k)) + price * After(events)[k].net) as real
  {
    hide Replay, Cash, After, LegsOf, AllPositiveEvents, Replays, Gap, Unrealized, Deviations;
    var p, legs := After(events)[k], LegsOf(events, k);
    PositionsReplay(events, k);
    HasLegs(After(events), k, legs);
    ReplaysMeans(After(events), k, legs);
    GapIsDeviations(k.symbol, legs);
    GapIsProfit(p, Cash(legs), price);
    GapIgnoresMark(p, Cash(legs) as real);
  }

  /** Cash flow plus open quantity at a price, per position. */
  ghost function Worths(events: seq<Event>, symbol: Symbol, price: int): map<Key, int>
    requires AllPositiveEvents(events)
  {
    map k | k in After(events) && k.symbol == symbol :: Cash(LegsOf(events, k)) + price * After(events)[k].net
  }

  lemma WorthsCancel(events: seq<Event>, symbol: Symbol, price: int)
    requires AllPositiveEvents(events)
    ensures Sum(Worths(events, symbol, price)) == 0
  {
    hide Sum, After, LegsOf, Cash, AllPositiveEvents;
    var ps := After(events);
    var nets := map k | k in ps && k.symbol == symbol :: ps[k].net;
    SumScaled(Worths(events, symbol, price), CashFlows(events, symbol), nets, price);
    CashFlowsCancel(events, symbol);
    NetsCancel(events, symbol);
  }

  /** After any history the profits of all traders in a symbol, marked at any price, add up to the summed
      deviations of their legs. */
  lemma ProfitsAreDeviations(events: seq<Event>, symbol: Symbol, price: int)
    requires AllPositiveEvents(events)
    ensures RealSum(Profits(events, symbol, price)) == RealSum(AllDeviations(events, symbol))
  {
    hide Sum, RealSum, After, LegsOf, Cash, Deviations, AllPositiveEvents, Unrealized;
    WorthsCancel(events, symbol, price);
    forall k | k in After(events) && k.symbol == symbol
      ensures k in Profits(events, symbol, price)
      ensures Profits(events, symbol, price)[k] ==
              AllDeviations(events, symbol)[k] + Worths(events, symbol, price)[k] as real
    {
      ProfitOf(events, k, price);
    }
    RealSumSplits(Profits(events, symbol, price), AllDeviations(events, symbol), Worths(events, symbol, price));
  }

  /** When every leg of every position keeps the identity, the profits cancel. */
  lemma ProfitsCancel(events: seq<Event>, symbol: Symbol, price: int)
    requires AllPositiveEvents(events)
    requires forall k | k in After(events) && k.symbol == symbol ::
               forall i | 0 <= i < |LegsOf(events, k)| ::
                 KeepsIdentity(Replay(k.symbol, LegsOf(events, k)[..i]), LegsOf(events, k)[i])
    ensures RealSum(Profits(events, symbol, price)) == 0.0
  {
    hide Sum, RealSum, After, LegsOf, Deviations, AllPositiveEvents, Replay, KeepsIdentity, Profits;
    forall k | k in After(events) && k.symbol == symbol
      ensures Deviations(k.symbol, LegsOf(events, k)) == 0.0
    {
      NoDeviations(k.symbol, LegsOf(events, k));
    }
    RealSumOfZeros(AllDeviations(events, symbol));
    ProfitsAreDeviations(events, symbol, price);
  }
}
