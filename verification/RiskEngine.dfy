/** The risk engine: per-trader state updated in place, proved to follow RiskSpec. */
module RiskEngines {
  import opened Types
  import opened RiskSpec

  /** A trader's state written back is the one looked up next; limits do not depend on states. */
  lemma StateStored(r: Risk, before: Risk, trader: TraderId)
    requires r.states == before.states[trader := StateOf(before, trader)]
    requires r.limits == before.limits && r.defaults == before.defaults
    ensures StateOf(r, trader) == StateOf(before, trader) && LimitsOf(r, trader) == LimitsOf(before, trader)
  {
  }

  lemma SameSwitches(r: Risk, before: Risk, trader: TraderId)
    requires r == before.(ordersChecked := r.ordersChecked)
    ensures Killed(r, trader) <==> Killed(before, trader)
    ensures StateOf(r, trader) == StateOf(before, trader) && LimitsOf(r, trader) == LimitsOf(before, trader)
  {
  }

  class RiskEngine {
    var defaultLimits: Limits
    var traderLimits: map<TraderId, Limits>
    var traderStates: map<TraderId, TraderState>
    var globalKill: bool
    var ordersChecked: nat
    var ordersRejected: nat

    ghost function State(): Risk
      reads this
    {
      Risk(defaultLimits, traderLimits, traderStates, globalKill, ordersChecked, ordersRejected)
    }

    constructor ()
      ensures State() == NEW_RISK
      ensures defaultLimits == Limits(10_000, 100_000, 1_000, 1_000) && !globalKill
      ensures traderLimits == map[] && traderStates == map[] && ordersChecked == ordersRejected == 0
    {
      defaultLimits := DEFAULT_LIMITS;
      traderLimits, traderStates := map[], map[];
      globalKill := false;
      ordersChecked, ordersRejected := 0, 0;
    }

    method SetTraderLimits(trader: TraderId, limits: Limits)
      modifies this
      ensures State() == old(State()).(limits := old(traderLimits)[trader := limits])
    {
      traderLimits := traderLimits[trader := limits];
    }

    method SetDefaultLimits(limits: Limits)
      modifies this
      ensures State() == old(State()).(defaults := limits)
    {
      defaultLimits := limits;
    }

    /** Creates a trader's state on first use, as looking it up does. */
    method GetState(trader: TraderId) returns (s: TraderState)
      modifies this`traderStates
      ensures s == StateOf(old(State()), trader)
      ensures traderStates == old(traderStates)[trader := s]
    {
      if trader !in traderStates {
        traderStates := traderStates[trader := NEW_STATE];
      }
      s := traderStates[trader];
    }

    method GetLimits(trader: TraderId) returns (limits: Limits)
      ensures limits == LimitsOf(State(), trader)
    {
      limits := if trader in traderLimits then traderLimits[trader] else defaultLimits;
    }

    /** All checks, in order, with the counters. */
    method CheckOrder(order: Order) returns (reason: RejectReason)
      modifies this
      ensures State() == RiskSpec.CheckOrder(old(State()), order).0
      ensures reason == RiskSpec.CheckOrder(old(State()), order).1
    {
      hide RateCheck, WithinPosition, Abs, StateOf, LimitsOf, Killed;
      ordersChecked := ordersChecked + 1;
      SameSwitches(State(), old(State()), order.trader);
      var killed := IsKilled(order.trader);
      if killed {
        ordersRejected := ordersRejected + 1;
        return KillSwitchActive;
      }
      if order.orderType.Limit? && order.price <= 0 {
        ordersRejected := ordersRejected + 1;
        return InvalidPrice;
      }
      if order.quantity <= 0 {
        ordersRejected := ordersRejected + 1;
        return InvalidQuantity;
      }
      reason := CheckPositionLimit(order);
      if reason != NoReason {
        ordersRejected := ordersRejected + 1;
        return;
      }
      StateStored(State(), old(State()), order.trader);
      reason := CheckRateLimit(order.trader, order.submitTime);
      if reason != NoReason {
        ordersRejected := ordersRejected + 1;
        return;
      }
      return NoReason;
    }

    method CheckPositionLimit(order: Order) returns (reason: RejectReason)
      modifies this`traderStates
      ensures traderStates == old(traderStates)[order.trader := StateOf(old(State()), order.trader)]
      ensures var limits, s := LimitsOf(old(State()), order.trader), StateOf(old(State()), order.trader);
              reason == if WithinPosition(limits, s, order) then NoReason else PositionLimit
    {
      var limits := GetLimits(order.trader);
      var s := GetState(order.trader);
      var current := if order.symbol in s.positions then s.positions[order.symbol] else 0;
      var projected := if order.side.Buy? then current + order.quantity else current - order.quantity;
      if Abs(projected) > limits.maxPositionPerSymbol {
        return PositionLimit;
      }
      var projectedNet := if order.side.Buy? then s.net + order.quantity else s.net - order.quantity;
      if Abs(projectedNet) > limits.maxNetPosition {
        return PositionLimit;
      }
      return NoReason;
    }

    method CheckRateLimit(trader: TraderId, now: Timestamp) returns (reason: RejectReason)
      modifies this`traderStates
      ensures var s := StateOf(old(State()), trader);
              var (times, pass) := RateCheck(s.timestamps, LimitsOf(old(State()), trader), now);
              && traderStates == old(traderStates)[trader := s.(timestamps := times)]
              && reason == if pass then NoReason else RateLimit
    {
      var limits := GetLimits(trader);
      var s := GetState(trader);
      var window := limits.rateWindowMs * NANOS_PER_MILLI;
      var times := s.timestamps;
      while |times| != 0 && Elapsed(now, times[0]) > window
        invariant Purge(times, now, window) == Purge(s.timestamps, now, window)
        decreases |times|
      {
        times := times[1..];
      }
      if |times| >= limits.maxOrderRate {
        traderStates := traderStates[trader := s.(timestamps := times)];
        return RateLimit;
      }
      traderStates := traderStates[trader := s.(timestamps := times + [now])];
      return NoReason;
    }

    method OnFill(trader: TraderId, symbol: Symbol, side: Side, qty: int)
      modifies this
      ensures State() == RiskSpec.OnFill(old(State()), trader, symbol, side, qty)
    {
      var s := GetState(trader);
      var held := if symbol in s.positions then s.positions[symbol] else 0;
      if side.Buy? {
        s := s.(positions := s.positions[symbol := held + qty], net := s.net + qty);
      } else {
        s := s.(positions := s.positions[symbol := held - qty], net := s.net - qty);
      }
      traderStates := traderStates[trader := s];
    }

    method KillTrader(trader: TraderId)
      modifies this
      ensures Killed(State(), trader)
      ensures var s := StateOf(old(State()), trader);
              State() == old(State()).(states := old(traderStates)[trader := s.(killed := true)])
    {
      var s := GetState(trader);
      traderStates := traderStates[trader := s.(killed := true)];
    }

    method KillAll()
      modifies this
      ensures forall trader :: Killed(State(), trader)
      ensures State() == old(State()).(globalKill := true)
    {
      globalKill := true;
    }

    method UnkillTrader(trader: TraderId)
      modifies this
      ensures Killed(State(), trader) <==> globalKill
      ensures var s := StateOf(old(State()), trader);
              State() == old(State()).(states := old(traderStates)[trader := s.(killed := false)])
    {
      var s := GetState(trader);
      traderStates := traderStates[trader := s.(killed := false)];
    }

    /** Lifts the global switch and every trader's own; nothing else about any trader changes. */
    method UnkillAll()
      modifies this
      ensures forall trader :: !Killed(State(), trader)
      ensures traderStates == map t | t in old(traderStates) :: old(traderStates)[t].(killed := false)
      ensures State() == old(State()).(globalKill := false, states := traderStates)
    {
      globalKill := false;
      var left := traderStates.Keys;
      while left != {}
        invariant left <= traderStates.Keys == old(traderStates).Keys
        invariant forall t | t in left :: traderStates[t] == old(traderStates)[t]
        invariant forall t | t in traderStates && t !in left ::
                    traderStates[t] == old(traderStates)[t].(killed := false)
        invariant State() == old(State()).(globalKill := false, states := traderStates)
        decreases left
      {
        var t :| t in left;
        traderStates := traderStates[t := traderStates[t].(killed := false)];
        left := left - {t};
      }
    }

    method IsKilled(trader: TraderId) returns (killed: bool)
      ensures killed <==> Killed(State(), trader)
    {
      if globalKill {
        return true;
      }
      return trader in traderStates && traderStates[trader].killed;
    }

    method GetPosition(trader: TraderId, symbol: Symbol) returns (qty: int)
      ensures qty == PositionOf(StateOf(State(), trader), symbol)
    {
      if trader !in traderStates || symbol !in traderStates[trader].positions {
        return 0;
      }
      return traderStates[trader].positions[symbol];
    }
  }
}
