/** Pre-trade risk: what each check decides and what state it leaves. */
module RiskSpec {
  import opened Types

  const TWO_64: nat := 0x1_0000_0000_0000_0000
  const NANOS_PER_MILLI: nat := 1_000_000
  const DEFAULT_POSITION_LIMIT := 10_000
  const DEFAULT_ORDER_RATE_LIMIT: UInt32 := 1_000
  const DEFAULT_RATE_LIMIT_WINDOW_MS: UInt32 := 1_000

  type UInt32 = x: nat | x < 0x1_0000_0000

  datatype Limits = Limits(maxPositionPerSymbol: int, maxNetPosition: int, maxOrderRate: UInt32, rateWindowMs: UInt32)

  datatype TraderState = TraderState(positions: map<Symbol, int>, timestamps: seq<Timestamp>, net: int, killed: bool)

  datatype Risk = Risk(
    defaults: Limits,
    limits: map<TraderId, Limits>,
    states: map<TraderId, TraderState>,
    globalKill: bool,
    ordersChecked: nat,
    ordersRejected: nat)

  const DEFAULT_LIMITS :=
    Limits(DEFAULT_POSITION_LIMIT, DEFAULT_POSITION_LIMIT * 10, DEFAULT_ORDER_RATE_LIMIT, DEFAULT_RATE_LIMIT_WINDOW_MS)

  const NEW_STATE := TraderState(map[], [], 0, false)

  const NEW_RISK := Risk(DEFAULT_LIMITS, map[], map[], false, 0, 0)

  function LimitsOf(r: Risk, trader: TraderId): Limits {
    if trader in r.limits then r.limits[trader] else r.defaults
  }

  /** The state a trader has, or gets on first use. */
  function StateOf(r: Risk, trader: TraderId): TraderState {
    if trader in r.states then r.states[trader] else NEW_STATE
  }

  function PositionOf(s: TraderState, symbol: Symbol): int {
    if symbol in s.positions then s.positions[symbol] else 0
  }

  function Signed(side: Side, qty: int): int {
    if side.Buy? then qty else -qty
  }

  // ---------- Checks ----------

  predicate Killed(r: Risk, trader: TraderId) {
    r.globalKill || (trader in r.states && r.states[trader].killed)
  }

  predicate WithinPosition(limits: Limits, s: TraderState, order: Order) {
    && Abs(PositionOf(s, order.symbol) + Signed(order.side, order.quantity)) <= limits.maxPositionPerSymbol
    && Abs(s.net + Signed(order.side, order.quantity)) <= limits.maxNetPosition
  }

  /** Unsigned 64-bit subtraction of two time stamps. */
  function Elapsed(now: Timestamp, since: Timestamp): nat {
    (now - since) % TWO_64
  }

  function WindowOf(limits: Limits): nat {
    limits.rateWindowMs * NANOS_PER_MILLI
  }

  /** The deque after dropping expired time stamps from its front. */
  function Purge(times: seq<Timestamp>, now: Timestamp, window: nat): seq<Timestamp> {
    if |times| > 0 && Elapsed(now, times[0]) > window then Purge(times[1..], now, window) else times
  }

  /** The rate check: the deque it leaves, and whether the order may pass. */
  function RateCheck(times: seq<Timestamp>, limits: Limits, now: Timestamp): (seq<Timestamp>, bool) {
    var recent := Purge(times, now, WindowOf(limits));
    if |recent| >= limits.maxOrderRate then (recent, false) else (recent + [now], true)
  }

  /** The checks in their order; the position check creates the trader's state, the rate check purges it. */
  function CheckOrder(r: Risk, order: Order): (Risk, RejectReason) {
    var counted := r.(ordersChecked := r.ordersChecked + 1);
    var refused := counted.(ordersRejected := r.ordersRejected + 1);
    var s := StateOf(r, order.trader);
    if Killed(r, order.trader) then (refused, KillSwitchActive)
    else if order.orderType.Limit? && order.price <= 0 then (refused, InvalidPrice)
    else if order.quantity <= 0 then (refused, InvalidQuantity)
    else if !WithinPosition(LimitsOf(r, order.trader), s, order) then
      (refused.(states := r.states[order.trader := s]), PositionLimit)
    else
      var (times, pass) := RateCheck(s.timestamps, LimitsOf(r, order.trader), order.submitTime);
      var states := r.states[order.trader := s.(timestamps := times)];
      if pass then (counted.(states := states), NoReason) else (refused.(states := states), RateLimit)
  }

  function OnFill(r: Risk, trader: TraderId, symbol: Symbol, side: Side, qty: int): Risk {
    var s := StateOf(r, trader);
    var moved := s.(positions := s.positions[symbol := PositionOf(s, symbol) + Signed(side, qty)],
                    net := s.net + Signed(side, qty));
    r.(states := r.states[trader := moved])
  }
}
