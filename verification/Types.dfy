/** The value types shared by every component: enumerations, orders, trades and reports. */
module Types {
  type OrderId = nat
  type TraderId = nat
  type Symbol = string
  type Timestamp = nat

  /** The default-constructed symbol, used by cancel requests that leave routing to the engine. */
  const BLANK: Symbol := ""

  datatype Option<+T> = None | Some(value: T)

  datatype Side = Buy | Sell {
    function Opposite(): Side {
      if Buy? then Sell else Buy
    }
  }

  datatype OrderType = Limit | Market

  datatype TimeInForce = Day | IOC | FOK | GTC

  datatype OrderStatus = New | PartiallyFilled | Filled | Canceled | Rejected

  datatype RejectReason =
    | NoReason
    | UnknownSymbol
    | InvalidPrice
    | InvalidQuantity
    | PositionLimit
    | RateLimit
    | KillSwitchActive
    | DuplicateOrderId
    | InsufficientLiquidity

  datatype Order = Order(
    id: OrderId,
    trader: TraderId,
    symbol: Symbol,
    side: Side,
    orderType: OrderType,
    tif: TimeInForce,
    price: int,
    quantity: int,
    submitTime: Timestamp)

  datatype CancelRequest = CancelRequest(orderId: OrderId, symbol: Symbol)

  datatype ReplaceRequest = ReplaceRequest(
    orderId: OrderId,
    trader: TraderId,
    symbol: Symbol,
    newPrice: int,
    newQty: int)

  datatype Trade = Trade(
    tradeId: nat,
    restingId: OrderId,
    incomingId: OrderId,
    restingTrader: TraderId,
    incomingTrader: TraderId,
    symbol: Symbol,
    aggressor: Side,
    price: int,
    qty: int,
    timestamp: Timestamp)

  datatype ExecutionReport = ExecutionReport(
    orderId: OrderId,
    trader: TraderId,
    symbol: Symbol,
    side: Side,
    orderType: OrderType,
    status: OrderStatus,
    price: int,
    orderQty: int,
    filledQty: int,
    lastQty: int,
    lastPrice: int,
    leavesQty: int,
    transactTime: Timestamp,
    reason: RejectReason)

  /** An ExecutionReport as `ExecutionReport rpt{}` leaves it. */
  const BLANK_REPORT := ExecutionReport(0, 0, BLANK, Buy, Limit, New, 0, 0, 0, 0, 0, 0, 0, NoReason)

  datatype BookLevel = BookLevel(price: int, qty: int, orderCount: nat)

  datatype TopOfBook = TopOfBook(
    symbol: Symbol,
    bestBid: BookLevel,
    bestAsk: BookLevel,
    midPrice: int,
    microPrice: int,
    spread: int,
    timestamp: Timestamp,
    valid: bool)

  function Min(a: int, b: int): int {
    if a <= b then a else b
  }

  function Abs(a: int): int {
    if a < 0 then -a else a
  }

  /** C++ integer division: the quotient is truncated toward zero. */
  function TruncDiv(a: int, b: int): int
    requires b > 0
  {
    if a >= 0 then a / b else -((-a) / b)
  }

  /** The quantity a list of trades exchanged. */
  ghost function SumQty(trades: seq<Trade>): int {
    if |trades| == 0 then 0 else trades[0].qty + SumQty(trades[1..])
  }

  lemma {:induction false} SumQtyConcat(a: seq<Trade>, b: seq<Trade>)
    ensures SumQty(a + b) == SumQty(a) + SumQty(b)
  {
    if |a| == 0 {
      assert a + b == b;
    } else {
      assert (a + b)[1..] == a[1..] + b;
      SumQtyConcat(a[1..], b);
    }
  }
}
