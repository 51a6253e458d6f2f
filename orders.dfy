/**
 * The entities of the order book: orders, their details and status, and trades,
 * together with the predicates and the price-time priority comparator of an order.
 */
module Orders {

  /** Order and trade ids come from counters (they stand in for random UUIDs). */
  type OrderId = nat
  type TradeId = nat

  /** Timestamps come from a strictly increasing clock (they stand in for wall-clock time). */
  type Timestamp = nat

  datatype TradingPair = TradingPair(id: string, name: string, stockSymbol: string, currency: string)

  datatype OrderType = LimitBuy | LimitSell

  datatype OrderStatus = Posted | Cancelled | PartiallyFilled | Filled

  /** What a client asks for; prices are integer ticks. Nothing is checked yet. */
  datatype OrderDetails = OrderDetails(kind: OrderType, price: int, shares: int)

  /** An order as the book stores it; `shares` is the number of shares still unfilled. */
  datatype Order = Order(
    id: OrderId,
    kind: OrderType,
    price: int,
    shares: nat,
    status: OrderStatus,
    timestamp: Timestamp,
    tradeIds: seq<TradeId>)

  /** An execution between a bid-side order and an ask-side order. */
  datatype Trade = Trade(
    id: TradeId,
    timestamp: Timestamp,
    bidOrderId: OrderId,
    askOrderId: OrderId,
    shares: nat,
    price: int)

  predicate IsSellOrder(o: Order) {
    o.kind == LimitSell
  }

  predicate IsBuyOrder(o: Order) {
    o.kind == LimitBuy
  }

  /** Only posted and partially filled orders may still trade (or be cancelled). */
  predicate CanBeFilled(o: Order) {
    o.status == Posted || o.status == PartiallyFilled
  }

  predicate IsNewerThan(o: Order, other: Order) {
    o.timestamp > other.timestamp
  }

  function AddTrade(o: Order, trade: Trade): Order {
    o.(tradeIds := o.tradeIds + [trade.id])
  }

  /**
   * Positive when `o` has better priority than `other`, negative when worse:
   * at equal prices the difference of the timestamps (older is better), otherwise
   * +1 or -1 by price, where a buy prefers the higher and a sell the lower price.
   */
  function PriorityAgainst(o: Order, other: Order): (r: int)
    ensures o.kind == other.kind ==> (r > 0 <==> Outranks(o, other)) && (r < 0 <==> Outranks(other, o))
  {
    if o.price == other.price then other.timestamp - o.timestamp
    else if IsBuyOrder(o) then (if o.price > other.price then 1 else -1)
    else (if o.price < other.price then 1 else -1)
  }

  /**
   * Price-time priority stated on its own: `a` ranks strictly above `b` when its price
   * is better for its side, or when the prices are equal and `a` is older.
   */
  ghost predicate Outranks(a: Order, b: Order) {
    if a.price != b.price then
      (if a.kind == LimitBuy then a.price > b.price else a.price < b.price)
    else
      a.timestamp < b.timestamp
  }

  /** The comparator ties only an order with itself in price and time, and is antisymmetric. */
  lemma PriorityIsPriceTime(a: Order, b: Order)
    requires a.kind == b.kind
    ensures PriorityAgainst(a, b) == 0 <==> a.price == b.price && a.timestamp == b.timestamp
    ensures PriorityAgainst(a, b) == -PriorityAgainst(b, a)
  {
  }

  /** "Not better than" is transitive on orders of one side, so sorting by it is well defined. */
  lemma PriorityTransitive(a: Order, b: Order, c: Order)
    requires a.kind == b.kind == c.kind
    requires PriorityAgainst(a, b) <= 0 && PriorityAgainst(b, c) <= 0
    ensures PriorityAgainst(a, c) <= 0
  {
  }

  /** Order details a book accepts: a positive number of shares at a positive price. */
  predicate AreOrderDetailsValid(details: OrderDetails) {
    details.shares > 0 && details.price > 0
  }

  /**
   * The status moves that the book ever makes: Posted to PartiallyFilled, and a
   * fillable order to Filled or Cancelled. Filled and Cancelled are terminal.
   */
  predicate CanAdvance(from: OrderStatus, to: OrderStatus) {
    from == to ||
    (from == Posted && to == PartiallyFilled) ||
    ((from == Posted || from == PartiallyFilled) && (to == Filled || to == Cancelled))
  }

  lemma CanAdvanceTransitive(a: OrderStatus, b: OrderStatus, c: OrderStatus)
    requires CanAdvance(a, b) && CanAdvance(b, c)
    ensures CanAdvance(a, c)
    ensures a == Filled || a == Cancelled ==> c == a
  {
  }
}
