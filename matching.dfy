/**
 * The order book of one instrument: its tables of orders and trades, order creation with
 * the matching sweep, settlement of single trades, and cancellation.
 */
module Matching {
  import opened Wrappers
  import opened Orders
  import opened Settlement
  import opened BookQueries
  import opened BookState

  datatype BookError = InvalidOrderDetails | OrderNotFound | OrderNotCancellable

  class OrderBook {
    const tradingPair: TradingPair
    var orders: map<OrderId, Order>
    var trades: map<TradeId, Trade>
    /** The counters that stand in for fresh UUIDs and for the clock. */
    var nextOrderId: OrderId
    var nextTradeId: TradeId
    var now: Timestamp
    /** The share count each order was created with. */
    ghost var originalShares: map<OrderId, nat>

    ghost function Snapshot(): State
      reads this
    {
      State(orders, trades, nextOrderId, nextTradeId, now, originalShares)
    }

    ghost predicate Valid()
      reads this
    {
      Invariant(Snapshot())
    }

    constructor (tradingPair: TradingPair)
      ensures Valid()
      ensures this.tradingPair == tradingPair
      ensures Snapshot() == State(map[], map[], 0, 0, 0, map[])
    {
      this.tradingPair := tradingPair;
      orders := map[];
      trades := map[];
      nextOrderId := 0;
      nextTradeId := 0;
      now := 0;
      originalShares := map[];
    }

    method SaveOrder(order: Order)
      modifies this`orders
      ensures orders == old(orders)[order.id := order]
    {
      orders := orders[order.id := order];
    }

    method SaveTrade(trade: Trade)
      modifies this`trades
      ensures trades == old(trades)[trade.id := trade]
    {
      trades := trades[trade.id := trade];
    }

    /** A new Posted order with the next id and the current time. */
    method NewOrder(details: OrderDetails) returns (order: Order)
      requires Valid() && AreOrderDetailsValid(details)
      modifies this`nextOrderId, this`now, this`originalShares
      ensures Valid() && Incoming(Snapshot(), order) && order.id !in orders
      ensures order == PostedOrder(old(Snapshot()), details)
      ensures Snapshot() == Opened(old(Snapshot()), details.shares)
    {
      ghost var s := Snapshot();
      OpeningKeepsInvariant(s, details.shares);
      order := Order(nextOrderId, details.kind, details.price, details.shares, Posted, now, []);
      originalShares := originalShares[order.id := details.shares];
      nextOrderId := nextOrderId + 1;
      now := now + 1;
      assert Snapshot() == Opened(s, details.shares);
      OpenedIsIncoming(s, order);
    }

    /**
     * Records one trade between a crossing buy and sell: both trade the smaller remaining
     * count at the older order's price, both are updated and stored, and the trade is stored.
     */
    method CreateTradeBetween(bid: Order, ask: Order) returns (trade: Trade)
      requires Valid() && Participant(Snapshot(), bid) && Participant(Snapshot(), ask)
      requires IsBuyOrder(bid) && IsSellOrder(ask) && CanBeFilled(bid) && CanBeFilled(ask)
      requires bid.id != ask.id && bid.timestamp != ask.timestamp && bid.price >= ask.price
      modifies this`orders, this`trades, this`nextTradeId, this`now
      ensures Valid()
      ensures trade == Trade(old(nextTradeId), old(now), bid.id, ask.id, SharesToTrade(bid, ask), TradePrice(bid, ask))
      ensures nextTradeId == old(nextTradeId) + 1 && now == old(now) + 1
      ensures Snapshot() == AfterTrade(old(Snapshot()), bid, ask)
    {
      ghost var s := Snapshot();
      var sharesToBeTraded := SharesToTrade(bid, ask);
      var tradePrice := TradePrice(bid, ask);
      trade := Trade(nextTradeId, now, bid.id, ask.id, sharesToBeTraded, tradePrice);
      assert trade == NextTrade(s, bid, ask);
      nextTradeId := nextTradeId + 1;
      now := now + 1;
      SaveOrder(Fill(bid, trade));
      SaveOrder(Fill(ask, trade));
      SaveTrade(trade);
      ghost var s' := AfterTrade(s, bid, ask);
      assert orders == s'.orders && trades == s'.trades;
      assert nextTradeId == s'.nextTradeId && now == s'.now;
      assert nextOrderId == s'.nextOrderId && originalShares == s'.originalShares;
      assert State(orders, trades, nextOrderId, nextTradeId, now, originalShares) == s';
      SettlementKeepsInvariant(s, bid, ask);
    }

    /**
     * One step of the sweep: the incoming order trades with the best order of the other
     * side, at that order's price, and one of the two ends up Filled.
     */
    method FillOrder(order: Order) returns (filled: Order)
      requires Valid() && Incoming(Snapshot(), order)
      requires CanBeMatchedWithOrder(orders, nextOrderId, order)
      modifies this`orders, this`trades, this`nextTradeId, this`now
      ensures Valid() && Incoming(Snapshot(), filled)
      ensures (Snapshot(), filled) == Step(old(Snapshot()), order)
    {
      ghost var s := Snapshot();
      BestCounterpartyCrosses(s, order);
      var counterparty: Order;
      if IsBuyOrder(order) {
        counterparty := AskOrder(orders, nextOrderId).value;
      } else {
        counterparty := BidOrder(orders, nextOrderId).value;
      }
      assert counterparty == BestCounterparty(s, order).value;
      TakingStep(s, order, counterparty);
      var bid, ask := BidSide(order, counterparty), AskSide(order, counterparty);
      TakingMeetsSettlement(s, order, counterparty);
      var trade := CreateTradeBetween(bid, ask);
      filled := Fill(order, trade);
    }

    /**
     * The sweep: while the incoming order crosses the book, it trades with the best order
     * of the other side. Each trade lowers its remaining shares, so the sweep ends, and it
     * ends with an order that no longer crosses.
     */
    method FillOrderIfPossible(incoming: Order) returns (order: Order)
      requires Valid() && Incoming(Snapshot(), incoming)
      modifies this`orders, this`trades, this`nextTradeId, this`now
      ensures Valid() && Incoming(Snapshot(), order)
      ensures (Snapshot(), order) == Sweep(old(Snapshot()), incoming)
    {
      order := incoming;
      while CanBeMatchedWithOrder(orders, nextOrderId, order)
        invariant Valid() && Incoming(Snapshot(), order)
        invariant Sweep(Snapshot(), order) == Sweep(old(Snapshot()), incoming)
        decreases order.shares
      {
        ghost var s, taker := Snapshot(), order;
        order := FillOrder(order);
        assert Sweep(s, taker) == Sweep(Snapshot(), order);
      }
    }

    /**
     * Validates the details, creates a Posted order, sweeps it against the book and stores
     * it. Invalid details are an error that leaves the book as it was.
     */
    method CreateOrder(details: OrderDetails) returns (r: Result<Order, BookError>)
      requires Valid()
      modifies this
      ensures Valid()
      ensures !AreOrderDetailsValid(details) ==> r == Failure(InvalidOrderDetails) && unchanged(this)
      ensures AreOrderDetailsValid(details) ==>
        && r == Success(Creation(old(Snapshot()), details).1)
        && Snapshot() == Creation(old(Snapshot()), details).0
      ensures r.Success? ==> Created(old(Snapshot()), Snapshot(), details, r.value)
    {
      if !AreOrderDetailsValid(details) {
        return Failure(InvalidOrderDetails);
      }
      ghost var s0 := Snapshot();
      var order := NewOrder(details);
      order := FillOrderIfPossible(order);
      ghost var s2 := Snapshot();
      SaveOrder(order);
      assert State(orders, trades, nextOrderId, nextTradeId, now, originalShares) == Stored(s2, order);
      CreationOutcome(s0, details);
      r := Success(order);
    }

    /**
     * Cancels a fillable order. An unknown id and an order already Filled or Cancelled are
     * errors that leave the book as it was.
     */
    method CancelOrderById(id: OrderId) returns (r: Result<Order, BookError>)
      requires Valid()
      modifies this`orders
      ensures Valid()
      ensures id !in old(orders) ==> r == Failure(OrderNotFound) && orders == old(orders)
      ensures id in old(orders) && !CanBeFilled(old(orders)[id]) ==>
        r == Failure(OrderNotCancellable) && orders == old(orders)
      ensures id in old(orders) && CanBeFilled(old(orders)[id]) ==>
        r == Success(old(orders)[id].(status := Cancelled)) && orders == old(orders)[id := r.value]
      ensures Evolves(old(orders), orders)
    {
      if id !in orders {
        return Failure(OrderNotFound);
      }
      var order := orders[id];
      if !CanBeFilled(order) {
        return Failure(OrderNotCancellable);
      }
      ghost var s := Snapshot();
      CancellingKeepsInvariant(s, id);
      CancellingEvolves(s.orders, id);
      order := order.(status := Cancelled);
      SaveOrder(order);
      assert State(orders, trades, nextOrderId, nextTradeId, now, originalShares) == Stored(s, order);
      r := Success(order);
    }
  }
}
