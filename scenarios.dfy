/**
 * The resting book of the side-query tests: three bids and three asks that do not cross.
 * Ids and timestamps follow the order of creation; the orders of equal price differ in
 * timestamp only.
 */
module Scenarios {
  import opened Wrappers
  import opened Orders
  import opened PrioritySort
  import opened BookQueries

  const OldestHighestBid := Order(0, LimitBuy, 120, 100, Posted, 0, [])
  const NewerHighestBid := Order(1, LimitBuy, 120, 100, Posted, 1, [])
  const LowestBid := Order(2, LimitBuy, 100, 100, Posted, 2, [])
  const OldestLowestAsk := Order(3, LimitSell, 130, 100, Posted, 3, [])
  const HighestAsk := Order(4, LimitSell, 140, 100, Posted, 4, [])
  const NewerLowestAsk := Order(5, LimitSell, 130, 100, Posted, 5, [])

  function Book(): map<OrderId, Order> {
    map[0 := OldestHighestBid, 1 := NewerHighestBid, 2 := LowestBid,
        3 := OldestLowestAsk, 4 := HighestAsk, 5 := NewerLowestAsk]
  }

  lemma BookIndexed(orders: map<OrderId, Order>)
    requires orders == Book()
    ensures Indexed(orders, 6)
  {
  }

  /** The fillable orders of a side are exactly the three listed, each once. */
  lemma SideListed(orders: map<OrderId, Order>, kind: OrderType, a: Order, b: Order, c: Order)
    requires orders == Book()
    requires a != b && b != c && a != c
    requires forall id :: id in orders && orders[id].kind == kind ==> orders[id] in {a, b, c}
    requires a.kind == kind && b.kind == kind && c.kind == kind
    requires Resting(orders, a) && Resting(orders, b) && Resting(orders, c)
    ensures forall o :: multiset([a, b, c])[o] == (if o.kind == kind && Resting(orders, o) then 1 else 0)
  {
    forall o: Order
      ensures multiset([a, b, c])[o] == (if o.kind == kind && Resting(orders, o) then 1 else 0)
    {
      if o.kind == kind && Resting(orders, o) {
        assert orders[o.id] in {a, b, c};
      }
    }
  }

  /** The buy side lists the bids by ascending priority: the lowest price, then the newer of the two at 120. */
  lemma BuyOrdersScenario(orders: map<OrderId, Order>, n: nat)
    requires orders == Book() && n == 6
    ensures BuyOrders(orders, n) == [LowestBid, NewerHighestBid, OldestHighestBid]
    ensures BidOrder(orders, n) == Some(OldestHighestBid)
  {
    BookIndexed(orders);
    SideListed(orders, LimitBuy, LowestBid, NewerHighestBid, OldestHighestBid);
    SideOrdersUnique(orders, n, LimitBuy, [LowestBid, NewerHighestBid, OldestHighestBid]);
  }

  /** The sell side lists the asks by ascending priority: the highest price, then the newer of the two at 130. */
  lemma SellOrdersScenario(orders: map<OrderId, Order>, n: nat)
    requires orders == Book() && n == 6
    ensures SellOrders(orders, n) == [HighestAsk, NewerLowestAsk, OldestLowestAsk]
    ensures AskOrder(orders, n) == Some(OldestLowestAsk)
  {
    BookIndexed(orders);
    SideListed(orders, LimitSell, HighestAsk, NewerLowestAsk, OldestLowestAsk);
    SideOrdersUnique(orders, n, LimitSell, [HighestAsk, NewerLowestAsk, OldestLowestAsk]);
  }
}
