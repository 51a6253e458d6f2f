/**
 * The read-only queries of the order book, as functions over its table of orders:
 * the fillable orders, the fillable orders of one side in ascending priority, the best
 * bid and ask, the crossing test, and trade lookup.
 *
 * Order ids are handed out by a counter, so the ids below `nextOrderId` enumerate the
 * table in insertion order, the order in which the original lists an object's values.
 */
module BookQueries {
  import opened Wrappers
  import opened Orders
  import opened PrioritySort

  ghost predicate KeyedById(orders: map<OrderId, Order>) {
    forall id :: id in orders ==> orders[id].id == id
  }

  /** Every order is stored under its own id, and every id was handed out below `n`. */
  ghost predicate Indexed(orders: map<OrderId, Order>, n: nat) {
    KeyedById(orders) && forall id :: id in orders ==> id < n
  }

  /** `o` is in the book and may still trade. */
  ghost predicate Resting(orders: map<OrderId, Order>, o: Order) {
    o.id in orders && orders[o.id] == o && CanBeFilled(o)
  }

  ghost predicate DistinctTimestamps(orders: map<OrderId, Order>) {
    forall i, j :: i in orders && j in orders && i != j ==> orders[i].timestamp != orders[j].timestamp
  }

  /** The fillable orders among ids below `n`, each once, in id order. */
  function PendingOrders(orders: map<OrderId, Order>, n: nat): (r: seq<Order>)
    ensures KeyedById(orders) ==>
      forall o :: multiset(r)[o] == (if o.id < n && Resting(orders, o) then 1 else 0)
  {
    if n == 0 then []
    else
      var earlier := PendingOrders(orders, n - 1);
      if n - 1 in orders && CanBeFilled(orders[n - 1]) then earlier + [orders[n - 1]] else earlier
  }

  function Filter(s: seq<Order>, kind: OrderType): (r: seq<Order>)
    ensures forall o :: multiset(r)[o] == (if o.kind == kind then multiset(s)[o] else 0)
  {
    if s == [] then []
    else
      assert s == [s[0]] + s[1..];
      (if s[0].kind == kind then [s[0]] else []) + Filter(s[1..], kind)
  }

  function SideOrders(orders: map<OrderId, Order>, n: nat, kind: OrderType): seq<Order> {
    SortByPriority(Filter(PendingOrders(orders, n), kind))
  }

  function SellOrders(orders: map<OrderId, Order>, n: nat): seq<Order> {
    SideOrders(orders, n, LimitSell)
  }

  function BuyOrders(orders: map<OrderId, Order>, n: nat): seq<Order> {
    SideOrders(orders, n, LimitBuy)
  }

  /** The last, that is best, order of a side; `None` where the original reads past an empty list. */
  function Best(sorted: seq<Order>): Option<Order> {
    if |sorted| == 0 then None else Some(sorted[|sorted| - 1])
  }

  function BidOrder(orders: map<OrderId, Order>, n: nat): Option<Order> {
    Best(BuyOrders(orders, n))
  }

  function AskOrder(orders: map<OrderId, Order>, n: nat): Option<Order> {
    Best(SellOrders(orders, n))
  }

  /**
   * Whether `o` would trade now: it must be fillable, and a buy must reach the best ask
   * and a sell the best bid. An empty opposite side never matches.
   */
  function CanBeMatchedWithOrder(orders: map<OrderId, Order>, n: nat, o: Order): bool {
    if !CanBeFilled(o) then false
    else if IsBuyOrder(o) then
      match AskOrder(orders, n)
      case None => false
      case Some(ask) => o.price >= ask.price
    else
      match BidOrder(orders, n)
      case None => false
      case Some(bid) => o.price <= bid.price
  }

  /** The trade stored under each id, in the order of the ids; `None` for an unknown id. */
  function GetTradesByIds(trades: map<TradeId, Trade>, ids: seq<TradeId>): (r: seq<Option<Trade>>)
    ensures |r| == |ids|
    ensures forall i :: 0 <= i < |ids| ==>
      (r[i].Some? <==> ids[i] in trades) && (r[i].Some? ==> r[i].value == trades[ids[i]])
  {
    seq(|ids|, i requires 0 <= i < |ids| => if ids[i] in trades then Some(trades[ids[i]]) else None)
  }

  /**
   * A side query returns exactly the fillable orders of that side, each once, sorted
   * ascending by priority.
   */
  lemma SideOrdersSpec(orders: map<OrderId, Order>, n: nat, kind: OrderType)
    requires Indexed(orders, n)
    ensures SortedByPriority(SideOrders(orders, n, kind))
    ensures OfKind(SideOrders(orders, n, kind), kind)
    ensures forall o ::
      multiset(SideOrders(orders, n, kind))[o] == (if o.kind == kind && Resting(orders, o) then 1 else 0)
  {
    var filtered := Filter(PendingOrders(orders, n), kind);
    forall i | 0 <= i < |filtered|
      ensures filtered[i].kind == kind
    {
      assert filtered[i] in multiset(filtered);
    }
    SortSorted(filtered, kind);
  }

  /**
   * The best order of a side exists exactly when the side has a fillable order, and it
   * is then a fillable order of that side that no other fillable order of the side beats.
   */
  lemma BestOrderSpec(orders: map<OrderId, Order>, n: nat, kind: OrderType)
    requires Indexed(orders, n)
    ensures Best(SideOrders(orders, n, kind)).None? <==>
      forall id :: id in orders ==> !(orders[id].kind == kind && CanBeFilled(orders[id]))
    ensures Best(SideOrders(orders, n, kind)).Some? ==>
      var best := Best(SideOrders(orders, n, kind)).value;
      && best.kind == kind && Resting(orders, best)
      && forall id :: id in orders && orders[id].kind == kind && CanBeFilled(orders[id]) ==>
        PriorityAgainst(orders[id], best) <= 0
  {
    var side := SideOrders(orders, n, kind);
    SideOrdersSpec(orders, n, kind);
    if |side| == 0 {
      forall id | id in orders
        ensures !(orders[id].kind == kind && CanBeFilled(orders[id]))
      {
        assert multiset(side)[orders[id]] == 0;
      }
    } else {
      var best := side[|side| - 1];
      assert best in multiset(side);
      LastIsBest(side);
      forall id | id in orders && orders[id].kind == kind && CanBeFilled(orders[id])
        ensures PriorityAgainst(orders[id], best) <= 0
      {
        assert orders[id] in multiset(side);
      }
    }
  }

  /**
   * Any listing of exactly the fillable orders of a side that is sorted by priority and
   * free of timestamp clashes is what the side query returns.
   */
  lemma SideOrdersUnique(orders: map<OrderId, Order>, n: nat, kind: OrderType, expected: seq<Order>)
    requires Indexed(orders, n)
    requires OfKind(expected, kind) && SortedByPriority(expected) && TimestampsDistinct(expected)
    requires forall o :: multiset(expected)[o] == (if o.kind == kind && Resting(orders, o) then 1 else 0)
    ensures SideOrders(orders, n, kind) == expected
  {
    SideOrdersSpec(orders, n, kind);
    assert multiset(expected) == multiset(SideOrders(orders, n, kind));
    SortedPermutationUnique(expected, SideOrders(orders, n, kind), kind);
  }

  /** With distinct timestamps the best order strictly outranks every other one of its side. */
  lemma BestOrderStrict(orders: map<OrderId, Order>, n: nat, kind: OrderType)
    requires Indexed(orders, n) && DistinctTimestamps(orders)
    requires Best(SideOrders(orders, n, kind)).Some?
    ensures var best := Best(SideOrders(orders, n, kind)).value;
      forall id :: id in orders && id != best.id && orders[id].kind == kind && CanBeFilled(orders[id]) ==>
        Outranks(best, orders[id])
  {
    BestOrderSpec(orders, n, kind);
    var best := Best(SideOrders(orders, n, kind)).value;
    forall id | id in orders && id != best.id && orders[id].kind == kind && CanBeFilled(orders[id])
      ensures Outranks(best, orders[id])
    {
      PriorityIsPriceTime(orders[id], best);
    }
  }

  /** A fillable order that outranks every other fillable order of its side is the best one. */
  lemma OutrankingIsBest(orders: map<OrderId, Order>, n: nat, kind: OrderType, c: Order)
    requires Indexed(orders, n) && Resting(orders, c) && c.kind == kind
    requires forall id :: id in orders && id != c.id && orders[id].kind == kind && CanBeFilled(orders[id]) ==>
      Outranks(c, orders[id])
    ensures Best(SideOrders(orders, n, kind)) == Some(c)
  {
    BestOrderSpec(orders, n, kind);
  }

  /** `c` is a resting order on the other side whose limit `o` reaches. */
  ghost predicate Crosses(o: Order, c: Order) {
    c.kind != o.kind && CanBeFilled(c) &&
    (if IsBuyOrder(o) then o.price >= c.price else o.price <= c.price)
  }

  /** The best ask has the lowest price of the fillable asks, the best bid the highest of the bids. */
  lemma BestPriceBound(orders: map<OrderId, Order>, n: nat, kind: OrderType, id: OrderId)
    requires Indexed(orders, n)
    requires id in orders && orders[id].kind == kind && CanBeFilled(orders[id])
    ensures Best(SideOrders(orders, n, kind)).Some?
    ensures var best := Best(SideOrders(orders, n, kind)).value;
      if kind == LimitBuy then orders[id].price <= best.price else orders[id].price >= best.price
  {
    BestOrderSpec(orders, n, kind);
    PriorityIsPriceTime(orders[id], Best(SideOrders(orders, n, kind)).value);
  }

  /** The side that `o` trades against. */
  function OtherSide(o: Order): OrderType {
    if IsBuyOrder(o) then LimitSell else LimitBuy
  }

  /** The crossing test compares the limit of `o` with that of the best order of the other side. */
  lemma CanBeMatchedWithBest(orders: map<OrderId, Order>, n: nat, o: Order)
    ensures var best := Best(SideOrders(orders, n, OtherSide(o)));
      CanBeMatchedWithOrder(orders, n, o) <==>
        CanBeFilled(o) && best.Some? &&
        (if IsBuyOrder(o) then o.price >= best.value.price else o.price <= best.value.price)
  {
    if IsBuyOrder(o) {
      assert AskOrder(orders, n) == Best(SideOrders(orders, n, LimitSell));
    } else {
      assert BidOrder(orders, n) == Best(SideOrders(orders, n, LimitBuy));
    }
  }

  /** A crossing test that holds names a resting order that `o` crosses: the best one. */
  lemma MatchedHasCrossing(orders: map<OrderId, Order>, n: nat, o: Order)
    requires Indexed(orders, n) && CanBeMatchedWithOrder(orders, n, o)
    ensures CanBeFilled(o)
    ensures var best := Best(SideOrders(orders, n, OtherSide(o)));
      best.Some? && best.value.id in orders && Crosses(o, orders[best.value.id])
  {
    CanBeMatchedWithBest(orders, n, o);
    BestOrderSpec(orders, n, OtherSide(o));
  }

  /** A resting order that `o` crosses makes the crossing test hold. */
  lemma CrossingIsMatched(orders: map<OrderId, Order>, n: nat, o: Order, id: OrderId)
    requires Indexed(orders, n) && CanBeFilled(o) && id in orders && Crosses(o, orders[id])
    ensures CanBeMatchedWithOrder(orders, n, o)
  {
    CanBeMatchedWithBest(orders, n, o);
    BestPriceBound(orders, n, OtherSide(o), id);
    BestOrderSpec(orders, n, OtherSide(o));
  }

  /** An id that holds no order adds nothing to the pending orders. */
  lemma PendingOrdersSkip(orders: map<OrderId, Order>, n: nat)
    requires n !in orders
    ensures PendingOrders(orders, n + 1) == PendingOrders(orders, n)
  {
  }

  /** Counting one more id that holds no order changes neither side, nor the crossing test. */
  lemma SkippingFreeIdKeepsQueries(orders: map<OrderId, Order>, n: nat, o: Order)
    requires n !in orders
    ensures BidOrder(orders, n + 1) == BidOrder(orders, n) && AskOrder(orders, n + 1) == AskOrder(orders, n)
    ensures CanBeMatchedWithOrder(orders, n + 1, o) == CanBeMatchedWithOrder(orders, n, o)
  {
    PendingOrdersSkip(orders, n);
    assert SideOrders(orders, n + 1, LimitBuy) == SideOrders(orders, n, LimitBuy);
    assert SideOrders(orders, n + 1, LimitSell) == SideOrders(orders, n, LimitSell);
    SameBestSameCrossing(orders, n + 1, n, o);
  }

  /** The crossing test depends on the best bid and the best ask alone. */
  lemma SameBestSameCrossing(orders: map<OrderId, Order>, n: nat, m: nat, o: Order)
    requires BidOrder(orders, n) == BidOrder(orders, m) && AskOrder(orders, n) == AskOrder(orders, m)
    ensures CanBeMatchedWithOrder(orders, n, o) == CanBeMatchedWithOrder(orders, m, o)
  {
  }

  /**
   * The crossing test holds exactly when `o` is fillable and some fillable order on the
   * other side has a limit that `o` reaches; cancelled and filled orders never count.
   */
  lemma CanBeMatchedIff(orders: map<OrderId, Order>, n: nat, o: Order)
    requires Indexed(orders, n)
    ensures CanBeMatchedWithOrder(orders, n, o) <==>
      CanBeFilled(o) && exists id :: id in orders && Crosses(o, orders[id])
  {
    if CanBeMatchedWithOrder(orders, n, o) {
      MatchedHasCrossing(orders, n, o);
    } else if CanBeFilled(o) && exists id :: id in orders && Crosses(o, orders[id]) {
      var id :| id in orders && Crosses(o, orders[id]);
      CrossingIsMatched(orders, n, o, id);
    }
  }
}
