/**
 * Matching on small books: an order that meets no opposite side is posted as it is; an
 * order that meets one resting order of the same size fills both in one trade at the
 * resting price; and a bid that meets two smaller asks at its price fills in two trades,
 * the older ask first. Prices are in ticks of 0.1, so 102 stands for 10.2.
 */
module MatchingScenarios {
  import opened Wrappers
  import opened Orders
  import opened Settlement
  import opened BookQueries
  import opened BookState

  /** The state of a book just constructed. */
  function EmptyBook(): State {
    State(map[], map[], 0, 0, 0, map[])
  }

  /** A book with no order on the other side of `o` does not cross it. */
  lemma OneSidedBookDoesNotCross(s: State, o: Order)
    requires Invariant(s)
    requires forall id :: id in s.orders ==> s.orders[id].kind == o.kind
    ensures !CrossesBook(s, o)
  {
    CanBeMatchedWithBest(s.orders, s.nextOrderId, o);
    BestOrderSpec(s.orders, s.nextOrderId, OtherSide(o));
  }

  /** An order that meets no order of the other side is stored as posted, and nothing else happens. */
  lemma PostedWithoutCounterparty(s: State, details: OrderDetails)
    requires Invariant(s) && AreOrderDetailsValid(details)
    requires forall id :: id in s.orders ==> s.orders[id].kind == details.kind
    ensures var o := Order(s.nextOrderId, details.kind, details.price, details.shares, Posted, s.now, []);
      && Creation(s, details).1 == o
      && Creation(s, details).0 == s.(orders := s.orders[o.id := o],
                                       nextOrderId := s.nextOrderId + 1, now := s.now + 1,
                                       originalShares := s.originalShares[o.id := details.shares])
  {
    OneSidedBookDoesNotCross(s, PostedOrder(s, details));
    CreationWithoutCrossing(s, details);
  }

  /**
   * A resting order `c` that `o` crosses and that outranks every other fillable order of
   * its side makes the book cross `o`, with `c` as the best counterparty.
   */
  lemma OutrankingCounterparty(s: State, o: Order, c: Order)
    requires Invariant(s) && CanBeFilled(o) && Resting(s.orders, c) && Crosses(o, c)
    requires forall id :: id in s.orders && id != c.id && s.orders[id].kind == c.kind && CanBeFilled(s.orders[id]) ==>
      Outranks(c, s.orders[id])
    ensures CrossesBook(s, o) && BestCounterparty(s, o) == Some(c)
  {
    CrossingIsMatched(s.orders, s.nextOrderId, o, c.id);
    OutrankingIsBest(s.orders, s.nextOrderId, c.kind, c);
    if IsBuyOrder(o) {
      assert BestCounterparty(s, o) == Best(SideOrders(s.orders, s.nextOrderId, LimitSell));
    } else {
      assert BestCounterparty(s, o) == Best(SideOrders(s.orders, s.nextOrderId, LimitBuy));
    }
  }

  /** The sweep of `o` against a book holding only `c`, which it crosses, is a single step. */
  lemma SingleCounterpartySweep(s: State, o: Order, c: Order)
    requires Invariant(s) && Incoming(s, o) && CanBeFilled(o)
    requires s.orders == map[c.id := c] && Crosses(o, c) && c.shares == o.shares
    ensures var t := NextTrade(s, BidSide(o, c), AskSide(o, c));
      Sweep(s, o) == (AfterTrade(s, BidSide(o, c), AskSide(o, c)), Fill(o, t))
  {
    assert Resting(s.orders, c);
    OutrankingCounterparty(s, o, c);
    StepWith(s, o, c);
    var t := NextTrade(s, BidSide(o, c), AskSide(o, c));
    assert t.shares == o.shares;
    SweepEndsWhenFilled(s, o);
  }

  /** The trade of equal sizes between a newer `o` and the older `c` it crosses, and the state after it. */
  lemma SingleCounterpartyTrade(s: State, o: Order, c: Order)
    requires s.orders == map[c.id := c] && Crosses(o, c) && c.shares == o.shares
    requires o.id != c.id && c.timestamp < o.timestamp && o.tradeIds == []
    ensures var t := NextTrade(s, BidSide(o, c), AskSide(o, c));
      && t == Trade(s.nextTradeId, s.now, if IsBuyOrder(o) then o.id else c.id,
                    if IsBuyOrder(o) then c.id else o.id, c.shares, c.price)
      && Fill(o, t) == Order(o.id, o.kind, o.price, 0, Filled, o.timestamp, [t.id])
      && AfterTrade(s, BidSide(o, c), AskSide(o, c)).orders ==
           map[c.id := c.(shares := 0, status := Filled, tradeIds := c.tradeIds + [t.id]), o.id := Fill(o, t)]
      && AfterTrade(s, BidSide(o, c), AskSide(o, c)).trades == s.trades[t.id := t]
      && Stored(AfterTrade(s, BidSide(o, c), AskSide(o, c)), Fill(o, t)) == AfterTrade(s, BidSide(o, c), AskSide(o, c))
  {
    assert o.tradeIds + [s.nextTradeId] == [s.nextTradeId];
  }

  /** Opening an order that crosses the single resting order `c` keeps the book holding only `c`. */
  lemma OpenedAgainstCounterparty(s: State, details: OrderDetails, c: Order)
    requires Invariant(s) && AreOrderDetailsValid(details)
    requires s.orders == map[c.id := c] && c.kind != details.kind && CanBeFilled(c)
    requires if details.kind == LimitBuy then details.price >= c.price else details.price <= c.price
    ensures var s1, posted := Opened(s, details.shares), PostedOrder(s, details);
      && Invariant(s1) && Incoming(s1, posted) && CanBeFilled(posted)
      && s1.orders == map[c.id := c] && Crosses(posted, c)
      && posted.id != c.id && c.timestamp < posted.timestamp
      && s1.nextTradeId == s.nextTradeId && s1.now == s.now + 1 && s1.trades == s.trades
  {
    OpeningKeepsInvariant(s, details.shares);
    OpenedIsIncoming(s, PostedOrder(s, details));
    OpenedCounters(s, details.shares);
    assert OrderSound(s, s.orders[c.id]);
  }

  /**
   * An order that meets a single resting order of the other side, of the same size and
   * within its limit, trades once with it at the resting price: both end Filled with no
   * shares left and the one new trade listed, and the trade is recorded.
   */
  lemma SingleCounterpartyFill(s: State, details: OrderDetails, c: Order)
    requires Invariant(s) && AreOrderDetailsValid(details)
    requires s.orders == map[c.id := c] && c.kind != details.kind && CanBeFilled(c)
    requires c.shares == details.shares
    requires if details.kind == LimitBuy then details.price >= c.price else details.price <= c.price
    ensures var o := Order(s.nextOrderId, details.kind, details.price, 0, Filled, s.now, [s.nextTradeId]);
      var t := Trade(s.nextTradeId, s.now + 1, if details.kind == LimitBuy then o.id else c.id,
                     if details.kind == LimitBuy then c.id else o.id, c.shares, c.price);
      && Creation(s, details).1 == o
      && Creation(s, details).0.orders ==
           map[c.id := c.(shares := 0, status := Filled, tradeIds := c.tradeIds + [t.id]), o.id := o]
      && Creation(s, details).0.trades == s.trades[t.id := t]
  {
    var posted := PostedOrder(s, details);
    var s1 := Opened(s, details.shares);
    OpenedAgainstCounterparty(s, details, c);
    SingleCounterpartySweep(s1, posted, c);
    SingleCounterpartyTrade(s1, posted, c);
    var t := NextTrade(s1, BidSide(posted, c), AskSide(posted, c));
    var after := AfterTrade(s1, BidSide(posted, c), AskSide(posted, c));
    CreationFromSweep(s, details, after, Fill(posted, t));
    assert Creation(s, details).0 == after;
    assert after.trades == s1.trades[t.id := t];
    assert s1.trades == s.trades;
    assert t == Trade(s.nextTradeId, s.now + 1, if details.kind == LimitBuy then posted.id else c.id,
                     if details.kind == LimitBuy then c.id else posted.id, c.shares, c.price);
  }

  /** The first order of an empty book is stored as posted, with id 0 at time 0. */
  lemma FirstOrderPosted(details: OrderDetails)
    requires AreOrderDetailsValid(details)
    ensures Invariant(EmptyBook())
    ensures var o := Order(0, details.kind, details.price, details.shares, Posted, 0, []);
      Creation(EmptyBook(), details) == (State(map[0 := o], map[], 1, 0, 1, map[0 := details.shares]), o)
  {
    PostedWithoutCounterparty(EmptyBook(), details);
  }

  /**
   * An order of `taker`'s kind for 10 shares at 102 meets one resting order of the other
   * kind for 10 shares at `restingPrice`, within its limit: one trade of 10 shares at the
   * resting price fills both orders, each listing that one trade. Both are Filled, so
   * neither can be cancelled any more.
   */
  lemma FilledOrderScenario(taker: OrderType, restingPrice: int, maker: OrderType, s1: State)
    requires 0 < restingPrice
    requires if taker == LimitBuy then restingPrice <= 102 else restingPrice >= 102
    requires maker == if taker == LimitBuy then LimitSell else LimitBuy
    requires Invariant(EmptyBook()) && s1 == Creation(EmptyBook(), OrderDetails(maker, restingPrice, 10)).0
    ensures Invariant(s1)
    ensures var second := Creation(s1, OrderDetails(taker, 102, 10));
      && second.1 == Order(1, taker, 102, 0, Filled, 1, [0])
      && second.0.orders == map[0 := Order(0, maker, restingPrice, 0, Filled, 0, [0]), 1 := second.1]
      && second.0.trades ==
           map[0 := Trade(0, 2, if taker == LimitBuy then 1 else 0, if taker == LimitBuy then 0 else 1, 10, restingPrice)]
  {
    var restingDetails := OrderDetails(maker, restingPrice, 10);
    FirstOrderPosted(restingDetails);
    var c := Order(0, maker, restingPrice, 10, Posted, 0, []);
    SingleCounterpartyFill(s1, OrderDetails(taker, 102, 10), c);
    assert c.tradeIds + [0] == [0];
  }

  /** The two asks at 102 of the several-asks book, the older for 2 shares and the newer for 8, and the bid for 10 that meets them. */
  const OldestAsk := Order(0, LimitSell, 102, 2, Posted, 0, [])
  const LatestAsk := Order(1, LimitSell, 102, 8, Posted, 1, [])
  const SweepingBid := Order(2, LimitBuy, 102, 10, Posted, 2, [])

  /** The first trade of the bid: 2 shares from the older ask, which it fills. */
  const FirstTrade := Trade(0, 3, 2, 0, 2, 102)
  /** The second trade of the bid: 8 shares from the newer ask, which fills both. */
  const SecondTrade := Trade(1, 4, 2, 1, 8, 102)

  /** The book holding both asks, once the bid has been handed id 2 and time 2. */
  function AsksOpened(): State {
    State(map[0 := OldestAsk, 1 := LatestAsk], map[], 3, 0, 3, map[0 := 2, 1 := 8, 2 := 10])
  }

  /** The book after the first trade: the older ask is filled, the bid is stored with 8 shares left. */
  function AfterFirstTrade(): State {
    State(map[0 := OldestAsk.(shares := 0, status := Filled, tradeIds := [0]), 1 := LatestAsk,
              2 := SweepingBid.(shares := 8, status := PartiallyFilled, tradeIds := [0])],
          map[0 := FirstTrade], 3, 1, 4, map[0 := 2, 1 := 8, 2 := 10])
  }

  /** The book after the second trade: both asks and the bid are filled. */
  function AfterSecondTrade(): State {
    State(map[0 := OldestAsk.(shares := 0, status := Filled, tradeIds := [0]),
              1 := LatestAsk.(shares := 0, status := Filled, tradeIds := [1]),
              2 := SweepingBid.(shares := 0, status := Filled, tradeIds := [0, 1])],
          map[0 := FirstTrade, 1 := SecondTrade], 3, 2, 5, map[0 := 2, 1 := 8, 2 := 10])
  }

  /** Of two asks at the same price the older one is the best counterparty of the bid. */
  lemma OldestAskIsBest(s: State, bid: Order)
    requires s == AsksOpened() && bid == SweepingBid && Invariant(s)
    ensures CrossesBook(s, bid) && BestCounterparty(s, bid) == Some(OldestAsk)
  {
    OutrankingCounterparty(s, bid, OldestAsk);
  }

  /** Settling the bid against the older ask. */
  lemma FirstTradeSettled(s: State, bid: Order)
    requires s == AsksOpened() && bid == SweepingBid
    ensures NextTrade(s, BidSide(bid, OldestAsk), AskSide(bid, OldestAsk)) == FirstTrade
    ensures AfterTrade(s, BidSide(bid, OldestAsk), AskSide(bid, OldestAsk)) == AfterFirstTrade()
    ensures Fill(bid, FirstTrade) == bid.(shares := 8, status := PartiallyFilled, tradeIds := [0])
  {
    assert bid.tradeIds + [0] == [0] && OldestAsk.tradeIds + [0] == [0];
  }

  /** Of two asks at the same price the older one is taken first. */
  lemma OldestAskTakenFirst(s: State, bid: Order)
    requires s == AsksOpened() && bid == SweepingBid && Invariant(s) && Incoming(s, bid)
    ensures CrossesBook(s, bid)
    ensures Step(s, bid) == (AfterFirstTrade(), bid.(shares := 8, status := PartiallyFilled, tradeIds := [0]))
  {
    OldestAskIsBest(s, bid);
    StepWith(s, bid, OldestAsk);
    FirstTradeSettled(s, bid);
  }

  /** Once the older ask is filled the newer one is the best counterparty of what is left of the bid. */
  lemma LatestAskIsBest(s: State, bid: Order)
    requires s == AfterFirstTrade() && bid == SweepingBid.(shares := 8, status := PartiallyFilled, tradeIds := [0])
    requires Invariant(s)
    ensures CrossesBook(s, bid) && BestCounterparty(s, bid) == Some(LatestAsk)
  {
    OutrankingCounterparty(s, bid, LatestAsk);
  }

  /** Settling the rest of the bid against the newer ask. */
  lemma SecondTradeSettled(s: State, bid: Order)
    requires s == AfterFirstTrade() && bid == SweepingBid.(shares := 8, status := PartiallyFilled, tradeIds := [0])
    ensures NextTrade(s, BidSide(bid, LatestAsk), AskSide(bid, LatestAsk)) == SecondTrade
    ensures AfterTrade(s, BidSide(bid, LatestAsk), AskSide(bid, LatestAsk)) == AfterSecondTrade()
    ensures Fill(bid, SecondTrade) == bid.(shares := 0, status := Filled, tradeIds := [0, 1])
  {
    assert bid.tradeIds + [1] == [0, 1] && LatestAsk.tradeIds + [1] == [1];
  }

  /** The rest of the bid takes the newer ask, and both are filled. */
  lemma LatestAskTakenNext(s: State, bid: Order)
    requires s == AfterFirstTrade() && bid == SweepingBid.(shares := 8, status := PartiallyFilled, tradeIds := [0])
    requires Invariant(s) && Incoming(s, bid)
    ensures CrossesBook(s, bid)
    ensures Step(s, bid) == (AfterSecondTrade(), bid.(shares := 0, status := Filled, tradeIds := [0, 1]))
  {
    LatestAskIsBest(s, bid);
    StepWith(s, bid, LatestAsk);
    SecondTradeSettled(s, bid);
  }

  /** The bid sweeps the older ask, then the newer one, and ends filled. */
  lemma BidSweepsBothAsks(s: State, bid: Order)
    requires s == AsksOpened() && bid == SweepingBid && Invariant(s) && Incoming(s, bid)
    ensures Sweep(s, bid) == (AfterSecondTrade(), bid.(shares := 0, status := Filled, tradeIds := [0, 1]))
  {
    OldestAskTakenFirst(s, bid);
    var next := Step(s, bid);
    LatestAskTakenNext(next.0, next.1);
    SweepEndsWhenFilled(next.0, next.1);
  }

  /** An ask posted on a book holding only asks is stored as posted. */
  lemma SecondAskPosted(s1: State, s2: State)
    requires s1 == State(map[0 := OldestAsk], map[], 1, 0, 1, map[0 := 2]) && Invariant(s1)
    requires s2 == Creation(s1, OrderDetails(LimitSell, 102, 8)).0
    ensures s2 == State(map[0 := OldestAsk, 1 := LatestAsk], map[], 2, 0, 2, map[0 := 2, 1 := 8])
  {
    PostedWithoutCounterparty(s1, OrderDetails(LimitSell, 102, 8));
  }

  /** Two asks posted on an empty book are stored as posted, the older first. */
  lemma TwoAsksPosted(s1: State, s2: State)
    requires Invariant(EmptyBook()) && s1 == Creation(EmptyBook(), OrderDetails(LimitSell, 102, 2)).0
    requires s2 == Creation(s1, OrderDetails(LimitSell, 102, 8)).0
    ensures s2 == State(map[0 := OldestAsk, 1 := LatestAsk], map[], 2, 0, 2, map[0 := 2, 1 := 8])
  {
    FirstOrderPosted(OrderDetails(LimitSell, 102, 2));
    SecondAskPosted(s1, s2);
  }

  /** Handing the bid its id and time on the book of both asks. */
  lemma BidOpened(s2: State)
    requires s2 == State(map[0 := OldestAsk, 1 := LatestAsk], map[], 2, 0, 2, map[0 := 2, 1 := 8]) && Invariant(s2)
    ensures Opened(s2, 10) == AsksOpened() && PostedOrder(s2, OrderDetails(LimitBuy, 102, 10)) == SweepingBid
    ensures Invariant(AsksOpened()) && Incoming(AsksOpened(), SweepingBid)
  {
    OpeningKeepsInvariant(s2, 10);
    OpenedIsIncoming(s2, PostedOrder(s2, OrderDetails(LimitBuy, 102, 10)));
  }

  /** Storing the filled bid changes nothing after the second trade, which stored it already. */
  lemma FilledBidStored()
    ensures Stored(AfterSecondTrade(), SweepingBid.(shares := 0, status := Filled, tradeIds := [0, 1])) ==
      AfterSecondTrade()
  {
    var filled := SweepingBid.(shares := 0, status := Filled, tradeIds := [0, 1]);
    assert AfterSecondTrade().orders[2 := filled] == AfterSecondTrade().orders;
  }

  /** Creating the bid on the book of both asks sweeps both and stores the filled bid. */
  lemma BidCreated(s2: State)
    requires s2 == State(map[0 := OldestAsk, 1 := LatestAsk], map[], 2, 0, 2, map[0 := 2, 1 := 8]) && Invariant(s2)
    ensures Creation(s2, OrderDetails(LimitBuy, 102, 10)) ==
      (AfterSecondTrade(), SweepingBid.(shares := 0, status := Filled, tradeIds := [0, 1]))
  {
    BidOpened(s2);
    BidSweepsBothAsks(AsksOpened(), SweepingBid);
    FilledBidStored();
    CreationFromSweep(s2, OrderDetails(LimitBuy, 102, 10), AfterSecondTrade(),
                      SweepingBid.(shares := 0, status := Filled, tradeIds := [0, 1]));
  }

  /** The trades that the filled bid lists are the two it made, in order. */
  lemma BidTradesListed()
    ensures GetTradesByIds(AfterSecondTrade().trades, [0, 1]) == [Some(FirstTrade), Some(SecondTrade)]
  {
    var trades := GetTradesByIds(AfterSecondTrade().trades, [0, 1]);
    assert trades[0] == Some(FirstTrade) && trades[1] == Some(SecondTrade);
  }

  /**
   * A bid for 10 shares at 102 meets an ask for 2 and a newer ask for 8 at the same
   * price: it is filled by two trades at 102, first the 2 shares of the older ask and
   * then the 8 of the newer, which list both trades, and both asks are filled too.
   */
  lemma SeveralAsksScenario(s1: State, s2: State)
    requires Invariant(EmptyBook()) && s1 == Creation(EmptyBook(), OrderDetails(LimitSell, 102, 2)).0
    requires s2 == Creation(s1, OrderDetails(LimitSell, 102, 8)).0
    ensures var r := Creation(s2, OrderDetails(LimitBuy, 102, 10));
      && r.1 == Order(2, LimitBuy, 102, 0, Filled, 2, [0, 1])
      && r.0 == AfterSecondTrade()
      && GetTradesByIds(r.0.trades, r.1.tradeIds) == [Some(FirstTrade), Some(SecondTrade)]
  {
    TwoAsksPosted(s1, s2);
    BidCreated(s2);
    BidTradesListed();
  }
}
