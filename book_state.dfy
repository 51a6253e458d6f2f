/**
 * The order book's state as a value, the invariant every public operation keeps, and
 * lemmas that each state change (a settled trade, a cancellation, storing the incoming
 * order) preserves it. The class OrderBook holds the same state in fields.
 */
module BookState {
  import opened Wrappers
  import opened Orders
  import opened Settlement
  import opened BookQueries

  datatype State = State(
    orders: map<OrderId, Order>,
    trades: map<TradeId, Trade>,
    nextOrderId: OrderId,
    nextTradeId: TradeId,
    now: Timestamp,
    originalShares: map<OrderId, nat>)

  /** Positive price, a timestamp from the past, and Filled exactly when nothing remains. */
  ghost predicate WellFormed(o: Order, now: Timestamp) {
    o.price > 0 && o.timestamp < now && (o.status == Filled <==> o.shares == 0)
  }

  /** An order whose id was handed out, whose shares are conserved, and which is well formed. */
  ghost predicate OrderSound(s: State, o: Order) {
    && o.id < s.nextOrderId && o.id in s.originalShares
    && WellFormed(o, s.now)
    && Conserved(o, s.originalShares[o.id], s.trades)
  }

  /**
   * A recorded trade: a positive quantity between a stored buy and a stored sell, priced
   * within both limits at the price of the older of the two.
   */
  ghost predicate TradeSound(t: Trade, orders: map<OrderId, Order>) {
    && t.shares > 0
    && t.bidOrderId in orders && t.askOrderId in orders
    && IsBuyOrder(orders[t.bidOrderId]) && IsSellOrder(orders[t.askOrderId])
    && orders[t.askOrderId].price <= t.price <= orders[t.bidOrderId].price
    && t.price == (if IsNewerThan(orders[t.bidOrderId], orders[t.askOrderId])
                   then orders[t.askOrderId].price else orders[t.bidOrderId].price)
  }

  ghost predicate OrdersSound(s: State) {
    forall id :: id in s.orders ==> OrderSound(s, s.orders[id])
  }

  ghost predicate TradesSound(s: State) {
    forall t :: t in s.trades ==>
      t < s.nextTradeId && s.trades[t].id == t && TradeSound(s.trades[t], s.orders)
  }

  /**
   * The book invariant: orders stored under their ids, pairwise distinct timestamps,
   * every order well formed with its shares conserved, every trade sound.
   */
  ghost predicate Invariant(s: State) {
    && Indexed(s.orders, s.nextOrderId)
    && DistinctTimestamps(s.orders)
    && OrdersSound(s)
    && TradesSound(s)
  }

  /** An order that may take part in a trade: stored as it is, or not stored yet. */
  ghost predicate Participant(s: State, o: Order) {
    && OrderSound(s, o)
    && (o.id in s.orders ==> s.orders[o.id] == o)
    && forall id :: id in s.orders && id != o.id ==> s.orders[id].timestamp != o.timestamp
  }

  /** The incoming order of a sweep: a participant newer than every other stored order. */
  ghost predicate Incoming(s: State, o: Order) {
    && OrderSound(s, o)
    && (o.id in s.orders ==> s.orders[o.id] == o)
    && forall id :: id in s.orders && id != o.id ==> s.orders[id].timestamp < o.timestamp
  }

  /** Id, side, limit price and timestamp never change. */
  ghost predicate SameTerms(o: Order, o': Order) {
    o'.id == o.id && o'.kind == o.kind && o'.price == o.price && o'.timestamp == o.timestamp
  }

  /**
   * How one order may change: same terms, a status move the book allows, no more shares,
   * a longer trade history, and no change at all once Filled or Cancelled.
   */
  ghost predicate Advances(o: Order, o': Order) {
    && SameTerms(o, o')
    && CanAdvance(o.status, o'.status)
    && o'.shares <= o.shares
    && o.tradeIds <= o'.tradeIds
    && (!CanBeFilled(o) ==> o' == o)
  }

  /** No order disappears and every order advances. */
  ghost predicate Evolves(before: map<OrderId, Order>, after: map<OrderId, Order>) {
    forall id :: id in before ==> id in after && Advances(before[id], after[id])
  }

  /** Trades are only ever added: none is removed or overwritten. */
  ghost predicate Extends(before: map<TradeId, Trade>, after: map<TradeId, Trade>) {
    forall t :: t in before ==> t in after && after[t] == before[t]
  }

  /** No order became Cancelled: whatever changed, changed by trading. */
  ghost predicate NoneCancelled(before: map<OrderId, Order>, after: map<OrderId, Order>) {
    forall id :: id in before && id in after && after[id].status == Cancelled ==> before[id].status == Cancelled
  }

  /** The trade ids handed out from `lo` up to, not including, `hi`, in that order. */
  function IdRange(lo: TradeId, hi: TradeId): (r: seq<TradeId>)
    ensures |r| == if lo <= hi then hi - lo else 0
    ensures forall i :: 0 <= i < |r| ==> r[i] == lo + i
    decreases hi
  {
    if hi <= lo then [] else IdRange(lo, hi - 1) + [hi - 1]
  }

  lemma {:induction false} EvolvesTransitive(a: map<OrderId, Order>, b: map<OrderId, Order>, c: map<OrderId, Order>)
    requires Evolves(a, b) && Evolves(b, c)
    ensures Evolves(a, c)
  {
    forall id | id in a
      ensures id in c && Advances(a[id], c[id])
    {
      CanAdvanceTransitive(a[id].status, b[id].status, c[id].status);
    }
  }

  lemma AdvancesTransitive(a: Order, b: Order, c: Order)
    requires Advances(a, b) && Advances(b, c)
    ensures Advances(a, c)
  {
    CanAdvanceTransitive(a.status, b.status, c.status);
  }

  /** The other participant of `t`, seen from `takerId`. */
  function Counterparty(t: Trade, takerId: OrderId): OrderId {
    if t.bidOrderId == takerId then t.askOrderId else t.bidOrderId
  }

  /** A trade of the sweep of `takerId`: the taker is one side, and the price is the other side's limit. */
  ghost predicate TakenBy(t: Trade, takerId: OrderId, orders: map<OrderId, Order>) {
    && (t.bidOrderId == takerId || t.askOrderId == takerId)
    && t.bidOrderId != t.askOrderId
    && Counterparty(t, takerId) in orders
    && t.price == orders[Counterparty(t, takerId)].price
  }

  /** A trade stays one taken by `takerId` while the book evolves, since prices never change. */
  lemma TakenByFrame(t: Trade, takerId: OrderId, before: map<OrderId, Order>, after: map<OrderId, Order>)
    requires TakenBy(t, takerId, before) && Evolves(before, after)
    ensures TakenBy(t, takerId, after)
  {
  }

  /** The trade that settling `bid` against `ask` records next. */
  function NextTrade(s: State, bid: Order, ask: Order): Trade {
    Trade(s.nextTradeId, s.now, bid.id, ask.id, SharesToTrade(bid, ask), TradePrice(bid, ask))
  }

  /** The state after settling one trade between `bid` and `ask`. */
  ghost function AfterTrade(s: State, bid: Order, ask: Order): State {
    var t := NextTrade(s, bid, ask);
    s.(orders := s.orders[bid.id := Fill(bid, t)][ask.id := Fill(ask, t)],
       trades := s.trades[t.id := t],
       nextTradeId := s.nextTradeId + 1,
       now := s.now + 1)
  }

  lemma RestingIsParticipant(s: State, id: OrderId)
    requires Invariant(s) && id in s.orders
    ensures Participant(s, s.orders[id])
  {
  }

  /** Every stored order keeps its id, side, price and timestamp. */
  ghost predicate KeepsTerms(before: map<OrderId, Order>, after: map<OrderId, Order>) {
    forall id :: id in before ==> id in after && SameTerms(before[id], after[id])
  }

  lemma TradeSoundFrame(t: Trade, orders: map<OrderId, Order>, orders': map<OrderId, Order>)
    requires TradeSound(t, orders) && KeepsTerms(orders, orders')
    ensures TradeSound(t, orders')
  {
  }

  /** Recorded trades stay sound while the orders they name keep their terms. */
  lemma TradesSoundFrame(s: State, orders': map<OrderId, Order>)
    requires TradesSound(s) && KeepsTerms(s.orders, orders')
    ensures TradesSound(s.(orders := orders'))
  {
    forall t | t in s.trades
      ensures TradeSound(s.trades[t], orders')
    {
      TradeSoundFrame(s.trades[t], s.orders, orders');
    }
  }

  lemma SettledOrdersSound(s: State, bid: Order, ask: Order)
    requires Invariant(s) && Participant(s, bid) && Participant(s, ask)
    requires CanBeFilled(bid) && CanBeFilled(ask)
    ensures OrdersSound(AfterTrade(s, bid, ask))
  {
    var t := NextTrade(s, bid, ask);
    var s' := AfterTrade(s, bid, ask);
    assert t.id !in s.trades;
    FillConserves(bid, s.originalShares[bid.id], s.trades, t);
    FillConserves(ask, s.originalShares[ask.id], s.trades, t);
    forall id | id in s'.orders
      ensures OrderSound(s', s'.orders[id])
    {
      if id != bid.id && id != ask.id {
        ConservedFrame(s.orders[id], s.originalShares[id], s.trades, t);
      }
    }
  }

  lemma SettledTimestampsDistinct(s: State, bid: Order, ask: Order)
    requires Invariant(s) && Participant(s, bid) && Participant(s, ask)
    requires bid.id != ask.id && bid.timestamp != ask.timestamp
    ensures DistinctTimestamps(AfterTrade(s, bid, ask).orders)
  {
  }

  /** The new trade is sound: a positive quantity at the older order's limit, within both limits. */
  lemma NewTradeSound(s: State, bid: Order, ask: Order)
    requires IsBuyOrder(bid) && IsSellOrder(ask) && bid.shares > 0 && ask.shares > 0
    requires bid.id != ask.id && bid.timestamp != ask.timestamp && bid.price >= ask.price
    ensures TradeSound(NextTrade(s, bid, ask), AfterTrade(s, bid, ask).orders)
  {
  }

  lemma SettlementKeepsTerms(s: State, bid: Order, ask: Order)
    requires bid.id in s.orders ==> s.orders[bid.id] == bid
    requires ask.id in s.orders ==> s.orders[ask.id] == ask
    ensures KeepsTerms(s.orders, AfterTrade(s, bid, ask).orders)
  {
  }

  lemma SettledTradesSound(s: State, bid: Order, ask: Order)
    requires Invariant(s) && Participant(s, bid) && Participant(s, ask)
    requires IsBuyOrder(bid) && IsSellOrder(ask) && CanBeFilled(bid) && CanBeFilled(ask)
    requires bid.id != ask.id && bid.timestamp != ask.timestamp && bid.price >= ask.price
    ensures TradesSound(AfterTrade(s, bid, ask))
  {
    var s' := AfterTrade(s, bid, ask);
    SettlementKeepsTerms(s, bid, ask);
    TradesSoundFrame(s, s'.orders);
    NewTradeSound(s, bid, ask);
  }

  lemma SettlementEvolves(s: State, bid: Order, ask: Order)
    requires bid.id in s.orders ==> s.orders[bid.id] == bid
    requires ask.id in s.orders ==> s.orders[ask.id] == ask
    requires CanBeFilled(bid) && CanBeFilled(ask)
    ensures Evolves(s.orders, AfterTrade(s, bid, ask).orders)
  {
  }

  /**
   * Settling a trade between a fillable buy and a fillable sell whose limits cross keeps
   * the invariant: shares are conserved for both participants and for every other order,
   * and the new trade is priced within both limits at the older order's limit.
   */
  lemma SettlementKeepsInvariant(s: State, bid: Order, ask: Order)
    requires Invariant(s) && Participant(s, bid) && Participant(s, ask)
    requires IsBuyOrder(bid) && IsSellOrder(ask) && CanBeFilled(bid) && CanBeFilled(ask)
    requires bid.id != ask.id && bid.timestamp != ask.timestamp && bid.price >= ask.price
    ensures Invariant(AfterTrade(s, bid, ask))
  {
    SettledOrdersSound(s, bid, ask);
    SettledTimestampsDistinct(s, bid, ask);
    SettledTradesSound(s, bid, ask);
  }

  lemma SettledTakerSound(s: State, bid: Order, ask: Order, taker: Order)
    requires s.nextTradeId !in s.trades && (taker == bid || taker == ask)
    requires CanBeFilled(bid) && CanBeFilled(ask) && OrderSound(s, taker)
    ensures OrderSound(AfterTrade(s, bid, ask), Fill(taker, NextTrade(s, bid, ask)))
  {
    FillConserves(taker, s.originalShares[taker.id], s.trades, NextTrade(s, bid, ask));
  }

  lemma SettledTakerNewest(s: State, bid: Order, ask: Order, taker: Order)
    requires CanBeFilled(bid) && CanBeFilled(ask) && bid.id != ask.id
    requires || (taker == bid && ask.id in s.orders && s.orders[ask.id] == ask)
             || (taker == ask && bid.id in s.orders && s.orders[bid.id] == bid)
    requires forall id :: id in s.orders && id != taker.id ==> s.orders[id].timestamp < taker.timestamp
    ensures var s' := AfterTrade(s, bid, ask);
      && s'.orders[taker.id] == Fill(taker, NextTrade(s, bid, ask))
      && forall id :: id in s'.orders && id != taker.id ==> s'.orders[id].timestamp < taker.timestamp
  {
  }

  /** The taker of a settled trade is still the incoming order, now with the trade applied. */
  lemma SettlementKeepsIncoming(s: State, bid: Order, ask: Order, taker: Order)
    requires s.nextTradeId !in s.trades
    requires CanBeFilled(bid) && CanBeFilled(ask) && bid.id != ask.id
    requires || (taker == bid && ask.id in s.orders && s.orders[ask.id] == ask)
             || (taker == ask && bid.id in s.orders && s.orders[bid.id] == bid)
    requires Incoming(s, taker)
    ensures Incoming(AfterTrade(s, bid, ask), Fill(taker, NextTrade(s, bid, ask)))
  {
    SettledTakerSound(s, bid, ask, taker);
    SettledTakerNewest(s, bid, ask, taker);
  }

  /** The buy side and the sell side of a trade between the incoming `o` and the resting `c`. */
  function BidSide(o: Order, c: Order): Order {
    if IsBuyOrder(o) then o else c
  }

  function AskSide(o: Order, c: Order): Order {
    if IsBuyOrder(o) then c else o
  }

  /** An incoming order and a resting order it crosses meet every condition of settlement. */
  lemma TakingMeetsSettlement(s: State, o: Order, c: Order)
    requires Invariant(s) && Incoming(s, o) && CanBeFilled(o)
    requires Resting(s.orders, c) && Crosses(o, c)
    ensures var bid, ask := BidSide(o, c), AskSide(o, c);
      && Participant(s, bid) && Participant(s, ask)
      && IsBuyOrder(bid) && IsSellOrder(ask) && CanBeFilled(bid) && CanBeFilled(ask)
      && bid.id != ask.id && bid.timestamp != ask.timestamp && bid.price >= ask.price
    ensures s.nextTradeId !in s.trades
  {
    RestingIsParticipant(s, c.id);
  }

  /**
   * The trade the incoming order `o` takes from the resting `c`: a positive quantity no
   * larger than what `o` has left, at `c`'s price, after which one of the two is Filled.
   */
  lemma TakingTrade(s: State, o: Order, c: Order)
    requires Invariant(s) && Incoming(s, o) && CanBeFilled(o)
    requires Resting(s.orders, c) && Crosses(o, c)
    ensures var t := NextTrade(s, BidSide(o, c), AskSide(o, c));
      var after := AfterTrade(s, BidSide(o, c), AskSide(o, c)).orders;
      && 0 < t.shares <= o.shares
      && TakenBy(t, o.id, after) && Counterparty(t, o.id) == c.id
      && (Fill(o, t).status == Filled || after[c.id].status == Filled)
  {
    TakingMeetsSettlement(s, o, c);
    var t := NextTrade(s, BidSide(o, c), AskSide(o, c));
    assert IsNewerThan(o, c);
  }

  /** The crossing test against the book in state `s`. */
  function CrossesBook(s: State, o: Order): bool {
    CanBeMatchedWithOrder(s.orders, s.nextOrderId, o)
  }

  /** The best resting order on the side opposite to `o`, the one `o` trades with next. */
  function BestCounterparty(s: State, o: Order): Option<Order> {
    if IsBuyOrder(o) then AskOrder(s.orders, s.nextOrderId) else BidOrder(s.orders, s.nextOrderId)
  }

  /**
   * One step of the sweep from `s` to `s'`: `o` trades with the resting `c`; the state is
   * the settled one; the quantity is positive and within what `o` has left; the price is
   * `c`'s; `o` becomes `filled`; and `o` or `c` is Filled afterwards.
   */
  ghost predicate TakesFrom(s: State, s': State, o: Order, c: Order, filled: Order) {
    var t := NextTrade(s, BidSide(o, c), AskSide(o, c));
    && s' == AfterTrade(s, BidSide(o, c), AskSide(o, c))
    && 0 < t.shares <= o.shares && filled == Fill(o, t)
    && c.id in s'.orders && TakenBy(t, o.id, s'.orders) && Counterparty(t, o.id) == c.id
    && (filled.status == Filled || s'.orders[c.id].status == Filled)
  }

  /**
   * What the sweep of `incoming` has done between `s0` and `s`: `incoming` has advanced to
   * `order` by trading alone, recording exactly the new trade ids; every order has advanced
   * and none was cancelled; no trade was lost; the order counter and the original share
   * counts are untouched; and every new trade was taken by `incoming` at the price of its
   * counterparty.
   */
  ghost predicate Swept(s0: State, s: State, incoming: Order, order: Order) {
    && Advances(incoming, order) && (order.status == Cancelled ==> incoming.status == Cancelled)
    && order.tradeIds == incoming.tradeIds + IdRange(s0.nextTradeId, s.nextTradeId)
    && Evolves(s0.orders, s.orders) && NoneCancelled(s0.orders, s.orders) && Extends(s0.trades, s.trades)
    && s.nextOrderId == s0.nextOrderId && s.originalShares == s0.originalShares
    && s0.nextTradeId <= s.nextTradeId
    && forall id :: s0.nextTradeId <= id < s.nextTradeId ==>
      id in s.trades && TakenBy(s.trades[id], incoming.id, s.orders)
  }

  lemma SweptFromStart(s: State, incoming: Order)
    ensures Swept(s, s, incoming, incoming)
  {
  }

  /** A step of the sweep extends what the sweep has done and lowers the remaining shares. */
  lemma SweepStep(s0: State, s: State, s': State, incoming: Order, order: Order, c: Order, filled: Order)
    requires Swept(s0, s, incoming, order) && TakesFrom(s, s', order, c, filled)
    requires Evolves(s.orders, s'.orders) && CanBeFilled(order) && s.nextTradeId !in s.trades
    ensures Swept(s0, s', incoming, filled)
    ensures filled.shares < order.shares
  {
    var t := NextTrade(s, BidSide(order, c), AskSide(order, c));
    assert Advances(order, filled);
    assert filled.tradeIds == incoming.tradeIds + IdRange(s0.nextTradeId, s'.nextTradeId);
    AdvancesTransitive(incoming, order, filled);
    EvolvesTransitive(s0.orders, s.orders, s'.orders);
    forall id | s0.nextTradeId <= id < s'.nextTradeId
      ensures id in s'.trades && TakenBy(s'.trades[id], incoming.id, s'.orders)
    {
      if id < s.nextTradeId {
        TakenByFrame(s.trades[id], incoming.id, s.orders, s'.orders);
      } else {
        assert s'.trades[id] == t;
      }
    }
  }

  /** When `o` crosses the book, the best order of the other side is a resting order it crosses. */
  lemma BestCounterpartyCrosses(s: State, o: Order)
    requires Invariant(s) && CrossesBook(s, o)
    ensures CanBeFilled(o) && BestCounterparty(s, o).Some?
    ensures Resting(s.orders, BestCounterparty(s, o).value) && Crosses(o, BestCounterparty(s, o).value)
  {
    MatchedHasCrossing(s.orders, s.nextOrderId, o);
    BestOrderSpec(s.orders, s.nextOrderId, OtherSide(o));
    if IsBuyOrder(o) {
      assert BestCounterparty(s, o) == Best(SideOrders(s.orders, s.nextOrderId, LimitSell));
    } else {
      assert BestCounterparty(s, o) == Best(SideOrders(s.orders, s.nextOrderId, LimitBuy));
    }
  }

  /**
   * Settling the incoming `o` against a resting `c` it crosses: the result is a step of the
   * sweep, it keeps the invariant, and `o`, updated by the trade, is still the incoming order.
   */
  lemma TakingStep(s: State, o: Order, c: Order)
    requires Invariant(s) && Incoming(s, o) && CanBeFilled(o)
    requires Resting(s.orders, c) && Crosses(o, c)
    ensures var t := NextTrade(s, BidSide(o, c), AskSide(o, c));
      var s' := AfterTrade(s, BidSide(o, c), AskSide(o, c));
      && t.shares <= o.shares
      && TakesFrom(s, s', o, c, Fill(o, t))
      && Invariant(s') && Incoming(s', Fill(o, t)) && Evolves(s.orders, s'.orders)
  {
    var bid, ask := BidSide(o, c), AskSide(o, c);
    TakingMeetsSettlement(s, o, c);
    TakingTrade(s, o, c);
    SettlementKeepsInvariant(s, bid, ask);
    SettlementKeepsIncoming(s, bid, ask, o);
    SettlementEvolves(s, bid, ask);
  }

  /** One step of the sweep: `o` trades with the best order of the other side. */
  ghost function Step(s: State, o: Order): (r: (State, Order))
    requires Invariant(s) && Incoming(s, o) && CrossesBook(s, o)
    ensures BestCounterparty(s, o).Some?
    ensures TakesFrom(s, r.0, o, BestCounterparty(s, o).value, r.1)
    ensures Invariant(r.0) && Incoming(r.0, r.1) && Evolves(s.orders, r.0.orders)
    ensures r.1.shares < o.shares
  {
    BestCounterpartyCrosses(s, o);
    var c := BestCounterparty(s, o).value;
    TakingStep(s, o, c);
    (AfterTrade(s, BidSide(o, c), AskSide(o, c)), Fill(o, NextTrade(s, BidSide(o, c), AskSide(o, c))))
  }

  /**
   * The whole sweep of the incoming `o`: step after step while `o` crosses the book. It
   * ends, since every step lowers the shares `o` has left, with a sound book that `o` no
   * longer crosses.
   */
  ghost function Sweep(s: State, o: Order): (r: (State, Order))
    requires Invariant(s) && Incoming(s, o)
    ensures Invariant(r.0) && Incoming(r.0, r.1) && !CrossesBook(r.0, r.1)
    decreases o.shares
  {
    if !CrossesBook(s, o) then (s, o)
    else
      var next := Step(s, o);
      Sweep(next.0, next.1)
  }

  /** Finishing a sweep extends what it has done so far. */
  lemma {:induction false} SweepFrom(s0: State, s: State, incoming: Order, o: Order)
    requires Invariant(s) && Incoming(s, o) && Swept(s0, s, incoming, o)
    ensures Swept(s0, Sweep(s, o).0, incoming, Sweep(s, o).1)
    decreases o.shares
  {
    if CrossesBook(s, o) {
      var next := Step(s, o);
      assert s.nextTradeId !in s.trades;
      SweepStep(s0, s, next.0, incoming, o, BestCounterparty(s, o).value, next.1);
      SweepFrom(s0, next.0, incoming, next.1);
    }
  }

  /** A step against a known best counterparty `c` is the settlement between `o` and `c`. */
  lemma StepWith(s: State, o: Order, c: Order)
    requires Invariant(s) && Incoming(s, o) && CrossesBook(s, o) && BestCounterparty(s, o) == Some(c)
    ensures var t := NextTrade(s, BidSide(o, c), AskSide(o, c));
      Step(s, o) == (AfterTrade(s, BidSide(o, c), AskSide(o, c)), Fill(o, t))
  {
  }

  /** A sweep ends with the step that fills the incoming order. */
  lemma SweepEndsWhenFilled(s: State, o: Order)
    requires Invariant(s) && Incoming(s, o) && CrossesBook(s, o) && Step(s, o).1.status == Filled
    ensures Sweep(s, o) == Step(s, o)
  {
    var next := Step(s, o);
    assert !CrossesBook(next.0, next.1);
  }

  /** A whole sweep trades only, and an order that does not cross leaves the book as it is. */
  lemma SweepOutcome(s: State, o: Order)
    requires Invariant(s) && Incoming(s, o)
    ensures Swept(s, Sweep(s, o).0, o, Sweep(s, o).1)
    ensures !CrossesBook(s, o) ==> Sweep(s, o) == (s, o)
  {
    SweptFromStart(s, o);
    SweepFrom(s, s, o, o);
  }

  /** An order that crosses the book trades at least once, first with the best order of the other side. */
  lemma SweepTradesFirst(s: State, o: Order)
    requires Invariant(s) && Incoming(s, o) && CrossesBook(s, o)
    ensures BestCounterparty(s, o).Some?
    ensures s.nextTradeId < Sweep(s, o).0.nextTradeId && s.nextTradeId in Sweep(s, o).0.trades
    ensures Counterparty(Sweep(s, o).0.trades[s.nextTradeId], o.id) == BestCounterparty(s, o).value.id
  {
    var next := Step(s, o);
    assert Sweep(s, o) == Sweep(next.0, next.1);
    SweptFromStart(next.0, next.1);
    SweepFrom(next.0, next.0, next.1, next.1);
  }

  lemma ReplacingKeepsOrdersSound(s: State, o: Order)
    requires OrdersSound(s) && OrderSound(s, o)
    ensures OrdersSound(Stored(s, o))
  {
  }

  lemma ReplacingKeepsTerms(orders: map<OrderId, Order>, o: Order)
    requires o.id in orders ==> SameTerms(orders[o.id], o)
    ensures KeepsTerms(orders, orders[o.id := o])
  {
  }

  /**
   * Storing a sound order keeps the invariant, provided it keeps the terms of the order it
   * replaces and its timestamp is not that of another stored order.
   */
  lemma ReplacingKeepsInvariant(s: State, o: Order)
    requires Invariant(s) && OrderSound(s, o)
    requires o.id in s.orders ==> SameTerms(s.orders[o.id], o)
    requires forall id :: id in s.orders && id != o.id ==> s.orders[id].timestamp != o.timestamp
    ensures Invariant(Stored(s, o))
  {
    ReplacingKeepsOrdersSound(s, o);
    ReplacingKeepsTerms(s.orders, o);
    TradesSoundFrame(s, Stored(s, o).orders);
  }

  /** Storing the incoming order, once its sweep is over, keeps the invariant. */
  lemma StoringIncomingKeepsInvariant(s: State, o: Order)
    requires Invariant(s) && Incoming(s, o)
    ensures Invariant(Stored(s, o))
  {
    ReplacingKeepsInvariant(s, o);
  }

  lemma StoringIncomingEvolves(s: State, o: Order)
    requires Incoming(s, o)
    ensures Evolves(s.orders, s.orders[o.id := o])
  {
  }

  /** Storing the swept order ends the sweep: the book has evolved and the new trades are its own. */
  lemma StoringAfterSweep(s0: State, s: State, incoming: Order, order: Order)
    requires Swept(s0, s, incoming, order) && Incoming(s, order)
    ensures Evolves(s0.orders, s.orders[order.id := order])
    ensures NoneCancelled(s0.orders, s.orders[order.id := order])
    ensures forall id :: s0.nextTradeId <= id < s.nextTradeId ==>
      id in s.trades && TakenBy(s.trades[id], order.id, s.orders[order.id := order])
  {
    var stored := s.orders[order.id := order];
    StoringIncomingEvolves(s, order);
    EvolvesTransitive(s0.orders, s.orders, stored);
    forall id | s0.nextTradeId <= id < s.nextTradeId
      ensures id in s.trades && TakenBy(s.trades[id], order.id, stored)
    {
      TakenByFrame(s.trades[id], incoming.id, s.orders, stored);
    }
  }

  /** The order that creating an order with `details` in state `s` posts. */
  function PostedOrder(s: State, details: OrderDetails): Order
    requires details.shares >= 0
  {
    Order(s.nextOrderId, details.kind, details.price, details.shares, Posted, s.now, [])
  }

  /** The state after handing out the id and timestamp of a new order with `shares` shares. */
  ghost function Opened(s: State, shares: nat): State {
    s.(nextOrderId := s.nextOrderId + 1, now := s.now + 1,
       originalShares := s.originalShares[s.nextOrderId := shares])
  }

  /** The state after storing `o` under its id. */
  ghost function Stored(s: State, o: Order): State {
    s.(orders := s.orders[o.id := o])
  }

  /**
   * The posted order has advanced to `o` by trading alone and is stored, listing exactly the
   * new trades; the order counter and the original share counts record the new order; the
   * book has evolved without any cancellation, no trade was lost, and every new trade was
   * taken by `o` at its counterparty's price.
   */
  ghost predicate SweptAndStored(s0: State, s: State, details: OrderDetails, o: Order) {
    && details.shares > 0
    && Advances(PostedOrder(s0, details), o) && o.status != Cancelled
    && o.id in s.orders && s.orders[o.id] == o
    && o.tradeIds == IdRange(s0.nextTradeId, s.nextTradeId)
    && s.nextOrderId == s0.nextOrderId + 1
    && s.originalShares == s0.originalShares[o.id := details.shares]
    && Evolves(s0.orders, s.orders) && NoneCancelled(s0.orders, s.orders) && Extends(s0.trades, s.trades)
    && (forall id :: s0.nextTradeId <= id < s.nextTradeId ==>
          id in s.trades && TakenBy(s.trades[id], o.id, s.orders))
  }

  /** When the posted order did not cross the book, it is stored as posted and no trade happened. */
  ghost predicate UntouchedUnlessCrossing(s0: State, s: State, details: OrderDetails, o: Order) {
    && details.shares > 0
    && (!CrossesBook(s0, PostedOrder(s0, details)) ==>
          o == PostedOrder(s0, details) && s.orders == s0.orders[o.id := o] && s.trades == s0.trades)
  }

  /** When the posted order crossed the book, it traded, first with the best order of the other side. */
  ghost predicate TradedIfCrossing(s0: State, s: State, details: OrderDetails, o: Order) {
    && details.shares > 0
    && (CrossesBook(s0, PostedOrder(s0, details)) ==>
          && BestCounterparty(s0, PostedOrder(s0, details)).Some?
          && s0.nextTradeId < s.nextTradeId && s0.nextTradeId in s.trades
          && Counterparty(s.trades[s0.nextTradeId], o.id) == BestCounterparty(s0, PostedOrder(s0, details)).value.id)
  }

  /**
   * What creating an order with `details` has done between `s0` and `s`: the order was
   * swept and stored, it no longer crosses the book, if it crossed it traded with the best
   * order first, and if it did not cross nothing else happened.
   */
  ghost predicate Created(s0: State, s: State, details: OrderDetails, o: Order) {
    && SweptAndStored(s0, s, details, o)
    && !CrossesBook(s, o)
    && UntouchedUnlessCrossing(s0, s, details, o)
    && TradedIfCrossing(s0, s, details, o)
  }

  lemma CreatedStores(s0: State, s2: State, details: OrderDetails, order: Order)
    requires Invariant(s0) && details.shares > 0
    requires Swept(Opened(s0, details.shares), s2, PostedOrder(s0, details), order)
    requires Incoming(s2, order)
    ensures SweptAndStored(s0, Stored(s2, order), details, order)
  {
    StoringAfterSweep(Opened(s0, details.shares), s2, PostedOrder(s0, details), order);
  }

  /** The order the book stores no longer crosses it. */
  lemma CreatedSettles(s2: State, order: Order)
    requires Invariant(s2) && Incoming(s2, order)
    requires !CrossesBook(s2, order)
    ensures !CrossesBook(Stored(s2, order), order)
  {
    StoringKeepsCrossing(s2.orders, s2.nextOrderId, order);
  }

  /** Handing out an order id changes neither the crossing test nor the best order of a side. */
  lemma OpeningKeepsQueries(s: State, shares: nat, o: Order)
    requires s.nextOrderId !in s.orders
    ensures CrossesBook(Opened(s, shares), o) == CrossesBook(s, o)
    ensures BestCounterparty(Opened(s, shares), o) == BestCounterparty(s, o)
  {
    SkippingFreeIdKeepsQueries(s.orders, s.nextOrderId, o);
    OpenedQueries(s, shares, o);
  }

  lemma OpenedQueries(s: State, shares: nat, o: Order)
    ensures CrossesBook(Opened(s, shares), o) == CanBeMatchedWithOrder(s.orders, s.nextOrderId + 1, o)
    ensures BestCounterparty(Opened(s, shares), o) ==
      if IsBuyOrder(o) then AskOrder(s.orders, s.nextOrderId + 1) else BidOrder(s.orders, s.nextOrderId + 1)
  {
    OpenedCounters(s, shares);
  }

  lemma OpenedCounters(s: State, shares: nat)
    ensures Opened(s, shares).orders == s.orders && Opened(s, shares).nextOrderId == s.nextOrderId + 1
  {
  }

  lemma CreatedUntouched(s0: State, s2: State, details: OrderDetails, order: Order)
    requires Invariant(s0) && details.shares > 0
    requires !CrossesBook(Opened(s0, details.shares), PostedOrder(s0, details)) ==>
      order == PostedOrder(s0, details) && s2 == Opened(s0, details.shares)
    ensures UntouchedUnlessCrossing(s0, Stored(s2, order), details, order)
  {
    assert s0.nextOrderId !in s0.orders;
    OpeningKeepsQueries(s0, details.shares, PostedOrder(s0, details));
  }

  lemma CreatedTrades(s0: State, s2: State, details: OrderDetails, order: Order)
    requires Invariant(s0) && details.shares > 0 && order.id == s0.nextOrderId
    requires var s1, posted := Opened(s0, details.shares), PostedOrder(s0, details);
      CrossesBook(s1, posted) ==>
        && BestCounterparty(s1, posted).Some?
        && s1.nextTradeId < s2.nextTradeId && s1.nextTradeId in s2.trades
        && Counterparty(s2.trades[s1.nextTradeId], posted.id) == BestCounterparty(s1, posted).value.id
    ensures TradedIfCrossing(s0, Stored(s2, order), details, order)
  {
    assert s0.nextOrderId !in s0.orders;
    OpeningKeepsQueries(s0, details.shares, PostedOrder(s0, details));
  }

  /**
   * Creating an order: hand out its id and timestamp, sweep it against the book, and store
   * what is left of it. The book stays sound.
   */
  ghost function Creation(s: State, details: OrderDetails): (r: (State, Order))
    requires Invariant(s) && AreOrderDetailsValid(details)
    ensures Invariant(r.0)
  {
    var posted := PostedOrder(s, details);
    OpeningKeepsInvariant(s, details.shares);
    OpenedIsIncoming(s, posted);
    var swept := Sweep(Opened(s, details.shares), posted);
    StoringIncomingKeepsInvariant(swept.0, swept.1);
    (Stored(swept.0, swept.1), swept.1)
  }

  /** Creating an order stores what sweeping the posted order against the opened book leaves of it. */
  lemma CreationFromSweep(s: State, details: OrderDetails, s2: State, o2: Order)
    requires Invariant(s) && AreOrderDetailsValid(details)
    requires Invariant(Opened(s, details.shares)) && Incoming(Opened(s, details.shares), PostedOrder(s, details))
    requires Sweep(Opened(s, details.shares), PostedOrder(s, details)) == (s2, o2)
    ensures Creation(s, details) == (Stored(s2, o2), o2)
  {
  }

  /** Creating an order that does not cross the book only stores it, as posted. */
  lemma CreationWithoutCrossing(s: State, details: OrderDetails)
    requires Invariant(s) && AreOrderDetailsValid(details) && !CrossesBook(s, PostedOrder(s, details))
    ensures Creation(s, details) ==
      (Stored(Opened(s, details.shares), PostedOrder(s, details)), PostedOrder(s, details))
  {
    var posted := PostedOrder(s, details);
    OpeningKeepsInvariant(s, details.shares);
    OpenedIsIncoming(s, posted);
    assert s.nextOrderId !in s.orders;
    OpeningKeepsQueries(s, details.shares, posted);
    SweepOutcome(Opened(s, details.shares), posted);
  }

  /**
   * The outcome of creating an order: it was swept by trading alone and stored, listing
   * exactly its trades; it no longer crosses the book; if it crossed, it traded, first with
   * the best order of the other side; and if it did not, nothing but storing it happened.
   */
  lemma CreationOutcome(s0: State, details: OrderDetails)
    requires Invariant(s0) && AreOrderDetailsValid(details)
    ensures Created(s0, Creation(s0, details).0, details, Creation(s0, details).1)
  {
    var s1, posted := Opened(s0, details.shares), PostedOrder(s0, details);
    OpeningKeepsInvariant(s0, details.shares);
    OpenedIsIncoming(s0, posted);
    var swept := Sweep(s1, posted);
    SweepOutcome(s1, posted);
    if CrossesBook(s1, posted) {
      SweepTradesFirst(s1, posted);
    }
    CreatedStores(s0, swept.0, details, swept.1);
    CreatedSettles(swept.0, swept.1);
    CreatedUntouched(s0, swept.0, details, swept.1);
    CreatedTrades(s0, swept.0, details, swept.1);
  }

  lemma CancellingEvolves(orders: map<OrderId, Order>, id: OrderId)
    requires id in orders && CanBeFilled(orders[id])
    ensures Evolves(orders, orders[id := orders[id].(status := Cancelled)])
  {
  }

  /** Cancelling a fillable order keeps the invariant. */
  lemma CancellingKeepsInvariant(s: State, id: OrderId)
    requires Invariant(s) && id in s.orders && CanBeFilled(s.orders[id])
    ensures Invariant(Stored(s, s.orders[id].(status := Cancelled)))
  {
    ReplacingKeepsInvariant(s, s.orders[id].(status := Cancelled));
  }

  /** Handing out the next order id and timestamp keeps the invariant. */
  lemma OpeningKeepsInvariant(s: State, shares: nat)
    requires Invariant(s)
    ensures Invariant(Opened(s, shares))
  {
    var s' := Opened(s, shares);
    assert OrdersSound(s') by {
      forall id | id in s'.orders
        ensures OrderSound(s', s'.orders[id])
      {
        assert id != s.nextOrderId;
      }
    }
  }

  /** The order just opened by OpeningKeepsInvariant is the incoming order of the new state. */
  lemma OpenedIsIncoming(s: State, o: Order)
    requires Invariant(s) && o.id == s.nextOrderId && o.timestamp == s.now
    requires o.price > 0 && o.shares > 0 && o.status == Posted && o.tradeIds == []
    ensures Incoming(Opened(s, o.shares), o)
    ensures o.id !in s.orders
  {
  }

  /** Storing an order never changes whether that same order crosses the other side. */
  lemma StoringKeepsCrossing(orders: map<OrderId, Order>, n: nat, o: Order)
    requires Indexed(orders, n) && o.id < n
    requires o.id in orders ==> orders[o.id].kind == o.kind
    ensures CanBeMatchedWithOrder(orders[o.id := o], n, o) == CanBeMatchedWithOrder(orders, n, o)
  {
    var orders' := orders[o.id := o];
    CanBeMatchedIff(orders, n, o);
    CanBeMatchedIff(orders', n, o);
    if exists id :: id in orders' && Crosses(o, orders'[id]) {
      var id :| id in orders' && Crosses(o, orders'[id]);
      assert id != o.id && Crosses(o, orders[id]);
    }
    if exists id :: id in orders && Crosses(o, orders[id]) {
      var id :| id in orders && Crosses(o, orders[id]);
      assert id != o.id && Crosses(o, orders'[id]);
    }
  }
}
