/**
 * Settlement of one trade between a bid-side and an ask-side order: the quantity, the
 * price (the resting order's limit price), the update each participant receives, and
 * the conservation of shares that this update keeps.
 */
module Settlement {
  import opened Orders

  /** Both participants trade the smaller of their remaining share counts. */
  function SharesToTrade(bid: Order, ask: Order): (traded: nat)
    ensures traded <= bid.shares && traded <= ask.shares
    ensures traded == bid.shares || traded == ask.shares
    ensures bid.shares > 0 && ask.shares > 0 ==> traded > 0
  {
    if bid.shares <= ask.shares then bid.shares else ask.shares
  }

  /**
   * The lower of the two prices when the bid is the newer order, otherwise the higher.
   * For a crossing pair this is the price of the older, resting order (the maker), and
   * it never lies outside either limit.
   */
  function TradePrice(bid: Order, ask: Order): (price: int)
    ensures bid.price >= ask.price ==> ask.price <= price <= bid.price
    ensures bid.price >= ask.price && IsNewerThan(bid, ask) ==> price == ask.price
    ensures bid.price >= ask.price && IsNewerThan(ask, bid) ==> price == bid.price
  {
    if IsNewerThan(bid, ask) then
      (if ask.price <= bid.price then ask.price else bid.price)
    else
      (if ask.price >= bid.price then ask.price else bid.price)
  }

  /** What a participant of `trade` becomes: fewer shares, a new status, one more trade id. */
  function Fill(o: Order, trade: Trade): (r: Order)
    requires trade.shares <= o.shares
    ensures r.id == o.id && r.kind == o.kind && r.price == o.price && r.timestamp == o.timestamp
    ensures r.shares + trade.shares == o.shares
    ensures r.status == Filled <==> r.shares == 0
    ensures r.status != Filled ==> r.status == PartiallyFilled
    ensures r.tradeIds == o.tradeIds + [trade.id]
  {
    var shares := o.shares - trade.shares;
    AddTrade(o.(shares := shares, status := if shares == 0 then Filled else PartiallyFilled), trade)
  }

  /** The total shares of the trades listed in `ids` (an unknown id contributes nothing). */
  ghost function TradedShares(trades: map<TradeId, Trade>, ids: seq<TradeId>): nat
  {
    if |ids| == 0 then 0
    else
      var last := ids[|ids| - 1];
      TradedShares(trades, ids[..|ids| - 1]) + (if last in trades then trades[last].shares else 0)
  }

  ghost predicate TradesKnown(trades: map<TradeId, Trade>, ids: seq<TradeId>) {
    forall k :: 0 <= k < |ids| ==> ids[k] in trades
  }

  /**
   * Conservation for one order: the shares it was created with are its remaining shares
   * plus the shares of every trade it took part in.
   */
  ghost predicate Conserved(o: Order, originalShares: nat, trades: map<TradeId, Trade>) {
    TradesKnown(trades, o.tradeIds) && originalShares == o.shares + TradedShares(trades, o.tradeIds)
  }

  /** Recording a trade under a fresh id does not change the total of earlier trades. */
  lemma {:induction false} TradedSharesFrame(trades: map<TradeId, Trade>, ids: seq<TradeId>, trade: Trade)
    requires TradesKnown(trades, ids) && trade.id !in trades
    ensures TradedShares(trades[trade.id := trade], ids) == TradedShares(trades, ids)
  {
    if |ids| > 0 {
      TradedSharesFrame(trades, ids[..|ids| - 1], trade);
    }
  }

  /** Conservation of an order that did not take part in a newly recorded trade. */
  lemma ConservedFrame(o: Order, originalShares: nat, trades: map<TradeId, Trade>, trade: Trade)
    requires Conserved(o, originalShares, trades) && trade.id !in trades
    ensures Conserved(o, originalShares, trades[trade.id := trade])
  {
    TradedSharesFrame(trades, o.tradeIds, trade);
  }

  /** A participant stays conserved: the shares it loses are those of the trade it records. */
  lemma FillConserves(o: Order, originalShares: nat, trades: map<TradeId, Trade>, trade: Trade)
    requires Conserved(o, originalShares, trades)
    requires trade.id !in trades && trade.shares <= o.shares
    ensures Conserved(Fill(o, trade), originalShares, trades[trade.id := trade])
  {
    var after := trades[trade.id := trade];
    var ids := Fill(o, trade).tradeIds;
    TradedSharesFrame(trades, o.tradeIds, trade);
    assert ids[..|ids| - 1] == o.tradeIds;
    assert TradedShares(after, ids) == TradedShares(after, o.tradeIds) + trade.shares;
  }
}
