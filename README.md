# Limit-order book of fake-exchange, in Dafny

This project models the matching engine of the fake-exchange order book (`src/OrderBook.ts`):
a continuous double auction for one trading pair. The book keeps two tables, orders and
trades. Creating an order works in four steps:

1. It checks the order details.
2. It posts the order with a fresh id and timestamp.
3. It sweeps the order against the opposite side of the book. Each step of the sweep
   trades with the best resting order, as long as the limits cross.
4. It stores what is left of the order.

A trade between a bid and an ask has these properties:

- Both orders trade the smaller of their remaining share counts.
- The price is the limit of the older order, which is the resting order (the maker).
- Both orders lose the traded shares, become PartiallyFilled or Filled, and record the trade id.

Cancellation turns a Posted or PartiallyFilled order into a Cancelled one.

Modules, one per file:

- `Orders` (`orders.dfy`): orders, trades, statuses, the order predicates and the
  price-time priority comparator `PriorityAgainst`.
- `PrioritySort` (`priority_sort.dfy`): sorting by the comparator, ascending, so the best
  order comes last. It is an insertion sort, proved sorted and a permutation. Any two sorted
  permutations of orders with distinct timestamps are equal.
- `Settlement` (`settlement.dfy`): the quantity and price of one trade, the update of a
  participant (`Fill`), and conservation of shares.
- `BookQueries` (`book_queries.dfy`): the pure queries over the order table:
  - pending orders, the two sides and the best bid/ask;
  - the crossing test;
  - trade lookup.
- `BookState` (`book_state.dfy`): the book's state as a value and the invariant. The
  invariant says that:
  - orders are keyed by id;
  - timestamps are distinct;
  - every order is well formed and its shares are conserved;
  - every trade is sound.

  This module also holds the lemmas saying that each state change keeps the invariant,
  and the relations that describe a sweep and a creation.
- `Matching` (`matching.dfy`): the `OrderBook` class. Its fields are the two tables, the id
  counters, the clock and a ghost map of original share counts. Its methods are
  `CreateOrder`, `CancelOrderById`, the sweep loop `FillOrderIfPossible`, `FillOrder` and
  `CreateTradeBetween`.
- `Scenarios` (`scenarios.dfy`): the resting book of the side-query tests, with its sorted
  sides and its best bid and best ask.
- `MatchingScenarios` (`matching_scenarios.dfy`): the matching tests on concrete books. An
  order meeting no opposite side is posted. An order meeting one resting order of its size
  fills both in one trade. A bid meeting two smaller asks at its price fills in two trades,
  the older ask first.

The sweep and order creation are also stated as ghost functions on the state value:
`Step` (one trade with the best counterparty), `Sweep` (steps until the order no longer
crosses) and `Creation` (open, sweep, store). The methods of `OrderBook` are proved to
produce exactly these results, and the lemmas about the functions carry over to them.

Substitutions:

- Ids and timestamps: UUIDs become counters (`nextOrderId`, `nextTradeId`), and
  `Date.now()` becomes a clock `now`. The clock advances with every order and every trade,
  so timestamps are distinct and time priority is strict.
- Prices are integer ticks and share counts whole numbers.
- Errors: where the source throws, the model returns a `Result` with an error
  (`InvalidOrderDetails`, `OrderNotFound`, `OrderNotCancellable`). Where the source reads
  past the end of an empty side (`orders[orders.length - 1]` is `undefined`), the model
  returns `None`. A comparison against that `undefined` price is false, so an empty
  opposite side never matches.

## Model

| member | source | states |
|---|---|---|
| Orders.PriorityAgainst | src/OrderBook.ts:80-84 | for two orders of one side, the comparator is positive exactly when the first outranks the second and negative exactly when the second outranks the first. A buy outranks at a higher price, a sell at a lower price, and at equal prices the older order wins |
| Orders.PriorityIsPriceTime | src/OrderBook.ts:80-84 | the comparator is zero only for equal price and timestamp, and it is antisymmetric |
| Orders.PriorityTransitive | src/OrderBook.ts:80-84 | "not better than" under the comparator is transitive on one side, so sorting by it is well defined |
| Orders.CanAdvanceTransitive | src/OrderBook.ts:98-103 | the status moves the book makes compose into allowed moves; Filled and Cancelled are terminal |
| PrioritySort.SortByPriority | src/OrderBook.ts:127 | sorting returns a permutation of its input |
| PrioritySort.SortSorted | src/OrderBook.ts:124-134 | the sorted orders of one side are in ascending priority, and they stay on that side |
| PrioritySort.LastIsBest | src/OrderBook.ts:136-144 | the last element of a sorted side is not beaten by any element |
| PrioritySort.SortedPermutationUnique | src/OrderBook.ts:124-134 | two sorted permutations of one side with distinct timestamps are equal, so the sort order is fully determined by priority |
| BookQueries.PendingOrders | src/OrderBook.ts:119-122 | the pending orders are exactly the stored orders for which `canBeFilled` holds, that is, those Posted or PartiallyFilled, each once; Cancelled and Filled orders never are |
| BookQueries.Filter | src/OrderBook.ts:60-66 | `isSellOrder`/`isBuyOrder` select by order type: filtering by side, as the side queries do, keeps exactly the orders of that type, with their multiplicity |
| BookQueries.SideOrdersSpec | src/OrderBook.ts:124-134 | `sellOrders` and `buyOrders` (SellOrders/BuyOrders) return each fillable order of their side exactly once and nothing else, sorted ascending by priority |
| BookQueries.SideOrdersUnique | src/OrderBook.ts:119-134 | any sorted listing, free of timestamp clashes, of exactly the fillable orders of a side is what the side query returns |
| BookQueries.BestOrderSpec | src/OrderBook.ts:136-144 | `bidOrder`/`askOrder` (BidOrder/AskOrder) are absent exactly when the side has no fillable order. Otherwise each is a resting fillable order of its side that no other fillable order of the side beats |
| BookQueries.BestOrderStrict | src/OrderBook.ts:136-144 | with distinct timestamps, the best order strictly outranks every other fillable order of its side |
| BookQueries.OutrankingIsBest | src/OrderBook.ts:136-144 | conversely, a resting order that outranks every other fillable order of its side is the best order of that side |
| BookQueries.BestPriceBound | src/OrderBook.ts:136-144 | the best ask has the lowest price of the fillable asks, and the best bid has the highest price of the fillable bids |
| BookQueries.GetTradesByIds | src/OrderBook.ts:178-180 | one entry per requested id, in order. Each entry is the stored trade, or absent exactly when the id is unknown |
| BookQueries.MatchedHasCrossing | src/OrderBook.ts:182-186 | when the crossing test holds, the order is fillable and the best order of the other side is a stored order it crosses |
| BookQueries.CrossingIsMatched | src/OrderBook.ts:182-186 | a fillable order that crosses some stored fillable order on the other side passes the crossing test |
| BookQueries.CanBeMatchedIff | src/OrderBook.ts:182-186 | `canBeMatchedWithOrder` (CanBeMatchedWithOrder) holds if and only if the order is fillable and some fillable order on the other side has a limit it reaches. Cancelled and filled orders never count, and an empty opposite side never matches |
| Settlement.SharesToTrade | src/OrderBook.ts:200 | the traded quantity fits both orders and equals one of them, and it is positive when both have shares left |
| Settlement.TradePrice | src/OrderBook.ts:201-202 | for crossing limits, the price lies within both limits. It is the ask's price when the bid is newer and the bid's price when the ask is newer, that is, the older order's limit |
| Settlement.Fill | src/OrderBook.ts:206-212 | a participant keeps its id, side, price and timestamp, loses exactly the traded shares, is Filled exactly when none remain and PartiallyFilled otherwise, and `addTrade` appends exactly the trade id to its history |
| Settlement.TradedSharesFrame | src/OrderBook.ts:174-176 | recording a trade under a fresh id leaves the total of the earlier trades unchanged |
| Settlement.ConservedFrame | src/OrderBook.ts:174-176 | an order that is not part of a new trade keeps its conservation equation |
| Settlement.FillConserves | src/OrderBook.ts:206-212 | a participant stays conserved: original shares = remaining shares + shares of its trades |
| BookState.EvolvesTransitive | src/OrderBook.ts:162-168 | "every order only advances" composes over successive operations |
| BookState.AdvancesTransitive | src/OrderBook.ts:206-212 | one order's allowed changes compose: same id, side, price and timestamp, an allowed status move, no more shares, and a longer trade history |
| BookState.TakenByFrame | src/OrderBook.ts:188-197 | a trade taken by an order at its counterparty's price stays so while the book evolves |
| BookState.NewTradeSound | src/OrderBook.ts:200-204 | the trade created next (NextTrade) between a crossing buy and sell has a positive quantity, names a stored buy and a stored sell, and is priced at the older order's limit, within both limits |
| BookState.SettledTradesSound | src/OrderBook.ts:199-217 | after a trade, every recorded trade is still sound |
| BookState.SettledOrdersSound | src/OrderBook.ts:206-212 | after a trade, every stored order is well formed and conserved, both participants and all others |
| BookState.SettlementEvolves | src/OrderBook.ts:206-212 | a trade only advances the two participants and changes no other order |
| BookState.SettlementKeepsInvariant | src/OrderBook.ts:199-217 | settling a trade between a fillable buy and sell whose limits cross keeps the book invariant |
| BookState.SettlementKeepsIncoming | src/OrderBook.ts:194-212 | after a trade, the incoming order, now updated by it, is still newer than every other stored order and is sound |
| BookState.TakingMeetsSettlement | src/OrderBook.ts:194-197 | the incoming order and a resting order it crosses are a buy and a sell with distinct ids and timestamps whose limits cross, so they can settle |
| BookState.TakingTrade | src/OrderBook.ts:194-204 | a trade of the incoming order with a crossed resting order has a positive quantity no larger than what the incoming order has left. It is at the resting order's price, and it leaves one of the two Filled |
| BookState.TakingStep | src/OrderBook.ts:194-212 | settling the incoming order against a resting order it crosses is one step of the sweep: the settled state keeps the invariant and the updated incoming order is still the newest |
| BookState.BestCounterpartyCrosses | src/OrderBook.ts:194-197 | when the order crosses the book, the order `fillOrder` trades with (the best ask for a buy, the best bid for a sell) exists, rests in the book, and is crossed by the order |
| BookState.Step | src/OrderBook.ts:194-197 | one step of the sweep trades the incoming order with the best order of the other side: a positive quantity within its remaining shares, at that order's price, leaving one of the two Filled. The book stays sound, the incoming order stays the newest, and its remaining shares strictly fall |
| BookState.Sweep | src/OrderBook.ts:188-192 | the recursion of `fillOrderIfPossible` terminates, since every step lowers the remaining shares, and it ends in a sound book that the order no longer crosses |
| BookState.SweepStep | src/OrderBook.ts:188-197 | each step of the sweep strictly lowers the incoming order's remaining shares, only fills (never cancels), appends the next trade id, and every new trade is the incoming order's at its counterparty's price |
| BookState.SweepFrom | src/OrderBook.ts:188-192 | the rest of a sweep extends what the sweep has done so far |
| BookState.SweepOutcome | src/OrderBook.ts:188-192 | a whole sweep only trades: the order advances without being cancelled, lists exactly the consecutive new trade ids, no order is cancelled, no trade is lost, and every new trade was taken by the order. An order that does not cross leaves state and order as they were |
| BookState.SweepEndsWhenFilled | src/OrderBook.ts:188-191 | the sweep stops at the step that fills the incoming order |
| BookState.SweepTradesFirst | src/OrderBook.ts:188-197 | an order that crosses the book trades at least once, and its first trade is with the best order of the other side |
| BookState.StoringAfterSweep | src/OrderBook.ts:150-151 | storing the swept order keeps every order advancing, cancels nothing, and every trade of the sweep names it as taker |
| BookState.ReplacingKeepsInvariant | src/OrderBook.ts:170-172 | storing a sound order that keeps the terms of the order it replaces, and whose timestamp is unique, keeps the invariant |
| BookState.StoringIncomingKeepsInvariant | src/OrderBook.ts:151 | storing the incoming order after its sweep keeps the invariant |
| BookState.OpeningKeepsQueries | src/OrderBook.ts:149-150 | handing out a new order id changes neither the crossing test nor the best order of either side |
| BookState.Creation | src/OrderBook.ts:146-156 | opening, sweeping and storing an order yields a sound book |
| BookState.CreationWithoutCrossing | src/OrderBook.ts:146-156 | an order that does not cross the book is stored as posted and nothing else changes |
| BookState.CreationOutcome | src/OrderBook.ts:146-156 | after creating an order it is stored, advanced from its posted form by trades alone (never cancelled) and listing exactly the new trade ids; no order was cancelled and no trade lost; every new trade was taken by it; it no longer crosses the book; if it crossed, its first trade was with the best order of the other side; if it did not, it is stored as posted and nothing else changed |
| BookState.CancellingKeepsInvariant | src/OrderBook.ts:162-168 | cancelling a fillable order keeps the invariant |
| BookState.CancellingEvolves | src/OrderBook.ts:162-168 | cancelling is an allowed status move for that order and changes no other order |
| BookState.OpeningKeepsInvariant | src/OrderBook.ts:51-58 | handing out a new id and timestamp keeps the invariant |
| BookState.OpenedIsIncoming | src/OrderBook.ts:149 | a freshly posted order is not stored yet and is newer (`isNewerThan`, a strictly larger timestamp) than every stored order |
| BookState.StoringKeepsCrossing | src/OrderBook.ts:151 | storing an order does not change whether that order crosses the other side |
| Matching.OrderBook.constructor | src/OrderBook.ts:113-117 | a new book is empty and satisfies the invariant |
| Matching.OrderBook.SaveOrder | src/OrderBook.ts:170-172 | the order is stored under its id and nothing else changes |
| Matching.OrderBook.SaveTrade | src/OrderBook.ts:174-176 | the trade is stored under its id and nothing else changes |
| Matching.OrderBook.NewOrder | src/OrderBook.ts:149 | the new order is Posted with the next id, the current time and the requested terms, and is not stored yet. Its original share count is recorded, and the invariant holds |
| Matching.OrderBook.CreateTradeBetween | src/OrderBook.ts:199-217 | records the trade of the smaller remaining count at the older order's price under a fresh id. It stores both updated participants, and the new state is exactly the settled state, which keeps the invariant |
| Matching.OrderBook.FillOrder | src/OrderBook.ts:194-197 | the new state and the updated order are exactly one `Step`: a trade with the best order of the other side at that order's price. The invariant holds and the order stays the newest |
| Matching.OrderBook.FillOrderIfPossible | src/OrderBook.ts:188-192 | the loop terminates because remaining shares strictly fall, and the new state and order are exactly the `Sweep` of the incoming order: it no longer crosses the book, and the sweep only traded |
| Matching.OrderBook.CreateOrder | src/OrderBook.ts:146-160 | details are valid exactly when shares and price are both positive (AreOrderDetailsValid); invalid details fail with `InvalidOrderDetails` and leave the book unchanged. Valid details give exactly the `Creation` result: the order was swept by trades alone and stored with exactly its trade ids, no longer crosses the book, traded first with the best counterparty if it crossed, and is stored as posted with nothing else changed if it did not; the invariant holds |
| Matching.OrderBook.CancelOrderById | src/OrderBook.ts:162-168 | a fillable order becomes Cancelled and nothing else changes. An order already Filled or Cancelled, or an unknown id, gives an error with the book unchanged |
| Scenarios.BuyOrdersScenario | src/test/OrderBook.test.ts:183-212 | with three resting bids (120 older, 120 newer, 100), the buy side is [100, newer 120, older 120] and the best bid is the older 120 |
| Scenarios.SellOrdersScenario | src/test/OrderBook.test.ts:183-222 | with three resting asks (130 older, 140, 130 newer), the sell side is [140, newer 130, older 130] and the best ask is the older 130 |
| MatchingScenarios.OneSidedBookDoesNotCross | src/OrderBook.ts:182-186 | an order never crosses a book holding no order of the other side |
| MatchingScenarios.PostedWithoutCounterparty | src/OrderBook.ts:146-156 | an order created on a book with no order of the other side is stored Posted with the next id and time, and nothing else changes |
| MatchingScenarios.FirstOrderPosted | src/test/OrderBook.test.ts:34-133 | the first order of a book, buy (lines 34-48) or sell (lines 116-133), is stored Posted, with its requested side, price and shares, and no trade |
| MatchingScenarios.SingleCounterpartyFill | src/OrderBook.ts:188-217 | an order meeting a single resting order of the other side of its size, within its limit, trades once at the resting price; both end Filled with no shares left and that one trade listed, and the trade is recorded |
| MatchingScenarios.FilledOrderScenario | src/test/OrderBook.test.ts:238-410 | a taker for 10 at 10.2 after a maker of the other side for 10 at a price it reaches (a bid after an ask at 10.2 or 10.1, lines 238-300; an ask after a bid at 10.2, lines 377-410): both end Filled with 0 shares and the one trade of 10 shares at the maker's price. Both being Filled, `CancelOrderById` rejects them with `OrderNotCancellable` (lines 269-271 and 408-410) |
| MatchingScenarios.OldestAskTakenFirst | src/test/OrderBook.test.ts:304-349 | of two asks at the bid's price, the older one (2 shares) is taken first; the bid keeps 8 shares and becomes PartiallyFilled |
| MatchingScenarios.LatestAskTakenNext | src/test/OrderBook.test.ts:304-349 | the remaining 8 shares of the bid take the newer ask, and both become Filled |
| MatchingScenarios.BidSweepsBothAsks | src/test/OrderBook.test.ts:304-349 | the sweep of the bid is exactly those two steps |
| MatchingScenarios.SeveralAsksScenario | src/test/OrderBook.test.ts:304-349 | a bid for 10 at 10.2 after asks for 2 and then 8 at 10.2 ends Filled with 0 shares and two trades, 2 shares with the older ask and then 8 with the newer, both at 10.2; both asks end Filled |

## Left out

- `console.log` (src/OrderBook.ts:153) is output and is not modelled.
- UUIDs come from a foreign library. They are replaced by counters, which are fresh by construction.
- `Date.now()` is wall-clock time. It is replaced by a clock that advances on every new order and every trade, so no two orders share a timestamp; the tests nudge timestamps by hand for the same effect.
- Prices are numbers (floats) in the source and integer ticks here (102 stands for 10.2); floating-point rounding is not modelled.
- Share counts are JavaScript numbers too. The validity check (src/OrderBook.ts:159) lets fractional counts through, and `details.shares -= sharesToBeTraded` (src/OrderBook.ts:207) is a floating-point subtraction. The model uses whole shares (`int` details, `nat` remaining shares), so fractional orders and rounding in the subtraction are not modelled.
- `Array.prototype.sort` is modelled by an insertion sort. With distinct timestamps the comparator is a strict total order, so every correct sort gives the same result (`PrioritySort.SortedPermutationUnique`); stability is not modelled.
- Traversal order: `Object.values` enumerates orders in key-insertion order. The model lists them by id, which is creation order. The side queries do not depend on this, because the result is then sorted.
- Aliasing: the source mutates one shared `Order` object in place, both the stored order and the caller's reference (`details.shares -=`, `status`, `tradeIds.push`). The model replaces the map entry with an updated value and hands the updated incoming order back to the caller. Object identity is not modelled. Nor is the sharing of the caller's `details` object, which the source mutates too.
- Matching.OrderBook.CancelOrderById: an unknown id dereferences `undefined` in the source (a TypeError). The model returns `OrderNotFound` and leaves the book as it was.
- Matching.OrderBook.CreateOrder: the source throws on invalid details; the model returns `Failure(InvalidOrderDetails)`.
- Trading-pair metadata is kept as a constant field; nothing depends on it.
- `src/Exchange.ts`, `src/MessageBroker.ts`, `index.ts` and `test_client.ts` are not part of this model. They hold routing, ZeroMQ networking and process start-up. The event callback passed by the tests and by the exchange is never used by `OrderBook`.
- The ghost map `originalShares` exists only to state conservation; the source keeps no such record.
