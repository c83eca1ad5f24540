# Verified model of the HFT-sdk trading core

This project models the stateful core of the HFT-sdk toolkit and proves what it promises: the L3 order
book, the simple order book, the matching engine with its pre-trade risk checks, the trade engine's
positions, the latency histogram, the single-producer single-consumer ring buffer and the free-list memory
pool. `dafny verify dfyconfig.toml` checks all of it.

## How it is laid out

| files | what they hold |
|---|---|
| `Types`, `Arithmetic`, `MapSum`, `Words` | value types, integer quotients, sums over maps, 64-bit words and bit masks |
| `Ladder` | one side of a book: the ordered price map of FIFO queues, its flat price-time view, the order index |
| `BookSpec`, `BookTheorems`, `BookReports`, `Lifetime`, `QueuePositions` | the L3 book as a fold over flat price-time lists, what every run of it keeps, what each request is answered and gets, and how far stored queue positions are off |
| `L3Lemmas`, `L3OrderBook` | the L3 book as a class with the nested loops of the program, proved to refine the fold |
| `SimpleBookSpec`, `OrderBook`, `BooksAgree` | the simple book, as a specification and as a class, and its equivalence with the L3 book |
| `RiskSpec`, `RiskEngine`, `RiskTheorems` | the risk checks, the class that makes them, the sliding window and the position limits |
| `EngineSpec`, `MatchingEngine`, `EngineTheorems`, `EngineLedger`, `EngineRequests` | the composition of books, risk and routing index, over whole runs, its counters and positions against the tapes, and what each request does |
| `TradeSpec`, `TradeEngine`, `ProfitTheorems` | positions: averages, the profit identity and where it breaks, zero-sum nets, cash flows and profits |
| `LatencyHistogram` | buckets against exact order statistics |
| `RingProtocol`, `RingTheorems`, `RingBuffer` | the ring as interleaved memory accesses, what that guarantees, and the ring as an object |
| `PoolProtocol`, `PoolTheorems`, `PoolOverlap`, `MemoryPool` | the free list as interleaved memory accesses, and the pool as an object |

Classes have the program's fields and loops. Each method is proved against a function of the old state
(`State()`, `Contents()`, `samples`, `pool`), and the theorems are about runs of those functions. Two
simplifications of form run through the books: `std::map` is a `seq` of levels kept in comparator order by
`WellFormed`, and a list iterator is the id of the order in the list node, which the index invariant
`Coherent` shows to be the same thing. Icebergs are allowed to rest in every state although `add_order`
creates none, so that the replenishment branch is covered by every theorem about matching.

The two concurrent structures are state machines over single memory accesses. In the ring each thread reads
its own counter exactly and the other's possibly late but never older than before; counters wrap at 2^64;
touching a slot takes two steps and leaves it torn in between. In the pool any number of allocate and
deallocate calls are under way at once, and a compare-and-swap may fail for no reason.

## Where code and expectations part

The model follows the code. These are theorems, not remarks:

- A killed market FOK order is reported `New`, although "reject completely" is documented
  (src/market/README.md:381): `KilledFokRejectedIffLimit`, `KilledMarketFokReportsNew`.
- The remainder of a market order is reported as `leaves_qty` but never rests:
  `LeavesIsWaitingUnlessMarket` says exactly when the two differ.
- "Each order knows its position in the price level" (src/market/README.md:386) holds right after a cancel
  at that price. A submission makes the positions behind it drift exactly when it takes everything up to and
  including the first order at their price: `AddDriftsIff`. Over any run a stored position is off by exactly
  the orders erased there since the order joined or the last cancel: `RunLogged`, with a run in
  `PositionsCanDrift`.
- Risk sees only the trades in which a trader's entered orders were the aggressor: `PositionsFollowEntries`. In
  the run of `PassiveFillsPassLimit` a trader buys more than its limit while risk tracks nothing.
- The rate limiter's window is exact when submit times do not run backwards: `WindowIsExact`. In general it is
  exact if and only if everything it dropped is expired and the deque has a cut: `RunExactIff`. A step back can
  make it forget orders that are in the window (`BackwardsTimeForgets`), because the unsigned difference wraps,
  and can make it count orders that are not (`BackwardsTimeRemembers`), because an expired stamp behind a live
  one is not looked at.
- An order reusing the id of an order under another symbol takes its route away: `AcceptKeepsRoutesIff` says
  exactly when, `StolenRouteMisses` gives a run.
- A simple-book `addOrder` with an id already queued ruins its index: `OrderBook.AddOrder` keeps `Valid()` if
  and only if the id was not queued.
- Realized plus unrealized profit is not cash flow plus open quantity at the mark once a position is re-added
  to after a close, or flipped: `GapIsDeviations` gives the difference, `DeviationZeroIff` and
  `FirstBreakFails` say exactly when it appears, `ReAddingBreaks` is a history in which it does.
- "Safe to call concurrently from multiple threads" (src/common/MEMORYPOOL.md:230) fails for overlapping
  allocate calls whenever the pool has more than one slot: `OverlapIsSafeIff`, with the run in
  `StaleSuccessor`. With allocate calls that do not overlap one another, everything promised holds.
- A percentile above 1 returns the value past the last bucket, and only such a percentile does:
  `FallsThroughIff`.

## Model

| member | source | states |
|---|---|---|
| `BookSpec.FillConserves` | src/orderbook/l3_order_book.cpp:241-260 | A fill moves quantity from available to filled and loses none; visible quantity goes first, then an iceberg shows up to 100 of what is hidden; nothing else about the order changes |
| `BookSpec.ConsumeEatsPrefix` | src/orderbook/l3_order_book.cpp:205-242 | The trades of a sweep are with the first orders of the price-time list and their traders, in order, at their prices, with consecutive ids, all but the last for everything available; their sum is what left the incoming order |
| `BookSpec.ConsumeStops` | src/orderbook/l3_order_book.cpp:205-216 | Matching stops only because nothing remains, the side is empty, or the next price is not acceptable; a non-positive quantity trades nothing |
| `BookSpec.ConsumeLeaves` | src/orderbook/l3_order_book.cpp:253-279 | The residual side is the list behind the eaten prefix, with at most one part-filled order kept at its front |
| `BookSpec.FillsIffLiquid` | src/orderbook/l3_order_book.cpp:168-193 | The FOK liquidity scan predicts the loop: matching reaches remaining 0 exactly when the acceptable liquidity covers the quantity, and otherwise leaves the shortfall |
| `BookSpec.ConsumeConserves` | src/orderbook/l3_order_book.cpp:216-273 | Quantity leaving the book side equals quantity on the new trades |
| `BookTheorems.MatchKeepsSide` | src/orderbook/l3_order_book.cpp:201-281 | Matching keeps the eaten side sorted, its ids distinct and every order visible: what is left is an end of what was there |
| `BookTheorems.MatchAmounts` | src/orderbook/l3_order_book.cpp:164-198 | Traded plus remaining is the order quantity, remaining stays between 0 and it, and why matching stopped |
| `BookTheorems.AddKeepsValid` | src/orderbook/l3_order_book.cpp:15-80 | Submitting any order of any type, time in force, price and quantity keeps the book invariant, uncrossedness included |
| `BookTheorems.RemoveKeeps` | src/orderbook/l3_order_book.cpp:109-133 | A cancel takes out the named order and changes nothing about the others but stored queue positions |
| `BookTheorems.CancelKeepsValid` | src/orderbook/l3_order_book.cpp:83-136 | A cancel keeps the book invariant, and the id no longer rests |
| `BookTheorems.ReplaceKeepsValid` | src/orderbook/l3_order_book.cpp:139-161 | A replace keeps the book invariant |
| `BookTheorems.NeverCrossed` | src/orderbook/l3_order_book.cpp:55-57 | After any run of submits, cancels and replaces every bid is strictly below every ask |
| `BookTheorems.RunKeepsValid` | src/orderbook/l3_order_book.cpp:15-161 | The same from any valid book, iceberg orders included |
| `BookTheorems.ReportMatchesTape` | src/orderbook/l3_order_book.cpp:36-74 | The filled quantity reported is the sum of the new trades and lies between 0 and the quantity ordered, FOK rejections included |
| `BookTheorems.AddNumbersTrades` | src/orderbook/l3_order_book.cpp:222-235 | The tape numbers its trades 1, 2, 3, ... without gaps |
| `BookTheorems.FokAllOrNothing` | src/orderbook/l3_order_book.cpp:65-71 | A FOK order trades its full quantity, or the book is untouched and nothing was traded; liquidity decides which, and it never rests |
| `BookTheorems.KilledFokRejectedIffLimit` | src/orderbook/l3_order_book.cpp:40-71 | A killed FOK order is reported Rejected if and only if it is a limit order; a market one is reported New |
| `BookTheorems.KilledMarketFokReportsNew` | src/orderbook/l3_order_book.cpp:40-55 | A concrete killed market FOK order reported New with its whole quantity as leaves |
| `BookTheorems.LeavesIsWaitingUnlessMarket` | src/orderbook/l3_order_book.cpp:40-71 | The reported leaves quantity is what waits in the book, exactly unless a market order outran the liquidity |
| `BookTheorems.AddUncrossed` | src/orderbook/l3_order_book.cpp:55-57 | A limit order that meets no acceptable price just joins the back of its price and is reported New |
| `BookTheorems.AddThenCancel` | src/orderbook/l3_order_book.cpp:83-136 | Adding an order that trades nothing and cancelling it gives the book back, apart from refreshed queue positions at its price, with a report of the full quantity and no fill |
| `BookTheorems.ReplaceIsCancelThenAdd` | src/orderbook/l3_order_book.cpp:139-160 | A replace is rejected, and changes nothing, exactly when the order does not rest; otherwise it is a cancel followed by a day limit order of the new price and quantity under the same id and side |
| `BookReports.AddTradesAre` | src/orderbook/l3_order_book.cpp:205-236 | Every trade of a submission, field by field: with the next order of the other side, at its price, no worse than the limit, with the next trade id |
| `BookReports.AddStops` | src/orderbook/l3_order_book.cpp:205-212 | Quantity is left over only at an empty side or a best price beyond the limit; a market order only at an empty side |
| `BookReports.AddRests` | src/orderbook/l3_order_book.cpp:283-311 | What comes to rest, and when: the untraded quantity of a day or good-till-cancel limit order, at its own price, side and trader |
| `BookReports.ReportNamesOrder` | src/orderbook/l3_order_book.cpp:16-24 | A report repeats the order it answers and the time, whatever happened |
| `BookReports.DuplicateIsRejected` | src/orderbook/l3_order_book.cpp:27-33 | An order whose id rests is rejected as a duplicate, changes nothing, and no other order is |
| `BookReports.ReportTellsTrades` | src/orderbook/l3_order_book.cpp:36-74 | Status, reason, filled, leaves and last fill, if and only if, from the sum of the new trades and the order's type and time in force |
| `BookReports.NoQuantityNoChange` | src/orderbook/l3_order_book.cpp:36-55 | An order without positive quantity changes nothing; it is reported Filled at zero and New below |
| `BookReports.ReplaceDoes` | src/orderbook/l3_order_book.cpp:139-160 | A replace by the request alone: report, new trades plus waiting equal the new quantity, waiting is at the new price on the old side, no trade is worse than the new price |
| `BookReports.ReplaceOfNothing` | src/orderbook/l3_order_book.cpp:141-146 | A replace of an order that does not rest is rejected and changes nothing |
| `BookReports.CancelReportDescribes` | src/orderbook/l3_order_book.cpp:83-106 | Canceled if and only if the order rested, with the trader, side, price, quantity and fills it rested with; otherwise Rejected and nothing changes |
| `QueuePositions.MatchDrifts` | src/orderbook/l3_order_book.cpp:262-272 | Matching makes a surviving order's stored queue position drift by exactly the number of erased orders at its price |
| `QueuePositions.ErasesIff` | src/orderbook/l3_order_book.cpp:216-273 | Matching erases an order if and only if its price is acceptable and the quantity covers everything available up to and including it |
| `QueuePositions.AddDriftsIff` | src/orderbook/l3_order_book.cpp:262-272 | A submission leaves a surviving order's stored position as right as it was if and only if it does not take everything up to and including the first order at that price; a duplicate or a killed fill-or-kill order takes nothing |
| `QueuePositions.JoinDoesNotDrift` | src/orderbook/l3_order_book.cpp:298-309 | A joining order's stored position is exact and nobody else's error changes |
| `QueuePositions.RemoveDrifts` | src/orderbook/l3_order_book.cpp:124-132 | A cancel makes the stored positions at its price exact and leaves all others' errors |
| `QueuePositions.RunLogged` | src/orderbook/l3_order_book.cpp:262-326 | Over any run of submits, cancels and replaces an order's stored position overstates its place by exactly the number of orders matching erased at its price since the later of its joining and the last cancel there |
| `QueuePositions.DriftIsMissed` | src/orderbook/l3_order_book.cpp:262-326 | The same for every run from an empty book |
| `QueuePositions.PositionsCanDrift` | src/orderbook/l3_order_book.cpp:269-269 | A run from an empty book, two bids and a sell, after which the remaining bid reports one order ahead of it |
| `L3OrderBooks.L3OrderBook.constructor` | src/orderbook/l3_order_book.cpp:12-12 | A new book is valid and empty |
| `L3OrderBooks.L3OrderBook.RecordTrade` | src/orderbook/l3_order_book.cpp:222-239 | Trade count, volume, last price and next id stay what the tape of trades says they are |
| `L3OrderBooks.L3OrderBook.Reduce` | src/orderbook/l3_order_book.cpp:241-260 | The visible, hidden and filled quantities after a match, replenished from hidden up to 100 for an iceberg |
| `L3OrderBooks.L3OrderBook.Drop` | src/orderbook/l3_order_book.cpp:262-269 | Erasing a filled order in the middle of matching keeps the index a bijection with the remaining orders and the counts exact |
| `L3OrderBooks.L3OrderBook.MatchLevel` | src/orderbook/l3_order_book.cpp:214-273 | The inner loop over one queue, erasing as it goes, makes the steps of the fold over that queue |
| `L3OrderBooks.L3OrderBook.MatchAgainst` | src/orderbook/l3_order_book.cpp:201-281 | The nested loops over levels and queues yield exactly the trades, remainder and residual side of the fold over the flat price-time list, touch nothing else, and keep index, counts, counters and positions |
| `L3OrderBooks.L3OrderBook.ScanLiquidity` | src/orderbook/l3_order_book.cpp:168-188 | The early-exit scan decides whether the acceptable liquidity covers the order |
| `L3OrderBooks.L3OrderBook.MatchIncoming` | src/orderbook/l3_order_book.cpp:164-198 | FOK scan, then matching: trades, remainder and new state |
| `L3OrderBooks.L3OrderBook.AddRestingOrder` | src/orderbook/l3_order_book.cpp:283-312 | The remainder goes behind everything at the same price or better, with index entry, count and its true queue position |
| `L3OrderBooks.L3OrderBook.AddOrder` | src/orderbook/l3_order_book.cpp:15-80 | The whole new state and the whole report of a submission; the representation invariant is kept |
| `L3OrderBooks.L3OrderBook.UpdateQueuePositions` | src/orderbook/l3_order_book.cpp:314-326 | Stored positions of one level become its indexes, nothing else changes; a missing level is left alone |
| `L3OrderBooks.L3OrderBook.EraseNode` | src/orderbook/l3_order_book.cpp:109-127 | Erasing through an iterator removes one order, and its level when that was the last one |
| `L3OrderBooks.L3OrderBook.CancelOrder` | src/orderbook/l3_order_book.cpp:83-136 | The whole new state and report of a cancel, found through the index; afterwards every stored position at that price is exact |
| `L3OrderBooks.L3OrderBook.Dereference` | src/orderbook/l3_order_book.cpp:93-104 | In every valid state an index entry leads to the one order of that id: right side, existing level, right node |
| `L3OrderBooks.L3OrderBook.ReplaceOrder` | src/orderbook/l3_order_book.cpp:139-161 | The whole new state and report of a replace |
| `L3OrderBooks.L3OrderBook.Best` | src/orderbook/l3_order_book.cpp:335-357 | The best level: absent exactly for an empty side, otherwise the first price with the number and displayed quantity of all orders there, which is positive |
| `L3OrderBooks.L3OrderBook.Depth` | src/orderbook/l3_order_book.cpp:394-428 | Up to n levels in price order, each with the number and displayed quantity of all orders at its price; an order's price is shown unless n better ones are |
| `L3OrderBooks.L3OrderBook.QueuePosition` | src/orderbook/l3_order_book.cpp:447-452 | Found exactly for resting orders; it is the stored position, never below the number of orders ahead at the price, and equal to it where the level's positions are exact |
| `L3OrderBooks.L3OrderBook.QuantityAhead` | src/orderbook/l3_order_book.cpp:454-480 | The displayed quantity queued before the order at its price; 0 for an unknown id |
| `L3OrderBooks.L3OrderBook.QuoteTop` | src/orderbook/l3_order_book.cpp:359-392 | The whole quote; two-sided: positive spread, mid and micro price between the sides with truncating division, micro leaning towards the lighter side, and the zero-quantity fallback unreachable |
| `L3Lemmas.QuotesBetween` | src/orderbook/l3_order_book.cpp:370-382 | Mid and micro price, truncated towards zero, lie between bid and ask, also for negative prices |
| `L3Lemmas.MicroLeans` | src/orderbook/l3_order_book.cpp:377-380 | The micro price is at or above the mid when more is bid than offered, at or below when less |
| `L3OrderBooks.RepresentationUnique` | src/orderbook/l3_order_book.hpp:123-139 | The flat book determines price maps, index, counts and counters |
| `L3OrderBooks.RepresentationUpToPositions` | src/orderbook/l3_order_book.hpp:123-139 | Books that differ in nothing but queue positions at one price have the same index, counts and counters, and price maps equal up to those positions |
| `L3OrderBooks.AddAndCancel` | src/orderbook/l3_order_book.cpp:83-136 | On one book object, adding a non-crossing order and cancelling it restores both price maps up to queue positions at its price, and the index, the counts and the counters exactly |
| `Ladder.PushRefines` | src/orderbook/l3_order_book.cpp:297-300 | Pushing at the back of a price level, opened when missing, is price-time insertion in the flat list, and no level is empty |
| `Ladder.GroupFlat` | src/orderbook/l3_order_book.hpp:123-128 | A well-formed ladder is recovered from its flat list, so the flat list loses nothing |
| `Ladder.CoherentErase` | src/orderbook/l3_order_book.cpp:264-269 | Erasing an order and its index entry together keeps the index a bijection with the queued orders |
| `Lifetime.AddKeepsSettled` | src/orderbook/l3_order_book.cpp:283-294 | Submitting keeps filled + visible + hidden equal to the accepted quantity for every resting order, and filled equal to its trades since |
| `Lifetime.RunKeepsSettled` | src/orderbook/l3_order_book.cpp:241-260 | The same over any run of submits, cancels and replaces, partial fills and iceberg refills included |
| `Lifetime.CancelReportsLifetime` | src/orderbook/l3_order_book.cpp:102-104 | After any run a cancel report states the quantity the order was accepted for and the sum of the trades it took part in since |
| `OrderBooks.OrderBook.AddOrder` | src/market/order_book.cpp:13-23 | Price-time insertion always; the index stays right if and only if the id was not queued |
| `OrderBooks.OrderBook.CancelOrder` | src/market/order_book.cpp:25-48 | Removes exactly the named order; true exactly if it was queued |
| `OrderBooks.OrderBook.MatchQueue` | src/market/order_book.cpp:63-84 | The inner loop takes fronts off one queue as the fold does, erasing index entries in step |
| `OrderBooks.OrderBook.MatchIncoming` | src/market/order_book.cpp:50-128 | The loops yield exactly the trades, remainder and residual side of the fold, and keep the index a bijection |
| `OrderBooks.OrderBook.Depth` | src/market/order_book.cpp:154-184 | Up to n levels of a side, best first, as read off the flat list |
| `OrderBooks.DuplicateRuinsIndex` | src/market/order_book.cpp:13-23 | Once two queued orders share an id, no index content at all is right |
| `BooksAgree.MatchesAgree` | src/market/order_book.cpp:50-128 | The two matching algorithms give the same fills, remainder and residual queue from mirrored queues |
| `BooksAgree.RunsCoupled` | src/market/order_book.cpp:13-128 | Mirrored books stay mirrored and answer alike over any run of fresh submissions and cancels |
| `BooksAgree.TwoBooksAgree` | src/market/order_book.cpp:13-128 | From empty, over any run of fresh positive non-FOK submissions and cancels, both books give the same fills, remainders, cancel answers and depth |
| `BooksAgree.DepthsAgree` | src/market/order_book.cpp:154-184 | Mirrored queues show the same prices and quantities level by level |
| `SimpleBookSpec.MatchTradesAre` | src/market/order_book.cpp:67-75 | A trade of the simple book names the incoming order, its side, the book and the time, and neither trade id nor traders |
| `RiskEngines.RiskEngine.constructor` | src/risk/risk_engine.hpp:18-24 | A new engine has the default limits, knows no trader and has checked nothing |
| `RiskEngines.RiskEngine.CheckOrder` | src/risk/risk_engine.cpp:22-61 | Verdict and whole new state of the checks in their order, counters included |
| `RiskEngines.RiskEngine.CheckPositionLimit` | src/risk/risk_engine.cpp:129-163 | Rejects exactly when the symbol position or the net position would leave its limit; creates the trader's state and nothing else |
| `RiskEngines.RiskEngine.CheckRateLimit` | src/risk/risk_engine.cpp:165-185 | The purge loop and the verdict as one function of the deque, the limits and the time |
| `RiskEngines.RiskEngine.OnFill` | src/risk/risk_engine.cpp:63-73 | Position and net move by the signed fill, nothing else |
| `RiskEngines.RiskEngine.UnkillAll` | src/risk/risk_engine.cpp:87-92 | Lifts the global switch and every trader's own; no other trader state changes |
| `RiskEngines.RiskEngine.KillAll` | src/risk/risk_engine.cpp:79-81 | Every trader counts as killed, known or not |
| `RiskEngines.RiskEngine.UnkillTrader` | src/risk/risk_engine.cpp:83-85 | Lifts the trader's own switch and no other; it stays killed only by the global one |
| `RiskTheorems.PurgeDrops` | src/risk/risk_engine.cpp:172-176 | With ascending stamps not after now, purging drops exactly the expired ones |
| `RiskTheorems.WindowIsExact` | src/risk/risk_engine.cpp:165-185 | With time not running backwards the purged deque is exactly the accepted stamps within the window, and the order passes if and only if fewer than the limit are there |
| `RiskTheorems.CheckKeepsSpaced` | src/risk/risk_engine.cpp:178-184 | Accepted orders a limit apart stay more than a window apart |
| `RiskTheorems.LimiterRun` | src/risk/risk_engine.cpp:165-185 | Over any run, any limit + 1 consecutive accepted orders span more than the window |
| `RiskTheorems.PurgeExactIff` | src/risk/risk_engine.cpp:172-176 | For any deque, in any order, purging leaves exactly what is in the window if and only if there is a cut: expired before it, live from it on, and its first stamp not so far ahead that 64-bit subtraction takes it for expired |
| `RiskTheorems.WindowExactIff` | src/risk/risk_engine.cpp:165-185 | Against everything accepted so far, the purged deque is exact if and only if all it dropped before is expired now and it has such a cut |
| `RiskTheorems.RunExactIff` | src/risk/risk_engine.cpp:165-185 | The same after any run of checks from nothing, whatever the submit times |
| `RiskTheorems.BackwardsTimeForgets` | src/risk/risk_engine.cpp:172-176 | A concrete pair of orders a nanosecond apart, both accepted under a limit of one per millisecond |
| `RiskTheorems.BackwardsTimeRemembers` | src/risk/risk_engine.cpp:172-181 | A concrete run refusing an order although only two accepted ones are in a window that allows three |
| `RiskTheorems.VerdictIs` | src/risk/risk_engine.cpp:22-61 | Every verdict if and only if: the kill switch before price, quantity, position and rate, and a pass exactly when nothing stands against the order; the counters follow |
| `RiskTheorems.CheckKeepsSwitches` | src/risk/risk_engine.cpp:22-61 | A check moves no switch, and of a killed trader nothing but the counters |
| `RiskTheorems.FillIs` | src/risk/risk_engine.cpp:63-73 | A fill raises a buyer's and lowers a seller's position and net, and touches nothing else |
| `RiskTheorems.CheckChangesOne` | src/risk/risk_engine.cpp:22-61 | A check moves no position and no net, touches no other trader, and passes only within both position limits |
| `RiskTheorems.CheckKeepsWithin` | src/risk/risk_engine.cpp:22-61 | A check keeps every position and net within its limits and every net the sum of its positions |
| `RiskTheorems.CheckedFillKeepsWithin` | src/risk/risk_engine.cpp:63-73 | A fill between nothing and the checked quantity keeps all positions and nets within limits and every net the sum of its positions |
| `MatchingEngines.MatchingEngine.ProcessNewOrder` | src/market/matching_engine.cpp:57-113 | The whole new state of all books, routes, risk and counters, and the report, of a new order; positions stay within limits and routes stay right |
| `MatchingEngines.MatchingEngine.Submit` | src/market/matching_engine.cpp:93-112 | After the checks: the book, then the route unless rejected or filled, then the fill to risk |
| `MatchingEngines.MatchingEngine.ProcessCancel` | src/market/matching_engine.cpp:115-153 | The whole new state and report of a cancel routed by symbol or by index; positions stay within limits and routes stay right |
| `MatchingEngines.MatchingEngine.ProcessReplace` | src/market/matching_engine.cpp:155-174 | The whole new state and report of a replace; risk and routing entries are not involved, and stay right |
| `MatchingEngines.MatchingEngine.AddSymbol` | src/market/matching_engine.cpp:15-38 | Opens an empty valid book for a new symbol; a known symbol is left alone |
| `EngineRequests.UnknownSymbolIsRefused` | src/market/matching_engine.cpp:61-74 | An order for an unknown symbol is refused as such, and only the counters move |
| `EngineRequests.RiskRefusalIsTold` | src/market/matching_engine.cpp:76-91 | An order risk refuses is refused for that reason and reaches no book and no route |
| `EngineRequests.PassedOrderReachesBook` | src/market/matching_engine.cpp:93-112 | Any other order is submitted to the book of its symbol; the answer is the book's, and only its own route, the trade count and the risk of its fill move besides |
| `EngineRequests.NamedCancelReachesItsBook` | src/market/matching_engine.cpp:133-152 | A cancel naming a known symbol is Canceled if and only if the order rests in that book, and then only that order, its route and the cancel count move; otherwise nothing does |
| `EngineRequests.UnknownCancelIsRejected` | src/market/matching_engine.cpp:133-141 | A cancel for an unknown symbol is rejected as such and nothing moves |
| `EngineRequests.BlankCancelIsRouted` | src/market/matching_engine.cpp:119-131 | A cancel without symbol is the cancel naming the symbol on record, and is rejected without one |
| `EngineRequests.ReplaceReachesItsBook` | src/market/matching_engine.cpp:155-173 | A replace is made in the book of its symbol, and only that book and the trade count move |
| `EngineRequests.UnknownReplaceIsRejected` | src/market/matching_engine.cpp:158-166 | A replace for an unknown symbol is rejected as such and nothing moves |
| `EngineRequests.KilledIsRefused` | src/market/matching_engine.cpp:76-91 | An order of a killed trader is refused by the kill switch and reaches no book |
| `EngineRequests.KilledTraderIsShutOut` | src/risk/risk_engine.cpp:24-30 | Over any run, while a trader is killed none of its orders passes, it is aggressor in no trade of an entered order, and no entered order of its own comes to rest |
| `EngineTheorems.HandleKeepsBooks` | src/market/matching_engine.cpp:57-174 | Every request keeps every book's invariant |
| `EngineTheorems.HandleKeepsRisk` | src/market/matching_engine.cpp:76-106 | Every request keeps every position and net within limits: what on_fill is told lies between 0 and what was checked |
| `EngineTheorems.PositionsStayWithin` | src/market/matching_engine.cpp:76-106 | The same over any run of new orders, cancels and replaces, with nets equal to sums |
| `EngineLedger.HandleTracks` | src/market/matching_engine.cpp:102-106 | One request moves a trader's tracked position by the signed trades its own entered order made, and by nothing else |
| `EngineLedger.PositionsFollowEntries` | src/market/matching_engine.cpp:102-106 | Over any run a tracked position is its starting value plus the signed trades in which the trader's own entered orders were the aggressor: passive fills and fills of replacements are not seen |
| `EngineLedger.PassiveFillsPassLimit` | src/market/matching_engine.cpp:102-106 | A run from an engine with an empty book in which a trader buys more than its limit through passive fills while risk tracks nothing |
| `EngineLedger.RunKeepsCounted` | src/market/matching_engine.cpp:24-26 | Over any run total_trades() is the number of trades on all books' tapes |
| `EngineTheorems.HandlePaces` | src/market/matching_engine.cpp:76-106 | One request of any trader keeps a trader's deque exact for the orders that passed, and these spaced |
| `EngineTheorems.RunPaces` | src/risk/risk_engine.cpp:165-185 | Over any engine run, with other traders, other rejections and fills in between, and the trader's own submit times not running backwards, any limit + 1 consecutive orders that pass span more than the window |
| `EngineTheorems.RateLimitHolds` | src/risk/risk_engine.cpp:165-185 | The same from a trader's first order on |
| `EngineTheorems.AddResidents` | src/market/matching_engine.cpp:96-100 | A submission brings nobody to rest but its own order, and that only with a report that records a route |
| `EngineTheorems.RoutableIff` | src/market/matching_engine.cpp:96-100 | A route is recorded if and only if the id does not rest and the liquidity falls short, except for fill-or-kill limit orders: what a caller can tell beforehand |
| `EngineTheorems.AcceptKeepsRoutesIff` | src/market/matching_engine.cpp:96-100 | A new order keeps every resting order routed if and only if no order of its id rests under another symbol, or no route will be recorded by that condition |
| `EngineTheorems.StolenRouteMisses` | src/market/matching_engine.cpp:96-130 | A concrete run in which an order's route is taken, and a cancel without symbol is rejected while the order still rests |
| `EngineTheorems.CancelKeepsRoutes` | src/market/matching_engine.cpp:143-147 | Cancels keep every resting order routed to its own book |
| `EngineTheorems.ReplaceKeepsRoutes` | src/market/matching_engine.cpp:168-168 | Replaces keep every resting order routed to its own book |
| `EngineTheorems.RunKeepsRoutes` | src/market/matching_engine.cpp:57-174 | Over any run in which no id is submitted while resting under another symbol, every resting order is routed to its own book |
| `EngineTheorems.HandleKeepsPromises` | src/market/matching_engine.cpp:57-174 | One request keeps positions within limits, and routes right unless it takes over a resting id; the class methods state it of their own states |
| `EngineTheorems.BlankCancelReachesItsBook` | src/market/matching_engine.cpp:119-147 | After any such run a cancel without symbol is answered Canceled, removes the order, and leaves the other books alone |
| `TradeEngines.TradeEngine.ProcessTrade` | src/market/trade_engine.cpp:9-28 | Both parties' positions and the running totals after a trade, also when a trader trades with itself |
| `TradeEngines.TradeEngine.UpdatePosition` | src/market/trade_engine.cpp:70-118 | One position changes by one leg, created on first use; no other position changes |
| `TradeEngines.TradeEngine.Bought` | src/market/trade_engine.cpp:81-97 | The buy branch: closing part realized at the sell average, buy average moved only when not short |
| `TradeEngines.TradeEngine.Sold` | src/market/trade_engine.cpp:97-115 | The sell branch, mirrored |
| `TradeEngines.TradeEngine.MarkToMarket` | src/market/trade_engine.cpp:49-68 | Unrealized profit of every position in the symbol is repriced; nothing else changes |
| `TradeEngines.MarkTouches` | src/market/trade_engine.cpp:49-68 | A mark reprices the positions of its symbol and no others, and nothing but their unrealized profit |
| `TradeEngines.RecordIsLastMark` | src/market/trade_engine.cpp:49-68 | After any history a stored unrealized profit is the one at the last mark of its own symbol, from the position as it was then |
| `TradeEngines.NeverMarkedIsZero` | src/market/trade_engine.cpp:49-68 | Without a mark of its symbol it is zero |
| `TradeEngines.TradeMoves` | src/market/trade_engine.cpp:15-25 | A trade moves the aggressor's position its own way and the passive one's the other way, and no other position |
| `TradeEngines.NetsCancel` | src/market/trade_engine.cpp:9-25 | After any history of trades and marks the nets of all traders in a symbol sum to zero |
| `TradeEngines.PositionsReplay` | src/market/trade_engine.cpp:70-118 | Whatever else the engine processed, a position is what its own legs alone make of it |
| `TradeEngines.MarkedProfit` | src/market/trade_engine.cpp:49-68 | After any history, if every leg of a position keeps the identity, realized plus unrealized at a mark is cash flow plus open quantity at that mark |
| `ProfitTheorems.CashFlowsCancel` | src/market/trade_engine.cpp:9-25 | After any history the cash flows of all traders in a symbol sum to zero |
| `ProfitTheorems.ProfitsAreDeviations` | src/market/trade_engine.cpp:49-115 | After any history the realized and marked profits of all traders in a symbol add up to the summed deviations of their legs, at any mark |
| `ProfitTheorems.ProfitsCancel` | src/market/trade_engine.cpp:49-115 | When every leg keeps the identity these profits sum to zero, at any mark |
| `TradeSpec.AveragesAreCosts` | src/market/trade_engine.cpp:88-95 | Average price times quantity is the summed cost of the legs that built the side, over any history |
| `TradeSpec.GapMoves` | src/market/trade_engine.cpp:81-115 | How far one leg moves realized plus unrealized from cash flow plus marked position, in every branch |
| `TradeSpec.GapIsDeviations` | src/market/trade_engine.cpp:81-115 | Over any history that distance is the sum of the legs' deviations |
| `TradeSpec.DeviationZeroIff` | src/market/trade_engine.cpp:81-115 | A leg deviates by nothing exactly when it adds before any close or at the average, closes without crossing zero, or crosses at the other side's average |
| `TradeSpec.ProfitIdentity` | src/market/trade_engine.cpp:49-115 | If every leg is of that kind the profit identity holds at any mark |
| `TradeSpec.FirstBreakFails` | src/market/trade_engine.cpp:49-115 | At the first leg that is not, the identity fails at every mark |
| `TradeSpec.ReAddingBreaks` | src/market/trade_engine.cpp:88-95 | Buy 10 at 10, sell 5 at 10, buy 5 at 20: the identity fails at every mark |
| `TradeSpec.BuiltThenReduced` | src/market/trade_engine.cpp:49-115 | A position built by one side and then only reduced without crossing zero keeps the identity |
| `LatencyHistograms.LatencyHistogram.Record` | src/metrics/latency_histogram.hpp:43-55 | Exactly one bucket count, the totals and the extremes follow the sample |
| `LatencyHistograms.LatencyHistogram.Percentile` | src/metrics/latency_histogram.hpp:77-93 | The cumulative loop returns the midpoint of the bucket of the nearest-rank sample |
| `LatencyHistograms.LatencyHistogram.Stats` | src/metrics/latency_histogram.hpp:58-74 | All fields; percentiles never decrease from one to the next, and the mean lies between the extremes |
| `LatencyHistograms.LatencyHistogram.Reset` | src/metrics/latency_histogram.hpp:95-101 | Back to no samples |
| `LatencyHistograms.KthSmallestIff` | src/metrics/latency_histogram.hpp:77-93 | The k-th smallest sample is the one value with fewer than k samples below it and at least k up to it |
| `LatencyHistograms.FirstReachingIsKth` | src/metrics/latency_histogram.hpp:84-91 | The first bucket whose cumulative count reaches k is the bucket of the k-th smallest sample, and no other is |
| `LatencyHistograms.PercentileIsNear` | src/metrics/latency_histogram.hpp:77-93 | For p in [0, 1] the result is within half a bucket of the nearest-rank sample, clamped to the range for samples outside it |
| `LatencyHistograms.FallsThroughIff` | src/metrics/latency_histogram.hpp:92-92 | The value past the last bucket is returned if and only if p exceeds 1 |
| `LatencyHistograms.PercentileMonotone` | src/metrics/latency_histogram.hpp:77-93 | Percentiles are monotone in p |
| `LatencyHistograms.MeanBetween` | src/metrics/latency_histogram.hpp:62-65 | The truncated mean lies between the least and the greatest sample, negative ones included |
| `LatencyHistograms.ExtremesAre` | src/metrics/latency_histogram.hpp:47-48 | The recorded extremes are samples, and every sample lies between them |
| `Words.PowersPass` | src/HPRingBuffer.hpp:28-29 | The size assertion accepts exactly the powers of two |
| `Words.MaskIsRemainder` | src/HPRingBuffer.hpp:31-32 | Masking with a power of two less one is the remainder |
| `Words.SlotOfCounter` | src/HPRingBuffer.hpp:46-46 | The slot of a counter that wrapped at 2^64 is the slot of the true count |
| `Words.SubIsExact` | src/HPRingBuffer.hpp:42-42 | Unsigned counter subtraction is exact across the wrap |
| `RingProtocol.StepKeepsValid` | src/HPRingBuffer.hpp:40-71 | Every memory access of either thread keeps the protocol invariant, however late the other's counter shows |
| `RingTheorems.PoppedIsPrefix` | src/HPRingBuffer.hpp:40-71 | Under every interleaving the popped values are a prefix of the pushed ones, whole and in order, and 0 to Size - 1 are in flight |
| `RingTheorems.SlotsNeverShared` | src/HPRingBuffer.hpp:46-69 | No slot is written while it is read; each access follows the publication it depends on |
| `RingTheorems.StepIsQueueStep` | src/HPRingBuffer.hpp:46-70 | Every access is a step of a bounded FIFO queue: the write store appends, the read store removes the oldest, nothing else changes it |
| `RingTheorems.PushGoesOnIff` | src/HPRingBuffer.hpp:41-45 | A try to push passes its test exactly when it sees fewer than Size - 1 in flight; with the latest count it fails exactly when full |
| `RingTheorems.PopGoesOnIff` | src/HPRingBuffer.hpp:64-67 | A try to pop passes its test exactly when it sees a value; with the latest count it fails exactly when empty |
| `RingTheorems.SizeBounds` | src/HPRingBuffer.hpp:122-125 | size() is an upper bound for the producer, within capacity, and a lower bound for the consumer |
| `RingTheorems.NotFullMeansRoom` | src/HPRingBuffer.hpp:115-118 | After full() answered no to the producer its next push gets through, whatever the consumer does |
| `RingTheorems.NotEmptyMeansValue` | src/HPRingBuffer.hpp:110-113 | After empty() answered no to the consumer its next pop gets through, whatever the producer does |
| `RingBuffers.HPRingBuffer.TryPush` | src/HPRingBuffer.hpp:40-49 | Appends unless Size - 1 are held, and says which |
| `RingBuffers.HPRingBuffer.TryPop` | src/HPRingBuffer.hpp:63-71 | Removes and returns the oldest, nothing exactly when empty |
| `RingBuffers.HPRingBuffer.IsFull` | src/HPRingBuffer.hpp:115-118 | True exactly when Size - 1 are held, also across the counter wrap |
| `RingBuffers.HPRingBuffer.IsEmpty` | src/HPRingBuffer.hpp:110-113 | True exactly when nothing is held |
| `RingBuffers.HPRingBuffer.Size` | src/HPRingBuffer.hpp:122-125 | The number held, also across the counter wrap |
| `PoolProtocol.StepKeepsValid` | src/common/memory_pool.hpp:60-102 | Every memory access of any call keeps chain, ownership, flags, views and count, while allocate calls do not overlap one another |
| `PoolProtocol.NewIsValid` | src/common/memory_pool.hpp:34-42 | A new pool satisfies the protocol invariant if and only if its capacity fits the 32-bit links; the results about reachable states are about such pools |
| `PoolProtocol.SwapIsCurrent` | src/common/memory_pool.hpp:64-67 | A successful swap of an allocate call moves the head to the true successor, however many slots were pushed or swaps failed meanwhile |
| `PoolTheorems.ChainEnds` | src/common/memory_pool.hpp:64-64 | In every reachable state the chain from the head is acyclic, visits each free slot once and ends within Capacity steps |
| `PoolTheorems.ExactlyOneOwner` | src/common/memory_pool.hpp:60-102 | Every slot is with exactly one of: the free list, one call under way, a client |
| `PoolTheorems.NeverHandedOutTwice` | src/common/memory_pool.hpp:65-70 | The slot a swap takes is free, so no live slot is handed out again |
| `PoolTheorems.FlagIsSet` | src/common/memory_pool.hpp:87-94 | in_use is set while a client holds the slot and when deallocate asserts it, and clear while it is free |
| `PoolTheorems.GivesUpIffExhausted` | src/common/memory_pool.hpp:61-63 | allocate returns null exactly when no slot was free as it read the head |
| `PoolTheorems.MovedHeadMeansPush` | src/common/memory_pool.hpp:65-67 | A swap that must fail means a deallocate call has pushed since |
| `PoolTheorems.CounterIsCorrected` | src/common/memory_pool.hpp:69-101 | allocated_ corrected by pending increments and decrements is the number of slots not free, and it is never negative |
| `PoolTheorems.QuietCounterIsLive` | src/common/memory_pool.hpp:105-108 | With no call under way allocated_ is the number of slots in clients' hands |
| `PoolOverlap.StaleSuccessor` | src/common/MEMORYPOOL.md:259-264 | For every capacity above one, a run with two overlapping allocate calls that is about to hand out a live slot |
| `PoolOverlap.OverlapIsSafeIff` | src/common/MEMORYPOOL.md:230-231 | Overlapping allocate calls are safe in every run if and only if the capacity is at most one |
| `MemoryPools.AddressOfSlot` | src/common/memory_pool.hpp:79-85 | Any address inside a slot leads back to that slot and no other |
| `MemoryPools.MemoryPool.constructor` | src/common/memory_pool.hpp:34-42 | The constructor loop makes a valid pool with nothing handed out if and only if the capacity fits the 32-bit links; beyond that the chain leads back to slot 0 |
| `MemoryPools.MemoryPool.Allocate` | src/common/memory_pool.hpp:60-73 | Null exactly when all slots are handed out; otherwise the most recently freed slot, not handed out before, holding the item, with all other storage unchanged |
| `MemoryPools.MemoryPool.Deallocate` | src/common/memory_pool.hpp:76-102 | Takes back exactly the slot of the address, null ignored; both assertions hold |
| `MemoryPools.MemoryPool.Allocated` | src/common/memory_pool.hpp:105-107 | The number of slots handed out |
| `MemoryPools.MemoryPool.Available` | src/common/memory_pool.hpp:108-108 | The number not handed out, never negative |

## Left out

- Callbacks, except that the L3 trade callback is the ghost `tape` in call order; no re-entrancy, no
  top-of-book publication, no market data publishing after engine requests.
- L1 feed, L2 aggregation, market data engine and publisher, telemetry, wait strategies, clock and the random
  latency model: I/O, timing or forwarding. The engine's clock reading is the parameter `ts`.
- Machine widths of prices, quantities, counts and the 32-bit queue position: unbounded integers. Time stamps
  in the rate limiter, ring counters, and pool links keep their widths.
- Double rounding: averages, profits, the sample sum and the percentile argument are real numbers; negative
  percentile arguments, for which the conversion to an unsigned type is undefined, are excluded.
- Symbols are strings with a distinguished blank; byte encoding, hashing, integer symbol ids, instrument
  properties and client order ids are not modelled.
- `std::map` nodes and list iterators as memory: levels are values in a sequence, and a list node is named by
  the id of its order, so iterator invalidation is covered only as far as `Dereference` states it.
- `RiskEngine`: the self-trade check, a stub that always passes. Fills of passive orders and of replacements
  never reach the risk engine in the code, so limits are proved for the positions it tracks;
  `PositionsFollowEntries` says what these are.
- `BooksAgree`: FOK orders, which only one of the two books knows.
- `MatchingEngine`: `get_book`, `get_depth` and similar pass-through queries; instrument validation beyond the
  symbol lookup.
- `OrderBook`: `bestBid` and `bestAsk`, which are `Depth` cut to one level; `orders_at_price` of the L3 book.
- TradeEngines.TradeEngine.UpdatePosition: any quantity is covered, zero and negative ones too, except one that
  divides an average by zero, where the program's doubles give a NaN or an infinity that real numbers lack.
- TradeEngines.TradeEngine.ProcessTrade: the same exception, for either of its two legs.
- TradeEngines.TradeEngine.Bought: the same exception.
- TradeEngines.TradeEngine.Sold: the same exception.
- `TradeSpec`: results about whole histories take trades of positive quantity, as matching makes them.
- `TradeEngine`: `get_position` and `get_positions`, plain lookups.
- Ring: blocking `push` and `pop`, which repeat the modelled try until it passes; that they ever pass needs a
  fair scheduler. The waiting in between, and queries from a third thread.
- Ring: the memory model below the two counters. A counter load may be late but is monotone, and a slot access
  is ordered by the counter publication it follows; `SlotsNeverShared` shows each slot access has such a
  publication.
- Pool: late loads of the head. The loads in the model are current. A late slot makes the swap that follows
  fail and reload; a late end mark makes the allocate call give up although a slot was freed meanwhile, so
  `GivesUpIffExhausted` is about the list as the call saw it.
- Pool: object construction and destruction, alignment, and the destructor of the pool.
