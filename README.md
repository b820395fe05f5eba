# leyval exchange core in Dafny

This project models the core of leyval, a simulator of one traded
instrument. Agents submit limit, market and cancel requests. An order book
keeps the resting limit orders in two price-ordered containers. A matching
system turns each market order into transaction requests. The exchange
settles those requests between the agents. A countdown timer paces the
simulation.

The model has one module per source unit:

- `FixedPoint` (fixed_point.dfy): the fixed-point number `Fixed<Scale>`.
  It is a mantissa with a decimal scale. The operators rescale mixed scales
  and divide by truncating toward zero, as C++ does. `Money` is the
  scale -2 instance.
- `Orders` (order.dfy): the order direction and its `!`, the request
  records and their three-way comparisons, and `to_full`.
- `Books` (order_book.dfy): the `OrderBook` class. Each side is a sequence
  in its multimap's order: bids by descending price, asks by ascending
  price, and equal prices in insertion order. The class also keeps the
  cached `State` snapshot.
- `Matching` (matching_system.dfy): the `MatchingSystem` class and its
  FIFO loop. FIFO is specified by a value-level function `FifoRun`.
- `Agents` (agent.dfy): the `Agent` class, with buy, sell and
  `generate_order`, and the id counter.
- `Exchanges` (exchange.dfy): the `Exchange` class. Its `run` is proved to
  end where a pure tick over the book sides and a ledger of every agent's
  capital and shares ends. Settlement conserves total capital and total
  shares.
- `Timers` (timer.dfy): the `Timer` class. Its generator is a stream of
  counts.
- `Wrappers` (wrappers.dfy): `Option`.

Some behaviour of the code shapes the whole model:

- A market order is matched against the side of its own direction
  (`mor.order_dir`, src/matching_system.cpp:31 and 56), not the opposite
  side.
- The best price comes from the book's cached snapshot
  (src/order_book.hpp:42-52), which `run` never refreshes. It is not
  recomputed per unit of volume, although the comment at
  src/matching_system.cpp:26 says it should be.
- Each unit of the order's volume removes a whole resting record
  (src/matching_system.cpp:54-61). The transaction carries that record's
  full volume (src/matching_system.cpp:63-68).
- The code checks no liquidity. The check at src/matching_system.cpp:13-21
  is commented out, and it compared the volume with the whole opposite
  side's order count. As its own correction, the model refuses an order
  whose cached best level cannot supply its volume: the venue is unchanged
  (`Rejected`) and the tick goes on with the next request. What the loop
  as written does there is modelled separately (see Findings).
- A non-positive volume ends the program through the assert at
  src/matching_system.cpp:12 (`Terminated`).

## Model

| member | source | states |
|---|---|---|
| FixedPoint.TruncDiv | src/fixed_point.hpp:90-106 | C++ integer division: the quotient times the divisor plus a remainder, where the remainder has the dividend's sign and is smaller in size than the divisor |
| FixedPoint.TruncDivUnique | src/fixed_point.hpp:90-106 | the truncating quotient is determined uniquely by that characterisation |
| FixedPoint.Rescale | src/fixed_point.hpp:17-22 | the result has the target scale; to a finer scale the mantissa is multiplied exactly by the power of ten; to a coarser scale it is the truncated quotient |
| FixedPoint.RescaleSelf | src/fixed_point.hpp:17-22 | rescaling to the same scale is the identity |
| FixedPoint.RescaleRoundTrip | src/fixed_point.hpp:17-22 | going to a finer scale and back returns the original value |
| FixedPoint.RescaleExamples | test/test_fixed_point.cpp:91-95 | mantissa 123 at scale 4 is 1230 at scale 3, and 123 at scale 3 truncates to 12 at scale 4; the same holds at scales -3 and -4 |
| FixedPoint.Add | src/fixed_point.hpp:25-40 | the sum is at the finer of the two scales, and its mantissa is the sum of both operands rescaled to that scale |
| FixedPoint.Sub | src/fixed_point.hpp:42-56 | the difference is at the finer scale, and its mantissa is the difference of the rescaled operands |
| FixedPoint.Mul | src/fixed_point.hpp:72-88 | the product is at the coarser scale: both operands go to the finer scale, their mantissas are multiplied there, and the product is truncated to the coarser scale |
| FixedPoint.Div | src/fixed_point.hpp:90-106 | the quotient is at the coarser scale, and the division is truncating |
| FixedPoint.EqualSameScale | src/fixed_point.hpp:58-63 | at one scale, equality is mantissa equality |
| FixedPoint.Equal | src/fixed_point.hpp:58-70 | when the right operand is at the same or a coarser scale, equality holds exactly when the left mantissa equals the right one scaled exactly to the left operand's scale |
| FixedPoint.EqualTruncates | src/fixed_point.hpp:65-70 | when the right operand is at a finer scale, equality holds exactly when the left mantissa is the truncated quotient of the right mantissa by the power of ten between the scales |
| FixedPoint.EqualSymmetricWhenExact | src/fixed_point.hpp:65-70 | when the coarser value is rescaled to the finer scale, equality holds in both orders |
| FixedPoint.EqualDirectional | src/fixed_point.hpp:65-70 | cross-scale equality is not symmetric: 0 at scale 4 equals 5 at scale 3, because truncation drops the 5, but not the other way round |
| FixedPoint.AddCommutes | src/fixed_point.hpp:25-40 | addition commutes, for mixed scales too |
| FixedPoint.AddSubCancel | src/fixed_point.hpp:25-48 | (a + b) - b == a at one scale |
| FixedPoint.SubAddCancel | src/fixed_point.hpp:25-48 | (a - b) + b == a at one scale |
| FixedPoint.SameScaleOps | src/fixed_point.hpp:25-97 | at one scale the four operators keep the scale and act on mantissas as on integers: sum, difference, product and truncated quotient |
| FixedPoint.DivSameScale | src/fixed_point.hpp:90-97 | at one scale, division is the truncated quotient of the mantissas |
| FixedPoint.MoneyWholeUnits | src/order.hpp:13-15 | Money counts cents: 100n cents and n whole units are equal under cross-scale ==, in both directions |
| FixedPoint.MixedArithmeticExamples | test/test_fixed_point.cpp:72-107 | the test's mixed-scale sums, difference, product and quotients, and its same-scale quotients with negative operands, equal the expected values |
| FixedPoint.CrossScaleEqualExamples | test/test_fixed_point.cpp:109-110 | 10 at scale 3 and 1 at scale 4 are equal in either order |
| FixedPoint.EqualZeros | test/test_fixed_point.cpp:111-112 | zero equals zero across any two scales, in either order |
| Orders.Contra | src/order.cpp:12-23 | `!` swaps the two directions: the result differs from its argument, and it is Ask exactly when the argument is Bid |
| Orders.ContraInvolution | src/order.cpp:12-23 | !!d == d |
| Orders.CompareMarketOnlyTimestamp | src/order.cpp:27-31 | market requests are ordered by timestamp alone |
| Orders.CompareMarket | src/order.cpp:27-31 | market requests compare as their timestamps compare |
| Orders.MarketEq | src/order.cpp:33-37 | market-request equality holds exactly when the two requests differ at most in volume, direction and timestamp |
| Orders.MarketEqIgnoresTimestamp | src/order.cpp:27-37 | market-request equality compares only the agent id, so two requests of one agent at different times are equal while one orders before the other |
| Orders.CompareInt | src/order.cpp:57-61 | three-way comparison: Less, Equivalent or Greater exactly as the first integer is below, equal to or above the second; resting records compare as their timestamps do under it |
| Orders.CompareLimitReq | src/order.cpp:63-68 | limit requests compare by timestamp, then by price |
| Orders.LimitReqEq | src/order.cpp:70-75 | limit-request equality holds exactly when the two requests differ at most in volume, agent and direction |
| Orders.LimitReqEqIffEquivalent | src/order.cpp:63-75 | limit-request equality holds exactly when the timestamp-then-price comparison reports equivalence |
| Orders.ToFull | src/order.hpp:106-112 | the record keeps the request's price, volume, agent and timestamp |
| Orders.ToFullRoundTrip | src/order.hpp:106-112 | to_full loses only the direction: the request is rebuilt from the record and its direction |
| Orders.ToFullSameIffSameButDirection | src/order.hpp:106-112 | two requests give the same record exactly when they differ at most in direction |
| Orders.MoneyFiveUnits | src/order.hpp:13-15 | 500 cents equal 5 whole units across scales |
| Books.RemoveAtProperties | src/order_book.hpp:57-68 | erasing one record keeps the side sorted, drops its length by one, and removes exactly that record from the multiset |
| Books.EqualRange | src/order_book.hpp:42-52 | equal_range is the bounds of the records at a price: inside the range exactly the records at that price |
| Books.EqualRangeCount | src/order_book.hpp:42-52 | the range's length is the number of records at that price |
| Books.InsertSorted | src/order_book.cpp:32-44 | a multimap insert keeps the side sorted, adds exactly the record, and places it after the records of equal price |
| Books.BestPrice | src/order_book.cpp:5-20 | the best price is one of the side's prices, and no record on the side is priced better |
| Books.MinPrice | src/order_book.cpp:5-20 | min_element over the side, as written: the lowest price on the side |
| Books.MinPriceIsBestAsk | src/order_book.cpp:15-17 | on the ask side the lowest price is the best price |
| Books.MinPriceIsWorstBid | src/order_book.cpp:12-14 | with bids at 50 and 40, min_element returns 40 while the best bid is 50 |
| Books.QuotedSpreadAsWritten | src/order_book.cpp:22-30 | the spread as written is Money at scale -2 whose mantissa is 200 times the truncated quotient of the mantissas of (ask - bid) and (ask + bid) |
| Books.QuotedSpreadAsWrittenIsZero | src/order_book.cpp:22-30 | for 0 < bid <= ask, the as-written spread is always zero |
| Books.QuotedSpread | src/order_book.cpp:22-30 | the corrected spread in percent: the truncated quotient of 20000(ask - bid) and (ask + bid), in cents |
| Books.QuotedSpreadBounds | src/order_book.cpp:22-30 | for 0 < bid <= ask, the corrected spread is between 0 and 200 percent |
| Books.QuotedSpreadExample | src/order_book.cpp:22-30 | for ask 102.00 and bid 98.00, the corrected spread is 4.00 percent and the as-written one is 0 |
| Books.ComputeState | src/order_book.hpp:16-34 | the snapshot's counts are the side lengths; a side's best price exists exactly when the side holds orders and is then the corrected BestPrice of that side, not min_element's; the spread exists exactly when both sides hold orders and the best ask plus the best bid is non-zero, and is then the corrected QuotedSpread of the two best prices |
| Books.OrderBook.constructor | src/order_book.hpp:10 | a new book is empty, and its first snapshot is the given value |
| Books.OrderBook.GetState | src/order_book.hpp:36 | get_state returns the cached snapshot, not one computed from the live sides |
| Books.OrderBook.UpdateGetState | test/test_order_book.cpp:16 | update_get_state, which the book's tests call (lines 16, 29 and 37) but the class does not declare: the snapshot is recomputed from the live sides and returned, and the sides are unchanged |
| Books.OrderBook.NumOrders | src/order_book.hpp:87 | the number of resting records on a side |
| Books.OrderBook.CurrentBestPrice | src/order_book.cpp:5-20 | the live best price of a side: present on the side, and no record is priced better |
| Books.OrderBook.CurrentQuotedSpread | src/order_book.cpp:22-30 | the corrected spread of the live best ask and best bid |
| Books.OrderBook.OrdersAtBestPrice | src/order_book.hpp:42-52 | the range of exactly the records priced at the cached best price, as long as the count at that price |
| Books.OrderBook.Insert | src/order_book.cpp:32-44 | the record's side becomes its sorted insertion; the other side and the snapshot are unchanged |
| Books.OrderBook.RemoveOrder | src/order_book.hpp:57-68 | the record at the position is erased and the returned position is that of the next record; the other side and the snapshot are unchanged |
| Books.OrderBook.RemoveEarliestOrder | test/test_order_book.cpp:31-44 | reports whether the agent has a record on the side; if so, exactly its earliest record is removed, otherwise nothing changes |
| Books.EarliestOf | test/test_order_book.cpp:31-44 | the scan finds the agent's earliest record, or reports that it has none |
| Books.EmptyBookCounts | test/test_order_book.cpp:12-18 | the snapshot of an empty book counts no orders |
| Books.InsertRemoveScenario | test/test_order_book.cpp:20-44 | one ask counts 1; removing the agent's earliest ask brings the count to 0; a second removal finds nothing |
| Matching.MatchSide | src/matching_system.cpp:31 | the side matched is the order's own direction, never the opposite side |
| Matching.MakeTransaction | src/matching_system.cpp:63-68 | the market order's agent is the bidder for a Bid order and the asker for an Ask order; the resting record's agent takes the other role |
| Matching.FifoPickUnique | src/matching_system.cpp:44-49 | the FIFO choice at a price is unique: the earliest record, and the first one among equal timestamps |
| Matching.FifoPickExists | src/matching_system.cpp:44-49 | when a record rests at the price, a FIFO choice exists |
| Matching.RangeEarliestIsFifoPick | src/matching_system.cpp:31-49 | min_element by timestamp over the equal_range is the FIFO choice |
| Matching.FifoRun | src/matching_system.cpp:28-69 | n FIFO steps take n records and leave the side n shorter, with n fewer records at the price |
| Matching.FifoRunSorted | src/matching_system.cpp:54-61 | removing FIFO choices keeps the side in container order |
| Matching.FifoRunAccounts | src/matching_system.cpp:28-69 | the remaining side and the taken records together are the original side, and every taken record is at the price |
| Matching.FifoTakesInTimeOrder | src/matching_system.cpp:44-49 | records are taken in time order: none taken is later than another taken after it, or than any record left at the price |
| Matching.Transactions | src/matching_system.cpp:63-68 | one transaction per taken record, at the best price, with the record's volume, and the roles set by the order's direction |
| Matching.FifoAsWritten | src/matching_system.cpp:28-69 | the FIFO loop as written at the cached price: with at least the order's volume of records there, it is FifoRun with one transaction per taken record; otherwise the side ends as after taking every record at the price, and the result, when defined, still holds one transaction per unit of volume |
| Matching.PhantomTrade | src/matching_system.cpp:28-69 | an ask market order of volume 2, with one ask at the cached 0.40 and one at 0.45: the 0.40 ask is erased and traded, then a second trade with the 0.45 ask's agent and volume at 0.45 is emitted while that ask stays on the book |
| Matching.EarliestIndex | src/matching_system.cpp:44-49 | the min_element scan returns the earliest record in the range, the first one among equal timestamps |
| Matching.PopEarliestAtBest | src/matching_system.cpp:31-61 | one FIFO step on the book: the FIFO choice at the cached best price is erased and returned; the other side and the snapshot are unchanged |
| Matching.MatchingSystem.constructor | src/matching_system.hpp:18-21 | the system keeps its policy |
| Matching.MatchingSystem.Match | src/matching_system.cpp:10-89 | corrected matching: under FIFO the order is filled exactly when the cached best level holds at least its volume, and then the matching side ends as FifoRun leaves it and the result is one transaction per step; a refused order yields nothing and leaves the book unchanged; pro-rata and random selection return nothing and leave the book unchanged; the snapshot is never changed |
| Agents.IdCounter.NewId | src/agent.hpp:34-38 | ids are issued by pre-increment: 1, 2, 3, ... |
| Agents.Agent.constructor | src/agent.hpp:12-17 | a new agent takes the next id and the given capital, and holds no shares |
| Agents.Agent.GetId | src/agent.hpp:27 | get_id returns the agent's id |
| Agents.Agent.Buy | src/agent.cpp:33-38 | shares rise by the volume, and capital falls by the total price |
| Agents.Agent.Sell | src/agent.cpp:39-44 | shares fall by the volume, and capital rises by the total price |
| Agents.Agent.GenerateOrder | src/agent.cpp:6-31 | exactly four requests in the agent's name: a limit bid of 5 at 0.35, a limit ask of 5 at 0.45, a market bid of 2 and a market ask of 2 |
| Agents.GenerateOrderWellFormed | src/agent.cpp:16-28 | every generated request has the agent's id and a positive volume, and the limit bid is below the limit ask |
| Agents.BuyThenSell | src/agent.cpp:33-44 | a buy and then a sell of the same volume and total leave the agent as it was |
| Agents.MakeAgents | src/agent.hpp:12-38 | agents built in turn from one counter get consecutive ids, so no two share an id or an object |
| Agents.IdsDistinguishAgents | src/agent.hpp:27 | agents with distinct ids are distinct objects |
| Agents.TwoAgents | src/agent.hpp:34-38 | two agents built one after the other have ids that differ by one |
| Exchanges.FindAgent | src/exchange.cpp:44-55 | the position of the first agent with the id; none exactly when no agent has it |
| Exchanges.Transfer | src/exchange.hpp:26-33 | an amount moves from one entry to another, and every other entry is unchanged |
| Exchanges.TransferConserves | src/exchange.hpp:26-33 | a transfer leaves the total unchanged |
| Exchanges.ExecuteSpec | src/exchange.cpp:57-69 | settlement goes through exactly when both ids are found; otherwise nothing changes |
| Exchanges.ExecuteEffects | src/exchange.cpp:57-69 | a settled trade: the asker gains the price and loses the volume, the bidder the reverse, and everyone else is untouched |
| Exchanges.ExecuteConserves | src/exchange.cpp:57-69 | settling one transaction conserves total capital and total shares |
| Exchanges.SettleFirst | src/exchange.cpp:30-37 | settling the first n transactions in order, stopping at the first failure, keeps one ledger entry per agent |
| Exchanges.SettleConserves | src/exchange.cpp:30-37 | settling a list of transactions conserves total capital and total shares |
| Exchanges.SettleStops | src/exchange.cpp:30-37 | once a settlement fails, later transactions change nothing |
| Exchanges.ApplySpec | src/exchange.cpp:23-39 | applying one request keeps both sides sorted and one ledger entry per agent; only a market request can fail to complete |
| Exchanges.LimitApplied | src/exchange.cpp:26-29 | a limit request completes, adds exactly its record to its own side, and leaves the other side and the ledger unchanged |
| Exchanges.MarketResult | src/exchange.cpp:30-37 | a market request's result is the matched side and the settled ledger, completed exactly when every settlement went through |
| Exchanges.ApplyConserves | src/exchange.cpp:23-39 | applying any request conserves total capital and total shares |
| Exchanges.Worse | src/exchange.cpp:23-39 | the outcome of a queue so far after one more request: terminated exactly when either was, completed exactly when both were |
| Exchanges.ProcessFirst | src/exchange.cpp:23-39 | applying the first n requests in order keeps the venue well formed |
| Exchanges.ProcessNone | src/exchange.cpp:23-39 | applying no request leaves the venue as it was, completed |
| Exchanges.ProcessStep | src/exchange.cpp:23-39 | one more request after a prefix that did not terminate leaves that request's venue and the worse of the two outcomes; a refused order does not stop the queue |
| Exchanges.ProcessStops | src/exchange.cpp:23-39 | once a request terminates, later requests change nothing |
| Exchanges.ProcessConserves | src/exchange.cpp:23-39 | a whole queue of requests conserves total capital and total shares |
| Exchanges.CollectedInAgentOrder | src/exchange.cpp:10-21 | the queue holds each agent's four requests, in agent order and then in the order generate_order returns them |
| Exchanges.Exchange.constructor | src/exchange.hpp:7-12 | a new exchange has an empty book with the given first snapshot, its agents, the chosen matching policy and no pending requests |
| Exchanges.Exchange.ExecuteTransaction | src/exchange.hpp:26-33 | the asker sells and the bidder buys the volume for the total; one agent on both sides ends unchanged |
| Exchanges.Exchange.Execute | src/exchange.cpp:57-69 | the agents end exactly where the pure settlement of the transaction leaves the ledger, and the result reports whether it went through |
| Exchanges.Exchange.Settle | src/exchange.cpp:30-37 | the agents end where settling the transaction list in order leaves the ledger |
| Exchanges.Exchange.Apply | src/exchange.cpp:23-39 | the book sides and agents end where the pure application of the request leaves them, with the same outcome |
| Exchanges.Exchange.ApplyMarket | src/exchange.cpp:30-37 | a market request on the objects ends where the pure market step ends: terminated for a non-positive volume, refused with the venue unchanged when the cached FIFO level cannot supply it, and otherwise matched and settled |
| Exchanges.Exchange.Collect | src/exchange.cpp:10-21 | the pending queue grows by every agent's generated requests |
| Exchanges.Exchange.ProcessQueue | src/exchange.cpp:23-39 | the loop over the pending queue ends where the pure fold over the whole queue ends, outcome and venue alike; the book's snapshot is unchanged |
| Exchanges.Exchange.Run | src/exchange.cpp:5-42 | a tick ends where the pure fold over the old queue plus the collected requests ends; the queue is cleared unless the tick terminated, and then it holds exactly those requests; the cached snapshot is unchanged |
| Timers.Construct | src/util/timer.hpp:20-25 | construction fails exactly when the generator's first value is zero; otherwise the counter is that value |
| Timers.ResetSpec | src/util/timer.hpp:27-31 | reset takes the generator's next value and throws exactly when it is zero |
| Timers.TickSpec | src/util/timer.hpp:33-38 | a zero counter throws and nothing changes; otherwise the counter drops by one, and the tick reports true exactly when it reaches zero |
| Timers.TicksCountDown | src/util/timer.hpp:33-38 | from a counter n, the first k <= n ticks report false except the n-th, and leave n - k |
| Timers.FiresAfterExactlyN | src/util/timer.hpp:33-47 | a timer at n fires on exactly the n-th tick, and the tick after it throws |
| Timers.ConstructFromCount | src/util/timer.hpp:13-16 | a timer built from a count throws exactly when the count is zero |
| Timers.ResetsDrawInOrder | src/util/timer.hpp:27-31 | successive resets take the generator's values in order |
| Timers.Timer.constructor | src/util/timer.hpp:20-25 | the timer keeps an uncalled copy of the generator, and its counter is the first value of a separate copy |
| Timers.Timer.Make | src/util/timer.hpp:20-25 | building a timer and checking it fails exactly where the pure construction does, and otherwise gives its state |
| Timers.Timer.ZeroCheck | src/util/timer.hpp:43-47 | throws exactly when the counter is zero |
| Timers.Timer.Reset | src/util/timer.hpp:27-31 | the object ends where the pure reset ends, throwing exactly when it does |
| Timers.Timer.TickAndCheck | src/util/timer.hpp:33-38 | the object ends where the pure tick ends, reporting and throwing exactly as it does |
| Timers.CountOfOne | test/test_timer.cpp:9-16 | a timer of count 1 reports true on its first tick |
| Timers.CountOfZero | test/test_timer.cpp:18-24 | a timer of count 0 cannot be built |
| Timers.CumulativeAdd | test/test_timer.cpp:35-62 | with a generator that adds 2 to its own total, the ticks report false, true, false, true, false, false, false, true |

## Left out

- Input and output: the console printing in `run` and in the matching system.
- Clocks: `now()` timestamps are an explicit parameter `t`. `generate_order` and `run` stamp every request with one reading, where the source reads the clock for each request.
- Integer width: `long` and `int` mantissas, the casts between them, the unsigned volume in `to_full` and the timer's 32-bit `num_t` are unbounded integers, so overflow and wrap-around are not modelled.
- `std::pow` over doubles in rescaling is modelled as an exact power of ten.
- The ordering comparisons of the fixed-point tests (test/test_fixed_point.cpp:113-118) use `<`, `>`, `<=` and `>=`, which src/fixed_point.hpp does not define. They are not modelled.
- `mid_price` is declared but never defined, so the snapshot has no mid price.
- `find_agent` is defined twice, in exchange.hpp and exchange.cpp, with the same behaviour. It is modelled once.
- Cancel requests: the `std::visit` in `run` (src/exchange.cpp:25-38) has no alternative for a cancel request, so the source cannot apply one. Applying one as a no-op is the model's own choice. Their comparison operators are not modelled.
- Pro-rata and random selection are stubs in the source that return no transactions. They are modelled as such.
- `Money` has no ordering of its own, so prices are compared by mantissa. Every Money value is at scale -2.
- Books.OrderBook.Insert: `insert` reads an `order_dir` that the stored record lacks, so the model passes the direction explicitly. Both callers know it.
- The static id counter of `Agent` is an explicit `IdCounter` object.
- Exchanges.Exchange.Run: the bare `throw;` in `execute` and the matching system's assert are the `Terminated` outcome, not a program abort.
- Exchanges.Exchange.Run: a FIFO order whose cached best level cannot supply its volume is `Rejected` with the venue unchanged, and the tick goes on with the next request. The tick reports the worst outcome it saw. Only `Terminated` stops the tick, and then the queue is kept. The loop as written (src/matching_system.cpp:28-69) erases the records at that level and then emits transactions for the next record without erasing it, and reads `end()` when no record follows. That behaviour is Matching.FifoAsWritten; the exchange uses the corrected matching.
- Exchanges.Exchange.Run: `run` never refreshes the snapshot. Only `update_get_state`, which the tests call, would refresh it, so every order of every run matches at the book's first snapshot. A side that had no orders at that snapshot has no cached best price, and a FIFO order against it is `Rejected`.
- Matching.MatchingSystem.Match: refuses an order whose cached best level holds fewer records than its volume, which the source does not check (see Findings). The record is captured before it is erased, where the source reads it after the erase.
- Books.OrderBook.constructor: `m_state{ get_state() }` (src/order_book.hpp:80) initialises the snapshot from itself, so its first value is indeterminate. The model takes that value as a parameter and states nothing about it.
- Books.ComputeState: `current_best_price` takes `min_element` of a side, which dereferences `end()` when the side is empty (src/order_book.cpp:13 and 16). The model gives no best price (`None`) there.
- Books.ComputeState: `quoted_spread` divides by ask + bid, which is a division by zero when the sum is zero, and reads the best price of an empty side. The model gives no spread (`None`) in both cases.
- Timers.Timer.constructor: generators that read outside state through a captured reference are not modelled. The generator is a fixed stream of values.
- The thrown timer exceptions are result flags.
- The book argument of `generate_order` is unused by the source and is omitted.
- The saturate bootstrap and the simulation driver are not part of this model.

## Findings

| source | as written | input that shows it | evidently intended | confidence | as-written member | corrected member |
|---|---|---|---|---|---|---|
| src/order_book.cpp:13 | `current_best_price(Bid)` takes `min_element` over the bids, which is the lowest bid | bids at 0.50 and 0.40: returns 0.40 | the highest bid, the front of the descending bid container | not executed | Books.MinPriceIsWorstBid | Books.BestPrice |
| src/order_book.cpp:29 | `quoted_spread` divides (ask - bid) by (ask + bid) as Money at one scale before multiplying by 200, so the quotient truncates to zero | ask 102.00, bid 98.00: 0 instead of 4 percent | the percentage spread 200 (ask - bid) / (ask + bid) | not executed | Books.QuotedSpreadAsWrittenIsZero | Books.QuotedSpread |
| src/matching_system.cpp:28-69 | once the cached best level is used up, `equal_range` is empty and starts at the next record, so each remaining pass emits a transaction with that record's agent, volume and price without erasing it | an ask market order of volume 2 against one ask at the cached 0.40 and one at 0.45: two trades, the second with the 0.45 ask, which stays on the book | refuse the order at the cached level before erasing anything. This is the model's own correction. The disabled check at src/matching_system.cpp:13-21 compared with the whole opposite side and would have thrown, and the comment at src/matching_system.cpp:26 asks for the best price to be recomputed instead | not executed | Matching.PhantomTrade | Matching.MatchingSystem.Match |
