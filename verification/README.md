# A verified model of the trading platform's core

Dafny model of the matching engine, the server around it, the FIX gateway, the broadcast
hub and the BenchmarkRun controller.  `dafny verify dfyconfig.toml` checks the whole project.

**Order book.**  The engine is modelled twice.  `LimitQueue` and `Engine` are the code as it is
written: intrusive doubly-linked queues, two sorted slices of levels, a cached 64-bit volume per
level and an id index, all changed in place.  `BookSpec` is the same computation on values, and
`Priority` is the simple specification: one list of resting orders per side, filled greedily from
the front.  `Engine` refines `BookSpec` on every run, with reused ids and overflowing counters;
`BookSpec` refines `Priority` in every reachable book (`Solid`: sorted, uncrossed, no empty level and no
used-up order), whatever the ids and counters.  The economic results (`Execution`, `Outcomes`,
`Splitting`, `Cancelling`) are about the simple lists, `Conservation` and `Runs` account for every unit, and
`MatchingLoop` carries the runs back to the heap.

Nothing about an incoming order is taken for granted beyond what the only caller guarantees, that it
is a new object.  Sides and types are arbitrary integers (anything but 0 takes the sell branch, and
only the sides 0 and 1 are held to their price), ids may repeat and volumes may overflow.  A spot of
the value model's index is a side and a price, and means the youngest order of its id in that level;
a level that is dropped with orders in it, because its counter wrapped to zero, moves to the lost
levels of the book, into which the index still leads.

- `Engine.OrderBook.Valid` holds after every call whatever is sent: chains are linked both ways, levels
  are sorted, `totalVolume` is the sum of the remaining quantities modulo 2^64, every indexed order is
  queued under its own id where its spot says.  Every bid stays below every ask.
- `Engine.OrderBook.Exact` adds what the users of a book take for granted: no empty level, none lost,
  volumes below 2^64, unique ids, and an index that knows exactly the resting orders.

A call keeps `Exact` if and only if the order is `Admissible`: when it will rest, its id is not that of
an order that stays in the book, and its remainder fits the counter of its level.  The two conditions
come apart:

- The index is documented as holding all active orders (orderbook.go line 25).  It leads to every resting
  order throughout a run if and only if no order came to rest under the id of another resting one
  (`Runs.KnownIffIdsFree`), whatever overflows.
- A run balances if and only if no call drops a level with orders in it (`Runs.BalancedIffNeverLoses`).  An
  order does so if and only if it ends inside a level and leaves a multiple of 2^64 there; the cancel of a
  listed order if and only if it leaves a nonzero multiple in its level; the cancel of an order in a lost
  level if and only if it leaves a multiple, zero included, and there is a new level of that price.

`FailingRuns` holds runs on which the engine breaks the promises of its users, one for each condition
that is not always met, and `Execution.LimitRespected` says exactly when an order with an unknown side
trades outside its price.

**Server.**  `Exchange` is a state machine with one step per party (handlers, loop, ticker, hub); a list
of steps is an arbitrary interleaving.  `MatchingLoop` is the loop itself as a class over the heap model,
`ServerLoop` shows that the state machine follows that loop and can always catch up, and `MarketData` joins
the server to the hub.

**FIX.**  `FixText`, `FixParser` and `FixStructure` model the parser on arbitrary bytes and the printer it
inverts; `FixSession` and `FixStandard` the message formatter against the header, BodyLength and CheckSum
rules of FIX 4.2; `FixConnection` the message loop.

**Hub and controller.**  `Broadcasting` proves the precondition "channel open" at every send and close.
`Reconciler` lets every API call fail, with or without having taken effect.

The `hide` statements at the head of some bodies only keep definitions out of proofs that do not need them.

## Model

| member | source | states |
|---|---|---|
| LimitQueue.Order.constructor | pkg/orderbook/order.go:45-54 | a new order is unfilled, unlinked and carries its five terms |
| LimitQueue.Limit.constructor | pkg/orderbook/limit.go:14-18 | a new level is empty, linked and counted |
| LimitQueue.Limit.AddOrder | pkg/orderbook/limit.go:21-33 | the order becomes the last of the queue; links both ways and the 64-bit count stay right |
| LimitQueue.Limit.RemoveOrder | pkg/orderbook/limit.go:36-55 | exactly that order leaves, from any position; the order of the others, all links and the count stay right |
| LimitQueue.Limit.ExecuteFront | pkg/orderbook/orderbook.go:132-147 | executing part of the oldest order reduces it in place, executing all of it removes it |
| Engine.OrderBook.constructor | pkg/orderbook/orderbook.go:29-35 | a new book is valid and empty |
| Engine.OrderBook.FillHead | pkg/orderbook/orderbook.go:128-148 | one trade for the smaller remainder; an exhausted maker leaves queue and index; nothing but that level, its orders, the taker and the index changes |
| Engine.OrderBook.MatchLevel | pkg/orderbook/orderbook.go:128-148 | the loop over one level ends and has the trades, queue, remainder and index of the fill of that queue |
| Engine.OrderBook.MatchOrder | pkg/orderbook/orderbook.go:111-157 | the loop over levels ends and has exactly the trades, levels, index and lost level of the sweep, under wrap-around too |
| Engine.OrderBook.CutLevel | pkg/orderbook/orderbook.go:150-153 | a dropped level leaves its slice and nothing else changes; if it still holds orders it is lost with them, and the index leads into it |
| Engine.OrderBook.Search | pkg/orderbook/orderbook.go:164-169 | binary search returns the first level whose price is not better |
| Engine.OrderBook.AddLimitOrder | pkg/orderbook/orderbook.go:160-184 | the order is last at its price, in an existing or newly opened level at its sorted place, and indexed |
| Engine.OrderBook.RemoveLimitLevel | pkg/orderbook/orderbook.go:187-198 | the level of that price is cut out of its slice, if there is one, even when it holds orders |
| Engine.OrderBook.Detach | pkg/orderbook/orderbook.go:62-74 | the order the index leads to, the youngest of its id in its level, leaves its queue and the index; all levels stay in place |
| Engine.OrderBook.Process | pkg/orderbook/orderbook.go:39-59 | on every valid book and for every order, the heap code returns the trades and leaves the book of the value model, fills the taker by what was traded, never crosses the book, and keeps it exact iff the order is admissible |
| Engine.OrderBook.Cancel | pkg/orderbook/orderbook.go:62-86 | on every valid book, whatever its ids and counters, the heap code answers and leaves the book of the value model; it succeeds iff the id is indexed, and then the index leads to an order; order and exactness are kept |
| Engine.OrderBook.GetDepth | pkg/orderbook/orderbook.go:89-108 | the loops return price and volume of the first levels of both sides |
| Priority.SweepIsGreedy | pkg/orderbook/orderbook.go:111-157 | matching level by level is the greedy fill of the priority list, overflow or not: same trades, same remainder, and the same rest, of which a lost level is the front |
| Priority.SweepSound | pkg/orderbook/orderbook.go:150-153 | while volumes fit their counters no level is lost and the rest of the fill stays in the levels |
| Invariants.InsertIsPlace | pkg/orderbook/orderbook.go:160-184 | inserting into the levels puts the order behind everything at its price or better |
| Invariants.ProcessIsGreedy | pkg/orderbook/orderbook.go:39-59 | in every reachable book a call is: fill the opposite list greedily, then place the remainder of a limit order; a lost level is the front of what the fill leaves over |
| Invariants.ProcessOrdered | pkg/orderbook/orderbook.go:39-59 | bids descend, asks ascend and best bid stays below best ask, for every order whatsoever |
| Invariants.CancelOrdered | pkg/orderbook/orderbook.go:62-86 | cancelling keeps sides sorted and uncrossed |
| Invariants.ProcessTidy | pkg/orderbook/orderbook.go:160-184 | honest counters, no lost level, unique ids and an exact index survive a call if and only if the order is admissible |
| Invariants.ProcessKnown | pkg/orderbook/orderbook.go:144-147 | in every reachable book whose resting orders the index all leads to, it goes on doing so after a call if and only if the order does not rest under the id of another, whatever overflows |
| Invariants.GreedyFill | pkg/orderbook/orderbook.go:114-125 | the unfilled part is the excess over the volume the order crosses, and what is left then does not cross |
| Cancelling.CancelRemovesOne | pkg/orderbook/orderbook.go:62-86 | in every reachable book a cancel takes out the youngest order of its id at the indexed price, or in the lost level the index leads into, and leaves every other its place and quantity, if and only if it drops no level with orders in it |
| Cancelling.CancelKnown | pkg/orderbook/orderbook.go:62-86 | cancelling never makes a resting order unknown to the index, whatever level it drops |
| Cancelling.KnownIsCancellable | pkg/orderbook/orderbook.go:62-86 | while the index leads to all resting orders, every one of them can be cancelled and its cancel finds just that one |
| Cancelling.CancelWellFormed | pkg/orderbook/orderbook.go:62-86 | on a well-formed book cancel succeeds exactly on the resting orders and leaves a well-formed book |
| Cancelling.FoundIffLive | pkg/orderbook/orderbook.go:63-71 | in a well-formed book the index finds exactly the resting orders, each in its own level |
| Cancelling.PlaceThenCancel | pkg/orderbook/orderbook.go:62-86 | a non-crossing limit order and its cancel restore the very same book if and only if the index did not know its id and the orders at its price do not sum up to a multiple of 2^64 |
| Cancelling.CancelTwice | pkg/orderbook/orderbook.go:63-66 | a repeated cancel fails and changes nothing |
| Execution.NobodyJumpsTheQueue | pkg/orderbook/orderbook.go:128-148 | in an in-order fill nobody gets anything before everybody ahead is filled completely |
| Execution.ProcessInOrder | pkg/orderbook/orderbook.go:111-157 | in every reachable book the trades of a call are the in-order fill of the opposite list, of size min(quantity, crossing volume) |
| Execution.InOrderIsCheapest | pkg/orderbook/orderbook.go:114-154 | exchange argument: on a price-sorted list no feasible allocation of the same quantity is better than the in-order one |
| Execution.BestExecution | pkg/orderbook/orderbook.go:111-157 | in every reachable book, among all allocations of the filled quantity a buyer pays least and a seller receives most with the engine's trades |
| Execution.TradePrices | pkg/orderbook/orderbook.go:117-142 | every trade names the taker and respects the price check; prices within a call only get worse |
| Execution.LimitRespected | pkg/orderbook/orderbook.go:118-125 | trades respect the limit price iff the side is known, or the bids at or above it absorb the order, or there are no others |
| Execution.SweepTraded | pkg/orderbook/orderbook.go:130-135 | trades and remainder add up to the order, always |
| Outcomes.FillSize | pkg/orderbook/orderbook.go:117-130 | in every reachable book a limit buy trades what is asked at its price or less, a limit sell what is bid at its price or more, and any other order, whatever its price field, all there is on the other side, each up to its quantity |
| Outcomes.ProcessAccounts | pkg/orderbook/orderbook.go:128-148 | in every reachable book each order of the other side, by id and price, drops by exactly what the trades took from it, and the own side changes only by the remainder of a limit order, under its id at its price |
| Splitting.GreedySplit | pkg/orderbook/orderbook.go:111-157 | filling q1 then q2 leaves what filling q1+q2 leaves, with the same trades once adjacent ones of a maker are joined |
| Splitting.SweepInTwo | pkg/orderbook/orderbook.go:111-157 | sweeping the levels for q1 and then for q2 takes out the same orders and ids, and loses the same level, as sweeping for q1+q2, unless the first sweep loses one |
| Splitting.MarketSplit | pkg/orderbook/orderbook.go:39-59 | a market order in two pieces leaves the same book, index and lost levels included, and the same joined trades, each if and only if the second piece is empty or the first ends in no level with a multiple of 2^64 left; and then every maker has the same fill |
| Splitting.SameBook | pkg/orderbook/orderbook.go:22-26 | the two priority lists determine levels and index of a well-formed book |
| Runs.AlwaysOrdered | pkg/orderbook/orderbook.go:39-86 | sorted and uncrossed after any list of calls, with no condition on ids, sides or quantities |
| Runs.AlwaysInStock | pkg/orderbook/orderbook.go:39-86 | in every reachable state no level is empty and no queued order is used up |
| Runs.AlwaysSolid | pkg/orderbook/orderbook.go:39-86 | every reachable book meets the condition of the results about single calls |
| Runs.HonestIffAdmissible | pkg/orderbook/orderbook.go:39-86 | the book is well formed throughout a run iff every order was admissible when it came |
| Runs.KnownIffIdsFree | pkg/orderbook/orderbook.go:22-26 | in all states of a run the index leads to every resting order, if and only if no order came to rest under the id of another resting one; quantities and lost levels play no part |
| Conservation.ProcessConserves | pkg/orderbook/orderbook.go:128-148 | on every book, the volume that leaves the opposite side is traded or lost, and a limit order adds its remainder to its own side |
| Conservation.CancelConserves | pkg/orderbook/orderbook.go:62-86 | on every book, a cancel takes out exactly the remaining quantity of the order the index leads to, lost levels included |
| Conservation.ProcessLosesIff | pkg/orderbook/orderbook.go:150-153 | the opposite side drops by exactly the traded volume if and only if the order does not end inside a level leaving a multiple of 2^64 in it; only such orders lose a level |
| Conservation.CancelLosesIff | pkg/orderbook/orderbook.go:76-83 | the tradable volume drops by exactly the cancelled order if and only if that order does not leave a multiple of 2^64 in its level while the level to be dropped holds orders |
| Runs.RunConserves | pkg/orderbook/orderbook.go:39-86 | over every run, submitted = 2 x traded + resting + lost + cancelled + discarded |
| Runs.BalancedIffNeverLoses | pkg/orderbook/orderbook.go:39-86 | every state of a run balances without a loss term if and only if no call of it loses orders, which can be read off the book before each call |
| Runs.AdmissibleBalanced | pkg/orderbook/orderbook.go:39-86 | runs of admissible orders balance and leave a well-formed book |
| TimePriority.NobodyPasses | pkg/orderbook/orderbook.go:128-148 | in every run without reused ids, an order behind another of its price keeps its quantity and place as long as the one ahead rests and it is not cancelled itself |
| FailingRuns.OverflowLosesOrders | pkg/orderbook/orderbook.go:150-153 | a run whose level sum passes 2^64: the level is dropped with two live orders in it, and the run no longer balances |
| FailingRuns.CancelDropsAnotherLevel | pkg/orderbook/orderbook.go:76-83 | the run goes on: cancelling the lost orders drops a new live level of the same price |
| FailingRuns.SplitMissesLostLevel | pkg/orderbook/orderbook.go:150-153 | a market order for two units is filled in one piece; in two pieces the second finds nobody |
| FailingRuns.DepthWraps | pkg/orderbook/orderbook.go:100-105 | the depth shows one unit at a price where 2^64+1 rest |
| FailingRuns.CancelTakesOthersAlong | pkg/orderbook/orderbook.go:76-83 | a cancel that leaves 2^64 in its level drops two other orders with the level |
| FailingRuns.PlaceThenCancelLosesLevel | pkg/orderbook/orderbook.go:76-83 | placing and cancelling an order that crosses nothing empties the side |
| FailingRuns.DuplicateIdStrandsOrder | pkg/orderbook/orderbook.go:144-147 | a run with a reused id: the index forgets a resting order, which cannot be cancelled any more |
| FailingRuns.CancelTakesTheYounger | pkg/orderbook/orderbook.go:63-74 | cancelling a reused id takes out the younger order; the older one trades at its better price and cannot be cancelled any more |
| FailingRuns.UnknownSideTradesPastItsPrice | pkg/orderbook/orderbook.go:118-125 | an order of side 2 with price 100 sells to a bid of 1 |
| Exchange.StepKeepsInStep | pkg/api/server.go:80-113 | every step keeps: the served requests are a prefix of the arrivals, the channel holds the rest in order, the book is theirs |
| Exchange.StepKeepsAnswered | pkg/api/server.go:97-112 | every step keeps: each served request has exactly one response, the sequential book's; the others have none |
| Exchange.StepKeepsCoherent | pkg/api/server.go:115-130 | every step keeps: the cache is the depth of one past state, of the present one unless a change is pending, and never an older one than before |
| Exchange.StepKeepsPublished | pkg/api/server.go:100-103 | every step keeps: each batch of trades goes out once, in request order |
| Exchange.EveryRun | pkg/api/server.go:73-133 | all four in every state of every interleaving |
| Exchange.AnswerMeans | pkg/api/server.go:97-112 | a place always succeeds and reports all trades of the call; a cancel reports whether the index knew the id, with the error text exactly on failure |
| Exchange.FeedIsComplete | pkg/api/server.go:100-103 | the trade events of a run add up to all that was traded in it |
| ServerLoop.ArriveQueues | pkg/api/server.go:180-186 | a request joins the channel while fewer than 100000 wait, and waits otherwise |
| ServerLoop.ServeAnswersOne | pkg/api/server.go:82-113 | an idle loop with requests answers the oldest one, sequentially |
| ServerLoop.TickRefreshes | pkg/api/server.go:115-130 | a tick that finds a change caches the depth of the present book and hands it on, which clears the change |
| ServerLoop.PartiesTake | pkg/api/server.go:188-190 | the hub takes the oldest event out of the channel, and a handler whose response is there gets just that |
| ServerLoop.ServerFollowsLoop | pkg/api/server.go:80-132 | over every interleaving the requests served, all events sent and the cached state are those of the loop over the rounds it had |
| ServerLoop.ServerCatchesUp | pkg/api/server.go:73-133 | from every reachable state there are steps after which, without another request, every handler has its sequential answer and the cache is the depth of the book |
| Snapshots.ResponseNeverBlocks | pkg/api/server.go:180-188 | whenever the loop is about to answer, that handler's one-slot channel is empty and unused |
| Snapshots.CacheMovesForward | pkg/api/server.go:123-126 | along any interleaving the cached state only moves forward |
| Snapshots.CacheIsASnapshot | pkg/api/server.go:217-224 | what a reader gets is a sorted, uncrossed depth of one past book, and its exact price aggregation if and only if the shown levels fit their counters |
| Snapshots.OrderedSnapshot | pkg/orderbook/orderbook.go:89-108 | snapshots of ordered books are sorted and uncrossed |
| Snapshots.SideSnapshot | pkg/orderbook/orderbook.go:93-98 | each line shows the whole positive volume at its price and only worse prices are cut off, if and only if the shown levels fit their counters |
| MatchingLoop.Loop.constructor | pkg/api/server.go:53-64 | starts with an empty book and the matching empty cache |
| MatchingLoop.Loop.HandlePlace | pkg/api/server.go:84-103 | the response succeeds with all trades of the call, which add up to what the order was filled; event and heap book are those of the sequential answer; the book counts as changed |
| MatchingLoop.Loop.HandleCancel | pkg/api/server.go:105-112 | succeeds iff the id was indexed, with the error text exactly on failure; a failed cancel does not count as a change |
| MatchingLoop.Loop.Tick | pkg/api/server.go:115-130 | afterwards the cache is the depth of the live book, never of an older state than before, and an event goes out iff something had changed |
| MatchingLoop.Loop.RunMatchingLoop | pkg/api/server.go:80-132 | over any inputs whatsoever the heap book is that of the requests in order, the cache the depth of one past state of it, every request got its sequential answer, and the events are those of the sequential run |
| MatchingLoop.TradesInOrder | pkg/api/server.go:97-128 | among the events of the loop every batch of trades appears once, in request order, wherever the ticks fall |
| MarketData.TakenTrades | pkg/api/server.go:135-144 | over every interleaving, what the hub has taken holds the first batches of trades in request order |
| MarketData.Feed | pkg/api/hub.go:46-73 | behind the server, every client has got a gap-free stretch of its events from registration on, and in it a gap-free stretch of the trade batches in request order |
| FixText.IndexByte | pkg/fix/parser.go:41-45 | the first position of a byte, or -1 exactly when there is none |
| FixText.AtoiDec | pkg/fix/parser.go:48-51 | reading a printed number gives it back iff it fits a signed 64-bit integer, and fails otherwise |
| FixText.AtoiSigned | pkg/fix/parser.go:48-51 | digits with or without a sign read as their number iff it fits 64 bits |
| FixText.AtoiRefuses | pkg/fix/parser.go:48-51 | text without digits, or with anything but digits after an optional sign, is refused |
| FixParser.Message.Parse | pkg/fix/parser.go:32-72 | the loop ends on any bytes with the spans and the verdict of the parse function, all spans in the buffer |
| FixParser.Message.GetField | pkg/fix/parser.go:75-82 | the value of the first field with the tag, or not found |
| FixParser.Message.GetInt | pkg/fix/parser.go:94-108 | the digits of that value as a 64-bit wrapping integer, or an error |
| FixParser.IntValueMeans | pkg/fix/parser.go:99-107 | a value is read iff it has only digits, as their number modulo 2^64 |
| FixStructure.ParseSpans | pkg/fix/parser.go:39-71 | spans are in bounds, ordered, disjoint and free of SOH, end at an SOH or the end; the unread tail has no equals sign, or starts with a bad tag |
| FixStructure.ParseTags | pkg/fix/parser.go:39-69 | on any bytes no field is skipped: each tag is the number right behind the previous value and before the first equals sign |
| FixStructure.ParseConcat | pkg/fix/parser.go:39-69 | parsing a fully consumed message followed by anything is the one parse followed by the shifted other |
| FixStructure.LookupIsFindTag | pkg/fix/parser.go:75-82 | the tag lookup on spans is first-match lookup on the list of fields |
| FixStructure.RoundTrip | pkg/fix/parser.go:32-72 | parsing inverts printing for every list of fields with SOH-free values and tags a signed 64-bit integer can hold |
| FixSession.FormatFixMessage | pkg/fix/session.go:155-176 | the checksum loop and the assembled text are the formatted message |
| FixSession.ByteSumAppend | pkg/fix/session.go:168-172 | the sum under the checksum counts every byte once, wherever the text is cut |
| FixSession.ByteSumOne | pkg/fix/session.go:169-172 | the sum of one byte is the byte, of none zero |
| FixSession.FormatThenParse | pkg/fix/session.go:155-176 | with SOH-free header values and body fields, a formatted message parses completely into 8, 9, 35, 49, 56, 34, 52, the body fields and 10, with the exact values |
| FixStandard.LookupInMessage | pkg/fix/parser.go:75-82 | header tags are found in the header whatever the body has; other tags in the body first |
| FixStandard.HeaderValues | pkg/fix/session.go:156-166 | what each header tag reads as, and the sequence number as an integer |
| FixStandard.BodyLengthAndCheckSum | pkg/fix/session.go:164-175 | field 9 counts the bytes from its SOH to field 10; field 10 is three digits, the sum of the bytes before it modulo 256 |
| FixStandard.CheckSumLookup | pkg/fix/session.go:168-175 | looking up tag 10 gives the checksum when the body has no field 10, and otherwise the body's own field |
| FixConnection.Connection.HandleChunk | pkg/fix/session.go:85-138 | the reply to a chunk, and the sequence number moves iff there is one |
| FixConnection.Connection.HandleConnection | pkg/fix/session.go:68-140 | the replies to any list of chunks |
| FixConnection.ReplyIffAccepted | pkg/fix/session.go:86-138 | a chunk is answered iff it parses and is a logon, heartbeat or new order |
| FixConnection.LogonAnswered | pkg/fix/session.go:102-107 | a logon is answered by a logon to its sender with exactly the fields 98=0 and 108=30 |
| FixConnection.HeartbeatAnswered | pkg/fix/session.go:109-113 | a heartbeat is answered by a heartbeat to its sender without a body |
| FixConnection.OrderAnswered | pkg/fix/session.go:115-134 | a new order is answered by a report to its sender with exactly nine fields: the ids, a full fill, and the terms of the order |
| FixConnection.OthersDropped | pkg/fix/session.go:86-96 | what does not parse, has no message type or another one gets no answer |
| FixConnection.NumberedWithoutGaps | pkg/fix/session.go:102-138 | the k-th reply answers the k-th accepted chunk with number k; dropped chunks leave no trace |
| FixConnection.SequenceNumbers | pkg/fix/session.go:102-134 | tag 34 of the replies reads 1, 2, 3, ... |
| FixConnection.RepliesWellFramed | pkg/fix/session.go:155-176 | every reply on a connection has the right BodyLength and CheckSum |
| FixConnection.ReportEchoes | pkg/fix/session.go:115-134 | an execution report parses back with the order's id, symbol, side, quantity and price, addressed to its sender |
| Broadcasting.Client.TrySend | pkg/api/hub.go:63-65 | sends iff there is room; needs an open channel |
| Broadcasting.Client.Drain | pkg/api/hub.go:92-97 | takes the oldest message, from a closed channel too |
| Broadcasting.Hub.Register | pkg/api/hub.go:49-52 | the client becomes a member whose service starts now |
| Broadcasting.Hub.Unregister | pkg/api/hub.go:53-59 | a member leaves and is closed once; anybody else is untouched |
| Broadcasting.Hub.Broadcast | pkg/api/hub.go:60-70 | exactly the members with room get the message and stay, in whatever order they are visited |
| Broadcasting.Hub.Pump | pkg/api/hub.go:88-98 | moving a message on changes nothing about what the client got |
| Broadcasting.Hub.Run | pkg/api/hub.go:46-73 | over any run with one registration per client each client got a gap-free stretch of the broadcasts from its registration on, and members and backlogs are those the events make |
| Broadcasting.MemberIff | pkg/api/hub.go:46-73 | a client is a member at the end of a run iff it was one or has registered, and since then was not unregistered and no broadcast found 256 messages waiting for it |
| Reconciler.Controller.Create | pkg/controller/benchmark_controller.go:106-109 | an existing resource is no error, a missing namespace is, a failing call may still have created |
| Reconciler.Controller.Reconcile | pkg/controller/benchmark_controller.go:91-258 | the effect of one round that returns at its first failing call, and exactly when it reports success |
| Reconciler.RoundIsSafe | pkg/controller/benchmark_controller.go:91-258 | every round moves the state only forward; Running is written onto all four resources, Succeeded once the namespace is gone |
| Reconciler.SuccessIsComplete | pkg/controller/benchmark_controller.go:106-258 | a round that reports success has completed its transition, so half-done work is always retried; it reports success iff all its calls work |
| Reconciler.RoundDoesNothing | pkg/controller/benchmark_controller.go:51-59 | a round changes nothing when it cannot read the run, when the run is not over yet, or when it is finished; of these only a failed read is reported as an error |
| Reconciler.FinishedWasOver | pkg/controller/benchmark_controller.go:209-253 | no run is finished unless a round found it running after the end of its duration |
| Reconciler.NothingTornDown | pkg/controller/benchmark_controller.go:209-253 | before such a round no resource of a run goes away |
| Reconciler.AlwaysSane | pkg/controller/benchmark_controller.go:96-193 | in every reachable cluster a pod has its namespace, quota and network policy |
| Reconciler.FailuresAreForgotten | pkg/controller/benchmark_controller.go:91-258 | however many rounds fail and wherever: once one round has succeeded, and a later one past the end of the duration, the run is over with nothing left behind, and stays so |
| Reconciler.CleanRoundsFinish | pkg/controller/benchmark_controller.go:91-258 | two rounds in which every call works, the later one past the end, finish any run, with arbitrary rounds before, between and after them |

## Left out

- Engine.OrderBook.Cancel: the nil check on the order's level (lines 69-71) has no branch, since an indexed order always has one.
- Engine.OrderBook.Process: takes an order object that was not processed before, as the server's handler makes one per request.
- FixSession.FormatFixMessage: sequence number and byte sum are unbounded; the code's 64-bit counters would need more messages or bytes than exist.
- FixStandard.BodyLengthAndCheckSum: for messages shorter than 2^63 bytes, which every Go string is.
- FixConnection.RepliesWellFramed: the same.
- Broadcasting.Hub.Register: a client registers once, as each connection makes and registers its own.
- Reconciler.RoundIsSafe: the state Failed and unknown states, which the controller never writes, are left out of the reachable clusters.
- Splitting.MarketSplit: market orders only, since the two remainders of a split limit order rest as two orders.
- HTTP, JSON, WebSocket and socket I/O: requests, responses, events and chunks appear as values; the handlers' checks for an empty id or a zero quantity only narrow what arrives, and marshalling an event always works.
- Time: ticks, elapsed durations, time stamps and execution numbers are parameters, stamps being free of SOH.
- TCP reassembly, the 4096-byte read buffer and read deadlines: every read is one chunk, as in the code.
- Validation of incoming FIX checksums, lengths and sequence numbers: the code has none.
- Locks and Go's memory model: each step of a party is atomic.
- Kubernetes object contents, stale reads and slow namespace deletion: only the presence of resources and the state field matter.
- pkg/leaderboard, pkg/queue, pkg/telemetry, pkg/sandbox, pkg/submission, pkg/loadgen, cmd, ebpf, web, deploy: floating-point scores over Redis, thin wrappers, plumbing and configuration, with easy claims only.
