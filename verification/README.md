# Order matching engine: model and proofs

This project models the deterministic core of the exchange server and proves what
that core is for: price-time priority matching, order routing across symbols,
lock-free hand-over between the network thread and the matching thread, and the
cutting of client bytes into lines.

`dafny verify dfyconfig.toml` checks everything.

## How it is built

* `Orders.dfy` holds the values: orders, commands, trades, statistics. Prices are reals.
* `BookSpec.dfy` gives the meaning of one book as two flat sequences in priority
  order, with insertion, cancellation, modification and the matching recursion.
* `Levels.dfy`, `BookSide.dfy` and `OrderBook.dfy` are the book as the program keeps
  it: two sorted maps from price to FIFO list, list elements as heap nodes, an index
  from order id to (side, price, node), and the running statistics. `modifyOrder`
  writes through a node reference and `removeByLocation` erases by node reference.
  `OrderBook.Valid` is the heap invariant; every method is proved against `BookSpec`.
* `Matching.dfy` and `Sweep.dfy` say what the matching loop does, for any book and
  for an order arriving at an uncrossed one.
* `BookRuns.dfy`, `Ledger.dfy` and `Priority.dfy` are about all runs of one book;
  `RoundTrip.dfy` takes an order back out of the heap structure.
* `ExchangeSpec.dfy`, `Exchange.dfy`, `Engine.dfy`, `Routing.dfy`, `Results.dfy` and
  `Output.dfy` are
  the exchange of many books, its routing index, the matching thread, and all runs of both.
* `SpscSpec.dfy` and `SpscQueue.dfy` are the ring buffer, split at its atomic accesses,
  and the locked queue it refines; `SpscHistory.dfy` adds the failing calls and
  `SpscLinear.dfy` linearizability. `Pipeline.dfy` composes network thread, ring and
  matching thread.
* `Threads.dfy` shows that the two threads never wait for one another, and `Drain.dfy`
  that the server can always finish what it has taken in.
* `Framing.dfy` is the line-cutting loop.

Printed output becomes values: trades are returned, and the accept/reject messages
are boolean results. Where the program would print a trade, the model returns it.

### The ring buffer's memory model

An acquire load of the other thread's index may return any value that index has
held, but never one older than a value the same thread has already seen (coherence,
section 4.7.1 of ISO C++17). Slot reads are relaxed too: the consumer's read may
observe any write to its slot that has begun, finished or not, or the slot's first
content, unless a newer write to that slot was released by an index store that the
consumer has acquired. `SpscSpec.ObservesItsItem` proves that the one write left to
observe is that of the item due, so reading the current buffer, as
`SPSCQueue.PopRead` does, is the only outcome. `SpscSpec.RaceFree` is the other half:
whenever a slot is about to be accessed, the other thread's every access to it was
released by an index store this thread has already acquired.

A call that fails on a stale index may give an answer that no FIFO gives.
`SpscLinear.LinearizableIff` has the exact condition, with every call free to take effect
anywhere between its start and its return: a run is linearizable if and only if each
failing push was called on a full ring and each failing pop on an empty one.
`SpscLinear.NotLinearizable` is a run that is not. With failing calls placed at their
loads instead, the condition is that those loads are up to date
(`SpscHistory.FullHistoryIff`). That is sufficient for linearizability but not necessary
(`SpscLinear.FreshCalledFor`, `SpscLinear.LateLoadHappens`).

### Where code and documentation disagree

The model follows the code.

* The comments at orderbook.h:239 and orderbook.h:267 promise the resting order's price.
  On equal timestamps the code takes the bid's price, so an incoming buyer pays its own
  limit. `Results.TiePaysTheBid` is an input of two commands, and
  `Results.EmptyTiePaysTheBid` one with a quantity of zero. `Sweeps.RestingPriceIff` and,
  for dispatched NEWs and MODIFYs, `Results.NewPaysRestingIff` and
  `Results.ModifyPaysRestingIff` are the exact condition, for all stamps and quantities.
* README.md:152-156 of the server does not list a MODIFY with unchanged price and
  quantity. The code cancels and reinserts (`Priorities.UnchangedModifyLosesPriority`);
  `Priorities.ModifyKeepsPlaceIff` says exactly when a MODIFY leaves an order at its place.
* The comment at exchange.h:50 says the routing entry goes after a successful cancel.
  The code erases it whenever the id is indexed, also when the book no longer holds the
  order. `Results.IndexIsOpenIds` is the exact account, `Results.EntryOutlivesOrder` an input.
* List order is meant to be time priority (orderbook.h:52), but stamps come from a clock
  that may step back (server.cpp:66-70). `Results.RunInTimeIff` says exactly which runs keep
  every level in time order, and `Results.ClockStepsBack` is an input that does not.
* Quantities are parsed but never validated (server.cpp:189, server.cpp:245).
  `Results.StepPositiveIff`, for each command, and `Results.RunPositiveIff`, for the
  exchange over whole runs, say exactly when that shows; `Results.NonPositiveShows` has
  inputs for both ways.
  Results about volumes and costs that need it ask for positive quantities; termination,
  conservation, routing, counts, who trades with whom at which price, and uncrossed books
  are proved for all integers.
* `insertOrder` accepts an id that is in use and overwrites the book's index entry
  (orderbook.h:129), and `Exchange::addOrder` overwrites the routing entry (exchange.h:44).
  The book's own index stays exact if and only if the book held no order under that id
  (`OrderBook.InsertOrder`, `Exchange.AddOrder`). The routing index keeps covering the live
  orders if and only if no other symbol's book holds one (`Routing.AddCoversIff`).
  `Routing.SecondSymbolHides` is the input on which only the second fails, and
  `Pipeline.HandIsDispatchable` shows that the server never does either.

## Model

| member | source | states |
|---|---|---|
| BookSpec.InsertWellFormed | orderbook.h:116-130 | sorted sides, distinct ids and disjoint sides survive an insertion if and only if the id was not in use |
| Levels.PushBackFlat | orderbook.h:120-126 | appending to the level of a price, creating it if missing, puts the element behind every entry at least as good and before every worse one, and keeps keys strictly best-first with no empty level |
| Levels.EraseFlat | orderbook.h:94-100 | erasing one list element, and its level when that empties, removes exactly that entry and disturbs no other |
| Levels.FlatDetermines | orderbook.h:79-80 | two price maps with the same entries in priority order are equal level by level |
| BookSides.BookSide.PushBackOrder | orderbook.h:119-127 | a new node joins the level of its price behind all orders at least as good; every other node keeps its place |
| BookSides.BookSide.EraseOrder | orderbook.h:92-110 | a price with no level changes nothing; otherwise erase-by-iterator finds the node under its price, removes it alone and drops an emptied level |
| BookSides.BookSide.SetQuantity | orderbook.h:209-209 | a write through an iterator changes one quantity and nothing else |
| BookSides.BookSide.PopFront | orderbook.h:286-299 | popping the best level's front removes the first order and drops an emptied level, so no level is ever empty |
| OrderBooks.OrderBook.constructor | orderbook.h:76-86 | a new book is empty, valid, and in fresh memory |
| OrderBooks.OrderBook.InsertOrder | orderbook.h:116-130 | the order joins its queue and is indexed; index and lists still describe each other if and only if the id was not in use |
| OrderBooks.OrderBook.AddOrder | orderbook.h:137-143 | insertion plus one more submitted order; no precondition on the id, same exact condition |
| OrderBooks.OrderBook.RemoveByLocation | orderbook.h:92-110 | exactly the located node leaves its side; a location whose price has no level is ignored |
| OrderBooks.OrderBook.CancelOrder | orderbook.h:152-167 | accepted exactly for live ids; removes that order from lists and index and nothing else; a rejected cancel changes nothing |
| OrderBooks.OrderBook.ReduceInPlace | orderbook.h:204-211 | writing through the stored iterator resizes that order in place and keeps the whole heap invariant |
| OrderBooks.OrderBook.ModifyOrder | orderbook.h:190-233 | accepted exactly for live ids; equals the specification of all branches and keeps index, lists and levels in step; all other orders keep their list nodes in their order, and a rejected MODIFY, or a decrease at the order's own price, moves no node at all |
| OrderBooks.OrderBook.TradeFronts | orderbook.h:260-299 | one loop pass fills both front orders by the smaller quantity, retires the exhausted ones from list, index and level, leaves every other list node where it is, and keeps the heap invariant |
| OrderBooks.OrderBook.MatchOrders | orderbook.h:248-301 | terminates for all integer quantities, keeps the heap invariant at every pass, and ends in the book, statistics and trade list of the matching recursion; the orders left keep their list nodes, a tail of each old list |
| RoundTrips.AddThenCancel | orderbook.h:137-167 | adding a fresh id and cancelling it restores both price maps level by level and node by node, and the index; only the order count remembers |
| RoundTrips.IndexDetermined | orderbook.h:83-83 | the index is a function of the nodes and orders in the lists |
| Matching.MatchClears | orderbook.h:248-301 | for positive quantities, however deeply crossed, the traded volume is the maximum over prices of the smaller of bid depth and ask depth, and each side is its old priority order with exactly that many units taken from the front |
| Matching.ClearingVolumeIsTraded | orderbook.h:248-301 | a volume is that maximum if and only if it is what matching trades |
| Matching.UnitPairing | orderbook.h:263-278 | unit k of the traded volume passes from the owner of the k-th ask unit to the owner of the k-th bid unit in price-time order |
| Matching.MatchShape | orderbook.h:248-301 | for all integer quantities: matching ends uncrossed, leaves a tail of each queue with at most the front resized, removes an order per trade, trades at most orders minus one times, and trades nothing exactly on uncrossed books |
| Matching.MatchConserves | orderbook.h:277-291 | every order's old quantity is its fills plus what remains, and each side loses the traded volume, for all integer quantities |
| Matching.TradeWithinLimits | orderbook.h:266-270 | every trade joins a bid and an ask that were in the book, at the earlier one's price (ties: the bid's), between the two limits |
| Matching.TradeUsesUp | orderbook.h:263-278 | for all integer quantities, every trade is for the smaller of what earlier trades have left of its two orders |
| Matching.MatchWellFormed | orderbook.h:283-299 | matching keeps the book well formed and brings no id to life |
| Sweeps.InsertMatchIsSweep | orderbook.h:137-143 | inserting into an uncrossed book and matching gives the book, statistics and trades of one recursive sweep by the newcomer alone, for all integer quantities |
| Sweeps.ModifyMatchIsSweep | orderbook.h:220-232 | a reinserting MODIFY followed by matching is the sweep of the restamped order over the book without the old one |
| Sweeps.ModifyWithoutMatch | orderbook.h:192-211 | after a rejected or in-place MODIFY of an uncrossed book matching does nothing; a rejected one changes nothing at all |
| Sweeps.ModifyTradesIff | server.cpp:130-137 | a MODIFY of an uncrossed book leads to trades if and only if it is accepted, is not a decrease at the order's own price, and its new price reaches the best opposite price |
| Sweeps.SweepFills | orderbook.h:266-299 | for positive quantities, a sweep fills the smaller of its size and the opposite depth within its limit, takes it from the front of the opposite queue, and rests exactly with the balance |
| Sweeps.SweepMeets | orderbook.h:260-291 | for all integer quantities, the i-th trade of a sweep is with the i-th opposite order, for the smaller of that order and what the ones before it leave, and happens exactly when it is within the limit and no beginning of the queue before it uses up the quantity |
| Sweeps.SweepFillBounds | orderbook.h:263-278 | for positive quantities no trade is for nothing or exceeds the resting order it is with |
| Sweeps.RestingPriceIff | orderbook.h:267-270 | for all integer quantities, all fills are at the resting price if and only if every order met has the stamp the code asks for, or the same price |
| Sweeps.LaterSweepsAtRestingPrices | orderbook.h:267-270 | with a strictly later stamp every fill is at the resting price and fill prices only get worse along the sweep |
| Sweeps.CostWithinLimit | orderbook.h:253-270 | for positive quantities and whatever the stamps, a buyer's total cost never exceeds, and a seller's never falls below, limit times filled quantity |
| Sweeps.PositivityIff | server.cpp:184-199 | from a positive uncrossed book, all trades are for positive quantities if and only if the order is positive or meets nobody, and all resting quantities are positive if and only if it is positive or meets somebody |
| Sweeps.InPlacePositivityIff | orderbook.h:204-211 | the in-place branch keeps a positive book positive if and only if the new quantity is positive |
| BookRuns.StepGood | server.cpp:112-137 | one dispatched command keeps a book well formed and uncrossed, and only a NEW adds a live id |
| BookRuns.RunGood | server.cpp:96-145 | after every run with fresh ids the book is well formed and uncrossed and holds only submitted ids |
| Ledgers.RunAmortised | orderbook.h:137-139 | live orders plus trades never exceed orders submitted, and trades stay at least one below once an order was submitted |
| Ledgers.StatsSummarise | orderbook.h:17-21 | the statistics are exactly the number of NEWs, the number of trades and the volume of the run's output |
| Ledgers.RunLedger | orderbook.h:277-291 | on each side, submitted quantity plus net MODIFY changes equals resting plus cancelled plus traded quantity, after every run |
| Priorities.InsertedTimeOrderedIff | orderbook.h:119-127 | appending keeps a side in time order if and only if nobody at that price has a later stamp |
| Priorities.RunInTime | orderbook.h:116-130 | if dispatched stamps never decrease, every level of every reachable book is in time order, so list order is time priority |
| Priorities.StepTimeOrderedIff | server.cpp:112-137 | from an uncrossed book in time order, one command leads to a book in time order if and only if the order it puts in, by NEW or reinserting MODIFY, finds nobody with a later stamp at its price |
| Priorities.RunStampedBy | orderbook.h:116-130 | whatever their order, the stamps in a reachable book are bounded by those dispatched |
| Priorities.NewOrder | server.cpp:113-124 | a NEW rests, before matching, with the id, side, price, quantity and stamp it came with |
| Priorities.ModifiedOrder | orderbook.h:190-233 | an accepted MODIFY leaves its order on its side with the new price and quantity, and with the old stamp exactly for a decrease at the same price |
| Priorities.DecreaseKeepsPlace | orderbook.h:204-211 | a same-price decrease keeps place and stamp |
| Priorities.ReinsertGoesLast | orderbook.h:213-232 | every accepted MODIFY with another price, or no smaller quantity, restamps the order and puts it behind all orders at its price or better |
| Priorities.ModifyMovesNobodyElse | orderbook.h:190-233 | in every case all other orders keep their places relative to each other |
| Priorities.UnchangedModifyLosesPriority | orderbook.h:204-232 | in every book, a MODIFY of a live order to its own price and quantity restamps it, and everything then behind it is strictly worse priced |
| Priorities.ModifyKeepsPlaceIff | orderbook.h:190-233 | a MODIFY leaves the order at its position if and only if it is a same-price decrease, or the new price is better than exactly the prices behind it |
| Priorities.CancelUndoesAdd | orderbook.h:137-167 | cancelling an unmatched NEW restores the book, statistics apart |
| Priorities.CancelsCommute | orderbook.h:152-167 | the order of two cancels does not matter |
| Exchanges.Exchange.constructor | exchange.h:27-34 | a new exchange has no books and an empty index |
| Exchanges.Exchange.AddOrder | exchange.h:42-45 | for any id, the order enters its symbol's book, created on first use, and the index, and no other book changes; the books' own indexes all stay exact (`Valid`) if and only if no order rests under that id in that book; the routing index is the subject of Routing.AddCoversIff |
| Exchanges.Exchange.CancelOrder | exchange.h:52-61 | an unindexed id changes nothing; otherwise the indexed book is asked and the entry erased |
| Exchanges.Exchange.ModifyOrder | exchange.h:68-86 | rejected without any change when the id is unindexed or indexed under another symbol |
| Exchanges.Exchange.MatchOrders | exchange.h:91-96 | matches the named book only, and nothing when it does not exist |
| Engine.Dispatch | server.cpp:112-145 | the switch on command types has the effect and the trades of the specification, and only NEW and MODIFY trade |
| Engine.MatchingEngine | server.cpp:96-156 | from an empty exchange and with fresh ids, the loop never violates a precondition and ends in the fold of the commands, with their trades in order |
| Output.QuietCommands | server.cpp:100-142 | CANCEL, STATS and BOOK trade nothing, and the latter two change nothing |
| Output.OutputInOrder | server.cpp:96-137 | in the whole output the trades of a command follow those of all earlier commands and come before those of all later ones |
| Output.TapeInOrder | exchange.h:91-96 | the same within one symbol, whose output has the trades of the NEWs and MODIFYs naming it |
| Output.RunTradesInOrder | orderbook.h:248-301 | the same for a lone book |
| Output.OutputIsCounted | orderbook.h:277-278 | for any commands, the whole output has exactly as many trades and as much volume as the statistics of all books add up to |
| Routing.StepRoutes | exchange.h:42-96 | each command does to each symbol's book exactly what broadcasting it would, trades included |
| Routing.AddCoversIff | exchange.h:42-45 | for any id, after addOrder the routing index still leads every live order's id to its own symbol if and only if no other symbol's book holds an order under that id |
| Routing.AddSafeIff | exchange.h:42-45 | the well-formedness of all books and the routing index both survive addOrder if and only if no book holds an order under that id |
| Routing.SecondSymbolHides | exchange.h:42-86 | an id used under two symbols: both books stay well formed, but the first order is out of reach of CANCEL and MODIFY |
| Routing.StepIndex | exchange.h:42-61 | for a NEW whose id no book holds, and for every other command, the index keeps covering every live order with its own symbol, stale entries allowed before and after |
| Routing.RoutingIsBroadcast | exchange.h:42-96 | in every run with fresh ids, the book of a symbol is that of a lone book given the NEWs and MODIFYs naming it and every CANCEL |
| Routing.TapeIsBroadcast | exchange.h:91-96 | the trades of a symbol are those of that lone book |
| Routing.NextIsDispatchable | exchange.h:42-45 | before every dispatched NEW its id is in no book and not in the index |
| Routing.ExchangeKeeps | server.cpp:112-145 | after every command and in every symbol: well formed, uncrossed, counts bounded, statistics equal to the symbol's own trades, ledger balanced on both sides |
| Routing.ExchangeInTime | server.cpp:112-137 | with stamps that never decrease, list order is time order in every symbol |
| Routing.ExchangeStampedBy | server.cpp:112-137 | the same bound on stamps in every symbol's book |
| Results.NewIsOneSweep | server.cpp:113-125 | from any reachable exchange a dispatched NEW is one sweep of its own symbol's book, and no other book moves |
| Results.ModifyIsOneSweep | server.cpp:130-137 | a dispatched MODIFY is one sweep of the book without the old order, or trades nothing |
| Results.RunPositive | server.cpp:112-137 | if all submitted quantities are positive, so are all resting quantities and all trades of the run |
| Results.StepPositiveIff | server.cpp:112-137 | from a positive book, a command leaves only positive resting quantities and makes only positive trades if and only if it is not a NEW, nor a MODIFY of a live order, for zero or less |
| Results.RunPositiveIff | server.cpp:184-255 | in a run with fresh ids no resting order and no trade is ever for zero or less, if and only if every NEW, and every MODIFY naming an order that then rests in its symbol's book, is for a positive quantity |
| Results.NonPositiveShows | server.cpp:184-199 | a NEW for zero or less rests in an empty book, and against a resting ask a bid for zero or less makes a trade for that quantity |
| Results.IndexIsOpenIds | exchange.h:42-61 | an id is indexed, under the symbol of its NEW, exactly from that NEW until the first CANCEL naming it, filled or not |
| Results.EntryOutlivesOrder | exchange.h:47-61 | after two NEWs that fill each other the first id is still indexed though no book holds it, and a CANCEL that its book rejects removes the entry |
| Results.RunInTimeIff | server.cpp:66-137 | in a run with fresh ids every symbol's lists are in time order after every command, if and only if every order put in finds nobody with a later stamp at its price |
| Results.ClockStepsBack | server.cpp:66-70 | two NEWs at one price with the clock stepping back in between end out of time order |
| Results.NewTradesAtRestingPrices | server.cpp:113-125 | a NEW stamped after everything before it, in whatever order those stamps came and for whatever quantities, trades with the opposite queue in order, each time at the resting price; if all quantities are positive, also in total within its limit |
| Results.NewPaysRestingIff | orderbook.h:267-270 | whatever the stamps and quantities, a dispatched NEW trades at resting prices throughout if and only if every order it meets has the stamp the code asks for, or the same price |
| Results.ModifyPaysRestingIff | orderbook.h:213-270 | the same for a dispatched MODIFY that reinserts, which meets the queue opposite to its order |
| Results.TiePaysTheBid | orderbook.h:268-270 | two commands with equal stamps on which the documented resting-price rule fails |
| Results.EmptyTiePaysTheBid | orderbook.h:263-270 | such commands of which the second is for a quantity of zero |
| SpscSpec.StepKeeps | spsc_queue.h:15-40 | every atomic step of either thread, with stale but coherent index loads and relaxed slot reads, keeps the queue invariant |
| SpscSpec.TestsExact | spsc_queue.h:20-35 | the wrapped full and empty tests decide exactly whether the unbounded counts of the snapshot are a full ring apart, or equal |
| SpscSpec.FreshTestsExact | spsc_queue.h:20-35 | after an up-to-date load, push fails exactly on a full ring and pop exactly on an empty one; and a failing test finds the ring so only if its load was up to date |
| SpscSpec.ObservesItsItem | spsc_queue.h:37-37 | of all writes to the slot that a relaxed read might observe, only that of the oldest unread item is left, and its value is what the slot holds |
| SpscSpec.NoSharedSlot | spsc_queue.h:24-37 | a producer and a consumer inside the buffer are never in the same slot |
| SpscSpec.RaceFree | spsc_queue.h:24-38 | every conflicting access to the slot about to be touched was released by an index store already acquired |
| SpscSpec.BoundedFifo | spsc_queue.h:15-40 | popped values are a prefix of pushed ones, the ring holds the rest in order, and one slot stays free |
| SpscSpec.RunRefinesFifo | spsc_queue.h:15-40 | the successful operations of any interleaving are a run of an unbounded FIFO that ends with the ring's contents |
| SpscHistory.FullHistoryIff | spsc_queue.h:15-40 | the answers of all calls, each failing call placed at its load, are those of a FIFO of capacity minus one that ends with the ring's contents if every failing load was up to date, and otherwise are refused by it |
| SpscHistory.SuccessesAreHistory | spsc_queue.h:15-40 | the successful calls among these answers are the history that the unbounded FIFO replays |
| SpscHistory.BothFail | spsc_queue.h:17-35 | a run with coherent loads in which a pending push finds a three-slot ring full and a pending pop finds it empty, while it holds one item |
| SpscHistory.NoFifoFailsBoth | spsc_queue.h:20-35 | after no history, and in neither order, does a FIFO of positive capacity refuse a push and a pop side by side |
| SpscLinear.LinearizableIff | spsc_queue.h:15-40 | with every call taking effect anywhere between its start and its return, a run has the answers of a FIFO of capacity minus one if and only if every failing push was called on a full ring and every failing pop on an empty one |
| SpscLinear.FreshCalledFor | spsc_queue.h:17-35 | if every failing load is up to date, that condition holds |
| SpscLinear.LateLoad | spsc_queue.h:17-22 | a push called on a full ring that then fails on a load gone stale since is linearizable all the same |
| SpscLinear.LateLoadHappens | spsc_queue.h:17-22 | a run with such a push |
| SpscLinear.StaleCall | spsc_queue.h:17-22 | in any run, a push that starts after pops it does not see and finds the ring full makes the run not linearizable |
| SpscLinear.NotLinearizable | spsc_queue.h:17-22 | a run with such a push |
| SpscQueues.SPSCQueue.PushLoadHead | spsc_queue.h:17-17 | the producer may be shown any value of the read index from the newest it has seen up to the current one |
| SpscQueues.SPSCQueue.PushTest | spsc_queue.h:20-22 | push goes on exactly when the snapshot leaves room, and otherwise ends the call |
| SpscQueues.SPSCQueue.PushWrite | spsc_queue.h:24-24 | the item goes into the slot of the producer's tail and the unread slots stay as they are |
| SpscQueues.SPSCQueue.PopRead | spsc_queue.h:37-37 | whichever write the read may observe, the consumer takes the oldest unread item, the current content of its slot |
| SpscQueues.SPSCQueue.Push | spsc_queue.h:15-27 | an undisturbed push succeeds exactly below capacity minus one and appends the item |
| SpscQueues.SPSCQueue.Pop | spsc_queue.h:29-40 | an undisturbed pop succeeds exactly when something is unread and removes the oldest item |
| SpscQueues.MutexQueue.Push | mutex_queue.h:46-50 | always succeeds and appends |
| SpscQueues.MutexQueue.Pop | mutex_queue.h:52-60 | fails exactly on an empty queue, else removes the front |
| SpscQueues.ReplayHistory | mutex_queue.h:46-60 | the locked queue answers every operation of a ring buffer's history alike and ends up holding the same items |
| Pipeline.Gateway.Number | server.cpp:194-200 | the command carries the request unchanged, field by field; a NEW has the counter's id and moves the counter by one, and nothing else moves it |
| Pipeline.ActKeeps | server.cpp:96-214 | every step of either thread, retried pushes included, keeps the server invariant |
| Pipeline.EndToEnd | server.cpp:96-214 | under every interleaving the exchange and the whole trade output are the sequential fold of a prefix of the submitted commands in order, at most the ring and two hands behind |
| Pipeline.SubmittedAsRequested | server.cpp:176-262 | under every interleaving the commands taken in are the requests made, unaltered, in order, each just once, with the stamps they were given, and the n-th NEW carries id n |
| Threads.StepsCommute | spsc_queue.h:15-40 | any step of a push and any step of a pop that are both possible may be taken in either order, to the same end |
| Threads.ActionsCommute | server.cpp:96-214 | the same for any actions of the two threads: neither ever makes the other wait |
| Drains.CanFinish | server.cpp:96-214 | with two slots or more, from every reachable state some continuation without new requests dispatches everything submitted |
| Drains.ServableIff | spsc_queue.h:15-27 | a list of requests can be submitted and dispatched to the end if and only if it is empty or the ring has at least two slots |
| Pipeline.HandIsDispatchable | server.cpp:194-214 | every NEW about to be dispatched has an id that no book and no index entry holds |
| Pipeline.NeverCrossed | server.cpp:112-137 | no book of any reachable server state is crossed or ill formed |
| Framing.ClientBuffer.OnReadable | server.cpp:445-481 | the lines handed on are the stripped lines of old buffer plus everything read, and the buffer keeps what follows the last newline |
| Framing.ClientBuffer.TakeLines | server.cpp:469-480 | the loop takes out exactly the complete lines, front to back, each without one trailing carriage return |
| Framing.Stripped | server.cpp:475-477 | a line loses its last character exactly when that is a carriage return, and only one |
| Framing.LinesReassemble | server.cpp:471-473 | lines, their newlines and the residue are the text again |
| Framing.LinesUnique | server.cpp:471-473 | no other cut of the text into newline-free pieces exists |
| Framing.DrainThenAppend | server.cpp:464-473 | taking complete lines out before more bytes arrive changes nothing |
| Framing.StreamingIsBatch | server.cpp:445-480 | however the bytes are cut into reads, the lines delivered and the residue are those of the whole stream |
| Framing.ConcatAppend | server.cpp:464-464 | the stream is its pieces in order, wherever they are cut |

## Left out

- Sockets, epoll, signals, file descriptors and the shutdown sequence: input/output. Runs may stop anywhere, so the end-to-end results speak of a processed prefix, never of a drained queue; the single shutdown attempt to push STATS is not a step of the model.
- Token parsing and cutting symbols to 15 characters: requests start already parsed, and symbols are opaque keys. Lines that do not parse produce no request.
- Printing (`printBook`, `printStats`, messages): trades and accept/reject outcomes are returned instead; STATS and BOOK change nothing.
- latency_tracker.h, benchmark.cpp and main.cpp: measurement and drivers.
- Floating-point rounding, NaN and infinities in prices: prices are reals.
- Overflow of `int` quantities and wrap of 64-bit ids and counters: all are mathematical integers.
- The trees and hash tables behind the containers: a price map is its sequence of entries in key order, `list` keeps only node identity and order, hash maps are finite maps.
- Clock values: timestamps are inputs, and results that need them ordered say so.
- Progress: safety of the retry loops is proved for any number of retries, and that the server can always finish; that a scheduler lets it depends on the scheduler.
- A ring of capacity zero: the remainder in spsc_queue.h:20 is undefined there, so at least one slot is assumed.
- Pipeline.Gateway.Number: numbers one request at a time; the push-retry loop after it is the Network steps of `Pipeline.Act`.
