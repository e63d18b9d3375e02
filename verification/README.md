# A verified model of the trading engine's hand-written parts

These modules model, in Dafny 4.11, the parts of the trading engine that are written from scratch and whose
correctness depends on an invariant over whole runs: the event loop's lock-free queue and wake-up, the life of a
coroutine frame, the order book, the parsers and printers of the wire formats, the partial-write queue, the latency
histogram, profit-and-loss accounting and the generation-counted object pool. `dafny verify dfyconfig.toml` checks the
whole project.

| file | what it models |
|---|---|
| `MpscQueue.dfy`, `MpscQueueCalls.dfy`, `MpscQueueRuns.dfy` | the bounded multi-producer ring with the eventfd signal and the drain loop, one step per shared-memory access |
| `Coroutine.dfy`, `CoroutineRuns.dfy`, `CoroutineEvents.dfy` | tasks, futures and the RUN / SET_SUSPEND_VALUE / REMOVE_AWAITER events on any number of event bases |
| `OrderBookSide.dfy`, `OrderBook.dfy` | the price-indexed array, its bitmap and cached top, and the book with its moving window |
| `Json.dfy`, `JsonScan.dfy` | the JSON parser on text, and exactly when it does not return |
| `JsonDocs.dfy`, `JsonRoundTrip.dfy`, `JsonExact.dfy` | the printer, what the parser reads back, and exactly which printed documents survive |
| `JsonLimits.dfy` | text that is cut short or goes on, decimals, integers out of range, repeated keys |
| `JsonParser.dfy` | the parser, container and builder objects |
| `WebSocket.dfy`, `WebSocketWire.dfy` | the frame builder and the incremental frame parser (RFC 6455) |
| `HttpResponses.dfy`, `HttpLimits.dfy` | the pipelined response parser with chunked bodies (RFC 7230) |
| `WriteQueue.dfy` | the partial-write queue of a connection |
| `Latency.dfy` | the log-linear histogram and its percentile |
| `ProfitAndLoss.dfy` | realized and unrealized profit over a run of trades, on exact reals |
| `CachePool.dfy` | the single-threaded object pool |
| `Bits.dfy`, `Octets.dfy`, `ModularArithmetic.dfy`, `Wrappers.dfy` | machine words as naturals, bytes, remainders, and the option type |

How to read the parts:

* `MpscQueue` and `Coroutine` are transition systems. `Enabled` and `Apply` are the code; a run is any list of states
  each of which follows from the one before by an enabled step, so every theorem about runs holds for every
  interleaving. The queue's weak compare-and-exchange may fail for no reason, the consumer may drain with or without a
  signal, and positions are unbounded. A coroutine body is nondeterministic: each resume ends at a future, at a fresh
  child task or at final suspend. `GuardsNeverBlock` shows that the guards which only make a step well defined hold back
  no step the code would take. `Reachable` states are ends of runs: the lemmas about them show that the unexpected
  states below do occur.
* In `OrderBook` prices are ticks, quantities are reals, and the window is `depth` ticks around the base. `Op` is one
  effect on the book (a reset, a write at a price, a change of base); the methods of the book object are proved to do
  exactly the operations of `ApplyOp` and `AfterMaybeRebase`, and the theorems are about runs of operations.
* The parsers have a function that says what a text means and an object whose loops compute it. For the incremental
  ones the function is defined on everything received, and the theorems say that splitting the input changes nothing.
* In the JSON modules a `Doc` is a value together with an order for the fields of each object, as one pass over the
  hash map gives it. `ValueOf` is the value and `Print` the text; every value without doubles has a document
  (`DocExists`), and the order does not matter (`AnyKeyOrder`). `Laid` says where a document ends that is written in a
  text with blanks between its tokens.

## What turned out different from what one would expect

* The JSON parser does not return on every text. After a value inside an array, or in place of one, a closing brace
  leaves the array loop where it is for ever (core/json/json_parse.cpp:136-156 with 217-221).
  `HangsExactlyWhenStuck` says exactly when, on the text: a scan that keeps only a position and the open brackets comes
  to a "}" where the loop of an array starts a round. `HangsExactlyWhenNoStepsSuffice` says that this is what the plain
  code does: it then finishes in no bounded number of steps, and otherwise in some.
* Printing and parsing JSON is not an identity. `RoundTripsExactly` gives the condition: the document is null, or an
  array or object in which no array and no object is empty, every string is balanced, and no key holds a quote or a
  null character or is a lone closing brace. A null character spoils a key because keys are stored as C strings
  (core/json/json.cpp:33-38). Keys cut at a null can make a lone brace come back, but never in the right text:
  `BraceKeysNeverReturn` counts the quotes that each key and string of a result costs.
* A frame that has returned and is force-destroyed is never freed, and a frame that awaits a force-destroyed child waits
  for ever. Both happen (`ForcedAfterReturnHappens`, `ForcedChildStrandsParent`), and `Reclaimed` and `ForcedReclaimed`
  say that there is no other way for a frame to stay.
* A rebase keeps an uncrossed best ask exactly when it is fewer than `depth - depth / 2` ticks above the best bid.
* A trade inside one of the two tolerance bands does not conserve worth. `TradeConserves` states exactly which trades do.
* A direct write that fails loses its bytes (core/system_io/system_io_object.cpp:47); the contract of `Write` says so.
* The queue's size counter is no bound at any moment: it can lag behind (`SizeCounter`) and even fall below zero
  (`SizeFallsBelowZero`).
* The WebSocket parser throws exactly on a frame whose header size and payload length add up to 2^64 or more
  (`TooLargeExactly`, `ThrowsExactly`), and then the frames found in the same call are lost (`FrameIsLost`). So the split
  of the input into calls matters exactly when such a frame comes behind another one (`SplitsAgreeExactly`).
* A malformed chunk size ends one parse of an HTTP response, but the next read goes on behind it, so a response can come
  out of two reads that does not come out of one (`MalformedChunkSplits`). It is never the other way round
  (`NoSplitLosesAResponse`).

## Model

| member | source | states |
|---|---|---|
| MpscQueue.StepKeepsInv | core/queue/mpsc_queue.h:95-174 | every atomic step of push, signal, drain and pop keeps the invariant: each slot's sequence says which position it serves and whether that one is published, and a claimed slot belongs to the thread that won it |
| MpscQueue.RunKeepsInv | core/queue/mpsc_queue.h:74-174 | the invariant holds in every state of every interleaving that starts from the constructed queue, whether the consumer polls or waits for a signal |
| MpscQueue.RefinesBoundedFifo | core/queue/mpsc_queue.h:95-174 | seen from outside, each atomic step is one enqueue, one dequeue or nothing on a first-in first-out queue that never holds more than Size items |
| MpscQueue.PopsArePrefixOfClaims | core/queue/mpsc_queue.h:110-174 | popped values are a prefix of the pushed values in claim order, at every moment: none lost, duplicated or reordered |
| MpscQueue.TakesClaimedValue | core/queue/mpsc_queue.h:153-170 | a pop that saw the tail slot published finds there the very value whose push won that position |
| MpscQueue.SlotsAreExclusive | core/queue/mpsc_queue.h:121-172 | two producers never hold the same slot, and no producer holds the one the consumer reads or clears |
| MpscQueue.ClaimHasRoom | core/queue/mpsc_queue.h:119-127 | a producer about to win a position has a free slot for it |
| MpscQueue.FullIsFull | core/queue/mpsc_queue.h:114-139 | the sequence a push is about to load is below its position if and only if that position is the head and all Size positions are claimed and unfreed |
| MpscQueue.EmptyIsUnpublished | core/queue/mpsc_queue.h:153-173 | at the load of the sequence, pop is about to return null if and only if the tail position is unclaimed or its producer is still writing |
| MpscQueueCalls.PushDecides | core/queue/mpsc_queue.h:114-143 | after its load of the sequence a push is about to throw if and only if the queue was full at its position, to start over if and only if that position was published or freed already, and to compete for it otherwise |
| MpscQueueCalls.ThrowMeansFull | core/queue/mpsc_queue.h:136-139 | a push that throws has loaded its sequence at a moment when every position was claimed and unfreed |
| MpscQueueCalls.PushesOnceOrThrows | core/queue/mpsc_queue.h:95-148 | a push that is over has thrown and won no position, or has returned and won exactly one, for the item it pushed |
| MpscQueueCalls.PushFinishesAlone | core/queue/mpsc_queue.h:110-148 | from any point of any run a push ends within eight steps of its own thread, whatever the other threads have left unfinished |
| MpscQueueCalls.NoThreadIsStuck | core/queue/mpsc_queue.h:95-174 | in every reachable state every producer and the consumer have a step to take |
| MpscQueueCalls.PopDecides | core/queue/mpsc_queue.h:153-173 | after its load of the sequence a pop is about to take an item if and only if the tail position is claimed and no longer being written, and to return null otherwise |
| MpscQueueCalls.PopReturnsWhatItTook | core/queue/mpsc_queue.h:161-170 | the item a pop holds until it returns is the last one taken |
| MpscQueueCalls.FreeSlotsHoldNothing | core/queue/mpsc_queue.h:161-166 | a slot that no push has claimed holds no item |
| MpscQueueCalls.SignalsCounted | core/coroutine/epoll_base.cpp:38-53 | the eventfd counter is the number of signals sent since it was last read |
| MpscQueue.SizeCounter | core/queue/mpsc_queue.h:132-168 | the size counter is head minus tail, less the pushes not yet counted, plus the pop not yet counted; with none of these it is exact |
| MpscQueueRuns.SizeFallsBelowZero | core/queue/mpsc_queue.h:130-168 | for any two items there is a run of a queue of two slots on which both are popped before the second is counted, and the size is -1 |
| MpscQueue.NoLostWakeUp | core/coroutine/epoll_base.cpp:38-71 | while the consumer waits and the tail slot is published, the eventfd counter is positive or a producer has published and not yet signalled |
| MpscQueue.SleepsOnlyWhenDrained | core/coroutine/epoll_base.h:159-181 | once every push has signalled and the consumer waits with the counter at zero, everything pushed was popped and the counters are zero |
| Coroutine.StepKeepsInv | core/coroutine/task_info_event.cpp:14-59 | every step of a task, a future, an owner or an event loop keeps the lifecycle invariant that ties promise flags, queued events, awaited futures and children together |
| CoroutineRuns.RunKeepsInv | core/coroutine/event_base.cpp:10-28 | the lifecycle invariant holds in every state of every interleaving |
| CoroutineRuns.EventsReachLiveFrames | core/coroutine/task_info_event.cpp:14-59 | no event is ever queued or handled for a destroyed frame |
| CoroutineRuns.ResumedParentReadsChild | core/coroutine/task.h:104-116 | a parent resumed after awaiting a child whose task is still held finds the child returned and its frame alive |
| CoroutineEvents.StartedTaskStays | core/coroutine/base_task.h:74-87 | a task started on a base is bound to it for the rest of the run: its events wait there, and only that thread runs it |
| CoroutineEvents.AwaitedChildStays | core/coroutine/base_task.h:89-102 | a child that is awaited is bound to its parent's base in the same way, and the parent awaits it |
| CoroutineEvents.EventsAreFifo | core/coroutine/event_base.cpp:10-28 | each step appends to the queue of a base exactly the event it causes there, or takes the first one off it; which events have which causes is stated |
| CoroutineEvents.ResumedWhenReady | core/coroutine/task_info_event.cpp:28-41 | a body is resumed exactly by its RUN and by a SET_SUSPEND_VALUE of an unforced frame, whose future has then been set or whose child has returned |
| CoroutineEvents.OwnersMove | core/coroutine/base_task.cpp:3-30 | a task handle changes hands exactly when it is moved, let go or force-destroyed, or when the frame that holds it is destroyed |
| CoroutineEvents.DestroyedExactly | core/coroutine/task_info_event.cpp:53-58 | a frame is destroyed exactly when an unstarted task is let go, an awaiter is removed from a frame that does not wait, a forced frame's wait is over, or a frame ends without awaiter |
| CoroutineEvents.FlagsMove | core/coroutine/base_task.cpp:22-30 | a frame becomes forced exactly by destroy on its started task, and returned exactly by its own body |
| CoroutineRuns.DestroyedOnceAndUnreferenced | core/coroutine/task_info_event.cpp:53-58 | a destroyed frame was destroyed once, and no event, running body, future, unfinished child or task handle, which destroying does not touch, reaches it; so none is destroyed while what it awaits is unresolved |
| CoroutineRuns.DestroyedForGood | core/coroutine/task_info_event.cpp:53-58 | a frame destroyed once stays at exactly one destruction for the rest of the run |
| CoroutineRuns.ForcedFrameDiesUnresumed | core/coroutine/task_info_event.cpp:30-40 | a suspended force-destroyed frame never runs its body again, and its next SET_SUSPEND_VALUE destroys it |
| CoroutineRuns.ForcedAfterReturnStays | core/coroutine/base_task.cpp:22-30 | a frame that is force-destroyed and has returned is never freed, in any continuation |
| CoroutineRuns.ForcedAfterReturnHappens | core/coroutine/base_task.cpp:22-30 | such a frame exists: a run reaches a state with nothing left to happen and a live frame that has returned and was force-destroyed |
| CoroutineRuns.GuardsNeverBlock | core/coroutine/base_task.cpp:3-20 | in every reachable state each outstanding future can be set, each held task released and each waiting event handled |
| CoroutineRuns.WaitsForForced | core/coroutine/base_task.h:89-102 | with nothing left to happen, a frame still suspended has a force-destroyed frame at the end of its await chain; await chains are acyclic |
| CoroutineRuns.Reclaimed | core/coroutine/base_task.cpp:3-20 | with no event and no future outstanding, a started or awaited frame let go through check_release has been destroyed exactly once, if and only if no force-destroyed frame ends its await chain |
| CoroutineRuns.ForcedReclaimed | core/coroutine/task_info_event.cpp:30-40 | with no event and no future outstanding, a force-destroyed frame has been destroyed exactly once, if and only if it had not returned and no other force-destroyed frame ends its await chain; otherwise it has not been destroyed |
| CoroutineRuns.ForcedChildStrandsParent | core/coroutine/base_task.h:89-102 | a run reaches a state with nothing left to happen in which a released, unforced frame is still alive because its child was force-destroyed |
| OrderBookSides.OrderBookSide.SetLevel | server_app/order_book/order_book_side.h:108-137 | a write at a price inside the window sets or removes exactly that level, one outside changes nothing; bitmap and cached top stay right |
| OrderBookSides.OrderBookSide.Clear | server_app/order_book/order_book_side.h:48-53 | from any shape the side becomes empty and consistent, at the same base |
| OrderBookSides.OrderBookSide.RebuildBidTopFromBitmap | server_app/order_book/order_book_side.h:288-313 | the word scan from the top finds the highest positive level, or none when there is none |
| OrderBookSides.OrderBookSide.RebuildAskTopFromBitmap | server_app/order_book/order_book_side.h:315-339 | the word scan from the bottom finds the lowest positive level, or none when there is none |
| OrderBookSides.OrderBookSide.MoveToNewBasePrice | server_app/order_book/order_book_side.h:219-242 | the side at the new base holds the same prices with the same quantities, restricted to the new window |
| OrderBookSides.OrderBookSide.GetQuantity | server_app/order_book/order_book_side.h:139-149 | the quantity at a price is the level's, and not positive where there is no level |
| OrderBookSides.OrderBookSide.IndexedLevel | server_app/order_book/order_book_side.h:55-75 | index and price convert into each other: an array element is positive exactly when its price is a level |
| OrderBookSides.OrderBookSide.TopIsBest | server_app/order_book/order_book_side.h:183-211 | the cached top exists exactly when the side has a level, and is then the best price with its quantity |
| OrderBookSides.BitmapSet | server_app/order_book/order_book_side.h:260-266 | setting one bit keeps "bit set if and only if level positive", with no bit beyond the depth |
| OrderBookSides.BitmapCleared | server_app/order_book/order_book_side.h:268-274 | clearing one bit keeps it too |
| OrderBookSides.HighestInWord | server_app/order_book/order_book_side.h:302-311 | the highest set bit of a non-zero word is a positive level, and none above it lies in this word or below |
| OrderBookSides.LowestInWord | server_app/order_book/order_book_side.h:328-337 | the lowest set bit of a non-zero word is a positive level, and none below it lies in this word or above |
| OrderBooks.OrderBook.ApplySnapshot | server_app/order_book/order_book.h:66-81 | each side becomes exactly the last positive quantity its list gives for each price of the window, whatever the book held, and then the book rebases if that is due |
| OrderBooks.OrderBook.ApplyUpdate | server_app/order_book/order_book.h:83-108 | an update writes one level, a removal writes zero, and then the book rebases if that is due |
| OrderBooks.OrderBook.ShouldRebase | server_app/order_book/order_book.h:158-174 | a rebase is due exactly when both sides have a best price and one of the two is within the delta of the window's edge |
| OrderBooks.OrderBook.MaybeRebase | server_app/order_book/order_book.h:176-190 | when due, both sides move to the best bid as their new base; otherwise nothing changes |
| OrderBooks.OrderBook.GetOrderBookSnapshot | server_app/order_book/order_book.h:298-351 | the snapshot lists the best levels of each side in order, as many as asked for or as there are |
| OrderBooks.OrderBookSnapShot.AddBid | server_app/order_book/order_book_snapshot.h:51-60 | a level is appended while there is room, and otherwise dropped |
| OrderBooks.RebaseKeeps | server_app/order_book/order_book.h:158-190 | a rebase keeps every level inside the new window at its price and quantity and nothing else, always keeps the best bid, and keeps an uncrossed best ask if and only if ask minus bid is below depth minus half the depth |
| OrderBooks.SnapshotReplaces | server_app/order_book/order_book.h:66-78 | whatever the book held, after the writes of a snapshot each side holds q at p if and only if p is in the window, q is positive, and q is the last quantity that side's list gives for p |
| OrderBooks.ChangeSets | server_app/order_book/order_book.h:83-108 | an update sets or removes one level on one side inside the window, and changes nothing else |
| OrderBooks.RebaseIsDue | server_app/order_book/order_book.h:158-174 | a rebase is due if and only if both sides have levels and the highest bid or lowest ask is in the window with a price outside it at most delta and one tick away |
| OrderBooks.RebaseResult | server_app/order_book/order_book.h:176-190 | when due the highest bid becomes the base and exactly the levels in the window around it stay, otherwise nothing changes |
| OrderBooks.PlainMapIsLastWritten | server_app/order_book/order_book.h:60-296 | the plain map of a run of calls holds a quantity at a price if and only if it is what the calls last wrote there: by an update, or by the last entry of a snapshot |
| OrderBooks.PlainMapIsWritten | server_app/order_book/order_book.h:66-190 | the rebases of a run leave no trace in the plain map: it is what the calls themselves wrote |
| OrderBooks.RebaseTwice | server_app/order_book/order_book.h:176-190 | rebasing a second time changes nothing |
| OrderBooks.RunWellFormed | server_app/order_book/order_book.h:66-108 | at every point of every run each level is positive and inside the window |
| OrderBooks.NoPhantomLevels | server_app/order_book/order_book.h:66-190 | over any run of resets, writes and rebases the book holds a quantity at a price if and only if a plain price-to-quantity map holds it and the price has stayed inside the window since its last write |
| OrderBooks.SnapshotReproducesSide | server_app/order_book/order_book.h:66-78 | a listing that has room for every level, applied to an empty book with that window, gives the side back |
| OrderBooks.RunCommands | server_app/order_book/order_book.h:60-296 | after any run of snapshots, updates, rebases, resets and changes of the rebase delta the book object is in the state the run's operations describe |
| OrderBooks.BookAfter | server_app/order_book/order_book.h:60-296 | a new book object taken through any of the calls that change it holds a quantity at a price if and only if it is what the calls last wrote there and the price has stayed inside the window since |
| JsonScan.HangsExactlyWhenStuck | core/json/json_parse.cpp:40-289 | the parser does not return if and only if a scan of the text, keeping a position and the open brackets and moved only by the scanners and number conversions, comes to a closing brace where the loop of an array starts a round |
| JsonText.HangsExactlyWhenNoStepsSuffice | core/json/json_parse.cpp:40-289 | the parse functions report a hang if and only if no number of steps of the plain code suffices; whenever the plain code finishes it gives what they say |
| JsonText.RunArray | core/json/json_parse.cpp:131-160 | the array loop, run for bounded steps, gives the parse function's result whenever it finishes, finishes unless a hang is reported, and never finishes at a closing brace |
| JsonText.RunObject | core/json/json_parse.cpp:90-129 | the object loop, run for bounded steps, gives the parse function's result whenever it finishes, and finishes unless a hang is reported |
| JsonText.BraceAfterBracketHangs | core/json/json_parse.cpp:136-156 | every text whose first bracket is "[" with "}" directly after it makes the parser hang |
| JsonExact.RoundTripsExactly | core/json/json_object.h:163-191 | parsing any printed document gives its value if and only if it is null or a container with no empty container, balanced strings, and keys without quotes or nulls that are not a lone brace |
| JsonExact.BraceKeysNeverReturn | core/json/json_parse.cpp:90-129 | a printed document with a lone brace among otherwise clean keys never comes back, whatever the rest of the text is cut into |
| JsonRoundTrip.WrittenRoundTrip | core/json/json_parse.cpp:40-397 | a readable array or object written in a text, with blanks between its tokens, no bracket before it and anything after it, is parsed to its value |
| JsonRoundTrip.RoundTrip | core/json/json_parse.cpp:40-397 | parsing a printed readable array or object gives its value, under any key order and with null characters in strings; in particular the parser returns |
| JsonRoundTrip.PrintLaid | core/json/json_object.h:163-191 | printed text is well-formed JSON: brackets, quoted keys, colons, commas and scalars in their places, without blanks |
| JsonLimits.PrintedObject | core/json/json_object.h:163-191 | the text of a concrete object |
| JsonLimits.CutShortIsNull | core/json/json_parse.cpp:40-289 | a readable array or object cut short at any point before its end is parsed to null, never to a part of it |
| JsonLimits.LaterTextIsIgnored | core/json/json_parse.cpp:40-289 | a text that gives something other than null gives the same whatever is appended to it |
| JsonLimits.RepeatedKeysRead | core/json/json_parse.cpp:90-129 | of an object whose keys repeat, the last value of each key is read |
| JsonLimits.EmptyContainerIsNull | core/json/json_parse.cpp:90-160 | an array or object that is closed at once is parsed to null |
| JsonLimits.ValueStarts | core/json/json_parse.cpp:200-230 | a value starts at a quote, an opening bracket, a digit, a minus sign or a whole word; everything else is skipped |
| JsonLimits.DecimalReads | core/json/json_parse.cpp:328-397 | a number with a dot is read as the library reads its whole text as a double, and refused where the library refuses it |
| JsonLimits.TooLargeIsRefused | core/json/json_parse.cpp:369-381 | an integer outside 64 bits makes the text unreadable |
| JsonDocs.AnyKeyOrder | core/json/json_object.h:180-188 | documents that differ only in the order of an object's fields stand for the same value |
| JsonExact.DocExists | core/json/json_object.h:163-191 | every value without doubles has a document, so the round trip speaks of every such value |
| JsonExact.ParseProduces | core/json/json_parse.cpp:90-160 | whatever the text, a parsed value is null or a non-empty container whose strings are balanced, integers fit 64 bits and keys hold no quote or null |
| JsonExact.ProducedIsTidy | core/json/json_object.h:163-191 | a document whose value the parser could have produced has no empty container, balanced strings and clean keys |
| JsonRoundTrip.ValueReads | core/json/json_parse.cpp:200-289 | a readable document written anywhere in a text with blanks between its tokens, followed by blanks and a separator, is read as its value up to that separator |
| JsonRoundTrip.IntRead | core/json/json_parse.cpp:369-381 | every 64-bit integer survives printing and reading |
| JsonRoundTrip.StringRead | core/json/json_parse.cpp:291-326 | the scan for the end of a balanced string stops at its own closing quote |
| JsonRoundTrip.KeyRead | core/json/json_parse.cpp:162-198 | a quoted key without quotes or nulls that is not a lone brace is read back, up to its colon |
| JsonParser.JsonParseNew.ParseText | core/json/json_parse.cpp:40-77 | on every text on which the scan does not get stuck it returns what the text means, and null for text it cannot read |
| JsonParser.JsonParseNew.ParseValue | core/json/json_parse.cpp:200-289 | value, position and validity flag are those of the parse function |
| JsonParser.JsonParseNew.ParseArray | core/json/json_parse.cpp:131-160 | the array loop builds the items in order and leaves the position and flag the parse function gives |
| JsonParser.JsonParseNew.ParseObject | core/json/json_parse.cpp:90-129 | the object loop builds the fields, later ones winning, and leaves the position and flag the parse function gives |
| JsonParser.JsonParseNew.ParseKey | core/json/json_parse.cpp:162-198 | key, position and flag of the key scanner |
| JsonParser.JsonParseNew.ParseValueString | core/json/json_parse.cpp:291-326 | the string up to the first quote that no backslash escapes |
| JsonParser.JsonParseNew.ParseValueNumber | core/json/json_parse.cpp:328-397 | an integer or, with a dot, a double, from the longest run of number characters |
| JsonParser.JsonObject.SetItem | core/json/json_object.h:50-59 | writing an index makes the container an array and grows it with nulls |
| JsonParser.WriteStringValue | core/json/json_object.h:163-191 | the printing loops append exactly the printed document |
| JsonParser.PrintThenParse | core/json/json.h:286-294 | printing a readable array or object and parsing the text gives back its value |
| WebSocket.RoundTrip | core/network/https_client_websocket/websocket_frame_builder.cpp:33-83 | for every opcode, fin flag, mask key and payload, parsing the built frame followed by any bytes returns that frame and consumes exactly its bytes (sections 5.2 and 5.3 of RFC 6455) |
| WebSocketWire.ParsesExactlyTheWireFormat | core/network/https_client_websocket/websocket_frame_parser.cpp:80-170 | the parser finds a frame if and only if the bytes start with it in the wire format of section 5.2 of RFC 6455, stated bit by bit with the three length forms |
| WebSocketWire.BuildsTheWireFormat | core/network/https_client_websocket/websocket_frame_builder.cpp:33-83 | a built frame is in that format, with the shortest length form that fits and the given key |
| WebSocketWire.EveryPrefixNeedsMore | core/network/https_client_websocket/websocket_frame_parser.cpp:80-170 | no proper prefix of a frame is parsed |
| WebSocketWire.Examples | core/network/https_client_websocket/websocket_frame_builder.cpp:33-83 | the examples of section 5.7 of RFC 6455, byte by byte |
| WebSocket.LengthComesBack | core/network/https_client_websocket/websocket_frame_builder.cpp:159-181 | in all three encodings the length and the mask bit come back |
| WebSocket.MaskTwice | core/network/https_client_websocket/websocket_frame_builder.cpp:193-204 | unmasking undoes masking |
| WebSocket.StreamRoundTrip | core/network/https_client_websocket/websocket_frame_parser.cpp:38-51 | a stream of built frames parses into exactly those frames, with nothing left |
| WebSocket.SplitParse | core/network/https_client_websocket/websocket_frame_parser.cpp:80-170 | parsing what has arrived and then the rest finds the frames that parsing everything at once finds, also when the parser throws |
| WebSocket.TooLargeExactly | core/network/https_client_websocket/websocket_frame_parser.cpp:80-152 | one frame makes the parser throw if and only if its header is complete and header size plus payload length do not fit 64 bits |
| WebSocket.ThrowsExactly | core/network/https_client_websocket/websocket_frame_parser.cpp:38-152 | parsing a stream throws if and only if at some frame boundary the size of a frame does not fit 64 bits |
| WebSocket.SplitsAgreeExactly | core/network/https_client_websocket/websocket_frame_parser.cpp:28-72 | all splits of a stream into feeds and parse calls return the same frames if and only if every size fits 64 bits or the first one already does not |
| WebSocket.FrameIsLost | core/network/https_client_websocket/websocket_frame_parser.cpp:38-51 | a concrete stream of twelve bytes on which one call returns nothing and two calls return a frame |
| WebSocket.ClearStreamSplitsAnywhere | core/network/https_client_websocket/websocket_frame_parser.cpp:28-72 | for every stream whose 64-bit lengths have a clear top bit, and every run of feeds and parse calls, nothing throws and the concatenated frames are those of the one-shot parse |
| WebSocket.AnySplitFindsTheSameFrames | core/network/https_client_websocket/websocket_frame_parser.cpp:28-72 | the same for every stream whose sizes fit 64 bits at every frame boundary |
| WebSocket.BuiltFramesSurviveAnySplit | core/network/https_client_websocket/websocket_frame_parser.cpp:28-72 | however a stream of built frames is split into feeds and parse calls, the calls return exactly those frames, with nothing left |
| WebSocket.Replay | core/network/https_client_websocket/websocket_frame_parser.cpp:28-72 | a parser object taken through any run of calls returns the frames, keeps the bytes and throws as these theorems say of the run |
| WebSocket.TopBitsClearFits | core/network/https_client_websocket/websocket_frame_parser.cpp:115-148 | on a stream whose 64-bit lengths have a clear top bit all sizes fit |
| WebSocket.OversizedNeedsTopBit | core/network/https_client_websocket/websocket_frame_parser.cpp:115-148 | a size that does not fit comes from a 64-bit length with its top bit set, which section 5.2 of RFC 6455 forbids |
| WebSocket.BuildFrame | core/network/https_client_websocket/websocket_frame_builder.cpp:33-83 | refuses exactly fragmented control frames and control payloads over 125 bytes, and otherwise gives the encoded frame |
| WebSocket.ApplyMask | core/network/https_client_websocket/websocket_frame_builder.cpp:193-204 | the masking loop computes the masked payload |
| WebSocket.WebSocketFrameParser.Feed | core/network/https_client_websocket/websocket_frame_parser.cpp:28-36 | fed bytes are appended to the unparsed ones |
| WebSocket.WebSocketFrameParser.ParseFrames | core/network/https_client_websocket/websocket_frame_parser.cpp:38-72 | returns every complete frame of the unparsed bytes, or none when it throws, and leaves exactly the rest |
| WebSocket.WebSocketFrameParser.Compact | core/network/https_client_websocket/websocket_frame_parser.cpp:53-69 | compaction never changes the unparsed bytes |
| WebSocket.WebSocketFrameParser.TryParseOneFrame | core/network/https_client_websocket/websocket_frame_parser.cpp:80-170 | one frame, or none when bytes are missing, and the offset moves past exactly that frame |
| HttpResponses.SplitRun | core/network/https_client_request/https_client_response_parser.cpp:13-104 | parsing what has arrived and then the rest gives what parsing everything at once gives |
| HttpResponses.AnySplitYieldsTheSameResponses | core/network/https_client_request/https_client_response_parser.cpp:3-104 | for every text without a malformed chunk, any split into reads yields the same responses, state and leftover |
| HttpResponses.NoSplitLosesAResponse | core/network/https_client_request/https_client_response_parser.cpp:3-104 | on every text, malformed chunks or not, the responses of a single read are a prefix of those of any split |
| HttpResponses.MalformedChunkSplits | core/network/https_client_request/https_client_chunk_parser.cpp:8-33 | a concrete text with a malformed size line that gives no response in one read and one in two reads |
| HttpResponses.ChunksDecode | core/network/https_client_request/https_client_chunk_parser.cpp:8-70 | chunks decode to their data for every chunking, digit case, blank and extension (section 4.1 of RFC 7230) |
| HttpResponses.TrailerEnds | core/network/https_client_request/https_client_chunk_parser.cpp:71-99 | any trailer ends the response, and not a byte of the next one is touched |
| HttpResponses.ReadsSizeLine | core/network/https_client_request/https_client_chunk_parser.cpp:20-33 | a size line with blanks and an extension gives the number its digits spell |
| HttpResponses.ReadsHex | core/network/https_client_request/https_client_chunk_parser.cpp:113-129 | hexadecimal digits whose value fits 64 bits are read as that value |
| HttpResponses.BlankLineEnd | core/network/https_client_request/https_client_response_parser.cpp:22-37 | the blank-line search stops right after the header or trailer lines, never inside them |
| HttpResponses.MessageDecodes | core/network/https_client_request/https_client_response_parser.cpp:19-99 | a well-formed message followed by anything gives one response with its header and payload, and then what the rest gives |
| HttpResponses.StreamDecodes | core/network/https_client_request/https_client_response_parser.cpp:13-104 | a pipelined stream of well-formed messages gives exactly their responses, with nothing left over |
| HttpLimits.PrefixDecodes | core/network/https_client_request/https_client_response_parser.cpp:13-104 | a pipelined stream cut short gives exactly the responses of its complete messages, and no error |
| HttpLimits.UnreadableHeaderBlocks | core/network/https_client_request/https_client_response_parser.cpp:22-37 | behind a header block that cannot be read nothing is consumed and no response comes out, whatever follows |
| HttpLimits.MalformedSizeLine | core/network/https_client_request/https_client_chunk_parser.cpp:20-33 | a size line is malformed if and only if without extension and blanks it is empty or holds a character that is no hexadecimal digit |
| HttpLimits.DigitIs | core/network/https_client_request/https_client_chunk_parser.cpp:113-129 | the digits 0 to 9 and a to f, in either case, have the values 0 to 15 |
| HttpLimits.HexDigits | core/network/https_client_request/https_client_chunk_parser.cpp:113-129 | nothing else is a digit |
| HttpLimits.BlanksAreTrimmed | core/network/https_client_request/https_client_chunk_parser.cpp:20-33 | blanks around the digits of a size line are spaces and tabs: a concrete line |
| HttpLimits.SizeLineRefused | core/network/https_client_request/https_client_chunk_parser.cpp:8-33 | a malformed size line ends the parse right behind it and changes nothing else |
| HttpLimits.DataEndRefused | core/network/https_client_request/https_client_chunk_parser.cpp:57-70 | chunk data without a line break behind it stops the parser for good, whatever text follows |
| HttpLimits.ReadsHexModulo | core/network/https_client_request/https_client_chunk_parser.cpp:113-129 | any hexadecimal digits are read as their value modulo 2^64 |
| HttpResponses.PipelineSurvivesAnySplit | core/network/https_client_request/https_client_response_parser.cpp:3-104 | however a well-formed pipelined stream is split into reads, its responses come out the same |
| HttpResponses.HttpsClientResponseParser.ParseAll | core/network/https_client_request/https_client_response_parser.cpp:13-104 | returns every response the buffered bytes complete, and keeps exactly the bytes and state they leave |
| HttpResponses.HttpsClientResponseParser.ParseChunkedBody | core/network/https_client_request/https_client_chunk_parser.cpp:8-105 | runs until the body is complete, bytes are missing or a chunk is malformed, and says which |
| HttpResponses.HttpsClientResponseParser.ReadHexSize | core/network/https_client_request/https_client_chunk_parser.cpp:113-129 | the digit loop gives the size, shifted out of 64 bits where too long, or refuses a character that is no digit |
| HttpResponses.HttpsClientResponseParser.ResetState | core/network/https_client_request/https_client_response_parser.cpp:106-115 | the state is that of a new parser, the buffer untouched |
| HttpResponses.ReceiveAll | core/network/https_client_request/https_client_response_parser.cpp:3-104 | appending and parsing read by read returns the responses of all reads, going on after a malformed chunk where the last parse stopped |
| WriteQueues.SystemIOObject.Write | core/system_io/system_io_object.cpp:5-48 | bytes sent followed by bytes pending grow by exactly the data, in order, unless a direct write fails, which loses it; write interest is on exactly while bytes are pending |
| WriteQueues.SystemIOObject.CheckToWrite | core/system_io/system_io_object.cpp:50-85 | draining sends a prefix of the pending bytes and keeps the rest, so that sent followed by pending is unchanged, and reports only transport failures |
| WriteQueues.Serve | core/system_io/system_io_object.cpp:5-85 | over the whole life of a connection, bytes sent followed by bytes pending are the data of all writes in order, except of those that met a failing transport |
| WriteQueues.DrainConserves | core/system_io/system_io_object.cpp:52-80 | what a drain leaves is what was pending without the bytes it sent |
| WriteQueues.DrainStopsOnlyWhenFull | core/system_io/system_io_object.cpp:52-80 | draining goes on exactly while the transport takes all it is offered, and where it stops the transport failed or took less, by which the offset moves |
| LatencyHistogram.BucketsPartition | core/metric/latency_stat.h:44-100 | the buckets are a monotone partition: a value's bucket is at most i if and only if the value is at most i's upper bound |
| LatencyHistogram.InOwnBucket | core/metric/latency_stat.h:44-70 | a value lies between the bounds of its own bucket, which is one of the 496 for every 64-bit value |
| LatencyHistogram.BucketShape | core/metric/latency_stat.h:72-100 | the reported bound is the last value of the bucket, and it is at most an eighth above the bucket's first value |
| LatencyHistogram.EightBuckets | core/metric/latency_stat.h:44-100 | every power of two from 8 on is split into eight equal buckets, with the index and the upper bound of each |
| LatencyHistogram.SmallValuesAreExact | core/metric/latency_stat.h:44-85 | values below 8 have a bucket each |
| LatencyHistogram.PercentileBound | core/metric/latency_stat.h:127-166 | the bucket where the counts reach rank k reports v with q <= v and 8 * (v - q) <= q for the k-th smallest sample q |
| LatencyHistogram.AllInTheBuckets | core/metric/latency_stat.h:102-107 | the bucket counts add up to the number of samples |
| LatencyHistogram.RankExists | core/metric/latency_stat.h:150-163 | every rank from 1 to the number of samples has a sample |
| LatencyHistogram.LatencyStats.Record | core/metric/latency_stat.h:102-125 | a record adds one sample to the histogram, and total, count and maximum follow |
| LatencyHistogram.LatencyStats.Percentile | core/metric/latency_stat.h:127-166 | the percentile is 0 without samples or for p outside (0, 1]; otherwise at least the share p of the samples is at most v, less than that share lies below v's bucket, and v is at most an eighth above the smallest sample that has the share p at or below it |
| ProfitAndLoss.PnL.UpdateTrade | server_app/pnl/pnl.cpp:59-101 | outside the tolerance, what a trade closes is realized at its price less the fee, an increase realizes nothing and averages its price and fee in, a reduction keeps the average price, a reversal starts at the trade's price, and a full close leaves no volume and no price; gains and losses are booked apart and the mark to market stays right |
| ProfitAndLoss.BooksIt | server_app/pnl/pnl.cpp:59-101 | the same of the positions over which the runs of trades are stated |
| ProfitAndLoss.PnL.UpdateCurrentPrice | server_app/pnl/pnl.cpp:53-57 | a price marks the open position and leaves the account as it is |
| ProfitAndLoss.PnL.UpdateRealizedProfitLoss | server_app/pnl/pnl.cpp:39-51 | the realized amount grows by the value, which is booked as a gain or as a loss |
| ProfitAndLoss.TradeConserves | server_app/pnl/pnl.cpp:59-101 | a trade adds exactly its own worth at every mark price if and only if it is outside the tolerance bands |
| ProfitAndLoss.DriftIs | server_app/pnl/pnl.cpp:61-73 | by how much a trade inside a tolerance band fails to conserve worth |
| ProfitAndLoss.WorthIsConserved | server_app/pnl/pnl.cpp:39-101 | over any run of trades outside the bands, realized plus volume times (mark minus average price) is the cash of the trades plus their volume at the mark |
| ProfitAndLoss.VolumeIsTotal | server_app/pnl/pnl.cpp:59-101 | after such a run the position is the sum of the traded volumes |
| ProfitAndLoss.RecordTrades | server_app/pnl/pnl.cpp:59-101 | recording trades one by one takes the account object through such a run |
| CachePools.SingleThreadCachePool.Acquire | core/cache/single_thread_cache_pool.h:87-114 | hands out the object that has been free longest and starts its next generation, or refuses when none is free |
| CachePools.SingleThreadCachePool.Release | core/cache/single_thread_cache_pool.h:116-147 | puts an active object behind the other free ones, and refuses an inactive one |
| CachePools.SingleThreadCachePool.CheckActive | core/cache/single_thread_cache_pool.h:161-171 | an id is active exactly when its object is, in the same generation |
| CachePools.RunKeepsPoolOk | core/cache/single_thread_cache_pool.h:74-147 | over any run from the constructed pool the free ring lists exactly the inactive objects, each once |
| CachePools.ActiveUntilReleased | core/cache/single_thread_cache_pool.h:116-171 | an active id stays active exactly until its object is released, and never becomes active again |
| CachePools.IdIsActiveOnlyInItsSpan | core/cache/single_thread_cache_pool.h:87-171 | the id an acquire hands out is active exactly after that acquire and before the next release of its object |
| CachePools.IdsDiffer | core/cache/single_thread_cache_pool.h:87-114 | no two acquires of a run hand out the same id |
| CachePools.OldestFirst | core/cache/single_thread_cache_pool.h:87-147 | over any run an acquire activates the inactive object that was released before all the others, and is refused exactly when none is inactive |
| CachePools.GenerationCounts | core/cache/single_thread_cache_pool.h:87-114 | the generation of an object is the number of times it has been handed out |
| CachePools.Replay | core/cache/single_thread_cache_pool.h:74-171 | a pool object taken through any acquires and releases hands out different ids, and at the end each is active exactly when its object has not been released since |
| CachePools.RingPop | core/cache/single_thread_cache_pool.h:95-103 | advancing the head with wrap-around takes the first element off the ring |
| CachePools.RingPush | core/cache/single_thread_cache_pool.h:129-144 | writing at the tail with wrap-around appends to the ring |

## Left out

- Queue and coroutine objects: the ring, the frames and the event loops are values in a transition system, so that interleavings can be quantified over; update in place and aliasing are not captured, and C++ memory orders are read as sequentially consistent.
- Queue positions: they are unbounded; the wrap of 64-bit positions and the signed reading of their difference are not modelled, nor is a push of a null pointer, which throws before anything happens.
- Queue wake-up: the write to the eventfd is assumed to succeed, and a push by the consumer thread itself counts as one by a producer thread.
- Coroutine assumptions: a task is started once or awaited once, never both, and the event queue does not overflow; the bodies themselves, the values futures and tasks carry, and the standard-library future of a task are left out.
- Coroutine futures: a future with no function to execute (core/coroutine/future.h:146) hands out nothing that could set it, so a frame awaiting it never resumes; every future here has one.
- Coroutine steps: suspending and the test at the end of an event are one step, because that test reads only what its own thread writes.
- Coroutine destroy: `FORCE_DESTROY` events are never enqueued by the code (core/coroutine/base_task.cpp:26-27), so they are not modelled.
- Order book prices: they are ticks on the grid of the base; rounding of prices off the grid and the casts of negative indices to unsigned ones are left out, and so are the instrument, trace ids, spread and mid price.
- Order book snapshots: listings of more than 200 levels are left out, because the level vectors have that fixed length; the snapshot pool is a parameter.
- JSON numbers: printing doubles and unsigned 64-bit integers is left out, and reading a double is a parameter; text may hold them and the parser's handling of it is modelled.
- JsonParser.JsonParseNew.ParseText: a method here must end, so it requires a text on which the scan does not get stuck; HangsExactlyWhenStuck says that this excludes exactly the texts on which the code does not return.
- JSON containers: reference counting, pooling, sharing of nested objects and strings printed without quotes are left out; the container object models indexing and the printer works on documents.
- JSON builder: the fixed buffer of the non-growing builder has no bound check and no bound here.
- WebSocket payload pointers: the null payload pointer the builder refuses is left out, and the random mask key is a parameter.
- WebSocket.RoundTrip: payloads within 14 bytes of 2^64, which no vector can hold, are excluded; a parser that would have to allocate such a payload is modelled as throwing.
- HTTP header fields: what a header block says about the body is a function parameter; status line, header map and malformed or negative lengths are left out.
- HTTP objects: the chunk parser works on the response parser's buffer and response by reference, so the two are one object here.
- HTTP chunk errors: how many more responses a split yields after a malformed chunk than a single read is not said.
- WriteQueues.SystemIOObject.Write: a transport result of zero or a non-blocking error other than would-block is a failure; registration with epoll and the handshake are left out; the narrowing of sizes to 32 bits in the transport calls, which matters from 2^31 bytes on, is not modelled.
- Latency recording: records and percentiles are taken one at a time; the rounding of the target rank in double arithmetic, the retry loop of the maximum and the wrap of the 64-bit counters other than the total are left out.
- Profit and loss: arithmetic is exact; rounding, the reset and the JSON report are left out.
- Object pool: the hooks that initialise and refresh values, null and foreign pointers, and the wrap of the generation counter are left out.
- Not modelled: sockets, TLS, database and JWT clients, routing, strategies, order manager, simulator, reports, metrics registration, and the concurrent object pools, whose slot accesses the code does not make exclusive.
