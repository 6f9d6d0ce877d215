# Proofs about the capstone servers

This project models, in Dafny, the completed reference programs of a systems course
and proves what they promise: a matching engine fed through a lock-free ring, and a
key-value server with a write-ahead log, a blocking queue and a thread pool; and the
partitioned sum of the parallelism lab.  `dafny verify dfyconfig.toml` checks all of it.

| files | what they model |
|---|---|
| `RingProtocol`, `RingInvariant`, `RingTheorems` | the multi-producer multi-consumer ring, one atomic step at a time, for any number of threads |
| `RingAnswers` | what each step makes of its own push or pop, and what every answer means |
| `RingSolo`, `IngressQueue` | the same ring as an object, one operation at a time: a bounded first-in first-out queue whose calls are runs of the protocol |
| `FlatBook`, `BookRuns`, `BookSubmits` | the order book as one sorted list per side; its invariants and conservation over runs; what a submission does, said without its loop |
| `LevelBook`, `OrderBook`, `Engine` | price levels, live index, in-place matching, and the engine over symbols, refining the flat book |
| `Protocol`, `Grammar`, `Framing` | command text, the exact grammar of requests, and length-prefixed frames, read through short reads |
| `LogScan`, `Wal`, `Server` | the log file, recovery, the store and request execution, as objects |
| `CommitProtocol`, `CommitInvariant`, `CommitTheorems` | the commit path of any number of workers over whole lifetimes, with failures, kills and power losses at any step |
| `CommitRefinement`, `CommitSessions`, `CommitRequests` | that the objects follow that protocol; what one session leaves behind; what was asked and what is found |
| `QueueProtocol`, `QueueInvariant`, `QueueTheorems`, `QueueMonitor` | the blocking queue with explicit sleeping, woken and notifying threads; its critical sections as an object |
| `PoolProtocol`, `PoolInvariant`, `PoolTheorems`, `PoolSubmits`, `PoolDrain` | the thread pool on that queue: safety, answers to submits, drain, and termination of shutdown |
| `ParallelSum` | the partition of work and its 64-bit arithmetic |

Concurrent code is a transition system: `Enabled` and `Step` say what one thread may do
next, `Runs` chains steps, and `Reachable` states are those some run reaches.  Records
called `History` are auxiliary: what a step does to the rest of the state does not depend on
them, apart from tickets that queue threads carry along, auxiliary too.  A power loss
keeps all synced bytes of the log and any prefix of the others; a kill keeps every byte.
What foreign calls do (short reads and writes, interruptions, errors, finishing orders)
comes in as parameters over which every result is universal.

Four properties do not hold as documented or expected; each is stated with the exact condition:

- A GET may see a value that a later power loss undoes: recovery after a process kill takes
  over a complete frame whose sync never succeeded and does not sync it.  What is visible
  survives every later run if and only if this session did not come up on a clean file with
  unsynced bytes, or has synced since (`CommitTheorems.DurableExactly`); if the process never
  stops with a whole frame written and unsynced that is always so.  Acknowledged mutations survive in
  every case.
- More than one unacknowledged mutation can survive a session, and replies can overtake each
  other, because a worker sends its reply after it has released the mutation mutex.  At most
  one can if and only if no reply is outstanding when the next mutation begins
  (`CommitSessions.AtMostOneExactly`).
- "Then the lowest sequence number" (README.md of the matching engine, line 22) is really
  arrival order.  A run keeps the two in agreement if and only if every order that comes to
  rest has the highest sequence at its price, equals allowed, when it does
  (`BookRuns.PriorityExactly`), as it has when the engine stamps every order.
- The parallel sum equals the serial one for every choice of item values if and only if the
  item count times the worker count is below 2^64 (`ParallelSums.ParallelIsSerialExactly`).  With
  the program's own `mix` it fails on 2^33 items and 2^31 threads
  (`ParallelSums.ChecksumsDiffer`); for that one choice of values the "if" is proved for all
  counts, the "only if" at that input.

## Model

| member | source | states |
|---|---|---|
| RingProtocol.MaskIsRemainder | capstone/matching/solution-reference/include/matching/ingress_queue.hpp:37 | for a power of two n, the bitwise and of a position with n - 1 is the remainder by n |
| RingProtocol.LapApart | capstone/matching/solution-reference/include/matching/ingress_queue.hpp:37-39 | two different positions that share a cell are at least a whole capacity apart |
| RingTheorems.RoundPowerOfTwo | capstone/matching/solution-reference/include/matching/ingress_queue.hpp:78-82 | the loop returns the smallest power of two that is at least 2 and at least the request |
| RingTheorems.NoPowerBetween | capstone/matching/solution-reference/include/matching/ingress_queue.hpp:78-82 | no power of two lies strictly between one and its double, so the doubling loop skips none |
| RingInvariant.InitInv | capstone/matching/solution-reference/include/matching/ingress_queue.hpp:26-29 | the constructed ring satisfies the invariant when its capacity is a power of two and at least 2 |
| RingInvariant.ClaimPushKeeps | capstone/matching/solution-reference/include/matching/ingress_queue.hpp:40-41 | the winning compare-exchange of a push keeps the invariant |
| RingInvariant.EmplaceKeeps | capstone/matching/solution-reference/include/matching/ingress_queue.hpp:42 | storing the item keeps the invariant |
| RingInvariant.PublishKeeps | capstone/matching/solution-reference/include/matching/ingress_queue.hpp:43 | the release store of position + 1 keeps the invariant |
| RingInvariant.ClaimPopKeeps | capstone/matching/solution-reference/include/matching/ingress_queue.hpp:60-61 | the winning compare-exchange of a pop keeps the invariant |
| RingInvariant.MoveKeeps | capstone/matching/solution-reference/include/matching/ingress_queue.hpp:62 | moving the item out keeps the invariant |
| RingInvariant.ResetKeeps | capstone/matching/solution-reference/include/matching/ingress_queue.hpp:63 | emptying the cell keeps the invariant |
| RingInvariant.ReleaseKeeps | capstone/matching/solution-reference/include/matching/ingress_queue.hpp:64 | the release store of position + capacity hands the cell to the next lap and keeps the invariant |
| RingInvariant.StepKeeps | capstone/matching/solution-reference/include/matching/ingress_queue.hpp:34-73 | every atomic step of every thread keeps the invariant that ties each cell sequence to both counters and to the threads in flight |
| RingInvariant.RunsKeep | capstone/matching/solution-reference/include/matching/ingress_queue.hpp:34-73 | every interleaving of any length and any number of threads keeps the invariant |
| RingTheorems.EveryTicketAccountedFor | capstone/matching/solution-reference/include/matching/ingress_queue.hpp:34-73 | in every reachable state ticket k is in exactly one of four places: delivered with exactly the item pushed under k, in the hands of exactly one pop, published in its cell, or being filled by exactly one push; the first two exactly below dequeue: no loss, no duplication, claim order |
| RingTheorems.AcceptedItemIsThere | capstone/matching/solution-reference/include/matching/ingress_queue.hpp:40-44 | a push answered true holds a ticket of its own item, and that item is in its cell, in a pop's hands or delivered |
| RingTheorems.ExclusiveWindow | capstone/matching/solution-reference/include/matching/ingress_queue.hpp:40-44 | two threads between their compare-exchange and their release store never work on the same cell |
| RingTheorems.AccessesAreClean | capstone/matching/solution-reference/include/matching/ingress_queue.hpp:42-64 | an emplace only meets an empty cell; a move only meets a cell filled with the item of its own ticket |
| RingTheorems.OccupancyBounded | capstone/matching/solution-reference/include/matching/ingress_queue.hpp:34-73 | 0 <= enqueue - dequeue <= capacity in every reachable state |
| RingTheorems.StepExtends | capstone/matching/solution-reference/include/matching/ingress_queue.hpp:34-73 | no step lowers a counter or a cell sequence, or revises a pushed or delivered item |
| RingTheorems.HistoryIsAppendOnly | capstone/matching/solution-reference/include/matching/ingress_queue.hpp:34-73 | the same over whole runs: what was pushed or delivered under a ticket is never revised |
| RingTheorems.PushRefusalJustified | capstone/matching/solution-reference/include/matching/ingress_queue.hpp:38-48 | a push is refused exactly when the cell sequence is behind its position, and then the ticket one lap back has not been released: the ring is full or a pop still holds that cell |
| RingTheorems.PopRefusalJustified | capstone/matching/solution-reference/include/matching/ingress_queue.hpp:58-69 | a pop is refused exactly when the cell sequence does not exceed its position, and then the head ticket is unclaimed or still being filled |
| RingTheorems.RetryMeansProgress | capstone/matching/solution-reference/include/matching/ingress_queue.hpp:48-50 | a thread reloads its counter only if another thread has moved it meanwhile |
| RingAnswers.StepKeepsItem | capstone/matching/solution-reference/include/matching/ingress_queue.hpp:34-73 | every step moves its own thread alone, and a push carries the item it began with until it has returned |
| RingAnswers.LooksAreFresh | capstone/matching/solution-reference/include/matching/ingress_queue.hpp:35-49 | whenever a thread turns to a cell, first, after a lost or spuriously failed exchange or after a reload, it is the cell its counter names at that moment |
| RingAnswers.OnlyLooksRefuse | capstone/matching/solution-reference/include/matching/ingress_queue.hpp:41-47 | no step but the look at a cell sequence refuses; losing the compare-exchange never does |
| RingAnswers.RefusedPushWasFull | capstone/matching/solution-reference/include/matching/ingress_queue.hpp:46-47 | in every reachable state, any step that refuses a push finds the ticket one lap back unreleased: the ring is full or a pop still holds that cell |
| RingAnswers.RefusedPopWasEmpty | capstone/matching/solution-reference/include/matching/ingress_queue.hpp:67-68 | in every reachable state, any step that refuses a pop finds nothing pushed or the next item still being stored |
| RingAnswers.AcceptedAsAsked | capstone/matching/solution-reference/include/matching/ingress_queue.hpp:34-44 | for every run: a push answered true has put the item its thread last asked for under its ticket, and it is in its cell, in hand or delivered |
| RingTheorems.QuiescentContents | capstone/matching/solution-reference/include/matching/ingress_queue.hpp:34-73 | with no call in flight the delivered tickets are exactly those below dequeue, and every later one is published in its cell |
| RingTheorems.CapacityOneLosesAnItem | capstone/matching/solution-reference/include/matching/ingress_queue.hpp:78-82 | with one cell a concrete run pushes twice with success and overwrites the first item: why the minimum is 2 |
| RingSolo.PushAccepted | capstone/matching/solution-reference/include/matching/ingress_queue.hpp:35-45 | while nobody else moves, a push that finds its cell free runs through load, look, any number of failed exchanges, claim, emplace and publish to the ring with its item |
| RingSolo.PushRefused | capstone/matching/solution-reference/include/matching/ingress_queue.hpp:46-47 | while nobody else moves, a push that finds its cell a lap behind returns false and changes nothing |
| RingSolo.PopAccepted | capstone/matching/solution-reference/include/matching/ingress_queue.hpp:55-66 | while nobody else moves, a pop that finds the head published runs through to the ring without it |
| RingSolo.PopRefused | capstone/matching/solution-reference/include/matching/ingress_queue.hpp:67-68 | while nobody else moves, a pop that finds the head unpublished returns nothing and changes nothing |
| RingSolo.StaysReachable | capstone/matching/solution-reference/include/matching/ingress_queue.hpp:34-73 | such runs lead from reachable states to reachable states, so what holds of these holds of the object |
| IngressQueue.LockFreeIngress.constructor | capstone/matching/solution-reference/include/matching/ingress_queue.hpp:26-29 | an empty ring of the rounded capacity, in the initial state of the protocol |
| IngressQueue.LockFreeIngress.PutTail | capstone/matching/solution-reference/include/matching/ingress_queue.hpp:42-43 | fills and publishes the cell at the tail and touches no other |
| IngressQueue.LockFreeIngress.TakeHead | capstone/matching/solution-reference/include/matching/ingress_queue.hpp:62-64 | empties and releases the cell at the head and touches no other |
| IngressQueue.LockFreeIngress.TryPush | capstone/matching/solution-reference/include/matching/ingress_queue.hpp:34-52 | run alone, with any number of spurious compare-exchange failures: appends exactly if fewer than capacity items are held, and is a run of the ring protocol, access by access |
| IngressQueue.LockFreeIngress.TryPop | capstone/matching/solution-reference/include/matching/ingress_queue.hpp:54-73 | run alone: returns nothing exactly if empty, else removes and returns the oldest item, and is a run of the ring protocol, access by access |
| FlatBook.FillsInClosedForm | capstone/matching/solution-reference/src/order_book.cpp:15-47 | fill i of the greedy walk is at maker i, at its price, within the limit, for the lesser of its quantity and what is left; the walk stops only when filled, out of makers, or at a maker that does not cross |
| FlatBook.MakersLeft | capstone/matching/solution-reference/src/order_book.cpp:22-31 | the filled makers are a prefix, only the last can be partial, and all others are untouched |
| FlatBook.NothingLeftCrosses | capstone/matching/solution-reference/src/order_book.cpp:19-47 | if some quantity remains no maker left crosses the order |
| FlatBook.RestKeepsGood | capstone/matching/solution-reference/src/order_book.cpp:49-56 | resting an uncrossed remainder keeps both sides sorted, ids distinct and the book uncrossed |
| FlatBook.SubmitKeepsGood | capstone/matching/solution-reference/src/order_book.cpp:10-58 | submit keeps the book good for every order, valid or not |
| FlatBook.CancelRemovesExactly | capstone/matching/solution-reference/src/order_book.cpp:60-87 | cancel succeeds exactly for live ids, removes that order and no other, and keeps the book good |
| BookSubmits.SubmitExactly | capstone/matching/solution-reference/src/order_book.cpp:10-58 | on every good book and for every order of either time in force: accepted exactly if symbol, id, quantity and price are valid and the id is not live, with the text of the first guard that fails; a refusal changes nothing; otherwise fill i is with maker i at its price and within the limit (at most it for a buy, at least it for a sell) for what the makers before it left, remaining is what the opposing side does not offer, filled makers are gone and a partial one keeps the rest of its quantity, and the remainder joins the own side behind equal or better prices exactly if it is positive and good till cancelled |
| BookSubmits.OnlySubmitFits | capstone/matching/solution-reference/src/order_book.cpp:10-58 | that description determines the outcome: any outcome that meets it is what submit does |
| BookSubmits.CancelExactly | capstone/matching/solution-reference/src/order_book.cpp:60-87 | a cancel finds exactly the live ids, takes that order out of its side and leaves all others in their order |
| LevelBook.PushBackIsInsert | capstone/matching/solution-reference/src/order_book.cpp:49-56 | find-or-create a level and append is insertion behind all orders of an equal or better price |
| LevelBook.ErasedIsWithout | capstone/matching/solution-reference/src/order_book.cpp:64-72 | erasing in the first level that has the id, and the level if it is emptied, removes that order from the flattened side |
| OrderBooks.OrderBook.constructor | capstone/matching/solution-reference/src/order_book.cpp:8 | an empty book for the symbol |
| OrderBooks.OrderBook.FillFront | capstone/matching/solution-reference/src/order_book.cpp:20-46 | the loop body trades with the front order of the best opposing level and keeps levels and live index consistent |
| OrderBooks.OrderBook.MatchOrder | capstone/matching/solution-reference/src/order_book.cpp:15-47 | the loop over the levels computes the same fills, makers and remainder as the greedy walk over the flattened side |
| OrderBooks.OrderBook.RestOrder | capstone/matching/solution-reference/src/order_book.cpp:49-56 | rests the remainder and indexes its id |
| OrderBooks.OrderBook.Submit | capstone/matching/solution-reference/src/order_book.cpp:10-58 | on levels and index, submit does what the flat book does: same book, acknowledgement, error text and fills, appended to the given ones; and its outcome meets the description of `BookSubmits.SubmitExactly` |
| OrderBooks.OrderBook.Cancel | capstone/matching/solution-reference/src/order_book.cpp:60-87 | does what the flat cancel does, the index loses exactly that id, and the last return false is unreachable |
| OrderBooks.OrderBook.BestBid | capstone/matching/solution-reference/src/order_book.cpp:89 | the highest resting bid, nothing exactly if there is none |
| OrderBooks.OrderBook.BestAsk | capstone/matching/solution-reference/src/order_book.cpp:90 | the lowest resting ask, nothing exactly if there is none |
| BookRuns.EveryBookIsGood | capstone/matching/solution-reference/src/order_book.cpp:10-87 | after every sequence of submits and cancels the book is sorted, uncrossed, with positive quantities, distinct ids, right sides and symbol |
| BookRuns.SubmitPaysTheTaker | capstone/matching/solution-reference/src/order_book.cpp:15-57 | for each accepted order its fills plus the reported remaining equal what it asked for |
| BookRuns.MatchConserves | capstone/matching/solution-reference/src/order_book.cpp:22-26 | for any set of ids, matching moves quantity from makers and taker into fills and loses none |
| BookRuns.QuantityConserved | capstone/matching/solution-reference/src/order_book.cpp:10-87 | over every run and for every set of ids: accepted = resting + traded + cancelled + discarded |
| BookRuns.TotalConserved | capstone/matching/solution-reference/src/order_book.cpp:10-87 | over every run: accepted = resting + twice the fills + cancelled + discarded immediate-or-cancel remainders |
| BookRuns.InsertKeepsOrder | capstone/matching/solution-reference/src/order_book.cpp:52-53 | queueing a remainder leaves a side lowest sequence first within each price if and only if it was and nobody at that price has a higher sequence |
| BookRuns.RestsExactly | capstone/matching/solution-reference/src/order_book.cpp:11-13 | whether a submit leaves an order resting is decided by the guards and the quantity offered ahead of it, known before the call |
| BookRuns.SubmitKeepsOrder | capstone/matching/solution-reference/src/order_book.cpp:10-58 | a book that is lowest sequence first stays so under a submit if and only if nothing rests or nobody at that price and side has a higher sequence |
| BookRuns.PriorityExactly | capstone/matching/solution-reference/README.md:22 | a run keeps every book lowest sequence first if and only if every order that comes to rest has the highest sequence at its price, equals allowed, when it does |
| BookRuns.PriorityIsBySequence | capstone/matching/solution-reference/README.md:22 | if arrivals never carry a lower sequence than an earlier one, every book of the run is lowest sequence first |
| EngineModel.SymbolsAreIsolated | capstone/matching/solution-reference/src/engine.cpp:14-27 | acknowledgements, fills and book of one symbol in any mixed run are those of a lone book fed only that symbol's stamped orders and cancels |
| EngineModel.Isolation | capstone/matching/solution-reference/src/engine.cpp:14-27 | the same from any state of the engine |
| EngineModel.EverySymbolGood | capstone/matching/solution-reference/src/engine.cpp:14-27 | every book of every engine run is good |
| EngineModel.NumbersInTurn | capstone/matching/solution-reference/src/engine.cpp:20-23 | after any run the next order reaches its symbol's book and no other, with the caller's number if it has one, else, as the k-th unstamped order over all symbols, with number k |
| EngineModel.CounterCounts | capstone/matching/solution-reference/src/engine.cpp:21 | the sequence counter grows by exactly the number of unstamped orders |
| EngineModel.CancelsInPlace | capstone/matching/solution-reference/src/engine.cpp:25-27 | after any run a cancel answers whether the id is live in its symbol's book, takes exactly that order out and leaves every other book and the counter alone |
| EngineModel.StampedEngineIsFifo | capstone/matching/solution-reference/src/engine.cpp:21 | if callers leave sequences zero, lowest sequence first holds in every book |
| EngineModel.MixedStampsBreakSequenceOrder | capstone/matching/solution-reference/src/engine.cpp:21 | a caller-chosen sequence followed by a stamped one puts a higher sequence in front |
| Engines.MatchingEngine.constructor | capstone/matching/solution-reference/src/engine.cpp:8 | an engine without books whose next sequence is 1 |
| Engines.MatchingEngine.BookFor | capstone/matching/solution-reference/src/engine.cpp:14-18 | finds or creates the book of a symbol and changes nothing else |
| Engines.MatchingEngine.Submit | capstone/matching/solution-reference/src/engine.cpp:20-23 | stamps a zero sequence, routes to the symbol's book; new state, acknowledgement and fills are those of the engine step |
| Engines.MatchingEngine.Cancel | capstone/matching/solution-reference/src/engine.cpp:25-27 | routes the cancel; new state and answer are those of the engine step |
| Protocol.TrimIs | capstone/reference/src/protocol.cpp:19-27 | trimming removes white space only, from both ends only, and leaves none at the ends |
| Protocol.TrimText | capstone/reference/src/protocol.cpp:19-27 | the two loops compute the trimmed text |
| Protocol.SplitOnceIs | capstone/reference/src/protocol.cpp:29-36 | what splitting yields: a trimmed tail, parts shorter than the text, no new bytes |
| Protocol.SplitJoined | capstone/reference/src/protocol.cpp:29-36 | splitting a word and a trimmed text joined by a blank gives the two back |
| Protocol.ParsedIsClean | capstone/reference/src/protocol.cpp:129-166 | a parsed mutation has a valid key and a trimmed, non-empty value without zero bytes |
| Protocol.SetReplays | capstone/reference/src/protocol.cpp:160-166 | the record of a clean SET parses back to it |
| Protocol.DelReplays | capstone/reference/src/protocol.cpp:150-159 | the record of a DEL parses back to it |
| Protocol.LoggedMutationReplays | capstone/reference/src/wal.cpp:66-72 | every mutation a request parses to prints to a record that parses back to it and is no longer than the request |
| Protocol.EveryCommandRoundTrips | capstone/reference/src/protocol.cpp:139-168 | for every request that parses, the canonical text of its command parses to the same command and is no longer; which requests parse is `Grammar.ParsesExactly` |
| Grammar.ParsesExactly | capstone/reference/src/protocol.cpp:139-168 | a payload parses to a command if and only if it has no zero byte and is white space, the verb, for GET, DEL and SET a separator, more white space and the arguments, then white space: none for PING and STATS, one valid key for GET and DEL, a valid key, a separator, white space and a non-empty trimmed value for SET |
| Grammar.ErrorsExactly | capstone/reference/src/protocol.cpp:139-168 | every other payload is an error, with the message for a zero byte if it has one, else for its first word: GET or DEL, SET, or anything else |
| Grammar.TrimFinds | capstone/reference/src/protocol.cpp:19-27 | trimming finds the one text without white space at its ends that the white space surrounds |
| Grammar.PartsAreSplit | capstone/reference/src/protocol.cpp:29-36 | splitting finds the first word and the trimmed rest of any text that consists of them |
| Grammar.ByteClasses | capstone/reference/src/protocol.cpp:20-31 | separators and white space are the characters the source names |
| Grammar.KeyExactly | capstone/reference/src/protocol.cpp:129-137 | a valid key is 1 to 128 ASCII letters, digits, underscores, hyphens, dots and colons, and nothing else |
| Grammar.RecordText | capstone/reference/src/wal.cpp:66-72 | the log records are the verb, the key and the value with single blanks |
| Framing.HeaderRoundTrip | capstone/reference/src/protocol.cpp:45-46 | encoding then decoding a 32-bit length gives it back; that the bytes are its base-256 digits, most significant first, is `Framing.HeaderAnnounces` |
| Framing.HeaderAnnounces | capstone/reference/src/protocol.cpp:45-46 | the four header bytes are the base-256 digits of the length, most significant first |
| Framing.FrameIsUnique | capstone/reference/src/protocol.cpp:40-51 | a payload has one frame: four bytes that are the digits of its length, which no other four are, and the payload |
| Framing.NextFrameExactly | capstone/reference/src/protocol.cpp:101-122 | whole, oversized or incomplete is decided by the number whose base-256 digits, most significant first, are the first four bytes |
| Framing.WholeIsFrame | capstone/reference/src/protocol.cpp:101-122 | what reads as a whole frame is the frame of its payload and nothing else |
| Framing.EncodeFrame | capstone/reference/src/protocol.cpp:40-51 | refuses exactly payloads beyond 32-bit lengths; otherwise the base-256 digits of the length, most significant first, then the payload |
| Framing.CutStream | capstone/reference/src/protocol.cpp:40-51 | a stream of frames cut anywhere is whole frames and a proper prefix of the next one |
| Framing.FrameFirst | capstone/reference/src/protocol.cpp:101-122 | the first frame of a stream is read back whatever follows it |
| Framing.TornIsIncomplete | capstone/reference/src/protocol.cpp:101-122 | a proper prefix of a frame never reads as a frame |
| Framing.Source.ReadExact | capstone/reference/src/protocol.cpp:53-73 | for any pattern of short reads and interruptions: the next bytes in order, ok exactly if all of them, eof only at the end, would-block only after a timed-out read and failure only after a failed one |
| Framing.Source.RecvFrame | capstone/reference/src/protocol.cpp:101-122 | answers ok, too large or eof only as the number whose base-256 digits are the four bytes at the cursor says: that many bytes follow within the limit, it exceeds the limit, or they do not all follow |
| Framing.ReceiveAll | capstone/reference/src/protocol.cpp:101-122 | repeated receiving returns exactly the payloads sent, in order; a cut stream yields end of file after the complete ones and never a wrong frame |
| LogScan.ScanOfStream | capstone/reference/src/wal.cpp:95-133 | scanning the frames of replayable records yields their mutations in order and goes on behind them |
| LogScan.ScanExactly | capstone/reference/src/wal.cpp:95-133 | every file splits into frames of replayable records, whose mutations in order are what the scan finds, and a rest: nothing at a clean end, a header or payload cut short at a torn one, a length over 65536 or a whole frame that is no mutation at a malformed one |
| LogScan.OneEnding | capstone/reference/src/wal.cpp:95-133 | the three endings exclude each other |
| LogScan.RescanAfterRepair | capstone/reference/src/wal.cpp:101 | after the torn tail is cut a second recovery finds the same mutations and changes nothing |
| LogScan.ScanAfterClean | capstone/reference/src/wal.cpp:95-133 | records appended after a clean end or a repair are found after the old ones |
| LogScan.ReplayIsLastWrite | capstone/reference/src/store.cpp:8-25 | a lookup after replay finds exactly what the last SET or DEL of the key left |
| Wals.KvStore.Put | capstone/reference/src/store.cpp:8-11 | inserts or overwrites one key |
| Wals.KvStore.Lookup | capstone/reference/src/store.cpp:13-20 | found exactly if the key is present, and then its value |
| Wals.KvStore.Erase | capstone/reference/src/store.cpp:22-25 | removes one key and tells whether it was there |
| Wals.Wal.WriteFileAll | capstone/reference/src/wal.cpp:21-33 | appends exactly the prefix that short writes, interruptions and errors allow; true exactly if that is everything |
| Wals.WrittenExactly | capstone/reference/src/wal.cpp:21-33 | all bytes are written unless the writes before the first error or empty write accept fewer, and then exactly those |
| Wals.Wal.SyncFile | capstone/reference/src/wal.cpp:35-40 | true exactly if the first uninterrupted call succeeds, and then all bytes are synced |
| Wals.SucceedsExactly | capstone/reference/src/wal.cpp:35-40 | a retried call succeeds exactly if no error comes before its first success |
| Wals.Wal.AppendRecord | capstone/reference/src/wal.cpp:74-87 | true exactly if the frame, digits of the length most significant first and then the record, was written whole and synced; otherwise the written prefix stays and the descriptor is closed for good |
| Wals.Wal.RepairTornTail | capstone/reference/src/wal.cpp:42-47 | true exactly if truncation and sync succeed; the file is then the complete frames, synced |
| Wals.Wal.ReadRecord | capstone/reference/src/wal.cpp:97-116 | one record, a torn one, an oversized one or the end, as the bytes say |
| Wals.Wal.ApplyRecord | capstone/reference/src/wal.cpp:118-129 | applies SET and DEL to the store and refuses everything else |
| Wals.Wal.ReplayLog | capstone/reference/src/wal.cpp:95-133 | the loop replays exactly what the scan of the file finds |
| Wals.Wal.Recover | capstone/reference/src/wal.cpp:89-134 | the store becomes the replay of all complete records, the file exactly their frames; with a readable file, success exactly if nothing is malformed and the repair succeeds |
| CommitInvariant.StepKeeps | capstone/reference/src/server.cpp:177-219 | every step of the commit path, of the replies sent after the mutex is free, every failure, kill, power loss and restart keeps the invariant of disk, log, store, acknowledgements and outstanding replies |
| CommitInvariant.DiskScan | capstone/reference/src/wal.cpp:95-133 | recovery of any reachable disk finds the log plus a completed pending record, and never refuses the file |
| CommitTheorems.AcknowledgedSurvive | capstone/reference/src/wal.cpp:74-134 | in every reachable state recovery succeeds and finds every mutation ever acknowledged, as it was asked for, at the place it was acknowledged for, no two at one place; in all no more than the positive replies ever formed and one per session |
| CommitTheorems.AcknowledgedSurvivePowerLoss | capstone/reference/src/wal.cpp:79-86 | the same after losing any part of the unsynced bytes |
| CommitTheorems.SentNeverLost | capstone/reference/src/server.cpp:186 | an acknowledgement once sent holds of every later recovery, and its mutation never moves |
| CommitRequests.RecoveredWasAsked | capstone/reference/src/server.cpp:190-219 | for every run: what recovery finds is a subsequence of the mutations requested, in the order the requests took the mutex |
| CommitRequests.ReplyAnswersRequest | capstone/reference/src/server.cpp:186 | a reply acknowledges the mutation its client last asked for, at a place where recovery finds that mutation |
| CommitSessions.UnacknowledgedExactly | capstone/reference/src/server.cpp:186-219 | each mutation of a session that recovery finds is acknowledged for that place, waits there for its reply to be sent, or is the last and in doubt, and exactly one of these; so the unacknowledged ones number the unsent replies and the one in doubt |
| CommitSessions.SessionRecoversExactly | capstone/reference/src/wal.cpp:74-134 | from any moment of a session between commits, through whatever ends it: recovery finds what it would have found then, or a prefix of it with nothing added if power was lost before any sync, then exactly as many mutations as were acknowledged, wait for their reply or are in doubt |
| CommitSessions.SequentialSessionRecovers | capstone/reference/src/wal.cpp:74-134 | if each reply goes out before the next mutation begins: what was there, then the acknowledged mutations in the order of the replies, then at most one more, the latest begun |
| CommitSessions.AtMostOneExactly | capstone/reference/src/server.cpp:186-219 | at most one mutation can survive unacknowledged after the next one begins if and only if no reply is outstanding when it begins |
| CommitSessions.TwoWorkersTwoSurvivors | capstone/reference/src/server.cpp:186-219 | for any two mutations a run of two workers ends with both in the log and no acknowledgement sent, in one session |
| CommitSessions.RepliesOvertake | capstone/reference/src/server.cpp:186-219 | for any two mutations a run sends their replies in the opposite order to the log |
| CommitTheorems.StoreIsReplayOfLog | capstone/reference/src/server.cpp:205-219 | the store is always the replay of the mutations in the log but for at most the last, and of all of them between commits |
| CommitTheorems.ReadersSeeLastWrite | capstone/reference/src/server.cpp:205-208 | between commits a reader finds exactly what the last mutation of the key in the log wrote |
| CommitTheorems.DurableExactly | capstone/reference/src/wal.cpp:100 | what a GET can see survives every later run if and only if this session did not come up on a clean file with unsynced bytes, or has synced since |
| CommitTheorems.ObservedNeverUndone | capstone/reference/src/server.cpp:205-208 | on such a server what was seen is a prefix of what every later recovery finds |
| CommitTheorems.DurableUnderCleanStops | capstone/reference/src/wal.cpp:89-134 | if the process, however often it stops, never stops with a whole frame written and unsynced, what is seen always survives |
| CommitTheorems.KilledServerServesUnsyncedValue | capstone/reference/src/wal.cpp:98-100 | with a kill it can fail: for every SET a run serves its value after restart, unacknowledged and unsynced, and a power loss then undoes it |
| CommitTheorems.ParsedValueFits | capstone/reference/src/protocol.cpp:160-166 | a value parsed within the limit leaves six bytes for the reply prefix |
| CommitTheorems.EveryStoredValueFitsAReply | capstone/reference/src/server.cpp:205-208 | in every reachable state every stored value fits a VALUE reply frame |
| CommitRefinement.MutationReaches | capstone/reference/src/server.cpp:186-219 | what one SET or DEL does to file, descriptor, store and reply, sent or not, is a run of the commit protocol |
| CommitRefinement.StartReaches | capstone/reference/src/server.cpp:46-53 | a successful start is the restart step of the protocol |
| CommitRefinement.FailedStartReaches | capstone/reference/src/server.cpp:50-53 | a failed start leaves a reachable state in which all acknowledged mutations are still there |
| Servers.Server.constructor | capstone/reference/src/server.cpp:34-55 | which of the three guards fails, in order, and its message; with faultless reads and seeks the start succeeds exactly if the payload limit is at most 65536 and, where a log is configured, it opened and the file is missing, or readable with a clean end, or readable with a torn one that is cut and synced; the store is then the replayed log |
| Servers.Server.Execute | capstone/reference/src/server.cpp:190-221 | every reply, within the frame limit; reads change nothing; mutations are committed or refused |
| Servers.Server.Mutate | capstone/reference/src/server.cpp:209-219 | logged, synced, applied and acknowledged exactly if the log took and synced the whole frame; else the store is untouched |
| Servers.Server.Append | capstone/reference/src/wal.cpp:66-72 | logs the record of a SET or DEL |
| Servers.Server.Serve | capstone/reference/src/server.cpp:186-221 | for every request, machine behaviour and set of outstanding replies the server stays mirrored by a reachable protocol state, whose acknowledgements are exactly the positive mutation replies sent |
| Servers.Server.Start | capstone/reference/src/server.cpp:34-55 | every start on the file of a reachable, stopped state ends mirrored by a reachable state; with faultless reads and seeks it succeeds exactly if the payload limit is at most 65536, the log opened and is not denied, and a torn tail can be cut and synced |
| Servers.StatsFit | capstone/reference/src/server.cpp:199-204 | a STATS reply is short for all 64-bit counters |
| Servers.StatsRead | capstone/reference/src/server.cpp:199-204 | a STATS reply names keys, submitted and completed in this order, each as a numeral that reads back to the counter |
| Servers.DecimalReads | capstone/reference/src/server.cpp:201-202 | a printed counter is a digit string without leading zeros whose value is the counter |
| Servers.RecoveredFits | capstone/reference/src/wal.cpp:108 | a store replayed from any log recovery accepts holds only values that fit a reply |
| QueueMonitor.Make | capstone/reference/include/netforge/blocking_queue.hpp:16-20 | capacity zero is refused |
| QueueMonitor.BlockingQueue.PushLocked | capstone/reference/include/netforge/blocking_queue.hpp:26-32 | the code of push under the mutex does to the fields, and decides for the thread, what the protocol's critical section does |
| QueueMonitor.BlockingQueue.PopLocked | capstone/reference/include/netforge/blocking_queue.hpp:38-45 | the same for pop |
| QueueMonitor.BlockingQueue.CloseLocked | capstone/reference/include/netforge/blocking_queue.hpp:51-54 | the same for close |
| QueueInvariant.StepKeeps | capstone/reference/include/netforge/blocking_queue.hpp:25-57 | every critical section, sleep, notification, spurious wake-up and return keeps the invariant and only extends the history |
| QueueInvariant.StepServed | capstone/reference/include/netforge/blocking_queue.hpp:26-47 | every step keeps the bounds that rule out lost wake-ups |
| QueueTheorems.NoLostWakeup | capstone/reference/include/netforge/blocking_queue.hpp:25-48 | if a consumer sleeps, items number at most the woken consumers plus the producers about to notify; while open, the mirror bound for free slots and producers |
| QueueTheorems.SleeperHasHelp | capstone/reference/include/netforge/blocking_queue.hpp:25-57 | a sleeper whose condition holds always has another thread that wants the mutex or is about to notify |
| QueueTheorems.CloseWakesEverybody | capstone/reference/include/netforge/blocking_queue.hpp:50-57 | once a close has returned nobody sleeps, in that and every later state |
| QueueTheorems.AnswersAreJustified | capstone/reference/include/netforge/blocking_queue.hpp:28-42 | a push is refused only if the queue is closed, a pop returns nothing only if it is closed and drained |
| QueueTheorems.ClosedTakesNothing | capstone/reference/include/netforge/blocking_queue.hpp:27-36 | in every run after a close nothing more is pushed, whatever was under way, and what was in the queue stays to be popped |
| QueueTheorems.PopsAreFifo | capstone/reference/include/netforge/blocking_queue.hpp:25-48 | the item of ticket k is queued at its place, or carried out by exactly one pop, or was returned by one, and in exactly one of these; the queue holds the pushed and not popped items in order, within capacity |
| QueueTheorems.ReturnsAreFinal | capstone/reference/include/netforge/blocking_queue.hpp:37-48 | what a pop returned under a ticket is never revised and no later pop carries it |
| PoolInvariant.PoolStepIsQueueStep | capstone/reference/src/thread_pool.cpp:35-89 | every step of the pool is a step of the blocking queue or leaves it alone |
| PoolInvariant.StepKeeps | capstone/reference/src/thread_pool.cpp:35-89 | every step of submitters, shutdown callers, workers and tasks keeps the pool's invariant |
| PoolTheorems.CountersBalance | capstone/reference/src/thread_pool.cpp:35-89 | submitted = completed + running + queued + in-flight submissions, so completed <= submitted |
| PoolTheorems.EveryTaskInOnePlace | capstone/reference/src/thread_pool.cpp:78-89 | an accepted task is at its place in the queue, or with exactly one worker, or has run once |
| PoolTheorems.ShutdownDrains | capstone/reference/src/thread_pool.cpp:54-68 | when any external shutdown has returned all workers have exited, every accepted task has run exactly once, and submitted exceeds completed by the submissions in flight only |
| PoolTheorems.AcceptedTaskHasRun | capstone/reference/src/thread_pool.cpp:35-68 | a submit that returned true has had its own task run by then; when it returns true is `PoolSubmits.WelcomeIsAccepted` |
| PoolSubmits.AnswerIsJustified | capstone/reference/src/thread_pool.cpp:35-52 | in every reachable state a submit that returned false had an empty task or the pool is shutting down; one that returned true had a real task, pushed under its ticket |
| PoolSubmits.AnswersAreJustified | capstone/reference/src/thread_pool.cpp:35-52 | the same for every run and for the task the thread last asked the pool to run |
| PoolSubmits.WelcomeIsAccepted | capstone/reference/src/thread_pool.cpp:35-52 | from every reachable state with no shutdown, room in the queue, a thread in its own code and a real task, its six steps end in true, with the task pushed under the next ticket and counted |
| PoolSubmits.WelcomeCanReturn | capstone/reference/src/thread_pool.cpp:35-52 | and it can always take those steps, whatever the other threads are doing |
| PoolSubmits.RefusedAtOnce | capstone/reference/src/thread_pool.cpp:36-38 | an empty task, or any task during shutdown, is refused at the first check and changes nothing else |
| PoolTheorems.WorkersNeverJoin | capstone/reference/src/thread_pool.cpp:59-63 | a worker that shuts the pool down from a task never waits for the join |
| PoolDrain.StepDecreases | capstone/reference/src/thread_pool.cpp:35-89 | every step of the pool's own code lowers a measure, open or closed, but for spurious wake-ups |
| PoolDrain.WorkerMoves | capstone/reference/src/thread_pool.cpp:78-89 | while a worker of a closed pool has not exited some thread has a step to take other than a spurious wake-up |
| PoolDrain.CallerMoves | capstone/reference/src/thread_pool.cpp:35-68 | while a call on a closed pool has not returned some thread has a step to take other than a spurious wake-up |
| PoolDrain.StuckIsClosed | capstone/reference/src/thread_pool.cpp:54-58 | after shutdown was called, where no step but a spurious wake-up is possible the queue is closed |
| PoolDrain.ShutdownTerminates | capstone/reference/src/thread_pool.cpp:54-89 | no deadlock and no endless run: once shutdown has been called, runs without new calls are bounded, spurious wake-ups apart, and where no step but a spurious wake-up is possible all workers have exited, all calls returned, all accepted tasks ran and the counters agree, so nobody sleeps for ever |
| ParallelSums.SumRange | labs/parallelism/reference.cpp:24-28 | the loop computes the sum over the range modulo 2^64 |
| ParallelSums.TilesExactly | labs/parallelism/reference.cpp:39-40 | the ranges are consecutive, non-empty, of sizes differing by at most one and cover all items if and only if item count times worker count is below 2^64 |
| ParallelSums.ParallelIsSerialExactly | labs/parallelism/reference.cpp:30-49 | the parallel result equals the serial one for all item functions together if and only if that product is below 2^64; past it the last item is in nobody's range |
| ParallelSums.LastItemIgnored | labs/parallelism/reference.cpp:30-49 | past the limit, for every single item function, the last item's value never enters the parallel result |
| ParallelSums.LastFourLost | labs/parallelism/reference.cpp:39-40 | with four items per worker and a product of exactly 2^64 the last four items are lost, whatever their values |
| ParallelSums.ChecksumsDiffer | labs/parallelism/reference.cpp:17-22 | on 2^33 items and 2^31 threads the program's own parallel and serial checksums differ |
| ParallelSums.TwoWorkersSumHalf | labs/parallelism/reference.cpp:39-40 | two workers on 2^63 items sum only the first half |
| ParallelSums.RunWorkers | labs/parallelism/reference.cpp:38-45 | for every finishing order each slot ends up with its worker's sum |
| ParallelSums.AddPartials | labs/parallelism/reference.cpp:46-48 | the slots add up, modulo 2^64, to the sum of all ranges |
| ParallelSums.ParallelSum | labs/parallelism/reference.cpp:30-49 | zero threads is an error, zero items give 0, and the result does not depend on the finishing order |

## Left out

- Sockets, `poll`, timeouts, signals, the accept loop, the client loop of `handle_client` and the bundled client: calls into the operating system.
- Redis and Kafka edges, command-line programs and benchmarks: wrappers and timing.
- The packet decoder (section 3.1 of RFC 791 and of RFC 9293), `UniqueFd` and `mock_data.cpp`: they would add only easy members.
- Weak memory: every atomic access is one sequentially consistent step; the acquire and release pairs are not distinguished.
- Ring positions and cell sequences are unbounded: the signed differences are exact below 2^63, and capacity requests above 2^63, on which the doubling loop would not end, are not modelled.
- Prices, quantities, ids, `next_sequence_` and the pool's counters are unbounded integers: 64-bit wrap-around is modelled in the parallel sum only.
- Running out of memory, a failing thread start in the pool's constructor and a throwing push: the exception paths of `submit` and of the constructor.
- The thread pool is a transition system over values, not an object: its fields change in steps of many threads.
- The thread pool's tasks are taken to return or throw eventually; a task that never ends keeps shutdown waiting.
- The blocking queue's waiting and notifying are steps of the transition system only; the object `QueueMonitor.BlockingQueue` holds the code between wake-up and unlock.
- Unsynced bytes are lost from the end only: no garbage, reordering or partial overwriting of blocks, against which the log has no checksums.
- Concurrent GETs read the store between commit steps; the locks inside `KvStore` are taken as indivisible operations.
- A successful `fsync` is taken to make all bytes of the file durable, also those whose earlier `fsync` failed.
- The reply that a client never receives is one that is never sent: loss in the network is not told from a failed send.
- Wals.Wal.ReplayLog: takes the parser as a parameter; `Recover` passes the command parser.
- ParallelSums.ParallelIsSerialExactly: past the limit it speaks of item functions in general; for the one function `mix` whether other inputs past the limit agree by chance is open.
- ParallelSums.ParallelSum: takes the per-item value as a parameter, of which `mix` is one, and lets each worker's write to its own slot be one step.
- IngressQueue.LockFreeIngress.TryPush: one operation at a time; interleaved operations are the transition system of `RingProtocol`.
- Floating-point timing figures, false-sharing counters and percentiles: measurement.
