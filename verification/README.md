# Models of the course programs and proofs about them

Six programs are modelled, each against an independent description of what it should do.

**Cache simulator** (`csf_assign03/main.cpp`). `CacheSimulator` has the simulator as the program writes
it: a class over a mutable grid of slots, one time-stamp scan for both replacement policies, shifts and
masks for the address, a counting loop over the trace. It is proved equal to functions on values
(`CacheModel`), and the laws are about those: under LRU the stamps are a move-to-front list and under FIFO
a circular buffer (`CacheLru`, `CacheFifo`, with the limit of the clock in `CacheLruLimit`); more ways never lose an LRU
hit, and exactly when they never lose a FIFO hit (`CacheInclusion`); with data added, every load sees the last
store and every clean block equals memory (`CacheData`); dirty blocks and cycles are conserved
(`CacheCycles`), and exactly when the printed cycles are right (`CacheCharges`). `CacheAddresses` counts the tags.
The cycles are stated in numbers, 100 for every 4 bytes moved, not through the model's own price of a block.

**Chat server** (`csf_assign05/server.cpp`, `room.cpp`, `message_queue.cpp`, `guard.h`). `ChatModel` is a
transition system with one step per mutex operation, per access to shared data, per semaphore operation and
per outcome of a send or receive, for any number of worker threads. It records every message received from a
client. `ChatSafety`, `ChatMembership`, `ChatQueues`, `ChatRequests`, `ChatLog` and `ChatOrigins` prove that every
step keeps one invariant each; `ChatTheorems`, `ChatAnswers` and `ChatProgress` draw the consequences for all runs:
contiguous delivery, agreement between receivers, broadcasts exactly as asked for, once and in order, each client in
the room it asked for, live members, unique rooms, semaphore accounting, lock nesting, no deadlock, and what a
client ends up displaying.

**Parallel quicksort** (`csf_assign04/parsort.c`). `Partition` has the partition in place with its unsigned
indices; `ParallelSort` is a tree of processes over one array in which any process may take the next step
and any fork or wait may fail; `SortFate` says exactly when it sorts if none does, and `SortCrowded` names
inputs it never sorts.

**Line framing and messages** (`csf_assign05/csapp.c`, `connection.cpp`, `receiver.cpp`). `Rio` is the
buffered reader over a socket that may cut the stream anywhere, be interrupted or fail; `Codec` is the
message encoding, the connection and the receiving client.

**Fixed-point numbers** (`csf_assign01/csf_assign01/fixpoint.c`). `Fixpoint` has comparison, addition,
subtraction and multiplication on numbers in memory; `FixpointHex` and `FixpointParse` the printer, which
edits a character buffer, and the parser; `FixpointTexts` says which texts are accepted and what they mean,
without the parser.

**PNG rows** (`csf_assign02/pnglite.c`). `PngFilters` states the filters of section 6 of RFC 2083 as the
reference, forwards and as a law on the bytes of a row by filter number, `PngRows` the five decoders and the byte swap in place, `PngStream` and `Png` whole images.

`Bits` holds 32- and 64-bit words with the bitwise operators defined bit by bit. `dafny verify
dfyconfig.toml` checks the project.

## What the proofs found

- The LRU order holds on all traces of at most n accesses if and only if n is below 2^32. When the 32-bit
  clock wraps, the block just used gets the smallest stamp and is evicted next
  (`CacheLruLimit.RecencyLimitIsExact`, `CacheLruLimit.WrappedClockEvictsTheNewest`).
- Among the first 2^32 accesses, more ways never cost LRU a hit (`CacheLru.LruInclusion`). They may cost FIFO
  one, except when the ways are equal, when the fewer are one, and when the larger cache has a way for every
  tag (`CacheInclusion.FifoInclusionIsExact`).
- Charges are summed in 32 bits, so with large blocks the printed cycles can be fewer than they should be. They
  are right on every trace if and only if blocks are at most 2^26 bytes under write-back or 2^27 under
  write-through, or are 2^27 under write-back with a way for every tag, when nothing is ever evicted
  (`CacheCharges.ClosedFormIsExact`; the failing traces are `CacheCharges.OneLoadIsEnough` and
  `CacheCharges.OneEvictionIsEnough`).
- The comment at `csf_assign04/parsort.c:184-187` says a sort fails only when a system call does. It also
  fails when a partition starting at index 0 finds nothing below its pivot, since the unsigned right index
  is decremented past zero; an array of equal elements is enough. `SortFate.SortsExactlyWhen` gives the exact
  inputs, `SortFate.TwoEqualElements` one of them, and `SortCrowded.CrowdedIsNeverSorted` a condition to be
  read off the input: the smallest value occurs more than max(threshold, 1) times.
- A message survives the wire if and only if it is at most 255 bytes encoded, its tag has no colon, neither part
  has a newline or NUL, and its data does not end in a carriage return (`Codec.RoundTrip`). The length test at
  `csf_assign05/connection.cpp:109-114` can never be true, because the line read is capped first; a longer
  line is split instead (`Codec.LongLineIsCut`). A delivery cut short by a failing send is displayed as if its
  text had been sent that way (`Codec.CutTextIsShown`).
- `fixpoint_add` adds same-sign magnitudes twice. With equal signs and the result among the operands, the sum
  is right if and only if the other operand, or the one that is both, is zero (`Fixpoint.Add`); 2^63 added
  onto itself is reported as zero without overflow (`Fixpoint.OverflowIsLost`). `Fixpoint.Sub` has the
  condition for `fixpoint_sub`; 1 - (-1) stored onto the 1 is 3 (`Fixpoint.AliasedDifference`).
  The sign documented for `compareAbsoluteVal` in `fixpoint.h` is the opposite of what the code returns.
- `fixpoint_parse_hex` returns exactly the canonical numbers, but accepts texts the printer never writes; an
  accepted text is the printed one if and only if it is tidy (`FixpointParse.AcceptedIsPrintedWhenTidy`). Which
  texts it accepts is `FixpointTexts.ParseIsSpelling`; among them are a tab, a plus or a 0x in front of digits, all
  counted as digits, and leading zeros if there is a minus before them (`FixpointTexts.LeadingZeros`).
- `png_set_data` does not swap the bytes of 16-bit samples while `png_unfilter` does, so a 16-bit image
  written and read back is unchanged if and only if each sample reads the same in both byte orders
  (`PngStream.SurvivesWhenSymmetric`).

## Model

| member | source | states |
|---|---|---|
| Bits.SingleBitTest | csf_assign03/main.cpp:36-40 | for positive n, `n & (n - 1)` is zero if and only if n is a power of two |
| Bits.MaskIsMod | csf_assign03/main.cpp:72 | masking with 2^k - 1 is the remainder modulo 2^k |
| Bits.OrIsSum | csf_assign01/csf_assign01/fixpoint.c:229-230 | bitwise or of a word shifted left by k and one below 2^k is their sum |
| CacheSimulator.IsPowerOfTwo | csf_assign03/main.cpp:36-40 | true exactly on the powers of two |
| CacheSimulator.Log2Exact | csf_assign03/main.cpp:47-48 | the truncated logarithm of an accepted size is its exact exponent |
| CacheSimulator.AddressSplit | csf_assign03/main.cpp:72-73 | the shifts and the mask give block number modulo sets and block number divided by sets |
| CacheModel.TagAndIndexNameTheBlock | csf_assign03/main.cpp:70-76 | a block is its size in bytes and contains the address; two addresses have the same tag and index if and only if they are in the same block |
| CacheModel.FindTag | csf_assign03/main.cpp:78-100 | the first valid slot with the tag, or none when no slot matches |
| CacheModel.Oldest | csf_assign03/main.cpp:127-134 | the first slot whose stamp is minimal |
| CacheSimulator.Cache.constructor | csf_assign03/main.cpp:43-58 | for every accepted configuration a new cache has the initial rows and the exact bit counts |
| CacheSimulator.Cache.Access | csf_assign03/main.cpp:62-157 | when the shift that gives the tag is defined: hit, extra cycles, clock and the whole new cache are those of the specification, all other sets unchanged |
| CacheSimulator.Cache.SlotHolding | csf_assign03/main.cpp:78-100 | the search loop finds the first matching slot of the set, or none |
| CacheSimulator.Cache.InvalidSlot | csf_assign03/main.cpp:111-121 | the search loop finds the first empty slot, or none |
| CacheSimulator.Cache.OldestSlot | csf_assign03/main.cpp:123-134 | the scan finds the first slot with the smallest stamp |
| CacheSimulator.Simulate | csf_assign03/main.cpp:203-291 | hits and misses add up to loads and stores for every accepted configuration, and when the shifts are defined the seven counters are those of the specification, of which `CacheCycles.CountersCount` and `CacheCharges.CyclesAreConserved` say what they are |
| CacheModel.RunKeepsRowOk | csf_assign03/main.cpp:62-157 | after every trace shorter than 2^32 the valid slots of each set form a prefix with distinct tags and distinct stamps, none in the future |
| CacheModel.RunKeepsRowShape | csf_assign03/main.cpp:62-157 | for every trace: valid slots form a prefix, tags are distinct, dirty slots are valid, and none is dirty under write-through |
| CacheLru.OldestIsTail | csf_assign03/main.cpp:123-134 | in a full set the scan picks the tail of the recency list |
| CacheLru.RowRefines | csf_assign03/main.cpp:78-156 | one access hits exactly on the tags in the list and moves, inserts or leaves as move-to-front does |
| CacheLru.StampsRefineRecency | csf_assign03/main.cpp:78-156 | after every trace the stamps of each set order its slots as the move-to-front list |
| CacheLru.HitsAreRecent | csf_assign03/main.cpp:78-100 | each of the first 2^32 accesses hits if and only if its tag is in the list of its set |
| CacheLru.SetHoldsMostRecent | csf_assign03/main.cpp:108-145 | under LRU and write-allocate the valid slots of a set hold exactly its most recent distinct blocks, up to its ways |
| CacheLru.TouchKeepsNested | csf_assign03/main.cpp:78-145 | one access keeps a smaller list inside a larger one in the same order, and what hits the smaller hits the larger, with either allocation policy |
| CacheLru.ListsNest | csf_assign03/main.cpp:78-145 | after every trace the list of a set with fewer ways is nested in that of one with more |
| CacheLru.LruInclusion | csf_assign03/main.cpp:80-145 | each of the first 2^32 accesses that hits with k ways hits with any larger number, same sets, blocks and policies |
| CacheLruLimit.AtTheLimit | csf_assign03/main.cpp:65-67 | a trace of 2^32 - 1 loads after which two blocks carry the two largest stamps |
| CacheLruLimit.WrappedClockEvictsTheNewest | csf_assign03/main.cpp:65-67 | one load later the block just used has stamp zero although it is first in recency, and with two ways it is the next victim |
| CacheLruLimit.RecencyLimitIsExact | csf_assign03/main.cpp:65-90 | with two ways or more, the stamps order every set on all traces of at most n accesses if and only if n is below 2^32 |
| CacheFifo.VictimIsNextSlot | csf_assign03/main.cpp:111-134 | the slot filled next, empty or evicted, is the number of fills modulo the ways |
| CacheFifo.RowRefines | csf_assign03/main.cpp:78-156 | one access hits exactly on the last `ways` fills and a fill is appended to the history of the set |
| CacheFifo.StampsRefineRing | csf_assign03/main.cpp:108-145 | after every trace each set is the circular buffer of its fills |
| CacheFifo.HitsAreResident | csf_assign03/main.cpp:78-100 | each of the first 2^32 accesses hits if and only if its tag is among the last `ways` fills of its set |
| CacheInclusion.FifoIsNotInclusive | csf_assign03/main.cpp:123-134 | for every smaller number of ways from 2 on and every larger one below the number of tags, a trace whose last load hits with fewer ways and misses with more |
| CacheInclusion.FifoInclusionIsExact | csf_assign03/main.cpp:108-145 | every hit is a hit with more ways, at each of the first 2^32 accesses of all traces, if and only if the ways are equal, or the fewer are one, or the more are at least the number of tags |
| CacheAddresses.TagsAreBelow | csf_assign03/main.cpp:70-73 | the tag of an address is below 2^32 divided by sets times block size |
| CacheData.DataFollowsTheCache | csf_assign03/main.cpp:92-94 | carrying block contents along leaves the simulated cache as it was |
| CacheData.EveryAddressCoherent | csf_assign03/main.cpp:92-154 | after every trace under every policy each address is right in the cache if resident, right in memory if absent or clean |
| CacheData.LoadsSeeLastStore | csf_assign03/main.cpp:78-156 | every load returns the last value stored at its address |
| CacheData.CleanMeansEqual | csf_assign03/main.cpp:147-154 | a valid clean slot equals memory on its whole block |
| CacheCycles.StepBalancesDirty | csf_assign03/main.cpp:136-154 | one access: dirty slots plus a dirty eviction equal the old dirty slots plus a block made dirty |
| CacheCycles.DirtyBlocksAreConserved | csf_assign03/main.cpp:136-154 | after every trace: dirty evictions plus resident dirty slots equal clean-to-dirty transitions |
| CacheCycles.CountersCount | csf_assign03/main.cpp:222-291 | each of the four hit and miss counters is the number of loads or stores of the trace that hit or missed |
| CacheCharges.NothingIsEvicted | csf_assign03/main.cpp:111-140 | a cache with a way for every tag never evicts a dirty block |
| CacheCharges.NeverMore | csf_assign03/main.cpp:222-291 | the printed cycles are never more than the closed form |
| CacheCharges.OneLoadIsEnough | csf_assign03/main.cpp:250-255 | with blocks of 2^28 bytes or more one load makes them fewer |
| CacheCharges.OneEvictionIsEnough | csf_assign03/main.cpp:250-255 | with write-back blocks of 2^27 bytes and fewer ways than tags, stores that fill a set and one load more make them fewer |
| CacheCharges.ClosedFormIsExact | csf_assign03/main.cpp:222-291 | the cycles are, on every trace, loads + stores + store misses + 25 * block bytes * (load misses + store misses + dirty evictions) under write-back, or the like under write-through, if and only if the block size is within the limit, or is 2^27 under write-back with a way for every tag |
| CacheCharges.CyclesAreConserved | csf_assign03/main.cpp:222-291 | hits plus misses equal accesses of each kind; the cycles are at most that closed form in numbers, and equal to it wherever that is possible |
| CacheCycles.MoreWaysMoreHits | csf_assign03/main.cpp:222-291 | under LRU more ways never report fewer load or store hits |
| ChatSafety.ActionsWriteWell | csf_assign05/guard.h:6-21 | every action writes shared data only within the rules for its lock, room, user and directory entry |
| ChatSafety.ActionsLockWell | csf_assign05/guard.h:6-21 | every action takes a mutex only when it is free and releases only its own |
| ChatSafety.ShapeKept | csf_assign05/server.cpp:169-304 | allocation, liveness and references of threads, users and rooms stay consistent |
| ChatSafety.ExclusionKept | csf_assign05/guard.h:6-21 | each mutex is recorded as held by t if and only if t is in a span that holds it |
| ChatMembership.MemberedKept | csf_assign05/room.cpp:20-34 | members of a room are exactly the receivers between their add and their removal, and a broadcast owes messages to members only |
| ChatQueues.QueueKept | csf_assign05/message_queue.cpp:27-72 | one step of any thread keeps queue length equal to the semaphore plus pushers plus waiters, and the queue equal to pushed less popped |
| ChatQueues.HistoryKept | csf_assign05/message_queue.cpp:41-72 | no step of another thread disturbs what a receiver has popped and delivered |
| ChatRequests.ObedientKept | csf_assign05/server.cpp:76-304 | every step keeps, for every thread: its user has the name and role of its login, it is in the room asked for last or on its way there, and a reply says ok if and only if the last message could be granted |
| ChatRequests.AskedLast | csf_assign05/server.cpp:118-152 | the room asked for is that of a valid join with neither a valid join nor a leave after it, if there is one |
| ChatRequests.HeardIsSaid | csf_assign05/server.cpp:76-160 | what is recorded of a client is its messages among the turns taken, whatever the interleaving |
| ChatLog.EnqueueKeepsSegment | csf_assign05/room.cpp:45-49 | an enqueue completes the segment of the log the receiver is owed |
| ChatLog.CastKeepsSegment | csf_assign05/room.cpp:36-49 | starting a broadcast extends the log and owes every member exactly that entry |
| ChatLog.StintChangeKeepsSegment | csf_assign05/room.cpp:20-34 | add and remove start and end a segment at the current end of the log |
| ChatLog.LoggedKept | csf_assign05/room.cpp:20-53 | every step keeps: what was enqueued for a user is a contiguous segment of its room's log, and every log entry is the broadcast some message of a sending client asked for in that room |
| ChatLog.BroadcastStays | csf_assign05/room.cpp:40 | no step takes from a log entry the message that asked for it |
| ChatOrigins.OrderedKept | csf_assign05/server.cpp:104-117 | every step keeps: the entries of a client in a log are in the order of its messages, and every message that asks for a broadcast has an entry, but for one about to be broadcast |
| ChatTheorems.StepKeepsInv | csf_assign05/server.cpp:51-304 | every action of every thread keeps all the invariants together |
| ChatTheorems.RunsKeepInv | csf_assign05/server.cpp:51-304 | every state of every run satisfies them |
| ChatTheorems.DeliveryIsContiguous | csf_assign05/room.cpp:20-53 | whenever the room's mutex is free, the messages enqueued to a receiver are exactly the log between its add and its removal; delivered and popped are its front |
| ChatTheorems.ReceiversAgree | csf_assign05/room.cpp:36-53 | two receivers of a room got the same message for every log position both were members for |
| ChatTheorems.MembersAreAlive | csf_assign05/server.cpp:263-277 | room members and targets of enqueues in progress are users not yet deleted |
| ChatTheorems.DirectoryOnlyGrows | csf_assign05/server.cpp:358-370 | no step removes or redirects a room name |
| ChatTheorems.RoomsAreUnique | csf_assign05/server.cpp:358-370 | a name denotes one room for the rest of the run, and no other name denotes it |
| ChatAnswers.LogIsWhatWasAsked | csf_assign05/server.cpp:104-113 | over all runs, turn by turn: every log entry is room, name and text of one message to all, sent by a client logged in as a sender under that name while in that room |
| ChatAnswers.BroadcastsKeepTheirOrder | csf_assign05/server.cpp:78-117 | the messages of one client enter a log in the order it sent them |
| ChatAnswers.BroadcastOnce | csf_assign05/server.cpp:113 | no message is broadcast twice, in one room or in two |
| ChatAnswers.EveryRequestIsLogged | csf_assign05/server.cpp:104-117 | every message to all, sent while in a room, is in a log, unless its thread is still about to lock the room for it; so whatever was answered was broadcast |
| ChatAnswers.ClientsAreObeyed | csf_assign05/server.cpp:104-152 | a client has the name and role it logged in with, is in the room it asked for last or in none after leaving, and is answered with ok if and only if the request could be granted |
| ChatTheorems.SemaphoreCounts | csf_assign05/message_queue.cpp:27-72 | length equals semaphore plus threads between push and post plus the owner between wait and pop; the queue is not empty when popped; first in first out |
| ChatProgress.OnlyRoomThenQueue | csf_assign05/room.cpp:44-49 | the only nesting is a queue mutex inside a room mutex; the server mutex and queue mutexes are leaves; nothing is held at the timed wait |
| ChatProgress.HeldMutexesAreReleased | csf_assign05/guard.h:6-21 | a thread holding a mutex can step without its client, or waits for a queue mutex whose holder can |
| ChatProgress.NoDeadlock | csf_assign05/server.cpp:51-304 | every unfinished thread not waiting for its client or a message can step, or waits for a mutex holder that can, directly or through one more, a timeout or a client giving up not counting; and one waiting for its client has a step for everything the client may do |
| ChatProgress.NoLostWakeup | csf_assign05/message_queue.cpp:27-61 | a receiver waiting while its queue has a message can go on, or a thread between pushing and posting can |
| ChatTheorems.DeliveredAreBroadcasts | csf_assign05/server.cpp:55-66 | what was delivered to a receiver are the broadcasts that messages of clients asked for in the room the receiver asked for |
| ChatTheorems.SendingIsNext | csf_assign05/server.cpp:55-66 | the message being sent is the broadcast after the last delivery, so what a failing send leaves is a front of that |
| ChatTheorems.FrontStays | csf_assign05/server.cpp:61-72 | no later step changes which broadcast that front belongs to unless something is delivered |
| ChatTheorems.ClientSeesTheRoom | csf_assign05/receiver.cpp:82-119 | a client displays one line for each delivery: name and text of the messages that clients sent to the room it asked for, consecutive in the log, from the first after it joined; if the last send failed part way, at most one line more, with the sender of the next broadcast and a front of its text |
| Partition.Swap | csf_assign04/parsort.c:114-119 | exchanges two elements and nothing else |
| Partition.PartitionRegion | csf_assign04/parsort.c:134-182 | permutation of the region, strictly smaller left, greater or equal right, nothing else changed; the pivot is the element that has as many before it as after it, or one more; reads outside the array if and only if the region starts at 0 with nothing below element end / 2 |
| Partition.Converge | csf_assign04/parsort.c:151-174 | the loop ends although a swap moves neither index, with both partitions in place |
| Partition.OnlyAtTheStart | csf_assign04/parsort.c:164-167 | the right index leaves the array only from index 0 with nothing below the pivot |
| Partition.PlacePivot | csf_assign04/parsort.c:176-181 | the last swap completes the partition |
| Partition.SmallerSurvives | csf_assign04/parsort.c:144-173 | rearranging a region keeps whether something in it is below a value |
| ParallelSort.StepKeepsOk | csf_assign04/parsort.c:199-296 | whatever process moves, each works on its own region, children on the two sides of a partition, successes are sorted |
| ParallelSort.StepWorks | csf_assign04/parsort.c:199-296 | every step of any process decreases a bound on the steps left, so no schedule runs forever |
| ParallelSort.SomeoneCanMove | csf_assign04/parsort.c:199-296 | until the root has returned some process can move |
| ParallelSort.QuicksortIsSafe | csf_assign04/parsort.c:199-296 | for every interleaving and every pattern of failing calls the array is rearranged inside the region, and a success means it is sorted and nothing failed |
| ParallelSort.FailureIsSticky | csf_assign04/parsort.c:266-293 | no step makes a failure in the tree disappear |
| ParallelSort.FailureReachesTheRoot | csf_assign04/parsort.c:266-293 | after a failure anywhere in the tree the root has not returned, or returned failure, or was killed in a region from index 0 |
| ParallelSort.EveryRunReturns | csf_assign04/parsort.c:199-296 | whatever calls fail, a run that cannot go on has returned, and with failure, or killed from index 0, if anything failed |
| ParallelSort.QuicksortSucceeds | csf_assign04/parsort.c:184-198 | when no call fails, a finished run has sorted unless a process read outside the array, which needs a region from index 0 |
| ParallelSort.MinimumInTheMiddleIsFatal | csf_assign04/parsort.c:164-167 | from index 0 above the threshold, if nothing is below element n / 2, the sort never returns success |
| SortCrowded.CrowdedIsNeverSorted | csf_assign04/parsort.c:151-182 | from index 0, if the smallest value occurs more than max(threshold, 1) times, no run returns success, whatever the schedule and the failing calls |
| ParallelSort.ForksAreBounded | csf_assign04/parsort.c:225-243 | no run forks more than 2 (n - max(threshold, 1)) times above the threshold, nor at all below |
| SortFate.SplitFrontFails | csf_assign04/parsort.c:134-182 | partitioning the first n elements fails if and only if nothing is below element n / 2 |
| SortFate.SplitFrontParts | csf_assign04/parsort.c:134-182 | otherwise it leaves them partitioned around their middle element |
| SortFate.StepKeepsFate | csf_assign04/parsort.c:199-296 | no step of any process changes whether the left edge of the tree stays inside the array |
| SortFate.SortsExactlyWhen | csf_assign04/parsort.c:184-296 | when no call fails, a finished run has returned success with the region sorted if and only if the region starts after index 0 or its front survives repeated partitioning |
| SortFate.TwoEqualElements | csf_assign04/parsort.c:151-167 | a run on two equal elements, threshold 0, no call failing, that ends killed |
| SortFate.ThreeInOrder | csf_assign04/parsort.c:134-296 | every finished run on 1, 5, 9 from index 0, threshold 0, no call failing, returns success and leaves 1, 5, 9 |
| Rio.LineOf | csf_assign05/csapp.c:877-900 | a line taken off a stream, followed by the rest, is the stream; it is empty only at the end |
| Rio.BlockOf | csf_assign05/csapp.c:855-870 | a block taken off a stream, followed by the rest, is the stream; it is complete or ends the stream |
| Rio.LineStops | csf_assign05/csapp.c:882-900 | a line stops after its only newline or its last byte allowed, at the end of the stream, or having used up a failure |
| Rio.BlockBreaks | csf_assign05/csapp.c:861-868 | a block that fails is a proper front and has used up the failure |
| Rio.Reader.constructor | csf_assign05/csapp.c:843-848 | a fresh reader holds exactly the stream of its socket |
| Rio.Reader.Refill | csf_assign05/csapp.c:811-826 | refilling loses and invents no byte, and tells end of stream from failure |
| Rio.Reader.Take | csf_assign05/csapp.c:811-836 | returns at most n bytes off the front of the stream |
| Rio.Reader.ReadLine | csf_assign05/csapp.c:877-900 | the line of the flattened stream, wherever the chunks were cut |
| Rio.Reader.ReadBlock | csf_assign05/csapp.c:855-870 | the block of the flattened stream, wherever the chunks were cut |
| Rio.Sink.WriteAll | csf_assign05/csapp.c:781-798 | everything is written, or a proper front of it and -1 |
| Rio.LineAfter | csf_assign05/csapp.c:882-896 | a byte off the front either ends the line or leaves the rest of it to read |
| Rio.BlockAfter | csf_assign05/csapp.c:861-868 | bytes off the front leave the rest of the block to read |
| Codec.TrimLine | csf_assign05/connection.cpp:96-101 | popping characters gives the line without trailing newlines and carriage returns |
| Codec.SplitLine | csf_assign05/connection.cpp:103-127 | a line is received exactly when it has a colon; tag, colon and data put together are the line, and the tag has no colon |
| Codec.Connection.Send | csf_assign05/connection.cpp:48-76 | refused as invalid exactly above the limit; otherwise the encoding is written, or a proper front of it on failure; the last result says which |
| Codec.Connection.ReceiveMessage | csf_assign05/connection.cpp:79-132 | the result and the stream left are those of the specification on the flattened stream; the last result is success exactly for a message, connection lost exactly if closed, failed or ended before a byte, and invalid exactly if the trimmed line has no colon |
| Codec.LongLineIsCut | csf_assign05/csapp.c:882-898 | text with no newline is cut at the cap and the rest is read as the next line |
| Codec.RoundTrip | csf_assign05/connection.cpp:48-132 | an encoded message is received unchanged, leaving what follows, if and only if it is well formed and at most 255 bytes long |
| Codec.OnlyWellFormed | csf_assign05/connection.cpp:96-127 | whatever bytes arrive, a received message is well formed |
| Codec.ReceivedDataIsText | csf_assign05/server.cpp:81-113 | the data the server takes from a client has no newline or NUL and does not end in a carriage return; this is all `ChatModel.Commanding` assumes of it |
| Codec.ValidNamesAre | csf_assign05/server.cpp:38-48 | names are valid if and only if they are not empty and have ASCII digits and letters only |
| Codec.FramingIsExact | csf_assign05/connection.cpp:48-132 | any list of well-formed messages is received exactly as sent, whatever follows |
| Codec.DisplayInvertsPayload | csf_assign05/receiver.cpp:93-111 | sender and text come back out of the payload when room and sender have no colon, even with colons in the text, and the payload starts with the room and a colon |
| Codec.DeliveryIsFaithful | csf_assign05/room.cpp:40 | a broadcast whose delivery fits reaches the client as exactly its sender and text |
| Codec.DisplayMessage | csf_assign05/receiver.cpp:91-118 | displays a given sender and text if and only if the message is a delivery of some room, that sender and that text, the first two without a colon |
| Codec.RunReceiver | csf_assign05/receiver.cpp:82-119 | displays what the stream holds until a receive fails |
| Codec.ClientShowsEveryDelivery | csf_assign05/receiver.cpp:82-119 | a client sent any list of deliverable broadcasts displays each, in order, and then what the rest of the stream holds |
| Codec.ClientShowsACut | csf_assign05/receiver.cpp:82-119 | after a delivery cut short anywhere it displays at most one line more: the same sender and a front of the text |
| Codec.CutTextIsShown | csf_assign05/csapp.c:889-896 | every front of a text can be displayed as if it had been sent |
| Fixpoint.CompareIsIntegerOrder | csf_assign01/csf_assign01/fixpoint.c:287-335 | the comparison is the order of the integers, negative zero included |
| Fixpoint.Number.constructor | csf_assign01/csf_assign01/fixpoint.c:219 | a copy has the value copied |
| Fixpoint.Number.Negate | csf_assign01/csf_assign01/fixpoint.c:152-165 | the value changes sign, and zero stays canonical |
| Fixpoint.AddSameSign | csf_assign01/csf_assign01/fixpoint.c:39-71 | magnitudes add modulo 2^64, overflow exactly when the sum reaches 2^64, also when the result is an operand |
| Fixpoint.AddDiffSign | csf_assign01/csf_assign01/fixpoint.c:73-110 | the exact difference of magnitudes; the borrow never underflows |
| Fixpoint.Add | csf_assign01/csf_assign01/fixpoint.c:167-214 | the result is the exact canonical sum, or overflow and the magnitude modulo 2^64, if and only if the signs differ or the result is neither operand or the operand beside it is zero |
| Fixpoint.Sub | csf_assign01/csf_assign01/fixpoint.c:216-223 | the same for the difference, if and only if the result is not the left operand, or the right one is zero, or the signs agree |
| Fixpoint.AliasedSum | csf_assign01/csf_assign01/fixpoint.c:174-178 | two same-sign additions in a row give the sum, status and sign included, if and only if aliasing is harmless |
| Fixpoint.OverflowIsLost | csf_assign01/csf_assign01/fixpoint.c:174-178 | 2^63 added onto itself is reported as zero without overflow |
| Fixpoint.AliasedDifference | csf_assign01/csf_assign01/fixpoint.c:216-223 | 1 - (-1) stored onto the 1 gives 3 |
| Fixpoint.AliasedMagnitude | csf_assign01/csf_assign01/fixpoint.c:174-178 | exactly when the magnitude alone survives aliasing |
| Fixpoint.Recombined | csf_assign01/csf_assign01/fixpoint.c:238-248 | the partial products recombine without leaving 64 bits into the limbs of the product |
| Fixpoint.Limbs | csf_assign01/csf_assign01/fixpoint.c:232-248 | the upper limb is the product divided by 2^64, the others its lower bits |
| Fixpoint.Mul | csf_assign01/csf_assign01/fixpoint.c:225-285 | bits 32 to 95 of the 128-bit product; each flag exactly when a bit discarded on its side is not zero; sign of the exact product |
| FixpointHex.HexInverse | csf_assign01/csf_assign01/fixpoint.c:349-357 | the printed digits mean the number and have no leading zero |
| FixpointHex.TrimKeepsFraction | csf_assign01/csf_assign01/fixpoint.c:359-368 | dropping trailing zeros keeps the fraction |
| FixpointHex.FormatHex | csf_assign01/csf_assign01/fixpoint.c:337-380 | after printing, the buffer holds the text of the value up to its first NUL |
| FixpointHex.DropZeros | csf_assign01/csf_assign01/fixpoint.c:363-368 | the loop overwrites exactly the trailing zeros after the dot |
| FixpointHex.FormatIsMinimal | csf_assign01/csf_assign01/fixpoint.c:337-380 | digits on both sides, none redundant, meaning the value, at most 18 of the 43 characters |
| FixpointParse.ParseHex | csf_assign01/csf_assign01/fixpoint.c:382-495 | accepts what the parsing function accepts and stores its value; which texts and values those are is `FixpointTexts.ParseIsSpelling` |
| FixpointParse.Parse | csf_assign01/csf_assign01/fixpoint.c:382-495 | whatever is accepted is canonical |
| FixpointParse.RoundTrip | csf_assign01/csf_assign01/fixpoint.c:337-495 | parsing the printed text of a canonical value gives it back |
| FixpointParse.ParserReachesCanonical | csf_assign01/csf_assign01/fixpoint.c:482-494 | a value is canonical if and only if some text parses to it |
| FixpointParse.AcceptedIsPrintedWhenTidy | csf_assign01/csf_assign01/fixpoint.c:398-480 | an accepted text is the printed form of its value if and only if it is lower-case digits on both sides of the dot without a leading zero |
| FixpointParse.NoFractionIsAccepted | csf_assign01/csf_assign01/fixpoint.c:453-476 | a whole part and a dot are accepted, though the printer never writes that |
| FixpointParse.AcceptedButNotPrinted | csf_assign01/csf_assign01/fixpoint.c:453-476 | the text `8.` is accepted and is not the printed form of its value |
| FixpointTexts.ParseIsSpelling | csf_assign01/csf_assign01/fixpoint.c:382-495 | a text parses to a value if and only if it is an optional minus, a whole part, a dot and a fraction, each part empty or what the scanner reads and at most 8 characters, with the zeros the program refuses left out, and the value is that of the digits and not minus zero |
| FixpointTexts.PlainTextsMean | csf_assign01/csf_assign01/fixpoint.c:398-480 | up to 8 digits on each side of the dot, either side possibly empty, parse to the value of the digits |
| FixpointTexts.AcceptedTexts | csf_assign01/csf_assign01/fixpoint.c:411-487 | an accepted text has exactly one dot, ends in it or in a digit, and is not minus zero |
| FixpointTexts.LeadingZeros | csf_assign01/csf_assign01/fixpoint.c:427-430 | leading zeros are refused without a sign and accepted behind a minus |
| FixpointTexts.SpellingScans | csf_assign01/csf_assign01/fixpoint.c:415-419 | the scanner reads white space, a plus, a 0x and digits whole, up to a dot or the end |
| FixpointTexts.ScannedIsSpelled | csf_assign01/csf_assign01/fixpoint.c:415-419 | and reads nothing else |
| FixpointTexts.DigitsAre | csf_assign01/csf_assign01/fixpoint.c:415-419 | the digits of either case, each worth its place in the row 0 to f |
| PngFilters.PaethIsNearest | csf_assign02/pnglite.c:650-667 | the predictor is the one neighbour nearest to left + above - upper left, ties to left, then above |
| PngFilters.PredictIsPredicted | csf_assign02/pnglite.c:599-701 | by filter number: 0 adds nothing, 1 the left byte, 2 the one above, 3 the mean of both rounded down, 4 the nearest of left, above and upper left |
| PngFilters.LawfulRow | csf_assign02/pnglite.c:599-701 | a row is the decoded one if and only if every byte is its filtered byte plus, modulo 256, what the filter of that number adds, with zeros left of the row and above the image |
| PngFilters.RebuildingIsUnique | csf_assign02/pnglite.c:599-701 | one row only satisfies that every byte is its filtered byte plus its prediction, and it is the decoded one |
| PngFilters.DecodeInvertsFilter | csf_assign02/pnglite.c:599-701 | decoding inverts the forward filter, for any predictor, row above and stride |
| PngFilters.FilterInvertsDecode | csf_assign02/pnglite.c:599-701 | filtering the decoded row gives the filtered row back |
| PngFilters.SwapThenDecode | csf_assign02/pnglite.c:725-731 | swapping the bytes of wide samples before decoding equals swapping after it, as the stride is even |
| PngRows.FilterSub | csf_assign02/pnglite.c:599-611 | every byte of the row in the image is its filtered byte plus the one a stride to the left, or plus 0; nothing else changes |
| PngRows.FilterUp | csf_assign02/pnglite.c:613-626 | every byte is its filtered byte plus the one above, or plus 0 in the first row |
| PngRows.FilterAverage | csf_assign02/pnglite.c:628-648 | every byte is its filtered byte plus an x with 2 x <= left + above < 2 x + 2 |
| PngRows.FilterPaeth | csf_assign02/pnglite.c:669-701 | every byte is its filtered byte plus the nearest of left, above and upper left |
| PngRows.CopyRow | csf_assign02/pnglite.c:735-737 | copies the row, where the prediction is zero |
| PngRows.SwapSamples | csf_assign02/pnglite.c:725-731 | the row has the bytes of each sample exchanged, the rest of the buffer is unchanged |
| PngStream.UnfilterInvertsFilters | csf_assign02/pnglite.c:710-768 | for every image and every choice of a filter per row the forward-filtered stream decodes to the image, samples swapped if wide |
| PngStream.LinesOfFlat | csf_assign02/pnglite.c:719-764 | cutting a stream into lines undoes putting lines together |
| PngStream.FilteredStreamDecodes | csf_assign02/pnglite.c:710-768 | the bytes of a forward-filtered image decode to exactly as many pixels as the image has |
| PngStream.OkWhenFiltersKnown | csf_assign02/pnglite.c:733-761 | decoding succeeds if and only if every filter byte is at most 4 |
| PngStream.DecodedIsFiltered | csf_assign02/pnglite.c:710-768 | a stream of known filters is what the forward filters make of the rows it decodes to |
| PngStream.DecodesToRows | csf_assign02/pnglite.c:710-768 | and those rows are its pixels |
| PngStream.LawfulImage | csf_assign02/pnglite.c:710-768 | an image is the decoded one if and only if each of its rows satisfies the law of its filter number with the row above it |
| PngStream.StreamLaw | csf_assign02/pnglite.c:710-768 | a stream as long as the header says that decodes gives exactly such an image, of the size the header says |
| PngStream.WriteThenRead | csf_assign02/pnglite.c:808-834 | reading back the unfiltered stream gives the image, samples swapped if wide |
| PngStream.OnlyTheImage | csf_assign02/pnglite.c:819-825 | what follows the image in its buffer is not written |
| PngStream.SurvivesWhenSymmetric | csf_assign02/pnglite.c:808-834 | written and read back, an image is unchanged if and only if its samples are one byte wide or symmetric |
| PngStream.OneWidePixel | csf_assign02/pnglite.c:725-731 | one 16-bit pixel of value 1, written and read back, is 256 |
| Png.Image.constructor | csf_assign02/pnglite.c:571-572 | the buffer has one filter byte and one row of pixels per line |
| Png.Image.Unfilter | csf_assign02/pnglite.c:710-768 | NO_ERROR exactly when the stream decodes to its end; then each row of the image satisfies the law of its filter number, 0 to 4, with the row above it, and the rest of the buffer is unchanged; a stream of forward-filtered rows, whatever the filters, comes back as those rows |
| Png.Image.SetData | csf_assign02/pnglite.c:808-834 | the stream is the rows of the image as they are, each behind a zero, whatever follows the image in its buffer |
| Png.ChannelsByNumber | csf_assign02/pnglite.c:123-146 | colour types 0, 2, 3, 4 and 6 exist, and have as many bytes per pixel as palette, colour and alpha flags in the number ask for, doubled at depth 16 |
| Png.RowShape | csf_assign02/pnglite.c:123-146 | strides go with row lengths, and with 16-bit samples both are even |

## Left out

- Sockets, files, `mmap`, argument parsing, printing and all csapp wrappers: the environment is a parameter (chunks of a stream, outcomes of forks and waits, events).
- Policy strings, trace text and the tags of chat messages are enumerations; a policy string that is neither of the two checked for is not modelled, nor the wording of replies.
- CacheSimulator.Simulate: says only that hits and misses add up when index and offset bits reach 32, since the program then shifts by 32 or more, which is undefined; `CacheSimulator.Cache.Access` says nothing of its result there.
- The replacement laws speak of the first 2^32 accesses, or of the state before the clock wraps. That bound is proved exact for the recency order under LRU (`CacheLruLimit.RecencyLimitIsExact`); for the hit laws, for both inclusions and for the FIFO ring it is a hypothesis, and what holds beyond it is not settled here.
- The simulator's 64-bit counters do not wrap.
- The chat server is a transition system on values, not classes: its properties quantify over interleavings, which methods cannot express. Aliasing is captured by naming each object; memory layout, allocation failure and thread creation are not.
- A receiver's or sender's `User` is named by its worker thread, which allocates at most one; the order in which `std::set` iterates is left open.
- Time: a wait that times out is an event that may happen at any moment; no liveness is claimed, since a delivery over 255 bytes ends its receiver (`Codec.Connection.Send`).
- `qsort` is specified by what it does (it sorts the region), as are `sscanf` with `%x%n`, `snprintf`, `strncpy` and `strchr`; a 0x prefix with no digits after it is taken as a failed match, as the C standard has it.
- Characters outside ASCII, and `isalnum` in other locales.
- In `ParallelSort` a swap and a sequential `qsort` are one step each, and so is one turn of the partition loop; other processes work on disjoint regions, so finer steps would not be observed.
- A read outside the array in the partition is taken to kill the process; its other possible outcomes are undefined in C.
- Error messages the receiving client prints on its error stream.
- Integers of 64 bits in arrays are unbounded, since they are only compared and moved.
- A process whose `waitpid` fails returns failure at once and its children go on running, unreaped; which signal ended a child is not modelled. A write that returns 0 counts as interrupted or failed.
- Codec.FramingIsExact: needs every encoding within 255 bytes, because a longer line is split by the reader.
- FixpointParse.ParseHex: what a failed parse leaves in the number is not stated, as the program makes no promise about it.
- Png.Image.Unfilter: sizes are not wrapped to 32 bits; the program does not check that its buffer size fits.
- Interlacing, palettes, chunks, checksums and compression in pnglite, and its sub-byte depths; the filtered bytes are taken as they come.
- `seqsort.cpp`, `is_sorted.c`, the image transforms, the interactive `sender.cpp`, and the assembly versions: pointwise or straight-line, with nothing of the kind proved here.
