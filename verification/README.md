# Queues, semaphores and the HTTP codec

Models and proofs for the parts of RavennaRecorder that carry its hard logic: the lock-free queues of
moodycamel that it vendors in `lib/` and the codec, stream and worker-pool parts of httplib in
`src/httplib.h`. `dafny verify dfyconfig.toml` checks everything.

There are two kinds of model. Protocols between threads are state machines: a program counter for every
thread, one step for every atomic load, store or compare-and-swap, any number of threads where the source
allows any number, and theorems about every reachable state. Objects used by one thread at a time are classes
whose methods take the source's branches and loops and are proved against what they stand for: a sequence, a
map, the bytes read or written.

| file | part |
|---|---|
| `FreeList.dfy` | the free list of blocks, with its reference counts |
| `Tickets.dfy` | the optimistic tickets of single and bulk dequeues |
| `ImplicitProducer.dfy`, `BlockIndex.dfy` | the implicit producer, its blocks, its resizable index, and bulk enqueue |
| `ExplicitProducer.dfy` | the explicit producer's circular block list and ring index |
| `ExplicitReads.dfy`, `ImplicitReads.dfy` | lookups in the two indexes while the producer changes them, load by load and store by store |
| `ImplicitHash.dfy` | the chain of hash tables from thread id to implicit producer |
| `IndexArithmetic.dfy`, `Words.dfy` | wrapping index arithmetic and bit tricks on 64-bit words |
| `SpscQueue.dfy`, `ReaderWriterQueue.dfy` | the single-producer single-consumer queue, as steps and as a class |
| `Semaphore.dfy`, `SpscSemaphore.dfy` | the two lightweight semaphores |
| `BlockingQueue.dfy` | the blocking queue as the composition of an inner queue with the semaphore |
| `Chunked.dfy`, `ChunkGrammar.dfy` | chunked transfer coding, both directions, the line reader, and every message of the grammar |
| `Multipart.dfy` | the streaming multipart body search |
| `QueryCodec.dfy`, `QueryKeys.dfy`, `QueryTexts.dfy` | percent coding, printing and parsing of query parameters, which of them survive, and what any text is parsed to |
| `ThreadPool.dfy` | the worker pool |
| `Positions.dfy`, `BlockPool.dfy`, `ByteStrings.dfy`, `Options.dfy`, `Sums.dfy` | shared vocabulary |

Three idioms recur. A sum over all threads of a weight per program counter (`Sums.Sum`) expresses who holds
what; a step changes it by the weights of one thread. Pointers to blocks and index entries are positions in a
sequence of all blocks or entries, so that aliasing (an entry reached from two rings, a block reached from the
list and from the index) is kept. A history records what the operations of a run answered, beside its states, so
that theorems can say that an operation which came back with nothing had a reason to.

## Where the code and its promises differ

- `circular_less_than` is "less than" for all distances below half the range and fails at exactly half
  (`IndexArithmetic.CircularLessIsLess`); the producers refuse to start a block that would bring the tail that
  far ahead.
- `ceil_to_pow_2` and `ceilToPow2` give the least power of two from 1 to 2^63, and 0 for 0 and beyond
  (`Words.CeilToPow2`).
- A `ReaderWriterQueue` built for 0 elements has a one-slot block, which can never look non-empty; with three
  elements enqueued and two dequeued the consumer's assertion fails (`SpscQueue.OneSlotRun`). It holds in every
  run exactly for blocks of two slots or more (`SpscQueue.NeedsTwoSlots`). From 2^63 elements on the block size
  overflows to 0; all other requests give the capacity asked for (`ReaderWriterQueue.Queue.constructor`).
- `spsc_sema`'s `signal(0)` with a sleeping waiter wakes it without a permit (`SpscSemaphore.EmptySignalRun`);
  all other runs keep the invariant and only those (`SpscSemaphore.RunInv`).
- `waitMany(0)`, and with it `wait_dequeue_bulk` with a maximum of 0, returns 0 against its assertion
  (`Semaphore.WaitManyZeroGetsNothing`).
- `MAX_SUBQUEUE_SIZE` is documented as never surpassed. The implicit producer keeps it. The explicit one breaks it
  exactly when it has to add a block to a list that is as long as the limit and whose oldest block has all been
  claimed but not all been taken out (`ExplicitProducer.Producer.Enqueue`, `ExplicitProducer.LimitSurpassed`).
- An implicit producer whose first index could not be allocated fails every enqueue from then on
  (`ImplicitProducer.Producer.Enqueue`); the explicit producer tries again with each new block.
- The chunked writer takes an empty piece for the end of the data but writes no end marker, and reports
  success; the reader then fails (`Chunked.EmptyPieceLosesEnd`). It succeeds exactly when `done` was executed
  (`Chunked.ReadWritten`).
- Behind the closing multipart delimiter it matters where the bytes are cut: a line end that comes with the
  closing dashes is dropped, one that comes in the next call starts a new part (`Multipart.EpilogueDependsOnCut`).
  `Multipart.EpilogueByCut` says which cuts do what; no cut matters exactly if the epilogue has no line end
  (`Multipart.CutNeverMatters`).
- Query parameters survive printing and parsing exactly when no pair is repeated and every key survives as it is:
  keys are printed without being encoded (`QueryKeys.QueryRoundTripExact`).
- `ThreadPool::enqueue` accepts jobs after `shutdown` that are never run (`ThreadPool.AcceptedButNeverRun`); a
  job is run exactly if it was accepted before the last worker exited (`ThreadPool.RunIffAcceptedInTime`).

## Model

| member | source | states |
|---|---|---|
| FreeList.StepPreservesInv | lib/concurrentqueue.h:1459-1538 | one atomic step of any of any number of threads in `add`, `try_get` or `add_knowing_refcount_is_zero` keeps: a node's count is one reference for the list plus one per thread holding it, the flag stands for a thread that still has to add it, and the list has neither cycle nor duplicate |
| FreeList.NothingLost | lib/concurrentqueue.h:1459-1538 | in every run, once all threads are idle, exactly the nodes that are not in a client's hands are reachable from the head, each once |
| FreeList.TakenOnce | lib/concurrentqueue.h:1475-1512 | in every run a node `try_get` is about to hand out is in no other thread's and no client's hands, so it never gets two owners |
| FreeList.NextIsFrozen | lib/concurrentqueue.h:1487-1500 | while a thread in `try_get` holds a reference to a node no step of another thread changes the node's successor (no ABA) |
| FreeList.PopRemovesHead | lib/concurrentqueue.h:1496-1508 | a successful compare-and-swap of the head removes exactly the first node of the list, whatever happened since its successor was read |
| FreeList.WordIsReferences | lib/concurrentqueue.h:1459-1471 | in every run a node's word is one list reference plus the threads holding the node, plus the flag |
| FreeList.MissesWereEmpty | lib/concurrentqueue.h:1475-1512 | in every run a `try_get` that ended without a node had found the list empty when it last loaded the head |
| FreeList.LoneGet | lib/concurrentqueue.h:1475-1512 | with nobody else at work `try_get` hands out exactly the first node of a non-empty list, and changes nothing if it is empty |
| FreeList.LoneAdd | lib/concurrentqueue.h:1459-1471 | with nobody else at work `add` puts the node in front of the list |
| FreeList.NobodyWaits | lib/concurrentqueue.h:1459-1538 | no step of any thread stays where it is, whatever the others do |
| Tickets.StepPreservesInv | lib/concurrentqueue.h:1955-2052 | every atomic step of a producer and any number of consumers keeps: a ticket that read overcommit o has at least o failed tickets below it, and the grants never exceed the tail |
| Tickets.HeadNeverPassesTail | lib/concurrentqueue.h:1955-2052 | in every run `headIndex`, with all claims still to be made, is at most `tailIndex`, and the overcommit at most the optimistic count |
| Tickets.ClaimedExactlyOnce | lib/concurrentqueue.h:2248-2278 | in every run an index is below `headIndex` if and only if it belongs to a successful dequeue, single or bulk, and then to exactly one |
| Tickets.QuiescentCounters | lib/concurrentqueue.h:2040-2050 | with no dequeue under way the optimistic count less the overcommit is `headIndex` |
| Tickets.SoloDequeue | lib/concurrentqueue.h:1955-2003 | a dequeue that runs alone takes one element, or for bulk the lesser of what was asked for and what is there, starting at the head; with none it fails and changes nothing |
| Tickets.EveryDequeueAnswered | lib/concurrentqueue.h:1955-2052 | in every run each dequeue, single or bulk, gives up only when the tickets not known to have failed reach the tail it saw, asks for the lesser of what it saw and what it wants, and gets all that the tail covers; all that was got is claimed and the rest given back |
| Tickets.GrantsAtMostTail | lib/concurrentqueue.h:1991-2003 | if each granted ticket has enough failed tickets below it, at most as many tickets are granted as elements were published |
| IndexArithmetic.CircularLessIsLess | lib/concurrentqueue.h:476-482 | for distances up to half the range the wrapping comparison is "less than" if and only if the distance is not exactly half |
| IndexArithmetic.TicketTest | lib/concurrentqueue.h:1958-1991 | the wrapped comparison of the effective dequeue count with the tail decides as the unbounded one does |
| IndexArithmetic.SlotIsRemainder | lib/concurrentqueue.h:1684-1685 | masking a wrapped index gives the remainder of the unbounded one, for every power-of-two block or ring |
| IndexArithmetic.BaseIsBlockStart | lib/concurrentqueue.h:2015-2016 | clearing the low bits of a wrapped index gives the wrapped start of the unbounded index's block |
| IndexArithmetic.SlotOfIsBlockDistance | lib/concurrentqueue.h:2011-2017 | the signed division of wrapped words selects the ring slot at the distance in blocks, for every block and ring size and distances below half the range |
| IndexArithmetic.BlockBaseDiffCountsBlocks | lib/concurrentqueue.h:2643-2651 | `blockBaseDiff` on words is the block size times the number of block starts among the indices a bulk enqueue will use |
| Words.CeilToPow2 | lib/readerwriterqueue.h:654-666 | the smearing loop computes the least power of two at or above its argument from 1 to 2^63, and 0 otherwise |
| Words.LeastPow2IsLeast | lib/readerwriterqueue.h:654-666 | what is computed is at least the argument and no greater than any power of two that is |
| Words.MaskIsRemainder | lib/concurrentqueue.h:1684-1685 | `x & (2^n - 1)` is the remainder by 2^n |
| Words.ClearedIsMultiple | lib/concurrentqueue.h:2015-2016 | `x & ~(2^n - 1)` is x less that remainder |
| ImplicitHash.ProducerHash.constructor | lib/concurrentqueue.h:3332-3348 | the initial table, for any positive power of two, with nobody registered |
| ImplicitHash.ProducerHash.Probe | lib/concurrentqueue.h:3408-3449 | the probe loop of one table ends and finds an id if and only if the table holds it |
| ImplicitHash.ProducerHash.Claim | lib/concurrentqueue.h:3502-3526 | the claiming loop ends in a slot on the id's path that was unused or a tombstone, keeping all other ids findable and accounting for the slot |
| ImplicitHash.ProducerHash.LookUp | lib/concurrentqueue.h:3407-3450 | the search through all tables agrees with the map from live ids to producers; an id that was found is in the newest table afterwards |
| ImplicitHash.ProducerHash.AddTable | lib/concurrentqueue.h:3461-3484 | the new table is the least power of two, at least twice the old one, of which the count does not fill half, and hides no id |
| ImplicitHash.ProducerHash.RecycleOrCreate | lib/concurrentqueue.h:3227-3244 | hands out an inactive producer of the kind if there is one, else a new one, and none only if there is neither one nor memory; never one that a live thread has |
| ImplicitHash.ProducerHash.GetOrAdd | lib/concurrentqueue.h:3388-3533 | the map from live ids to producers answers or gains the id, no two live ids share a producer, and the count stays below three quarters of the capacity; a table is added exactly when half of the newest is used up, or three quarters while another thread is resizing; on a failed allocation the map, the producers and the count are as before, though a table that was added first stays |
| ImplicitHash.ProducerHash.Insert | lib/concurrentqueue.h:3491-3528 | the last part of the former: the id's producer, its slot, and the count, which rises by as much as the slots spoken for, so not for a reused tombstone |
| ImplicitHash.ProducerHash.Vacate | lib/concurrentqueue.h:3551-3560 | leaving one table turns the id's slot, if any, into a tombstone and keeps every other id findable |
| ImplicitHash.ProducerHash.ThreadExited | lib/concurrentqueue.h:3536-3565 | exactly the exiting id leaves the map, from all tables, and its producer becomes recyclable |
| ImplicitHash.ProducerHash.ReleaseToken | lib/concurrentqueue.h:695-701 | a token's producer becomes recyclable without touching the threads' |
| ImplicitHash.MetBeforeUnused | lib/concurrentqueue.h:3422-3448 | an id that has not been met before the first unused slot on its path is not in the table |
| ImplicitHash.RoomLeft | lib/concurrentqueue.h:3411-3422 | occupied slots of the newest table plus ids only in older ones being below its capacity, a slot is unused, so every probe loop ends |
| ImplicitHash.LiveAtMostReserved | lib/concurrentqueue.h:3419-3422 | the live ids are at most the slots spoken for, so a new table has room for all of them |
| ImplicitHash.HeldIffLive | lib/concurrentqueue.h:3399-3401 | an id is live if and only if some table of the chain holds it |
| BlockIndex.Found | lib/concurrentqueue.h:2948-2964 | the lookup of any index in the window of valid keys gives the entry with its block's base as key and its block as value, also while the tail is being rewound below it |
| BlockIndex.InsertOk | lib/concurrentqueue.h:2901-2916 | taking the slot behind the tail when it is unused or emptied keeps all blocks in use findable |
| BlockIndex.RewindOk | lib/concurrentqueue.h:2935-2939 | with the tail moved back by one every lookup still finds its entry |
| BlockIndex.GrowOk | lib/concurrentqueue.h:2966-3006 | doubling keeps every lookup and every entry in its place, and leaves the next slot unused |
| BlockIndex.AbandonOk | lib/concurrentqueue.h:2509-2512 | rewinding the tail and clearing the value undoes an insertion |
| BlockIndex.Forget | lib/concurrentqueue.h:2662-2674 | the stale keys left ahead of a rewound tail are harmless |
| ImplicitProducer.Producer.constructor | lib/concurrentqueue.h:2423-2429 | an empty producer, whether or not its first index could be allocated |
| ImplicitProducer.Producer.NewBlockIndex | lib/concurrentqueue.h:2966-3006 | the new ring lists the old entries from behind the tail round to the tail, then unused ones; on failure nothing changes |
| ImplicitProducer.Producer.InsertBlockIndexEntry | lib/concurrentqueue.h:2901-2933 | a slot for the next block, in a larger ring if need be, with all entries in use where they were; or nothing changes |
| ImplicitProducer.Producer.GetBlockIndexEntryForIndex | lib/concurrentqueue.h:2941-2964 | the entry of an index still held: its key is the block's base, its value the block |
| ImplicitProducer.Producer.RequisitionBlock | lib/concurrentqueue.h:3094-3114 | a block nobody owns, or none |
| ImplicitProducer.Producer.AddBlockToFreeList | lib/concurrentqueue.h:3067-3078 | a block given back is free or destroyed; every block is always free, destroyed or owned, and only one of these |
| ImplicitProducer.Producer.BeginBlock | lib/concurrentqueue.h:2490-2531 | starting a block either extends the producer by one empty block, or leaves every block and lookup as before |
| ImplicitProducer.Producer.Enqueue | lib/concurrentqueue.h:2487-2548 | appends the element, or fails with contents and blocks unchanged; with an index and memory to be had it succeeds if and only if the tail block has room, or one more block keeps the distance from head to tail below half the index range and within the limit |
| ImplicitProducer.Producer.Reserve | lib/concurrentqueue.h:2643-2698 | all blocks a bulk enqueue needs, linked, indexed and owned; or everything as before |
| ImplicitProducer.Producer.Undo | lib/concurrentqueue.h:2662-2679 | the recovery: looking blocks up first to last while rewinding from the end takes exactly the new blocks out of the index and gives each back once |
| ImplicitProducer.Producer.Fill | lib/concurrentqueue.h:2700-2770 | all elements constructed in order across the linked blocks, ending in the last block |
| ImplicitProducer.Producer.EnqueueBulk | lib/concurrentqueue.h:2626-2774 | all or nothing: exactly the elements appended in order, or contents, blocks and what every index is looked up to unchanged; with an index and memory to be had it succeeds if and only if no block is needed, or the last one needed keeps the distance from head to tail below half the index range and within the limit |
| ImplicitProducer.Producer.Claim | lib/concurrentqueue.h:2561-2564 | a consumer's index is the next one in order |
| ImplicitProducer.Producer.Locate | lib/concurrentqueue.h:2566-2570 | the block found for a claimed index, which stays right while other threads enqueue, dequeue, grow or rewind; the single loads are in `ImplicitReads` |
| ImplicitProducer.Producer.TakeOut | lib/concurrentqueue.h:2571-2611 | the element taken out is the one enqueued at that index, in whatever order consumers finish; its block leaves the producer and is free or destroyed if and only if it was the block's last element |
| ImplicitProducer.Producer.Dequeue | lib/concurrentqueue.h:2551-2620 | the first element, if any: first in, first out |
| ImplicitProducer.Producer.WithinLimit | lib/concurrentqueue.h:372-376 | a limited sub-queue never holds more than its limit |
| ImplicitProducer.RoomInBlock | lib/concurrentqueue.h:1605-1609 | in a block with an unfinished index fewer elements than its size have been dequeued |
| ImplicitProducer.ItemTaken | lib/concurrentqueue.h:2596-2608 | counting a dequeued element keeps every other element in its place and gives the block up exactly when all its indices are finished |
| ImplicitProducer.BlocksRemoved | lib/concurrentqueue.h:2669-2675 | taking away blocks that hold no elements yet leaves every element where it is |
| ExplicitProducer.Producer.constructor | lib/concurrentqueue.h:1771-1787 | an empty producer, whether or not its first index could be allocated |
| ExplicitProducer.Producer.NewBlockIndex | lib/concurrentqueue.h:2356-2391 | the used entries in order at the start of a ring twice as long; on failure nothing is lost |
| ExplicitProducer.Producer.IsEmpty | lib/concurrentqueue.h:1570-1592 | by flags or by count, a block is found empty if and only if all its indices are finished |
| ExplicitProducer.Producer.ResetEmpty | lib/concurrentqueue.h:1652-1664 | all marks of a block cleared |
| ExplicitProducer.Producer.ReuseBlock | lib/concurrentqueue.h:1856-1866 | the empty oldest block becomes the newest: list and last entries still list the same blocks in order with consecutive bases |
| ExplicitProducer.Producer.ExtendList | lib/concurrentqueue.h:1867-1915 | one more block between tail and oldest block and one more entry, or nothing changes |
| ExplicitProducer.Producer.BeginBlock | lib/concurrentqueue.h:1852-1949 | the oldest block is used again if and only if it is empty |
| ExplicitProducer.Producer.Enqueue | lib/concurrentqueue.h:1849-1953 | appends the element or changes nothing; with memory to be had it succeeds if and only if the tail block has room, the oldest block is empty, or one more block keeps the distance from head to tail below half the index range and within the limit; and it breaks the limit on blocks if and only if it adds a block to a list as long as the limit whose oldest block is all claimed but not all taken out |
| ExplicitProducer.Producer.Claim | lib/concurrentqueue.h:2003-2005 | a consumer's index is the next one in order |
| ExplicitProducer.Producer.Locate | lib/concurrentqueue.h:2007-2017 | the block found by the signed distance from the current slot, which stays right across reuse and growth; the single loads are in `ExplicitReads` |
| ExplicitProducer.Producer.TakeOut | lib/concurrentqueue.h:2019-2038 | the element taken out is the one enqueued at that index, in whatever order consumers finish |
| ExplicitProducer.Producer.Dequeue | lib/concurrentqueue.h:1955-2052 | the first element, if any: first in, first out |
| ExplicitProducer.Producer.LimitHolds | lib/concurrentqueue.h:372-376 | with no more blocks than the limit allows, no more elements either |
| ExplicitProducer.LimitSurpassed | lib/concurrentqueue.h:372-376 | a run in which a sub-queue limited to two elements holds four |
| ExplicitProducer.EntryAdded | lib/concurrentqueue.h:1937-1942 | writing the entry of the new tail block, reused or added, keeps the last entries listing the blocks in order with consecutive bases |
| ExplicitProducer.EntriesMoved | lib/concurrentqueue.h:2370-2378 | copying the used entries to a larger ring keeps every lookup |
| ExplicitProducer.Found | lib/concurrentqueue.h:2011-2017 | the signed distance from the current slot finds the block of every index in the list |
| ExplicitProducer.MarkedIsFinished | lib/concurrentqueue.h:1570-1592 | a block with all marks set has every index finished |
| ExplicitReads.StepPreservesInv | lib/concurrentqueue.h:1856-1942 | each store of the producer to the index and each load of any number of lookups keeps: every array, current or replaced, lists the blocks that a lookup that began with it may need |
| ExplicitReads.FindsTheBlock | lib/concurrentqueue.h:2007-2017 | in every run a lookup finds the block of its index, whatever was stored between its loads, and the block is still in the list |
| ExplicitReads.LookupsGoOn | lib/concurrentqueue.h:2007-2017 | in every run the next load of a lookup is of an existing array within its bounds |
| ExplicitReads.LookupFinishes | lib/concurrentqueue.h:2007-2017 | from every reachable state a lookup ends after its four loads with the block of its index |
| ExplicitReads.BlockAdded | lib/concurrentqueue.h:1867-1942 | from every reachable state a producer that can allocate adds its block to the list, growing the index if need be |
| ExplicitReads.BlockReused | lib/concurrentqueue.h:1856-1866 | the oldest block, once nobody is busy with it, becomes the newest |
| ExplicitReads.CopyOk | lib/concurrentqueue.h:2368-2378 | the array copied for growing lists the same blocks in the same order |
| ImplicitReads.StepPreservesInv | lib/concurrentqueue.h:2626-2698 | each store of the producer, taking back insertions included, and each step of any number of lookups keeps: the keys from the oldest block in use up to the highest inserted one are in place, and replaced rings share their entries |
| ImplicitReads.FindsTheBlock | lib/concurrentqueue.h:2941-2964 | in every run a lookup finds the entry with its index's block base and the block put there |
| ImplicitReads.TailHasKey | lib/concurrentqueue.h:2950-2956 | the lookup's assertion: the key at the tail it loaded is valid, however old the tail |
| ImplicitReads.LookupFinishes | lib/concurrentqueue.h:2941-2964 | from every reachable state a lookup ends after its four loads with the block of its index |
| ImplicitReads.EnqueuePublishes | lib/concurrentqueue.h:2626-2698 | from every reachable state an enqueue for which memory suffices begins all the blocks it wants and publishes them together, keeping the others |
| ImplicitReads.GrowPreserves | lib/concurrentqueue.h:2966-3006 | replacing the ring while lookups in the old one are under way |
| SpscQueue.StepPreservesInv | lib/readerwriterqueue.h:285-376 | every atomic step of producer and consumer keeps: blocks strictly between front and tail are full, those ahead of the tail empty, and the contents are enqueued less dequeued, with both shadow indices stale by as much as the other side has not noticed |
| SpscQueue.Fifo | lib/readerwriterqueue.h:285-376 | in every run the dequeued sequence is a prefix of the enqueued one |
| SpscQueue.MissesWereEmpty | lib/readerwriterqueue.h:306-372 | a dequeue that fails had found the whole queue empty when it loaded the tail |
| SpscQueue.BlockAheadIsEmpty | lib/readerwriterqueue.h:566-583 | the producer's assertion that the block ahead is empty holds in every run |
| SpscQueue.NextBlockIsNotEmpty | lib/readerwriterqueue.h:341-352 | the consumer's assertion that the next block is not empty holds in every run |
| SpscQueue.AlwaysEnabled | lib/readerwriterqueue.h:535-644 | in every run both threads' next steps stay within the blocks' bounds |
| SpscQueue.NeedsTwoSlots | lib/readerwriterqueue.h:105-116 | the consumer's assertion holds in every run if and only if the first blocks have at least two slots |
| SpscQueue.OneSlotRun | lib/readerwriterqueue.h:341-352 | a run of a queue with one one-slot block in which that assertion fails |
| ReaderWriterQueue.Queue.constructor | lib/readerwriterqueue.h:105-161 | an empty queue with room for the requested number of elements if and only if that is at least 1 and below 2^63, else a single block of one slot or none; one block of the least power of two if twice the maximum is enough, else blocks of the maximum, one more than the elements need |
| ReaderWriterQueue.Queue.TryDequeue | lib/readerwriterqueue.h:285-376 | hands out the first element if and only if there is one |
| ReaderWriterQueue.Queue.Peek | lib/readerwriterqueue.h:384-420 | the first element, if any, and the contents stay |
| ReaderWriterQueue.Queue.InnerEnqueue | lib/readerwriterqueue.h:535-644 | appends or fails; it fails if and only if the tail block is full, no free block is ahead, and it may not or cannot allocate, which never happens below the requested capacity; only then a block is added, twice as large as the last up to the limit |
| ReaderWriterQueue.Queue.SizeApprox | lib/readerwriterqueue.h:493-506 | with nobody else at work, the number of elements |
| ReaderWriterQueue.NoRoomMeansFull | lib/readerwriterqueue.h:535-583 | when the tail block is full and the block ahead is the front block, at least the requested capacity is held, because all other blocks are exactly full |
| ReaderWriterQueue.EnoughBlocks | lib/readerwriterqueue.h:113-136 | the initial block count gives (blocks - 1) * (block size - 1) >= the requested capacity |
| Semaphore.StepPreservesInv | lib/lightweightsemaphore.h:278-348 | every atomic step of any number of waiters and signallers, timeouts included, keeps the accounts of permits and waiters |
| Semaphore.WaitersAccounted | lib/lightweightsemaphore.h:278-348 | in every run the threads in the slow path are as many as the count is below zero, plus kernel posts made and owed |
| Semaphore.PermitsConserved | lib/lightweightsemaphore.h:278-418 | in every run the permits returned are at most those put in, and with all operations finished the count is exactly what is left |
| Semaphore.TimedOutWaiterHasPost | lib/lightweightsemaphore.h:300-314 | a timed-out waiter that sees a non-negative count has a kernel post made or in flight |
| Semaphore.NoStuckWaiter | lib/lightweightsemaphore.h:408-418 | with no post in flight, either no permit is free or every sleeper has a kernel post waiting |
| Semaphore.WaitResults | lib/lightweightsemaphore.h:357-406 | a wait gets at most what it asked for, and an untimed one something exactly when it asked for something |
| Semaphore.EveryWaitAnswered | lib/lightweightsemaphore.h:278-418 | in every run every wait started is under way or answered, every permit given is signalled or about to be, and a wait that returned less than it wanted, timed out or not, left no permit free at that moment |
| Semaphore.LoneWait | lib/lightweightsemaphore.h:357-406 | with nobody else at work a wait of any kind takes the lesser of what it wants and what is free |
| Semaphore.SignalFinishes | lib/lightweightsemaphore.h:408-418 | from every state a signal ends having posted once for each waiter it has a permit for |
| Semaphore.TimedOutGivesUp | lib/lightweightsemaphore.h:300-314 | a timed-out waiter that finds no permit free gives its claim back and returns nothing |
| Semaphore.TimedOutTakesPost | lib/lightweightsemaphore.h:300-314 | a timed-out waiter for which a post was made takes it |
| Semaphore.WaitManyZeroGetsNothing | lib/lightweightsemaphore.h:400-406 | an untimed wait for 0 permits returns 0 |
| SpscSemaphore.StepPreservesInv | lib/atomicops.h:667-745 | a step keeps the count at -1 or above and at most one kernel post outstanding if and only if it is not an empty signal to a sleeper |
| SpscSemaphore.RunInv | lib/atomicops.h:667-745 | over whole runs the invariant holds exactly as long as there was no such signal |
| SpscSemaphore.OnePermitPerWait | lib/atomicops.h:667-733 | every true-returning wait consumes exactly one permit, also through the retry loop after a timeout |
| SpscSemaphore.RetryWaitsForPost | lib/atomicops.h:697-706 | in the retry loop a kernel post is made or about to be |
| SpscSemaphore.EveryWaitAnswered | lib/atomicops.h:667-745 | in every run every wait started is under way or answered, every permit given is signalled or about to be, and a wait that returned false left no permit free at that moment |
| SpscSemaphore.LoneWait | lib/atomicops.h:716-733 | a wait that finds a permit and is not disturbed takes it |
| SpscSemaphore.EmptySignalGrantsNothing | lib/atomicops.h:736-745 | from every state of the invariant, an empty signal to a sleeper makes its wait return true without a permit |
| SpscSemaphore.EmptySignalRun | lib/atomicops.h:667-745 | a run from the start in which this happens: a wait returns true though no permit was ever put in |
| BlockingQueue.StepPreservesInv | lib/blockingconcurrentqueue.h:123-351 | every atomic step of any number of threads, inside the semaphore or the inner queue, keeps the accounts of elements and permits |
| BlockingQueue.ElementsCoverPermits | lib/blockingconcurrentqueue.h:123-130 | in every run the elements are the free permits, those taken and not redeemed, and the elements not yet signalled |
| BlockingQueue.RetryFinds | lib/blockingconcurrentqueue.h:294-351 | a dequeuer in its retry loop finds all it still needs in the inner queue |
| BlockingQueue.DequeueReturnsPermits | lib/blockingconcurrentqueue.h:324-351 | a finished dequeue returns exactly as many elements as permits it took, at most its maximum, at least one if untimed and asked for any |
| BlockingQueue.ElementsDelivered | lib/blockingconcurrentqueue.h:447-473 | every element that left the inner queue was returned once, or is in the hands of a dequeue under way |
| BlockingQueue.FifoAndQuiescent | lib/blockingconcurrentqueue.h:123-351 | elements leave in the order they came, none is lost, and with all operations finished the free permits are exactly the elements |
| BlockingQueue.EveryDequeueAnswered | lib/blockingconcurrentqueue.h:294-351 | in every run every dequeue started is under way or answered, all that was offered and accepted is enqueued in order, and a dequeue that returned less than it asked for had left no permit free when its wait ended |
| BlockingQueue.LoneDequeue | lib/blockingconcurrentqueue.h:294-351 | with nobody else at work a dequeue of any kind hands out the first elements, the lesser of what it asks for and what is there |
| BlockingQueue.LoneEnqueue | lib/blockingconcurrentqueue.h:123-130 | with nobody else at work an enqueue appends its elements and gives as many permits |
| Chunked.FromIToHex | src/httplib.h:2304-2312 | the hexadecimal text of a number |
| Chunked.HexTextNumber | src/httplib.h:2304-2312 | that text consists of digits and denotes the number |
| Chunked.StrtoulHexText | src/httplib.h:3884-3889 | the size line of a chunk is read back as its size |
| Chunked.LineReader.Append | src/httplib.h:2635-2646 | the line grows by one byte, across the change from the fixed to the growing buffer, for every buffer size from 2 |
| Chunked.LineReader.GetLine | src/httplib.h:2611-2633 | the next line, up to its line feed or the end; fails if and only if nothing is left or the connection breaks inside the line |
| Chunked.ReadContentWithLength | src/httplib.h:3826-3848 | that many bytes, however they arrive; with a receiver that takes everything it fails if and only if there are fewer, and what was delivered is always the beginning |
| Chunked.ReadContentChunked | src/httplib.h:3873-3925 | delivers and leaves unread exactly what the grammar of the chunked coding says of the incoming bytes, or fails with the part before the error delivered, or less if the receiver refused something |
| Chunked.Writer.Write | src/httplib.h:4127-4151 | one chunk for a piece, nothing for an empty one, and whether more is to come; it fails only with an unreliable connection |
| Chunked.Writer.Done | src/httplib.h:4156-4200 | the end marker; it fails only with an unreliable connection |
| Chunked.WriteContentChunked | src/httplib.h:4120-4221 | writes what the provider did up to the first call that ends without a piece; over a reliable connection it succeeds if and only if there is such a call |
| Chunked.ReadWritten | src/httplib.h:3873-3925 | reading back what was written succeeds if and only if an end is in it, and delivers the pieces before the first end, whatever follows |
| Chunked.PiecesThenEnd | src/httplib.h:4203-4217 | non-empty pieces followed by an end are all executed, over however many calls of the provider |
| Chunked.SendAndReceive | src/httplib.h:4120-4221 | writer and reader together, whatever the buffer and read sizes: non-empty pieces followed by the end go through a reliable connection to a receiver that takes everything, both succeed, and the content is their concatenation; in general the content is that of the acts executed, or a part from its start |
| Chunked.EmptyPieceLosesEnd | src/httplib.h:4127-4130 | after an empty piece the writer stops without an end marker and the reader fails |
| ChunkGrammar.MessageRead | src/httplib.h:3873-3925 | every message of the chunked grammar, with sizes in either case and with leading zeros, chunk extensions and trailer lines, is read as its chunks' data joined, and what follows it stays unread |
| ChunkGrammar.StrtoulOf | src/httplib.h:3884-3889 | every text of blanks, sign, prefix and digits in front of something else is converted to its number, capped and negated as in C |
| ChunkGrammar.NothingConverted | src/httplib.h:3884-3889 | without a digit there nothing is converted |
| ChunkGrammar.LongLineFails | src/httplib.h:3909-3910 | a trailer line that is too long ends the reading |
| ChunkGrammar.HexTextShape | src/httplib.h:2304-2312 | the writer's numbers are lower-case digits without superfluous zeros |
| ChunkGrammar.PlaceValue | src/httplib.h:3884-3889 | a digit counts sixteen times what the same digit behind it does |
| Multipart.Parser.BufFind | src/httplib.h:4566-4590 | the first position of the text in the window, or its length |
| Multipart.Parser.BufAppend | src/httplib.h:4592-4609 | the window followed by the data, moved to the front of the buffer |
| Multipart.Parser.StartWith | src/httplib.h:4546-4552 | whether the text is at that position |
| Multipart.Parser.Body | src/httplib.h:4474-4496 | delivers up to the first delimiter and goes behind it, or delivers all that cannot belong to one; fails only if the receiver refuses something |
| Multipart.Parser.Boundary | src/httplib.h:4497-4515 | behind a line end another part, with exactly what follows it left; behind dashes the end, with nothing left; else more bytes are needed and all is kept |
| Multipart.Parser.Parse | src/httplib.h:4382-4521 | one call with more bytes keeps the content delivered exact and the window equal to what is not consumed; fails only if the receiver refuses something |
| Multipart.ParseAll | src/httplib.h:4474-4496 | however the bytes are cut into calls, a receiver that takes everything gets exactly the bytes before the first CRLF--boundary of all of them, or all but as many as the delimiter has, any other receiver a part from the start of that; behind the delimiter a line end leaves exactly what follows it for the next part, and state and window are in every case those that the cuts lead to |
| Multipart.SameContent | src/httplib.h:4474-4496 | two parsers fed the same bytes in different pieces delivered the same content |
| Multipart.FoundInWindow | src/httplib.h:4566-4590 | the first delimiter in the window is the first in the whole input |
| Multipart.DeliverSure | src/httplib.h:4485-4493 | all but as many bytes as the delimiter has can be delivered without delivering a part of one |
| Multipart.EpilogueByCut | src/httplib.h:4474-4515 | for all bytes and all cuts: the parser ends at the end or expects another part exactly as the line ends and dashes at the cuts behind the delimiter say, with the right bytes left over, and reports the end if and only if dashes follow the delimiter |
| Multipart.FateIs | src/httplib.h:4497-4515 | the calls behind a delimiter lead to another part if and only if a line end is at the delimiter, or at the first cut behind dashes, and so on |
| Multipart.BehindIsFirstCut | src/httplib.h:4497-4515 | what the parser looks at behind the dashes begins at the first cut that is not before their end |
| Multipart.CutNeverMatters | src/httplib.h:4497-4511 | the cut behind the closing dashes makes no difference if and only if the epilogue contains no line end |
| Multipart.EpilogueDependsOnCut | src/httplib.h:4497-4511 | a pair of cuts of the same bytes that leave the parser in different states |
| QueryCodec.EncodeQueryParam | src/httplib.h:2427-2446 | the loop computes the encoding byte by byte |
| QueryCodec.FromHexToI | src/httplib.h:2287-2302 | the value of that many hexadecimal digits, if they are there |
| QueryCodec.DecodeUrl | src/httplib.h:2480-2515 | the loop computes the decoding, %XX and %uXXXX escapes and plus signs included |
| QueryCodec.DecodeEncoded | src/httplib.h:2427-2515 | decoding undoes encoding on every byte string, with either treatment of plus signs |
| QueryCodec.Trim | src/httplib.h:2535-2544 | the bounds of what is left between positions without blanks around it |
| QueryCodec.Split | src/httplib.h:2563-2583 | the non-empty pieces between separators, without blanks around them |
| QueryCodec.ParamsToQueryStr | src/httplib.h:4259-4269 | the loop prints the pairs in order |
| QueryCodec.ParseKeyValue | src/httplib.h:4278-4286 | the first piece is the key, the last of the others the value |
| QueryCodec.ParseQueryText | src/httplib.h:4271-4292 | the loop inserts each new piece's decoded pair into the multimap |
| QueryCodec.ParseQueryString | src/httplib.h:4259-4292 | parsing what was printed gives the parameters, each pair once |
| QueryCodec.QueryRoundTrip | src/httplib.h:4259-4292 | for keys that survive, the multimap comes back unchanged if and only if no pair is repeated |
| QueryKeys.QueryRoundTripExact | src/httplib.h:4259-4292 | every multimap comes back unchanged if and only if no pair is repeated and every key is not empty, has no separator and no blank at either end, and decodes to itself |
| QueryKeys.OneParameterRoundTrip | src/httplib.h:4259-4292 | one parameter comes back unchanged if and only if its key is of this kind |
| QueryKeys.TextYield | src/httplib.h:4271-4292 | the text of a parameter is parsed to parameters no longer than it, and to shorter ones unless the key comes back whole |
| QueryCodec.PlainKeyOk | src/httplib.h:2433-2435 | keys of the characters the encoder leaves alone are such keys |
| QueryTexts.DecodeTokens | src/httplib.h:2480-2515 | every text of literals, %XX, %uXXXX and stray percent signs is decoded to their meanings joined, plus signs being spaces only if asked for |
| QueryTexts.EveryTextHasTokens | src/httplib.h:2480-2515 | and there is no other text |
| QueryTexts.Utf8IsCodePoint | src/httplib.h:2314-2344 | the bytes for %uXXXX are the UTF-8 of the number, and none for surrogates |
| QueryTexts.EncodedByteIs | src/httplib.h:2427-2446 | letters, digits and marks are kept, all other bytes become a percent sign and two upper-case digits |
| QueryTexts.TrimmedIs | src/httplib.h:2535-2544 | trimming takes spaces and tabs off both ends and nothing else |
| QueryTexts.SplitJoined | src/httplib.h:2563-2583 | splitting undoes joining |
| QueryTexts.KeyAndLastValue | src/httplib.h:4278-4286 | of several equals signs the first ends the key and the last begins the value |
| QueryTexts.ParsedIs | src/httplib.h:4271-4292 | the multimap is sorted and holds exactly the decoded parameters of the pieces with a key, each different piece's once |
| ThreadPool.StepPreservesInv | src/httplib.h:662-737 | every step of any number of workers and clients, spurious wake-ups included, keeps mutual exclusion, the accounts of jobs, the limit, and that no wake-up is lost |
| ThreadPool.ShutdownDrains | src/httplib.h:688-721 | once all workers have exited, every job accepted before the shutdown was run exactly once |
| ThreadPool.RunIffAcceptedInTime | src/httplib.h:673-721 | in every run in which all workers exit, the jobs run are exactly those accepted up to the last exit, each once |
| ThreadPool.EachJobOnce | src/httplib.h:706-721 | in every run the jobs taken are finished or being run, each once, and were taken in the order accepted |
| ThreadPool.EveryEnqueueAnswered | src/httplib.h:673-685 | in every run every enqueue started is under way, accepted, or refused with the list at its limit; without a limit none is refused |
| ThreadPool.NoLostWakeUp | src/httplib.h:673-699 | jobs never wait with all workers asleep and no notify on its way; after a shutdown nobody sleeps on |
| ThreadPool.LimitKept | src/httplib.h:676-678 | a positive queue limit is never exceeded |
| ThreadPool.NeverStuck | src/httplib.h:673-721 | with a job or a shutdown pending and a worker left, some thread can go on |
| ThreadPool.NothingStartsAfterExit | src/httplib.h:713-717 | once all workers have exited no job is started, in any run |
| ThreadPool.AcceptedButNeverRun | src/httplib.h:673-685 | a reachable state in which a job was accepted after all workers had exited |

## Left out

- Weak memory orderings: all atomic operations are taken to be sequentially consistent.
- Elements are integers, which cannot throw; constructors and assignments that throw, and their recovery paths, are not modelled.
- Blocks, index entries and tables of the queues are values in sequences referred to by position, not heap objects; `prev` links that only serve freeing are not kept.
- Indices are unbounded in `Tickets`, `ImplicitProducer`, `ExplicitProducer`, `ImplicitReads` and `ExplicitReads`; `IndexArithmetic` shows separately that the wrapped comparisons, masks and divisions agree with them.
- `ImplicitProducer.Producer` and `ExplicitProducer.Producer` take producer calls one at a time; a consumer's ticket, its lookup and its taking out are separate steps, but each of them is one step. `ImplicitReads` and `ExplicitReads` have the single loads and stores of the lookup and the index; there a block is found empty at any time when no consumer is busy with it.
- `ImplicitProducer.Producer` does not model `dequeue_bulk`; its tickets are in `Tickets`.
- `ExplicitProducer.Producer` does not model `enqueue_bulk` and `dequeue_bulk`; the latter's tickets are in `Tickets`.
- The block pool of the two producers is a plain list; that the lock-free one gives no block out twice and loses none is `FreeList`.
- `ImplicitHash.ProducerHash.GetOrAdd`: calls are taken one at a time; another thread holding the resize lock is a number of failed attempts at it and adds no table.
- Overflow of table, index and block sizes: memory runs out first.
- `ReaderWriterQueue.Queue.constructor`: a failing allocation, on which the source aborts.
- `SpscQueue` models `try_dequeue` and `inner_enqueue` as steps; `peek`, `pop` and `size_approx` only appear in the class.
- Kernel semaphores are counters, clocks are a free choice of which comes first.
- `Semaphore` and `BlockingQueue` do not convert sizes to signed numbers: a maximum of 2^63 or more is not modelled.
- `BlockingQueue`: the inner queue is one atomic sequence whose dequeues may miss elements; consumer and producer tokens are not distinguished.
- `Chunked.ReadContentChunked`: trailer lines are skipped where the source also parses them; `Chunked.WriteContentChunked`: no trailer, no compression, and no shutdown while writing.
- `Chunked.LineReader`: a fixed buffer of fewer than two bytes, with which the source reads uninitialised memory.
- `Multipart.Parser` begins with the body; preamble and header states rest on `std::regex` and are not modelled, so reaching the next part ends a run.
- The rest of httplib (routing, ranges, authentication, TLS, compression, sockets) and the recorder's own file, process and network code.
- `ThreadPool`: jobs do not throw, and the destructor is not modelled.
- Moving and swapping queues, destructors, and debug variants.
