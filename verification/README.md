# L3KV: a verified model

L3KV is a replicated key-value store. Clients write through an engine that logs every change, keeps its keys in
eight shards and indexes the values in a Merkle tree; nodes repair each other by comparing trees and pulling values
under last-writer-wins. This project models the parts where that is hard to get right and proves what they promise,
for every input, every interleaving or every run. `dafny verify dfyconfig.toml` checks all of it.

The modules follow the program:

- **Queue.** `Circular`, `FreeList`, `DequeueProtocol` and `BlockProtocol` are the lock-free queue that feeds each
  shard: the free list of blocks, the dequeue counters, and the blocks of a producer with their shared index, each a
  state machine whose steps are single atomic operations of any number of threads. `SharedIndex` holds the facts about
  index entries that several headers share, `ConsumerSteps` and `ProducerSteps` the proofs for the steps, `QueueRuns`
  what holds in every run, and `QueueCalls` how the calls of a run and the contents of the queue belong together.
  `BlockSupply` is what a caller gets from the free list and the pool. `BlockIndex` and `ImplicitProducer` are the same
  code as imperative methods with their loops, run call by call, proved to refine a plain first-in-first-out sequence.
- **Clock.** `Clock` is the hybrid logical clock with its 32-bit counters and the thread-local batches.
- **Log.** `Polynomials`, `Crc` and `Wal` are polynomials over two elements, the checksum, and the write-ahead log down
  to the bytes of the file.
- **Index and engine.** `Hashing`, `Merkle`, `Leaves`, `Store` and `Engine` are the lazy Merkle tree, what its leaves
  stand for, the commands with what they log, and the engine object that ties shards, log and tree together.
- **Replication.** `Lww`, `SyncCodec`, `Replica`, `Cluster`, `Wire`, `DrillDown`, `Pull`, `Round` and `SlowClock` are
  last-writer-wins, the wire format, the message handlers, and the runs of the protocol: n replicas with clients, their
  messages as bytes, the drill-down through the tree, the pull of divergent buckets, a whole round in which the two
  overlap, and a run in which a local write goes back in time.

`Arith` holds the arithmetic of circular indices.

## Parameters and preconditions

The hash (XXH3), the normalisation of values, the field patches and the metadata record of lite3 are function
parameters, gathered in `Store.Codec`; `Store.Lawful` is all that is assumed of them: normalisation is idempotent, a
field that has been set reads back while the other fields stay, and the metadata record gives back its time and tombstone
for wall times up to 2^53, since they pass through a double.
Readings of the physical clock, the success of allocations, the block that `requisition_block` offers (never one in
use), the order in which a bucket is listed, and what other threads do between locks are parameters too. Hash collisions
are excluded only in `DrillDown.CollisionFree` and `Pull.GoodHash`, and only between the two trees or among the values
that were written. User keys are shorter than 1019 bytes, hold no NUL and do not end in `:meta`; patch fields hold no
colon.

The network keeps every message that was sent. It may deliver it at any time, in any order, any number of times, or
never, which covers loss, repetition and reordering.

## What the code does not do

Some properties one might expect are false of the code; each has a theorem that says exactly when they hold.

- A local `put` or `del` does not compare times, and `apply_mutation` does not advance the clock, so a local write can
  move the time of a key back (`Lww.PutIsMutationExactlyWhenLater`, `Lww.DelIsMutationExactlyWhenLater`);
  `SlowClock.TimeGoesBack` is a run of two replicas in which it does. src/engine/clock.hpp:46-47 offers `update` for
  received times; no handler calls it, and the model follows the handlers.
- A patch that throws on the value is in the log all the same, and replay applies its metadata half
  (`Store.FailedPatchIsReplayed`). Every prefix of the log of a run replays to the live store if and only if no command
  of the run is of that kind (`Store.RebuildsExactlyWhenFaithful`).
- The log casts lengths to 16 and 32 bits without looking (`Wal.ComesBackExactlyWhenItFits`).
- A thread-local clock can issue timestamps out of order when its physical clock goes back
  (`Clock.BackwardReadingBreaksOrder`): exactly when a call is answered from a batch that a fallback of the thread to the
  global clock has passed over (`Clock.RisesExactlyUnlessServedLate`). `now` and `update` too have an exact condition for
  moving forward.
- Only values are compared, so two records with the same non-empty value and different times are never pulled and stay
  apart (`Pull.OneValueTwoTimes`). After both pulls the records of a key agree if and only if it is not such a pair
  (`Pull.RecordsAgreeExactly`). Two deletions of a key are told apart, since an empty local value counts as hash 0
  (`Pull.DeletionsAreCompared`).

## Model

| member | source | states |
|---|---|---|
| `Circular.AgreesExactlyBelowHalf` | lib/concurrentqueue/concurrentqueue.h:477-483 | for unsigned values of any width, the wrapped comparison agrees with `<` on the unwrapped indices if and only if their distance is in the half range that the comparison can tell apart |
| `Circular.TruncationKeepsDifference` | lib/concurrentqueue/concurrentqueue.h:477-483 | the wrapped difference of two indices depends only on their true difference |
| `FreeList.ReachableInv` | lib/concurrentqueue/concurrentqueue.h:1459-1538 | every interleaving of any number of threads running `add`, `try_get` and `requisition_block`, one atomic operation at a time, keeps the free-list invariant: reference words equal the references held, the chain from the head is the blocks placed on it |
| `FreeList.EveryBlockInOnePlace` | lib/concurrentqueue/concurrentqueue.h:1466-1538 | in every reachable state each block is in exactly one of: unused pool, free list, flagged with a thread still holding a reference, being added or taken by one thread, owned by one thread; the chain is acyclic; every pointer a thread is about to follow is to an existing block; the packed word stays in range |
| `FreeList.TakenBlockIsNotFlagged` | lib/concurrentqueue/concurrentqueue.h:1490-1498 | the assertion after the successful CAS on the head never fails, and no other thread owns the block taken |
| `FreeList.IdleListIsExact` | lib/concurrentqueue/concurrentqueue.h:1459-1538 | when no thread is inside an operation the list holds exactly the recyclable blocks that have left the pool and that nobody holds |
| `BlockSupply.SoloRequisition` | lib/concurrentqueue/concurrentqueue.h:3096-3114 | from every reachable state at rest, a request that runs alone gains the next block of the pool; when that is used up, exactly the first block of the list, and the list is the rest; when that is empty too, a new block if and only if it may allocate and the allocation succeeds; nobody else is affected |
| `BlockSupply.SoloAdd` | lib/concurrentqueue/concurrentqueue.h:1459-1471 | from every reachable state at rest, a block given back alone becomes the first of the list, or is freed if it is not recycled |
| `BlockSupply.GivesUpOnlyOnEmptyList` | lib/concurrentqueue/concurrentqueue.h:1473-1510 | in every run a thread leaves the list without a block only if it has itself found the list empty during that call |
| `FreeList.CasTakesFirst` | lib/concurrentqueue/concurrentqueue.h:1487-1498 | in every run, when the popping CAS is about to succeed, the block is the first of the list, its successor is the one that was read (no ABA), and the list afterwards is the rest |
| `FreeList.LastReleaserAdds` | lib/concurrentqueue/concurrentqueue.h:1500-1506 | in every run the thread that drops the last reference to a flagged block becomes its adder, and no other thread has the block in any way |
| `FreeList.KeepSubOne` | lib/concurrentqueue/concurrentqueue.h:1500-1506 | giving up a reference on a failed attempt keeps the invariant |
| `FreeList.SetFlagDecides` | lib/concurrentqueue/concurrentqueue.h:1459-1471 | in every run setting the flag makes the caller the only adder if nobody held a reference, and otherwise leaves the block flagged with a holder that will add it |
| `FreeList.KeepAddCasHead` | lib/concurrentqueue/concurrentqueue.h:1516-1538 | pushing keeps the chain, success or failure |
| `FreeList.FailedPushIsRetriedOnce` | lib/concurrentqueue/concurrentqueue.h:1530-1535 | in every run a failed push puts the flag back, and either this thread alone retries or a holder of a reference will |
| `FreeList.KeepPool` | lib/concurrentqueue/concurrentqueue.h:3056-3064 | each pool block is handed out once |
| `FreeList.KeepNext` | lib/concurrentqueue/concurrentqueue.h:1459-1538 | every single step keeps the invariant |
| `DequeueProtocol.ReachableInv` | lib/concurrentqueue/concurrentqueue.h:2551-2619 | every interleaving of one producer with any number of single and bulk consumers keeps the claim-by-claim account of the counters |
| `DequeueProtocol.CountersBalance` | lib/concurrentqueue/concurrentqueue.h:2551-2619 | in every reachable state the optimistic count is the head plus the overcommit plus the claims under way, and the head with all granted takes stays below the tail |
| `DequeueProtocol.EachIndexDeliveredOnce` | lib/concurrentqueue/concurrentqueue.h:2780-2879 | every index below the head went to exactly one consumer, and nothing beyond the tail is delivered |
| `DequeueProtocol.SoloDequeueTakesWhatIsLeft` | lib/concurrentqueue/concurrentqueue.h:2248-2338 | from any idle reachable state a call that runs alone takes all that is left up to its maximum: overcommits never leave items behind |
| `DequeueProtocol.KeepDecision` | lib/concurrentqueue/concurrentqueue.h:2258-2275 | the decision after re-reading the tail splits a claim into a grant and a refusal that fit |
| `DequeueProtocol.GrantsFit` | lib/concurrentqueue/concurrentqueue.h:2551-2619 | all grants together lie below the tail |
| `DequeueProtocol.HeadBelowTail` | lib/concurrentqueue/concurrentqueue.h:2551-2619 | the head with all pending increments never passes the tail |
| `DequeueProtocol.ItemsArePublished` | lib/concurrentqueue/concurrentqueue.h:2544-2547 | in every run the items are what the producer has published, in order |
| `SharedIndex.StaleLookup` | lib/concurrentqueue/concurrentqueue.h:2949-2963 | whatever header and tail a thread has loaded, and whatever later block has taken over the entry at that tail, the slot computed for a block is the slot of that block in that header |
| `SharedIndex.CheckedRoom` | lib/concurrentqueue/concurrentqueue.h:2908-2910 | if the entry behind the tail is unset or its value is null, the block one round before is no longer in use |
| `SharedIndex.CheckedFull` | lib/concurrentqueue/concurrentqueue.h:2908-2910 | if it is neither, the block one round before is in use, and every later entry has the key of its own block |
| `SharedIndex.KeepKey` | lib/concurrentqueue/concurrentqueue.h:2912 | storing the key of the next block touches no entry in use, and the key fits every header that shares the cell |
| `SharedIndex.KeepTailStore` | lib/concurrentqueue/concurrentqueue.h:2913 | the tail moves on to the entry just keyed; all blocks in use keep their entries |
| `SharedIndex.KeepValueStore` | lib/concurrentqueue/concurrentqueue.h:2532-2533 | storing the block completes its entry: the block is in use |
| `SharedIndex.KeepRewind` | lib/concurrentqueue/concurrentqueue.h:2935-2939 | moving the tail back over a block not in use keeps all others |
| `SharedIndex.KeepClear` | lib/concurrentqueue/concurrentqueue.h:2599-2606 | clearing the value of a block keeps every other block in use, whatever the producer is doing |
| `SharedIndex.KeepDoubled` | lib/concurrentqueue/concurrentqueue.h:2966-3008 | the doubled header shares the old entries: every block in use keeps its entry, all old headers stay in step with the new one, there is room behind the new tail, and the entry there is unset |
| `ConsumerSteps.KeepConsume` | lib/concurrentqueue/concurrentqueue.h:2780-2879 | whatever the other threads are doing, the next load or store of a consumer with a claim is defined, with the assertions of the lookup, and keeps the invariant of the queue |
| `ProducerSteps.KeepProduce` | lib/concurrentqueue/concurrentqueue.h:2626-2774 | the same for the next load or store of the producer, in an insertion and in the undoing of a failed one, given that memory for the index has the right size and that a block offered is in nobody's use |
| `QueueRuns.ReachableInv` | lib/concurrentqueue/concurrentqueue.h:2487-3008 | every interleaving of one producer with any number of single and bulk consumers, one load or store at a time, keeps the invariant of index, blocks, claims and releases |
| `QueueRuns.EveryLookupFinds` | lib/concurrentqueue/concurrentqueue.h:2941-2964 | in every run, however stale the header and the tail a consumer has loaded, the slot it computes holds the entry with the base of its block and that block, which holds every item the consumer has come for: both assertions of the lookup hold |
| `QueueRuns.NobodyIsStuck` | lib/concurrentqueue/concurrentqueue.h:2487-2879 | in every run a consumer with a claim and a producer with a call can take their next step: no null or foreign block is touched |
| `QueueRuns.EveryIndexGoesToOne` | lib/concurrentqueue/concurrentqueue.h:2551-2612 | in every run each claimed index belongs to one consumer or one delivery, and what is delivered is what was published there |
| `QueueRuns.CountFinishes` | lib/concurrentqueue/concurrentqueue.h:1597-1634 | a consumer that counts its items goes on to clear the entry if and only if with them the block, which was not finished before, is finished |
| `QueueRuns.ReleasedOnceByTheLast` | lib/concurrentqueue/concurrentqueue.h:2599-2609 | in every run each block number is released at most once, as the block that had it, by the consumer that counted the last of its items; a block that is finished is being released or has been |
| `QueueRuns.BlocksHaveOneOwner` | lib/concurrentqueue/concurrentqueue.h:2487-2879 | in every run each block owned is in exactly one place: in use under one number, in the hands of the producer, or with one releasing consumer; none is lost |
| `QueueRuns.NothingStaysStaged` | lib/concurrentqueue/concurrentqueue.h:2658-2679 | between calls, failed or not, the only blocks in use are those of published items, every unfinished one among them; a failed call has given back all it allocated, while consumers went on |
| `QueueRuns.QueueAtRest` | lib/concurrentqueue/concurrentqueue.h:2487-2879 | when no thread is at work, the queue owns exactly one block for each number from that of the head to that of the last item, the items not yet dequeued are in them, exactly the blocks before the head have been released, and every index below the head has been delivered |
| `QueueCalls.ItemsAreAsked` | lib/concurrentqueue/concurrentqueue.h:2772-2773 | in every run the published items are the concatenation, in the order of the schedule, of what the calls were asked to append; a call has appended all of it if it is over and was refused neither memory nor a block, and nothing otherwise |
| `QueueCalls.DeliveredWasAsked` | lib/concurrentqueue/concurrentqueue.h:2780-2879 | in every run what is delivered is what the calls were asked to append, at the index of the delivery |
| `QueueCalls.CallsEnd` | lib/concurrentqueue/concurrentqueue.h:2626-2774 | in every run a call of the producer is over after a number of its own operations that depends only on the number of items, whatever the consumers do |
| `QueueCalls.ClaimsEnd` | lib/concurrentqueue/concurrentqueue.h:2780-2879 | in every run a consumer has served a claim of n items after at most 5 n + 3 of its own operations, whatever the others do |
| `BlockIndex.LookupFinds` | lib/concurrentqueue/concurrentqueue.h:2941-2964 | with the current header and tail, the slot computed for every live item index is the slot of its block, with the right key and a non-null value |
| `BlockIndex.PushRepresents` | lib/concurrentqueue/concurrentqueue.h:2901-2917 | inserting an entry keeps every older live block findable |
| `BlockIndex.FillRepresents` | lib/concurrentqueue/concurrentqueue.h:2532-2536 | publishing the block pointer completes the insertion |
| `BlockIndex.RewindRepresents` | lib/concurrentqueue/concurrentqueue.h:2935-2939 | rewinding after a failed allocation restores the index |
| `BlockIndex.RewindMany` | lib/concurrentqueue/concurrentqueue.h:2664-2676 | undoing a bulk allocation step by step restores the index |
| `BlockIndex.LookupDuringUndo` | lib/concurrentqueue/concurrentqueue.h:2668-2674 | while undoing, each block still to be given back is found |
| `BlockIndex.ClearRepresents` | lib/concurrentqueue/concurrentqueue.h:2599-2608 | clearing the value of a drained block keeps all other live blocks findable |
| `BlockIndex.CopyOldEntries` | lib/concurrentqueue/concurrentqueue.h:2982-2991 | the do-while copy unrolls the circle, oldest entry first, each entry once |
| `BlockIndex.NewBlockIndex` | lib/concurrentqueue/concurrentqueue.h:2966-3008 | the loops of the doubling compute the doubled index |
| `BlockIndex.GrownRepresents` | lib/concurrentqueue/concurrentqueue.h:2966-3008 | doubling keeps every live block findable and leaves room behind the tail |
| `ImplicitProducer.DrainedByCount` | lib/concurrentqueue/concurrentqueue.h:1597-1634 | the completion counter of a block reaches the block size exactly when all its items are finished |
| `ImplicitProducer.MoveOut` | lib/concurrentqueue/concurrentqueue.h:2808-2830 | moves the claimed items out of a block in order and counts them |
| `ImplicitProducer.Producer.constructor` | lib/concurrentqueue/concurrentqueue.h:2423-2431 | an empty queue with an empty block index |
| `ImplicitProducer.Producer.InsertEntry` | lib/concurrentqueue/concurrentqueue.h:2901-2933 | run without interference: takes the slot behind the tail, doubling the index when that slot is in use; fails only without memory, and then changes nothing |
| `ImplicitProducer.Producer.Enqueue` | lib/concurrentqueue/concurrentqueue.h:2487-2548 | run without interference: appends one item, or fails without changing the queue or the blocks; fails only when an allocation fails |
| `ImplicitProducer.Producer.AllocateBlocks` | lib/concurrentqueue/concurrentqueue.h:2642-2700 | run without interference: allocates all blocks of a bulk insertion or gives back every one of them |
| `ImplicitProducer.Producer.UndoBlocks` | lib/concurrentqueue/concurrentqueue.h:2661-2679 | run without interference: a failed bulk allocation restores blocks and index |
| `ImplicitProducer.Producer.FillBlocks` | lib/concurrentqueue/concurrentqueue.h:2702-2771 | constructs the items block by block |
| `ImplicitProducer.Producer.EnqueueBulk` | lib/concurrentqueue/concurrentqueue.h:2626-2774 | run without interference: appends all items in order, or leaves the queue, the blocks owned and the blocks in use exactly as they were |
| `ImplicitProducer.Producer.Claim` | lib/concurrentqueue/concurrentqueue.h:2561-2563 | a granted claim removes items from the front of the abstract queue |
| `ImplicitProducer.Producer.Finish` | lib/concurrentqueue/concurrentqueue.h:2565-2612 | run without interference: a claimed index yields the item enqueued at that position; its block is released exactly when its last item is finished |
| `ImplicitProducer.Producer.FinishBulk` | lib/concurrentqueue/concurrentqueue.h:2780-2879 | run without interference: a claimed range yields its items in order; exactly the drained blocks are released |
| `Clock.OrderIsTotal` | src/engine/clock.hpp:17-31 | the timestamp order is total and transitive and `<=` is less or equal |
| `Clock.NowAdvances` | src/engine/clock.cpp:16-57 | `now` moves the clock forward if and only if it does not end an overflow spin on a reading that went back |
| `Clock.UpdateAdvances` | src/engine/clock.cpp:59-81 | `update` passes both the clock and the message if and only if the counter it increases is not the largest 32-bit value |
| `Clock.NowAfterUpdate` | src/engine/clock.cpp:16-81 | after `update(m)` the next `now` is later than m and than everything issued |
| `Clock.NowIsLeast` | src/engine/clock.cpp:16-57 | `now` takes the least state that is later than the clock and not before the last reading taken |
| `Clock.UpdateIsLeast` | src/engine/clock.cpp:59-81 | `update` takes the least state that is later than the clock and the message and not before the reading |
| `Clock.ClockIsLatestShown` | src/engine/clock.cpp:16-148 | after every interleaving the wall time of the clock is the largest of 0, the physical readings and the message times it has been shown, so it never runs ahead; its logical part is 0 if and only if the last step that moved the clock has set it to a physical reading alone |
| `Clock.HybridLogicalClock.Now` | src/engine/clock.cpp:16-57 | the spin loop and the branches compute the specified clock state and timestamp; the clock has moved forward exactly when the overflow spin does not end on a reading that went back, and then to the least state later than before and not before the last reading |
| `Clock.HybridLogicalClock.Update` | src/engine/clock.cpp:59-81 | the merge of clock, message and physical time, with 32-bit wrap-around; the clock passes both its old state and the message exactly when nothing wraps, and then goes to the least state that does and is not before the reading |
| `Clock.HybridLogicalClock.ReserveLogical` | src/engine/clock.cpp:83-105 | refuses exactly when the time is outdated or the batch does not fit in 32 bits; the clock never goes back; a batch granted begins with the first logical value not reached before at that time, and ends at the new state of the clock |
| `Clock.NoTimestampTwice` | src/engine/clock.cpp:83-148 | across any number of thread-local clocks, global calls and updates, no timestamp is issued twice, also when a batch ends at the largest 32-bit value |
| `Clock.DirectNowIsLatest` | src/engine/clock.cpp:16-57 | a direct `now` is later than everything issued or reserved before |
| `Clock.SoloNow` | src/engine/clock.cpp:107-148 | a thread-local call that runs alone is served with the next of its batch; otherwise, if a batch can be reserved, with the first free logical value, the rest of the batch being kept; otherwise with the least time later than the global clock |
| `Clock.RetriesWhereClockMoved` | src/engine/clock.cpp:131-146 | a thread whose reservation was refused reserves again at the new time if its physical clock has moved |
| `Clock.BatchesAreServedInOrder` | src/engine/clock.cpp:107-148 | in every run a thread uses its batch without leaving anything out: all of it up to what is next has been issued to it |
| `Clock.StepKeepsOrderExactly` | src/engine/clock.cpp:107-148 | a step leaves the timestamps of a thread rising if and only if it does not answer from a batch of which what is next is not later than all the thread was given |
| `Clock.RisesExactlyUnlessServedLate` | src/engine/clock.cpp:107-148 | for every interleaving, the timestamps of a thread rise if and only if no call of it is answered from a batch that a fallback of the thread has passed over |
| `Clock.ThreadTimestampsRise` | src/engine/clock.cpp:107-148 | in particular they rise if the physical clock that the thread reads never goes back |
| `Clock.BackwardReadingBreaksOrder` | src/engine/clock.cpp:107-148 | they need not rise otherwise: a run is given |
| `Crc.MaskSelects` | src/engine/wal.hpp:102 | the mask selects the polynomial exactly when the low bit is set |
| `Crc.Process` | src/engine/wal.hpp:97-104 | the nested loops compute the shift register after the bytes |
| `Crc.ComputeCrc` | src/engine/wal.hpp:94-109 | the checksum of operation, key and payload, and that it is the CRC-32 of section 8 of RFC 1952: its complement, low bit first, is the remainder of the stream modulo the generator |
| `Crc.PolynomialIsGenerator` | src/engine/wal.hpp:102 | the constant of the source, low bit first, is x^32 + x^26 + x^23 + x^22 + x^16 + x^12 + x^11 + x^10 + x^8 + x^7 + x^5 + x^4 + x^2 + x + 1 without its highest power |
| `Crc.FeedDivides` | src/engine/wal.hpp:97-104 | for every register and stream the register afterwards is congruent, modulo the generator, to the register times x^8 for each byte plus the stream times x^32 |
| `Crc.FeedIsRemainder` | src/engine/wal.hpp:94-109 | from the initial register it is the remainder, of degree below 32, of the bits, bytes low bit first, followed by 32 zeros, the first 32 bits complemented |
| `Crc.ChecksumIsTheOnly` | src/engine/wal.hpp:94-109 | a word is the checksum if and only if it is that remainder: no other word is |
| `Polynomials.RemainderIsUnique` | src/engine/wal.hpp:94-109 | modulo a polynomial of degree d there is one remainder of degree below d |
| `Crc.BitStepInjective` | src/engine/wal.hpp:102 | the bit step is injective |
| `Crc.BitStepOnto` | src/engine/wal.hpp:102 | the bit step is onto: each state has a predecessor |
| `Crc.FeedIsDivision` | src/engine/wal.hpp:97-104 | feeding up to four bytes is XOR of the packed bytes followed by bit steps only |
| `Crc.FourByteBurstDetected` | src/engine/wal.hpp:94-109 | streams of equal length that differ only within four consecutive bytes leave different register states |
| `Crc.ChecksumBytes` | src/engine/wal.hpp:43-49 | a checksum written as four bytes reads back as itself |
| `Wal.WriteAheadLog.Append` | src/engine/wal.hpp:152-169 | appends exactly the encoded record |
| `Wal.MeasureItems` | src/engine/wal.hpp:174-177 | the size loop counts full lengths |
| `Wal.WriteItems` | src/engine/wal.hpp:184-197 | the packing loop writes count and items, lengths cut to their fields |
| `Wal.WriteAheadLog.AppendBatch` | src/engine/wal.hpp:171-206 | appends one record for the batch, nothing for an empty one |
| `Wal.RecordLayout` | src/engine/wal.hpp:152-169 | a record is, byte by byte, the CRC-32 low byte first, the operation, the length of the key in two bytes and of the payload in four, low byte first, then key and payload |
| `Wal.BatchLayout` | src/engine/wal.hpp:171-206 | a batch is one record of operation 4 with an empty key, whose payload is the count and the operations |
| `Wal.ItemLayout` | src/engine/wal.hpp:184-197 | an operation in a batch is its code, the length of its key, the key, the length of its value and the value |
| `Wal.ReadBatch` | src/engine/wal.hpp:290-307 | the parsing loop with its three early exits decodes the batch |
| `Wal.WriteAheadLog.ReadAt` | src/engine/wal.hpp:247-287 | one round of recovery: the stop conditions in order, then the record |
| `Wal.WriteAheadLog.Recover` | src/engine/wal.hpp:211-326 | delivers what the file holds and cuts it where reading stopped |
| `Wal.ReadWritten` | src/engine/wal.hpp:247-311 | a whole record is read back, whatever follows |
| `Wal.ReadTorn` | src/engine/wal.hpp:247-265 | a record cut anywhere is not read |
| `Wal.BatchRoundTrip` | src/engine/wal.hpp:184-197 | packed operations come back as they were |
| `Wal.CompleteIsLargest` | src/engine/wal.hpp:211-326 | the number of entries said to be complete is the largest that the bytes hold |
| `Wal.PrefixRecovery` | src/engine/wal.hpp:211-326 | for every list of appends and batches and every byte prefix of the file, recovery delivers exactly the operations of the complete entries in order, each batch whole or not at all, and cuts the file at that boundary |
| `Wal.WholeLog` | src/engine/wal.hpp:211-326 | without a crash everything is delivered and nothing cut |
| `Wal.RecoverAppendRecover` | src/engine/wal.hpp:211-326 | crash, recover, append, crash, recover: what was kept, followed by the new complete entries |
| `Wal.DamageStopsRecovery` | src/engine/wal.hpp:282-285 | a record changed within four consecutive bytes of operation, key and payload, checksum and lengths intact, stops recovery: all before it is delivered, it and all behind it are cut |
| `Wal.ComesBackExactlyWhenItFits` | src/engine/wal.hpp:159-197 | an entry comes back from its bytes if and only if its lengths fit their fields; the source casts without looking |
| `Merkle.MerkleTree.constructor` | src/engine/merkle.hpp:65-96 | the steady state is the full rehash of zero leaves |
| `Hashing.BucketIsTop` | src/engine/merkle.hpp:100 | the leaf of a key is its hash, as a number of 64 bits, divided by 2^48 |
| `Merkle.MerkleTree.ApplyDelta` | src/engine/merkle.hpp:98-106 | exactly the leaf whose index is the hash of the key divided by 2^48 changes, by one XOR; stale level-3 nodes stay marked |
| `Merkle.MerkleTree.RefreshLeaves` | src/engine/merkle.hpp:134-149 | level 3 is recomputed lock by lock while other threads write: each range as it stands when its lock is held, later writes stay marked |
| `Merkle.MerkleTree.RefreshL2` | src/engine/merkle.hpp:152-158 | level 2 becomes the rehash of level 3, parents stay marked |
| `Merkle.MerkleTree.RefreshL1` | src/engine/merkle.hpp:160-166 | level 1 becomes the rehash of level 2 |
| `Merkle.MerkleTree.RefreshL0` | src/engine/merkle.hpp:168-171 | the root becomes the rehash of level 1 |
| `Merkle.MerkleTree.GetRootHash` | src/engine/merkle.hpp:108-112 | after any sequence of deltas and refreshes, the root and every interior node equal the full bottom-up rehash of the leaves as seen; without concurrent writers these are the leaves |
| `Merkle.MerkleTree.RefreshedIsRehash` | src/engine/merkle.hpp:114-130 | a tree without marks is the full rehash at every level |
| `Merkle.MerkleTree.GetNodeHash` | src/engine/merkle.hpp:114-130 | the kept node, zero below the leaves; the rehash when refreshed |
| `Merkle.BlockSeen` | src/engine/merkle.hpp:135-149 | what a level-3 node is made from under its lock is what the refresh is said to have seen |
| `Leaves.LeafPick` | src/engine/store.hpp:334-339 | a leaf does not depend on the order in which keys are taken |
| `Leaves.LeafUpdate` | src/engine/store.hpp:342-359 | storing a value changes exactly one leaf, by the XOR of old and new hash |
| `Leaves.LeafOfListing` | src/engine/store.hpp:908-928 | a leaf is the XOR of the hashes of any listing of its bucket |
| `Engine.SameTagSameShard` | src/engine/store.hpp:307-317 | keys with the same brace tag share a shard whatever surrounds it |
| `Engine.RouteOfTagged` | src/engine/store.hpp:307-314 | a key with a closed brace pair goes to the shard that is the hash of the text in it, as a number, modulo 8 |
| `Engine.RouteOfPlain` | src/engine/store.hpp:307-317 | any other key goes to the shard that is its own hash, as a number, modulo 8 |
| `Engine.MergedUpdate` | src/engine/store.hpp:320-322 | storing in the routing shard is storing in the whole; every key stays only in its routing shard |
| `Engine.Engine.constructor` | src/engine/store.hpp:474-513 | starting on a log file rebuilds the store by replay and truncates the file |
| `Engine.Engine.RunAll` | src/engine/store.hpp:618-722 | an engine that is given a list of commands ends with the contents of the run and has appended exactly the log of the run |
| `Engine.RestartAfterCrash` | src/engine/store.hpp:474-513 | an engine runs the commands; one restarted on any prefix of its log holds the store after the commands whose entry is complete, and its root is that of the full rehash of this store |
| `Engine.Engine.StoreBlob` | src/engine/store.hpp:342-359 | shard map and Merkle leaf change together; the leaves remain the XOR of the stored hashes of all shards |
| `Engine.Engine.ApplyPut` | src/engine/store.hpp:342-359 | stores the normalised value |
| `Engine.Engine.ApplyPatchInt` | src/engine/store.hpp:401-426 | if the value takes the field, reading it afterwards gives the number and the other fields are as they were; otherwise nothing changes; no other key does |
| `Engine.Engine.ApplyPatchStr` | src/engine/store.hpp:428-453 | if the value takes the field, reading it afterwards gives the text and the other fields are as they were; otherwise nothing changes; no other key does |
| `Engine.Engine.ApplyDel` | src/engine/store.hpp:455-471 | stores the empty value |
| `Engine.Engine.ReplayOp` | src/engine/store.hpp:486-513 | the recovery callback |
| `Engine.Engine.Put` | src/engine/store.hpp:618-645 | logs value and metadata as one batch and applies both |
| `Engine.Engine.PatchInt` | src/engine/store.hpp:647-668 | logs both patches; a value that takes the field reads back the number, its other fields stay, and no key but it and its metadata record changes; a throwing value patch never gets to the metadata |
| `Engine.Engine.PatchStr` | src/engine/store.hpp:670-691 | the same with a text |
| `Engine.Engine.Del` | src/engine/store.hpp:693-722 | logs and applies a tombstone |
| `Engine.Engine.ApplyMutation` | src/engine/store.hpp:838-888 | takes a mutation only when it is later than the stored metadata; a refused one logs nothing |
| `Engine.Engine.GetBucketKeys` | src/engine/store.hpp:908-928 | lists every key of the bucket over all shards exactly once; the XOR of the hashes is the leaf |
| `Store.MetaKeysApart` | src/engine/KeyBuilder.hpp:16-22 | metadata keys are apart from each other and from user keys |
| `Store.PrintedParses` | src/engine/store.hpp:655-660 | an integer printed into a patch record is parsed back |
| `Store.SplitJoined` | src/engine/store.hpp:492-506 | a patch record is cut at the colon behind the field |
| `Store.PatchIsRead` | src/engine/store.hpp:401-453 | a patch leaves a value that takes the field with the field set and its other fields as they were, and then sets the time under the same name in the metadata record if that takes it; a value that does not take it is left with everything as it was; no other key is touched |
| `Store.TimeTextReads` | src/engine/store.hpp:651-653 | the time in a patch record, cut at its colons, parses to wall time, logical counter and node |
| `Store.LogFormat` | src/engine/store.hpp:618-722 | what the commands log: operation codes, keys with the suffix `:meta`, and the texts of patches |
| `Store.ParseLongReads` | src/engine/store.hpp:496 | a number in a patch record: space, sign, digits; nothing if there are no digits or the number exceeds 64 bits |
| `Store.MetaKeyOfLong` | src/engine/KeyBuilder.hpp:16-22 | the metadata key is empty exactly when the text of the key leaves no room for the suffix, and otherwise ends in it |
| `Store.ReplayIsLiveExactlyWhenFaithful` | src/engine/store.hpp:486-513 | replaying what one command logged gives what the command did, if and only if it is not a patch that throws on the value while the metadata takes the field |
| `Store.RebuildsExactlyWhenFaithful` | src/engine/store.hpp:486-513 | every prefix of the log of a run replays to the live store if and only if every command of the run is faithful where it stands |
| `Store.FailedPatchIsReplayed` | src/engine/store.hpp:647-668 | a put followed by an integer patch that its value refuses and whose field the metadata record takes: the live store does not change, the replayed one does |
| `Store.ReplayOfPrefix` | src/engine/store.hpp:486-513 | replaying the first k entries gives the store after the first k commands |
| `Store.CrashRecovery` | src/engine/store.hpp:486-513 | for every run of puts, deletions, patches and mutations and every byte prefix of the log file, recovery rebuilds the store after exactly those commands whose entry is complete |
| `Store.ReplayRebuilds` | src/engine/store.hpp:486-513 | without a crash, replay rebuilds exactly the live store, hence the same leaves and root |
| `Lww.DecideAgainst` | src/engine/store.hpp:838-857 | a mutation is taken exactly when it is later than all applied before on its key |
| `Lww.KeepReflects` | src/engine/store.hpp:838-888 | each mutation keeps the store reflecting the set applied so far |
| `Lww.OrderDoesNotMatter` | src/engine/store.hpp:838-888 | the same mutations in any order, with any repetitions, give the same store, holding for every key exactly its latest mutation |
| `Lww.PutIsMutationExactlyWhenLater` | src/engine/store.hpp:618-645 | a local put does not ask: it agrees with the mutation of its time if and only if it is later than what is stored, and otherwise moves the time of the key back |
| `Lww.DelIsMutationExactlyWhenLater` | src/engine/store.hpp:693-722 | the same for a local deletion |
| `SyncCodec.HashRoundTrip` | src/engine/sync_manager.hpp:224 | a hash survives its eight bytes |
| `SyncCodec.WriteHashes` | src/engine/sync_manager.hpp:219-225 | the loop appends the hashes in order |
| `SyncCodec.WriteListing` | src/engine/sync_manager.hpp:304-316 | the loop writes the entries and skips metadata keys |
| `SyncCodec.ParseListing` | src/engine/sync_manager.hpp:324-344 | the loop reads entries until the count or the bytes run out |
| `SyncCodec.ListingRoundTrip` | src/engine/sync_manager.hpp:298-344 | exactly the visible entries are read although the count counts the skipped keys too |
| `SyncCodec.RoundTrip` | src/engine/sync_manager.hpp:67-106 | every message arrives with its sender and contents |
| `SyncCodec.PutValCarriesRecord` | src/engine/sync_manager.hpp:399-514 | PUT_VAL followed by decoding and `parse_meta` gives the same key, time, tombstone and value |
| `Replica.CompareChildren` | src/engine/sync_manager.hpp:230-269 | the loop asks, once each, for exactly the children that differ |
| `Replica.CompareListing` | src/engine/sync_manager.hpp:321-371 | the loop asks for exactly the listed keys whose hash is not the local one |
| `Replica.AskFollows` | src/engine/sync_manager.hpp:245-263 | a child that differs is asked for as a bucket at level 4 and as a node of the next level, in eight bits, elsewhere |
| `Replica.NoMetaIsIgnored` | src/engine/sync_manager.hpp:428-469 | a value that arrives without a metadata record changes nothing, unless the record of its key is before (0, 0, 0) |
| `Replica.FirstRecordIsTaken` | src/engine/store.hpp:838-857 | where there is no record, a mutation is taken exactly when its time is later than (0, 0, 0) |
| `Cluster.KeepWrites` | src/engine/clock.cpp:16-57 | every client write gets a time that no write of any replica has |
| `Cluster.PutValReplaces` | src/engine/sync_manager.hpp:428-469 | an arriving value either changes nothing or puts in exactly one write |
| `Cluster.AnswerIsGenuine` | src/engine/sync_manager.hpp:383-426 | every value sent is wholly one write |
| `Cluster.ReachableInv` | src/engine/sync_manager.hpp:383-469 | every run of n replicas over a losing, repeating, reordering network keeps all of this |
| `Cluster.HeldRecordIsAWrite` | src/engine/sync_manager.hpp:383-469 | in every run each held record is exactly one client's put or deletion: value, time and tombstone are never mixed |
| `Cluster.WritesAreAskedFor` | src/engine/store.hpp:618-722 | in every run the writes are exactly what the clients' actions ask for: key, value or deletion, and a time of the replica they were given to, not before its physical reading |
| `Cluster.HeldRecordWasAskedFor` | src/engine/sync_manager.hpp:383-469 | hence whatever a replica holds under a key is the normalised body of one put of the run, or the empty value of one deletion, with the metadata of the time it was given |
| `Cluster.WriteIsHeld` | src/engine/store.hpp:618-722 | a client's write is held by its replica at once; no other key and no other replica changes |
| `Cluster.SameTimeSameRecord` | src/engine/store.hpp:838-888 | in every run two replicas that hold a key at the same time hold the same value and metadata |
| `SlowClock.TimeGoesBack` | src/engine/store.hpp:618-645 | a run of two replicas in which one with a slow clock pulls a value and then takes a client put, after which the time of the key is smaller than before |
| `Wire.RunsGoOverTheWire` | src/engine/sync_manager.hpp:67-106 | in every run each message that a handler sends fits the wire format, and its bytes decode to exactly that message and sender, if node ids, key counts and metadata records fit their fields |
| `DrillDown.AsksOnlyForDivergent` | src/engine/sync_manager.hpp:146-269 | at any moment of any drill-down only buckets whose leaves differ are asked for |
| `DrillDown.AsksForAllDivergent` | src/engine/sync_manager.hpp:146-269 | once drained, exactly the buckets whose leaves differ have been asked for, provided no blocks at the same place of the two trees collide |
| `DrillDown.DrillDownEnds` | src/engine/sync_manager.hpp:146-269 | at most 1 + 16 + 256 + 4096 node requests are ever made, and a run without repeated deliveries ends |
| `DrillDown.DifferAll` | src/engine/merkle.hpp:133-172 | without collisions a differing leaf shows at every level above it |
| `Pull.VisibleListsUser` | src/engine/sync_manager.hpp:281-319 | a bucket reply names exactly the user keys of the bucket |
| `Pull.TakeValue` | src/engine/store.hpp:838-888 | an arriving value leaves B with the later of the two records and touches no other key |
| `Pull.PullResult` | src/engine/sync_manager.hpp:281-469 | in every run B holds its own or the expected record; once drained, of every key listed with another hash the record with the larger time and of all others its own |
| `Pull.BothWaysConverge` | src/engine/sync_manager.hpp:281-469 | after B has pulled from A and A from B, both hold equal values, deletions included, under every user key of the buckets asked for |
| `Pull.RecordsAgreeExactly` | src/engine/sync_manager.hpp:321-371 | after both pulls the whole records agree if and only if the key did not have the same non-empty value at two times |
| `Pull.BothWaysRecords` | src/engine/sync_manager.hpp:281-469 | the same for every two runs of the pull |
| `Pull.OneValueTwoTimes` | src/engine/sync_manager.hpp:348-366 | such a pair: the same value put at two times stays with two records |
| `Pull.DeletionsAreCompared` | src/engine/sync_manager.hpp:348-366 | two deletions of a key are pulled, and the later one stays |
| `Round.NodeRequestsAreFew` | src/engine/sync_manager.hpp:146-269 | in every run of a round, drill-down and pull interleaved, at most 1 + 16 + 256 + 4096 different node requests are made |
| `Round.AskedExactlyWhenSeen` | src/engine/sync_manager.hpp:230-269 | at any moment of any round a bucket has been asked for if and only if its leaf differed when a reply about it was handled |
| `Round.RoundResult` | src/engine/sync_manager.hpp:121-469 | at any moment of any round B holds its own or the expected record of every user key, and once drained the expected one for the buckets asked for: of every key listed with another hash the record with the larger time, of all others its own |
| `Round.LastingDifferenceIsAsked` | src/engine/sync_manager.hpp:146-269 | a bucket that differs, at every level above it too, throughout a drained round has been asked for |
| `Round.RoundRepairs` | src/engine/sync_manager.hpp:121-469 | hence such a round leaves B with the record of A under every key of the bucket with another hash that is later at A |
| `Round.TwoRoundsConverge` | src/engine/sync_manager.hpp:121-469 | after a round each way the values of every user key of the buckets asked for are equal, and its records if and only if it did not have one non-empty value at two times |

## Left out

- Weak memory orderings in the queue: the step models are sequentially consistent.
- The block size of the queue: it is 32 here, a template parameter there; no result depends on the number.
- Wrap-around of the queue's indices: indices are unbounded, and `Circular` shows up to which distance that agrees with the wrapped comparison.
- Exception rollback of throwing constructors and assignments, producer recycling, the thread-id hash table and MAX_SUBQUEUE_SIZE in the queue.
- The block index of the explicit producer: the engine enqueues without tokens, so only the counters of the explicit dequeue are modelled.
- BlockIndex.LookupFinds: header, tail and key are loaded in one step; stale headers and tails are in SharedIndex.StaleLookup and QueueRuns.EveryLookupFinds.
- BlockIndex.CopyOldEntries: entries are copied by value; entries shared with older headers are in SharedIndex.KeepDoubled.
- ImplicitProducer.Producer.InsertEntry: one call is one step; consumers between its stores are in ProducerSteps.KeepProduce.
- ImplicitProducer.Producer.Enqueue: one call is one step; the interleaved runs are in QueueRuns.
- ImplicitProducer.Producer.AllocateBlocks: one call is one step; the interleaved runs are in QueueRuns.
- ImplicitProducer.Producer.UndoBlocks: one call is one step; an undoing among running consumers is in ProducerSteps.KeepProduce and QueueRuns.NothingStaysStaged.
- ImplicitProducer.Producer.EnqueueBulk: one call is one step; the interleaved runs are in QueueRuns.
- ImplicitProducer.Producer.Finish: one call is one step; consumers that finish at the same moment are in QueueRuns.
- ImplicitProducer.Producer.FinishBulk: one call is one step; consumers that finish at the same moment are in QueueRuns.
- QueueRuns.ReachableInv: a claim is one step, since DequeueProtocol has the counters behind it; a producer whose first index could not be allocated, which only ever refuses to enqueue, is not among the initial states.
- blockingconcurrentqueue.h: a semaphore around the queue.
- Engine.Engine.Put: access control is not modelled, nor are clients that race between the log append and the shard's task.
- Engine.Engine.Del: access control is not modelled.
- Engine.Engine.ApplyPut: the hooks for `sys:` keys into the credential manager are not modelled.
- Wal.WriteAheadLog.Append: the write always succeeds; a write error in the middle of the file is not modelled, nor are the Windows branches and the counters of bytes.
- Batched client calls (`batch_put`, `batch_get`, `apply_batch_mutations`) and prefix scans: they add loops over what is modelled.
- Compression and dictionary training: switched off.
- SyncCodec.RoundTrip: a node reply shorter than its sixteen hashes, which the source reads past its end, is taken as no message.
- Cluster.HeldRecordIsAWrite: nodes do not restart, so the state of the clock across restarts is not covered; clients put and delete but do not patch.
- DrillDown.AsksForAllDivergent: both stores are at rest during the drill-down; Round has the drill-down while values arrive.
- Pull.PullResult: no client writes during the pull, and the buckets asked for are fixed at its start; in Round they are asked for as the drill-down goes on.
- Round.RoundResult: A does not change and no client writes during the round.
- Mesh sockets, framing and lanes: the network is that of src/tests_cpp/test_sync_latency.cpp, where all lanes reach the handler.
- The gossip timer and the choice of peers, the replication log, credentials, the ZeroMQ server, configuration, metrics and logging.
