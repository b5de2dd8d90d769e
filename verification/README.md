# Verified model of the OpenDataPlane core

This project models the concurrent and in-place data structures of the OpenDataPlane linux-generic implementation
and proves what they promise. It is checked with `dafny verify dfyconfig.toml` (Dafny 4.11).

- **Ring** (`RingCopy`, `Ring`, `RingProtocol`, `Words`): the lock-free ring of the helper library. The copy macros
  and the single-producer, single-consumer calls are array code; the multi-producer, multi-consumer calls are a step
  machine in which every memory access of every thread is one step. The state keeps unbounded indices, memory holds
  their 32-bit images, and every decision of a thread is computed from those images.
- **Queues and scheduler** (`QueueModel`, `EventQueue`, `SchedulerModel`, `Scheduler`, `Runs`): the intrusive event
  queue as linked objects; the scheduler as a step machine over any number of threads, each body under a lock being
  one step; and the scheduling call as code, whose effect is proved to be a run of that machine and to make progress.
- **Timer pool** (`TimerModel`, `Timer`): the pool as a value with its whole history (places of buffers, successful
  sets, expiries), and the in-place code proved equal to the value-level functions.
- **Buffer pool** (`PoolModel`, `LinkedLists`, `PoolMemory`, `Pool`): a step machine over the primitives that touch
  the two free lists, the caches and the counters, which are updated after the lists are unlocked; the lists as links
  in headers and blocks; and the code of allocation, free, flush and destroy as runs of the machine.
- **Packets** (`Packet`): segments as arrays; the copy loops refine slices of the flat bytes.
- **Barrier, ticket lock, CPU mask** (`Barrier`, `TicketLock`, `CpuMask`).

A run is a sequence of states in which each follows from the one before by a step of some thread; the main theorems
quantify over every run and every state in it. Memory is sequentially consistent.

Where the code does less than its documentation says, the exact condition is proved together with an input or a run
that fails:

- `TimerModel.FreshIff`: a timeout that expired at tick 0 keeps testing fresh after its timer is cancelled
  (`CancelledAtTickZero`, `StaleAtTickZero`), although `include/odp/api/timer.h` promises staleness; and a cancel call
  that finds nothing to cancel also makes an earlier timeout stale (`FailedCancelMakesStale`).
- `Packets.RangeCheckExact`: the range checks of the packet copies are 32-bit sums (`OutOfRangeAccepted`,
  `AcceptedNeverEnds`), and so is the length of a packet that data is added to (`Added`).
- `RingProtocol.QueriesExact`: the ring queries load the two tails one after the other (`MiscountedRun`).
- `PoolModel.DestroyExact`: the buffer count lags behind the free list (`DestroyRace`, `DestroyUnderflow`).

## Model

| member | source | states |
|---|---|---|
| RingCopy.Unroll | helper/ring.c:94-104 | the unrolled loop covers the largest multiple of four and leaves fewer than four for the fall-through switch |
| RingCopy.EnqueuePtrs | helper/ring.c:90-114 | slot (head + i) mod size holds item i for all i < n and no other slot changes, through unrolling, remainder and wrap branch |
| RingCopy.DequeuePtrs | helper/ring.c:119-143 | the table receives the n slots from head on, across the wrap, and its rest is unchanged |
| RingCopy.LoadAfterStore | helper/ring.c:90-143 | what one macro stored the other loads back, for every start index and n up to the size |
| Words.PowerOfTwoTest | helper/ring.c:85-85 | the test (x - 1) & x == 0 in 32 bits holds exactly for 0 and the powers of two |
| RingProtocol.SlotIsMasked | helper/ring.c:90-93 | masking the 32-bit index gives the slot of the unbounded index |
| Ring.RingBuffer.constructor | helper/ring.c:156-202 | a new ring is empty, with the watermark at its size |
| Ring.Create | helper/ring.c:156-202 | a ring is created iff its size is a power of two within the limit, and is then empty with the watermark at its size |
| Ring.RingBuffer.SpEnqueue | helper/ring.c:297-345 | the FIFO grows by all items if they fit, otherwise by none or in a burst until the ring is full; the return code says how many or why none, with the quota flag at the watermark |
| Ring.RingBuffer.ScDequeue | helper/ring.c:415-452 | the items asked for leave the front of the FIFO; if there are fewer none does, or in a burst all of them; the rest of FIFO and table is kept, and the return code says how many |
| RingProtocol.RingFifo | helper/ring.c:224-410 | in every state of every interleaving, the items taken in consumer-reservation order are a prefix of the items put in producer-reservation order, the published rest lies in its slots, and each finished call returned the stretch it reserved of both, all it asked for or in a burst between one and that many |
| RingProtocol.SlotOwnership | helper/ring.c:236-290 | consTail <= consHead <= prodTail <= prodHead <= consTail + mask, and no slot is owned by two threads |
| RingProtocol.ReservationsTile | helper/ring.c:236-407 | outstanding reservations tile the two windows: each index in them belongs to exactly one thread, and no other index to any |
| RingProtocol.ReservationExact | helper/ring.c:236-264 | when the producer's swap succeeds, the 32-bit free_entries is the unbounded difference and does not exceed the room, and the reservation is for all items or, in a burst that does not fit, for as many as fill the ring up |
| RingProtocol.ClaimedExact | helper/ring.c:362-389 | the same for the consumer's entries: all it asked for, or in a burst all that was published when it read the tail |
| RingProtocol.QuotaExact | helper/ring.c:269-290 | a finished enqueue returns the number reserved, and the quota flag iff the ring as read by the call with its items holds at least the watermark |
| RingProtocol.EnqueueCall | helper/ring.c:224-236 | in every run an enqueue works on the items and mode of the one call that started it |
| RingProtocol.DequeueCall | helper/ring.c:350-362 | and a dequeue on the number and mode of its call |
| RingProtocol.InTurn | helper/ring.c:279-290 | the 32-bit comparison with prod.tail lets exactly the oldest reservation publish |
| RingProtocol.InTurnToRelease | helper/ring.c:396-407 | and the comparison with cons.tail exactly the oldest claim release |
| RingProtocol.NoRoomJustified | helper/ring.c:240-259 | a no-room result implies an instant during that call with less unreserved room than requested (none for a burst), if the indices advanced by at most 2^32 - size in between |
| RingProtocol.NoEntryJustified | helper/ring.c:366-384 | a no-entry result implies an instant during that call with fewer published entries than requested (none for a burst), under the same bound |
| RingProtocol.QueriesExact | helper/ring.c:495-530 | count, free count, full and empty load the two tails at two instants of a run; they are exact for those values iff the consumer's has not passed the producer's, are then at most the entries at either instant, and this is so whenever one of the tails did not move |
| RingProtocol.MiscountedRun | helper/ring.c:495-530 | a run in which the ring is empty at both loads and the queries report one entry and a full ring |
| RingProtocol.NeverDeadlocks | helper/ring.c:279-407 | in every reachable state with an outstanding reservation, some thread that has one can store, load, publish or release |
| RingProtocol.InvNext | helper/ring.c:224-410 | every single memory access of every thread keeps the ring invariant |
| EventQueues.EventQueue.constructor | platform/linux-generic/odp_queue.c:88-92 | a new queue is empty, ready or not scheduled yet |
| EventQueues.EventQueue.EnqOne | platform/linux-generic/odp_queue.c:329-362 | the linked list gains the header at its end, or the call is refused; whether the caller must schedule the queue |
| EventQueues.EventQueue.EnqMany | platform/linux-generic/odp_queue.c:364-402 | the list gains all headers in order, or the call is refused and the list is as before |
| EventQueues.EventQueue.DeqOne | platform/linux-generic/odp_queue.c:434-461 | the first header leaves the list unlinked; an empty scheduled queue goes out of scheduling |
| EventQueues.EventQueue.DeqMany | platform/linux-generic/odp_queue.c:464-504 | the first min(num, length) headers leave the list unlinked, in order; -1 for a queue out of use |
| EventQueues.LinkAll | platform/linux-generic/odp_queue.c:370-374 | the linking loop makes a chain of the given headers |
| EventQueues.Unlink | platform/linux-generic/odp_queue.c:487-497 | the dequeue loop takes the front of a chain and leaves a chain |
| QueueModel.Enq | platform/linux-generic/odp_queue.c:329-402 | accepted iff the status is at least READY; the events gain the new ones at the end; only NOTSCHED turns into SCHED, and exactly then the caller schedules; any other status stays |
| QueueModel.Deq | platform/linux-generic/odp_queue.c:434-461 | the events are the one taken, if any, followed by those left; only a SCHED queue found empty changes status, to NOTSCHED |
| QueueModel.DeqMulti | platform/linux-generic/odp_queue.c:464-504 | the events are those taken, at most num, followed by those left, fewer than num only if none is left; only a SCHED queue found empty changes status, to NOTSCHED |
| SchedulerModel.TokenInvariant | platform/linux-generic/odp_queue.c:236-287 | in every reachable state a queue has exactly one command event, in a priority queue, in one thread's hands or held, if its status is SCHED or DESTROYED, and none otherwise; a queue with events is SCHED, so no wakeup is lost |
| SchedulerModel.AtomicOrder | platform/linux-generic/odp_schedule.c:364-502 | at most one thread holds an atomic queue, only it has undelivered events of it, and enqueued = delivered ++ cached by the holder ++ still queued |
| SchedulerModel.NothingLost | platform/linux-generic/odp_queue.c:464-504 | every queue is emptied from the front, every thread hands out what it took in order, and the multiset of all events taken from the queues, in all uses of their entries, is that of all events threads got |
| SchedulerModel.MaskExact | platform/linux-generic/odp_schedule.c:259-280 | a mask bit is set iff its count is positive iff a registered queue of that priority and with those low bits exists; a priority queue holds only commands of registered queues of its own priority and place |
| SchedulerModel.NeverStuck | platform/linux-generic/odp_schedule.c:269-280 | every step a thread may take is defined; pri_clr never takes a count below zero |
| SchedulerModel.InvEnq | platform/linux-generic/odp_queue.c:329-402 | an enqueue keeps the invariant, whoever has the token |
| SchedulerModel.InvCreate | platform/linux-generic/odp_queue.c:195-223 | creating an entry keeps it, also while threads still have events of its former use |
| SchedulerModel.InvRegister | platform/linux-generic/odp_schedule.c:308-326 | schedule_queue_init keeps it |
| SchedulerModel.InvDestroy | platform/linux-generic/odp_queue.c:247-287 | destroying keeps it, in each of its branches |
| SchedulerModel.InvFinalize | platform/linux-generic/odp_queue.c:236-245 | finalizing a destroyed queue keeps it |
| SchedulerModel.InvDeliver | platform/linux-generic/odp_schedule.c:376-390 | handing out cached events keeps it |
| SchedulerModel.InvRelease | platform/linux-generic/odp_schedule.c:364-373 | releasing the atomic context keeps it |
| SchedulerModel.InvPop | platform/linux-generic/odp_schedule.c:443-449 | taking a command off a priority queue keeps it |
| SchedulerModel.InvDeq | platform/linux-generic/odp_schedule.c:467-502 | dequeuing with the command in hand keeps it: finalize, drop, hold or return |
| SchedulerModel.InvStep | platform/linux-generic/odp_schedule.c:398-506 | every step of every thread keeps it |
| Scheduling.Scheduler.constructor | platform/linux-generic/odp_schedule.c:104-169 | the scheduler starts with empty priority queues, clear masks and no queue in use |
| Scheduling.Scheduler.QueueInit | platform/linux-generic/odp_schedule.c:308-326 | registering is one step of the machine and keeps its invariant |
| Scheduling.Scheduler.Create | platform/linux-generic/odp_queue.c:195-234 | the first free entry becomes an empty, registered queue out of scheduling, with its mask bit set; none only if no entry is free |
| Scheduling.Scheduler.Enqueue | platform/linux-generic/odp_queue.c:364-402 | the events go to the end of the queue, which then is in scheduling and has a command; a queue that was out of scheduling gets its command at the end of its priority queue |
| Scheduling.Scheduler.Destroy | platform/linux-generic/odp_queue.c:247-287 | refused for a queue not in use or not empty; otherwise freed and unregistered, or marked destroyed while in scheduling |
| Scheduling.Scheduler.FreeEntry | platform/linux-generic/odp_schedule.c:328-336 | the entry is freed, unregistered and its count taken down |
| Scheduling.Scheduler.CopyEvents | platform/linux-generic/odp_schedule.c:376-390 | the loop hands out the first min(max, cached) events, in order, and keeps the rest |
| Scheduling.Scheduler.ReleaseAtomic | platform/linux-generic/odp_schedule.c:364-373 | the held command goes back only when no event is cached |
| Scheduling.Scheduler.Dequeue | platform/linux-generic/odp_schedule.c:467-502 | what is taken and handed out, and where the command goes, for a destroyed, empty, atomic or parallel queue |
| Scheduling.Scheduler.DestroyFinalize | platform/linux-generic/odp_queue.c:236-245 | the entry is freed and unregistered; no event is touched |
| Scheduling.Scheduler.Visit | platform/linux-generic/odp_schedule.c:429-502 | one round of the inner loop either serves the first command of that priority queue, which then is held or last in the same line, or removes it, having found its queue without events |
| Scheduling.Scheduler.ScanRow | platform/linux-generic/odp_schedule.c:427-503 | one row is swept from the thread's own position around, until something is found, which then is the foremost queue |
| Scheduling.Scheduler.ScanRows | platform/linux-generic/odp_schedule.c:420-505 | the nested loops are a run of the machine; without result every priority queue lost exactly its first command |
| Scheduling.Scheduler.Schedule | platform/linux-generic/odp_schedule.c:398-506 | a call hands out cached events, or, unless paused, the first events of the foremost queue, or nothing after a full sweep; it is a run of the machine |
| Scheduling.FoundForemost | platform/linux-generic/odp_schedule.c:420-449 | the queue served has the highest priority among those with events whose commands are first in line, and within that priority the first from the thread's own number around |
| Scheduling.Scheduler.ScheduleLoop | platform/linux-generic/odp_schedule.c:509-543 | waiting returns events after at most (position of a non-empty queue's command) + 1 calls |
| Scheduling.Closer | platform/linux-generic/odp_schedule.c:398-506 | a call without result brings the command of every non-empty queue strictly closer |
| Scheduling.SweepAdvances | platform/linux-generic/odp_schedule.c:420-505 | after a fruitless sweep such a command is exactly one place further |
| Scheduling.ClearMeansEmpty | platform/linux-generic/odp_schedule.c:424-441 | skipping a clear mask bit never skips a command |
| Scheduling.RunKeepsInv | platform/linux-generic/odp_schedule.c:398-506 | every finite run from a state with the invariant ends in one |
| Timers.TimerPool.constructor | platform/linux-generic/odp_timer.c:210-260 | a new pool is the initial state of the model: limits in ticks, all timers free in order |
| Timers.TimerPool.Alloc | platform/linux-generic/odp_timer.c:280-309 | the first free timer gets the queue and user pointer given and the watermark is raised, or none is left |
| Timers.TimerPool.CancelTo | platform/linux-generic/odp_timer.c:476-513 | the state is replaced and the buffer handed out |
| Timers.TimerPool.Free | platform/linux-generic/odp_timer.c:315-335 | the timer is unused and first in the free list, its buffer handed back |
| Timers.TimerPool.Cancel | platform/linux-generic/odp_timer.c:809-821 | cancelling succeeds iff a buffer was held, and returns it |
| Timers.TimerPool.Reset | platform/linux-generic/odp_timer.c:342-474 | a set without a buffer needs one in the timer; a set with one swaps it for the old one, and a timeout then names the timer and its user pointer; the timer has the tick asked for |
| Timers.TimerPool.SetAbs | platform/linux-generic/odp_timer.c:775-790 | too early, too late, no event or success, by the limits and the buffer, written out; success arms the tick asked for with the buffer given or else the one held, anything else changes nothing |
| Timers.TimerPool.SetRel | platform/linux-generic/odp_timer.c:792-807 | the same for the current tick plus the offset |
| Timers.TimerPool.Expire | platform/linux-generic/odp_timer.c:515-599 | an expired timer gives up its buffer, keeps its tick with the inactive bit, and the buffer is posted to the timer's queue with that tick as its expiration |
| Timers.TimerPool.ExpireAll | platform/linux-generic/odp_timer.c:601-626 | the scan loop equals the scan of the model and counts the timers that were due |
| Timers.TimerPool.Notify | platform/linux-generic/odp_timer.c:633-652 | the tick goes up by one whether or not the scan is skipped |
| Timers.TimerPool.TimeoutFresh | platform/linux-generic/odp_timer.c:836-847 | the freshness test compares the ticks without the inactive bit |
| TimerModel.BufferConservation | platform/linux-generic/odp_timer.c:407-512 | over every run each buffer is in exactly one of: one timer, posted, back with the caller; and a timer holds one iff its tick lacks the inactive bit |
| TimerModel.NeverEarlyNeverTwice | platform/linux-generic/odp_timer.c:549-594 | every post belongs to one successful set, with its tick and buffer; its tick is below the current tick; no set is posted twice |
| TimerModel.PostedAsAsked | platform/linux-generic/odp_timer.c:775-807 | in every run each post was asked for by a set call of the run that names its timer, its buffer and its tick, which is not after the tick that found it; different posts have different calls |
| TimerModel.TickCounts | platform/linux-generic/odp_timer.c:633-652 | the current tick is the number of notifications so far |
| TimerModel.QueueAsAsked | platform/linux-generic/odp_timer.c:280-309 | in every run an allocated timer has the queue and user pointer of the call that allocated it last |
| TimerModel.ScanComplete | platform/linux-generic/odp_timer.c:601-652 | after a tick that scans, no allocated timer is left armed at or before it, however many ticks skipped their scan; all due timeouts are posted to their timers' queues and later ones untouched |
| TimerModel.AllocationConsistent | platform/linux-generic/odp_timer.c:244-335 | under every history the free list is acyclic and holds exactly the unused timers, and every allocated one is below the high watermark |
| TimerModel.FreshIff | platform/linux-generic/odp_timer.c:515-599 | a posted timeout tests fresh iff since it expired its timer was not successfully set and neither cancel nor free was called on it, or its expiration is tick 0 and the timer stands cancelled; for a non-zero expiration the test is exact |
| TimerModel.FailedCancelMakesStale | platform/linux-generic/odp_timer.c:809-847 | in every run, a cancel call on the timer of a fresh timeout that expired at a tick other than 0 finds no buffer, fails, and leaves the timeout stale |
| TimerModel.CancelledAtTickZero | platform/linux-generic/odp_timer.c:836-847 | why tick 0 is the exception: cancelling leaves every timeout that expired at tick 0 testing fresh |
| TimerModel.StaleAtTickZero | platform/linux-generic/odp_timer.c:836-847 | a run that reaches such a stale timeout that tests fresh |
| TimerModel.RelativeIsAbsolute | platform/linux-generic/odp_timer.c:775-807 | a relative set is the absolute set at the current tick plus the offset, refusals included |
| TimerModel.NeverStuck | platform/linux-generic/odp_timer.c:280-335 | in every state with the invariant, every permitted call is defined; the assertions of alloc and free hold |
| TimerModel.InvStep | platform/linux-generic/odp_timer.c:280-652 | every call and every tick keeps the invariant |
| PoolModel.HeaderConservation | platform/linux-generic/include/odp_pool_internal.h:154-308 | in every state of every interleaving each header is exactly once in the pool's free list, in one thread's cache, in one thread's hands, or allocated |
| PoolModel.BlockConservation | platform/linux-generic/odp_pool.c:474-538 | each data block is exactly once in the block free list or in one header's address array, also after blocks ran out midway; no array exceeds the maximum |
| PoolModel.AllocatedSize | platform/linux-generic/include/odp_pool_internal.h:245-276 | an allocated buffer's size is its block count times the segment size |
| PoolModel.Accounting | platform/linux-generic/include/odp_pool_internal.h:187-308 | in every state, shared plus thread-local allocations less frees is the number of buffers in use, plus headers in hand, less headers popped and plus headers pushed without being counted yet, less headers a thread took from its cache to refill or has flushed in the flush under way; between calls it is the number in use |
| PoolModel.DestroyExact | platform/linux-generic/odp_pool.c:441-472 | after the flush, destroying succeeds iff the headers missing from the pool are as many as the threads that popped one and have not counted it less those that pushed one and have not, or the counter is below zero for the moment; if these balance, iff every header is in the pool |
| PoolModel.DestroyRace | platform/linux-generic/include/odp_pool_internal.h:187-214 | a run that destroys the pool while a thread has the only header, popped and not yet counted |
| PoolModel.DestroyUnderflow | platform/linux-generic/include/odp_pool_internal.h:216-243 | a run that destroys the pool while its only buffer is in use, the 32-bit counter having gone below zero |
| PoolModel.NeverStuck | platform/linux-generic/include/odp_pool_internal.h:245-276 | every step is defined; the local free count is positive whenever a failed refill takes it down |
| PoolModel.InvGetBlk | platform/linux-generic/include/odp_pool_internal.h:257-268 | attaching a block, or failing to, keeps the invariant |
| PoolModel.InvRetBuf | platform/linux-generic/include/odp_pool_internal.h:216-243 | putting a header on the free list keeps it |
| PoolModel.InvCountGet | platform/linux-generic/include/odp_pool_internal.h:199-211 | the counting of get_buf after its unlock keeps it, and decides between handing out and attaching blocks |
| PoolModel.InvCountRet | platform/linux-generic/include/odp_pool_internal.h:234-242 | the counting of ret_buf after its unlock keeps it, whatever its caller does next; the local free count is positive when a failed refill takes it down |
| PoolModel.InvFlush | platform/linux-generic/include/odp_pool_internal.h:288-308 | flushing a header, or ending the flush, keeps it |
| PoolModel.InvStep | platform/linux-generic/include/odp_pool_internal.h:154-308 | every primitive of every thread keeps it |
| PoolMemory.LinkedRetBuf | platform/linux-generic/include/odp_pool_internal.h:228-232 | setting the one link of a header for the pool's list leaves the list of every cache and of every flush under way intact |
| PoolMemory.LinkedFree | platform/linux-generic/include/odp_pool_internal.h:278-286 | setting it for one thread's cache leaves the pool's list and all other caches intact |
| PoolMemory.FlushesFirst | platform/linux-generic/include/odp_pool_internal.h:294-299 | a round of flush_cache keeps memory and lists in step: the rest of the list starts at the link read before the header is returned |
| Pools.Pool.constructor | platform/linux-generic/odp_pool.c:310-368 | the descending loops link both free lists in ascending order; the pool starts in an initial state of the machine |
| Pools.Pool.GetBlk | platform/linux-generic/include/odp_pool_internal.h:154-172 | the first block leaves the linked list, which goes on from its link; none iff the list is empty |
| Pools.Pool.RetBlk | platform/linux-generic/include/odp_pool_internal.h:174-185 | linking a block that is in no list to the head puts it in front of the list, which is intact behind it |
| Pools.Pool.GetBuf | platform/linux-generic/include/odp_pool_internal.h:187-214 | the first header leaves the linked list, the counts follow, and the low watermark flag is raised at the watermark; a run of the machine |
| Pools.Pool.RetBuf | platform/linux-generic/include/odp_pool_internal.h:216-243 | unless the buffer keeps its data, its blocks are in front of the free blocks, in their order, and it has none; its header is first in the pool, the counts follow, and nothing else changes; a run of the machine |
| Pools.Pool.AttachBlocks | platform/linux-generic/include/odp_pool_internal.h:254-270 | succeeds iff the buffer's blocks and the free ones suffice; the buffer has then the size asked for, exceeded by less than a segment, and otherwise all blocks and the free list is empty; blocks are taken in list order |
| Pools.Pool.GetLocalBuf | platform/linux-generic/include/odp_pool_internal.h:245-276 | the first cached buffer, unused until then and of sufficient size, iff there is one that is not short of blocks; otherwise every buffer in use is untouched and a short one is first in the pool, still short |
| Pools.Pool.BufferAlloc | platform/linux-generic/odp_pool.c:474-521 | the result is the first header of the cache or else of the pool, or none iff the request exceeds one segment (six if segmented), no header is there, or its blocks and the free ones are too few; it was not in use, has room for headroom, data and tailroom, and every other buffer keeps its blocks |
| Pools.Pool.BufferFree | platform/linux-generic/odp_pool.c:529-538 | the buffer is first in the pool if the watermark flag is set and else first in the thread's cache; the others are untouched |
| Pools.Pool.FlushCache | platform/linux-generic/include/odp_pool_internal.h:288-308 | exactly the headers of this thread's cache go to the pool, its counts are added to the shared ones and cleared, and the buffer count grows by the headers flushed |
| Pools.Pool.Destroy | platform/linux-generic/odp_pool.c:441-472 | 0 iff the 32-bit count with the caller's cache reaches the number of headers; if no other thread is between unlock and count, iff every header was in the pool or in that cache |
| Packets.BufferMap | platform/linux-generic/include/odp_buffer_inlines.h:120-142 | segment, place and remaining length of a position: the whole rest of the segment or of the data, whichever is shorter |
| Packets.Packet.constructor | platform/linux-generic/include/odp_packet_internal.h:158-190 | headroom, length and tailroom of a new packet add up to its segments |
| Packets.Packet.PushHead | platform/linux-generic/odp_packet.c:143-152 | the data grows at the front by the last bytes of the headroom, or is refused |
| Packets.Packet.PullHead | platform/linux-generic/odp_packet.c:154-163 | the first bytes of the data go |
| Packets.Packet.PushTail | platform/linux-generic/odp_packet.c:165-175 | the data grows at the end by the first bytes of the tailroom |
| Packets.Packet.PullTail | platform/linux-generic/odp_packet.c:177-186 | the last bytes of the data go |
| Packets.Packet.CopyDataIn | platform/linux-generic/odp_packet.c:556-578 | the segment walk equals a slice assignment on the flat bytes; headroom, tailroom and the rest are unchanged; out of range is refused, also when the sum wraps to a value that does not fit |
| Packets.Packet.CopyDataOut | platform/linux-generic/odp_packet.c:532-554 | the segment walk equals a slice read of the flat bytes; out of range is refused |
| Packets.CopyToPacket | platform/linux-generic/odp_packet.c:655-685 | a slice of one packet's data replaces a slice of another's, whatever their layouts |
| Packets.PacketAlloc | platform/linux-generic/odp_packet.c:28-48 | a packet of the requested length with the pool's headroom; length 0 by way of the default buffer |
| Packets.AddData | platform/linux-generic/odp_packet.c:409-451 | the new packet is the old data with a gap of len bytes at offset; where the 32-bit length wraps, adding 2^32 - n bytes removes the n bytes before offset or fails; the old packet is untouched |
| Packets.RemData | platform/linux-generic/odp_packet.c:453-495 | the new packet is the old data without the range |
| Packets.AddThenRemove | platform/linux-generic/odp_packet.c:409-495 | removing what was inserted at the same place gives the data back |
| Packets.CopyInThenOut | platform/linux-generic/odp_packet.c:532-578 | what is copied in is copied out again from the same place |
| Packets.RangeCheckExact | platform/linux-generic/odp_packet.c:538-563 | the 32-bit check offset + len > frame_len, as the copies use it, is exact iff the sum does not wrap to a value that fits |
| Packets.OutOfRangeAccepted | platform/linux-generic/odp_packet.c:538-563 | a range far outside a packet of 8 bytes that the check accepts |
| Packets.AcceptedNeverEnds | platform/linux-generic/odp_packet.c:532-578 | a call accepted by a wrapped sum still has bytes to go at the end of the data, where every further turn of the copy loops maps none |
| Packets.FlatOfStore | platform/linux-generic/include/odp_buffer_inlines.h:120-142 | writing inside one segment is a slice assignment on the concatenated segments |
| Packets.FlatOfLoad | platform/linux-generic/include/odp_buffer_inlines.h:120-142 | reading inside one segment is a slice of the concatenated segments |
| Barrier.OneRoundApart | platform/linux-generic/odp_barrier.c:31-50 | the counter stays within 0..2N and no two threads are more than one round apart |
| Barrier.LeavesWhenFull | platform/linux-generic/odp_barrier.c:31-50 | the next step of a waiting thread takes it out exactly when its round is full and the wrap-around done |
| Barrier.StaysOpen | platform/linux-generic/odp_barrier.c:31-50 | once the next step of a thread takes it out, no step of another thread changes that |
| Barrier.SlowLeaver | platform/linux-generic/odp_barrier.c:31-50 | over every run, however often the others re-enter, a thread that can leave can leave in every later state until it does |
| Barrier.NobodyLeavesEarly | platform/linux-generic/odp_barrier.c:31-50 | no thread leaves round k before all N have entered it |
| Barrier.NeverStuck | platform/linux-generic/odp_barrier.c:31-50 | in every reachable state some thread has a step that changes the state |
| Barrier.EveryoneLeaves | platform/linux-generic/odp_barrier.c:31-50 | from every reachable state some continuation takes all threads outside, each having passed the furthest round any had entered and none a further one |
| TicketLock.MutualExclusion | platform/linux-generic/odp_ticketlock.c:21-83 | at most one thread is inside, in every reachable state |
| TicketLock.ServedInOrder | platform/linux-generic/odp_ticketlock.c:21-34 | tickets are distinct, outstanding ones run from cur to next - 1, and entry is in ticket order |
| TicketLock.EntersInTurn | platform/linux-generic/odp_ticketlock.c:30-34 | the step of a waiting thread enters the critical section if its ticket is up and else changes nothing |
| TicketLock.HolderMoves | platform/linux-generic/odp_ticketlock.c:21-83 | while a ticket is outstanding, the thread that drew the one being served has it, and its next step enters, goes on to release, or serves the next ticket |
| TicketLock.EveryoneServed | platform/linux-generic/odp_ticketlock.c:21-83 | from every reachable state some continuation takes a given waiting thread into the critical section |
| TicketLock.TryLockDecides | platform/linux-generic/odp_ticketlock.c:37-66 | a trylock succeeds iff the counters it read were equal and no ticket was drawn since, and otherwise changes nothing |
| TicketLock.TryLockTakes | platform/linux-generic/odp_ticketlock.c:37-66 | a trylock that runs without interference takes a free lock |
| TicketLock.TryLockOwns | platform/linux-generic/odp_ticketlock.c:37-66 | a successful trylock found the lock free and now owns it, although it read the counters in separate steps |
| TicketLock.OutstandingBounded | platform/linux-generic/odp_ticketlock.c:21-34 | never more outstanding tickets than threads |
| CpuMask.Last | platform/linux-generic/odp_cpumask.c:191-199 | the search loop finds the highest CPU set, or -1 |
| CpuMask.ToStr | platform/linux-generic/odp_cpumask.c:64-117 | the buffer receives the printed mask and terminator and the return value counts them, or nothing is written and -1 returned |
| CpuMask.FromStr | platform/linux-generic/odp_cpumask.c:19-62 | the mask is the one the string denotes; an unreadable string gives the empty mask |
| CpuMask.SetNibble | platform/linux-generic/odp_cpumask.c:51-55 | the inner loop sets exactly the bits of one digit |
| CpuMask.ParseAfterPrint | platform/linux-generic/odp_cpumask.c:19-117 | parsing a printed mask gives the mask back |
| CpuMask.PrintAfterParse | platform/linux-generic/odp_cpumask.c:19-117 | printing a parsed hexadecimal string gives the canonical form of the digits the parser takes |
| CpuMask.DigitsAreHex | platform/linux-generic/odp_cpumask.c:38-49 | the digits printed and read are 0-9 and A-F, in either case when read |
| CpuMask.ParsedNumber | platform/linux-generic/odp_cpumask.c:19-62 | the mask parsed is the base-16 number of the digits, in binary |
| CpuMask.PrintedNumber | platform/linux-generic/odp_cpumask.c:64-117 | the digits printed are the base-16 number that the mask is in binary |
| CpuMask.RecommendedSizeSuffices | platform/linux-generic/include/odp/plat/cpumask_types.h:30-30 | the recommended buffer size suffices exactly for masks without a CPU from 128 on |

## Left out

- Weak memory: fences, acquire and release orders and compiler reordering; all memory is sequentially consistent.
- Ring assumptions, part of the step relation: the size is a positive power of two below 2^28 as created, every request asks for at least one item, no attempt is overtaken by an advance of 2^32 or more of its index between its reads and its swap, and single- and multi-threaded entry points of one side are not mixed. Creation with size 0, which passes the power-of-two test, the watermark setter, the ring list and the dump functions are not modelled or have no row.
- RingProtocol.NoRoomJustified and RingProtocol.NoEntryJustified: assume that the index advanced by at most 2^32 - size between the two reads. A refusal is not confirmed by a swap, and from 2^32 - size + 1 on the 32-bit difference itself wraps, so that a drained ring can be reported as full.
- Ticket lock assumptions: fewer than 2^32 threads, and no trylock is overtaken by a full turn of the ticket counter.
- Packet input commands in the scheduler and PKTIN queues: they change queue states outside the command discipline. Only SCHED queues are modelled; they are not polled.
- Scheduler timeouts: a wait with a time limit depends on the cycle counter.
- Scheduling.Scheduler.ScheduleLoop: states the bound for a thread that runs alone and for a command in line or held by that thread. A waiting call with no non-empty queue in reach spins until some other thread enqueues; it is not modelled, nor is a command in the hands of another thread that stands still.
- Exhaustion of the scheduler's own command pool: it holds one command per queue and packet interface.
- Ordered queues and scheduling groups, and strict priority over commands that are not first in line, which the code does not provide (Scheduling.FoundForemost says what it does).
- Queue and scheduler teardown, name lookup, contexts, handle encodings.
- Timer variants with 128-bit or ARM atomics, interleavings inside one expiry after its lock is released, POSIX timers, and aborts on invalid handles. Ticks stay below 2^63 - 1, with every tick a timer may be set to.
- Timers.TimerPool.Expire: models the post to the timer's queue as an entry in a map of posted buffers; the queue itself is modelled separately, and the abort on a failed enqueue is absent.
- Pool creation parameters: rounding of sizes and alignments, shared memory, user areas and zeroization; Pools.Pool starts from the resulting numbers of headers, blocks and bytes per segment. Statistics other than buffer allocations and frees. A refused destroy of a predefined or unallocated pool.
- PoolModel.InvCountGet and PoolModel.InvCountRet: the atomic update of the buffer count, the watermark test and the statistics are one step; for ret_buf, so is the decrement that get_local_buf makes after it.
- Packets.PacketAlloc: the segments granted are a parameter; the pool that grants them is modelled separately.
- Packets.AddData and Packets.RemData: the copying of parser metadata and the freeing of the old packet are left out. Packets.AddData leaves out calls whose length wraps while the place of the second copy does not (the second copy then is one that Packets.AcceptedNeverEnds describes).
- Packets.Packet.CopyDataIn, Packets.Packet.CopyDataOut, Packets.CopyToPacket and Packets.RemData: leave out the calls in which offset + len wraps to a value that fits; Packets.AcceptedNeverEnds says what happens to them.
- Packets.CopyToPacket: copies between two packets; a copy within one packet, which is a memcpy of overlapping memory in general, is left out.
- odp_packet_copy and the segment iterators, whose lengths do not agree with the flat view.
- CpuMask set operations and odp_cpumask_first and odp_cpumask_next; mask size is that of the C library, 1024.
- Spinlocks, read-write locks, the thread table, checksums, protocol parsing, classification, packet I/O, crypto, shared memory and system information: foreign calls, or members that would only be easy.
