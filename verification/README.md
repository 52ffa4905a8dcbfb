# ddprof: verified models of its concurrent core

ddprof profiles a running program. A library inside the program samples allocations and writes
events into a ring buffer in shared memory; the profiler process reads them, together with kernel
perf ring buffers, and keeps two tables up to date: which file each address of each process is
mapped from, and which sampled allocations are still live and from which call stack.

This project models that path and proves what it promises, for every input, every interleaving and
every run. Each file is one component; cursors, tables, sets and queues are the program's own.

| file | component |
|---|---|
| `RingWords.dfy` | record sizes, header words, and the memory of the ring |
| `MpscRing.dfy`, `MpscRingProof.dfy`, `MpscRuns.dfy`, `MpscWakeup.dfy`, `MpscProgress.dfy` | the multi-producer ring as a state machine, its invariant, what holds over runs, wakeups, and what it can always come to |
| `MpscRingBuffer.dfy` | the operations of that ring and its two consumer loops, in place |
| `PerfRing.dfy` | perf ring buffers mapped once: copies at the wrap-around |
| `EventHeap.dfy`, `OrderedLoop.dfy`, `OrderedProgress.dfy` | the merge of perf rings by timestamp through the priority queue |
| `DsoIntervals.dfy`, `DsoHdr.dfy` | the map of address ranges per process |
| `AddressTable.dfy` | the library's lock-free set of tracked addresses |
| `LiveHeap.dfy`, `LiveAllocation.dfy` | the live-heap table, on values and with its pointers |
| `TrackingSync.dfy`, `EndToEnd.dfy`, `EndToEndProgress.dfy` | library set against profiler table; the same down to the slots of the address table and the words in shared memory |
| `Paths.dfy` | what a system can reach, for the results about progress |
| `RateLimiter.dfy`, `ProfileExport.dfy` | the interval rate limiter and the double-buffered export |
| `Sampling.dfy`, `SampleFormat.dfy`, `GnuHash.dfy` | byte sampling, the layout of events and samples, GNU hash lookup |

## How to read the models

- Concurrent code is a state machine: one step is one atomic access (or a region under a lock that
  nothing else observes), under sequential consistency, with any number of threads. A run is a
  sequence of states; the results are lemmas about every state of every run. Fields marked as history
  are written by steps; no step's choice, and nothing it does to the rest of the state, depends on them.
- Code that works in place without interference is a class or a method with loops, proved against a
  specification on values.
- Ring positions are unbounded and counted in 8-byte words, since every cursor is a multiple of 8
  bytes; `RequestedBytes` connects them to the 64-bit arithmetic of the code. The capacity is any
  number of words below the header's flag bits.
- Register counts and the signedness of characters are those of x86-64.
- The clock, memory exhaustion and spurious failures of a weak compare-and-exchange are arbitrary
  choices. The random numbers of the sampling interval are an arbitrary stream of reals per thread. The
  text of `/proc/<pid>/maps` is a list of parsed lines, some of which may not parse.
- Results about progress say what can still happen from every reachable state: which steps bring it
  about, and that no earlier interleaving has made them impossible. They do not assume a scheduler.

## Where the code does less than one would expect

- `reserve(n)` for the seven sizes just below 2^64 wraps around and grants a record too small for its
  payload; `RequestedBytesCover` says exactly when it does not.
- `mpsc_rb_advance_if_possible` moves the read cursor past what was read when everything read is
  released and the next record was discarded by its producer, and only then (`AdvanceIfPossible`).
  The run-level results about releases are for producers that commit, as allocation tracking does.
- A producer that discards a record can cost the next producer its wakeup, because the consumer stores
  its read cursor only after the pass (`DiscardLosesWakeup`). A failed write to the event descriptor
  aside, nothing else can: a consumer asleep in front of a finished record stands right behind a
  discarded one (`SilentOnlyAfterDiscard`).
- The ordered loop gives up the order of timestamps when it drains at shutdown (`DrainingDisorders`);
  until then it keeps it (`ProcessedInTimeOrder`).
- `get_intersection` computes the end of a range plus one. For a range that ends at the last 64-bit
  address it finds the right mappings if and only if there is none to find (`IntersectionExact`).
- Registering an allocation at an address whose recorded value is zero leaves one count too many; in
  every other case the books balance (`RegisterAccounted`, `RegisterLeaks`). Samples always have a
  positive value.
- Library and profiler do not always agree. With no deallocation event lost and no wakeup failed,
  `Agreement` gives the exact conditions: the profiler has forgotten addresses it was told of, because
  it cleared the process's table or could not unwind the stack (`ClearingForgets`,
  `ClearingUnmatches`); tracking was shut down between a lost event and its undo
  (`LateUndoLeavesOrphan`); or an address was announced after tracking stopped. The deallocations it
  cannot match are exactly those of forgotten addresses.
- That is for programs that tell the tracker of a free before the memory is released. The hooks of
  `dallocx` and `sdallocx` release it first, and then the two can disagree with nothing lost or
  forgotten (`EarlyReleaseDisagrees`).
- `gnu_hash` reads characters as signed. It agrees with the format exactly for the names whose `Gap` is
  a multiple of 2^32: all ASCII names do, and no name with an odd number of non-ASCII bytes does
  (`HashAgrees`, `OddNamesDiffer`). Names for which it disagrees are never found (`Lookup`).
- The rate limiter's counter can wrap: the bound on granted calls has one extra limit per wrap, and each
  such wrap takes more than 2^64 operations (`GrantedAtMost`). The extra grants do happen
  (`WrapGrantsAgain`).
- A comment in the address table speaks of a 60% load factor where the constant is 80%; the model
  takes any capacity.

## Model

| member | source | states |
|---|---|---|
| RingWords.AlignUp | include/ringbuffer_utils.hpp:26-32 | rounding up to 8 on 64-bit values: the least multiple not below, or 0 for 0 and where it does not fit |
| RingWords.RequestedBytes | include/ringbuffer_utils.hpp:236-242 | the size of a reservation is header plus rounded payload, or 0 (refused) near 2^64 |
| RingWords.RequestedBytesCover | include/ringbuffer_utils.hpp:236-242 | a granted size covers header and payload if and only if adding the header does not wrap |
| RingWords.WrapsApart | include/ringbuffer_utils.hpp:268-270 | positions less than a capacity apart never share a data word |
| MpscRingProof.HeaderDecodes | include/ringbuffer_utils.hpp:205-219 | a header word gives back size, busy and discard flags |
| MpscRingProof.TurnReadsRecord | include/ringbuffer_utils.hpp:314-342 | one turn of the reading loop sees the fate and size of exactly the record at its cursor and moves to the next one |
| MpscRingProof.ReceivesSent | include/ringbuffer_utils.hpp:324-341 | cursor and header word give the size and bytes that were committed |
| MpscRingProof.ScanSeesRelease | include/ringbuffer_utils.hpp:366-377 | the release scan sees the discard bit exactly on released records, finds where the next one starts, and reaches its end only at the intermediate cursor |
| MpscRingProof.NextInv | include/ringbuffer_utils.hpp:221-381 | every step of producers and consumer, none of which looks at the history, keeps the ring invariant |
| MpscRuns.CursorsOrderedAndTiled | include/ringbuffer_utils.hpp:236-279 | in every run read <= intermediate <= write cursor <= read cursor + mask, and records tile the ring exactly |
| MpscRuns.OutstandingDisjoint | include/ringbuffer_utils.hpp:255-278 | outstanding reservations are disjoint modulo the capacity, however stale the cached read cursors |
| MpscRuns.NormalReservationLeavesRoom | include/ringbuffer_utils.hpp:257-266 | a normal-priority reservation leaves the high-priority area free |
| MpscRuns.ReservationGranted | include/ringbuffer_utils.hpp:236-279 | in every run a reservation is granted exactly when the lock is free, the size is representable and it ends less than a capacity past the cached read cursor, for normal priority with the high-priority area to spare |
| MpscRuns.FreshCursor | include/ringbuffer_utils.hpp:227-234 | a producer that has just reloaded the read cursor is refused only for records really in the ring |
| MpscRuns.LogOnlyGrows | include/ringbuffer_utils.hpp:289-301 | a finished record keeps its place, fate and bytes for the rest of the run |
| MpscRuns.DeliveredInReservationOrder | include/ringbuffer_utils.hpp:314-342 | what is read at the cursors is exactly the committed sizes and bytes of the committed records of a prefix of all reservations, in order |
| MpscRuns.CommittedUpToExact | include/ringbuffer_utils.hpp:314-342 | that list of records is increasing, holds every committed one and no other |
| MpscRuns.DeliveredOnlyGrows | include/ringbuffer_utils.hpp:314-342 | what was delivered is a prefix of what is delivered later |
| MpscRuns.NextRecordIsRead | include/ringbuffer_utils.hpp:314-342 | in every run a pass that starts in front of a committed record gets it, skips a discarded one, and finds nothing in front of a busy one or none |
| MpscRuns.SpaceIsReturned | include/ringbuffer_utils.hpp:462-466 | after processing, the read cursor stands behind the record processed |
| MpscRuns.QueuedEventsIntact | include/ringbuffer_utils.hpp:354-381 | the queue of the ordered loop holds exactly the events read and not released, and its pointers still give the committed bytes |
| MpscRuns.NextRecordIsQueued | include/ringbuffer_utils.hpp:344-352 | the ordered loop that asks in front of a committed record queues it, and queues nothing otherwise |
| MpscRuns.OrderedProcessesOnce | src/perf_mainloop.cc:253-301 | released events are processed once each, with the committed size and bytes |
| MpscRuns.ReleaseReachesLongestPrefix | include/ringbuffer_utils.hpp:354-381 | whatever the release order, the read cursor goes to the end of the longest released prefix, never past what was read, and the scan ends |
| MpscWakeup.NextWakeup | include/ringbuffer_utils.hpp:289-307 | every step keeps: a finished record in front of a consumer that found nothing is announced or about to be, unless the consumer has just skipped a discarded one |
| MpscWakeup.NotifiesAtCursor | include/ringbuffer_utils.hpp:289-307 | in every run a producer notifies exactly when the consumer stands at the record it has just finished |
| MpscWakeup.SilentOnlyAfterDiscard | src/perf_mainloop.cc:346-371 | in every run, a consumer asleep with nothing pending in front of a finished record stands right behind a discarded one |
| MpscWakeup.NoLostWakeup | src/perf_mainloop.cc:346-371 | unless the record before the read cursor was discarded: if the consumer sleeps with no wakeup pending, the record at the read cursor is unreserved or busy |
| MpscWakeup.DiscardLosesWakeup | include/ringbuffer_utils.hpp:286-304 | a run with one discard in which the consumer sleeps in front of a committed record nobody announces |
| MpscProgress.EverythingCanBeRead | src/perf_mainloop.cc:347-371 | from every reachable state without a busy record the consumer alone can deliver all committed records, in order and with their bytes, and free all space |
| MpscProgress.EverythingCanBeHandedOver | src/perf_mainloop.cc:187-312 | likewise the ordered consumer can process every record once, in whatever order it releases them, and free all space |
| MpscProgress.AnythingCanBeWritten | include/ringbuffer_utils.hpp:275-307 | from every reachable state the owner of a record can alone fill it with any words and commit them |
| MpscProgress.ProducerCanFinish | include/ringbuffer_utils.hpp:236-307 | a producer waits for nothing but the lock: whatever it has begun it can finish alone |
| MpscRingBuffer.RingBuffer.Reserve | include/ringbuffer_utils.hpp:236-279 | grants a high-priority request exactly when it ends less than a capacity past the cached read cursor, a normal one when the high-priority area stays free besides, and appends one busy record |
| MpscRingBuffer.RingBuffer.Write | include/ringbuffer_utils.hpp:275-279 | writing into a reserved record disturbs no other record |
| MpscRingBuffer.RingBuffer.Commit | include/ringbuffer_utils.hpp:289-307 | finishes that record with the bytes it holds, reloads the read cursor, and asks for a notification exactly when that is the record's position |
| MpscRingBuffer.RingBuffer.ReadSample | include/ringbuffer_utils.hpp:314-342 | skips discarded records, stops at head or a busy record, else returns the size and bytes of the next committed one |
| MpscRingBuffer.RingBuffer.AdvanceIfPossible | include/ringbuffer_utils.hpp:354-381 | moves the read cursor over the longest prefix with the discard bit; passes the intermediate cursor exactly when a discarded record follows a fully released ring |
| MpscRingBuffer.RingBuffer.MarkEvent | include/ringbuffer_utils.hpp:357-360 | setting the discard bit releases that record and leaves every other record and all payloads alone |
| PerfRing.CopyIsMirror | include/ringbuffer_utils.hpp:162-175 | a copy in two chunks gives the bytes of the doubly mapped area |
| PerfRing.MirroredAt | include/ringbuffer_utils.hpp:162-175 | byte by byte, what the doubly mapped area shows is the ring modulo its size |
| PerfRing.SizeIsRead | include/ringbuffer_utils.hpp:395-410 | the event size is read back from the bytes of any header it was written to |
| PerfRing.PerfRingBuffer.EnsureWrapCopy | include/ringbuffer_utils.hpp:41-57 | the copy buffer is large enough, or dropped when memory runs out; nothing changes when it is large enough already or nothing is asked |
| PerfRing.PerfRingBuffer.Fetch | include/ringbuffer_utils.hpp:162-175 | bytes through one mapping are the mirrored bytes; fails only if they wrap and memory runs out |
| PerfRing.PerfRingBuffer.PeekHeader | include/ringbuffer_utils.hpp:395-410 | a header that wraps is pieced together as the mirrored mapping shows it |
| PerfRing.PerfRingBuffer.ReadAllAvailable | include/ringbuffer_utils.hpp:156-176 | same bytes and cursor as the mirrored mapping for every tail; nothing moves when the copy fails |
| PerfRing.PerfRingBuffer.ReadEvent | include/ringbuffer_utils.hpp:387-432 | same event and cursor as the mirrored mapping for every tail, also when the header wraps |
| EventHeap.PushHeap | src/perf_mainloop.cc:174-185 | a push keeps the heap, adds one event, and leaves the top in place unless the new event is strictly earlier |
| EventHeap.TopIsEarliest | src/perf_mainloop.cc:184-185 | the top has the least timestamp |
| EventHeap.PopExists | src/perf_mainloop.cc:300 | popping a non-empty queue is always possible |
| OrderedLoop.NothingEarlier | src/perf_mainloop.cc:226-277 | when the top is processed no visible event is earlier |
| OrderedLoop.RefillInv | src/perf_mainloop.cc:284-300 | popping after the successor was pushed removes the processed event, ties included |
| OrderedLoop.NextInv | src/perf_mainloop.cc:187-312 | every step of loop, kernel and clock, draining or not, keeps the merge invariant |
| OrderedLoop.ProcessedInTimeOrder | src/perf_mainloop.cc:187-312 | events are processed in non-decreasing timestamp order over all calls until one drains |
| OrderedLoop.ProcessedOldOnly | src/perf_mainloop.cc:234-277 | until a call drains, an event is processed only when it is older than the latency |
| OrderedLoop.CallLeavesNothingOld | src/perf_mainloop.cc:187-312 | when a call returns, every event older than the latency at the time it was called has been processed |
| OrderedLoop.HandedOverOnceInRingOrder | src/perf_mainloop.cc:207-218 | each ring's events are handed over once each and in order, with at most one in flight, also when draining |
| OrderedLoop.DrainingDisorders | src/perf_mainloop.cc:229-235 | a run in which a draining call processes an event of time 10 before one of time 5 |
| OrderedProgress.EverythingCanBeDrained | src/perf_mainloop.cc:187-312 | from every reachable state, at whatever time, the call under way can return and a draining call can then process every event of every ring, in ring order |
| OrderedProgress.KernelNeverWaits | src/perf_mainloop.cc:187-225 | whatever the loop is doing, any ring can get any event not earlier than its last one and no older than the latency, ties included |
| DsoIntervals.IntersectionFound | src/dso_hdr.cc:187-205 | the range found splits the map into the mappings below, those that intersect and those above |
| DsoIntervals.IntersectionExact | src/dso_hdr.cc:187-205 | the range found holds exactly the intersecting mappings if and only if the end plus one does not wrap or none reaches the start |
| DsoIntervals.InsertedResolves | src/dso_hdr.cc:208-270 | address by address: new mapping inside, allowed remainders kept, forbidden ones gone, all else unchanged |
| DsoIntervals.InsertReplaces | src/dso_hdr.cc:63-66 | in terms of fields: which mappings lose their parts outside the new range, and where the remaining parts are cut |
| DsoIntervals.RepeatsIsKnown | src/dso.cc:138-170 | in terms of fields: which mappings are taken as repetitions of a known one |
| DsoIntervals.InsertedWellFormed | src/dso_hdr.cc:372-396 | the map stays sorted, disjoint and keyed by start |
| DsoHeader.PidMapping.FindClosest | src/dso_hdr.cc:152-163 | the ordered lookup agrees with scanning all mappings |
| DsoHeader.PidMapping.FindAdjustSame | src/dso_hdr.cc:274-284 | a mapping is recognised exactly when one with the same start, offset, kind, protection and, for files, file, and no smaller end is known; only the tail past the new end is unmapped |
| DsoHeader.PidMapping.EraseRange | src/dso_hdr.cc:208-270 | of the intersecting mappings exactly the allowed parts below and above remain |
| DsoHeader.PidMapping.InsertEraseOverlap | src/dso_hdr.cc:372-396 | field by field and address by address: new mapping inside; of an overlapped one the parts outside remain, cut at the new range, exactly when both map the same file or the new one is anonymous memory over a file; all else unchanged; the map stays well formed |
| DsoHeader.PidMapping.Backpopulate | src/dso_hdr.cc:437-474 | after scanning lines that do not overlap, each listed address resolves to that line's mapping and addresses apart from all lines as before; the time of the scan is kept, and a scan that adds nothing is not repeated |
| DsoHeader.DsoHdr.MaybeInsert | src/dso_hdr.cc:356-370 | events older than the last scan are ignored; other processes are untouched |
| DsoHeader.DsoHdr.PidBackpopulate | src/dso_hdr.cc:430-474 | only the scanned process changes; the scan is made exactly when allowed and the file can be read |
| DsoHeader.DsoHdr.PidFree | src/dso_hdr.cc:428 | one process is forgotten, the others keep their mappings |
| DsoHeader.DsoHdr.PidFork | src/dso_hdr.cc:579-598 | an unknown child resolves addresses as its parent does; otherwise nothing changes |
| DsoHeader.DsoHdr.CheckInvariants | src/dso_hdr.cc:600-626 | the check answers its definition, and never fails on a table built by these operations |
| AddressTable.NextInv | src/lib/address_bitset.cc:140-230 | every access of any operation on any address, whatever overlaps, keeps the table invariant |
| AddressTable.StoreReachable | src/lib/address_bitset.cc:160-220 | claiming a slot or leaving a tombstone keeps every address reachable |
| AddressTable.SlotsReachable | src/lib/address_bitset.cc:140-230 | in every interleaving each occupied slot is on a path of non-empty slots from its address's hash, within the probe limit |
| AddressTable.ProbesInTurn | src/lib/address_bitset.cc:153-179 | probes start at the hash and visit every slot before any twice |
| AddressTable.HistoryIsSlots | src/lib/address_bitset.cc:163-218 | claims less deletions so far are the slots that hold an address, at every moment |
| AddressTable.RemovalFinds | src/lib/address_bitset.cc:186-230 | in every interleaving, a removal begun while the address was there, and during which nobody else deleted it, returns true |
| AddressTable.TrueHasEffect | src/lib/address_bitset.cc:163-220 | each add or removal that returns true made, while it ran, a claim or deletion of its address that is its own and no other call's |
| AddressTable.EffectIsAnswered | src/lib/address_bitset.cc:163-220 | once no call is under way, every claim is that of exactly one add that returned true, and every deletion that of exactly one such removal |
| AddressTable.RefusedForAReason | src/lib/address_bitset.cc:140-184 | in every interleaving an add is refused only if the count has reached the capacity, the address is in the table, or each of its 64 probes met a slot occupied while it ran |
| AddressTable.AddAlone | src/lib/address_bitset.cc:140-184 | an undisturbed add returns true exactly when the count is below the capacity and a free slot comes before the address within the probe limit; then it takes the first such slot, else nothing changes |
| AddressTable.AbsentIsAdded | src/lib/address_bitset.cc:140-184 | an absent address is added exactly when there is room in the count and in its 64 slots |
| AddressTable.RemoveAlone | src/lib/address_bitset.cc:186-230 | an undisturbed removal, in any reachable table, returns true exactly when the address is there, and turns one slot that held it into a tombstone |
| AddressTable.WaitFree | src/lib/address_bitset.cc:140-230 | in every run each access of a thread is possible at once and brings its call nearer to its end, whatever the others do; 196 accesses end it |
| AddressTable.ExactlyOneRemoves | src/lib/address_bitset.cc:186-230 | of two removals of an address held once, however they overlap, exactly one returns true |
| AddressTable.QuiescentCount | src/lib/address_bitset.cc:258-280 | at rest the count of a table is the number of its occupied slots |
| AddressTable.RemoveFindsTracked | src/lib/address_bitset.cc:186-230 | for clients whose operations on an address do not overlap and who add none twice, a removal returns true exactly when the address was there when it began |
| AddressTable.TrackedCount | src/lib/address_bitset.cc:258-280 | for such clients each address has at most one slot, and at rest the count is the number of addresses |
| LiveHeap.RegisterAccounted | src/live_allocation.cc:44-87 | an allocation keeps sums, counts and links exact if and only if its address does not hold value zero |
| LiveHeap.RegisterLeaks | src/live_allocation.cc:61-86 | overwriting an address that holds value zero leaves one count too many at the stack it was counted for, and nothing else wrong |
| LiveHeap.UnregisterAccounted | src/live_allocation.cc:12-42 | a deallocation keeps them exact and matches exactly the recorded addresses |
| LiveHeap.RunAccounted | src/live_allocation.cc:12-87 | after every run of positive samples each stack's value and count are those of its addresses |
| LiveHeap.RunHolds | src/live_allocation.cc:12-87 | after every run the table holds exactly the addresses whose last event is an allocation, with that event's value and stack |
| LiveHeap.StacksAreHeld | src/live_allocation.cc:12-87 | the stacks kept are exactly those of the addresses held |
| LiveAllocation.PidStacks.RegisterDeallocation | src/live_allocation.cc:12-42 | with pointers: same books, and no address left pointing at an erased node |
| LiveAllocation.PidStacks.FindOrCreate | src/live_allocation.cc:53-59 | the node of a stack, created with zero totals when missing; no other node moves |
| LiveAllocation.PidStacks.CleanUp | src/live_allocation.cc:61-80 | what an address held is taken off its node, erased when empty unless about to be used again |
| LiveAllocation.PidStacks.RegisterAllocation | src/live_allocation.cc:44-87 | with pointers: same books, overwriting an address with the same or another stack included; exact afterwards if and only if the address did not hold value zero |
| TrackingSync.NextInv | src/lib/allocation_tracker.cc:243-294 | every step of allocating and freeing threads, shutdown and profiler, clearing included, keeps the joint invariant |
| TrackingSync.SettledAgreement | src/lib/allocation_tracker.cc:243-294 | the invariant gives the exact conditions for each inclusion once nothing is under way |
| TrackingSync.TrackedIsKnown | src/lib/allocation_tracker.cc:264-278 | in every run, once settled, the profiler holds or has forgotten every tracked address while tracking, whatever was lost; with no deallocation event lost and no wakeup failed, it holds them all exactly when none is forgotten and no undo came too late |
| TrackingSync.TrackedEqualsKnown | src/ddprof_worker.cc:303-437 | with no deallocation event lost and no wakeup failed, tracked addresses are those held or forgotten while tracking, so equal to those held exactly when none is forgotten; unmatched deallocations are exactly those of forgotten addresses |
| TrackingSync.FailedPushIsUndone | src/lib/allocation_tracker.cc:273-278 | in every run an added address is taken out again exactly when its event or wakeup failed and tracking is still on |
| TrackingSync.LateUndoLeavesOrphan | src/lib/allocation_tracker.cc:274-278 | a run in which a late undo leaves an address the profiler does not know |
| TrackingSync.ClearingForgets | src/ddprof_worker.cc:303-325 | a run with nothing lost in which clearing leaves a tracked address unknown |
| TrackingSync.ClearingUnmatches | src/ddprof_worker.cc:303-325 | its continuation, in which the deallocation of that address is unmatched |
| TrackingSync.EarlyReleaseDisagrees | src/lib/symbol_overrides.cc:713-735 | a run of a program that releases memory before tracking the free, in which the two disagree with nothing lost or forgotten |
| EndToEnd.ReadsOldest | src/perf_mainloop.cc:347-360 | the bytes the profiler reads are those of the oldest event under way; it acts on the process, thread, stack, address and value that event was written with |
| EndToEnd.StartAlone | src/lib/allocation_tracker.cc:264-294 | the tracker starts table operations only on addresses nobody works on and adds none twice |
| EndToEnd.TableStepIs | src/lib/allocation_tracker.cc:264-294 | each access to the table is a step of the library's set or invisible to it |
| EndToEnd.NextInv | src/lib/allocation_tracker.cc:243-516 | every step of ring, address table, library and profiler keeps: finished records hold their events' bytes, the events under way are the unread ones, and the table's slots hold the tracked addresses |
| EndToEnd.LibraryAndProfilerAgree | src/lib/allocation_tracker.cc:243-516 | over every interleaving, down to the table's slots and the words in shared memory, library and profiler agree as `Agreement` says once settled |
| EndToEnd.CountsCompare | include/live_allocation.hpp:58-78 | with the tracker up, no deallocation event lost and no wakeup failed, the library's count of tracked addresses exceeds the number the profiler holds by exactly those it has forgotten |
| EndToEndProgress.CanAlwaysSettle | src/lib/allocation_tracker.cc:243-516 | from every reachable state of library, address table, ring and profiler they can come to rest: all threads return, all records are finished and read, all space is free, and the two sides agree |
| EndToEndProgress.AnyEventCanBeSent | src/lib/allocation_tracker.cc:409-516 | a thread that has the room can send whatever event it is to send, and it joins the events under way with its meaning |
| EndToEndProgress.NothingHeldUp | src/lib/allocation_tracker.cc:205-241 | at every moment the program can allocate, tracking can stop, the tracker go away and the profiler forget the process |
| RateLimiter.NextInv | src/ratelimiter.cc:23-51 | every atomic step keeps the accounting of grants, resets and wraps |
| RateLimiter.GrantedAtMost | include/ratelimiter.hpp:40-57 | granted calls are at most the limit times max(1, resets), plus the limit per extra wrap of the counter |
| RateLimiter.WrapGrantsAgain | src/ratelimiter.cc:23-51 | a run of 2^64 calls in which twice the limit is granted without a reset |
| RateLimiter.ResetMovesEnd | src/ratelimiter.cc:23-36 | a successful reset moves the interval end by at least the interval |
| RateLimiter.AloneAnswer | src/ratelimiter.cc:23-51 | an undisturbed call is granted exactly when the count is below the limit or the interval is over, the very first calls counting against the limit as well |
| RateLimiter.WaitFree | src/ratelimiter.cc:23-51 | whatever the others do, every access of a call is possible at once and five end it |
| ProfileExport.NextInv | src/ddprof_worker.cc:486-629 | every step of worker and export thread, synchronous export included, keeps the place of each sample |
| ProfileExport.ExportedProfileUntouched | src/ddprof_worker.cc:486-503 | while an export is at work its profile is neither aggregated into, nor reset, nor switched |
| ProfileExport.ExportedOnce | src/ddprof_worker.cc:574-629 | sequence numbers strictly increase; without errors each sample is in exactly one profile; lost events are reported or counted |
| ProfileExport.CycleShips | src/ddprof_worker.cc:574-629 | a cycle leaves an empty profile to fill; all samples so far and a report of the losses since the last cycle are shipped or being shipped |
| ProfileExport.FailureEndsWorker | src/ddprof_worker.cc:574-629 | after a failed or overdue export is noticed nothing is aggregated and no export starts |
| ProfileExport.EverythingCanShip | src/ddprof_worker.cc:486-629 | while no export has failed, every reachable state leads on to one in which all samples and a report of all losses are shipped |
| ProfileExport.WorkerGoesOn | src/ddprof_worker.cc:574-629 | the worker can take in any sample, count any loss and give up on an overdue export, whatever the export thread does |
| Sampling.ThreadSampler.NextSampleInterval | src/lib/allocation_tracker.cc:547-564 | exact for interval 1 and deterministic mode; else the next random number without its fraction, but at least 8 bytes and at most 20 intervals |
| Sampling.ThreadSampler.constructor | src/lib/allocation_tracker.cc:96-104 | a thread starts with one drawn interval to go and nothing allocated or reported |
| Sampling.ThreadSampler.Resample | src/lib/allocation_tracker.cc:249-262 | in every mode one sample per whole interval and one per draw, where the draws are consecutive and stop as soon as they exceed what is left; without randomness that is exact |
| Sampling.ThreadSampler.CountDown | src/lib/allocation_tracker.cc:257-260 | intervals are drawn one after the other until they exceed the bytes left; the loop ends |
| Sampling.ThreadSampler.Track | include/lib/allocation_tracker.hpp:167-172 | in every mode a sample is taken exactly when the countdown is over and stands for more than the bytes past it; deterministic sampling reports all but less than one interval; neither the countdown nor the sum before sampling leaves 64 bits for sizes and intervals below 2^63 |
| SampleFormat.SampleReader.Decode | src/perf_ringbuffer.cc:208-309 | the cursor reads every field the mask word announces where it is, and leaves all others as the previous record had them |
| SampleFormat.RoundTrip | src/lib/allocation_tracker.cc:453-499 | whatever was decoded before, every allocation event is decoded to what was written, registers and stack included |
| SampleFormat.RecordRoundTrip | src/perf_ringbuffer.cc:208-309 | every record of every mask laid out as the format says is decoded to what it holds, whatever was decoded before, and refused exactly when its registers are not those of a 64-bit process |
| SampleFormat.LayoutHeader | src/lib/allocation_tracker.cc:409-499 | an event's header holds its type and its real size in 16 bits |
| SampleFormat.EventUnderstood | src/ddprof_worker.cc:764-824 | whole allocation and deallocation events, header included, are understood as they were meant |
| SampleFormat.NoProcessIsIgnored | src/ddprof_worker.cc:781-789 | of well-formed samples exactly those without a process are passed over |
| SampleFormat.EncodedSize | include/lib/allocation_event.hpp:31-34 | the announced event size is the size of the words written |
| SampleFormat.FieldsBeforeTime | src/perf_ringbuffer.cc:322-324 | the bit count of the masked mask word is the number of fields before the time |
| SampleFormat.TimeAgrees | src/perf_ringbuffer.cc:312-328 | the short cut to the time by bit count agrees with the full decoding for every mask, record and previous sample |
| GnuHash.Hash | src/lib/elfutils.cc:52-60 | the loop computes the hash with signed characters |
| GnuHash.HashAgrees | src/lib/elfutils.cc:52-60 | that is the format's hash if and only if the name has no gap; otherwise more than the last bit differs |
| GnuHash.AsciiAgrees | src/lib/elfutils.cc:52-60 | ASCII names have no gap |
| GnuHash.OddNamesDiffer | src/lib/elfutils.cc:52-60 | names with an odd number of non-ASCII bytes hash differently from the format |
| GnuHash.SectionReads | src/lib/elfutils.cc:301-309 | bloom filter, buckets and hash words of a section laid out as the format says are read where they were put |
| GnuHash.PassesIsIn | src/lib/elfutils.cc:315-324 | masking indices is the format's remainder, as bloom filter sizes are powers of two |
| GnuHash.MatchHash | src/lib/elfutils.cc:315-333 | bloom filter, bucket and chain word never turn a present name away |
| GnuHash.MatchesIs | src/lib/elfutils.cc:73-87 | in terms of a symbol's fields: which symbols can be linked to under a name |
| GnuHash.Lookup | src/lib/elfutils.cc:298-348 | terminates and finds a symbol exactly when a hashed one has the name and a kind and value that can be linked to, and the name has no gap; for ASCII names, exactly when one is there |
| GnuHash.SymbolCount | src/lib/elfutils.cc:352-370 | one past the last hashed symbol when some bucket is not empty |

## Left out

- ReleaseReachesLongestPrefix: for producers that only commit, as are the other results about the ordered consumer; `AdvanceIfPossible` covers discards without interference.
- CursorsOrderedAndTiled: reservations whose size wraps around 64 bits, excluded by `RequestedBytesCover`, and payloads of size 0, whose empty buffer looks like a failure to callers, are not steps of the ring.
- ReadEvent: the event at the cursor is completely written and not larger than the data area, as the kernel guarantees.
- InsertEraseOverlap: the new range is not empty, and does not end at the last 64-bit address where a mapping reaches its start; `IntersectionExact` shows that the code fails there.
- GrantedAtMost: one extra limit per wrap of the counter, because the code grants it.
- SymbolCount: some bucket is not empty; otherwise the code reads outside the table.
- QuiescentCount: one table; the code adds up the counts of its shard tables.
- Track: the size a sample stands for is an unbounded integer.
- RoundTrip: stack sizes are whole numbers of words and registers are those of x86-64.
- TrackedEqualsKnown: for programs that tell the tracker of a free before they release the memory; `EarlyReleaseDisagrees` is about the others.
- Weak memory ordering, real time, sleeps, retries and fairness: steps are sequentially consistent, a reservation may fail at any time, and the results about progress say what can happen, not that a scheduler lets it.
- The unordered and the ordered loop after a processing error, which ends the worker.
- MPSC rings in the merge by timestamp: their events are not ordered by time.
- Mapped files: file info lookup, statistics, classifying names, and reading and parsing the proc file.
- Address table: `clear`, installing shard tables (an address always reaches the same table) and the concrete hash.
- Tracking: counting consecutive failures (a shutdown may come at any time), which of the reasons clears the table (it may be cleared at any time), and other kinds of events in the same ring.
- Live heap: the containers per watcher and per process around one table.
- Export: the exporter itself, several watchers, and failure to create the thread.
- Sample format: what read values, call chains and raw data mean, `samp2hdr`, which exists for tests, and `hdr_time` for records other than samples.
- ELF: the older hash table and overriding symbols.
- Loader, hooks, sockets, command line, logging, unwinding, demangling and the HTTP client.
