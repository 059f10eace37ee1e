# Tunix kernel: models and proofs

Dafny models of the parts of the Tunix kernel whose correctness rests on an
invariant rather than on a line of code, with proofs of those invariants over
every call sequence, interleaving or input.

| file | what it models |
|---|---|
| `Treap.dfy` | the parent-pointer treap used twice by the process code |
| `VmAreas.dfy` | the VM-area index of an address space |
| `RunQueue.dfy` | the run queue: treap, real-time rings, bitmap, selection |
| `SmpHandover.dfy` | handing processes between CPUs |
| `WakeSequence.dfy` | sleeping, waking, and the wake sequence counter |
| `SignalQueue.dfy` | the signal queue and the pending mask |
| `Defer.dfy` | deferred freeing by generations |
| `FatTable.dfy`, `FatDisk.dfy`, `FatEntry.dfy`, `FatChain.dfy`, `FatFile.dfy` | FAT12/16/32: table entries, device, directory entries, cluster chains, files |
| `PosixLock.dfy`, `LockWait.dfy` | byte-range locks and the deadlock search |
| `Bpf.dfy`, `BpfLaw.dfy`, `Seccomp.dfy` | system call filters, the laws of their instructions, and their chains |
| `Sha256.dfy`, `Sha256Law.dfy` | streaming SHA-256, its functions bit by bit and the origin of its constants |
| `PathNormal.dfy` | rooted path normalisation |
| `EventStream.dfy` | event streams with loss accounting |
| `InitStack.dfy` | the initial stack of a program |
| `UidMap.dfy` | user id maps |
| `Words.dfy` | the bitwise operators, shifts and rotations of 32-bit words |
| `Decimals.dfy`, `LittleEndian.dfy`, `Lists.dfy`, `Options.dfy`, `Errno.dfy` | shared vocabulary |

`dafny verify dfyconfig.toml` checks all of it.

How the C is rendered:

- An object with fields that functions update is a class; every function is a
  method whose contract ties the new state to the old one.  `Valid()` is what
  every method keeps, so what it says holds in every reachable state.  Where
  interleavings matter, a method `Run` takes an arbitrary schedule of steps and
  passes over those that are not possible when their turn comes.
- Pointers in the treap, the area list and the real-time rings are keys into
  maps that stand for memory, and the stores are modelled one by one.  The other
  linked lists are sequences.
- Unsigned arithmetic is on integers, with the remainder written out where a
  wrap-around can happen.
- Allocation succeeds, except where a parameter says otherwise.

Assumptions of the concurrent models.  A step is what runs under one lock; the two
halves of `process_finish_switch` and of `defer_poll` are steps of their own.  An
object handed to `defer_release` can no longer be reached by new users.  A CPU
takes steps only while it is online.  Between the two halves of the end of a switch
a CPU picks no process.

Results that differ from what one might expect of the code:

- `process_find_free_range` accepts a hint above the user address limit, and then
  returns that very range if it is free (`FirstFitPastLimit`, `FirstFitAboveLimit`).
  The range found ends at or below the limit exactly when the hint does not exceed
  it (`FirstFitBelowLimit`).  The one caller, `find_mapping_range`
  (kernel/core/syscall.c:4041-4047), passes no such hint; only a new caller could.
- An unmapping whose range lies inside one area takes the rest of that area with it
  when no memory is left for the tail, and is exact in every other case
  (`UnmapExact`, `TailIsLost`).  A change of protection passes over an area that
  sticks out of the range where it cannot be cut.  It is exact all the same when
  every such area has the new flags already, and only then (`ProtectExact`,
  `AreaIsLeftOut`).
- The comparison of virtual runtimes sorts a queue exactly when the runtimes rise
  within half the 64-bit circle (`SortedIsAscending`).  A newcomer has a place in a
  sorted queue exactly when it is less than half the circle after the first or
  before the last (`PlaceIffRoom`).  Three runtimes spread round the circle each
  precede the next (`BeforeCanCycle`).
- `defer_poll` scans the CPUs before it takes the lock.  The walk under the lock is
  safe exactly when a second scan at that moment would let the same objects
  through (`SafeIffConfirmed`).  It is not when a context is resumed, or enters
  before a hand-over, between the two (`ResumedBetween`, `EnteredBetween`).
- A write that takes a file past 4 GiB records the length modulo 2^32 in the
  directory entry, while truncation refuses such lengths.  The entry gives the
  length exactly when that is at most 0xFFFFFFFF (`LengthSurvives`,
  `FourGigabytesAreLost`).
- The memory test in `bpf_check` names the store instructions but never applies
  to them; the interpreter's own test is what keeps stores in bounds
  (`StoresAreNotChecked`).
- The deadlock search finds every cycle of ten or fewer edges; a cycle of eleven
  can form (`ElevenIsMissed`).

## Model

| member | source | states |
|---|---|---|
| Treaps.Treap.RotateUp | kernel/core/process.c:127-144 | Performs exactly the stores of one rotation, for either side and with or without a grandparent; `RotationShape` and `RotatedKeeps` say what they mean. |
| Treaps.RotationShape | kernel/core/process.c:127-144 | The rotated memory has the shape of the rotated tree under the same path: every left, right and parent pointer, and the root pointer. |
| Treaps.RotatedKeeps | kernel/core/process.c:127-144 | Rotating a child over its parent changes neither the in-order walk nor the set of nodes nor their distinctness. |
| Treaps.Treap.Insert | kernel/core/process.c:146-162 | The new node enters the in-order walk at the one place the search key allows, everything else keeps its place and its priority, and the tree is heap-ordered again. |
| Treaps.Treap.Remove | kernel/core/process.c:164-177 | Exactly the given node leaves the in-order walk; order, heap order, priorities and pointers of the rest hold. |
| Treaps.Treap.LastBefore | kernel/core/process.c:2168-2179 | The descent returns the last node of the in-order walk that is not beyond the key, or none. |
| Treaps.Treap.First | kernel/core/process.c:179-183 | The first node of the in-order walk, or none. |
| Treaps.Treap.Next | kernel/core/process.c:185-193 | The in-order successor, found through the right subtree or up the parent pointers. |
| Treaps.InOrderDistinct | kernel/core/process.c:146-193 | The in-order walk of a tree of distinct nodes has no repetition, so positions in it are well defined. |
| VmAreas.AddressSpace.AtOrBefore | kernel/core/process.c:2168-2179 | The area with the greatest start at or below an address: everything up to it starts at or below, everything after it above. |
| VmAreas.AddressSpace.FirstEndingAfter | kernel/core/process.c:2181-2186 | The first area that ends after an address, as a position in the list. |
| VmAreas.AddressSpace.Insert | kernel/core/process.c:2188-2207 | A fitting area joins the treap and the linked list at the same position, and both stay equal, sorted and disjoint. |
| VmAreas.AddressSpace.Remove | kernel/core/process.c:2209-2227 | An area leaves the treap and the linked list at the same position. |
| VmAreas.AddressSpace.SplitAt | kernel/core/process.c:2229-2237 | The area ends at the cut; the tail starts there, ends where the area did, and has the area's offset plus the distance of the cut, modulo 2^64; no address changes what it is mapped to. |
| VmAreas.AddressSpace.Map | kernel/core/process.c:2239-2249 | Every address x of the range gets the new flags, kind and file, and the file offset `offset + (x - start)` modulo 2^64; every other address keeps what it had, but for a tail that could not be allocated; empty ranges are refused, and without memory the range is only unmapped. |
| VmAreas.AddressSpace.Unmap | kernel/core/process.c:2251-2274 | Every address in the range is unmapped and every other keeps what it had, through removal, trimming at either end and splitting; when the tail of a split cannot be allocated, exactly that tail is unmapped too. |
| VmAreas.AddressSpace.Protect | kernel/core/process.c:2276-2298 | Every mapped address in the range gets the new flags and keeps kind, file and offset, and every other address is unchanged; an area that sticks out and cannot be cut for want of memory is left out whole. |
| VmAreas.AddressSpace.RangeFree | kernel/core/process.c:2300-2306 | True exactly for a non-empty range none of whose addresses is mapped. |
| VmAreas.AddressSpace.FindFreeRange | kernel/core/process.c:2308-2322 | Returns what the first-fit search over the sorted layout returns, with the 64-bit subtraction of the source. |
| VmAreas.FirstFitCorrect | kernel/core/process.c:2308-2322 | For a hint at or below the limit: the result is free, starts at or above the hint, ends at or below the limit, and no lower start would do; no result means there is no such range. |
| VmAreas.FirstFitBelowLimit | kernel/core/process.c:2308-2322 | A range that is found ends at or below the limit if and only if the hint is at or below it. |
| VmAreas.FirstFitAboveLimit | kernel/core/process.c:2308-2322 | A hint above the limit in an empty address space is returned as it is. |
| VmAreas.FirstFitPastLimit | kernel/core/process.c:2308-2322 | For every hint above the limit: the hint itself if the range there is free and the wrapped distance allows it, else nothing. |
| VmAreas.ViewDrop | kernel/core/process.c:2258-2262 | Removing one area unmaps exactly its own addresses. |
| VmAreas.ViewMeans | kernel/core/process.c:2229-2237 | What an address is mapped to: the flags, kind and file of its area, and the area's offset plus the distance from its start, modulo 2^64; an address of no area is not mapped. |
| VmAreas.ViewTrim | kernel/core/process.c:2264-2270 | Shortening an area at either end unmaps exactly the addresses it gives up and moves no file offset. |
| VmAreas.ViewSplit | kernel/core/process.c:2229-2237 | A split area and its tail map the same as the whole, file offset for file offset. |
| VmAreas.UnmapExact | kernel/core/process.c:2263-2266 | An unmapping takes exactly its range if and only if the tail could be allocated or no area sticks out on both sides. |
| VmAreas.ProtectExact | kernel/core/process.c:2283-2290 | After the call, exactly the range has the new flags if and only if every area with other flags that sticks out at one end of the range could be cut there. |
| VmAreas.TailIsLost | kernel/core/process.c:2262-2265 | One area, a range inside it and no memory: the address behind the range was mapped and is not any more. |
| VmAreas.AreaIsLeftOut | kernel/core/process.c:2284-2291 | The same area and range with other flags: nothing in the range gets them. |
| RunQueues.BeforeIsOrder | kernel/core/process.c:121-125 | For any base less than half the circle behind both, the wrapping comparison is that of the distances from it, then of the insertion numbers. |
| RunQueues.BeforeCanCycle | kernel/core/process.c:121-125 | Three runtimes spread round the circle each run before the next. |
| RunQueues.SortedIsAscending | kernel/core/process.c:121-125 | A queue is strictly sorted by the wrapping comparison if and only if its runtimes, then insertion numbers, rise from some base within half the 64-bit circle. |
| RunQueues.PlaceIffRoom | kernel/core/process.c:146-162 | A sorted queue has a place for a newcomer if and only if the newcomer is less than half the circle after its first or before its last member. |
| RunQueues.RoomWithout | kernel/core/process.c:1751-1763 | A member of a sorted queue, once taken out, has room to come back, so that renicing needs none. |
| RunQueues.NewcomerMonotone | kernel/core/process.c:146-162 | In a sorted queue the search for a newcomer's place turns left at the later processes and right at the earlier ones, so descending the treap finds that place. |
| RunQueues.NewcomerSorted | kernel/core/process.c:146-162 | Inserting where the search ends keeps the queue strictly sorted. |
| RunQueues.RingAppend | kernel/core/process.c:203-213 | The four stores at the tail make a ring whose walk is the old walk and the newcomer. |
| RunQueues.RingRemove | kernel/core/process.c:228-238 | The two stores around a member leave a ring whose walk is the old walk without it. |
| RunQueues.RunQueue.LinkRealtime | kernel/core/process.c:195-215 | The process joins the tail of the ring of its level; head, bitmap and counts follow; nothing else about any process changes. |
| RunQueues.RunQueue.UnlinkRealtime | kernel/core/process.c:223-239 | The process leaves its ring wherever it stood in it; head and bitmap follow; the links of the others stay a ring. |
| RunQueues.RunQueue.LinkOrdinary | kernel/core/process.c:216-221 | The process enters the treap with the weight of its nice value and a fresh insertion number; queue sorted, weight total and counts exact. It needs room for the newcomer, which `PlaceIffRoom` shows to be the exact condition. |
| RunQueues.RunQueue.UnlinkOrdinary | kernel/core/process.c:240-243 | The process leaves the treap; the weight total loses the weight it was queued with. |
| RunQueues.RunQueue.ReadyLink | kernel/core/process.c:195-221 | Nothing happens to a queued process; another joins the one list its priority asks for, at the tail if that is a ring. |
| RunQueues.RunQueue.ReadyUnlink | kernel/core/process.c:223-243 | Nothing happens to a process that is not queued; another leaves the list it is on. |
| RunQueues.RunQueue.SetNice | kernel/core/process.c:1751-1763 | The clamped value is stored, or refused without privilege; a queued process is requeued; heap order, sorting, totals, rings and bitmap hold with the new weight. |
| RunQueues.RunQueue.SetScheduler | kernel/core/process.c:1712-1739 | Policy and priority are accepted exactly when they go together, capped for the unprivileged, and a queued process moves to the list of its new class; only one that leaves a ring for the treap needs room there. |
| RunQueues.WeightFalls | kernel/core/process.c:66-77 | The weight is 1024 at nice 0 and falls by a factor between 1.2 and 1.3 with each step of nice; values outside -20..19 count as the nearest end. |
| RunQueues.WeightOrder | kernel/core/process.c:66-77 | A nicer process has a strictly smaller weight. |
| RunQueues.LevelIs | kernel/core/process.c:199-202 | The level of a real-time process is its priority, at most 99. |
| RunQueues.RunQueue.FirstAllowedRt | kernel/core/process.c:1611-1627 | The bitmap scan returns the first allowed process of the highest ring above the given level that has one, or none. |
| RunQueues.FirstLevelHighest | kernel/core/process.c:1611-1627 | What that scan returns: no ring above the one chosen has an allowed process, and none at all when it returns nothing. |
| RunQueues.RunQueue.FirstAllowedOrdinary | kernel/core/process.c:1629-1633 | The first allowed process of the treap's order, or none. |
| RunQueues.FirstAllowedEarliest | kernel/core/process.c:1616-1633 | The walk stops at the earliest allowed member, and returns none exactly when there is none. |
| RunQueues.RunQueue.NextRunnable | kernel/core/process.c:1666-1694 | The process chosen is preferred to every other queued runnable one: higher real-time level, then first come first served, then least virtual runtime; none is chosen exactly when none is runnable. |
| RunQueues.Selection | kernel/core/process.c:1666-1694 | The two searches together pick that process from any consistent set of queues. |
| SmpHandover.MoveCpu | kernel/core/process.c:1830-1884 | When one CPU changes what it claims and the flags follow, each process is still claimed at most once and `on_cpu` still marks exactly the claimed ones. |
| SmpHandover.Machine.Leave | kernel/core/process.c:1830-1838 | The first process left in a switch becomes the owner and keeps its flag; a later one that is not the owner loses it at once. |
| SmpHandover.Machine.Activate | kernel/core/process.c:1849-1871 | The CPU takes a process that is ready and allowed on it, or its current one, and that is marked as on a CPU only when it is this CPU's current process or switch owner; afterwards this CPU and no other claims it, and the invariant holds. |
| SmpHandover.Machine.LeaveForIdle | kernel/core/process.c:1873-1884 | Going idle in or out of a switch keeps the invariant. |
| SmpHandover.Machine.FinishSwitch | kernel/core/process.c:1840-1847 | First half: the CPU clears its own fields and still claims the owner it left, unless that is what it runs; no flag changes. |
| SmpHandover.Machine.StoreFlag | kernel/core/process.c:1846 | Second half: the flag of the owner is cleared and the claim is gone; every other flag stays. |
| SmpHandover.MarkedIsOccupied | kernel/core/process.c:1840-1847 | Occupied implies marked in every state; marked implies occupied but for processes whose flag store is due, so the two are equivalent outside that gap. |
| SmpHandover.TurnKeepsStack | kernel/core/process.c:1830-1871 | Turning to another process leaves the CPU on a stack it still occupies if and only if it is not on the stack of one it took in mid-switch and now leaves. |
| SmpHandover.NeverTakenTwice | kernel/core/process.c:1493-1497 | A process that `runnable` offers to one CPU is claimed by no other CPU, and no other CPU executes on its kernel stack. |
| SmpHandover.Machine.ReapDeferred | kernel/core/process.c:1238-1271 | Exactly the dead processes no CPU claims are taken, none of them has its stack in use, the others stay on the dead list, and the flags stay right. |
| SmpHandover.Machine.Run | kernel/core/process.c:1830-1884 | After every interleaving of takes, idles, stack moves, both halves of switch ends, exits, spawns and reaps on any number of CPUs: whoever is occupied is marked and occupied once, whoever is marked is occupied or about to be let go, and no CPU runs on the stack of a process it does not occupy. |
| WakeSequence.Sleepers.NoteEntry | kernel/core/process.c:359-361 | System call entry takes the snapshot of the counter. |
| WakeSequence.Sleepers.SleepOn | kernel/core/process.c:3563-3575 | The caller blocks on the channel exactly when there is one and the counter has not moved since its snapshot; it can then be found in the bucket of the channel. |
| WakeSequence.Sleepers.FutexWait | kernel/core/process.c:3370-3403 | Of the five outcomes only the last blocks, and only when the counter has not moved; the sleeper is then in the buckets of its address and of its shared key. |
| WakeSequence.Sleepers.WakeToReady | kernel/core/process.c:267-292 | A woken process leaves both hash tables, the others keep their buckets, and only it stops being blocked. |
| WakeSequence.Sleepers.WakeAll | kernel/core/process.c:3583-3645 | Exactly as many processes as it returns are woken, each blocked on the channel, nobody else changes, and nobody is left asleep on it; the wake is logged. |
| WakeSequence.Sleepers.WakeOne | kernel/core/process.c:3589-3600 | At most one process is woken, and it was blocked on the channel; none means nobody sleeps on the channel; nobody else changes. |
| WakeSequence.Sleepers.FutexWakeList | kernel/core/process.c:3772-3791 | A pass over a bucket wakes only blocked futex sleepers that have the key, or the memory and the address, and a common bit, as many as it adds to the count, up to the limit; below the limit no such sleeper of the bucket is left. |
| WakeSequence.Sleepers.Matches | kernel/core/process.c:3776-3780 | The test of one sleeper: blocked on a futex, named by a non-zero key or by memory and address, with a common bit. |
| WakeSequence.Sleepers.FutexWake | kernel/core/process.c:3793-3806 | Exactly as many processes as it returns are woken, each a match; below the limit no sleeper is left that it names by key, or by memory and address, with a common bit; the wake is logged with whether it was complete. |
| Words.AndNonzero | kernel/core/process.c:3779 | Two bit sets have a non-zero conjunction exactly when they have a common bit. |
| WakeSequence.ChannelMet | kernel/core/process.c:3612-3645 | Whoever sleeps on the channel is in the bucket the wake walks. |
| WakeSequence.FutexMet | kernel/core/process.c:3772-3806 | Whoever a complete futex wake names is in one of the two buckets it walks. |
| WakeSequence.LogMore | kernel/core/process.c:353-357 | A wake that leaves nobody asleep whom it is meant for keeps it true that no blocked process has missed a wake since its snapshot. |
| WakeSequence.FreshSleep | kernel/core/process.c:353-361 | Blocking with an unmoved counter cannot have missed a wake. |
| WakeSequence.Sleepers.Run | kernel/core/process.c:245-292 | In every run of entries, sleeps and wakes, no blocked process has been passed over by a logged wake meant for it that came after its entry; the log only grows, by one event for each wake. |
| SignalQueues.SignalQueue.Queue | kernel/core/process.c:535-572 | For every input: the result, whether an entry is added and which one, and every pending bit, with invalid numbers, dead targets, ignored and merged signals, exhausted limits and prepared entries; stop signals and SIGCONT cancel each other. |
| SignalQueues.SignalQueue.Dequeue | kernel/core/process.c:578-611 | The lowest synchronous signal of the mask is taken, else the lowest; its oldest entry leaves, every other number keeps its entries, and the bit stays exactly if an entry of that number is left. |
| SignalQueues.SignalQueue.Flush | kernel/core/process.c:515-529 | The queue keeps exactly the entries outside the mask, in order, the mask's bits are cleared, and the count of allocated entries is exact. |
| SignalQueues.SignalQueue.Unqueue | kernel/core/process.c:4154-4169 | A prepared entry leaves wherever it stood, and its bit stays exactly if another entry of its number is left. |
| SignalQueues.SignalQueue.Withdraw | kernel/core/process.c:4154-4169 | Queueing a prepared entry and taking it back leaves the queue as the cancellation between stop signals and SIGCONT alone would. |
| SignalQueues.SignalQueue.Run | kernel/core/process.c:491-611 | Over every run: a standard bit is set exactly when one entry carries it, a real-time entry has its bit set, the count is the number of allocated entries, and SIGCONT never pends with a stop signal; every entry ever queued is queued, dequeued or dropped, and the entries the dequeues returned are, number by number, in the order of queueing. |
| SignalQueues.FirstOut | kernel/core/process.c:585-603 | Taking the first entry of a number removes the head of that number's queue and nothing from any other: first in, first out per number. |
| SignalQueues.PastTake | kernel/core/process.c:585-603 | Taking the first entry of a number keeps what was dequeued of each number in the order of queueing and before what is queued, and every entry accounted for. |
| SignalQueues.PastDrop | kernel/core/process.c:515-529 | So does dropping an entry wherever it stands. |
| SignalQueues.UnmaskedOf | kernel/core/process.c:515-529 | Flushing empties the queues of the masked numbers and leaves every other as it was. |
| SignalQueues.RemoveKeeps | kernel/core/process.c:578-611 | Removing an entry and clearing its bit exactly when no other entry has its number keeps queue and mask in agreement. |
| Defer.Collector.Enter | kernel/core/defer.c:21-27 | Only the outermost entry starts a stay and reads the generation. |
| Defer.Collector.Leave | kernel/core/defer.c:80-84 | One level of nesting is left; below zero nothing happens. |
| Defer.Collector.Suspend | kernel/core/defer.c:38-52 | The stay moves from the CPU to the parked context, which is listed exactly when it was inside. |
| Defer.Collector.Resume | kernel/core/defer.c:54-66 | The stay moves from the parked context to whichever CPU resumes it, with its old generation. |
| Defer.Collector.Reset | kernel/core/defer.c:68-78 | The CPU gives up its context and starts a new stay, or none. |
| Defer.Collector.HandOver | kernel/core/defer.c:86-95 | The object is pending under a generation above every one read so far. |
| Defer.Collector.OldestInKernel | kernel/core/defer.c:109-119 | The least generation read by a CPU inside the kernel, or the greatest number when there is none. |
| Defer.Collector.Poll | kernel/core/defer.c:121-145 | With nothing between its halves: an object is released if and only if no CPU and no parked context that was inside when it was handed over is still inside; the others stay pending, and the count follows. |
| Defer.Collector.Walk | kernel/core/defer.c:124-139 | For whatever the scan returned and whenever: released are exactly the objects whose generation passes the scan and every parked context now, each once; those that somebody inside may still see are recorded, and there are none if and only if the walk is confirmed. |
| Defer.SafeIffConfirmed | kernel/core/defer.c:121-139 | No object that somebody inside may still see is released if and only if a second scan at the time of the walk would let through every object the first and the parked contexts do. |
| Defer.WalkJudged | kernel/core/defer.c:121-139 | None of the objects a walk releases may still be seen by somebody inside if and only if every second scan would confirm it. |
| Defer.ResumedBetween | kernel/core/defer.c:54-66 | A context resumed between scan and walk is counted by neither, and an object it may see is released. |
| Defer.EnteredBetween | kernel/core/defer.c:21-27 | So is a context that enters between them, for an object handed over after it. |
| Defer.TestIsExact | kernel/core/defer.c:127-132 | Comparing generations decides exactly whether somebody older is still inside. |
| Defer.ReleasedOnce | kernel/core/defer.c:128-138 | Each hand-over is pending or released, never both, and released at most once. |
| Defer.OneMorePending | kernel/core/defer.c:86-95 | The clock and the generation counter both put a hand-over after every stay in progress. |
| Defer.Collector.Run | kernel/core/defer.c:21-145 | Every run of all operations, polls in two steps and CPUs coming online included: `pending_count` is the length of the pending list, no hand-over is released twice, and none is released while a context that entered before it is inside if and only if every walk of the run is confirmed by a second scan at its moment. |
| FatTables.StoredReads | kernel/fs/fatfs.c:80-149 | For FAT12, FAT16 and FAT32: a stored entry reads back, cut to its width, and every other entry reads as before, pairs that share a byte included. |
| FatTables.EntryLayout | kernel/fs/fatfs.c:80-110 | The layout in bytes: FAT12 entry 2j is byte 3j and the low half of byte 3j+1, entry 2j+1 the high half of byte 3j+1 and byte 3j+2; FAT16 is two bytes at 2c, FAT32 the low 28 bits of four bytes at 4c, low byte first. |
| FatTables.ReservedBits | kernel/fs/fatfs.c:136-143 | A FAT32 store keeps the four reserved bits of the word. |
| FatDisks.FatDisk.EntryRead | kernel/fs/fatfs.c:80-110 | The two-sector read returns the entry of the first table, straddling entries included: the value its bytes on the device have in the layout of the width. |
| FatDisks.FatDisk.EntryWrite | kernel/fs/fatfs.c:112-149 | In every copy of the table the bytes of the entry then hold the value, cut to its width, and the bytes of every other entry its old value; nothing outside the tables changes. |
| FatDisks.FatDisk.WriteSector | kernel/fs/fatfs.c:60-72 | A sector written through a cluster number changes sector `data_start + (c - 2) * sectors_per_cluster + k` of the device, that stretch of that cluster, and no table entry. |
| FatDisks.SectorsStore | kernel/fs/fatfs.c:120-147 | Writing back two sectors with the entry's bytes replaced is storing the entry in that copy of the table. |
| FatDisks.CopyRewritten | kernel/fs/fatfs.c:112-149 | A copy of the table with an entry stored, read byte by byte on the device: that entry has the new value, the others their old ones. |
| FatDisks.FatDisk.WriteRoot | kernel/fs/fatfs.c:311-315 | A sector of the fixed root directory changes, and no table entry and no cluster. |
| FatEntries.StoreEntry | kernel/fs/fatfs.c:330-336 | The four stores and the loop change exactly the eight bytes for size and first cluster of the entry. |
| FatEntries.EntryReads | kernel/fs/fatfs.c:330-386 | What is stored is what mounting the volume reads back. |
| FatEntries.EntriesApart | kernel/fs/fatfs.c:323-338 | Every other entry of the directory keeps all its bytes. |
| FatEntries.EntryInSector | kernel/fs/fatfs.c:323-338 | Writing back the one sector is storing the entry in the directory. |
| FatFiles.FatFs.AllocateCluster | kernel/fs/fatfs.c:151-161 | The lowest free cluster is taken and marked as an end; none is returned exactly when the volume is full. |
| FatFiles.EndMarks | kernel/fs/fatfs.c:74-78 | An entry ends a chain exactly when every bit above its low three is set; the mark that is written has all of them set. |
| FatFiles.FatFs.ClusterAt | kernel/fs/fatfs.c:163-179 | Without growing: the cluster of the chain that holds the offset, or none past its end. |
| FatFiles.FatFs.ClusterAtGrowing | kernel/fs/fatfs.c:163-179 | Growing: the chain keeps its clusters, is extended with free ones just as far as the offset needs, and no other chain changes; it fails only on a full volume or an empty file. |
| FatFiles.FatFs.DirectoryRead | kernel/fs/fatfs.c:295-307 | The sector of the directory at the offset, in the fixed root or through a chain, or failure exactly past its end. |
| FatFiles.FatFs.DirectoryWrite | kernel/fs/fatfs.c:309-321 | The sector is replaced in that directory and no other file or directory changes. |
| FatFiles.FatFs.WriteDirectoryEntry | kernel/fs/fatfs.c:323-338 | Eight bytes of the file's entry record size and first cluster; the rest of its directory, every other entry, file and directory is unchanged. |
| FatChains.Extend | kernel/fs/fatfs.c:171-176 | Linking a free cluster to the end keeps all chains acyclic, terminated and disjoint. |
| FatChains.Shorten | kernel/fs/fatfs.c:241-247 | Ending a chain early and clearing the rest keeps the catalogue, and the clusters given up are free. |
| FatChains.FreeIsOutside | kernel/fs/fatfs.c:151-161 | A cluster whose entry is free is on no chain. |
| FatChains.ContentsWrite | kernel/fs/fatfs.c:271-284 | Writing inside one cluster of a chain writes at the matching place of the file's contents and nowhere else. |
| FatFiles.FatFs.Write | kernel/fs/fatfs.c:251-293 | The bytes moved stand at the offset and every other byte of the old contents is unchanged; the file's directory entry records length and first cluster, and its directory is otherwise unchanged; every other file and directory, and every other entry, is unchanged; a short write means a full volume. |
| FatFiles.LengthSurvives | kernel/fs/fatfs.c:289-290 | The size a write records is the length of the file if and only if that is at most 0xFFFFFFFF. |
| FatFiles.FourGigabytesAreLost | kernel/fs/fatfs.c:289-290 | A file of 4 GiB and one byte is recorded as one byte long. |
| FatFiles.FatFs.Read | kernel/fs/fatfs.c:181-208 | Exactly the bytes of the contents at the offset, as many as size, length and clusters allow. |
| FatFiles.FatFs.WriteThenRead | kernel/fs/fatfs.c:181-293 | What a complete write stored, a read at the same offset returns. |
| FatFiles.FatFs.Release | kernel/fs/fatfs.c:212-220 | The entries of a chain are cleared and no others, and the loop ends. |
| FatFiles.FatFs.Truncate | kernel/fs/fatfs.c:222-249 | Lengths that are too great, growing, emptying and shrinking, with the return code for each: a fully allocated file keeps exactly its first ceil(length / cluster) clusters and their bytes, the rest are free, its directory entry records the length, and nothing else changes. |
| PosixLocks.LockList.FindConflict | kernel/fs/posix_lock.c:42-50 | The first lock of another owner that overlaps where one of the two is exclusive, or none. |
| PosixLocks.LockList.Test | kernel/fs/posix_lock.c:69-82 | A free range answers unlock; a taken one answers with the first lock in the way. |
| PosixLocks.LockList.Apply | kernel/fs/posix_lock.c:94-145 | For every owner and byte, the kind and the process: the requested bytes of the owner get those of the request, and so do the bytes of its locks of that kind that overlap or adjoin the range; nothing else changes; the new lock comes first; an owner's locks stay disjoint and merged, owners share only read locks, and a spare is there whenever one is taken. |
| PosixLocks.LockList.SetThenTest | kernel/fs/posix_lock.c:69-145 | After a lock is set, the test of any other owner that it stops is answered with its kind, the process that set it and a range around it. |
| PosixLocks.ConflictMeans | kernel/fs/posix_lock.c:42-50 | A lock stands in the way if and only if it is another owner's, shares a byte with the request and one of the two is exclusive. |
| PosixLocks.MergedApart | kernel/fs/posix_lock.c:105-111 | Two locks of one owner and kind have a byte between them. |
| PosixLocks.OutcomeGrants | kernel/fs/posix_lock.c:94-145 | Carving the range out of the old locks and adding the grown one changes the map from owner and byte to kind and process exactly on the range and the locks it swallowed. |
| PosixLocks.OutcomeWellFormed | kernel/fs/posix_lock.c:94-145 | The result is disjoint per owner, same-kind neighbours are merged, and overlapping locks of different owners are read locks. |
| PosixLocks.SameTouch | kernel/fs/posix_lock.c:105-111 | Growing the range while walking never makes it touch more than the request did. |
| PosixLocks.TwoSparesSuffice | kernel/fs/posix_lock.c:84-92 | At most one lock is split, so two spare nodes are enough. |
| PosixLocks.SharedIsRead | kernel/fs/posix_lock.c:42-50 | Two owners that hold the same byte both hold it for reading. |
| PosixLocks.HeldOnce | kernel/fs/posix_lock.c:94-145 | An owner holds a byte with one kind of lock at most, set by one process. |
| PosixLocks.LockList.ReleaseOwner | kernel/fs/posix_lock.c:193-211 | Every byte of the owner is free, every other owner's bytes keep kind and process, and waiters are woken exactly when something was released. |
| LockWaits.WaitList.WouldDeadlock | kernel/fs/posix_lock.c:52-61 | Yes exactly when a recorded chain of fewer than ten edges leads from the blocker back to the owner. |
| LockWaits.WaitList.Forget | kernel/fs/posix_lock.c:63-67 | The record leaves the list, the others stay, and no short cycle appears. |
| LockWaits.WaitList.Attempt | kernel/fs/posix_lock.c:155-187 | Granted exactly when nothing is in the way; otherwise refused exactly without waiting, deadlocked exactly when a waiting process-owned request is reached back from the owner in its way by a recorded chain of fewer than ten edges, else recorded as waiting for that owner; the graph keeps no cycle of ten or fewer edges. |
| LockWaits.NewEdgeKeeps | kernel/fs/posix_lock.c:165-171 | Recording a wait the search let through creates no cycle of ten or fewer edges. |
| LockWaits.FewerEdgesKeep | kernel/fs/posix_lock.c:63-67 | Removing a record creates no cycle. |
| LockWaits.ElevenIsMissed | kernel/fs/posix_lock.c:52-61 | A chain of ten waits closed into an eleven-edge cycle passes the search. |
| Bpf.Check | kernel/core/seccomp.c:138-157 | Accepts exactly the programs of proper length whose opcodes are known, whose jumps land inside, whose scratch loads are in bounds and which end in a return. |
| Bpf.StoresAreNotChecked | kernel/core/seccomp.c:150-153 | A store with any index is accepted. |
| Bpf.Step | kernel/core/seccomp.c:22-48 | Every scratch and data access is in bounds, and an instruction returns or moves forward. |
| Bpf.StaysInside | kernel/core/seccomp.c:70-78 | From any instruction of an accepted program the next one is a later instruction of the program. |
| Bpf.AcceptedReturns | kernel/core/seccomp.c:16-87 | An accepted program returns within one instruction per line and never runs off its end. |
| Bpf.BpfRun | kernel/core/seccomp.c:16-87 | The loop computes the verdict of running the instructions, whose laws follow, from zeroed registers and memory, in at most `length` instructions. |
| BpfLaws.Sum | kernel/core/seccomp.c:49-59 | ADD gives the sum modulo 2^32, from the constant or the index register, and changes nothing else. |
| BpfLaws.Difference | kernel/core/seccomp.c:50-60 | SUB gives the difference modulo 2^32. |
| BpfLaws.Product | kernel/core/seccomp.c:51-61 | MUL gives the product modulo 2^32. |
| BpfLaws.Negation | kernel/core/seccomp.c:69 | NEG gives what adds up to 0 modulo 2^32. |
| BpfLaws.SubUndoesAdd | kernel/core/seccomp.c:49-60 | Subtracting what was added restores the whole state. |
| BpfLaws.DivAndMod | kernel/core/seccomp.c:52-63 | DIV and MOD give the quotient and the remainder: a = q * b + r with r below b; both are 0 for b = 0. |
| BpfLaws.Bitwise | kernel/core/seccomp.c:54-66 | AND, OR and XOR hold bit by bit. |
| BpfLaws.Shifts | kernel/core/seccomp.c:57-68 | LSH multiplies by a power of two modulo 2^32 and RSH divides by one; 32 places or more leave 0. |
| BpfLaws.Conditions | kernel/core/seccomp.c:70-78 | Each conditional jump skips jt instructions exactly when its relation holds of the numbers (for JSET: when they have a common bit), else jf; JA skips the low 16 bits of its constant; no register changes. |
| BpfLaws.StoreThenLoad | kernel/core/seccomp.c:31-48 | A word stored from either register is loaded back into either one, other words of scratch memory are as before, and an index of 16 or more stops the filter. |
| BpfLaws.LoadsAndReturns | kernel/core/seccomp.c:25-82 | Data loads give the word at a multiple of 4 up to 60 and stop the filter elsewhere; the length is 64; TAX and TXA copy; RET K returns the constant, RET A the accumulator. |
| BpfLaws.OtherCodes | kernel/core/seccomp.c:83 | Every other code, described by its class and operation bits, stops the filter. |
| BpfLaws.StartsAtZero | kernel/core/seccomp.c:18-20 | Both registers and every word of scratch memory start at 0. |
| BpfLaws.AboveAnswers | kernel/core/seccomp.c:16-87 | For every data word, bound and data: the four-line filter that compares the word with the bound is accepted, kills the process when the word is above and allows the call otherwise. |
| Bpf.Decide | kernel/core/seccomp.c:245-267 | The result has the greatest rank over the chain and is the newest filter's of that rank, or allow. |
| Bpf.StrictestIsOne | kernel/core/seccomp.c:245-267 | That describes one value. |
| Bpf.AddingNeverWeakens | kernel/core/seccomp.c:245-267 | A filter more never lowers the rank of the decision, nor goes below its own. |
| BpfLaws.ActionOrder | kernel/core/seccomp.c:250-258 | Kill-process, kill-thread, trap, errno, user-notification, trace, log, allow: each is stricter than the next, whatever their data. |
| BpfLaws.UnknownAction | kernel/core/seccomp.c:259 | An action that is none of the eight is as strict as kill-thread. |
| Seccomp.Table.Attach | kernel/core/seccomp.c:184-193 | A filter goes on top of the process's chain with one reference, or is refused in strict mode; chains and counts hold. |
| Seccomp.Table.SetStrict | kernel/core/seccomp.c:208-214 | Refused exactly when filters are in force. |
| Seccomp.Table.Inherit | kernel/core/seccomp.c:269-274 | The child has the parent's mode and chain, and every filter of it one reference more. |
| Seccomp.Table.Release | kernel/core/seccomp.c:276-285 | The process has no filters; a filter is freed exactly when no chain goes through it any more, and no other chain is touched. |
| Seccomp.Table.Decide | kernel/core/seccomp.c:230-267 | Allow when disabled, the strict list in strict mode, else the strictest verdict of the process's own chain. |
| Sha256.Context.Transform | kernel/core/random.c:62-97 | The loops compute the compression function of section 6.2.2 of FIPS 180-4. |
| Sha256.Context.Update | kernel/core/random.c:107-122 | The context has taken in the message so far and the new bytes, for any lengths. |
| Sha256.Context.Final | kernel/core/random.c:124-136 | The digest is the fold of the compression function over the message padded as in section 5.1.1. |
| Sha256.Hash | kernel/core/random.c:99-136 | However a message is cut into updates, its digest is that of the whole. |
| Sha256.FoldConcat | kernel/core/random.c:107-122 | Folding over a message of whole blocks is folding over its first blocks, then over the rest. |
| Sha256.Padded | kernel/core/random.c:124-134 | The one or two blocks that finish the hash are those of the padded message. |
| Sha256.Filler | kernel/core/random.c:127-132 | The least number of zero bytes that leaves room for the length at the end of a block. |
| Sha256Laws.ConstantsAreRoots | kernel/core/random.c:23-33 | The t-th round constant is the first 32 bits of the fraction of the cube root of the t-th prime, as an inequality of integers (section 4.2.2 of FIPS 180-4). |
| Sha256Laws.InitialAreRoots | kernel/core/random.c:99-103 | The initial state is that of the square roots of the first eight primes (section 5.3.3). |
| Sha256Laws.ChooseBit | kernel/core/random.c:75 | Each bit of the choice is the one its first argument selects. |
| Sha256Laws.MajorityBit | kernel/core/random.c:78 | Each bit of the majority is that of two of the three. |
| Sha256Laws.BigSigma0Bit | kernel/core/random.c:77 | Bit i is the parity of bits i+2, i+13 and i+22, round the word. |
| Sha256Laws.BigSigma1Bit | kernel/core/random.c:74 | Bit i is the parity of bits i+6, i+11 and i+25, round the word. |
| Sha256Laws.SmallSigma0Bit | kernel/core/random.c:66 | Bit i is the parity of bits i+7 and i+18, round the word, and bit i+3. |
| Sha256Laws.SmallSigma1Bit | kernel/core/random.c:67 | Bit i is the parity of bits i+17 and i+19, round the word, and bit i+10. |
| Sha256Laws.BigEndian | kernel/core/random.c:51-60 | A loaded word has its first byte at the top, and storing undoes loading. |
| Sha256Laws.OutputWords | kernel/core/random.c:124-136 | The digest is the eight words of the state, in order. |
| Words.RotateBit | kernel/core/random.c:35-37 | A rotation to the right by n takes bit i + n, round the word, to bit i. |
| PathNormal.RootPrefix | kernel/core/syscall.c:1310-1323 | The root's path without slashes at its end, or the slash itself. |
| PathNormal.Normalize | kernel/core/syscall.c:1325-1373 | For an absolute input, or a base inside the root: the output is the component-stack result relative to the root, inside the root, made of real names only, terminated inside the buffer; each failure is as the source says. |
| PathNormal.Walk | kernel/core/syscall.c:1345-1372 | The cursor loops and the buffer agree with the component stack, and fail exactly when a name or the path is too long. |
| PathNormal.Pop | kernel/core/syscall.c:1358-1363 | Going back over a slash and a name takes one component off, and none off the root. |
| PathNormal.Push | kernel/core/syscall.c:1365-1368 | A name is appended with exactly one slash before it, or does not fit. |
| PathNormal.ResolveInside | kernel/core/syscall.c:1345-1369 | A walk from inside the root ends inside the root, with no empty, "." or ".." component. |
| PathNormal.ResolveUp | kernel/core/syscall.c:1357-1363 | A name that fits and the ".." after it cancel, whatever follows. |
| PathNormal.ResolveAtRoot | kernel/core/syscall.c:1357-1363 | At the root ".." changes nothing. |
| PathNormal.ResolveLeave | kernel/core/syscall.c:1357-1363 | Below the root ".." takes the last name away. |
| PathNormal.ResolveDot | kernel/core/syscall.c:1356 | "." changes nothing. |
| PathNormal.ResolveName | kernel/core/syscall.c:1345-1369 | A name is entered if it has at most 255 characters and the path at most 4095, and fails otherwise; an empty walk stays. |
| PathNormal.ResolveSibling | kernel/core/syscall.c:1345-1369 | For all names a and b, "/a/../b" is "/b". |
| PathNormal.RenderRoundTrip | kernel/core/syscall.c:1343-1369 | A rendered path has the components it was made of. |
| PathNormal.RenderClean | kernel/core/syscall.c:1343-1369 | A rendered path starts with a slash, never has two in a row and ends with one only at the root. |
| EventStreams.Subscriber.Put | kernel/fs/eventfs.c:107-111 | One byte at the end of the ring's contents. |
| EventStreams.Subscriber.Drop | kernel/fs/eventfs.c:113-116 | Bytes leave the front of the ring's contents. |
| EventStreams.Subscriber.Deliver | kernel/fs/eventfs.c:126-136 | The event is queued whole, or counted lost; never queued while losses are unreported. |
| EventStreams.Subscriber.Publish | kernel/fs/eventfs.c:138-153 | A subscriber of the superuser hears everything, another only its own user's events that are not the system's; an event it hears is accounted for, another changes nothing. |
| EventStreams.Subscriber.Read | kernel/fs/eventfs.c:202-237 | As many whole records as fit, then, once the queue is empty, the record of the gap; the return codes follow. |
| EventStreams.Subscriber.NextLength | kernel/fs/eventfs.c:118-120 | The next record is whole and of a proper length, so the recovery branch of the read is never taken. |
| EventStreams.AccountsEvent | kernel/fs/eventfs.c:126-136 | What was read, what is queued and what is counted lost account for the events with one more, in order. |
| EventStreams.AccountsLost | kernel/fs/eventfs.c:122-124 | The same for an event that is lost. |
| EventStreams.LostTextSays | kernel/fs/eventfs.c:194-200 | The record of a gap holds the number of lost events in decimal. |
| EventStreams.ToldRead | kernel/fs/eventfs.c:202-237 | What a read returns is the text of the items it moves to the reader: the events themselves, and for a gap its number, saturated at 64 bits. |
| EventStreams.Subscriber.Run | kernel/fs/eventfs.c:103-237 | For every interleaving of publications and reads: the events the subscriber may receive are, in order, those read, queued or counted lost, and the text its reads returned is the text of what was read. |
| Decimals.Print | kernel/fs/eventfs.c:62-70 | The digit loops print the decimal number. |
| Decimals.DecimalValue | kernel/fs/eventfs.c:62-70 | The printed digits stand for the number. |
| Decimals.WordDigits | kernel/core/namespace.c:428-434 | Ten digits are enough for 32 bits and twenty for 64, so the digit buffers suffice. |
| InitStack.StackPages | kernel/core/elf.c:337-340 | The mapped pages hold the strings, a pointer each, and more than 131072 bytes besides. |
| InitStack.Stack.Push | kernel/core/elf.c:199-203 | The bytes stand at the new stack pointer and nothing above moves; below the mapped pages it fails. |
| InitStack.Stack.PushStrings | kernel/core/elf.c:220-230 | Every recorded address points at its own NUL-terminated string. |
| InitStack.Stack.Place | kernel/core/elf.c:209-280 | With the pages the loader maps it cannot fail: the stack pointer is 16-byte aligned and memory there is argc, argv, NULL, envp, NULL and the auxiliary vector. |
| InitStack.Decodes | kernel/core/elf.c:264-275 | Reading the words back one by one gives the layout of section 3.4.1 of the System V AMD64 ABI. |
| InitStack.PairsAt | kernel/core/elf.c:260-263 | The auxiliary pairs are read in reverse of the order they are pushed, so AT_NULL comes last. |
| InitStack.AuxvTags | kernel/core/elf.c:240-258 | Each tag of the auxiliary vector comes with its own value: program headers, page size, base, entry, user and group numbers, platform, capabilities, clock, random bytes and file name. |
| InitStack.AuxvOnce | kernel/core/elf.c:240-258 | No tag comes twice, and only the last one is AT_NULL. |
| LittleEndian.LowByteFirst | kernel/core/elf.c:205-207 | A word in memory has its low byte first. |
| InitStack.LoadStack | kernel/core/elf.c:337-366 | For every argv and envp: refused exactly when the stack would run below its floor, else placed. |
| InitStack.Le64Reads | kernel/core/elf.c:205-207 | A word pushed is the word read. |
| UidMaps.MapUp | kernel/core/namespace.c:158-165 | The first extent that has the id decides, the sum never wraps 32 bits, and other ids become the overflow id. |
| UidMaps.ParseU32 | kernel/core/namespace.c:352-364 | The number after the blanks if it fits 32 bits, and the cursor behind it. |
| UidMaps.Namespace.WriteMap | kernel/core/namespace.c:366-390 | Refused at the root level and a second time; else exactly the extents the text describes, if there are one to five good ones. |
| UidMaps.ReadExtent | kernel/core/namespace.c:379-386 | Three numbers whose 32-bit sums do not wrap. |
| UidMaps.ReadMap | kernel/core/namespace.c:415-440 | One line per extent, cut off at the capacity. |
| UidMaps.ParseLines | kernel/core/namespace.c:366-440 | Parsing the printed lines of a map gives the map. |
| UidMaps.CopyMap | kernel/core/namespace.c:366-440 | What is printed of an accepted map with enough capacity is accepted by a fresh namespace below the root and yields the same extents. |
| UidMaps.ParsedIsAccepted | kernel/core/namespace.c:366-390 | Whatever is accepted is at most five extents, none of which wraps. |

## Left out

- VmAreas.AddressSpace.Protect: write-reference counts of shared file mappings are not modelled.
- RunQueues.RunQueue.NextRunnable: expiry of timers and the update of the minimum virtual runtime before the choice are not modelled; which processes are runnable is a parameter.
- RunQueues.RunQueue.LinkOrdinary: requires room for the newcomer, and fewer than 2^63 insertions since any queued process with the same virtual runtime; what becomes of the order outside that is not described.
- RunQueues.RunQueue.SetNice: requires fewer than 2^63 insertions since any queued process with the same virtual runtime.
- SmpHandover.Machine.Activate: requires that the CPU is not on the stack of a process it took in mid-switch and now leaves, and not between the halves of the end of a switch; page tables, thread pointers, floating point state and time slices are not modelled.
- SmpHandover.Machine.LeaveForIdle: requires the same.
- Defer.Collector.HandOver: requires that the 64-bit generation counter has not run out.
- Defer.Collector.Resume: requires that a context is resumed once for each time it was suspended.
- WakeSequence.Sleepers.WakeAll: wakes on the shared I/O channel and the recheck of polled files are not modelled.
- WakeSequence.Sleepers.FutexWait: alignment and range checks of the address, deadlines, requeueing and priority inheritance are not modelled; the 64-bit counter is unbounded.
- SignalQueues.SignalQueue.Queue: timer overrun counts and the signal payload are not modelled.
- FatFiles.FatFs.Write: failing device operations are not modelled; the file is no directory, as only files have the operation.
- FatFiles.FatFs.constructor: requires a consistent volume, with disjoint chains that end and an entry of its own for each file; a damaged volume is not described.
- LockWaits.WaitList.Attempt: one turn of the waiting loop; being interrupted by a signal and the wake of the waiters are not modelled.
- PathNormal.Normalize: requires the working directory inside the root, and both paths as the virtual file system gives them, without empty or dot components.
- EventStreams.Subscriber.Publish: one subscriber; the loop over the subscribers of a channel, the formatting of events and the wake of readers are not modelled.
- InitStack.LoadStack: the total size of arguments and environment is not taken modulo 2^64, and pages that cannot be allocated are not modelled.
- Seccomp.Table.Attach: permission checks and the copy of the program from user memory are not modelled.
- The linked lists of pending and parked contexts, locks, waiters, wait buckets and queued signals are sequences: their pointer updates are not captured.
- The system call dispatcher, sockets, terminals, drivers, page tables, the ext4 file system and the rest of the virtual file system.
- ChaCha20 and the collection of entropy.
- ELF planning and segment loading, and process credentials.
- Directory handling on FAT volumes: names, creation and removal.
