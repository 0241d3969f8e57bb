# DestinX kernel: a Dafny model

DestinX is a small x86_64 kernel in C. This project models its memory managers, its scheduler and blocking mutex, its
page tables, its kernel log ring, its page cache and file transfers, its virtual-area lists and its date arithmetic, and
proves what they keep over whole runs. `dafny verify dfyconfig.toml` checks everything.

Code that changes state in place is modelled twice: as a function on values, about which the properties are proved, and
as a class whose methods follow the C code statement by statement and are proved to compute that function.

| subject | values and theorems | code in place |
|---|---|---|
| buddy allocator | `Blocks`, `Buddy`, `BuddyCanon`, `BuddyRuns`, `BuddyLists` | `BuddyAllocator` (lists in `Links`) |
| slabs, `kmalloc`, `kfree` | `KernelHeap`, `KernelHeapInv`, `KernelHeapSteps`, `KernelHeapRuns`, `KernelHeapReuse`, `KernelHeapBookkeeping`, `KernelHeapWrites` | `SlabAllocator` |
| scheduler and mutex | `Scheduling`, `SchedulerRuns`, `SchedulerSteps`, `BoundedWaiting` | `ReadyRing` |
| frame bitmap | `FrameRuns` | `Frames` |
| page tables | `PageTables`, `PageTableTheory`, `PageTableRuns` | `Vmm`, `DirectMap` |
| kernel log ring | `KringProtocol`, `KringPasses`, `KringOverruns` (interleaved steps) | `KringBuffer` (uninterrupted calls) |
| page cache and DFS transfers | `FileSplit`, `PageCache`, `CacheEffects` | `FileCache`, `FileRuns` |
| virtual areas | `Areas`, `ProcessMaps` | `AreaList` |
| date arithmetic | `Calendar` | |

## What turned out not to hold

Each of these has a lemma that shows the failure, or a condition that is exact in both directions.

- Heap growth moves the recorded heap end by one page instead of one region, so the first growth is sound and a second
  one lists pages that are already managed (`BuddyCanon.GrowTiledIff`, `BuddyRuns.SecondGrowthOverlaps`). Two requests
  for a whole region lead there (`BuddyRuns.SecondGrowthIsReachable`).
- Enqueueing a thread that is still in the ready ring rewires it: its `next` leads back to the head, and the threads
  after it are no longer reached, so the ring stays whole exactly when the thread is alone in it
  (`ReadyRing.ReachedAfterRewiring`, `ReadyRing.RewiredIsWholeIff`). The disk driver allows this: it marks its thread
  blocked and enables interrupts before the switch (`SchedulerRuns.WakeCanComeBeforeSwitch`).
- `pmm_alloc_pages` multiplies in `int`: the address it returns is that of the frame exactly below 2 GB
  (`Frames.RunAddressIff`).
- Mapping a 4 KB page works exactly when no 2 MB leaf covers it (`PageTableTheory.MapSmallIff`).
- Flags from bit 12 up fall on the frame number of an entry. A mapped frame comes back from unmapping exactly when each
  such flag is a one-bit of its number already (`PageTableTheory.MapThenUnmap`); a write-combining 2 MB region is the one
  kind of mapping in the kernel that loses its frame (`PageTableTheory.WriteCombiningLost`).
- The log ring keeps its order exactly while at most 4096 characters are outstanding, which the code does not enforce
  (`KringProtocol.RoomIsExact`). Without a drop mark the printed text is always a prefix of the log
  (`KringProtocol.NoMarkMeansInOrder`). After an overrun, with calls and flush passes in any order, the mark is followed by
  exactly the newest 4096 characters if and only if every character that lost its slot equals the one that took it
  (`KringOverruns.OverrunExactIff`). A skipped slot keeps its ready flag, so a pass that begins before the new character
  is stored prints the old one, even when every earlier call had finished (`KringOverruns.EarlyPassMisprints`). When no
  pass begins before the calls in progress have finished, the newest 4096 follow the mark if and only if none of those calls
  still had to store a different character into a slot that is used again (`KringPasses.OverrunIff`,
  `KringPasses.OverrunMisprints`).
- `dfs_write` splits a range right exactly for offsets in the first page and, beyond one page, ends off a page boundary;
  `dfs_read` exactly for aligned ranges inside one page and for ranges from offset 0 with the same end condition
  (`FileSplit.WriteDomainIsExact`, `FileSplit.ReadDomainIsExact`). For a range that ends past the file both return the
  size asked for when the pages were cached and the size that fits when they were not (`FileCache.Volume.Write`,
  `FileCache.Volume.Read`).
- Area placement wraps around when nothing fits: the lists stay disjoint exactly when there is room
  (`Areas.AddIff`). Rounding a size up to pages yields zero within 4095 bytes of 2^64 (`Areas.RoundedIsEnoughIff`), and
  giving up an area by its address gives up another one exactly when the area before it starts there too, which takes an
  empty area (`Areas.FindsItIff`, `Areas.EmptyShadows`).

## Assumptions

- The heap starts on a 2^45 boundary, its metadata is zero at start, and its growth finds memory.
- The ready ring holds a thread that never blocks, as the log flusher and the thread cleaner started at boot do not.
  `Scheduling.BlockedStopsIffOther` and `SchedulerRuns.LonelyThreadBreaksExclusion` are the reason: a blocked thread
  that is alone in the ring goes on running.
- A wake-up finds its thread out of the ring, because of the rewiring described above.
- The frame allocator has a clear frame for each table that a map has to create. Callers map frames that they own or that
  the allocator does not manage, such as a device's, with entries that set no reserved bit.
- Two bits guard the frame bitmap: bit 0 and the bit past the last frame are set, and frames are freed page-aligned.
- The initialising loop of the log ring runs zero times (drivers/video/kring.c:20), so the ready flags are assumed clear
  when the ring is set up.
- A disk transfer is an atomic block copy that may fail; distinct files own distinct blocks. Which transfers fail is a
  parameter of every operation.
- There is one processor. A pass of the log flusher runs with interrupts off (drivers/video/kring.c:68-100,
  kernel/sync/spinlock.c:3-8), so calls of the log writer advance between passes only.
- One step stands for one critical section; weak memory order is not modelled.

## Model

| member | source | states |
|---|---|---|
| Blocks.XorOneBit | mm/buddy.c:77-80 | flipping one bit of a page number is bitwise exclusive-or with that power of two |
| Blocks.AddressXor | mm/buddy.c:77-80 | exclusive-or on the virtual address of a block yields the virtual address of its buddy page |
| Blocks.BuddyFacts | mm/buddy.c:77-92 | buddies are aligned, distinct, share their parent, and the lower one starts it |
| Blocks.SameBlockUp | mm/buddy.c:34-38 | blocks are nested or disjoint |
| Links.PushFront | mm/buddy.c:110-122 | the pointer writes of a list add turn a well-formed doubly linked list into one with the node in front |
| Links.Unlink | mm/buddy.c:100-108 | the pointer writes of a list remove leave a well-formed list without the node |
| Buddy.FlipInHeap | mm/buddy.c:77-84 | the buddy of a managed block is managed, so its metadata exists |
| BuddyCanon.TakeFree | mm/buddy.c:28-35 | making one free block live removes exactly that block from the canonical free set |
| BuddyCanon.SplitKeepsTiled | mm/buddy.c:34-38 | the halving loop leaves exactly the requested block live and canonical lists |
| BuddyCanon.CoalesceKeepsTiled | mm/buddy.c:72-93 | the merging loop turns the freed block into canonical lists and touches no live page's metadata |
| BuddyCanon.MergeStep | mm/buddy.c:77-92 | one merge doubles the held block and keeps the lists canonical |
| BuddyCanon.GrowTiledIff | mm/buddy.c:49-69 | growth keeps the free lists canonical if and only if the recorded heap end is the aligned end of the managed pages |
| BuddyCanon.AllocKeepsInv | mm/buddy.c:27-70 | an allocation returns an aligned block of the order, disjoint from every live one, and keeps the invariant and others' metadata |
| BuddyCanon.FreeKeepsInv | mm/buddy.c:72-93 | a free removes exactly that block from the live ones and keeps the invariant and others' metadata |
| BuddyRuns.RunCanonical | mm/buddy.c:27-93 | after any run, a block is on the free list of its order if and only if it is clear of live pages and is of the largest order or its parent is not clear |
| BuddyRuns.FreeSetDependsOnLiveOnly | mm/buddy.c:72-93 | runs that end with the same live pages have equal free lists up to order, whatever the order of frees |
| BuddyRuns.FreeingAllRestores | mm/buddy.c:8-25 | freeing everything restores one order-12 block per region, and the initial lists when the heap did not grow |
| BuddyRuns.NoGrowthIffClearRun | mm/buddy.c:28-47 | an allocation is served without growth if and only if some aligned run of its size holds no live page |
| BuddyRuns.AllocGrowsIff | mm/buddy.c:27-70 | an allocation leaves the heap its size if and only if some aligned run of its pages is clear of live pages; else it adds exactly one region |
| BuddyRuns.HeapIsTiled | mm/buddy.c:28-47 | every managed page is live or in exactly one free block, never both |
| BuddyRuns.SecondGrowthOverlaps | mm/buddy.c:49-69 | a second growth lists pages that are already live or free, and no live set makes the lists canonical again |
| BuddyRuns.SecondGrowthIsReachable | mm/buddy.c:49-69 | two requests for a whole region are a run after which a third one needs a growth that is not sound |
| BuddyLists.AllocTakesLeast | mm/buddy.c:28-45 | the block taken heads the list of the least order that has any; the halves split off are alone on the lists below, and no other list changes |
| BuddyLists.AllocTakesNew | mm/buddy.c:49-69 | after a growth the block taken is the start of the new region, and the halves split off are alone on their lists |
| BuddyLists.FreeLists | mm/buddy.c:72-93 | a free puts the merged block in front of its list, takes the buddies it merged with off theirs, and changes no other list |
| BuddyLists.FreedIsNext | mm/buddy.c:27-93 | a freed block that merged with nothing is what the next request of its order gets |
| BuddyAllocator.Allocator.constructor | mm/buddy.c:8-25 | the initial lists and metadata |
| BuddyAllocator.Allocator.ListAdd | mm/buddy.c:110-122 | the pointer writes refine the list function |
| BuddyAllocator.Allocator.ListRemove | mm/buddy.c:100-108 | the pointer writes refine the list function |
| BuddyAllocator.Allocator.SplitDown | mm/buddy.c:34-38 | the halving loop refines the recursive split |
| BuddyAllocator.Allocator.Alloc | mm/buddy.c:27-70 | search, split and retry after growth refine the allocation function on linked lists |
| BuddyAllocator.Allocator.Extend | mm/buddy.c:49-69 | the growth path refines the growth function |
| BuddyAllocator.Allocator.MergeUp | mm/buddy.c:72-92 | the merging loop holds one ever larger aligned block clear of live pages, and putting it on its list is the recursive merge |
| BuddyAllocator.Allocator.Free | mm/buddy.c:72-93 | the merging loop on linked lists refines the free function |
| KernelHeapInv.SlotBounds | mm/slab.c:37-66 | every object lies inside its page, clear of the header |
| KernelHeapInv.SlotsApart | mm/slab.c:53-62 | objects of a page do not overlap |
| KernelHeapInv.FreePlusHeld | mm/slab.c:68-90 | free objects plus held objects of a slab are its object count |
| KernelHeapSteps.PopKeeps | mm/slab.c:14-35 | handing out an object keeps the slab invariants, and nobody held it |
| KernelHeapSteps.PushKeeps | mm/slab.c:68-81 | taking an object back keeps the slab invariants |
| KernelHeapSteps.CreateKeeps | mm/slab.c:37-66 | a new slab page keeps the heap consistent |
| KernelHeapSteps.ReleaseKeeps | mm/slab.c:83-90 | giving an empty slab page back keeps the heap invariant |
| KernelHeapSteps.LargeAllocKeeps | mm/kmalloc.c:23-37 | a large request keeps the invariant and gets a block nobody holds |
| KernelHeapRuns.KmallocKeeps | mm/kmalloc.c:16-49 | kmalloc keeps the heap invariant and issues a pointer nobody holds |
| KernelHeapRuns.KfreeKeeps | mm/kmalloc.c:51-63 | every issued pointer can be freed, and kfree keeps the heap invariant |
| KernelHeapRuns.DispatchIsRight | mm/kmalloc.c:51-63 | the slab flag of a pointer's page is set if and only if the slab layer issued it |
| KernelHeapRuns.RegionsAreSound | mm/kmalloc.c:16-63 | over any run the regions of both allocators are pairwise disjoint, at least the requested size, less than twice it above 8 bytes, and 16 bytes long up to 16 |
| KernelHeapRuns.FreeReachesIssuer | mm/kmalloc.c:51-63 | over any run kfree hands each pointer to the allocator that issued it |
| KernelHeapRuns.FreeingAllRestores | mm/slab.c:68-90 | once everything is freed no slab page is held and the free lists are those of an empty heap |
| KernelHeapReuse.ClassIsLeast | mm/kmalloc.c:39-46 | the size class chosen is the least that fits |
| KernelHeapReuse.PageIsFilled | mm/slab.c:47-64 | the objects of a slab page follow its header without gaps, as many as fit |
| KernelHeapReuse.ReusesSlab | mm/slab.c:14-35 | while a slab of the class has an object nobody holds, a small request gets such an object and takes no page |
| KernelHeapReuse.TakesOnePage | mm/slab.c:17-66 | otherwise it takes exactly one page and gets its first object, the rest being free in address order, and the heap grows only when no page is left |
| KernelHeapReuse.LargeTakesBlock | mm/kmalloc.c:16-37 | a large request leaves the slabs alone and grows the heap only when no run of its size is clear; a request for nothing does nothing |
| KernelHeapReuse.PageGoesBackIff | mm/slab.c:68-90 | freeing an object gives its page back if and only if nothing else of the page is held, and no other page changes hands |
| KernelHeapReuse.LargeGoesBack | mm/kmalloc.c:51-63 | freeing a large block leaves the slabs and the size of the heap alone, and freeing the null pointer does nothing |
| KernelHeapReuse.FreedIsNext | mm/slab.c:14-81 | an object freed from a full slab is what the next request of its class gets |
| KernelHeapBookkeeping.BookkeepingIsApart | mm/slab.c:37-66 | over any run no slab header, link of a free object or link of a free block lies in memory that a caller holds |
| KernelHeapBookkeeping.SlabsStayConsistent | mm/slab.c:14-90 | over any run the free objects of a slab are exactly those nobody holds, some object is held, and the slab is on the partial or the full list accordingly |
| KernelHeapWrites.WritesStayOut | mm/kmalloc.c:16-63 | after any run, no byte of the heap that the next kmalloc or kfree writes at any point lies in a region held before and after it |
| KernelHeapWrites.AllocListed | mm/buddy.c:27-70 | every block whose links an allocation writes is free before or after it or is the one returned |
| KernelHeapWrites.CoalesceListed | mm/buddy.c:72-93 | every block whose links a free writes is free before or after it |
| SlabAllocator.SlabHeap.constructor | mm/kmalloc.c:5-14 | the initial heap |
| SlabAllocator.SlabHeap.ListAdd | mm/slab.c:99-106 | the pointer writes put a page in front of a slab list |
| SlabAllocator.SlabHeap.ListRemove | mm/slab.c:92-97 | the pointer writes take a page off a slab list |
| SlabAllocator.SlabHeap.ThreadObjects | mm/slab.c:47-64 | the loop threads every object of the page, in order, and writes no other page |
| SlabAllocator.SlabHeap.SlabCreate | mm/slab.c:37-66 | refines slab creation: a page from the buddy allocator with all its objects free |
| SlabAllocator.SlabHeap.SlabAlloc | mm/slab.c:14-35 | refines slab allocation, with moves between the partial and the full list |
| SlabAllocator.SlabHeap.SlabFree | mm/slab.c:68-90 | refines slab release, with the page going back when it is empty |
| SlabAllocator.SlabHeap.Kmalloc | mm/kmalloc.c:16-49 | class search and doubling loop refine the allocation function |
| SlabAllocator.SlabHeap.ChooseOrder | mm/kmalloc.c:24-30 | the doubling loop finds the least order that fits |
| SlabAllocator.SlabHeap.Kfree | mm/kmalloc.c:51-63 | the dispatch refines the free function |
| Scheduling.HandlerSwitches | kernel/scheduler/scheduler.c:49-81 | with another ready thread in the ring the handler switches to the successor, or to the head when the current thread leaves |
| Scheduling.SelectIsFirst | kernel/scheduler/scheduler.c:66-78 | the selection loop finds the first runnable thread going round from its start, and none exactly when the ring holds none |
| Scheduling.HandlerEffect | kernel/scheduler/scheduler.c:49-81 | ring, dead list, statuses and current thread after an entry, by the position of the outgoing thread |
| Scheduling.BlockedStopsIffOther | kernel/scheduler/scheduler.c:38-66 | a blocked or dead current thread stops running if and only if the ring holds another thread; alone, nothing changes |
| SchedulerRuns.HandlerKeeps | kernel/scheduler/scheduler.c:37-81 | a scheduler entry keeps the invariant of ring, dead list, queues and histories |
| SchedulerRuns.StepKeeps | kernel/sync/mutex.c:12-58 | every step of lock, yield, unlock, device wait, exit, creation and cleanup keeps the invariant |
| SchedulerRuns.MutualExclusion | kernel/sync/mutex.c:12-58 | over every run at most one thread is past mutex_lock and not yet past the matching unlock |
| SchedulerRuns.GrantsInRequestOrder | kernel/sync/mutex.c:21-55 | over every run the grants of a mutex are an initial part of its requests and the rest is its queue; unlocked means no waiter |
| SchedulerRuns.HistoryGrows | kernel/sync/mutex.c:12-58 | the histories of requests and grants are only ever appended to |
| SchedulerRuns.ThreadsArePlaced | kernel/scheduler/scheduler.c:49-81 | over every run each thread is in exactly one place (a just-blocked current one in two), only the current thread runs, and the handler never spins |
| SchedulerRuns.StatusTellsPlace | kernel/scheduler/thread.c:214-236 | the status of a thread determines whether it is in the ring, suspended or dead |
| SchedulerRuns.LonelyThreadBreaksExclusion | kernel/scheduler/scheduler.c:38 | a concrete state in which a lone blocked thread enters a held mutex |
| SchedulerRuns.WakeCanComeBeforeSwitch | drivers/storage/ahci.c:189-194 | one step from boot leads to a state in which a thread waits for the disk while it is the head of a ring with other threads |
| SchedulerSteps.AcquireEffect | kernel/sync/mutex.c:12-36 | on a free mutex the caller holds it and nothing else changes; on a held one it is blocked at the tail of the queue |
| SchedulerSteps.ReleaseEffect | kernel/sync/mutex.c:38-58 | without waiters the mutex is free; else it stays locked and the first waiter is ready at the tail of the ring |
| SchedulerSteps.DeviceEffect | drivers/storage/ahci.c:185-194 | a wait blocks the caller; a wake-up makes the thread ready at the tail of the ring |
| SchedulerSteps.CreateEffect | kernel/scheduler/thread.c:214-226 | a new thread with an unused number is ready at the tail of the ring |
| SchedulerSteps.ExitBuries | kernel/scheduler/thread.c:207-212 | a thread that exits is dead, and the next entry moves it from the ring to the head of the dead list |
| SchedulerSteps.ExitIsFinal | kernel/scheduler/scheduler.c:49-81 | in no run after that entry is the thread current again |
| BoundedWaiting.EntryLowersRank | kernel/scheduler/scheduler.c:49-81 | a scheduler entry runs the waiting thread or lowers its rank |
| BoundedWaiting.OtherStepsKeepRank | kernel/scheduler/thread.c:214-226 | wake-ups and all other steps leave the rank of a waiting thread as it is |
| BoundedWaiting.WaitingIsBounded | kernel/scheduler/scheduler.c:49-81 | in any run with at most n threads in the ring, a ready thread is passed over by at most n + n(n-1)/2 entries |
| ReadyRing.Scheduler.constructor | kernel/scheduler/scheduler.c:15-24 | the main thread alone in the ring and running |
| ReadyRing.Scheduler.Enqueue | kernel/scheduler/thread.c:214-226 | the pointer writes append a thread to the circular ring, or rewire it when it is in the ring already |
| ReadyRing.ReachedAfterRewiring | kernel/scheduler/thread.c:214-226 | from the head of a rewired ring exactly the threads up to the rewired one are reached |
| ReadyRing.RewiredIsWholeIff | kernel/scheduler/thread.c:214-226 | enqueueing a member again leaves a ring of all threads if and only if it was alone |
| ReadyRing.Scheduler.Dequeue | kernel/scheduler/thread.c:228-236 | the pointer writes cut one thread out of the ring and move the head when it was there |
| ReadyRing.Scheduler.LeaveRing | kernel/scheduler/scheduler.c:53-59 | a blocked or dead thread leaves the ring, a dead one joins the dead list |
| ReadyRing.Scheduler.StepAside | kernel/scheduler/scheduler.c:49-65 | the outgoing thread leaves the ring or becomes ready, and the selection starts at the head or at its successor |
| ReadyRing.Scheduler.FindRunnable | kernel/scheduler/scheduler.c:66-78 | the loop finds the first runnable thread of one round, or none |
| ReadyRing.Scheduler.PickNext | kernel/scheduler/scheduler.c:66-81 | the selection loop refines the selection function |
| ReadyRing.Scheduler.SchedulerHandler | kernel/scheduler/scheduler.c:37-81 | thread selection on linked threads refines the handler function |
| ReadyRing.KernelMutex.constructor | kernel/sync/mutex.c:3-10 | an unlocked mutex without waiters |
| ReadyRing.KernelMutex.Lock | kernel/sync/mutex.c:12-36 | refines the lock function: take the mutex or block and queue at the tail |
| ReadyRing.KernelMutex.Unlock | kernel/sync/mutex.c:38-58 | refines the unlock function: hand over to the first waiter, which joins the ring, or unlock |
| Frames.RunAddressIff | mm/pmm.c:97 | the address computed in int is that of the frame if and only if the frame is below 2 GB |
| Frames.FrameMap.AllocPage | mm/pmm.c:64-76 | returns and marks the lowest clear frame, or returns 0 and changes nothing exactly when there is none |
| Frames.FrameMap.AllocPages | mm/pmm.c:78-102 | the skipping scan finds the lowest start of n clear frames if and only if there is one, and marks exactly those |
| Frames.FrameMap.FreePage | mm/pmm.c:104-111 | clears exactly the frame's bit |
| Frames.Skip | mm/pmm.c:82-93 | no run of n clear frames starts between the scan position and a set bit less than n further on |
| FrameRuns.ToldWhatIsMarked | mm/pmm.c:78-102 | a caller is told about the frames that were marked if and only if the run starts below 2 GB |
| FrameRuns.FramesOwnedOnce | mm/pmm.c:64-111 | over every run each frame has at most one owner, is marked while owned, and frame 0 is never handed out |
| PageTables.WalkIsLookup | mm/vmm.c:148-182 | the hardware's walk finds what the tree of tables says, with effective rights equal to the leaf's flags |
| PageTables.OrIsBitwise | mm/vmm.c:115-119 | joining flags to a frame number is the bitwise or |
| PageTables.FrameKeptIff | mm/vmm.c:115-119 | an entry holds the frame it was made for if and only if each flag from bit 12 up is a one-bit of the frame number already |
| PageTableTheory.DescendKeeps | mm/vmm.c:76-96 | one descent, creating a table or adding the user bit, changes no translation and keeps the tree unshared |
| PageTableTheory.MapSmallKeeps | mm/vmm.c:68-129 | a 4 KB map gives the page exactly the entry that joins address and flags, with the rights asked for, changes no other page, and needs frames for missing tables only |
| PageTableTheory.MapHugeKeeps | mm/vmm.c:68-129 | a 2 MB map gives all pages of the region that one leaf, changes no other page, and needs frames for missing tables only |
| PageTableTheory.MapSmallIff | mm/vmm.c:100-115 | mapping a 4 KB page takes effect if and only if no 2 MB leaf covers it |
| PageTableTheory.UnmapKeeps | mm/vmm.c:131-146 | unmapping returns the mapped frame and removes that translation only |
| PageTableTheory.GetEntryEndsWalk | mm/vmm.c:148-182 | the entry found is the one at which the walk ends, with its level, and none is found exactly when there is no slot for the page |
| PageTableTheory.MapThenUnmap | mm/vmm.c:68-146 | unmapping what was just mapped returns the mapped frame, for both sizes and all flags, if and only if the flags leave the frame number alone |
| PageTableTheory.WriteCombiningLost | drivers/video/lfb.c:27 | with the flags the kernel uses, exactly the write-combining flag changes the number of an aligned 2 MB frame, by one |
| PageTableTheory.CopySlot | mm/vmm.c:30-35 | a new top table with one copied slot is a tree again: the part below that slot |
| PageTableRuns.WalkSeesMaps | mm/vmm.c:68-182 | over every run of maps and unmaps, of allocated and device frames, the walk of any page yields exactly what was last mapped there, with exactly those rights |
| PageTableRuns.TablesStayApart | mm/vmm.c:68-182 | over every run the tables form an unshared tree; no 4 KB page is mapped to a table and no 2 MB region contains one |
| Vmm.SamePageIff | mm/vmm.c:69-101 | two addresses have the same table indices if and only if they agree in bits 12 to 47 |
| Vmm.AddressSpaces.MapPage | mm/vmm.c:68-129 | table writes and frame allocation give the page or region its mapping, change no other walk, and take exactly one frame for each missing table |
| Vmm.AddressSpaces.UnmapPage | mm/vmm.c:131-146 | refines the unmap function and returns the address that was mapped, or 0 |
| Vmm.AddressSpaces.FindEntry | mm/vmm.c:148-182 | finds the entry at which the walk of the page ends and reports level 2 for a 2 MB leaf |
| DirectMap.DirectPlaces | mm/vmm.c:37-62 | physical addresses in the same 2 MB, and only those, share an entry of the direct mapping |
| DirectMap.TablesForIs | mm/vmm.c:37-62 | the tables the loop creates are one per started 1 GB and one per started 512 GB |
| DirectMap.InitDirectMapping | mm/vmm.c:29-66 | afterwards the walk of every physical address below the limit plus the offset yields it, slot 511 is as copied and no other page is mapped; needs and takes no more than one frame for the top table and one for each table of the regions |
| KringProtocol.StepKeeps | drivers/video/kring.c:31-101 | every step of writers and flusher with room keeps the slot and history invariant |
| KringProtocol.PrintedInOrder | drivers/video/kring.c:31-96 | in every interleaving with room, what is printed is a prefix of what was reserved, each character once |
| KringProtocol.NoMarkMeansInOrder | drivers/video/kring.c:31-100 | in every run, with or without room, what is printed before any mark is a prefix of what was reserved |
| KringProtocol.NothingLeftBehind | drivers/video/kring.c:72-96 | when a flusher that printed no mark stops with no call in progress, everything reserved has been printed |
| KringProtocol.RoomIsExact | drivers/video/kring.c:34-39 | a reservation leaves every continuation faithful if and only if at most 4096 characters are outstanding after it |
| KringPasses.PassIsDetermined | drivers/video/kring.c:65-100 | every run of one pass from its start to its end does what the recursive pass says |
| KringPasses.PassPrintsPublished | drivers/video/kring.c:72-96 | one pass prints exactly the published characters up to the first unpublished one |
| KringPasses.OverrunIff | drivers/video/kring.c:31-79 | when no pass begins before the calls in progress have finished, the next one prints a mark and exactly the newest 4096 in every order of finishing if and only if none of them still had to store a different character into a reused slot |
| KringPasses.OverrunMisprints | drivers/video/kring.c:31-96 | a run from the empty ring after which a character of an earlier call is printed in the place of a later one |
| KringOverruns.OverrunExactIff | drivers/video/kring.c:31-96 | after an overrunning reservation, in every continuation without another one, a mark and exactly the newest 4096 are printed if and only if every character that lost its slot equals the one that took it |
| KringOverruns.EarlyPassMisprints | drivers/video/kring.c:73-93 | a run from the empty ring in which all earlier calls have finished and a pass prints an old character for one not yet stored |
| KringBuffer.PutKeeps | drivers/video/kring.c:41-46 | storing the next character keeps the newest unflushed window in its slots |
| KringBuffer.LogRing.constructor | drivers/video/kring.c:15-29 | an empty ring |
| KringBuffer.LogRing.Write | drivers/video/kring.c:31-47 | accepts the text cut to 4096 characters, at the end of the stream |
| KringBuffer.LogRing.Take | drivers/video/kring.c:81-92 | prints and clears the oldest slot |
| KringBuffer.LogRing.Skip | drivers/video/kring.c:73-79 | on overrun leaves the newest 4096 characters and prints a mark |
| KringBuffer.LogRing.Flush | drivers/video/kring.c:65-96 | prints every unflushed character, or a mark and the newest 4096, and leaves no ready slot |
| FileSplit.WritePartIsSplice | fs/dfs.c:121-137 | inside the domain each copy of a write is the page's share of the byte-range write |
| FileSplit.WriteDomainIsExact | fs/dfs.c:110-137 | unless the page count wraps around, the split of a write is right for every buffer and every page if and only if the range is in the domain |
| FileSplit.ReadInDomain | fs/dfs.c:60-76 | inside the domain the copies of a read yield exactly the bytes of the range |
| FileSplit.ReadDomainIsExact | fs/dfs.c:49-76 | unless the page count wraps around, the split of a read is right for every buffer and every file if and only if the range is in the domain |
| PageCache.TouchKeeps | fs/dfs.c:117 | marking a page dirty keeps the cache coherent and changes no file |
| PageCache.InsertKeeps | mm/page_cache.c:5-15 | caching a missing page keeps keys unique and the cache coherent, and changes no file |
| PageCache.PokeKeeps | fs/dfs.c:121-137 | copying into a dirty page changes that page of that file only |
| PageCache.FlushKeeps | fs/dfs.c:257-263 | writing a page back keeps the cache coherent and changes no file |
| PageCache.FlushWrites | fs/dfs.c:257-263 | the written page is on disk, pages that were on disk stay so, and no other block changes |
| PageCache.SplicedContent | fs/dfs.c:121-137 | pages spliced one by one are the file's bytes with the range replaced |
| FileCache.Volume.Get | mm/page_cache.c:35-47 | the traversal finds the entry with the key, or none |
| FileCache.Volume.FetchOne | mm/page_cache.c:5-15 | a page read and added is the only page newly found in the cache; no file changes, keys stay unique, and a failed read adds none |
| FileCache.Volume.Locate | fs/dfs.c:115-119 | reports the frame of each page of a range, marks exactly the found ones for a write, and misses exactly when one is not cached |
| FileCache.Volume.Fetch | fs/dfs.c:147-157 | caches exactly the missing pages up to the first failed read, marked for a write, and changes no file; it succeeds if and only if each was cached or can be read |
| FileCache.Volume.Gather | fs/dfs.c:110-157 | looking up and fetching bring in exactly the pages up to the first that cannot be read, and leave dirty exactly those of a write |
| FileCache.Volume.Write | fs/dfs.c:104-163 | in the domain, hit or miss alike, replaces exactly the part of the range inside the file; returns 0 exactly for an empty range or a page that is neither cached nor readable, with all files unchanged; which pages are cached and dirty afterwards; terminates on the uncached pages |
| FileCache.Volume.Read | fs/dfs.c:43-102 | never changes a file or a dirty mark; in the domain returns exactly the file's bytes of the range inside it; returns 0 exactly for an empty range or a page that is neither cached nor readable; which pages are cached afterwards; terminates on the uncached pages |
| FileCache.Volume.WriteBack | fs/dfs.c:257-263 | one write-back: a dirty page is clean afterwards if the disk took it, else it stays dirty and counts as failed; no other entry and no refused block changes |
| FileCache.Volume.Sync | fs/dfs.c:249-267 | changes no file and no other file's blocks or marks; whatever the other writes did, each page whose block the disk takes is on disk, exactly the refused dirty pages stay dirty, and the result is their number |
| FileCache.Volume.SyncAll | arch/x86_64/syscalls/syscalls.c:87-101 | changes no file; each page of any file whose block the disk takes is on disk, exactly the refused dirty pages stay dirty, and the result is their number |
| FileRuns.Serve | fs/dfs.c:218-242 | one request at a file position, cut to the file, does to the files what it does to plain byte arrays, and is done when the disk takes every transfer |
| FileRuns.ServeRead | fs/dfs.c:218-229 | a read is done if and only if it asks for something and every page of its range was cached or can be read |
| FileRuns.ServeWrite | fs/dfs.c:231-242 | the same for a write, which replaces exactly its range |
| FileRuns.Run | fs/dfs.c:43-267 | any run of reads, writes and syncs with disk failures anywhere behaves as plain byte arrays: every read returns what the writes before it left, and requests made while the disk takes every transfer are done |
| Areas.FitsMeans | mm/vmalloc.c:47 | the wrapping test passes if and only if the gap is large enough or the addition wrapped |
| Areas.AddIff | mm/vmalloc.c:37-63 | adding an area of any size to a list with areas of any size, zero included, keeps it sorted, disjoint and inside the address space if and only if a gap or the end has room |
| Areas.AddIsFirstFit | mm/vmalloc.c:37-63 | with room, the new area goes into the first gap that holds it, or to the end when none does, exactly where its predecessor ends; the others stay as they were |
| Areas.RoundedIsEnoughIff | mm/vmalloc.c:11 | a rounded size holds the request if and only if the request is not within 4095 bytes of 2^64, where it is zero |
| Areas.RemoveOk | mm/vmalloc.c:65-74 | a removal keeps the list sorted and disjoint |
| Areas.FindsItIff | mm/vmalloc.c:20-35 | giving up an area by its address finds that area if and only if the one before it does not start there too |
| Areas.SameStart | mm/mmap.c:25-38 | of two areas that start at one address one is empty |
| Areas.EmptyShadows | mm/vmalloc.c:5-19 | after an empty area the next one gets its address, and giving it up gives up the empty one |
| Areas.NoSharedAddress | mm/mmap.c:48-74 | no address is in two areas of a list |
| Areas.AloneOk | mm/vmalloc.c:37-74 | any run of additions with room and removals keeps the list sorted, disjoint and inside the address space, upwards and downwards |
| Areas.VmallocStaysApart | mm/vmalloc.c:37-74 | from boot any run of vmalloc and vfree with room keeps the areas sorted, disjoint and above VMALLOC_START |
| AreaList.Heads.Search | mm/vmalloc.c:44-57 | the loop stops at the first gap that passes the test, or at the end |
| AreaList.Heads.Add | mm/mmap.c:48-74 | the pointer writes insert the area at its place in the doubly linked list, which is the first gap that holds it, with its address |
| AreaList.Heads.Remove | mm/mmap.c:76-85 | the pointer writes take exactly that area out of the doubly linked list |
| ProcessMaps.StepKeeps | kernel/scheduler/scheduler.c:83-99 | a request changes the running process's list only, and a switch changes no process's list |
| ProcessMaps.OwnRequestsOnly | kernel/scheduler/scheduler.c:83-99 | over every run a process's list is what its own requests alone would have made, and the stored list equals the global one while it runs |
| ProcessMaps.AreasStayApart | mm/mmap.c:19-36 | over every run from boot each process's areas stay sorted and disjoint while its own requests have room |
| Calendar.ClosedFormCounts | kernel/time/time.c:12-17 | the closed form equals the recursive Gregorian day count for every valid date from 1970 on |
| Calendar.TomorrowAddsOne | kernel/time/time.c:12-17 | the next calendar day adds exactly one, across months, leap years and centuries |
| Calendar.EpochIsZero | kernel/time/time.c:17 | 1970-01-01 is day 0 |
| Calendar.TimestampOrder | kernel/time/time.c:12-19 | timestamps order moments exactly as date and time do, and are equal only for equal moments |
| Calendar.TimestampStartsAtZero | kernel/time/time.c:12-19 | the timestamp of 1970-01-01 00:00:00 is 0 |
| Calendar.TimestampCountsSeconds | kernel/time/time.c:12-19 | from there on the next second, carried into minutes, hours and days, adds exactly one |

## Left out

- BuddyRuns.RunCanonical: covers runs up to the first growth of the heap, because a second growth breaks the lists (`SecondGrowthOverlaps`).
- KernelHeapRuns.RegionsAreSound: covers requests up to 16 MB, because a larger one asks the buddy allocator for an order it does not have and recurses without end.
- BuddyAllocator.Allocator.Extend: the frames that growth maps are not modelled, only its effect on lists and metadata.
- SchedulerRuns.MutualExclusion: assumes a thread that never blocks and a waker that finds the thread dequeued, because both are needed (see above).
- ReadyRing.Scheduler.constructor: covers the main thread; the log flusher and the thread cleaner that boot also starts join through `Enqueue`.
- PageTableTheory.MapSmallIff: the failing half assumes that the covering leaf's memory is not itself a table, because the code then writes into that table.
- DirectMap.InitDirectMapping: assumes the frames it needs; a frame allocator that runs out returns 0, which the code uses as a table.
- Vmm.AddressSpaces.MapPage: assumes a clear frame for each missing table, for the same reason, and a physical address on a page boundary, because lower bits would act as flags.
- PageTableRuns.WalkSeesMaps: covers entries without reserved bits, because the processor faults on others.
- FileSplit.WriteDomainIsExact: covers sizes for which the page count does not wrap around at 2^64.
- FileSplit.ReadDomainIsExact: covers the same sizes.
- KernelHeapWrites.WritesStayOut: the writes are listed beside the operations on values, not read off the classes.
- Frames.FrameMap.AllocPages: the bitmap is a sequence of booleans; packing eight of them into a byte is not modelled.
- FileCache.Volume.Write: covers ranges whose pages belong to the file, the last one in part perhaps; beyond them the page count is computed before the range is cut, and blocks of other files would enter the cache. `dfs_file_write` cuts its requests to the file.
- FileCache.Volume.Read: covers the same ranges, for the same reason.
- FileRuns.Run: requests are those of the domains above; the file position is part of each request.
- KringProtocol.PrintedInOrder: counters do not wrap at 2^64.
- ProcessMaps.OwnRequestsOnly: lists are values there; the linked nodes of one list are in `AreaList`.
- The growth of frames for cache pages: an allocation that finds no frame is not modelled.
- Address spaces that share their kernel half, and the control-register, stack-pointer and task-state updates of a context switch.
- Device, port and register code, interrupt entry, spinlock internals and assembly.
- The framebuffer, the console and formatted output.
- Destroying threads, creating processes, loading programs and group exit.
- Removing pages from the page cache and the shared-mapping fault path, which do not keep its keys unique.
- Path lookup in the file system; a file is its inode.
- The keyboard ring and its backspace edits.
- The running clock, which reads the time-stamp counter.
- The user-stack lists, which are the `mmap` lists again.
- The descriptor table, seeking and the program break, each settled by one branch.
