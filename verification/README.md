# Pinion in Dafny

A model of the two intricate parts of the Pinion x86 microkernel, with proofs.

**The memory stack.** `Frames` is the physical frame allocator: linked frame structures on
a free list and 256 hash chains, proved to be a map from page number to reference count.
`Paging` is two-level 32-bit paging (section 4.3 of the Intel 64 and IA-32 Architectures
Software Developer's Manual, Volume 3A): memory is physical, and the kernel reaches its own
page tables only through the page walk, by way of the recursive window. `Contexts` clones
and tears down address spaces through the second window. `Heap` is the slab allocator,
whose free lists are words inside the free blocks, on pages it maps as it grows. `Boot` is
`frame_add`, which re-enters the allocator it fills, and the loop over the memory map.
`KernelMemory` has the calls that change contexts and pages, on a machine with a heap. A
kernel panic is a result `ok == false`. Every method says when it can happen: no frame is
left on the free list or in the pool, or the heap has reached its end.

**The thread stack.** `ThreadModel` gives what each kernel call, interrupt and fault does
as functions on a value `Sys`, a step being one interrupt: the handler and the closing
dispatch. It proves what every run keeps. `ThreadCalls` gives the whole new state and the
return value of each call, interrupt and fault, field by field. `ThreadRuns` proves what
runs promise over time. `Rendezvous` is the dead/reaper pair of queues (the fault/debugger pair has the same code),
`IrqMask` the mask register and `Timer` the virtual timer arithmetic. `Kernel` has the
thread structures and the queue pointers, updated in place; each of its methods is proved
to be the function of `ThreadModel` it names, so that the theorems about runs hold of the
pointers. `Arith` and `Base` hold shared definitions.

Inputs the model does not compute are parameters: the order of interrupts, the registers a
call reads, the memory `heap_alloc` hands out for a thread, and the memory map.

## Where the code and its description differ

- `dead_push` and `dead_wait` do not clear the link of a thread that enters an empty queue
  (src/kernel/thread.c:376-379, 425-428), and SETSTATE does not test whether a thread it
  kills is pending already (src/kernel/kcall.c:233-248). `Rendezvous.EnterHoldsIff` gives
  the exact condition under which entering works.
  `Rendezvous.StaleLinkServesTheWrongThread` is a run in which a stale link serves a thread
  that does not wait; in `Rendezvous.SecondDeathLosesAnother` threads 1 and 2 die, 1 is
  killed again, and the death of 2 is lost.
- REAP tests the state of a thread but not whether it is pending or parked on a queue
  (src/kernel/kcall.c:93-103), and RESUME does not test whether it is a parked reaper or
  debugger (src/kernel/kcall.c:178-185). `ThreadModel.KillKeepsIff` and
  `ThreadModel.QueueKeepsIff` give the exact conditions: killing a thread and reaping it
  before GETDEAD leaves the dead queue with a dangling pointer.
- Together, of the calls the model covers, exactly the sound ones keep the invariant
  (`ThreadModel.CallKeepsIff`, `StepKeepsIff` and, over runs, `RunKeepsIff`; the condition is
  the predicate `Sound`). The theorems about runs in `ThreadRuns` are about sound runs.
- Resuming a thread paused while waiting clears the caller's active slot
  (src/kernel/kcall.c:187-194); `ThreadModel.ResumeWaiterLosesCaller` shows that this breaks
  the invariant in every state, so runs do without it.
- `frame_new` clears the `prev` of the structure it removes and not of the new head
  (src/kernel/frame.c:169-171), so `prev` links on the free list can be stale:
  `Frames.IssueLeavesStalePrev` shows that they are after every pop that leaves a head. The
  invariant says nothing of them, and `frame_pull` is called on chain members only.
- A dead thread that is itself the reaper served for its own death does not receive its id:
  SETSTATE overwrites the register (`ThreadRuns.DeathIsDelivered` states both cases).
- The documented timer rates reach 1024 Hz, but a timer faster than the tick rate fires once
  per tick (`Timer.FiresExactlyOnMultiples`).
- `init` touches pages from SYSTEM_ADDR_SIZE where SYSTEM_ADDR_BASE seems meant
  (src/kernel/init.c:99-101). `Paging.AddressSpace.TouchSystem` is the loop as written: it
  makes tables for entries 192 to 383 and leaves the system layer, entries 768 to 959,
  without. `Contexts.CloneSeesIff` gives the exact consequence: a page of the layer that is
  set after a clone was made is seen in the clone if and only if its table was there before,
  or the value is zero. The kernel's tables are there before the first clone, and sharing is
  proved for these.
- The memory-map loop rounds the base of a region down to a page and its length up
  (src/kernel/init.c:129-132), so it can add a page that is not wholly available.
  `Boot.WholePagesIff` gives the exact condition under which it does not.
- `space_free` frees the pages a space maps although mapping takes no reference, so it can
  free a table of another space. `Contexts.TeardownKeepsTakenIff` gives the exact condition
  under which it does not.

## Model

| member | source | states |
|---|---|---|
| Timer.FiresOnClearLowBits | src/kernel/interrupt.c:360-368 | for every 32-bit tick, wrap-around included, timer i fires iff the low m+5-i bits of the tick are zero, or it is faster than the tick rate 2^m |
| Timer.FiresExactlyOnMultiples | src/kernel/interrupt.c:355-370 | on the n-th tick since boot, for every n, timer i fires iff 2^(m+5-i) divides n, or i > m+5 |
| Timer.CountsTick | src/kernel/interrupt.c:358-358 | the wrapping counter stays in step with the unbounded tick count |
| Timer.MultiplesInWindow | src/include/pinion.h:112-115 | the firings in any window of ticks are the multiples of the period in it |
| Timer.DocumentedRate | src/include/pinion.h:112-115 | a timer fires exactly j times in any window of j periods, wherever it starts: 2^(i-5) Hz |
| Frames.StepKeeps | src/kernel/frame.c:107-238 | every request keeps pages in exactly one place and counts at least 1; out of memory implies an empty free list; only an add changes which frames are managed |
| Frames.RunKeeps | src/kernel/frame.c:107-238 | over every run in which no counter wraps the invariant holds and the managed frames are the initial ones and those added: none is lost or created |
| Frames.NewIsFresh | src/kernel/frame.c:141-186 | a new frame is aligned, nonzero, not in use and not kernel image; the pool serves iff the free list is empty, and then below all it served before and above the kernel |
| Frames.PanicsIff | src/kernel/frame.c:146-165 | `frame_new` panics if and only if no frame is free and no page of the pool is left above the kernel |
| Frames.PoolNeverReissues | src/kernel/frame.c:107-165 | no later call returns a pool frame again, whatever is freed meanwhile |
| Frames.FreeKeeps | src/kernel/frame.c:107-133 | freeing any frame, known or not, keeps the invariant and the managed set |
| Frames.RefKeepsIff | src/kernel/frame.c:228-238 | taking a reference keeps the invariant if and only if the 32-bit counter does not wrap |
| Frames.RefCounts | src/kernel/frame.c:228-238 | one reference more on the page if it is handed out, none on any other |
| Frames.FreeAllCounts | src/kernel/frame.c:107-133 | freeing any list of frames lowers each count by the times it is named, floored at zero |
| Frames.PullRemoves | src/kernel/frame.c:86-98 | unlinking takes exactly one structure out of its chain, with exact `next` and `prev` after, and leaves the other chains and the free list alone |
| Frames.PushFreeRealises | src/kernel/frame.c:119-126 | the links after pushing a structure spell the free list with its page in front, chains unchanged |
| Frames.IssueRealises | src/kernel/frame.c:167-181 | the links after popping the free list spell the chains with the page in front of its own, although `prev` on the free list may be stale |
| Frames.IssueLeavesStalePrev | src/kernel/frame.c:167-171 | after a pop from a list with exact `prev` links they are exact if and only if the list is empty |
| Frames.FrameAllocator.FrameFind | src/kernel/frame.c:67-78 | finds the structure of a page iff the page is handed out |
| Frames.FrameAllocator.FrameRefc | src/kernel/frame.c:246-257 | returns the page's count, zero if free or unknown |
| Frames.FrameAllocator.FramePull | src/kernel/frame.c:86-98 | performs exactly the pointer writes of an unlink |
| Frames.FrameAllocator.FrameFree | src/kernel/frame.c:107-133 | the linked structures stand for the map with one reference less, or the page moved to the free list |
| Frames.FrameAllocator.FrameRef | src/kernel/frame.c:228-238 | one reference more on a known page, modulo 2^32, nothing otherwise; the allocator stays sound if and only if the counter does not wrap |
| Frames.FrameAllocator.FrameNew | src/kernel/frame.c:141-186 | returns the frame and state of the abstract allocator; panics if and only if memory is exhausted; nests at most once |
| Frames.FrameAllocator.Enroll | src/kernel/frame.c:208-219 | a new structure joins the front of the free list and ends the emergency |
| Paging.CmapIsDirectory | src/kernel/page.c:32-39 | the directory window, walked by the MMU, names the directory itself |
| Paging.CtblIsTable | src/kernel/page.c:38-53 | the table window names the word of the right table |
| Paging.PageFmtFields | src/kernel/space.h:60-61 | a formatted entry has the frame of its base and no large-page bit |
| Paging.PageFmtBits | src/kernel/space.h:35-60 | bit by bit: of the flags it has bits 0 to 6 and 9 to 11 and no others, and from bit 12 on it has the bits of the base |
| Paging.NewEntryFlags | src/kernel/mem.c:31-31 | a page mapped by `mem_alloc` has the flags asked for, as far as the mask allows, and is present |
| Paging.TableEntryBits | src/kernel/page.c:70-70 | a new table is present, writable and open to users, with no other flag |
| Paging.TouchKeeps | src/kernel/page.c:63-75 | a fresh cleared table changes what no page of any space reads and aliases no table |
| Paging.PutKeeps | src/kernel/page.c:53-53 | a table write changes one page, in the spaces that share the table |
| Paging.WalkIsEntry | src/kernel/page.c:32-55 | below the windows an address reaches the frame its entry names, or faults |
| Paging.DataWrite | src/kernel/page.c:32-55 | writing a frame that is no table changes no mapping |
| Paging.TouchPreserves | src/kernel/page.c:63-75 | the frame `frame_new` gives for a table is nobody's, so tables stay unaliased |
| Paging.MapOneMore | src/kernel/mem.c:29-33 | one round of the mapping loop extends the mapped range by one page with its own frame |
| Paging.KernelStays | src/kernel/page.c:63-75 | kernel tables that all spaces share stay shared, since no present directory entry changes |
| Paging.KernelEverywhere | src/kernel/pctx.c:117-120 | a kernel address leads to the same word in every space |
| Paging.AddressSpace.PageGet | src/kernel/page.c:32-39 | reads the entry of the page in the current space, zero without a table |
| Paging.AddressSpace.PageTouch | src/kernel/page.c:63-75 | the table of any page exists afterwards; a new one is blank and in the next new frame; no other directory entry and no mapping changes; panics only without a table and with memory exhausted |
| Paging.AddressSpace.TouchLayer | src/kernel/init.c:96-101 | after touching a range its tables are there; no directory entry outside it, no mapping and no managed frame changes |
| Paging.AddressSpace.TouchKernel | src/kernel/init.c:96-98 | all tables of the kernel's part are there, to be shared by every clone; no mapping changes |
| Paging.AddressSpace.TouchSystem | src/kernel/init.c:99-101 | the loop as written makes tables for entries 192 to 383 and changes none from user space up, so the system layer stays without |
| Paging.AddressSpace.MapBoot | src/kernel/init.c:103-106 | each boot frame is mapped at the base of kernel space, no other page changes, and it never panics |
| Paging.AddressSpace.PageSet | src/kernel/page.c:47-55 | a flat map update: the page reads back the value, every other page of every space reads as before, and no memory but tables is written; panics only without a table and with memory exhausted |
| Paging.AddressSpace.MemAlloc | src/kernel/mem.c:26-34 | every page meeting the range is present, those present before are unchanged, the others have fresh frames of their own and the flags asked for, nothing outside changes; panics only if a page was absent and memory runs out |
| Contexts.ExmapIsDirectory | src/kernel/pctx.c:133-150 | the external window names the shown directory |
| Contexts.ExtblIsTable | src/kernel/pctx.c:149-158 | the external table window names the shown space's tables |
| Contexts.UserSpacesIndependent | src/kernel/pctx.c:99-125 | after any series of user `page_set` calls in any spaces, each space holds what was last written in it, whatever was written in the others |
| Contexts.CloneJoins | src/kernel/pctx.c:117-120 | a clone shares no user table, maps nothing in user space and agrees above it |
| Contexts.CloneGrows | src/kernel/pctx.c:105-125 | a clone leaves all memory in use that holds no table, and shares the kernel's tables |
| Contexts.CloneSeesIff | src/kernel/pctx.c:117-120 | a page above user space set after the clone is seen in it if and only if its table was there to share, or the value is zero |
| Contexts.ContextTable.SpaceAlloc | src/kernel/pctx.c:84-96 | a blank self-mapping directory in a fresh frame; the spaces change only at the window page |
| Contexts.ContextTable.SpaceExmap | src/kernel/pctx.c:133-136 | shows a space and changes no mapping below the windows |
| Contexts.ContextTable.SpaceClone | src/kernel/pctx.c:105-125 | the new space agrees with the current one on all pages from user space to the window and maps nothing below |
| Contexts.ContextTable.FreeTable | src/kernel/pctx.c:154-159 | frees the frames of a table's present entries, in order, and writes nothing else |
| Contexts.ContextTable.SpaceFree | src/kernel/pctx.c:144-166 | frees exactly the frames the space holds; all other spaces and all memory that is no table are left as they were; the machine stays consistent if and only if the space is not current and the tables of the others have references left |
| Contexts.ContextTable.PctxNew | src/kernel/pctx.c:40-54 | the first free entry gets a clone that is no other context; the other contexts, their mappings and all memory in use stay; -1 iff the table is full |
| Contexts.ContextTable.PctxFree | src/kernel/pctx.c:56-65 | a valid nonzero context is torn down and its entry cleared; otherwise nothing changes; entries stay distinct live spaces; consistency under the same exact condition |
| Contexts.DirFreesNamed | src/kernel/pctx.c:152-163 | the nested loops free a frame once for each present user entry and table that is this frame |
| Contexts.TeardownCounts | src/kernel/pctx.c:144-166 | a teardown lowers each count by the user entries, tables and directory naming the frame, floored at zero, for any table contents |
| Contexts.OthersIntact | src/kernel/pctx.c:152-163 | the other spaces read as before and share no table with the user part torn down |
| Contexts.TeardownDrops | src/kernel/pctx.c:144-166 | a teardown writes no memory but the directories and the tables torn down, and moves no table of another space |
| Contexts.TeardownSparesIff | src/kernel/pctx.c:144-166 | a frame in use stays in use through a teardown if and only if it has more references than the space's user part names it |
| Contexts.TeardownKeepsTakenIff | src/kernel/pctx.c:144-166 | all tables of the other spaces stay in use if and only if each has such references left |
| Contexts.OwnedSurvives | src/kernel/pctx.c:144-166 | a space whose user pages are no tables of others is always safe to tear down |
| Heap.HeapAllocator.FindBucket | src/kernel/heap.c:57-63 | the smallest class that fits, or none above the largest |
| Heap.BucketUnique | src/kernel/heap.c:57-63 | a size has one class |
| Heap.StoreIsFlat | src/kernel/heap.c:119-119 | a store to a heap word changes that word only, because heap pages have frames of their own that are no tables |
| Heap.GrowthKeeps | src/kernel/heap.c:176-179 | growing leaves every heap word and maps the new pages to distinct new frames |
| Heap.HeapAllocator.HeapAlloc | src/kernel/heap.c:51-87 | a zeroed, aligned block of the smallest class, not live before; blocks never move; no word of any other block is written and no page outside the heap remapped; the heap grows by one slab if and only if the bucket is empty; NULL above the largest class; panics only if the bucket is empty and memory runs out or the slab does not fit |
| Heap.HeapAllocator.HeapFree | src/kernel/heap.c:97-121 | the block joins the front of its bucket's list, the count drops by one, only its first word is written |
| Heap.HeapAllocator.WriteBlock | src/kernel/heap.c:44-46 | the owner of a live block may write any word of it: the heap stays sound and no other block changes |
| Heap.HeapAllocator.HeapEverywhere | src/kernel/heap.c:44-46 | heap memory is accessible from all address spaces: an address leads to the same word in each |
| Heap.HeapAllocator.HeapNewSlab | src/kernel/heap.c:130-149 | the new slab is tiled exactly by free blocks of the bucket, counts unchanged; panics only if memory runs out or it does not fit |
| Heap.HeapAllocator.HeapValloc | src/kernel/heap.c:160-181 | the break grows over pages mapped to distinct fresh frames, writable and closed to users; heap words are kept |
| Heap.SizeIsClass | src/kernel/heap.c:145-148 | the class of a block's own size is its bucket, so carving through `heap_free` lands on the right list |
| Heap.SizesArePowers | src/kernel/heap.c:58-135 | the classes are the powers of two from 4 up, a slab is a page up to class 10 and four blocks above |
| Heap.BlocksTile | src/kernel/heap.c:51-182 | every byte below the break is in exactly one block |
| Heap.CountPush | src/kernel/heap.c:115-115 | freeing lowers the number of live blocks of one bucket by one |
| Heap.CountLive | src/kernel/heap.c:79-79 | allocating raises it by one |
| Heap.CountersBounded | src/kernel/heap.c:79-115 | the heap range bounds every counter, which cannot overflow 32 bits |
| Heap.DocumentedAlignment | src/kernel/heap.c:44-48 | 16-byte alignment from 9 bytes, page alignment for 2049 to 4096 bytes; from 5 bytes up less than twice the size asked |
| Boot.FrameAdd | src/kernel/frame.c:202-220 | adds exactly one frame, free, although its heap allocation may take frames from the same allocator in mid-call; panics only if memory or the heap's range runs out |
| Boot.AlignedUsable | src/kernel/init.c:113-132 | an aligned entry contributes exactly the available pages in it above the boot memory |
| Boot.WholePagesIff | src/kernel/init.c:129-132 | every page an entry contributes is wholly available if and only if what is left of it is empty or aligned |
| Boot.AddRegion | src/kernel/init.c:129-132 | adds exactly the started pages of a region, aligned or not |
| Boot.AddMemory | src/kernel/init.c:112-134 | afterwards the allocator manages exactly the pages the original entries contribute, and no page outside the heap is remapped |
| Boot.PrepareSpace | src/kernel/init.c:95-106 | the boot memory is mapped, the kernel's tables are there, the heap's range is empty, the system layer's directory entries are those of the boot image |
| Boot.Init | src/kernel/init.c:95-134 | from the image `boot.s` leaves and any memory map of regions that do not overlap, the heap is sound, the boot memory mapped and the managed frames exactly those of the map |
| KernelMemory.HeapStays | src/kernel/heap.c:51-182 | the heap is sound on any memory that maps its range as before and has not written its frames |
| KernelMemory.NewContext | src/kernel/kcall.c:373-378 | a new context leaves the heap sound, its words as they were and shared by all spaces |
| KernelMemory.FreeContext | src/kernel/kcall.c:380-385 | contexts and heap stay sound if and only if the context is not current and neither tables of others nor heap pages lose their last reference with it; then the heap keeps its words |
| KernelMemory.MapPage | src/kernel/page.c:47-55 | setting any page outside the heap leaves the heap sound and its words as they were |
| KernelMemory.SetFrame | src/kernel/kcall.c:388-394 | the page reads back the frame with each flag of the mask it had; no other page of any space and no heap word changes |
| KernelMemory.SetFlags | src/kernel/kcall.c:396-402 | the page reads back each flag of the mask asked for, with the frame it had; no other page of any space and no heap word changes |
| IrqMask.MaskBits | src/kernel/interrupt.c:300-316 | masking sets and unmasking clears one bit of the register and no other |
| Rendezvous.EnterHoldsIff | src/kernel/thread.c:371-380 | entering a queue works if and only if the thread is not in it yet, and the queue is not empty or the thread's link is NULL |
| Rendezvous.LeaveHolds | src/kernel/thread.c:357-361 | the thread that leaves is the one that entered first, and the rest stays linked |
| Rendezvous.StaleLinkServesTheWrongThread | src/kernel/thread.c:420-428 | a run in which a reaper with a stale link makes a thread next in line that is not waiting |
| Rendezvous.SecondDeathLosesAnother | src/kernel/thread.c:371-375 | a pending thread that is killed again: the next reaper takes it, the queue looks empty and the other death is lost |
| Rendezvous.AnnounceOk | src/kernel/thread.c:351-382 | a death meets the longest waiting reaper or queues up last; the pair stays an exactly-once FIFO rendezvous if and only if a reaper waits, or the thread is not pending and its link is NULL where the queue is empty |
| Rendezvous.AwaitOk | src/kernel/thread.c:388-431 | a reaper takes the oldest death or queues up last; the pair stays an exactly-once FIFO rendezvous if and only if a death is pending, or the reaper is not parked and its link is NULL where the queue is empty |
| Rendezvous.AnnounceHalfOk | src/kernel/thread.c:441-472 | a fault keeps the debuggers' queue sound, whatever the links of faulting threads |
| ThreadModel.EventSendKeeps | src/kernel/thread.c:311-341 | sending an event keeps the invariant and the active thread |
| ThreadModel.DeadPushKeepsIff | src/kernel/thread.c:351-382 | a death keeps the invariant if and only if the dead queue can take it |
| ThreadModel.GetDeadKeeps | src/kernel/kcall.c:297-311 | asking for a death keeps it if and only if one is pending or the reapers' queue can take the caller |
| ThreadModel.KillKeepsIff | src/kernel/thread.c:77-89 | freeing a paused thread keeps it if and only if the thread is on none of the four queues |
| ThreadModel.QueueKeepsIff | src/kernel/kcall.c:178-185 | queueing a paused thread keeps it if and only if the thread is no parked reaper or debugger |
| ThreadModel.CallKeepsIff | src/kernel/kcall.c:51-349 | a thread or event call that the model covers keeps the invariant if and only if it is sound |
| ThreadModel.TickKeeps | src/kernel/interrupt.c:355-379 | a timer interrupt, with all events it sends and the preemption, keeps the invariant |
| ThreadModel.HandleKeeps | src/kernel/interrupt.c:69-86 | the handler of any interrupt other than an unsound call keeps the invariant |
| ThreadModel.DispatchKeeps | src/kernel/interrupt.c:88-101 | the dispatch keeps the invariant and leaves no thread active only if none is queued |
| ThreadModel.StepKeepsIff | src/kernel/interrupt.c:69-104 | of all interrupts that the model covers exactly the sound ones keep the invariant through handler and dispatch |
| ThreadModel.RunKeepsIff | src/kernel/interrupt.c:69-104 | over every run of covered interrupts the invariant holds in all states if and only if every call is sound when it is made |
| ThreadModel.RunKeeps | src/kernel/thread.c:91-97 | over every sound run: the active thread is the unique running one; a thread is queued iff in the scheduler queue, once; waiting iff in the event queue its event names, once, and in no other |
| ThreadModel.BootKeeps | src/kernel/init.c:148-195 | the state `init` leaves satisfies the invariant |
| ThreadModel.ResumeWaiterLosesCaller | src/kernel/kcall.c:187-194 | resuming a thread paused while waiting breaks the invariant in every state: the caller is left running but not active |
| ThreadRuns.StepMoves | src/kernel/interrupt.c:88-101 | a dispatch moves every queued thread up by one, and runs the first; any other step leaves it in place |
| ThreadRuns.Advances | src/kernel/thread.c:175-220 | over every run a queued thread moves up by exactly the number of dispatches, however many threads are pushed behind |
| ThreadRuns.RunsInTurn | src/kernel/interrupt.c:88-101 | fairness: the thread at position k runs after exactly k other dispatches, unless it or one ahead is taken out |
| ThreadRuns.TickDispatches | src/kernel/interrupt.c:374-378 | every timer interrupt preempts the running thread and dispatches |
| ThreadRuns.NobodyStarves | src/kernel/interrupt.c:88-101 | over every sound run a thread at position k has run after k + 1 timer interrupts, whatever the threads do, unless it or one ahead is taken out |
| ThreadRuns.LatchedIffPending | src/kernel/thread.c:335-339 | no IRQ is lost: over every run a line is latched iff raised since its last reset, and iff it is masked |
| ThreadRuns.LatchedWaitDoesNotBlock | src/kernel/thread.c:251-256 | a wait on a latched line leaves the caller queued, in no event queue |
| ThreadRuns.HandleQueue | src/kernel/thread.c:311-333 | a send takes exactly the front waiter of its queue and makes it runnable; other interrupts keep all waiters in order |
| ThreadRuns.WaiterAdvances | src/kernel/thread.c:257-268 | over every run a waiter moves up by exactly the number of sends |
| ThreadRuns.WokenInTurn | src/kernel/thread.c:317-332 | the waiter with k before it is made runnable by exactly the send after k others |
| ThreadRuns.StepHistory | src/kernel/kcall.c:224-311 | each step adds exactly the thread that dies and the thread that asks to the history of the rendezvous |
| ThreadRuns.DeathIsDelivered | src/kernel/thread.c:353-369 | the longest waiting reaper gets the id of the dead thread and is queued, unless it is the dead thread |
| ThreadRuns.DeathIsCollected | src/kernel/kcall.c:299-302 | a call that finds the dead takes the first to die and runs on |
| ThreadRuns.DeathsReachReapersInOrder | src/kernel/thread.c:351-431 | over every sound run from boot: the deaths are those delivered, in order, then those pending; likewise the reapers; never both pending |
| ThreadRuns.ClockCounts | src/kernel/interrupt.c:355-358 | over every run the counter is the number of timer interrupts, modulo 2^32 |
| ThreadRuns.TimerSendsOnTime | src/kernel/interrupt.c:360-370 | over every run the n-th timer interrupt sends the event of timer v iff 2^(m+5-v) divides n, or v > m+5 |
| ThreadCalls.GetTidResult | src/kernel/kcall.c:109-114 | returns the caller's id and changes nothing else |
| ThreadCalls.YieldResult | src/kernel/kcall.c:116-123 | the caller is queued last and nothing else changes |
| ThreadCalls.SpawnResult | src/kernel/kcall.c:53-87 | the new thread gets the least free id, is queued last with the register given, and the caller gets the id |
| ThreadCalls.SpawnFails | src/kernel/kcall.c:55-60 | with all ids taken the caller gets -1 and nothing else changes |
| ThreadCalls.ReapResult | src/kernel/kcall.c:89-107 | a paused thread leaves the table and the caller gets 0; otherwise 1 and no change |
| ThreadCalls.PauseResult | src/kernel/kcall.c:125-169 | a running thread stops, a queued one leaves its one place in the queue, and the caller gets 0; a paused one gives 1 |
| ThreadCalls.ResumeResult | src/kernel/kcall.c:171-203 | a paused thread is queued last and the caller gets 0; otherwise 1 |
| ThreadCalls.NobodyResult | src/kernel/kcall.c:125-232 | a call about no thread gives 2, -1 meaning the caller for PAUSE and SETSTATE only |
| ThreadCalls.ResetResult | src/kernel/kcall.c:337-349 | the latch and the mask bit of the line are cleared, no other, and the caller gets 0 |
| ThreadCalls.PollResult | src/kernel/thread.c:241-246 | a negative event returns 1 if the latch of line -event - 1 is set, else 0 |
| ThreadCalls.NoEventResult | src/kernel/thread.c:248-250 | an event from 256 up returns 1 |
| ThreadCalls.WaitResult | src/kernel/thread.c:252-273 | the caller gets 0 and is queued last, in the scheduler queue if the event is latched and else in the queue of the event |
| ThreadCalls.SendResult | src/kernel/thread.c:311-341 | the longest waiter gets the number of the event, waits for nothing and is queued last; the latch and mask bit are set; no other thread changes |
| ThreadCalls.IrqResult | src/kernel/interrupt.c:71-80 | a line from 1 up sends the event of its number |
| ThreadCalls.TickResult | src/kernel/interrupt.c:355-379 | the first waiter of each firing timer gets its event, the running thread is queued last, no other thread changes |
| ThreadCalls.DeadPushResult | src/kernel/thread.c:351-382 | the longest waiting reaper gets the id and is queued last; with none the death is queued last |
| ThreadCalls.FaultPushResult | src/kernel/thread.c:441-472 | the same of faults and debuggers |
| ThreadCalls.FaultResult | src/kernel/fault.c:61-84 | a page fault pauses the running thread; the longest waiting debugger gets its id and is queued last, or the thread is queued for one |
| ThreadCalls.SetDeadResult | src/kernel/kcall.c:224-295 | the thread stops and is announced, keeps the register given, and the caller gets 0; a queued or waiting one gives 1 |
| ThreadCalls.GetDeadResult | src/kernel/kcall.c:297-311 | the caller gets the id of the first to die, or is parked as the last reaper |
| ThreadCalls.GetFaultResult | src/kernel/kcall.c:313-327 | with no fault queued the caller is parked as the last debugger |
| ThreadCalls.DispatchResult | src/kernel/interrupt.c:88-101 | with no thread active the first of the queue runs, and nothing else changes |
| ThreadCalls.WokenWithEvent | src/kernel/thread.c:317-332 | over every sound run the waiter with k before it is woken by exactly the send after k others and finds the event's number in its register |
| ThreadCalls.BootResult | src/kernel/init.c:148-195 | at boot the first thread runs with id 0; every queue is empty and no line latched or masked |
| Kernel.JoinHolds | src/kernel/thread.c:175-187 | a queue that always clears the entering link stays sound without a guard |
| Kernel.CutHolds | src/kernel/thread.c:202-209 | linking the thread before to the one behind takes exactly one thread out of the queue |
| Kernel.Kernel.SchedulePush | src/kernel/thread.c:175-187 | the list pointers stand for the queue with the thread at the end |
| Kernel.Kernel.ScheduleRemv | src/kernel/thread.c:189-216 | they stand for the queue without the thread, wherever it was; reports whether it was there |
| Kernel.Kernel.ScheduleNext | src/kernel/thread.c:218-220 | the head of the queue, NULL iff it is empty |
| Kernel.Kernel.ThreadSave | src/kernel/thread.c:141-150 | no thread is active |
| Kernel.Kernel.ThreadGet | src/kernel/thread.c:65-68 | the thread of that id, NULL if there is none or the id is out of range |
| Kernel.Kernel.FindSlot | src/kernel/thread.c:44-48 | the first free slot of the table |
| Kernel.Kernel.ThreadKill | src/kernel/thread.c:77-89 | the thread leaves the table; all queues stay as they are |
| Kernel.Kernel.EventWait | src/kernel/thread.c:234-274 | polls, re-queues or blocks the running thread exactly as the state machine does |
| Kernel.Kernel.EventSend | src/kernel/thread.c:311-341 | wakes the front waiter and latches exactly as the state machine does |
| Kernel.Kernel.DeadPush | src/kernel/thread.c:351-382 | the queue pointers follow the rendezvous, stale links included |
| Kernel.Kernel.DeadPull | src/kernel/thread.c:388-403 | takes the oldest dead thread, NULL if there is none |
| Kernel.Kernel.DeadWait | src/kernel/thread.c:405-431 | the queue pointers follow the rendezvous, stale links included |
| Kernel.Kernel.FaultPush | src/kernel/thread.c:441-472 | a fault wakes the longest waiting debugger or queues up |
| Kernel.Kernel.FaultWait | src/kernel/thread.c:495-521 | with no fault queued the thread becomes the last debugger |
| Kernel.Kernel.Spawn | src/kernel/kcall.c:53-87 | a cleared structure joins the table in the first free slot and the queue at the end; -1 when the table is full |
| Kernel.Kernel.Reap | src/kernel/kcall.c:89-107 | a paused thread leaves the table, pending or not; any other state is an error |
| Kernel.Kernel.Yield | src/kernel/kcall.c:116-123 | the caller goes to the end of the queue |
| Kernel.Kernel.Pause | src/kernel/kcall.c:125-169 | a running thread stops, a queued one leaves the queue; otherwise an error |
| Kernel.Kernel.Resume | src/kernel/kcall.c:171-203 | a paused thread is queued, parked or not; otherwise an error |
| Kernel.Kernel.SetDead | src/kernel/kcall.c:224-295 | the target stops and meets a reaper or queues up; queued and waiting threads are refused |
| Kernel.Kernel.GetDead | src/kernel/kcall.c:297-311 | the caller takes the oldest death or becomes a reaper |
| Kernel.Kernel.GetFault | src/kernel/kcall.c:313-327 | with no fault queued the caller becomes a debugger |
| Kernel.Kernel.Wait | src/kernel/kcall.c:329-335 | the wait and its return value |
| Kernel.Kernel.Reset | src/kernel/kcall.c:337-349 | the latch and the mask bit are cleared; nothing but the return value from 240 up |
| Kernel.Kernel.Kcall | src/kernel/kcall.c:51-349 | every call the model covers, sound or not, does to the structures what it does to the state machine |
| Kernel.Kernel.TimerHandler | src/kernel/interrupt.c:355-379 | the loop sends exactly the events of the timers that fire, in order, then preempts |
| Kernel.Kernel.FaultPage | src/kernel/fault.c:61-84 | the faulting thread stops and is announced to the debuggers |
| Kernel.Kernel.Schedule | src/kernel/interrupt.c:88-101 | the head of the queue becomes the active, running thread if none is |
| Kernel.Kernel.ActiveIsUnique | src/kernel/thread.c:91-97 | the active structure is the unique one whose state field is running |
| Kernel.Kernel.IntHandler | src/kernel/interrupt.c:69-104 | every covered interrupt is one step of the state machine; it keeps the invariant if and only if it is sound, and then the thread returned is the only one running; none is returned only if the queue is empty |
| Kernel.Kernel.constructor | src/kernel/init.c:148-195 | the structures at boot stand for the initial state |

## Left out

Not modelled in thread calls, because the source follows the wrong link or leaves its tables:

- Kernel.Kernel.Pause: does not model a waiting target; `event_remv` follows the scheduler link instead of the event link (src/kernel/thread.c:292-300).
- Kernel.Kernel.GetFault: does not model a queued fault; `fault_pull` follows the scheduler link instead of the fault link (src/kernel/thread.c:486).
- Kernel.Kernel.FaultWait: does not model a queued fault, for the same reason.
- Kernel.Kernel.Resume: does not model a thread paused while waiting; see `ResumeWaiterLosesCaller`.
- Kernel.Kernel.Reap: does not model an id that names no thread, where the source follows a NULL pointer (src/kernel/kcall.c:91-93).
- Kernel.Kernel.EventWait: does not model events below -256, which index outside an array, nor a thread other than the running one, which only the RESUME above passes.
- Kernel.Kernel.Reset: does not model arguments from 32 to 239, which shift by more than the register holds.
- Kernel.Kernel.Wait: does not model events below -256.
- Kernel.Kernel.Kcall: does not model the cases above.
- ThreadModel.CallKeepsIff: does not model the cases above.
- ThreadModel.StepKeepsIff: does not model the cases above.
- ThreadModel.RunKeepsIff: does not model the cases above, nor interrupts taken while the processor idles.
- Kernel.Kernel.IntHandler: does not model the cases above, nor interrupts taken while the processor idles; `cpu_idle` does not return, so a run ends when no thread can run.
- ThreadModel.RunKeeps: does not promise anything after an unsound call; `RunKeepsIff` shows that no more can be promised of the invariant.
- ThreadModel.HandleKeeps: likewise, by `CallKeepsIff`.
- ThreadRuns.DeathsReachReapersInOrder: likewise; `Rendezvous.SecondDeathLosesAnother` is a run that loses a death.
- `fault_generic`: its test for kernel mode is the reverse of that of `fault_page`; only `fault_page` is a step.

Not modelled in memory:

- Frames.RunKeeps: does not promise anything after a reference counter wraps; `RefKeepsIff` shows that no more can be promised of the invariant.
- Heap.HeapAllocator.HeapFree: does not model sizes above the largest class or of another class than the block's, for which the source writes outside its tables.
- Paging.AddressSpace.PageSet: does not model pages from TMP_MAP up, which are the windows themselves.
- Paging.AddressSpace.MemAlloc: does not model ranges that pass TMP_MAP, for the same reason.
- KernelMemory.MapPage: does not model the windows and the heap's own pages, which a call may remap too.
- KernelMemory.SetFrame: does not model these pages either.
- KernelMemory.SetFlags: does not model these pages either.
- Boot.AddMemory: does not model the sum of memory sizes, which is only printed, nor added regions that overlap or pass 4 GB, for which a frame would be enrolled twice or an address wrap.
- Boot.AddRegion: does not model overlaps with managed frames, nor regions that pass 4 GB.
- Boot.Init: does not model the same maps, nor the loading of the system image and the first thread, for which see Kernel.Kernel.constructor.
- Callers of FREEFRAME and SETFRAME are trusted to own the frames they name: freeing a table's frame by a call is not modelled.
- Frame structures are objects of their own rather than words of the heap block `frame_add` allocates; thread structures likewise. Heap conservation across thread lifetimes is left out: `thread_alloc` clears the pointer to the FPU area it has just allocated.

Not modelled at all:

- Paging-context switching in SETSTATE and `thread_load`, GETSTATE, registers other than `eax`, the switch between user and system mode, and FPU state.
- The translation cache, port writes, the idle loop, GDT, IDT and TSS set-up, and assembly.
- ELF loading, string and memory routines, number formatting, the console and the code under src/system: they would only add easy members.
