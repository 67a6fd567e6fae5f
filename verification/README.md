# Verified models of the kernel's memory managers and process core

This project models the memory managers and the process core of a small 32-bit x86 kernel, and proves
what they keep over every run. `dafny verify dfyconfig.toml` checks all of it. The files follow the
kernel's components:

| files | component |
|---|---|
| `Bits`, `Lists`, `IntrusiveLists` | powers of two and aligned bases; queues as sequences; the circular pointer lists of `list.h` and the proof that they are those sequences |
| `BuddyState`, `BuddySteps`, `BuddyAllocator`, `BuddyRuns` | the buddy allocator: page descriptors, free lists, split and merge, runs |
| `Paging`, `PageDirectory`, `Memory` | two-level page tables (Intel SDM volume 3A, section 4.3) and the frames behind them |
| `Fork` | the address-space copy of `fork` |
| `VmaLayout`, `AddressSpace`, `Vma`, `Sharing` | the list of virtual memory areas, its coherence with page tables and frames, `mmap`, `munmap` and the lazy page fault, for one task and for tasks that share the machine |
| `Scheduling`, `Processes`, `ProcessSteps`, `ProcessRuns`, `Answers`, `MissedWakeup`, `SleepRuns`, `Kernel` | ready queue, wait queues, timer, fork, exit, waitpid, sleep and signals as steps of one machine; runs; what waitpid answers and who has the processor; the one wake-up that can be missed; how long a sleep lasts; the code that updates the global state in place |
| `Signals` | delivery of signals to user handlers and `sigreturn` |
| `SlabState`, `SlabAllocator`, `SlabRuns` | slab caches with their freelists inside the free objects |
| `BootRegions`, `BootZones`, `BootAllocator`, `BootSetup` | the boot region allocator |
| `IdManager` | the pid bitmap |

The pattern is the same everywhere. An immutable description of the state and of each operation carries the
theorems; a class, or a method on arrays, updates the state in place as the C code does and is proved equal to
that description. System calls and interrupts enter the kernel through interrupt gates, so each of them
is one step. A `kpanic` that the invariants exclude is an `assert false` at that place; a `kpanic` that
a caller can provoke is a precondition or a result.

Main results:

- Buddy allocator: the free lists are a function of the set of free pages (`Canonical`,
  `SameFreePagesSameLists`), so histories do not matter (`HistoriesAgree`); allocation fails exactly
  when no aligned run of free pages exists (`AllocPages`); pages are conserved over every run
  (`RunConserves`).
- Virtual memory: page tables refine a finite map (`MapPage`, `UnmapPage`, `GetMapping`); area list,
  page tables and frames stay coherent through eager allocation that fails half-way, lazy faults and
  destruction (`Alloc`, `PageFault`, `Munmap`), for every task that shares the machine (`Sharing`); allocation
  and fault fail exactly when frames for the pages or for the missing tables run out; the layout is determined
  by the areas in use, allocation followed by destruction restores it, destructions commute; `fork` succeeds
  exactly when there is enough memory, and then copies the meaning of the address space.
- Process core: queue discipline, process tree, pids and the absence of lost wake-ups hold in every
  state of every run (`RunSafe`); a ready task runs within a bound (`BoundedWaiting`), and a task that stays
  runnable keeps the processor for its quantum and then goes last (`QuantumLasts`, `QuantumEnds`); the answer
  of waitpid is stated in full (`WaitAnswers`), and the status of an exit arrives there (`ExitStatusArrives`). The one waiter
  that can miss a wake-up is kitoxD: over every run it happens at a step if and only if the step is an exit
  that orphans a zombie to it, and a run from boot shows it. A sleep lasts as long as asked for if and only
  if its end fits in the 32-bit tick counter (`SleepLasts`, `DueIff`).
- Signals: nested handlers return last-in first-out to the contexts they interrupted. Whole sigframes
  do overlap by the return address when a delivery hits the trampoline; the exact condition is proved.
- Slab caches: objects held at the same time never share a byte, and keep their contents until their
  holder changes them, over every run.
- Boot memory: free and reserved addresses stay disjoint with a constant union, and blocks handed out
  never overlap. The merge works if and only if the first entry has the least start, as its callers see to. The free handler adds exactly the range minus the reserved regions if and only if
  every gap that touches something available is available altogether; a memory map shows the loss otherwise.

The README of the kernel speaks of copy-on-write; `fork` copies every page eagerly, and the model follows
the code.

## Model

| member | source | states |
|---|---|---|
| `IntrusiveLists.RingUnique` | include/list.h:7-9 | the pointers of a ring determine the sequence of its nodes, so a list has one reading |
| `IntrusiveLists.InitSentinel` | include/list.h:18 | a sentinel alone is an empty ring |
| `IntrusiveLists.ListIsEmpty` | include/list.h:20 | true exactly for the ring that is only the sentinel |
| `IntrusiveLists.ListFirstEntry` | include/list.h:28-29 | the node after the sentinel, or null when the list is empty |
| `IntrusiveLists.ListAddHead` | include/list.h:40-48 | the ring afterwards is the old one with the node put in front |
| `IntrusiveLists.ListNodeIsLinked` | include/list.h:50-53 | tells a node in a list from a popped one |
| `IntrusiveLists.ListAddTail` | include/list.h:55-67 | the ring afterwards is the old one with the node at the end |
| `IntrusiveLists.PopNode` | include/list.h:69-75 | the ring afterwards is the old one without the node, whose links are null |
| `BuddyAllocator.SizeToOrder` | src/memory/buddy.c:75-83 | the least order whose block has the pages needed, or the order that is refused |
| `BuddyAllocator.OrderCovers` | src/memory/buddy.c:75-83 | the chosen block covers the request exactly when size + 4095 does not wrap, and is then the smallest that does |
| `BuddyAllocator.HugeRequestWraps` | src/memory/buddy.c:75-83 | a request of 0xFFFFFFFF bytes wraps to zero pages and is served by one page |
| `BuddyAllocator.BuddyAddress` | src/memory/buddy.c:13-13 | the exclusive-or on byte addresses relative to the zone base is the other half of the enclosing block |
| `BuddyState.SiblingInZone` | include/memory/memory.h:24-31 | zone bases are multiples of the largest block, so a buddy lies in the same zone |
| `BuddyAllocator.FindBuddy` | src/memory/buddy.c:164-174 | the descriptor test finds a buddy exactly when that buddy is on the free list of that order |
| `BuddyState.FreeHeadListed` | src/memory/buddy.c:164-174 | a free descriptor that holds an order is the head of a listed block of that order, and conversely |
| `BuddyState.Canonical` | src/memory/buddy.c:230-307 | a block is on a free list if and only if it is a maximal aligned run of free pages |
| `BuddyState.ListedUnique` | src/memory/buddy.c:230-286 | no free page belongs to two listed blocks |
| `BuddyState.SameFreePagesSameLists` | src/memory/buddy.c:230-307 | equal sets of free pages give equal free lists and counters at every order of every zone |
| `BuddyAllocator.Buddy.SetBlockMetadata` | src/memory/buddy.c:97-108 | head holds the order, the other pages the magic value, all pages the state, no other descriptor changes |
| `BuddyAllocator.Buddy.PopFirstBlock` | src/memory/buddy.c:85-95 | takes the first entry and lowers the counter, or returns 0 on an empty list |
| `BuddyAllocator.Buddy.SplitBlockToOrder` | src/memory/buddy.c:110-131 | recursive splitting lists every upper half, keeps coherence and changes no page's state |
| `BuddyAllocator.SplitOnce` | src/memory/buddy.c:110-131 | one round of splitting keeps the coherence of lists and descriptors |
| `BuddyAllocator.Buddy.AllocPages` | src/memory/buddy.c:230-253 | returns 0 exactly when the order is refused or no aligned run of that many free pages exists in the zone; otherwise an aligned block moves from the free pages to the live blocks, taken from the first entry of the lowest list at or above the order that has one; the mismatch panic is unreachable |
| `BuddyAllocator.Buddy.Coalesce` | src/memory/buddy.c:271-279 | the merging loop ends with a block whose buddy is not free at that order |
| `BuddyAllocator.MergeBuddy` | src/memory/buddy.c:271-279 | taking in a listed buddy keeps everything else coherent |
| `BuddyAllocator.Buddy.FreeBlock` | src/memory/buddy.c:256-286 | panics, changing nothing, exactly when the page heads no live block; otherwise that block becomes free pages |
| `BuddyAllocator.Buddy.Init` | src/memory/buddy.c:288-307 | every available page becomes free, nothing is live, and the lists are coherent, hence the maximal decomposition |
| `BuddyRuns.StepConserves` | src/memory/buddy.c:230-286 | one allocation or release keeps live blocks disjoint and free plus live pages constant |
| `BuddyRuns.RunConserves` | src/memory/buddy.c:230-286 | the same over every run |
| `BuddyRuns.RunsAgree` | src/memory/buddy.c:230-286 | runs that leave the same live blocks leave the same free pages |
| `BuddyRuns.HistoriesAgree` | src/memory/buddy.c:230-307 | whatever the histories, the same live blocks mean the same free lists and counters |
| `BuddyRuns.AllocThenFree` | src/memory/buddy.c:230-286 | freeing what was just allocated restores the heap |
| `BuddyRuns.ValidHeap` | src/memory/buddy.c:85-131 | coherent descriptors and lists are a heap of disjoint live blocks |
| `Scheduling.ScheduleEffect` | src/proc/scheduler.c:32-73 | the head of the queue, with the current task put last, runs for a full quantum, or the idle task |
| `Scheduling.ScheduleSafe` | src/proc/scheduler.c:14-73 | scheduling keeps the queue discipline, never panics, and leaves a running task with a quantum in 1..10 |
| `Scheduling.WqFinishCore` | src/proc/waitqueue.c:17-27 | waking moves a task from its one wait queue to the ready queue and keeps the discipline |
| `ProcessSteps.PrepareCore` | src/proc/waitqueue.c:5-15 | preparing to wait leaves the task on exactly the new queue and off the ready queue |
| `ProcessSteps.WakeListFacts` | src/proc/waitqueue.c:46-54 | waking a whole queue wakes exactly its entries and keeps the order of the ready queue |
| `ProcessSteps.WakeExpiredFacts` | src/proc/timer.c:14-23 | exactly the sleepers whose time has come stop waiting, no other task changes, the ready queue only grows at its end, and the discipline stays |
| `Kernel.ProcessCore.SchedEnqueue` | src/proc/scheduler.c:23-30 | in place: a task already queued is left alone |
| `Kernel.ProcessCore.Schedule` | src/proc/scheduler.c:32-73 | in place, equal to the step; the panic on a task that is not running is unreachable |
| `Kernel.ProcessCore.WqPrepare` | src/proc/waitqueue.c:5-15 | in place, equal to the step |
| `Kernel.ProcessCore.WqFinish` | src/proc/waitqueue.c:17-27 | in place, equal to the step |
| `Kernel.ProcessCore.WqWakeAll` | src/proc/waitqueue.c:46-54 | the loop that empties the queue equals waking its entries in order |
| `Kernel.ProcessCore.WakeUpSleepers` | src/proc/timer.c:14-23 | the loop that removes while it walks equals waking the expired entries; exactly those stop waiting |
| `Kernel.ProcessCore.TimerHandle` | src/proc/timer.c:35-48 | in place, equal to the tick; a task with ticks left keeps the processor and pays one; else the first contender gets ten; the decrement cannot wrap |
| `Kernel.ProcessCore.KSleep` | src/proc/timer.c:50-55 | in place, equal to the sleep step, with the wake-up time in 32-bit arithmetic |
| `Kernel.ProcessCore.KSleepReturn` | src/proc/timer.c:56-57 | back from the switch: the wake-up time is reset |
| `ProcessRuns.ChargeSafe` | src/proc/timer.c:35-48 | the quantum of a current task that is not idle is at least 1 before the decrement |
| `Processes.MoveChildTree` | src/proc/task.c:313-327 | moving one child to kitoxD keeps parents and child lists in agreement |
| `Processes.ReparentFacts` | src/proc/task.c:313-327 | afterwards the task has no children, kitoxD has them all, and nothing else moved |
| `ProcessSteps.ForkKeeps` | src/proc/task.c:129-135 | a new child with the least free pid keeps every invariant |
| `ProcessSteps.ForkPids` | src/proc/task.c:137-193 | pids of unreleased tasks stay distinct and equal to the allocated ones |
| `ProcessSteps.FindZombieFacts` | src/syscalls/waitpid.c:8-19 | the scan returns a matching zombie child, and nothing only if there is none |
| `ProcessSteps.WaitKeeps` | src/syscalls/waitpid.c:21-55 | every outcome of a round of waitpid keeps every invariant |
| `ProcessSteps.ReapKeeps` | src/proc/task.c:365-372 | releasing a zombie child keeps every invariant |
| `ProcessSteps.ExitMarkFacts` | src/syscalls/exit.c:9-25 | up to becoming a zombie, the children go to kitoxD and the discipline holds but for the current task |
| `ProcessSteps.ExitKeeps` | src/syscalls/exit.c:9-38 | exit keeps every invariant and never returns |
| `Kernel.ProcessCore.Fork` | src/syscalls/fork.c:92-119 | in place, equal to the step; returns the least free pid; the child is the caller's first child and last in the ready queue |
| `Kernel.ProcessCore.ReparentChildren` | src/proc/task.c:313-327 | the loop equals the recursive description |
| `Kernel.ProcessCore.DoExit` | src/syscalls/exit.c:9-38 | in place, equal to the step; the panic after the scheduler is unreachable |
| `Kernel.ProcessCore.FindZombieChild` | src/syscalls/waitpid.c:8-19 | the loop finds the first matching zombie in list order |
| `Kernel.ProcessCore.TaskHasChildPid` | include/proc/task.h:86-95 | tells whether a child has that pid |
| `Kernel.ProcessCore.TaskRelease` | src/proc/task.c:365-372 | in place: pid, list entry and task go together |
| `Kernel.ProcessCore.SysWaitpid` | src/syscalls/waitpid.c:21-55 | in place, equal to the step; the result is the answer stated by WaitAnswers |
| `Answers.WaitAnswers` | src/syscalls/waitpid.c:21-55 | -EINVAL for pid 0 or below -1; else -ECHILD if the caller, not being kitoxD, has no child, or has children but none of that pid; else, if a child is a zombie that the pid admits, -EFAULT on a fault, or the pid and exit code of the first such child, which is gone; else the caller blocks |
| `Answers.ExitLeavesZombie` | src/syscalls/exit.c:19-27 | an exiting task is a childless zombie with the low byte of the status, shifted by eight, as its exit code |
| `Answers.ExitStatusArrives` | src/syscalls/waitpid.c:42-50 | over every run, that code is what a waitpid collects with the pid, or the zombie is still there and holds it |
| `Answers.SignalWakes` | src/proc/waitqueue.c:29-36 | a signal makes a waiting task runnable, last in the queue, and touches nobody else |
| `Answers.WakeListReady` | src/proc/waitqueue.c:46-54 | the entries of a woken queue join the ready queue in their order |
| `Answers.WakeExpiredReady` | src/proc/timer.c:14-23 | so do the expired sleepers |
| `Answers.TickKeepsCurrent` | src/proc/timer.c:45-46 | with more than one tick left, the current task keeps the processor with one tick less, and the queue only gains the woken sleepers |
| `Answers.TickSwitches` | src/proc/timer.c:45-47 | at the last tick, and on the idle task, the first of the queue, the woken and the current task runs for ten ticks, and the others keep their order |
| `Answers.QuantumLasts` | src/proc/timer.c:35-48 | over every run, a task that stays runnable is current through all but the last tick of its quantum, with one less after each, whatever else happens |
| `Answers.QuantumEnds` | src/proc/scheduler.c:32-68 | at the last tick it goes to the end of the queue and the first one runs, or it runs again if nobody is ready |
| `ProcessRuns.NextKeeps` | src/proc/scheduler.c:14-73 | every step keeps queue discipline, tree, pids and wake-ups |
| `ProcessRuns.RunSafe` | src/proc/scheduler.c:14-73 | every state of every run satisfies all of it and has not panicked |
| `ProcessRuns.BootInv` | src/proc/task.c:95-120 | the state after the first dispatch satisfies it |
| `ProcessRuns.NextCloser` | src/proc/scheduler.c:23-68 | no step overtakes a ready task, and each tick lowers its bound |
| `ProcessRuns.BoundedWaiting` | src/proc/timer.c:35-48 | a task at index k runs within q + 10 k ticks, whatever else happens |
| `MissedWakeup.ExitMissesKitoxd` | src/syscalls/exit.c:24-27 | an exit makes kitoxD miss a wake-up exactly when kitoxD is blocked in waitpid, is not the parent of the exiting task, and inherits a zombie that it would accept |
| `MissedWakeup.OthersMissNothing` | src/syscalls/waitpid.c:30-54 | no other step makes any task miss a wake-up |
| `MissedWakeup.KitoxdMissesIff` | src/proc/task.c:313-327 | over every run, kitoxD comes to miss a wake-up at a step if and only if that step is such an exit |
| `MissedWakeup.KitoxdMissesZombie` | src/proc/task.c:313-327 | a run from boot of ten steps after which kitoxD sits in waitpid on a zombie child |
| `ProcessRuns.ZombieFate` | src/syscalls/waitpid.c:42-50 | a zombie keeps pid and exit code until its parent's waitpid returns that pid, which removes it and frees the pid |
| `SleepRuns.SleeperStep` | src/proc/timer.c:14-23 | a sleeper stays asleep until a signal or the first tick that reaches its time, and is runnable then |
| `SleepRuns.Clock` | src/proc/timer.c:35-38 | only the timer moves the clock, by one |
| `SleepRuns.SleepLasts` | src/proc/timer.c:35-57 | in every run, a task that goes to sleep and is not signalled sleeps through fewer than Due ticks and is runnable at the tick that completes them |
| `SleepRuns.DueIff` | src/proc/timer.c:53-53 | Due is what was asked for (at least one tick) if and only if the end of the sleep is below 2^32 |
| `SleepRuns.LongSleepIsShort` | src/syscalls/sleep.c:4-8 | sleep(42949673) is over after four ticks |
| `Ids.LeastClearFacts` | src/utils/id_manager.c:28-41 | the result is the least unused identifier, or -1 if and only if all are used |
| `Ids.IdManager.constructor` | src/utils/id_manager.c:5-20 | no identifier is used; the hint is right exactly when there is at least one identifier |
| `Ids.IdManager.FindNextZeroFrom` | lib/data_structs/bitmap/bitmap_find.c:10-35 | the scan that skips full bytes finds the least clear bit from the start, or -1 |
| `Ids.IdManager.Advance` | src/utils/id_manager.c:28-41 | the hint is the least clear bit again; the second scan from zero never finds anything |
| `Ids.IdManager.Alloc` | src/utils/id_manager.c:28-41 | returns and marks the least unused identifier, or -1 when there is none |
| `Ids.IdManager.Free` | src/utils/id_manager.c:43-50 | clears the bit; the hint stays right if and only if the identifier is in range or is not taken as the hint |
| `Ids.IdManager.Reserve` | src/utils/id_manager.c:52-66 | succeeds exactly on an unused identifier in range, and keeps the hint right |
| `Paging.MapPresentOk` | src/memory/vmm.c:160-210 | writing an entry of an existing table updates the map at that page only |
| `Paging.MapNewOk` | src/memory/vmm.c:160-210 | so does installing a new table with one entry |
| `Paging.UnmappedOk` | src/memory/vmm.c:212-248 | clearing an entry, and the table when it is empty, removes that page only and leaves no empty table |
| `Paging.UpdatedTight` | src/memory/vmm.c:160-248 | an owned directory entry stays present if and only if its table maps something |
| `PageDirectory.Mmu.MapPage` | src/memory/vmm.c:160-210 | map is update; it fails, changing nothing, exactly when a table is needed and none can be had; a new directory entry is present, writable, and open to the user if and only if the page is |
| `PageDirectory.Mmu.UnmapPage` | src/memory/vmm.c:212-248 | unmap is removal and reports whether the page was mapped |
| `PageDirectory.Mmu.GetMapping` | src/memory/vmm.c:250-274 | lookup, with the offset in the page |
| `PageDirectory.Mmu.FreePtRange` | src/memory/vmm.c:290-300 | the pages under those slots are unmapped and all other mappings stay |
| `PageDirectory.Mmu.VerifyRangeFlags` | src/memory/vmm.c:308-342 | 0 if and only if every page that the range touches has the flags at both levels |
| `Memory.Machine.Map` | src/memory/vmm.c:160-210 | mapping with its own table allocation: fails, changing nothing, exactly when the slot has no table and low memory no frame; low frames and tables are conserved; one directory entry changes, by at most the user bit if it was present |
| `Memory.Machine.Unmap` | src/memory/vmm.c:212-248 | unmapping gives an emptied table back; low frames and tables are conserved |
| `Memory.SteadySame` | src/memory/vmm.c:160-248 | equal mappings without empty tables mean equally much low memory |
| `ForkCopy.CopyStep` | src/syscalls/fork.c:58-86 | copying one more page extends the copy and disturbs nothing |
| `ForkCopy.CopyPage` | src/syscalls/fork.c:59-85 | copying through the temporary window gives the child a page of its own with equal flags and contents, and the window and its table are as before; fails exactly when no high frame is left or no low one for the window's table |
| `ForkCopy.CopyTable` | src/syscalls/fork.c:45-88 | one directory slot: a table and copies of its present pages; failure means that there was not enough memory |
| `ForkCopy.CopyUserSpace` | src/syscalls/fork.c:45-90 | succeeds if and only if there is a high frame for every mapped page and a low one for every table and, if missing, the window's; then the child maps exactly the parent's present user pages, with equal flags and contents, on distinct frames that were free, under copies of its directory entries; no other mapping changed; the kernel slots are shared |
| `ForkCopy.ChildVerifies` | src/memory/vmm.c:308-342 | the page-table check of a user page comes out the same for child and parent |
| `VmaLayout.LayoutDetermined` | src/memory/vma.c:100-111 | a list that tiles the window without adjacent free areas is determined by its areas in use |
| `VmaLayout.AllocLayout` | src/memory/vma.c:68-98 | splitting keeps the tiling and adds exactly the new area |
| `VmaLayout.DestroyLayout` | src/memory/vma.c:100-111 | freeing and merging keeps the tiling and removes exactly that area |
| `VmaLayout.AllocThenDestroy` | src/memory/vma.c:68-111 | allocation followed by destruction restores the list |
| `VmaLayout.DestroyEffect` | src/memory/vma.c:194-215 | destruction by address removes that area from the areas in use and keeps the tiling |
| `VmaLayout.DestroysCommute` | src/memory/vma.c:194-215 | two destructions give the same list in either order |
| `AddressSpace.NoSharedFrames` | src/memory/vma.c:217-234 | in a coherent space a page of the window is mapped if and only if its area is allocated, and no frame backs two pages |
| `AddressSpace.ReserveCoherent` | src/memory/vma.c:26-55 | reserving an area keeps list, page tables and frames coherent |
| `AddressSpace.FillCoherent` | src/memory/vma.c:217-234 | giving a page a frame keeps coherence and the distinctness of frames |
| `AddressSpace.MapCoherent` | src/memory/vma.c:217-234 | mapping or unmapping a page being worked on keeps coherence |
| `AddressSpace.UnfillCoherent` | src/memory/vma.c:194-215 | giving a frame back keeps coherence |
| `AddressSpace.DropCoherent` | src/memory/vma.c:194-215 | turning an emptied area into a hole ends the operation coherently |
| `AddressSpace.FinishCoherent` | src/memory/vmm.c:51-56 | an area whose pages are all mapped is coherently allocated |
| `Vma.TaskMemory.constructor` | src/memory/vma.c:147-158 | one free area tiles the window, coherent with a directory that maps nothing there |
| `Vma.TaskMemory.FirstFit` | src/memory/vma.c:57-66 | the first free area that is large enough, or none |
| `Vma.TaskMemory.FindByStart` | src/memory/vma.c:113-124 | the area that starts at the address, or none |
| `Vma.TaskMemory.FindByAddr` | src/memory/vma.c:126-137 | the area that holds the address, or none |
| `Vma.TaskMemory.FillArea` | src/memory/vma.c:217-226 | frames for the pages come off the free frames; fails exactly when there are too few; failure part-way stays coherent |
| `Vma.TaskMemory.MapPages` | src/memory/vma.c:227-234 | the pages get mapped; fails exactly when low memory has fewer frames than tables are missing; failure part-way stays coherent; nothing outside the area changes |
| `Vma.TaskMemory.MapArea` | src/memory/vma.c:217-234 | both loops together, with the exact condition of success |
| `Vma.TaskMemory.ReleasePages` | src/memory/vma.c:196-206 | every frame of the area goes back and nothing of it stays mapped |
| `Vma.TaskMemory.DestroyArea` | src/memory/vma.c:194-215 | also from a half-filled area: coherent, frames returned, hole merged |
| `Vma.TaskMemory.MergeNeighbour` | src/memory/vma.c:15-24 | two adjacent free areas become one |
| `Vma.TaskMemory.FreeAndMerge` | src/memory/vma.c:100-111 | merging with both neighbours gives the list of the description |
| `Vma.TaskMemory.Pick` | src/memory/vma.c:160-171 | the area at the hint if it is free and large enough, else the first fit |
| `Vma.PickFits` | src/memory/vma.c:57-66 | a free area is found exactly when one is large enough; it is the one at the hint if that one fits, and the lowest otherwise |
| `Vma.TaskMemory.Alloc` | src/memory/vma.c:26-55 | succeeds if and only if a free area fits, the two heap allocations succeed and, if eager, there are frames for the pages and the missing tables; then the area is placed, at the hint if a free area there is large enough, all is coherent and no mapping outside it changes; else list, mappings, page frames and the amount of low memory are as they were |
| `Vma.TaskMemory.Undo` | src/memory/vma.c:53-55 | destroying the half-made area restores list, mappings, page frames and the amount of low memory |
| `Vma.TaskMemory.PageFault` | src/memory/vmm.c:48-56 | a fault panics if and only if it is not in a lazy area or frames are lacking; else all of the area is mapped and allocated and no mapping outside it changes |
| `Vma.TaskMemory.Munmap` | src/syscalls/munmap.c:6-18 | destroys the whole area in use that starts at the address, with all its frames and no other mapping, or fails changing nothing |
| `Sharing.OtherStays` | src/memory/vma.c:26-55 | what an operation of one task does leaves any other task's list, mappings and frames coherent and their frames apart |
| `Sharing.AllocAmong` | src/memory/vma.c:160-171 | allocation by one of the tasks keeps all of them coherent and their frames apart |
| `Sharing.PageFaultAmong` | src/memory/vmm.c:48-56 | so does a lazy fault |
| `Sharing.MunmapAmong` | src/syscalls/munmap.c:6-18 | so does munmap |
| `Signals.CleanBitsFacts` | src/syscalls/sigreturn.c:24-24 | interrupts on, I/O privilege 0, nested task and virtual-8086 off, the listed flags as saved; cleaning twice is cleaning once |
| `Signals.SignalTask.Dequeue` | src/proc/signal.c:100-104 | clears that signal if it is valid |
| `Signals.SignalTask.CallHandlers` | src/proc/signal.c:131-165 | the lowest pending signal that acts decides; lower ones are consumed, higher ones stay pending; on delivery the task is at the handler's entry, on the aligned frame, with all other registers as before, and the frame holds trampoline address, signal number and context with no other word changed; else the task exits |
| `Signals.SignalTask.Sigreturn` | src/syscalls/sigreturn.c:10-32 | the saved frame with flags masked and completed, CS 0x1B and 0x23 in the other selectors, the rest as stored; or exit |
| `Signals.FrameBaseFacts` | src/proc/signal.c:149-149 | a frame that passes the access check lies below the stack pointer, aligned to 16 |
| `Signals.DeliverNested` | src/proc/signal.c:146-161 | a delivery leaves every saved context intact and puts the new one below them |
| `Signals.ReturnRestores` | src/syscalls/sigreturn.c:16-30 | returning from the innermost handler gives the context that its delivery saved, cleaned |
| `Signals.RunNested` | src/proc/signal.c:131-165 | in every run the saved contexts are intact and disjoint |
| `Signals.HandlerReturnsToInterrupted` | src/syscalls/sigreturn.c:10-32 | last-in first-out: when the handler delivered at step i returns, the context interrupted at i resumes, cleaned, whatever was nested in between |
| `Signals.FramesDisjointIff` | src/proc/signal.c:149-157 | the new sigframe is disjoint from the one above it if and only if the delivery did not interrupt the trampoline |
| `Signals.TrampolineFramesOverlap` | src/proc/context.s:64-67 | a delivery inside the trampoline reuses exactly the word of the return address |
| `SlabState.Geometry` | src/memory/slab.c:205-218 | every slab has at least two objects, they fit in the page behind the descriptor, and one more would not |
| `SlabState.ObjBounds` | src/memory/slab.c:82-104 | an object lies in its page, clear of the descriptor |
| `SlabState.LiveCount` | src/memory/slab.c:144-203 | `inuse` is the number of live objects, so freelist length plus `inuse` is the capacity |
| `SlabState.NullIffFull` | src/memory/slab.c:198-201 | the freelist is NULL exactly when every object is in use |
| `SlabState.NewSlabOk` | src/memory/slab.c:55-68 | the initial chain holds every object once and ends with NULL |
| `SlabState.TakeObjOk` | src/memory/slab.c:194-196 | taking the head of the chain makes that object live and no other |
| `SlabState.PutObjOk` | src/memory/slab.c:154-157 | putting an object back makes it free and no other |
| `SlabAllocator.ClassIsLeastPower` | src/memory/slab.c:36-53 | the class is the smallest power of two that is at least 8 and at least the size, and none exists over 2048 |
| `SlabAllocator.LiveApart` | src/memory/slab.c:170-203 | live objects of all caches are disjoint and inside their pages |
| `SlabAllocator.AllocKeeps` | src/memory/slab.c:170-203 | fails exactly for sizes or zones without a cache, or with all objects used and no page left; else hands out an object that nobody holds; a slab stays on the list for its use |
| `SlabAllocator.AllocReuses` | src/memory/slab.c:180-192 | a page is taken only when every object of the cache is in use, and the object comes from a partly used slab if there is one |
| `SlabAllocator.FreeKeeps` | src/memory/slab.c:144-168 | removes that object alone from the live ones; slabs stay on the list for their use |
| `SlabAllocator.StoreKeeps` | src/memory/slab.c:144-203 | whatever a holder stores in its object, the freelists stay intact |
| `SlabAllocator.AllocLeavesContents` | src/memory/slab.c:170-203 | allocation changes no byte of a live object |
| `SlabAllocator.FreeLeavesContents` | src/memory/slab.c:144-168 | release changes no byte of another live object |
| `SlabRuns.RunHeldApart` | src/memory/slab.c:144-203 | over every run, objects held at the same time never share a byte |
| `SlabRuns.RunKeepsContents` | src/memory/slab.c:144-203 | over every run, an object keeps its contents until its holder stores into it or frees it |
| `SlabRuns.Slabs.constructor` | src/memory/slab.c:205-218 | all caches start without slabs and nothing is live |
| `SlabRuns.Slabs.SizeToCacheSize` | src/memory/slab.c:36-53 | the doubling loop computes the class |
| `SlabRuns.Slabs.InitIntrusiveFreelist` | src/memory/slab.c:55-68 | the loop writes the chain |
| `SlabRuns.Slabs.SlabCreate` | src/memory/slab.c:70-111 | a new slab in the page, or none without a page |
| `SlabRuns.Slabs.PickSlab` | src/memory/slab.c:177-192 | first partial, else first empty, else new |
| `SlabRuns.Slabs.SlabAlloc` | src/memory/slab.c:170-203 | in place, equal to the step |
| `SlabRuns.Slabs.SlabFree` | src/memory/slab.c:144-168 | in place, equal to the step |
| `BootRegions.SortedFacts` | src/memory/boot_allocator.c:140-150 | the result is ordered by start and has the same entries |
| `BootRegions.SortMergeCovers` | src/memory/boot_allocator.c:173-194 | sorting and merging keep the covered addresses |
| `BootRegions.SortMergeGapped` | src/memory/boot_allocator.c:173-194 | merged disjoint regions never touch |
| `BootRegions.GappedDetermined` | src/memory/boot_allocator.c:173-194 | the merged table is determined by the addresses it covers |
| `BootAllocator.Table.Add` | src/memory/boot_allocator.c:100-117 | appends the region |
| `BootAllocator.Table.Sort` | src/memory/boot_allocator.c:140-150 | insertion sort in place equals the description |
| `BootRegions.MergeRunIff` | src/memory/boot_allocator.c:173-194 | the merging function, which picks up the first entry before it sorts, gives the merged table if and only if that entry has the least start |
| `BootRegions.UnsortedLosesRegion` | src/memory/boot_allocator.c:175-182 | a table on which it loses a region |
| `BootAllocator.Table.Merge` | src/memory/boot_allocator.c:173-194 | in place, equal to that function on every table |
| `BootAllocator.Table.SortAndMerge` | src/memory/boot_allocator.c:21-25 | sorting first, as all callers do, gives the merged table |
| `BootAllocator.AddToZones` | src/memory/boot_allocator.c:118-128 | records the block in the table of the zone of its first address, sorted and merged |
| `BootZones.CarveCovers` | src/memory/boot_allocator.c:543-552 | split, shrink and swap-remove take away exactly the block and keep regions disjoint |
| `BootZones.CarveMoves` | src/memory/boot_allocator.c:475-561 | the block moves from the free to the reserved addresses and nothing else moves |
| `BootZones.AlignUpLeast` | src/memory/boot_allocator.c:527-529 | the least aligned address from there on |
| `BootZones.FailsIffNoRoom` | src/memory/boot_allocator.c:475-561 | a request fails exactly when no free region holds an aligned block of that size in the window |
| `BootZones.ChosenRight` | src/memory/boot_allocator.c:482-531 | with a window the block is the least multiple of the alignment in the window and the region, and no earlier region has one; without, it ends the last region that is large enough |
| `BootZones.RunConserves` | src/memory/boot_allocator.c:475-561 | over any requests, free and reserved stay disjoint with constant union per zone, reserved stays reserved, and all blocks handed out are disjoint |
| `BootAllocator.FindLast` | src/memory/boot_allocator.c:482-486 | the last region that is large enough, or -1 |
| `BootAllocator.FindFirst` | src/memory/boot_allocator.c:519-531 | the first region that holds an aligned block in the window |
| `BootAllocator.Carve` | src/memory/boot_allocator.c:543-552 | in place, equal to the description |
| `BootAllocator.BootMemory.BootAlloc` | src/memory/boot_allocator.c:475-509 | in place, equal to the step; the block ends the last region that is large enough and is logged; a frozen allocator refuses |
| `BootAllocator.BootMemory.BootAllocAt` | src/memory/boot_allocator.c:511-561 | in place, equal to the step; the block is aligned, in the window, the least such, and logged; a frozen allocator, an empty request and a window that is too small are refused |
| `BootSetup.RangeOverlaps` | src/memory/boot_allocator.c:329-340 | true exactly when some region overlaps the range |
| `BootSetup.AddRegion` | src/memory/boot_allocator.c:100-117 | records a region that is not empty |
| `BootSetup.FreeHandler` | src/memory/boot_allocator.c:152-171 | the walk along the reserved regions, in place |
| `BootSetup.GapsCover` | src/memory/boot_allocator.c:152-171 | the gaps met are exactly the range minus all reserved regions, which may overlap and nest |
| `BootSetup.FilledCovers` | src/memory/boot_allocator.c:152-171 | for every input, what is added is the gaps that overlap nothing available |
| `BootSetup.FilledKeeps` | src/memory/boot_allocator.c:152-171 | only unreserved addresses of the range are added, and the table stays disjoint |
| `BootSetup.FilledExactIff` | src/memory/boot_allocator.c:152-171 | exactly the range minus the reserved regions is added if and only if every gap that overlaps something available is available altogether |
| `BootSetup.OverlapLosesMemory` | src/memory/boot_allocator.c:424-459 | with the regions that initialisation reserves, wherever below 16 MiB the kernel and its tables are, a second range that contains the first leaves unreserved memory from 16 MiB on out of the free table |
| `BootSetup.InitZones` | src/memory/boot_allocator.c:275-309 | every region is cut at the zone boundaries and filed by zone |
| `BootZones.ZonePartCovers` | src/memory/boot_allocator.c:275-309 | cutting by zone loses and invents no address |
| `BootSetup.InitZoneOk` | src/memory/boot_allocator.c:424-472 | after initialisation exactly the fixed regions are reserved, only available and unreserved memory is free, all of it when the ranges do not overlap, and nothing is both |
| `BootSetup.BootAllocatorInit` | src/memory/boot_allocator.c:424-472 | initialisation produces those tables, from which the run theorem starts |

## Left out

- Drivers, VGA, TTY, keyboard, PCI, ATA, MBR, the shell, panic printing and all debug and print functions.
- GDT, IDT and boot assembly, CR3 and TLB instructions, and the stack switch: the switch is a change of the current task.
- libk and libutils string helpers and ft_lst, which would only add easy members.
- Lists outside `IntrusiveLists` are sequences; the link between the two is the contract of the list operations there, not a pointer model of every queue.
- Allocations of the kernel heap used as helpers are outcomes given as parameters: list nodes and page arrays of areas, and the descriptor of a slab of large objects, which is assumed to be there.
- SlabRuns.Slabs.SlabCreate: failure of the inner descriptor allocation is not modelled, because the code then frees a page it has already marked as a slab and panics.
- SlabRuns.Slabs.SlabAlloc: sizes over 2^31 are excluded, for the reason given for SizeToCacheSize.
- SlabRuns.Slabs.SizeToCacheSize: sizes over 2^31 are excluded, because the doubled size wraps to zero and the loop does not end; kmalloc sends only sizes up to 2048.
- slab_shrink_caches: it frees empty slabs without unlinking them, so slab safety is stated for runs without reclaim.
- BuddyAllocator.Buddy.FreeBlock: an available page that was never handed out is only freed with order 0, as buddy_init does.
- fork's failure path, which frees the kernel stack twice, and the ownership of frames across fork and exit. A forked child starts with an empty area list (src/proc/task.c:151) over the pages it inherits, so the coherence of Vma does not hold of it.
- ForkCopy.CopyUserSpace: says when the copy fails, and nothing of the state it leaves then.
- PageDirectory.Mmu.UnmapPage: pages under the shared kernel slots 768 to 991 are left out.
- PageDirectory.Mmu.FreePtRange: ranges within the user slots, the only ones that it is called with.
- PageDirectory.Mmu.MapPage: models entries with the present bit, as all callers pass it, and leaves the shared kernel slots 768 to 991 out of its range.
- PageDirectory.Mmu.VerifyRangeFlags: only ranges below the kernel half that do not wrap, which the callers check first.
- Page-aligned physical addresses appear as frame numbers; tasks' windows and zones keep their byte addresses.
- vmalloc: its window does not end on a page boundary and it maps into whichever directory is current, so the claims are about task windows.
- vma_destroy_areas and task_exit_cleanup: tearing down a whole address space is not modelled.
- execve, which drops old mappings without releasing them.
- Vma.TaskMemory.Munmap: ignores the length but for zero, as the code does.
- Vma.TaskMemory.PageFault: a failure to map a lazy area is a panic and leaves no promise.
- Signals.SignalTask.CallHandlers: delivery at interrupt exit only; delivery from schedule() in the middle of a system call has its eax overwritten afterwards. User memory is modelled by word.
- Signals.HandlerReturnsToInterrupted: user code is assumed to leave saved frames alone and not to pop past its own frame.
- Kernel.ProcessCore.TimerHandle: the tick counter itself does not wrap at 2^32; wake-up times do, as in the code.
- Boot holes: gap filling assumes regions that do not nest; it and the totals of RAM are not modelled.
- BootSetup.AddRegion: an end of 0 is recorded as it is; the theorems about tables are for regions whose end does not wrap.
- BootAllocator.BootMemory.BootAlloc: asks for at least one byte, because the code records an empty region for a request of zero bytes, possibly in the table of the next zone; the log is not bounded to 256 entries, which the code does not check; the freeable flag is not kept.
- BootAllocator.BootMemory.BootAllocAt: alignments are powers of two, given by their exponent, and address sums do not wrap.
- BootSetup.BootAllocatorInit: regions whose end wraps to 0 and tables that overflow are excluded; the fixed regions of boot_allocator_init come as one argument.
