# Verification of the kernel's memory, scheduling, windows, loading and files

This project models the kernel's C code in Dafny and proves what it promises. Where the code changes state in place, so
does the model (classes with fields and arrays, methods with loops). Address spaces, the installation of a page table, the
scheduler, the file layer and the lifetime of windows are also state machines of any number of CPUs, whose steps are single
lock sections or single unlocked accesses, with theorems over all runs; everywhere else one call runs to its end before
the next one starts. `Common` holds what several modules share.

- **Address spaces.** `CowMachine`, `CowInvariant` and `CowRefinement` are the machine of any number of CPUs forking,
  faulting, writing and destroying: lazy copy-on-write sharing refines eager copying; `FaultRuns` bounds a fault under
  every interleaving. `PageTree`, `PageTables` and `PageRanges` are the four-level tables (section 4.5 of the Intel SDM,
  Volume 3A) and refine a flat page map. `AddressSpaces`, `SpaceBuilding`, `PageFault`, `SpaceDestroy` and `CloneDestroy`
  run the real code on those tables and show that each call is a run of the machine; `BootTables` starts it all from the
  tables the boot code leaves. `TableRace` is the race to install one page table. `Frames` is the abstract frame allocator
  all of these use, and `FrameAllocator` (with `Bits`) the bitmap, stack and counts that implement it.
- **Scheduler.** `RunQueues` is the linked run queue, `Scheduler` the machine of CPUs taking interrupts, dispatching,
  stealing, creating and exiting, `SchedulerRuns` the theorems over runs, and `SchedulerCode` the code itself, whose
  calls are runs of the machine.
- **Heap.** `HeapBlocks` and `HeapLaws` are first fit with splitting and coalescing as functions on block lists; `Heap`
  is the allocator on the words of its memory.
- **Windows.** `Rects`, `Graphics` and `Compositor` draw in place and are compared with a picture read front to back;
  `Damage` and `Desktop` keep the dirty rectangles sufficient; `WindowLifetime` is the reference-count protocol.
- **Programs.** `ElfImage` is what the two ELF loaders make of a list of segments, `ElfLoad` the loaders themselves on the
  page tables, beside the kernel's own mappings.
- **Files.** `FileMachine` is the machine of CPUs opening, reading, writing and looking up, `CacheRace` what its races do to
  the sector cache and to two writers of one sector, `Files` (with `DiskImage`) the code, whose calls are runs of the machine
  by `FileCalls`.
- **Pure code.** `Checksum` is the Internet checksum and `Formatter` formatted output.

## Where the code does less than one would expect

Each of these is a lemma with a concrete input or an exact condition.

- A program linked below 512 GiB is loaded wrongly by both loaders (`ElfLoad.LoadableIff`; in general exactly when:
  `ElfLoad.LoadFresh`, `ElfLoad.LoadShared`). Up to 4 GiB every space shares the kernel's 2 MiB entries; the shell is linked
  at 0x400000 (`ElfLoad.ShellAt4MiB`, `ElfLoad.LoadShell`). From there on its pages are placed, but no program can read them,
  for the boot code's first entry has no user bit (`ElfLoad.PageAt8GiB`).
- A page mapped under the 2 MiB entry for physical 0 takes that entry's place, and the other 511 pages are gone from every
  space (`PageTables.Vmm.Map`, `PageRanges.MapRange`). A program at 4 KiB so costs every space the rest of the first 2 MiB,
  where the kernel itself is (`ElfLoad.LoadLow`).
- `src/kernel/elf.c` loses the bytes of a segment whose page a later segment touches (`ElfImage.SharedPageLost`; exactly
  when: `ElfImage.FreshRightIff`); `src/kernel/core/elf.c` does not.
- Splitting a shared page when no frame is free puts it on frame 0, and no state of the machine looks like that; it happens
  exactly then (`PageFault.HandlePageFault`). Two programs can meet there (`PageFault.TwoSplits`).
- `vmm_unmap_range` probes the sizes of entries through the global root only, and can skip pages of another one
  (`BootTables.SkippedUnmap`; exactly when: `PageRanges.RemovesIff`, `PageRanges.VisitsIff`).
- The kernel writes a program's buffers in ring 0, where a copy-on-write entry does not fault: right after a fork the child
  sees what is read into the parent's buffer (`CowRefinement.KernelStoreAfterClone`; exactly when a store stays in its own
  space: `CowRefinement.KernelStoreIff`).
- `vmm_get_phys` of an unmapped address is its offset in the page if there is a page table for it, else 0
  (`PageTables.Vmm.GetPhys`, `BootTables.UnmappedOffset`).
- The last frame of an available region is handed out even if the region ends inside it (`FrameAllocator.RegionEndFreed`;
  exactly when: `FrameAllocator.RegionExactIff`, `FrameAllocator.FreeUsableIff`).
- The last page of the boot information is not reserved if it ends further into a page than it starts and lies above the
  kernel (`FrameAllocator.InfoReservedIff`, `FrameAllocator.InfoSafeIff`, `FrameAllocator.InfoEndLost`).
- Two lookups at once can return, and leave in the cache, one sector's bytes under another's number
  (`CacheRace.WrongHitIff`, `CacheRace.StaysWrongIff`; which steps keep the cache coherent: `CacheRace.StepCoherentIff`).
- Two writes in one sector at once can lose the first one's bytes (`CacheRace.LostUpdateIff`; exactly when a write keeps
  all other bytes: `CacheRace.UpdateKeepsIff`).
- `vfs_write` leaves the file exactly if offset plus count wraps around to something inside it
  (`FileMachine.WriteCountIff`, `FileMachine.WriteWraps`).
- `kmalloc` of the seven largest sizes wraps around to a request for nothing and succeeds (`HeapBlocks.RoundCovers`,
  `HeapBlocks.WrappedRequest`); `kmalloc(0)` can fail though no block is needed (`HeapLaws.FailsOnNothing`).
- Dirty rectangles cover a window exactly if it is at least 1 wide and 20 high (or empty);
  the title bar of a lower window sticks out (`Damage.OuterCovers`).
- The 33rd disjoint dirty rectangle makes the list forget the others (`Damage.OverflowForgets`; exactly when:
  `Damage.QueuedGrowsIff`).
- `window_draw_all` before the first `window_update` would leave a cursor behind (`Desktop.DrawnTooEarly`; exactly when:
  `Desktop.Desktop.StartCursor`). The main loop calls them in the other order, and then all is well
  (`Desktop.Desktop.Frame`).
- The checksum's accumulator overflows above 131074 bytes (`Checksum.Overflow`; the result is then right exactly as
  `Checksum.WrappedFoldIff` says). No caller in the repository passes that many.
- The branches of `task_schedule` that reap or requeue the dequeued task are unreachable (`SchedulerRuns.OnlyReadyInHand`).

## Model

| member | source | states |
|---|---|---|
| CowRefinement.BootInv | src/kernel/vmm.c:14-21 | the state before the first address space, with any memory contents and any idle CPUs, satisfies the invariant |
| CowRefinement.StepInv | src/kernel/idt.c:129-162 | every step of the fault handler, cloner, destroyer, mapper, user code or kernel writing for a program, on any CPU at any moment, keeps the invariant: counts equal holders, writable pages have one holder, no two CPUs in one space |
| CowRefinement.StepRefines | src/kernel/vmm.c:81-141 | one step is one step, or none, of a specification in which every space has its own copy of every page |
| CowRefinement.RunRefines | src/kernel/vmm.c:81-169 | over every run under every interleaving, programs see a run of that specification; stores the kernel makes for a program are among the steps where they concern no other page |
| CowRefinement.Isolation | src/kernel/vmm.c:115-129 | a page keeps its bytes over any run in which its own space neither stores to it nor is destroyed, whatever others write to frames it shares |
| CowRefinement.KernelStoreIff | src/kernel/syscall.c:74-76 | a store in ring 0, which ignores the write bit, is a store to that page alone exactly if the program may write the page and no other page a program sees is on its frame, or the byte is there already |
| CowRefinement.OneReference | src/kernel/pmm.c:149-155 | no other page is, while the frame has one reference |
| CowRefinement.KernelStoreAfterClone | src/kernel/vmm.c:115-127 | a byte stored so right after cloning shows in the child |
| CowRefinement.FaultResolves | src/kernel/idt.c:139-161 | a write fault on a copy-on-write page by a CPU that runs alone ends within 4101 steps with the page writable and nothing visible changed |
| FaultRuns.FaultBounded | src/kernel/idt.c:139-161 | under every interleaving a fault once taken is over after at most 4100 further steps of its own CPU; nothing it has done is undone, and at its end the page is writable |
| FaultRuns.FaultUnseen | src/kernel/idt.c:139-161 | and the page keeps its bytes for the program all that time |
| FaultRuns.NextStep | src/kernel/idt.c:139-161 | a CPU resolving a fault has a next step in every reachable state if it needs no frame or one is free, and else none at all |
| CowRefinement.CopyLoop | src/kernel/idt.c:148 | the byte-by-byte copy fills the new frame with the shared one's bytes while no program notices |
| CowRefinement.FreeIffUnheld | src/kernel/pmm.c:117-138 | in every reachable state a managed frame is free exactly when no entry, table or handler refers to it |
| CowRefinement.CountsDetermined | src/kernel/pmm.c:117-147 | at rest, the entries' frames and the tables determine every reference count and the set of free frames |
| CowInvariant.FreeOldInv | src/kernel/idt.c:155 | giving up the old frame after a split keeps the invariant though other CPUs may hold the same frame |
| CowInvariant.MapKeptInv | src/kernel/idt.c:156-160 | making a page writable in place after reading a count of one keeps every other holder's bytes |
| CowInvariant.CountChildInv | src/kernel/vmm.c:126-127 | the reference taken after the child's entry is written restores agreement of count and holders |
| PageTables.Vmm.constructor | src/kernel/vmm.c:15-21 | the active root becomes the one whose first slot every space shares |
| PageTables.Vmm.EnsureNextTable | src/kernel/vmm.c:57-79 | returns the table below, adding a zeroed one if there was none, and changes no translation; 0 exactly when a frame was needed and none left; a 2 MiB entry is returned as if it led to a table, except that one for physical 0 is replaced by a new table, and the 512 pages under it are gone |
| PageTables.Vmm.AllocZeroedTable | src/kernel/vmm.c:43-50 | a free frame becomes an all-zero table, or 0 and nothing changed |
| PageTables.Vmm.Map | src/kernel/vmm.c:171-191 | afterwards the page (or 2 MiB chunk) translates to the new entry and every other page of every root as before; or frames ran out and no translation changed; or the page lies under a 2 MiB entry: then the new entry went into a word of the memory that one maps, or, if that one is for physical 0, it gave way to the page, and the other 511 pages are gone from every root that saw them |
| PageTables.Vmm.Unmap | src/kernel/vmm.c:206-226 | exactly the pages under the entry that maps the address lose their translation |
| PageTables.Vmm.GetPhys | src/kernel/vmm.c:244-259 | the physical address under the walk's entry; for unmapped addresses the offset in the page if there is a page table, else 0 |
| PageTables.Vmm.GetFlags | src/kernel/vmm.c:261-276 | the flags of the entry the walk finds, or none |
| PageRanges.MapRange | src/kernel/vmm.c:193-204 | with any mix of 2 MiB and 4 KiB entries, whatever was mapped before, every page of the range translates to its place in the physical range and no other page changes; left out are exactly the pages mapped one by one under a 2 MiB entry that is not for physical 0, and some if frames ran out; gone are exactly the other pages under one that is |
| PageRanges.UnmapRange | src/kernel/vmm.c:228-242 | every entry the loop comes to disappears from every space that saw it and nothing else does; that is exactly the range if and only if the range is removable |
| PageRanges.RemovesIff | src/kernel/vmm.c:228-242 | that is exactly the range if and only if, of the entries of the space being unmapped, each 2 MiB one is met by the loop exactly if it lies in the range, and each single page in the range is on the loop's way, which the entries of the global root decide |
| PageRanges.VisitsIff | src/kernel/vmm.c:228-242 | the loop keeps its offset as long as the global root has 2 MiB entries from the first chunk on, and comes in at the start of every chunk after the first without one; under such an entry it comes to the page at its offset alone, elsewhere to all pages from there on |
| PageRanges.FittingRemovable | src/kernel/vmm.c:228-242 | a range is removable where the sizes seen through the global root are those of the root being unmapped |
| PageRanges.SkippedPage | src/kernel/vmm.c:228-242 | it is not if the global root has a 2 MiB entry at its start and a later page of those 512 is mapped on its own |
| PageRanges.MapThenUnmap | src/kernel/vmm.c:193-242 | mapping a range that is unused in the space and in the global root, and unmapping it, restores every translation of every root |
| PageRanges.MappedRemovable | src/kernel/vmm.c:228-242 | a range just mapped is one that unmapping can follow |
| PageTree.AddTableWalk | src/kernel/vmm.c:57-79 | adding an empty table changes no walk, except that the pages under a 2 MiB entry it replaces are gone |
| PageTree.SetLeafWalk | src/kernel/vmm.c:188-190 | writing a last-level entry changes exactly the pages that reach it, through every root that shares the slot |
| PageTree.SetHugeWalk | src/kernel/vmm.c:178-183 | writing a 2 MiB entry changes exactly the 512 pages under it |
| AddressSpaces.CreateAddressSpace | src/kernel/vmm.c:23-37 | a new root sees the kernel slot and nothing else; 0 exactly when no frame is left; no other translation changes |
| AddressSpaces.CloneAddressSpace | src/kernel/vmm.c:81-141 | the four nested loops are a run of the machine after which the child shows exactly an eager copy of the parent, made at once, and the tables again represent the machine |
| AddressSpaces.ClonePt | src/kernel/vmm.c:114-129 | the innermost loop shares the pages of one page table, nothing visible changing |
| AddressSpaces.CopyPage | src/kernel/vmm.c:115-127 | one page: both entries become copy-on-write and the count goes up, as three steps of the machine |
| SpaceBuilding.NewUserSpace | src/kernel/vmm.c:23-37 | creating a space is the machine's step that adds one: programs see what they saw, and the space is ready to be filled or run |
| SpaceBuilding.MapUserPage | src/kernel/vmm.c:171-191 | allocating a frame, mapping it into a space nobody works on and filling it is a run of the machine, and what programs see is exactly the new page |
| BootTables.BootWalk | src/boot/main.asm:88-116 | the boot code's tables map the first four gigabytes to themselves with 2 MiB entries, and nothing else |
| BootTables.BootRepresents | src/boot/main.asm:88-116 | those tables represent the machine's first state |
| BootTables.FirstProgram | src/kernel/vmm.c:15-37 | from them a space with one page is reached by a run of the machine; the program sees that page and nothing else, and the space can be run, cloned, faulted on and destroyed |
| BootTables.UnmappedOffset | src/kernel/vmm.c:244-259 | a page mapped and unmapped: the address 8 bytes into it translates to 8 |
| BootTables.SkippedUnmap | src/kernel/vmm.c:228-242 | two pages unmapped where the global root has a 2 MiB entry: the second one stays mapped |
| PageFault.Resolve | src/kernel/idt.c:136-163 | on any tables: a copy-on-write page ends up on the frame the allocator returned if its own was shared, with that frame's bytes, and else on its own; every other translation is as before |
| PageFault.HandlePageFault | src/kernel/idt.c:129-162 | the handler splits or reclaims the page exactly as the machine's fault does, unseen by any program; other faults change nothing; if a copy is needed and no frame is free, and only then, the page ends up on frame 0 and no state of the machine is represented |
| PageFault.UserStore | src/kernel/idt.c:129-162 | a store through a writable entry or after the fault is the eager specification's store; it succeeds exactly if the program may write the page; without a frame for a copy, and only then, the byte lands in frame 0 |
| PageFault.TwoSplits | src/kernel/idt.c:143-155 | two pages split without a free frame: both are on frame 0, and the first one reads what the second one held |
| SpaceDestroy.DestroyPt | src/kernel/vmm.c:151-158 | the innermost loop gives up each leaf frame of one table and then the table, once each |
| SpaceDestroy.DestroyAddressSpace | src/kernel/vmm.c:143-169 | every leaf and table of the space is given up once, the space vanishes from view, no other space's entries or tables change |
| SpaceDestroy.EndUnique | src/kernel/vmm.c:152-167 | the loops free different tables at different moments |
| CloneDestroy.CloneThenDestroy | src/kernel/vmm.c:81-169 | cloning and destroying the clone restores every reference count, the set of free frames and every program's view |
| TableRace.StepInv | src/kernel/vmm.c:57-79 | every step of any number of racing calls, and of other code using the allocator, keeps: each referenced frame is used elsewhere, installed, or in exactly one hand |
| TableRace.StartIff | src/kernel/vmm.c:57-60 | the race can begin in exactly the states where counts agree with the frames in use and the slot, if filled, holds no null pointer |
| TableRace.Outcome | src/kernel/vmm.c:57-79 | when all calls have returned exactly one zeroed table is installed or every call found no frame; every non-NULL result is the table; exactly the installed frame was consumed |
| TableRace.CallBounded | src/kernel/vmm.c:57-79 | a call takes at most 516 steps of its own whatever the others do |
| TableRace.Progress | src/kernel/vmm.c:57-79 | a call that has not returned can always take a step that brings it closer to returning |
| Frames.TakeValid | src/kernel/pmm.c:103-115 | allocation hands out a frame that nobody references, is not null, and is not free afterwards |
| Frames.DropValid | src/kernel/pmm.c:117-138 | giving up a reference keeps the stack free of duplicates and exactly the unreferenced frames on it |
| FrameAllocator.Init | src/kernel/pmm.c:33-97 | after initialization the stack holds, ascending, exactly the frames the loop visits for some available region outside the kernel image and the boot information |
| FrameAllocator.RegionExactIff | src/kernel/pmm.c:54-62 | the loop visits only frames inside the region exactly if it starts and ends on page boundaries |
| FrameAllocator.RegionCoveredIff | src/kernel/pmm.c:54-62 | it visits all frames of the region exactly if the end lies no further into a page than the start |
| FrameAllocator.FreeUsableIff | src/kernel/pmm.c:33-97 | every byte of every free frame is available memory exactly if that holds of the frames at the two ends of each region |
| FrameAllocator.AlignedUsable | src/kernel/pmm.c:33-97 | so it holds for all maps of page-aligned regions |
| FrameAllocator.RegionEndFreed | src/kernel/pmm.c:54-62 | memory ending 3 KiB into a page, above a kernel that ends at 16 MiB: that frame is free though its last kilobyte is not available |
| FrameAllocator.Pmm.AllocFrame | src/kernel/pmm.c:103-115 | the arrays take the abstract allocator's step; 0 exactly when no frame is left |
| FrameAllocator.Pmm.FreeFrame | src/kernel/pmm.c:117-138 | the arrays take the abstract step; unreferenced or unmanaged frames are ignored |
| FrameAllocator.Pmm.RefInc | src/kernel/pmm.c:140-147 | one more reference on a frame in use |
| FrameAllocator.Pmm.GetRef | src/kernel/pmm.c:149-155 | the reference count of a managed frame, 0 for all others |
| FrameAllocator.Pmm.GetFreeCount | src/kernel/pmm.c:157-162 | the stack's height is the number of clear bits |
| FrameAllocator.AbstractValid | src/kernel/pmm.c:103-138 | arrays that agree frame by frame stand for a valid abstract allocator |
| FrameAllocator.TakeAgrees | src/kernel/pmm.c:109-112 | popping, setting the bit and setting the count to 1 keeps bitmap, stack and counts in agreement |
| FrameAllocator.FreeAgrees | src/kernel/pmm.c:127-135 | clearing the bit and pushing at the last reference keeps the agreement, and the stack has room |
| FrameAllocator.KernelReserved | src/kernel/pmm.c:65-69 | no frame holding a byte of the kernel image is ever free |
| FrameAllocator.InfoReservedIff | src/kernel/pmm.c:71-74 | every page of the boot information is reserved exactly if it ends no further into a page than it starts, or the kernel image reaches into its last page |
| FrameAllocator.InfoSafeIff | src/kernel/pmm.c:33-97 | no page of it is ever free exactly if, besides, its last page is not available memory |
| FrameAllocator.InfoEndLost | src/kernel/pmm.c:33-97 | two pages of information starting 8 bytes into the page at 32 MiB, above a kernel that ends at 16 MiB: the frame of the last byte is free |
| FrameAllocator.SetBit | src/kernel/pmm.c:21-23 | setting a frame's bit changes that frame's bit alone |
| FrameAllocator.ClearBit | src/kernel/pmm.c:25-27 | clearing a frame's bit changes that frame's bit alone |
| RunQueues.RunQueue.Enqueue | src/kernel/task.c:28-40 | the task is appended; links, tail and count stay those of the list |
| RunQueues.RunQueue.Dequeue | src/kernel/task.c:42-55 | the first task leaves, or NULL from an empty queue; tail and count follow |
| Scheduler.StepInv | src/kernel/task.c:319-388 | every lock section of every CPU keeps: each task is where the record says and nowhere else, queued tasks are ready and not idle |
| Scheduler.StealInv | src/kernel/task.c:319-335 | stealing moves the head of another queue into the thief's hand and nothing else |
| Scheduler.SaveInv | src/kernel/task.c:344-350 | requeueing the outgoing task before choosing the next keeps it in exactly one place |
| SchedulerRuns.BootInv | src/kernel/task.c:81-110 | CPUs running their idle tasks with empty queues satisfy the invariant |
| SchedulerRuns.OnePlace | src/kernel/task.c:337-388 | every live task is in exactly one of a queue, one CPU's hand, current on one CPU outside the selection, or its creator's hands; once if in a queue; running exactly if current |
| SchedulerRuns.NeverLost | src/kernel/task.c:337-388 | over every run a task stays live and in exactly one place until it exits itself |
| SchedulerRuns.QueuedReady | src/kernel/task.c:28-40 | queued tasks are ready, not idle, and carry their queue's CPU number |
| SchedulerRuns.OnlyReadyInHand | src/kernel/task.c:363-375 | a dequeued task is always ready: the reaping and requeueing branches are unreachable |
| SchedulerRuns.DispatchBounded | src/kernel/task.c:352-376 | one call of `task_schedule` takes at most four steps more than there are CPUs, whatever the others do: the selection loop ends |
| SchedulerRuns.NextStep | src/kernel/task.c:337-388 | a CPU inside `task_schedule` is never stuck |
| SchedulerRuns.BoundedWaiting | src/kernel/task.c:441-478 | a ready task with k tasks before it sees at most 4 * (k + 1) timer interrupts of its CPU before it leaves the queue; with the last it is at the head of a CPU about to choose |
| SchedulerRuns.LeavesToRun | src/kernel/task.c:319-388 | a task leaves a queue only into a CPU's hand, and that CPU's next step runs it with a full timeslice |
| SchedulerCode.Kernel.TaskSchedule | src/kernel/task.c:337-388 | the code is a run of its CPU's steps and ends in the one state where the outgoing task is queued if it can go on and the CPU runs the head of its queue, else of the first other non-empty queue, else the idle task |
| SchedulerCode.Kernel.TaskSteal | src/kernel/task.c:319-335 | the head of the first non-empty queue of another CPU leaves it, and nothing else changes; nothing if all are empty |
| SchedulerCode.Kernel.TimerTick | src/kernel/task.c:441-478 | the timeslice goes down and a reschedule is asked for exactly when it is used up, the task is over, or an idle CPU has work |
| SchedulerCode.Kernel.TimerInterrupt | src/kernel/idt.c:240-244 | the state after the tick, and after `task_schedule` exactly if the tick asked for it |
| SchedulerCode.Kernel.PickLeastLoadedCpu | src/kernel/task.c:57-79 | the first CPU with the smallest load |
| HeapBlocks.Canonical | src/kernel/kmalloc.c:41-110 | a heap without free neighbours is determined by its used blocks alone |
| HeapBlocks.Disjoint | src/kernel/kmalloc.c:41-76 | payloads are disjoint and contain no part of any header |
| HeapBlocks.RoundCovers | src/kernel/kmalloc.c:44 | rounding covers the request exactly if it is not one of the seven largest sizes, which wrap to 0 |
| HeapBlocks.WrappedRequest | src/kernel/kmalloc.c:44-60 | a request for 2^64 - 1 bytes gets the first free block, whatever its size, cut down to 0 bytes if it can be split |
| HeapLaws.AllocatedOk | src/kernel/kmalloc.c:48-60 | splitting keeps the tiling and leaves no free neighbours |
| HeapLaws.AllocatedUsed | src/kernel/kmalloc.c:48-64 | allocation adds exactly one used block, with its size counted |
| HeapLaws.CoalescedOk | src/kernel/kmalloc.c:99-108 | joining neighbours keeps the extent and leaves no two free neighbours |
| HeapLaws.CoalescedUsed | src/kernel/kmalloc.c:99-108 | joining neighbours changes no used block and neither sum |
| HeapLaws.FreedOk | src/kernel/kmalloc.c:78-110 | freeing removes exactly the block from the used ones and keeps the tiling |
| HeapLaws.FreeUndoesAlloc | src/kernel/kmalloc.c:41-110 | freeing what was just allocated gives the very same block list back |
| HeapLaws.FreeOrder | src/kernel/kmalloc.c:78-110 | the order in which blocks are freed does not matter |
| HeapLaws.FreeAllRestores | src/kernel/kmalloc.c:29-36 | freeing every live allocation, in any order, restores the single initial block |
| HeapLaws.FailsIff | src/kernel/kmalloc.c:46-75 | a request fails exactly when the largest free block is smaller than the rounded request, or nothing is free at all |
| HeapLaws.FailsOnNothing | src/kernel/kmalloc.c:46-75 | a full heap refuses a request of size 0 though 0 is not more than the largest free block |
| Heap.KernelHeap.Kmalloc | src/kernel/kmalloc.c:41-76 | on the heap's words: the first block that fits, split as the list function says, statistics equal to the sums, no live payload touched |
| Heap.KernelHeap.Kfree | src/kernel/kmalloc.c:78-110 | on the heap's words: the block freed and the whole list coalesced, other pointers ignored, the clamps never needed, no live payload touched |
| Heap.KernelHeap.KmallocGetStats | src/kernel/kmalloc.c:112-135 | free bytes and largest block as the list has them; used, free and header bytes add up to the heap |
| Heap.KernelHeap.Store | src/kernel/kmalloc.c:67 | whatever an owner writes to its payload, the heap stays intact |
| Heap.JoinCoalesces | src/kernel/kmalloc.c:101-107 | one round of the merging loop is one step of coalescing |
| Rects.Union | src/kernel/window.c:49-55 | every point of either rectangle is in the union |
| Rects.UnionTight | src/kernel/window.c:49-55 | no smaller rectangle contains both |
| Rects.Intersect | src/kernel/window.c:57-70 | exactly the common points, and nothing exactly if there are none |
| Graphics.Screen.ClipRect | src/kernel/graphics.c:14-27 | the on-screen points of the rectangle, and whether there are any |
| Graphics.Screen.PutPixel | src/kernel/graphics.c:176-180 | one pixel changes, or none off the screen |
| Graphics.Screen.DrawRect | src/kernel/graphics.c:215-223 | exactly the rectangle's on-screen pixels get the colour |
| Graphics.Screen.ClearRect | src/kernel/graphics.c:200-213 | exactly the rectangle's on-screen pixels get the colour, row by row |
| Graphics.Screen.DrawCursor | src/kernel/graphics.c:182-190 | exactly the arrow's on-screen pixels become white |
| Graphics.Screen.SwapRects | src/kernel/graphics.c:160-174 | the framebuffer shows the backbuffer on the union of the rectangles and every other byte is unchanged, for any pitch of at least four bytes a pixel |
| Graphics.Synced | src/kernel/graphics.c:160-174 | each pixel's four bytes are the backbuffer's inside the rectangles and as before outside |
| Graphics.AtUnique | src/kernel/graphics.c:179 | different pixels have different indices |
| Compositor.DrawWindowClipped | src/kernel/window.c:226-239 | inside the clip each pixel becomes what the window shows there, layers in order; outside nothing changes |
| Compositor.DrawWindowBufferClipped | src/kernel/window.c:197-224 | the visible part of the client area, from the buffer or in the background colour |
| Compositor.RedrawAll | src/kernel/window.c:577-583 | painting back to front leaves, on the union of the dirty rectangles, exactly the picture read front to back, and every other pixel unchanged |
| Compositor.Layers | src/kernel/window.c:226-239 | the seven layers painted one over the other are what the window shows |
| Damage.OuterCovers | src/kernel/window.c:72-77 | the outer rectangle covers all a window shows exactly if the window is at least 1 wide and 20 high, or empty |
| Damage.QueuedGrows | src/kernel/window.c:164-183 | without overflow nothing dirty is forgotten and the new rectangle is covered |
| Damage.QueuedGrowsIff | src/kernel/window.c:181-182 | nothing is forgotten exactly if the list does not overflow or the kept rectangle covers the rest |
| Damage.OverflowForgets | src/kernel/window.c:181-182 | thirty-two one-pixel rectangles and one more: a dirty pixel is forgotten |
| Damage.PictureRemove | src/kernel/window.c:394-422 | removing a window changes no pixel where it did not show |
| Damage.PictureReplace | src/kernel/window.c:508-514 | changing a window changes no pixel where both show the same |
| Desktop.Desktop.QueueDirty | src/kernel/window.c:164-183 | the list function's result; unless it overflows nothing dirty is forgotten and the new rectangle is covered |
| Desktop.Desktop.Create | src/kernel/window.c:269-292 | the window is in front and exactly its outer rectangle is marked; what is not dirty stays right unless the list overflows or the window is the 17th or too small |
| Desktop.Desktop.SetOwner | src/kernel/window.c:342-350 | exactly the window's owner changes, and nothing shown |
| Desktop.Desktop.SetBuffer | src/kernel/window.c:352-362 | the window shows the buffer and exactly its outer rectangle is marked; what is not dirty stays right unless the list overflows |
| Desktop.Desktop.Paint | src/kernel/window.c:302-312 | marking the changed region covers what a change of the buffer inside it shows |
| Desktop.Desktop.DestroyByPid | src/kernel/window.c:394-422 | exactly the process's windows go, their rectangles are marked in list order, dragging stops if its window goes, and what is not dirty stays right unless the list overflows |
| Desktop.Desktop.StartCursor | src/kernel/window.c:447-478 | the first update keeps right what is not dirty exactly if no pixel of a cursor already drawn is left behind; none is if nothing was drawn before |
| Desktop.Desktop.WindowUpdate | src/kernel/window.c:424-550 | the cursor follows the mouse; a press on the frontmost title bar raises and grabs, holding drags, releasing lets go; exactly the start, mouse and move rectangles are marked, in that order, and what is not dirty stays right |
| Desktop.Desktop.FindWindowHit | src/kernel/window.c:132-162 | the frontmost window under the mouse, and whether its title bar is hit |
| Desktop.Desktop.DrawAll | src/kernel/window.c:552-597 | every dirty pixel shows the desktop on the screen, every other byte is unchanged, and the whole screen shows up to 16 windows right exactly if what was not dirty did so before |
| Desktop.Desktop.Frame | src/kernel/main.c:139-140 | an update and a redraw: the first round shows the whole desktop whatever was done before it, and every later one does so again unless dirty rectangles were forgotten |
| Desktop.WholeStays | src/kernel/window.c:164-183 | while the whole screen is one dirty rectangle the list absorbs every other and never overflows |
| Desktop.StaleIff | src/kernel/window.c:447-478 | another cursor position without marking the old one: what is not dirty is right exactly if the old arrow's pixels there are covered by the new one or white anyway |
| Desktop.DrawnTooEarly | src/kernel/window.c:447-478 | a redraw and then the first update with the mouse at (20, 0): the pixel in the corner stays white and is not dirty, though the desktop's colour belongs there |
| Desktop.Inserted | src/kernel/window.c:286-289 | pixels that are not dirty after creation show what they showed |
| Desktop.MovedTo | src/kernel/window.c:508-514 | old and new outer rectangle together cover a move |
| Desktop.Fronted | src/kernel/window.c:484-497 | the outer rectangle covers raising a window |
| WindowLifetime.StepInv | src/kernel/window.c:93-130 | every locked section, the change of a window's owner among them, keeps: the list holds exactly the windows not destroyed, the count is the number of holders, freed once exactly when destroyed and unheld |
| WindowLifetime.EndUpdateInv | src/kernel/window.c:474-549 | raising, dragging and releasing in one section, with a window found in an old snapshot, keep it |
| WindowLifetime.DestroyByPidInv | src/kernel/window.c:394-422 | destroying windows other CPUs hold keeps it |
| WindowLifetime.NotFreed | src/kernel/window.c:93-130 | over every run a window that is held, listed or dragged is not freed |
| WindowLifetime.FreedOnce | src/kernel/window.c:98-105 | over every run a window is freed at most once and stays freed |
| WindowLifetime.AllFreed | src/kernel/window.c:412-416 | over every run a window is freed exactly when destroyed and held by nobody |
| ElfImage.SharedRight | src/kernel/core/elf.c:30-74 | sharing pages, every byte of every segment is what it wants as soon as the segments' bytes are disjoint |
| ElfImage.SharedWritableIff | src/kernel/core/elf.c:36-46 | a shared page is writable exactly if some segment on it is |
| ElfImage.FreshRightIff | src/kernel/elf.c:33-58 | with a fresh frame per page a byte survives exactly if no later segment touches its page, or it is zero anyway |
| ElfImage.FreshRight | src/kernel/elf.c:33-58 | segments on pages of their own are loaded right |
| ElfImage.SharedPageLost | src/kernel/elf.c:33-58 | two segments with disjoint bytes on one page: the first one's byte reads zero |
| ElfLoad.CopiedIs | src/kernel/elf.c:41-57 | what the loop copies into a page are the segment's file bytes on it and no others |
| ElfLoad.LoadFresh | src/kernel/elf.c:6-64 | rejects a wrong magic; else every touched page is on a frame of its own, with the bytes and write permission of the last segment on it, if and only if none lies under a 2 MiB entry of the kernel slot that is not for physical 0; and the program can use all of them if and only if, besides, every entry of that slot that leads to them has the user bit; everything else then translates and reads as before, except that other pages under a 2 MiB entry for physical 0 are gone, and one frame is taken per page of each segment and per table |
| ElfLoad.LoadShared | src/kernel/core/elf.c:7-79 | rejects a wrong magic; else every touched page is on a frame of its own, with every segment's file bytes and merged write permission, if and only if none is mapped in the kernel slot at all; and the program can use all of them if and only if, besides, every entry of that slot that leads to them has the user bit; then everything else is as before, and one frame is taken per mapped page and per table |
| ElfLoad.UserIff | src/kernel/vmm.c:57-79 | user code gets through to a page of the new space exactly if it does through what the space inherited, for existing entries keep their flags and new ones have the user bit |
| ElfLoad.BootPlaced | src/boot/main.asm:106-115 | on the boot code's tables all pages get frames of their own exactly if none lies below four gigabytes, the first loader not counting the first two megabytes |
| ElfLoad.LoadableIff | src/boot/main.asm:90-92 | on the boot code's tables both conditions hold exactly of programs without a page below 512 GiB |
| ElfLoad.PageAt8GiB | src/boot/main.asm:90-92 | a page at 8 GiB gets its frame from both loaders, and user code does not get through to it |
| ElfLoad.ShellAt4MiB | src/apps/shell/linker.ld:1 | a program with a byte at 0x400000 meets neither |
| ElfLoad.LoadShell | src/kernel/elf.c:6-64 | loading such a program from the boot state leaves it wrong |
| ElfLoad.LoadLow | src/kernel/elf.c:6-64 | loading a program of one page at 4 KiB from the boot state places it, and every other page of the first 2 MiB is gone from every space |
| ElfLoad.SharedImage | src/kernel/core/elf.c:7-79 | loaded right, the program can read byte k of every segment, and finds the file's byte, or zero past the file part |
| ElfLoad.FreshImage | src/kernel/elf.c:6-64 | loaded right, so it can for segments whose pages no other segment touches |
| DiskImage.OctalMod | src/kernel/tar.c:37-45 | the size field is read as its octal value modulo 2^32 |
| FileMachine.StepInv | src/kernel/vfs.c:22-122 | every lock section, sector transfer and cache assignment of any CPU keeps descriptors inside their files and jobs inside their sectors |
| FileMachine.ClaimsConsecutive | src/kernel/vfs.c:59-62 | over every run, whoever reads or writes: two claims on an open descriptor are disjoint, the later one comes after the earlier one inside the same file, and directly after it if there is none in between |
| FileMachine.ReadSees | src/kernel/vfs.c:65-84 | over every run a read returns as many of the next bytes as were asked for and left, each one that the disk held at its place after the claim |
| FileMachine.ReadSlice | src/kernel/vfs.c:65-84 | if nobody writes to the claimed stretch meanwhile, that is the stretch as it was at the claim |
| FileMachine.WriteCountIff | src/kernel/vfs.c:97-99 | a write stays in the file exactly if offset plus count does not wrap around to something inside it |
| FileMachine.WriteWraps | src/kernel/vfs.c:97-99 | at byte 300 of a file of 600 bytes, a write of 2^32 - 50 bytes: all of them are written, past the end of the file |
| CacheRace.StepCoherentIff | src/kernel/tar.c:17-35 | which steps keep a coherent cache coherent, exactly: naming a sector keeps it if the data are that sector's, filling it if the named sector has the same bytes, and so on |
| CacheRace.ExclusiveCoherent | src/kernel/tar.c:17-35 | over every run without two CPUs in these functions at once every lookup returns the disk's bytes and the cache is coherent whenever nobody is in them |
| CacheRace.WrongHitIff | src/kernel/tar.c:17-27 | a lookup between another one's filling and naming of the cache returns wrong bytes exactly if the two sectors differ |
| CacheRace.StaysWrongIff | src/kernel/tar.c:17-27 | two lookups that miss at once can both return and leave the cache holding one sector under the other's number, wrong exactly if the two sectors differ |
| CacheRace.NoLostUpdate | src/kernel/vfs.c:114-116 | over every run in which nobody writes the sector back between a writer's read and its own write, the sector still is what the writer read |
| CacheRace.UpdateKeepsIff | src/kernel/vfs.c:114-116 | over every run, a writer that reads a sector and later writes it back puts its bytes there, and changes no other byte of the disk exactly if no other byte of the sector has changed in between |
| CacheRace.LostUpdateIff | src/kernel/vfs.c:108-120 | two one-byte writes on one descriptor, both sectors read before either is written: the first byte is on the disk in the end exactly if it was there before |
| FileCalls.ReadAlone | src/kernel/vfs.c:45-85 | a read that nobody interrupts is a run of the machine that ends with exactly the next bytes of the file |
| FileCalls.WriteAlone | src/kernel/vfs.c:87-122 | so is a write, ending with the bytes stored sector by sector |
| FileCalls.StoredSplice | src/kernel/vfs.c:105-120 | storing them sector by sector splices them into the disk and changes no other byte |
| Files.Vfs.CachedReadSector | src/kernel/tar.c:17-27 | a run of the machine by one CPU alone: the sector's bytes, and the cache holds the sector it names |
| Files.Vfs.CachedWriteSector | src/kernel/tar.c:29-35 | the sector is written, no other one changes, and the cache holds it under its number |
| Files.Vfs.OctalToInt | src/kernel/tar.c:37-45 | the value of the leading octal digits, at most eleven |
| Files.Vfs.TarFindFile | src/kernel/tar.c:53-77 | ends, and finds the first entry the enumeration lists under the name, or nothing if there is none |
| Files.Vfs.TarGetFileByIndex | src/kernel/tar.c:79-103 | the name of that entry of the enumeration, or nothing past its end |
| Files.Vfs.OpenFile | src/kernel/vfs.c:22-43 | the first free descriptor at the start of the first entry of that name, or -1 exactly if there is none or all are in use |
| Files.Vfs.Read | src/kernel/vfs.c:45-85 | a run of the machine by one CPU alone: exactly the next bytes of the file, as many as asked for and left; only this descriptor's offset moves |
| Files.Vfs.Write | src/kernel/vfs.c:87-122 | a run of the machine by one CPU alone: the bytes are stored from the file's position on, in 32-bit arithmetic, and no other disk byte or descriptor changes; unless offset plus count wraps into the file they are spliced into it |
| Files.Vfs.Close | src/kernel/vfs.c:131-137 | the descriptor is free and no other changes |
| Checksum.NetChecksum | src/kernel/net.c:73-80 | the loop computes the complement of the folded sum modulo 2^32, which is the right checksum for every buffer of up to 131074 bytes and beyond that exactly if the lost carries are a multiple of 65535 in number and something is left |
| Checksum.TcpChecksum | src/kernel/net.c:305-318 | the two loops in line give the checksum of pseudo-header followed by segment, for even and odd lengths |
| Checksum.NoOverflow | src/kernel/net.c:74-77 | up to 131074 bytes the accumulator does not overflow |
| Checksum.Overflow | src/kernel/net.c:74-77 | one byte more of ones overflows it |
| Checksum.WrappedFoldIff | src/kernel/net.c:73-80 | a sum that wrapped around folds to the right value exactly if the multiples of 2^32 lost are a multiple of 65535 in number, and not all of a sum above 0 was lost |
| Checksum.FoldIs | src/kernel/net.c:78 | folding keeps the sum modulo 65535, ends below 65536, and gives 0 only for 0 |
| Checksum.Verifies | src/kernel/net.c:73-80 | a block with its checksum stored in it sums to 0xFFFF and has checksum 0 (section 1 of RFC 1071) |
| Checksum.OrderFree | src/kernel/net.c:305-314 | blocks of even length can be summed in any order (section 2 of RFC 1071) |
| Formatter.DigitsValue | src/kernel/printf.c:17-30 | the digits of a number read back as the number |
| Formatter.DigitsFit | src/kernel/printf.c:17-30 | a 64-bit number has between 1 and 64 digits in any base |
| Formatter.ReverseInPlace | src/kernel/printf.c:6-14 | the string backwards, in place |
| Formatter.Itoa | src/kernel/printf.c:16-31 | the digits, most significant first, and a terminating zero |
| Formatter.Vsnprintf | src/kernel/printf.c:33-105 | exactly the first size - 1 characters of the unbounded expansion and a terminating zero; the rest of the buffer is untouched |

## Left out

- Hardware: port I/O, MSRs, CR3 and TLB maintenance, the APIC, disks as devices, interrupts on entry to locked sections. The disk is a total map of sectors, `memcpy` and `memset` move whole ranges, a spinlock makes its section one step.
- Huge pages in cloning, destroying and faults: those methods ask for address spaces without 2 MiB entries above the kernel slot, because `vmm_destroy_address_space` walks a huge entry as a table, the cloner counts only its first frame and the fault handler copies only 4096 bytes. The only caller that maps such entries does so in the kernel's own root (src/kernel/graphics.c:47).
- CowRefinement.RunRefines: the machine has no step that splits or clones without a free frame; what the code does then is in `PageFault.HandlePageFault` for the split and left out for the clone.
- CowRefinement.RunRefines, CowRefinement.Isolation: of the stores the kernel makes in ring 0 only those are steps that concern no other page (`CowRefinement.KernelStoreIff` says which); after any other one the programs' views have nothing of the specification to refine.
- PageTables.Vmm.Map: when a page lies under a 2 MiB entry that is not for physical 0, asks that the memory that entry maps holds no page table, because the code writes the new entry into that memory. PageRanges.MapRange: the same for the pages it maps one by one.
- AddressSpaces.CloneAddressSpace: asks for a free frame for each table of the parent; without it the code writes through a null table.
- SpaceBuilding.MapUserPage: asks for enough frames, and for a page that was not mapped.
- Isolation below PML4 index 0: that slot is shared by construction, so the theorems are about pages above it; for the slot itself `PageTables` shows that every root sees the same.
- The bytes of frames in use as page tables: the model keeps entries and data bytes in separate maps, and no frame is both.
- Address spaces shared by several tasks at once, and kernel heap frames mapped into user space by window buffers.
- The task structures themselves: stacks, register frames, `rsp`, and the return value of fork; one kernel stack is not shown to be used by one CPU at a time.
- Adding CPUs while the scheduler is running: the number of CPUs is arbitrary but fixed. CPU index and APIC number are identified, and tick statistics are left out.
- FrameAllocator.Pmm.RefInc: asks that the frame is in use and its 32-bit count below the maximum; on other frames a later free would push a reserved frame.
- FrameAllocator.Pmm.FreeFrame: asks for a page-aligned address, because the code pushes the address as it is.
- The Multiboot2 tag list and ELF structures as bytes: both are modelled already parsed. The boot information and the kernel are taken to lie below 4 GiB.
- The frames `kmalloc_init` takes from the frame allocator: the heap's memory is taken as given.
- Heap headers are modelled as three 8-byte cells; the padding next to the 4-byte `is_free` is not. Allocation and free counters do not wrap.
- Rectangle coordinates do not overflow 32 bits.
- `window_set_owner` on a window that has been freed.
- Window events and event queues, `window_get_by_id` with its unretained result, and interleavings inside one window update: `Desktop` runs each call to its end, while `WindowLifetime` has the interleavings without the pixels.
- Desktop.Desktop.WindowUpdate: what is not dirty stays right only if there are at most 16 windows and none is too small, because the code draws no more and marks no more; that is part of `UpToDate`.
- ElfLoad.LoadFresh: asks for enough frames and a file that holds every file part, which the code does not check; for pages below 2^48; and that the memory under 2 MiB entries over the program's pages, except those for physical 0, holds no page table, now or later, because the code writes entries into it.
- ElfLoad.LoadShared: asks for the first three, and that the frames the kernel slot names at the program's pages are in use and hold data.
- Sector transfers are one step each; what a disk does with two transfers at once is not modelled, nor is a file opened in the machine by its name (`Files.Vfs.OpenFile` looks names up).
- Disk addresses do not wrap around 32 bits, and a file name in a TAR header ends within the header's sector.
- Formatter.Vsnprintf: asks for a buffer of at least one character, arguments that suit the directives, no lone `%` at the end and not the smallest 64-bit integer.
- TCP, DHCP, the shell, keyboard, mouse, logging, tracing, the dashboard and ext2: thin code, or easier forms of the properties above.
