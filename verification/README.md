# Verified model of the kernel's hard core

A Dafny project about the parts of this teaching kernel where a mistake costs most: the boundary-tag heap and its
user-space relative, physical frames and page tables with fork, blocking synchronisation on several cores, layered
ext2 reads, the formatter, the stack that exec builds, and the random generator.

`dafny verify dfyconfig.toml` checks everything. Where the source updates state in place there is a class or a
method with the same fields, branches and loops, proved against a specification; what the source promises is then
proved about the specification, for all inputs or all runs.

## How it is laid out

* **Heap.** `HeapModel` is the heap as a value: signed block sizes by header, and the free list. `HeapTheorems` has
  what holds over every run of calls. `HeapWords` says how words, headers, footers and links spell out such a value,
  and `Heap` (module `BoundaryTagHeap`) is the allocator on one array, with both search strategies and `realloc`.
  `WordBytes` relates words and bytes.
* **Address spaces.** `FrameModel` is memory as frames of 1024 words with a role for each frame, and the invariant that
  ties roles to words. `FrameSteps`, `TableSteps`, `LowSteps` and `SpaceSteps` prove the small steps, `SpaceModel`
  says what a space shows to its process, `SpaceLoops` what the loops have done so far, `AddressSpaces` is the
  imperative code, and `SpaceTheorems` has conservation and fork.
* **Threads.** `Queues`, `Semaphores` and `Barriers` hold the critical sections as values and as classes that keep
  to them. `SemaphoreRuns`, `BarrierRuns`, `BatonBarriers`, `BufferRuns` and `SchedulerRuns` (over `Scheduler`) are
  step machines: any number of threads, a step wherever the source can be interleaved, and theorems over every
  schedule. The steps of a barrier's critical section add up to what the class does; a semaphore's downs and ups
  are shown to look like single steps, and are single steps in the barrier and the buffer built on them.
  `SchedulerMoves` says what whole moves of the scheduler come to. `BoundedBuffers` is the ring, `Pipes` the byte pipe, `Sums` adds up what threads contribute.
* **Files.** `BlockReads` has block and byte reads of the disk and of i-nodes on it, `Ext2` directories, i-nodes and
  paths, `CStrings` zero-terminated strings.
* **Output.** `IntFormat` is the formatted integer and its reader, `FormatGrammar` format strings as a grammar,
  `FormatText` writes format strings that parse back, `FormatStates` is what the state machine's variables mean,
  `Printer` the code.
* **Facts about sequences.** `Sequences`. **Start of programs.** `ExecStack`. **Random numbers.** `RandomNumbers`.

Notes where code and comments or expectations differ; the model follows the code:

* A heap request so large that rounding it up wraps in 32 bits is granted and too small; `PayloadHoldsRequestIff`
  gives the exact condition, and `WrappedRequestGranted` a request that every fresh heap grants.
* User `realloc` copies up to the size of the whole old block, two words more than its payload, and frees the old
  block even when the new one could not be had (`ReallocKeeps`). On a size that wraps, the copy can leave the new
  payload; `CopyFitsIff` gives the exact condition, and `CopyOverruns` a call that breaks it.
* Looking a path up reads the directories on the path and the i-nodes named there; nothing is asked of other i-nodes,
  such as short symbolic links kept in the i-node itself, which have no blocks to read.
* The table of a row that holds an APIC page is made for that page, so its directory entry is for the kernel only: a
  process can never reach its own pages in those 4 MB (`ReachesOwnPages`, `OutOfReach`).
* The bounded buffer puts an item in the right slot for every size up to 2^31 and not beyond (`SlotExactIff`).
* The generator gets stuck for two seeds only (`Random.constructor`, `NeverStuck`).
* The free list of frames, the zero word in its last frame, and table entries are kept as the numbers the machine
  would see: frame numbers times 4096, plus low bits 3 or 7 in entries.

Where the kernel panics for want of memory the methods return `ok == false`, and their contracts say that memory is
then exhausted. Waiting for a spin lock is a step that changes nothing.

## Model

| member | source | states |
|---|---|---|
| `HeapModel.WordsFor` | kernel/heap.cc:145-146 | the block size for a request is the least number of words, at least 4, that holds it beside the two tags |
| `HeapModel.Asked` | kernel/heap.cc:145-145 | what room is made for is the request itself, or nothing when rounding it up wraps |
| `HeapModel.InitWellFormed` | kernel/heap.cc:126-136 | a new heap is tiled by one available block between two taken sentinels |
| `HeapModel.BestFitIsEarliestSmallest` | kernel/heap.cc:152-174 | the search picks the earliest smallest of the first at most 20 blocks in list order that fit, and none exactly if none fits |
| `HeapModel.SmallestIsEarliestLeast` | kernel/heap.cc:164-168 | keeping a strictly smaller block on the way finds the first least one |
| `HeapModel.CarveWellFormed` | kernel/heap.cc:177-184 | handing out a block, split or whole, keeps tiling, coalescing and the list |
| `HeapModel.FreeWellFormed` | kernel/heap.cc:205-221 | merging with both neighbours keeps tiling, coalescing and the list |
| `HeapModel.MergedSpan` | kernel/heap.cc:205-219 | the merged block runs from the header of an available left neighbour to the end of an available right one |
| `HeapModel.FirstFitUsable` | nikshita.dir/sbin/heap.c:132-156 | the first block that fits is available and large enough |
| `HeapModel.MallocFirstKeeps` | nikshita.dir/sbin/heap.c:125-161 | user malloc adds exactly one live block, new, which holds the request and would not with 4 words fewer, and keeps all others; null changes nothing |
| `HeapTheorems.MallocKeeps` | kernel/heap.cc:140-189 | malloc adds exactly one live block, which holds the request and would not with 4 words fewer, and keeps all others; null changes nothing |
| `HeapTheorems.NothingAsked` | kernel/heap.cc:142-142 | a request for no bytes gives the heap's own address and changes nothing |
| `HeapTheorems.MallocPicks` | kernel/heap.cc:152-184 | malloc hands out the earliest smallest of the first 20 listed blocks, at most, that hold the request; the others keep their order and a remainder goes in front |
| `HeapTheorems.MallocFirstPicks` | nikshita.dir/sbin/heap.c:132-156 | user malloc hands out the first listed block that holds the request |
| `HeapTheorems.PayloadHoldsRequestIff` | kernel/heap.cc:145-146 | a granted block holds the request exactly if bytes + 3 does not wrap |
| `HeapTheorems.WrappedRequestGranted` | kernel/heap.cc:145-146 | a fresh heap, however small, grants a request of 2^32 - 3 bytes |
| `HeapTheorems.FreeKeeps` | kernel/heap.cc:191-222 | free ends exactly one live block and keeps all others |
| `HeapTheorems.FreedIsFirst` | kernel/heap.cc:205-221 | the released block, with what it merged with, is first on the list and the others keep their order |
| `HeapTheorems.EveryRunIsSound` | kernel/heap.cc:126-222 | after every sequence of calls: tiled, listed once each, no two available blocks adjacent, live payloads disjoint and large enough |
| `HeapTheorems.PayloadsDisjoint` | kernel/heap.cc:185-185 | live payloads do not meet and lie between the sentinels |
| `HeapTheorems.EveryWordInOneBlock` | kernel/heap.cc:61-67 | the blocks tile the array: each word is in exactly one block |
| `HeapTheorems.GapInOneBlock` | kernel/heap.cc:210-219 | because blocks are merged, any run of free words lies in one block |
| `HeapTheorems.MallocFailsIffNoGap` | kernel/heap.cc:152-188 | malloc returns null exactly if no run of contiguous free words, of any length, holds the request |
| `HeapTheorems.FirstFails` | nikshita.dir/sbin/heap.c:132-161 | user malloc returns null exactly if no run of contiguous free words, of any length, holds the request |
| `HeapTheorems.ReallocKeeps` | nikshita.dir/sbin/heap.c:193-218 | after realloc of a live block that block is dead in every case; the result is null exactly if the size is 0 or no gap was long enough while the old block was still taken; otherwise it is one new live block, large enough; all other live blocks stay |
| `HeapTheorems.ReallocOfNull` | nikshita.dir/sbin/heap.c:194-196 | realloc of null is malloc: null exactly if bytes are asked for and there is no room, otherwise one new live block that holds them |
| `HeapTheorems.CopyFitsIff` | nikshita.dir/sbin/heap.c:209-214 | the copy stays in the new payload exactly if rounding the size does not wrap, or nothing is granted, or a small enough old block meets a whole block two words longer |
| `HeapTheorems.CopyOverruns` | nikshita.dir/sbin/heap.c:209-214 | a call whose copy does not stay there |
| `HeapTheorems.FreeUndoesMalloc` | kernel/heap.cc:140-222 | malloc and then free gives back the same blocks and the same free list up to order |
| `HeapTheorems.NothingLiveIsFresh` | kernel/heap.cc:126-222 | a heap without live blocks is the fresh heap |
| `HeapTheorems.FreeAllGivesFreshHeap` | kernel/heap.cc:191-222 | freeing all live blocks in any order gives the fresh heap |
| `HeapWords.CarvedRepresents` | kernel/heap.cc:176-186 | the words written by a grant spell out the carved heap |
| `HeapWords.ReleaseLayout` | kernel/heap.cc:205-221 | the words written by a release spell out the heap after `free` and leave other live payloads alone |
| `BoundaryTagHeap.Allocator.constructor` | kernel/heap.cc:126-136 | start-up writes the fresh heap |
| `BoundaryTagHeap.Allocator.Remove` | kernel/heap.cc:85-99 | unlinks one block and writes no other word |
| `BoundaryTagHeap.Allocator.MakeAvail` | kernel/heap.cc:101-110 | tags a block and puts it at the head of the list |
| `BoundaryTagHeap.Allocator.MakeTaken` | kernel/heap.cc:112-115 | tags a block as taken at both ends |
| `BoundaryTagHeap.Allocator.Malloc` | kernel/heap.cc:140-189 | the array after malloc is that of the specification, and no taken payload changed |
| `BoundaryTagHeap.Allocator.Free` | kernel/heap.cc:191-222 | likewise for free; panics exactly on a pointer that is not live, changing nothing |
| `BoundaryTagHeap.Allocator.MallocFirst` | nikshita.dir/sbin/heap.c:125-161 | likewise for the user library's malloc |
| `BoundaryTagHeap.Allocator.Realloc` | nikshita.dir/sbin/heap.c:193-218 | likewise for realloc, whenever the copy stays in the new payload; the first bytes of the old payload are in the new one, and all other payloads are kept |
| `WordBytes.CopyBytes` | nikshita.dir/sbin/heap.c:211-214 | copying bytes between word-aligned places changes exactly the bytes asked for |
| `FrameSteps.AllocKeepsInv` | kernel/physmem.cc:20-41 | taking a frame keeps every role and table, and the frame was nobody's and is zero |
| `FrameSteps.DeallocKeepsInv` | kernel/physmem.cc:43-51 | giving a frame back keeps every role and table |
| `FrameSteps.StructureKeepsInv` | kernel/physmem.cc:20-51 | what the free list does is independent of the tables |
| `TableSteps.AddTableKeepsInv` | kernel/vmm.cc:25-32 | hooking an empty table into a directory keeps the invariant |
| `TableSteps.AddPageKeepsInv` | kernel/vmm.cc:33-38 | mapping a page in hand keeps the invariant |
| `TableSteps.DropPageKeepsInv` | kernel/vmm.cc:89-93 | unmapping a page keeps the invariant |
| `TableSteps.DropTableKeepsInv` | kernel/vmm.cc:96-99 | unhooking an empty table without APIC pages keeps the invariant |
| `LowSteps.AddLowTableKeepsInv` | kernel/vmm.cc:133-135 | mapping the first page of a low table keeps the low tables an identity map |
| `LowSteps.DoomedKeepsInv` | kernel/vmm.cc:103-125 | all frames of a space can be given up at once without touching another space |
| `SpaceModel.DistinctFrames` | kernel/vmm.cc:20-39 | different own pages, of one space or of two, are in different frames |
| `SpaceModel.SpecialPages` | kernel/vmm.cc:60-72 | every space maps the APIC pages and the low pages to themselves, and no frame of a space is an APIC page |
| `SpaceModel.SpacesProtected` | kernel/vmm.cc:25-38 | the entries of every own page have low bits 7, but for directory entries of rows with an APIC page; those of low and APIC pages have 3 |
| `SpaceModel.ReachesOwnPages` | kernel/vmm.cc:25-38 | of the mapped pages a process can reach exactly its own, but for those in the same 4 MB as an APIC page |
| `SpaceModel.OutOfReach` | kernel/vmm.cc:25-38 | there are own pages that a process can never reach |
| `SpaceModel.OthersSeeNothing` | kernel/vmm.cc:20-125 | an operation on one space changes nothing another space shows |
| `SpaceSteps.MapPageMoves` | kernel/vmm.cc:20-39 | mapping a page, with a new table or not, changes what the space shows at that page only |
| `SpaceSteps.CopyPageMoves` | kernel/process.cc:108-111 | copying a page shows its words in the child at that page only |
| `SpaceSteps.ClearPageMoves` | kernel/vmm.cc:89-93 | unmapping and freeing a page changes what the space shows at that page only |
| `AddressSpaces.Memory.AllocFrame` | kernel/physmem.cc:20-41 | the head of the list or the next frame, cleared; fails exactly when none is left |
| `AddressSpaces.Memory.DeallocFrame` | kernel/physmem.cc:43-51 | the frame becomes the head of the list, linked through its first word |
| `AddressSpaces.Memory.Map` | kernel/vmm.cc:20-39 | writes just one table word, or also a directory word for a new table, with the right permission bits |
| `AddressSpaces.Memory.GlobalInit` | kernel/vmm.cc:130-137 | afterwards the low tables map the kernel's memory to itself |
| `AddressSpaces.Memory.MakePd` | kernel/vmm.cc:60-72 | a finished directory in a new frame that shows nothing of its own, with the right permission bits; everything else is kept |
| `AddressSpaces.Memory.PageFault` | kernel/vmm.cc:151-162 | a fault on an unmapped own page shows a zero page there, with the right permission bits, and changes nothing else in any space |
| `AddressSpaces.Memory.Write` | kernel/vmm.cc:20-39 | a store by a process changes that word of that page and nothing else in any space |
| `AddressSpaces.Memory.DeletePrivate` | kernel/vmm.cc:74-101 | no own page is mapped any more, tables remain only for the APICs, everything outside is kept, no frame is lost |
| `AddressSpaces.Memory.ClearTable` | kernel/vmm.cc:76-100 | one row of the same |
| `AddressSpaces.Memory.DeletePd` | kernel/vmm.cc:103-125 | every frame of the space, and no other, is back on the list |
| `AddressSpaces.Memory.Fork` | kernel/process.cc:85-113 | the child shows exactly what the parent shows on every own page, in a new directory, open to the process as the parent's are; everything else is kept |
| `AddressSpaces.Memory.CopyTable` | kernel/process.cc:88-113 | one row of the same |
| `SpaceTheorems.FreeOnceOrOwned` | kernel/physmem.cc:16-51 | every frame ever handed out is on the list exactly once or has exactly one role |
| `SpaceTheorems.ChainReachesAll` | kernel/physmem.cc:12-51 | following the links through the freed frames visits the whole list and ends in 0 |
| `SpaceTheorems.FramesConserved` | kernel/physmem.cc:20-51 | owned frames and available frames always make up all of memory |
| `SpaceTheorems.ForkIsDeepCopy` | kernel/process.cc:87-113 | a page is mapped in the child iff in the parent, with equal words, in a frame that was nobody's |
| `SpaceTheorems.ForkedSpacesApart` | kernel/process.cc:87-113 | whatever then happens in one of the two spaces, the other shows what it showed |
| `SpaceTheorems.ForkThenDelete` | kernel/vmm.cc:103-125 | fork, anything in the child, and delete_pd give back every role, word and frame count as before |
| `Queues.LineIsFifo` | kernel/queue.h:23-45 | joining and leaving a line is first-in first-out |
| `Queues.Queue.Add` | kernel/queue.h:23-32 | the linked queue gains one member at its end |
| `Queues.Queue.Remove` | kernel/queue.h:34-45 | the linked queue loses its first member, or is empty |
| `Queues.Queue.RemoveAll` | kernel/queue.h:47-53 | all members leave, linked to each other in order |
| `Semaphores.Semaphore.TryDown` | kernel/semaphore.h:22-30 | takes a token if there is one |
| `Semaphores.Semaphore.Enqueue` | kernel/semaphore.h:31-38 | the blocked thread joins the queue |
| `Semaphores.Semaphore.Up` | kernel/semaphore.h:44-57 | hands the token to the first waiter, or keeps it |
| `SemaphoreRuns.SemaphoreSafe` | kernel/semaphore.h:19-57 | in every interleaving: initial + ups = count + grants, nobody waits while there is a token, waiters are granted in the order they queued |
| `SemaphoreRuns.RunIsAtomic` | kernel/semaphore.h:19-57 | every interleaving shows the same count, queue and sleepers as a sequence of downs and ups that are single steps |
| `SemaphoreRuns.NobodyIsStuck` | kernel/semaphore.h:19-57 | in every interleaving a sleeper sleeps for want of a token, and everyone else can go on or is about to be scheduled |
| `SemaphoreRuns.SleepersAreQueued` | kernel/semaphore.h:31-38 | the threads in the queue are exactly those asleep, each once |
| `Barriers.Condition.Park` | kernel/condition.h:71-83 | a waiter is queued exactly if there was no signal since it gave up the lock |
| `Barriers.Condition.Notify` | kernel/condition.h:98-112 | releases the first waiters in order, all or as many as asked, and advances the epoch |
| `Barriers.ReusableBarrier.Arrive` | kernel/barrier.h:48-60 | the last arrival opens the next generation and releases everyone |
| `Barriers.WakeTakesFirst` | kernel/condition.h:105-109 | the waiters released are the first in the queue, all of them if the limit allows |
| `BarrierRuns.ParkIsStep` | kernel/condition.h:71-83 | the step of a thread after its switch is what `Condition.Park` does |
| `BarrierRuns.WakeIsSteps` | kernel/condition.h:105-109 | the signaller's steps, with no other thread between, wake what `Condition.Notify` says and move nobody else |
| `BarrierRuns.ArriveIsSteps` | kernel/barrier.h:48-60 | the steps of an arrival, with no other thread between, do what `ReusableBarrier.Arrive` says |
| `BarrierRuns.NobodyLeavesEarly` | kernel/barrier.h:48-67 | in every interleaving no thread leaves a generation before all its arrivals |
| `BarrierRuns.NoLostWakeup` | kernel/condition.h:56-93 | in every interleaving, when the lock is free the count is in 1..initial and counts the missing arrivals, nobody of a completed generation is asleep, and whoever is not asleep can go on |
| `BarrierRuns.NobodyLeftBehind` | kernel/barrier.h:56-64 | with as many threads inside as the barrier takes, one of them can go on |
| `BarrierRuns.HolderReleases` | kernel/barrier.h:48-67 | the holder of the lock gives it up by steps of its own, having left its generation if that was complete, or to be scheduled if it missed the signal |
| `BarrierRuns.LeavesAlone` | kernel/condition.h:71-93 | with the lock free, a thread of a completed generation leaves it by finitely many steps of its own |
| `BarrierRuns.EveryoneCanLeave` | kernel/barrier.h:48-67 | from every reachable state every thread of a completed generation, asleep or not, can still leave it |
| `BarrierRuns.SleepersAreQueued` | kernel/condition.h:74-76 | the threads in the queue are exactly those asleep, each once |
| `BatonBarriers.StepIsAtomic` | kernel/barrier.h:20-29 | each step does at most one whole semaphore operation, as `SemaphoreRuns.RunIsAtomic` has them |
| `BatonBarriers.NobodyThroughEarly` | kernel/barrier.h:20-29 | in every interleaving no thread gets through the one-shot barrier before all arrivals |
| `BatonBarriers.NobodyLeftBehind` | kernel/barrier.h:23-28 | once all have arrived and none is on its way, none is asleep |
| `BatonBarriers.NobodyIsStuck` | kernel/barrier.h:20-29 | in every interleaving whoever is not asleep, through or panicked can go on |
| `BatonBarriers.OnlyTooManyPanic` | kernel/barrier.h:20-22 | in every interleaving just as many threads panic, or are about to, as arrived beyond the first initial ones |
| `SchedulerRuns.StepKeepsInv` | kernel/threads.h:86-120 | every step of switching, scheduling, waking, creating and deleting keeps the placement invariant |
| `SchedulerRuns.ExactlyOnePlace` | kernel/threads.h:86-120 | in every reachable state a thread that is not idle is in exactly one place |
| `SchedulerRuns.CoresApart` | kernel/threads.h:102-116 | an idle thread is active only on its own core, and no thread is active on two |
| `SchedulerRuns.QueuedOnlyWhenSaved` | kernel/threads.h:114-119 | whoever is in a queue runs nowhere and had its context saved before |
| `SchedulerRuns.DeletedIsSwitchedOut` | kernel/threads.cc:38-44 | a thread about to be deleted is off every core and queue, and saved |
| `SchedulerMoves.ActPutsAway` | kernel/threads.cc:112-130 | after the switch a thread that yielded is last in the ready queue, one that stopped last of the zombies, one that sleeps last in its queue; an idle thread is in none |
| `SchedulerMoves.GivesUpCore` | kernel/threads.h:86-120 | giving up the core runs the first ready thread, or else the idle thread if the caller must block and is not that; the caller is saved and put away; otherwise nothing changes |
| `SchedulerMoves.WakesFirst` | kernel/condition.h:105-109 | waking moves the first waiter to the end of the ready queue |
| `SchedulerMoves.ReapsFirst` | kernel/threads.cc:38-44 | reaping deletes the first zombie and nothing else |
| `SchedulerMoves.CreatesReady` | kernel/threads.cc:46-50 | a new thread is at the end of the ready queue |
| `SchedulerMoves.RetiredStays` | kernel/threads.cc:119-130 | a thread that has stopped stays so until it is deleted |
| `SchedulerMoves.OnlyStopRetires` | kernel/threads.cc:119-130 | a thread stops only by its own doing |
| `SchedulerMoves.OnlyRetiredDeleted` | kernel/threads.cc:38-44 | only threads that stopped leave the system |
| `SchedulerMoves.StoppedForGood` | kernel/threads.cc:119-130 | in every run a thread that has stopped is active on no core, up to the turn in which it is deleted |
| `BoundedBuffers.SlotExactIff` | kernel/bb.h:28-28 | the 32-bit slot computation is right for every fill exactly if the size is at most 2^31 |
| `BoundedBuffers.PutContents` | kernel/bb.h:28-29 | a put appends to the contents of the ring |
| `BoundedBuffers.GetContents` | kernel/bb.h:38-40 | a get removes the first of the contents |
| `BoundedBuffers.Ring.Put` | kernel/bb.h:28-29 | the array after a put holds the contents with the item appended |
| `BoundedBuffers.Ring.Get` | kernel/bb.h:38-40 | the item got is the first of the contents |
| `BufferRuns.StepIsAtomic` | kernel/bb.h:25-44 | each step does at most one whole operation on each of the three semaphores |
| `BufferRuns.BufferIsFifo` | kernel/bb.h:25-44 | in every interleaving what went in is what came out followed by the contents, and both token equations hold |
| `BufferRuns.NoOverwrite` | kernel/bb.h:25-44 | in every interleaving a put inside finds room, a get inside finds an item, and at most one thread is inside |
| `BufferRuns.NobodyIsStuck` | kernel/bb.h:25-44 | in every interleaving whoever is not asleep can go on |
| `BufferRuns.SleepersHaveReason` | kernel/bb.h:25-44 | when all threads inside are asleep, puts sleep because the buffer is full, gets because it is empty, and nobody for the lock |
| `Pipes.Pipe.constructor` | kernel/Pipe.h:17-24 | an empty pipe with matching tokens |
| `Pipes.Pipe.Write` | kernel/Pipe.h:36-50 | appends as many bytes as fit; the inner downs never block; bytes written = bytes read + contents |
| `Pipes.Pipe.Read` | kernel/Pipe.h:56-71 | the bytes read continue those read before, as many as there are and are asked for |
| `BlockReads.ReadAll` | kernel/block_io.cc:35-46 | exactly the bytes from offset to the lesser of offset + n and the end; -1 exactly if n > 0 and the offset is beyond the end |
| `BlockReads.Read` | kernel/block_io.cc:6-33 | the lesser of what is asked for, what is left and the rest of the block; those bytes |
| `BlockReads.ReadBlock` | kernel/ext2.cc:138-158 | a sector, or the disk block that the file's map names |
| `BlockReads.ContentByBlocks` | kernel/ext2.cc:138-158 | byte k of a file is byte k mod block size of the disk block that direct pointer k div block size names, or from the 13th block on the little-endian word of the indirect block |
| `BlockReads.SliceOfBlock` | kernel/block_io.cc:12-31 | the part of a block taken is the right stretch of the file |
| `Ext2.Find` | kernel/ext2.cc:160-170 | walking the entries finds the last entry of that name, or 0 |
| `Ext2.ReadEntry` | kernel/ext2.h:184-193 | inode, length and name of the entry at an offset |
| `Ext2.LastCounts` | kernel/ext2.cc:160-170 | the last of several entries with one name counts |
| `Ext2.NoneCounts` | kernel/ext2.cc:160-170 | without an entry of that name the result is 0 |
| `Ext2.DirectoryReadsBack` | kernel/ext2.h:180-195 | the entries of a directory made of encoded entries are those that were encoded, in order |
| `Ext2.GetNode` | kernel/ext2.cc:93-111 | the i-node decoded from its place in its group's table; panics on a number out of range or of a group with no table |
| `Ext2.NodePlace` | kernel/ext2.cc:96-105 | i-node n lies in the table of group (n - 1) div i-nodes per group, at place (n - 1) mod i-nodes per group |
| `Ext2.NodeFields` | kernel/ext2.h:57-84 | mode, size, sector count and indirect pointer are the little-endian numbers at bytes 0, 4, 28 and 88 of the i-node |
| `Ext2.NodePointer` | kernel/ext2.h:70-81 | direct pointer i is the little-endian word at byte 40 + 4 i |
| `Ext2.NodesApart` | kernel/ext2.cc:96-105 | i-nodes of one group do not overlap |
| `Ext2.FindPath` | kernel/ext2.h:256-289 | the node that following the parts of the path leads to, or missing, or panic |
| `Ext2.EnterFinds` | kernel/ext2.h:272-281 | one part leads to the i-node of the last entry of that name, if in range |
| `Ext2.EnterMisses` | kernel/ext2.h:273-277 | without such an entry it is missing |
| `Ext2.EnterPanics` | kernel/ext2.h:267-272 | a name of more than 256 bytes, or in what is no directory, is a panic |
| `Ext2.ResolveOne` | kernel/ext2.h:256-289 | a path of one part leads where that part leads, and one of none nowhere else |
| `Ext2.PartsReadBack` | kernel/ext2.h:256-271 | a path has just the parts it was spelled from |
| `Ext2.PartsAreParts` | kernel/ext2.h:256-271 | a part is never empty and holds no slash |
| `Ext2.EveryPathOk` | kernel/ext2.h:256-289 | on a disk whose directories are sound every path can be looked up, whatever its other i-nodes hold |
| `Ext2.PathJoin` | kernel/ext2.h:256-289 | looking p/q up is looking p up and then q from there; repeated slashes do not matter |
| `CStrings.StrEq` | kernel/libk.cc:14-24 | equal exactly if the bytes before the first zero are |
| `IntFormat.FieldReadsBack` | kernel/snprintf.cc:400-488 | stripping blanks, taking the sign and reading the digits of a formatted integer gives it back |
| `IntFormat.FieldWidth` | kernel/snprintf.cc:441-451 | without the zero flag exactly max(min, max(precision, digits) + sign) characters |
| `IntFormat.WordDigits` | kernel/snprintf.cc:432-438 | a 32-bit value has at most 11 digits, so the 20 places are never used up |
| `IntFormat.DigitsReadBack` | kernel/snprintf.cc:432-437 | the digits read back as the number |
| `IntFormat.FieldLayout` | kernel/snprintf.cc:412-488 | blanks on the side the minus flag says and none with the zero flag, the sign asked for, zeros up to the precision or width, digits without leading zeros |
| `Printer.Output.Convert` | kernel/snprintf.cc:432-439 | the digits least significant first, fewer than 20 |
| `Printer.Output.FmtInt` | kernel/snprintf.cc:400-488 | prints the field |
| `Printer.Output.FmtStr` | kernel/snprintf.cc:361-396 | prints the padded string, no more than the maximum, padding included |
| `Printer.Output.Dopr` | kernel/snprintf.cc:112-359 | prints the texts of the items of the format's grammar in order until maxlen characters are out, and terminates |
| `FormatGrammar.CutIsJoin` | kernel/snprintf.cc:132-133 | below maxlen that is the concatenation of all items |
| `FormatGrammar.CutStops` | kernel/snprintf.cc:132-133 | in any case whole texts are printed until maxlen characters are out |
| `FormatGrammar.ConvertedReadsBack` | kernel/snprintf.cc:237-278 | integer conversions read back in base 10, 8 or 16 as the argument, signed for d, i and p |
| `FormatGrammar.ConvertedText` | kernel/snprintf.cc:303-346 | characters, strings and null strings, the percent sign; which conversions take an argument |
| `FormatGrammar.ConvertedCase` | kernel/snprintf.cc:267-278 | letters among the digits are capitals for X and small for x and p |
| `FormatGrammar.StringFieldShape` | kernel/snprintf.cc:361-396 | a string that fits is padded to the width on the side the minus flag says |
| `FormatText.ConversionReadsBack` | kernel/snprintf.cc:138-212 | flags, width, precision and conversion character are read back as they were written |
| `FormatText.ParseReadsBack` | kernel/snprintf.cc:112-359 | parsing a format written from items gives the items back |
| `FormatStates.EndsInside` | kernel/snprintf.cc:132-133 | a format that ends inside a conversion prints nothing for it |
| `ExecStack.Stack.Build` | kernel/sys.cc:72-106 | at the final stack pointer there are the count, the address of the table, the pointers with a null behind them, and each argument's string; nothing below changed |
| `ExecStack.Stack.PushStrings` | kernel/sys.cc:74-89 | the strings are copied to consecutive lower addresses |
| `ExecStack.StringsApart` | kernel/sys.cc:79-84 | the regions of different strings do not meet |
| `ExecStack.StackAligned` | kernel/sys.cc:80-80 | the stack pointer is word-aligned |
| `ExecStack.AddressAligned` | kernel/sys.cc:80-84 | every string is word-aligned |
| `RandomNumbers.Law` | kernel/random.h:25-26 | 65536 s' = s + (65536 a - 1)(s mod 65536) |
| `RandomNumbers.Advance` | kernel/random.h:25-26 | a step does not overflow 32 bits |
| `RandomNumbers.AdvanceThenBack` | kernel/random.h:25-26 | a step stays within 1..65536 a - 2 and can be taken back |
| `RandomNumbers.BackThenAdvance` | kernel/random.h:25-26 | and every state in that range is reached |
| `RandomNumbers.Stuck` | kernel/random.h:25-26 | the fixed points are exactly 0 and 65536 a - 1 |
| `RandomNumbers.GoodStays` | kernel/random.h:25-26 | a step leads to a multiple of the modulus exactly from one |
| `RandomNumbers.BadIsMultiple` | kernel/random.h:13-22 | the bad states are exactly the multiples of the modulus below 2^32 |
| `RandomNumbers.NeverStuck` | kernel/random.h:24-29 | over any number of steps a half that starts good never repeats a state at once; one that starts bad stands still |
| `RandomNumbers.Random.constructor` | kernel/random.h:13-22 | z starts good on every seed, w on every seed but 0x8C9FFFFE and 0xD2EFFFFD |
| `RandomNumbers.Random.Next` | kernel/random.h:24-29 | both halves take a step |
| `RandomNumbers.CombinedHalves` | kernel/random.h:27-28 | the low half of the result is that of w, the high half z and the high half of w together |

## Left out

* The lock of the heap and of the frame allocator, and the lock object that `heapInit` allocates: each operation is one
  critical section. `sanity` returns its argument and is not modelled.
* `sbrk`-like growth, foreign pointers and frees through stale pointers: the callers' pointers are null, the zero-size
  pointer or headers of blocks.
* A page fault on a page that is present or special, `unmap`, the TLB, CR3 and register contents: the first would
  overwrite an entry and lose a frame, and the source relies on its never happening.
* BoundaryTagHeap.Allocator.Realloc: a copy that leaves the new payload is excluded by its precondition, as the source
  then overwrites the tags of a block; `HeapTheorems.CopyFitsIff` says exactly when.
* Fork's tables of children, semaphores and files, and process ids.
* AddressSpaces.Memory.GlobalInit: the size of memory is at most 2 GB, as low tables are shared only below that.
* SchedulerRuns.StepKeepsInv: switching is modelled on values, one step per core at a time, instead of updating the
  core tables in place; the action after a switch is one of yield, stop or sleep, which is what all callers of `block`
  use (a condition's action is a sleep or a yield).
* Preemption is a yield at any step of a running thread; clearing of `no_preempt`, fairness and liveness of spinning
  are not modelled.
* BarrierRuns.NobodyLeavesEarly: epochs are unbounded; the 64-bit counters of the source do not wrap in practice.
* Pipes.Pipe.Write: the lock of the pipe serialises calls and is not repeated in the class; that a semaphore
  started at one admits one thread at a time is part of `BufferRuns.NoOverwrite`.
* Printer.Output.Dopr: floating point, `%n` and `%w` are excluded by its precondition; widths written in the
  format are unbounded where the source computes them in an `int`.
* Printer.Output.FmtInt: for the most negative signed value the source negates it, which C leaves undefined; the model
  takes the magnitude 2^31.
* BlockReads.ReadAll: double- and triple-indirect blocks, on which the source panics, and holes, for which it reads
  block 0, are outside `Sound` or read as the map says.
* Ext2.Find: a directory whose entries do not lead to its end (an entry of length 0, or one that reaches past it) is
  outside `Walkable`; the source would loop or panic on it.
* Ext2.FindPath: what it reads must be sound (`PathOk`): the directories on the path and the place of each i-node named
  there, as the source reads past 4 GB and past the end otherwise. Reading a symbolic link's target is not modelled.
* ExecStack.Stack.Build: loading the program, and the temporary copy of each string; the bytes behind a
  string's zero up to the copied size must exist, as the source reads them.
* Device drivers, interrupt and task-state tables, boot code, `sysHandler`, shell and library programs, and
  `printf.c`, which repeats the formatter: easy or outside the machine's model here.
