# A verified model of an xv6 with demand paging and copy-on-write fork

This project models the hardest parts of an xv6 kernel for x86, extended with page replacement to a swap
file and copy-on-write fork, together with three user-level algorithms that run on it, and proves what
they promise: of every input, every interleaving or every run.

`dafny verify dfyconfig.toml` checks the whole project (Dafny 4.11).

## What is modelled

| modules | part of the system |
|---|---|
| `Log`, `LogFormat`, `LogDevice` | the write-ahead log: what a crash between any two block writes leaves, the header's layout, and the commit and recovery code as it updates its state |
| `LogReservation`, `LogOperations` | begin_op, log_write and end_op as steps of concurrent operations, and operations that make given lists of calls |
| `Bio`, `BioDirty`, `BufferCache` | the buffer cache as a step system, which buffers are dirty and why, and its doubly linked list |
| `Fs`, `FsFile`, `FsTrunc`, `Bitmap`, `FileSystem` | block ownership, files as byte sequences, the allocator and the inode layer |
| `FsFoot`, `FsCost`, `TruncBound` | what a write does to addresses and bitmap and exactly what it logs, and what the last close of a file logs |
| `FileRead`, `FileWrite`, `WriteBound`, `FileOperations`, `FsCrash` | reading a file to its end; filewrite's chunks, the sharpness of their limit, any number of them at a time, and a crash in the middle of them |
| `Frames`, `Tables`, `Vm`, `VmGrow`, `VmAlloc`, `VmFork`, `VmRun`, `VmKernel` | frames and reference counts, the two paging tables, faults, growing, fork and release, and the refinement of eager copying with everything resident |
| `VmGuard`, `VmOpen`, `VmScrub`, `VmCases` | the guard page below the stack, the pages that are not one, what free frames hold, and runs from boot to the cases that go wrong |
| `SwapFile` | the swap file as a file of the file system |
| `Scfifo` | second-chance page selection |
| `SleepLock`, `SleepLockCpu`, `SleepLockRun` | sleep locks, who runs and who sleeps meanwhile, and a lock that changes hands |
| `ProcTree`, `ProcKilled`, `ProcCalls`, `ProcTable` | the process table under fork, exit, wait, kill, sleep and wakeup |
| `Pipe`, `PipeSystem`, `PipeCalls`, `PipeEnds`, `PipeStranded` | the pipe's ring with wrapping counters, its readers and writers as a step system, what one call moves, when an end is open, and when a reader is left asleep |
| `FreeList`, `Umalloc` | the user-level allocator: the list its ring stands for, and the pointer code |
| `Shell`, `ShellParser`, `ShellPrint`, `ShellBlanks`, `ShellWords`, `ShellRedirect` | the shell's parser as functions, as code on a cursor and a buffer, its inverse, blanks, the words it keeps, and `>>` |
| `Grep` | the regular expression matcher |
| `Blocks`, `Params`, `Common` | blocks as bytes and little-endian words; the kernel's limits; shared definitions |

Code that updates things in place is a class with methods and loops, and each method is tied to the
function or the property that the lemmas are about. Concurrency is a step system whose steps are what a
process does under one lock or between two scheduling points; a theorem about it is about every list of
steps. A kernel panic ends a run: it is an outcome in the contracts, never a precondition. The disk is a
store of blocks whose single-block writes are atomic.

## Where the code does not do what one would expect

Each of these is a lemma with the exact condition and an input or a run that shows it.

- `LogReservation.RelogPanics`, `LogOperations.SafeBesideIff`: log_write checks for a full log before it
  looks for the block in it, so an operation that has used up its reservation can panic when it logs one of
  its own blocks again. Concurrent file writes never do (`FileOperations.FileOperationsNeverPanic`).
- `LogReservation.SmallLogPanics`, `SafeIffLogLargeEnough`: the log area needs a block more than LOGSIZE,
  for the header; mkfs.c:25 reserves LOGSIZE in all.
- `TruncBound.PutIsSafeIff`, `CloseScattered`: the last close of a file without links can panic the log when
  the file's blocks lie in MAXOPBLOCKS - 1 or more bitmap blocks, because iput logs the inode again after
  itrunc; that takes a disk larger than the one that mkfs makes (`SmallDiskFits`).
- `WriteBound.AHoleNeedsEleven`: filewrite's limit would be too large for files with holes; there are none.
- `VmFork.ForkSucceedsIff`, `VmCases.ForkPanicsInARun`: copyonwriteuvm panics if the page at address 0 is
  paged out, because the child has no page table page yet.
- `VmGuard.ClosedThroughoutIff`, `VmCases.GuardTakesAStore`: the guard page below the stack becomes
  accessible when it is paged out or shared, because both fault handlers set PTE_U.
- `VmAlloc.AllocShowsIff`, `VmCases.OnePageTooMany`: allocuvm bounds the pages added by one call, not the
  pages of the process; a process that outgrows its tables loses the page in its last swap slot.
- `PipeStranded.ReadersSafeIff`, `KilledWriterLosesWakeup`: a killed writer returns without waking the
  reader.
- `Umalloc.UnitsHoldBytesIff`, `SbrkAskedRightIff`: requests within 7 bytes of 4 GiB get a bare header, and
  requests above 2 GiB - 16 bytes ask sbrk for a wrong amount.
- `ProcKilled.BearsKilledIff`: kill(0), or kill of the pid of a fork that failed, marks an unused slot, and the
  next process there is born killed.
- `Bio.DuplicatedIff`, `BootHasDuplicates`: block 0 of device 0 is in every buffer after boot.
- `ShellRedirect.AppendIsOutput`: the shell treats `>>` as `>` (sh.c:388-393).

## Model

| member | source | states |
|---|---|---|
| `Log.CrashAtomicity` | log.c:69-122 | cut a commit after any number of block writes, then cut recovery any number of times before one full recovery: every home block is as before the transaction, or every one is as after it; which of the two depends only on whether the header write was reached; the log ends empty |
| `Log.RunSurvivesCrash` | log.c:115-202 | after any list of commits and a crash anywhere in the next one, the recovered home blocks are those of exactly the transactions whose header was written, each applied as one atomic update |
| `Log.WriteAhead` | log.c:192-202 | before the header write of a commit no home block and no header has changed on disk |
| `Log.CommitPrefixMeaning` | log.c:192-202 | what the disk stands for flips from the old to the new home blocks at the header write and at no other write of the commit |
| `Log.CommitBeforeHeader` | log.c:177-190 | writing log blocks, cut off anywhere, leaves home blocks and the empty header alone |
| `Log.CommitAfterHeader` | log.c:69-82 | from the header write on, the disk stands for the transaction's home blocks however far installing got |
| `Log.InstallKeepsMeaning` | log.c:69-82 | install_trans cut off after any write does not change the home blocks the disk stands for |
| `Log.InstalledAndCleared` | log.c:115-122 | install and clear together: logged blocks at home, all others untouched, log empty |
| `Log.CutRecoveriesKeepMeaning` | log.c:115-122 | any series of cut-off recoveries keeps what the disk stands for |
| `Log.QuietMeansItself` | log.c:115-122 | with an empty log the home blocks are what the disk stands for |
| `Log.CommitIsAtomic` | log.c:192-202 | commit to its end equals one simultaneous update of the home blocks and empties the log |
| `Log.CommitAllIsAtomic` | log.c:192-202 | a list of block-by-block commits equals the list of atomic updates |
| `Log.CommittedMeansTarget` | log.c:100-113 | once the header is written, what the disk stands for is the transaction's result |
| `LogFormat.HeaderRoundTrip` | log.c:85-113 | read_head undoes write_head for every list of at most LOGSIZE block numbers, whatever the header buffer held before |
| `LogFormat.ZeroHeaderIsEmpty` | log.c:85-98 | a zeroed header block holds no transaction |
| `LogFormat.NewDiskIsQuiet` | log.c:115-121 | so the first recover_from_log on a disk with a zeroed log header changes no block |
| `LogFormat.StoreHeader` | log.c:101-113 | write_head's loop over the header's words is the encoding |
| `LogFormat.LoadHeader` | log.c:85-96 | read_head's loop is the decoding |
| `LogFormat.Xv6Layout` | log.c:33-36 | the header block with its count and block numbers is a log layout: the one for which the crash theorems hold |
| `LogDevice.Device.constructor` | log.c:53-66 | a log that has just been set up pins nothing and has written nothing; recovery comes next |
| `LogDevice.Device.Bwrite` | bio.c:109-116 | one block of the disk changes and its buffer is no longer dirty |
| `LogDevice.Device.LogWrite` | log.c:213-233 | panics exactly when the log is full by either test; otherwise records the block once, pins its contents, and writes nothing to disk |
| `LogDevice.Device.WriteLog` | log.c:177-190 | issues exactly the log writes of the commit, in order, and unpins nothing |
| `LogDevice.Device.WriteHead` | log.c:100-113 | issues exactly the header write |
| `LogDevice.Device.InstallTrans` | log.c:69-82 | issues exactly the install writes, in order, and leaves nothing pinned |
| `LogDevice.Device.Commit` | log.c:192-202 | issues exactly the writes of the commit; the transaction is then installed, nothing is pinned and the log is empty in memory and on disk |
| `LogDevice.Device.ReadHead` | log.c:85-96 | the header in memory is the one on disk |
| `LogDevice.Device.RecoverFromLog` | log.c:115-122 | issues exactly the writes of recovery; the home blocks the disk stood for are in place and the log is empty |
| `LogDevice.CommitInFour` | log.c:192-202 | the commit's write list is log writes, header, installs, cleared header, in that order |
| `LogReservation.ReservationHolds` | log.c:125-174 | over every interleaving: lh.n plus the unspent allowance of outstanding operations is at most LOGSIZE, logged numbers are distinct, a commit runs only with nothing outstanding, an idle log is empty |
| `LogReservation.CommitStartsOver` | log.c:146-211 | when the last operation ends it commits, nothing begins meanwhile, and afterwards the log is as at the start |
| `LogReservation.OnlyFullLogPanics` | log.c:145-174 | end_op never finds a commit in progress, the header array is never overrun, and the only panic left is log_write's full-log check |
| `LogReservation.StepKeepsInv` | log.c:125-233 | every step of begin_op, log_write and end_op by any operation keeps the reservation invariant |
| `LogReservation.RunKeepsInv` | log.c:125-233 | the reservation invariant over every interleaving |
| `LogReservation.RelogPanics` | log.c:214-233 | with the log full, logging an already logged block panics: the check comes before the absorption |
| `LogReservation.SmallLogPanics` | log.c:218-219 | a log area without a block for each of LOGSIZE entries besides the header can run out |
| `LogReservation.SafeIffWithinLimit` | log.c:214-233 | no run panics if and only if operations stop calling log_write once they have logged MAXOPBLOCKS distinct blocks |
| `LogReservation.SafeIffLogLargeEnough` | mkfs.c:25-25 | operations within that limit never panic if and only if the log area is larger than LOGSIZE; the size mkfs gives is one too small |
| `LogOperations.WithinLimitNeverPanics` | log.c:125-233 | any number of concurrent operations, interleaved in any way, each making a list of log_write calls that stays within its reservation at every call: no step of any run panics |
| `LogOperations.SafeBesideIff` | log.c:213-233 | a list of calls can be made beside all such operations without a panic in any run if and only if it stays within the reservation itself |
| `LogOperations.OverTheLimitPanics` | log.c:218-219 | otherwise: two other operations fill their reservations, and the call that comes when this one is used up finds the log full |
| `LogOperations.RunIsLogRun` | log.c:125-233 | a run of operations with such lists is a run of the log in which every step is admitted |
| `Bio.CacheIsCoherent` | bio.c:61-141 | in every interleaving from boot: a block other than block 0 of device 0 is in at most one buffer; a holder holds the block it asked for, alone, with the contents of that block's last update |
| `Bio.DuplicatedIff` | bio.c:38-56 | some run has a block in two buffers if and only if it is block 0 of device 0 |
| `Bio.StepKeepsInv` | bio.c:61-141 | every step keeps counting, uniqueness, agreement with the disk and list order; brelse is two of them, one for each lock |
| `Bio.RunKeepsInv` | bio.c:61-141 | the cache invariant, with the block store that the run's updates give |
| `Bio.TargetIs` | bio.c:69-92 | bget returns the buffer that has the block, and only if there is none an unused one |
| `Bio.VictimIsOldest` | bio.c:81-91 | the recycled buffer is the unused one whose last release is longest ago |
| `Bio.BusyBufferIsKept` | bio.c:79-91 | a referenced or dirty buffer keeps its block in every step |
| `Bio.RecycleAgrees` | bio.c:81-91 | recycling loses no update: a clean unreferenced buffer agrees with the disk |
| `Bio.OnlyFlushWrites` | bio.c:109-116 | only bwrite changes the disk, and only the block its caller holds; what it writes there is BioDirty.FlushSaves |
| `BioDirty.FlushSaves` | bio.c:109-116 | after bwrite the disk has the last update of the block, the buffer is clean, and no other buffer and no other block of the disk has changed |
| `BioDirty.DirtyMeansUnsaved` | bio.c:62-133 | over every run from boot: a buffer is dirty if and only if its block was updated after the last bwrite of it, such a block stays cached, and every other block's last update is on the disk |
| `BioDirty.BreadHolds` | bio.c:96-106 | bread returns the block's buffer locked, valid and with the contents that the cache stands for, and takes one reference |
| `BioDirty.BrelseUndoesBread` | bio.c:120-138 | brelse after bread gives back the reference and the lock, and leaves contents and disk alone |
| `Bio.NoBuffersIff` | bio.c:92-92 | bget panics if and only if the block is not cached and every buffer is referenced or dirty |
| `Bio.BootHasDuplicates` | bio.c:38-56 | after binit every buffer is for block 0 of device 0, so with two buffers that block is in both |
| `Bio.MoveKeepsOrder` | bio.c:129-138 | moving to the front keeps each buffer on the list once and in order of last release |
| `Bio.FindFrom` | bio.c:69-76 | the first buffer from the front with the block, none before it has it; and none at all has it otherwise |
| `Bio.VictimBelow` | bio.c:81-91 | the unused buffer nearest the back |
| `BufferCache.Cache.constructor` | bio.c:38-56 | the links form one circular list of all buffers, the last one first |
| `BufferCache.Cache.FindBlock` | bio.c:69-76 | the scan along the next links ends at the first buffer with the block |
| `BufferCache.Cache.FindUnused` | bio.c:81-91 | the scan along the prev links ends at the unused buffer nearest the back |
| `BufferCache.Cache.Bget` | bio.c:61-93 | both scans along the links find the buffer that the list's order prescribes, and only that buffer changes |
| `BufferCache.Cache.Brelse` | bio.c:120-141 | the links then form the list with the buffer moved to the front, if nobody references it |
| `BufferCache.UnlinkKeepsList` | bio.c:132-133 | the two pointer writes take one element out of the doubly linked ring |
| `BufferCache.PushKeepsList` | bio.c:134-137 | the four pointer writes put an element at the front of the ring |
| `Frames.MappersPut` | kalloc.c:55-75 | changing one page table entry changes a frame's number of mappers by that entry alone |
| `Frames.OnlyMapper` | kalloc.c:41-53 | a frame with reference count 1 is mapped by exactly one entry |
| `Frames.KallocLists` | kalloc.c:181-199 | kalloc keeps the free list duplicate-free and disjoint from counted frames |
| `Frames.KfreeLists` | kalloc.c:143-174 | kfree returns the frame to the list with the last reference and not before |
| `Frames.MapFresh` | vm.c:552-559 | mapping a fresh frame keeps count = number of mappers, writable implies count 1, free frames unmapped |
| `Frames.Unmap` | vm.c:610-628 | taking a page away keeps the same for every frame |
| `Frames.ShareKeepsInv` | vm.c:728-734 | sharing a page read-only between parent and child keeps the frame invariant |
| `Frames.CopyKeepsInv` | vm.c:892-900 | handle_cow's copy of a shared frame keeps it |
| `Frames.OwnKeepsInv` | vm.c:901-904 | making a frame with one reference writable again keeps it |
| `Tables.LookupFindsSlot` | vm.c:466-475 | a paged-out page's slot is found although the search ignores is_used, because used slots are a prefix; and memory is then full |
| `Tables.SwapSlotExists` | vm.c:501-527 | with memory full and fewer than MAX_TOTAL_PAGES pages, swap finds a slot inside or just past the written part of the file |
| `Tables.AddResident` | vm.c:566-580 | a page added to a free memory slot keeps every page in exactly one used slot |
| `Tables.AddEvicting` | vm.c:501-587 | growing with memory full keeps every page in exactly one used slot and used swap slots a prefix |
| `Tables.Exchange` | vm.c:796-871 | a page fault's exchange keeps the same |
| `Tables.NoSlotLeftIff` | vm.c:430-463 | both tables are full if and only if the process has MAX_TOTAL_PAGES pages |
| `Tables.FirstFree` | vm.c:430-463 | the first unused slot, all before it used, or none |
| `Tables.FirstWithVa` | vm.c:466-475 | the first slot with the address, or none |
| `Vm.EveryPageHasContents` | vm.c:796-871 | under the invariant every page of every process is somewhere, in a frame or in the swap file |
| `Vm.StoreRefines` | vm.c:707-743 | a store through a writable entry changes that page of that process and no page of anyone else |
| `Vm.CowKeepsInv` | vm.c:874-908 | handle_cow keeps the frame and table invariants |
| `Vm.CowRefines` | vm.c:874-908 | handle_cow changes what no process sees |
| `Vm.ClearUserRefines` | vm.c:654-665 | clearpteu keeps the invariants and changes what no process sees |
| `Vm.PfResult` | vm.c:795-871 | the faulting page and the victim have changed places, contents included |
| `Vm.PfKeepsInv` | vm.c:795-871 | a page fault keeps the frame and table invariants |
| `Vm.PfRefines` | vm.c:795-871 | a page fault changes what no process sees, whichever page is evicted |
| `VmGrow.CanGrow` | vm.c:531-587 | below MAX_TOTAL_PAGES pages and with a free frame a process finds a slot and grows |
| `VmGrow.GrowKeepsInv` | vm.c:531-587 | growing keeps the frame and table invariants, with and without eviction |
| `VmGrow.GrowRefines` | vm.c:531-587 | growing appends a zero page to what the process sees and changes nothing else anyone sees |
| `VmAlloc.AllocShowsIff` | vm.c:531-587 | a call of allocuvm that passes its test appends zero pages to what the process sees, and keeps the invariants, if and only if the process then has at most MAX_TOTAL_PAGES pages; beyond that some page has no contents |
| `VmAlloc.AllocGood` | vm.c:531-587 | up to that limit: for any choice of victims the loop appends one zero page a pass |
| `VmAlloc.AllocBad` | vm.c:501-587 | beyond it: some page is marked paged out and no slot of the file has it |
| `VmAlloc.FirstLoss` | vm.c:505-580 | with both tables full swap returns -1, allocuvm writes to memory_pages[-1], which is the last element of file_pages, and the page whose slot that was is lost |
| `VmFork.ForkPagesKeepInv` | vm.c:707-743 | every pass of copyonwriteuvm's loop keeps the frame invariant |
| `VmFork.CopiedSwapOk` | proc.c:237-251 | the child's swap file holds the parent's slots at the same places |
| `VmFork.ForkKeepsInv` | proc.c:198-272 | fork keeps the invariants for parent and child |
| `VmFork.ForkRefines` | vm.c:669-743 | copy-on-write fork refines eager copying: the child sees the parent's memory, resident and paged out, and nobody else sees a change |
| `VmFork.ForkSucceedsIff` | vm.c:707-743 | fork succeeds if and only if the process has no pages or its page at address 0 is resident |
| `VmFork.WalkIsPages` | vm.c:707-743 | copyonwriteuvm's loop comes to its end if and only if every paged-out page has a resident page before it under the same page table page, and then does what the loop without panics does |
| `VmFork.CanFork` | vm.c:707-743 | the invariant gives fork's preconditions |
| `VmFork.FreeRefines` | vm.c:593-652 | releasing an address space leaves every other process its memory |
| `VmFork.FreeKeepsInv` | vm.c:593-652 | and keeps the frame invariant |
| `VmRun.StoreGoesThrough` | trap.c:80-97 | one trap is enough for a store to a user page, while a frame is free |
| `VmRun.StepRefines` | vm.c:531-908 | each step (store, trap, grow, fork, free, clearpteu) agrees with the same step on eagerly copied, fully resident memory |
| `VmRun.RunRefines` | vm.c:531-908 | so does every run, and the invariants hold throughout |
| `VmRun.ForkAndExit` | vm.c:593-743 | in every state that a run reaches a process can be released, and can fork if and only if its page at address 0 is resident or it has none |
| `VmRun.BootInv` | kalloc.c:128-137 | freerange's frames with one empty process satisfy the invariants |
| `VmRun.Transparent` | vm.c:531-908 | from boot, copy-on-write and demand paging are transparent to every process in every run |
| `VmGuard.ReachedIff` | vm.c:477-908 | a user store gets through to a page, at once or after one trap, if and only if the page is not closed: resident, without PTE_U, in a frame of its own |
| `VmGuard.RefusedIff` | trap.c:86-95 | neither handler takes a fault, so that the trap ends in its segmentation fault, if and only if the page is resident and already writable |
| `VmGuard.ClearUserCloses` | vm.c:654-665 | clearpteu closes a page if and only if it is resident and not shared |
| `VmGuard.ClosedStaysIff` | vm.c:477-908 | a closed page stays closed through a step if and only if the step does not page it out, share it by fork or end its process |
| `VmGuard.ClosedThroughoutIff` | vm.c:477-908 | over a whole run the guard page is out of the user's reach in every state if and only if no step pages it out, shares it or ends its process |
| `VmOpen.GrowOpens` | vm.c:501-587 | a page that allocuvm has just given a process can be stored to: present, writable and the user's, in a frame of memory |
| `VmOpen.OnlyGuardsAreClosed` | vm.c:654-908 | in every state of every run from boot: a page that keeps the user out is one clearpteu was called on, in its process or one it was forked from; every other page takes a store at once or after one trap, while a frame is free |
| `VmOpen.RunKeepsNamed` | vm.c:654-908 | the invariant behind it: a resident entry without PTE_U is one of the named pages, after every run |
| `VmScrub.FreeFramesAreJunk` | kalloc.c:129-176 | in every state of every run from boot, every frame on the free list holds kfree's junk, and no page's contents |
| `VmCases.ForkPanicsInARun` | vm.c:707-743 | a run from boot to a state in which fork panics: a process grows to 17 pages |
| `VmCases.GuardTakesAStore` | vm.c:477-908 | a run from boot in which any of the first 16 pages is closed by clearpteu, paged out, brought back by a fault, and stored to by the user |
| `VmCases.OnePageTooMany` | vm.c:531-587 | from boot a process is given MAX_TOTAL_PAGES pages; one page more passes allocuvm's test, and a page has no contents |
| `VmKernel.NextFree` | vm.c:430-463 | the scan returns the first unused slot |
| `VmKernel.IndexOfVa` | vm.c:466-475 | the scan returns the first slot with the address |
| `VmKernel.CopySwapFile` | proc.c:237-251 | fork's loop copies every used slot |
| `VmKernel.Kernel.KallocFrame` | kalloc.c:181-199 | the in-place kalloc is the specified step |
| `VmKernel.Kernel.KfreeFrame` | kalloc.c:143-174 | the in-place kfree is the specified step |
| `VmKernel.Kernel.CowFault` | vm.c:874-908 | the in-place handle_cow is the step proved invisible |
| `VmKernel.Kernel.PageFault` | vm.c:795-871 | the in-place handle_pf is the step proved invisible, panics included |
| `VmKernel.Kernel.GrowPage` | vm.c:501-587 | the in-place allocuvm step and swap are the growing step, the slot -1 included; while there are frames and room the process gets a zero page that it can store to |
| `VmKernel.Kernel.AllocUvm` | vm.c:531-587 | allocuvm's test and loop are the call that AllocShowsIff is about |
| `VmKernel.Kernel.CopyOnWriteUvm` | vm.c:707-743 | the loop with its reference counts, shared flags and the child's page table pages is the walk that WalkIsPages is about, panics included |
| `VmKernel.Kernel.ForkProc` | proc.c:198-272 | the memory part of fork, panic included |
| `VmKernel.Kernel.FreeVm` | vm.c:593-652 | deallocuvm's loop is the release step |
| `Scfifo.RequeueRotates` | vm.c:343-370 | giving the oldest page the current time rotates the load-order queue by one |
| `Scfifo.PassedOverAt` | vm.c:394-427 | exactly the first k pages are requeued, in their old order, behind the others |
| `Scfifo.PassedOverRotates` | vm.c:394-427 | the load-order queue is rotated by k |
| `Scfifo.QueueExists` | vm.c:343-370 | distinct load times put the used slots in a queue, for every table |
| `Scfifo.QueueFits` | vm.c:394-427 | the queue has at most MAX_PSYC_PAGES pages |
| `Scfifo.Pager.Next` | vm.c:343-370 | one call takes the oldest page, or requeues it if it was accessed |
| `Scfifo.Pager.Select` | vm.c:394-427 | second chance: the first page in load order that was not accessed, or the oldest if all were, within MAX_PSYC_PAGES+1 calls; exactly the accessed pages passed over are requeued |
| `Fs.BitmapIsExact` | fs.c:58-97 | a data block's bit is set if and only if exactly one place references the block |
| `Fs.ClaimPtr` | fs.c:374-402 | giving a block to one place (direct, indirect, or entry of an indirect block) changes no other place's address |
| `Fs.ClaimKeepsOwned` | fs.c:374-402 | and keeps bits = references and no block referenced twice |
| `Fs.ClaimLeaf` | fs.c:374-402 | a block added at an index reads as zeros there; every other block of every file is unchanged |
| `Fs.ClaimIndirect` | fs.c:389-390 | adding an indirect block changes no file |
| `Fs.FillKeepsOwned` | fs.c:483-513 | writing a data block keeps the ownership: no data block is anyone's indirect block |
| `Fs.FillLeaf` | fs.c:483-513 | it changes that one block of that one file |
| `Bitmap.SetBitIs` | fs.c:68-70 | setting a bit in its byte changes no other block's bit |
| `Bitmap.ClearBitIs` | fs.c:91-94 | clearing a bit changes no other block's bit |
| `FsFile.WroteStep` | fs.c:500-506 | one pass of writei's loop extends what has been written by its chunk, for every offset and alignment |
| `FsFile.WroteByte` | fs.c:500-506 | byte by byte: the chunk reads as the source bytes, all else as before, in blocks found or added |
| `FsFile.WroteMaps` | fs.c:500-506 | a pass adds a block only past the end of the file and leaves none missing below it |
| `FsFile.WroteAll` | fs.c:508-512 | after the last pass and the new size the file is written and has no holes |
| `FsFile.WriteIsSplice` | fs.c:483-513 | as sequences: the file's bytes with the stretch replaced or extended, every other file's bytes the same |
| `FsFoot.ClaimExtends` | fs.c:374-402 | balloc for a place moves no address, takes the lowest free block, and changes no block but that one and the indirect block that names it |
| `FsFoot.CoversOneMore` | fs.c:500-506 | a pass of writei's loop covers one block more: no address moves, only the addresses in the range and the indirect block's are added, only those blocks change |
| `FsFoot.FootStep` | fs.c:500-506 | a pass logs exactly what its block adds to the footprint: the block, its bitmap block if it is new, the indirect block if an entry was added, that one's bitmap block if it is new |
| `FsCost.TakenAre` | fs.c:58-80 | a write takes from the bitmap exactly the blocks it adds |
| `FsCost.TakesWhatItNeeds` | fs.c:483-513 | a write takes as many blocks as were missing in its range, and one for the indirect block if it needs one and has none |
| `FsCost.TooFew` | fs.c:58-80 | a pass that finds the disk full means that there were too few blocks for the whole write |
| `FsCost.LogsWhatItChanges` | fs.c:483-513 | a write logs every block that it changes: data, bitmap and inode |
| `FsCost.CostIs` | fs.c:483-513 | the exact number of blocks a write logs: those it writes, one for each bitmap block with new blocks, one for the indirect block if an entry was added, one for the inode if the file grows |
| `FsCost.TakesTheNext` | fs.c:58-80 | a write takes the next free blocks in order |
| `FsTrunc.NextHeld` | fs.c:416-433 | each place's block is still marked when it is freed: bfree does not panic inside itrunc |
| `FsTrunc.TruncKeepsOwned` | fs.c:409-437 | truncation unmarks exactly the file's blocks and the ownership holds without it |
| `FsTrunc.TruncFiles` | fs.c:409-437 | the truncated file is empty and every other file is unchanged |
| `FsTrunc.HeldIsBelongs` | fs.c:416-433 | the places that itrunc visits hold all of the inode's blocks |
| `FsTrunc.FreeCallsAre` | fs.c:416-433 | the calls of log_write of the freeing loops are for the bitmap blocks of the blocks freed |
| `FileSystem.Volume.constructor` | fs.c:173-188 | mounting an image that satisfies the invariant gives a volume that does |
| `FileSystem.Volume.Take` | fs.c:70-73 | marks and zeroes one block, logging its bitmap block and itself |
| `FileSystem.Volume.IsClear` | fs.c:68-69 | the bit test in the byte is the block's free status |
| `FileSystem.Volume.Balloc` | fs.c:58-80 | the first free block, marked and zeroed; panics if and only if there is none |
| `FileSystem.Volume.Bfree` | fs.c:83-97 | unmarks the block; panics if and only if it is not marked |
| `FileSystem.Volume.Attach` | fs.c:381-390 | a new block for an empty address keeps every block accounted for |
| `FileSystem.Volume.AttachEntry` | fs.c:393-396 | a new block for an empty word of the indirect block likewise |
| `FileSystem.Volume.MapEntry` | fs.c:387-399 | bmap through the indirect block |
| `FileSystem.Volume.Bmap` | fs.c:374-402 | the address at bn; nothing changes where it was there, only that block (reading as zeros) is added where it was not, and no address moves; panics if and only if bn is out of range or fewer blocks are free than the index needs; what it logs, exactly |
| `FileSystem.Volume.WriteChunk` | fs.c:500-506 | one pass of writei as one change to one block of one file, and what it logs |
| `FileSystem.Volume.Iupdate` | fs.c:222-238 | the inode on disk is the one in memory |
| `FileSystem.Volume.Readi` | fs.c:454-478 | the bytes returned are the slice of the file's contents from off, cut at its end, and their number is the result; -1 exactly when off is past the end or off + n wraps; allocates, changes and logs nothing |
| `FileSystem.Volume.WriteBlocks` | fs.c:500-506 | writei's loop: the range is written and covered, and the blocks logged are exactly its footprint; it fails only when fewer blocks are free than the range needs |
| `FileSystem.Volume.Writei` | fs.c:483-513 | on a disk without holes: writes src at off, size becomes the maximum, all other bytes and files are unchanged, in-memory and on-disk inodes agree again. On any disk: the calls of log_write are exactly those of the footprint, with the inode last where the file grows; refuses exactly the writes that start past the end, wrap or exceed the largest file; panics if and only if fewer blocks are free than it needs |
| `FileSystem.Volume.FreePlace` | fs.c:83-97 | frees the block at a place whose bit is set |
| `FileSystem.Volume.FreeIndirect` | fs.c:423-432 | frees every block named in the indirect block and then that block, each once |
| `FileSystem.Volume.FreeDirects` | fs.c:416-421 | frees every direct block, each once |
| `FileSystem.Volume.Itrunc` | fs.c:409-437 | frees the file's blocks, each once and nothing else, and never panics in bfree; its calls of log_write are, in order, one for the bitmap block of each block and one for the inode |
| `FileSystem.Volume.Iput` | fs.c:333-353 | an iput that frees its inode truncates it and logs the inode once more; any other changes and logs nothing |
| `TruncBound.PutFitsIff` | fs.c:341-346 | the calls of an iput that frees its inode keep the reservation at every point if and only if the file's blocks lie in fewer than MAXOPBLOCKS - 1 bitmap blocks: the inode is logged again after the truncation |
| `TruncBound.PutIsSafeIff` | log.c:213-233 | and no run with it beside any operations that keep their reservation panics if and only if that is so |
| `TruncBound.SmallDiskFits` | fs.c:341-346 | so it always fits on a disk with fewer than MAXOPBLOCKS - 1 bitmap blocks |
| `TruncBound.CloseInode` | file.c:75-79 | fileclose of an inode as one transaction, with its exact calls and the exact condition |
| `TruncBound.CloseScattered` | file.c:75-79 | volumes on both sides: closing a file of n blocks in n bitmap blocks keeps the reservation if and only if n is less than MAXOPBLOCKS - 1, so nine bitmap blocks are too many |
| `FileWrite.ChunkFitsTransaction` | file.c:128-158 | for any offset, alignment and number of bitmap blocks a chunk logs at most MAXOPBLOCKS distinct blocks |
| `FileWrite.RoomForTheInode` | file.c:128-158 | and fewer than that before the inode is logged |
| `FileWrite.ChunkWithinLimit` | file.c:128-158 | so no call of log_write of a chunk comes when its reservation is used up, and none exceeds it |
| `FileWrite.ChunkIsTransaction` | file.c:128-158 | a chunk as a transaction: within the limit at every call, and with every block that it changes |
| `FileWrite.ChunkTouches` | file.c:135-140 | a chunk lies in three blocks, or four of which the first is already allocated |
| `FileWrite.WritesCompose` | file.c:137-156 | consecutive writes are one longer write |
| `FileWrite.ReadAfterWrite` | fs.c:454-513 | after a write the slice of the file's contents at its offset is what was written |
| `FileRead.Fileread` | file.c:96-115 | a read returns the next n bytes of the file, fewer only at its end, and moves the offset past them |
| `FileRead.ReadToEnd` | cat.c:7-21 | reads with a buffer of any size, each where the last one ended, until one returns 0: joined together they are the whole file, and the loop ends |
| `FileWrite.Filewrite` | file.c:119-160 | n bytes of addr are in the file and the offset is past them, or it stops at a chunk that writei refuses and returns -1 with exactly the earlier chunks written; between chunks every block has one owner and no file a hole; every transaction keeps its limit and logs what it changes; a negative count writes nothing and returns -1 |
| `WriteBound.TenBlocksAreReached` | file.c:128-158 | the limit is sharp: on every volume without holes where a file of 6143 bytes has no indirect block and the next four free blocks have four different bitmap blocks, writing a chunk at its end logs exactly MAXOPBLOCKS blocks |
| `WriteBound.AHoleNeedsEleven` | file.c:128-158 | and needs the absence of holes: with the last direct block missing and five such free blocks the same write logs one more |
| `WriteBound.CrossingCost` | file.c:128-158 | both counts, from the exact footprint |
| `WriteBound.CrossingsExist` | file.c:128-158 | such disks exist, with every other block accounted for |
| `FileOperations.FileOperationsNeverPanic` | file.c:119-160 | any number of concurrent filewrite chunks, and closes that free their file on a disk with fewer than MAXOPBLOCKS - 1 bitmap blocks, never panic in log_write |
| `FsCrash.FilewriteSurvivesCrash` | file.c:136-157 | a crash anywhere in the commit of any chunk, then recovery cut off any number of times: the recovered disk is a file system where every block has one owner and no file has a hole, and the file holds exactly the chunks whose header reached the disk |
| `FsCrash.AtomicallyIs` | log.c:192-202 | committing the logged blocks of each chunk leads from the disk of one chunk to that of the next |
| `FsCrash.EncodeOutside` | fs.c:222-238 | however bits and inodes lie in their blocks, a block outside the logged ones is the same on disk |
| `SwapFile.WriteToSwapFile` | fs.c:793-801 | a page written at a slot up to the end of the swap file is the page written to that slot of the table's swap space; past the end and at the slot -1 the write is refused and nothing changes; other files keep their pages |
| `SwapFile.ReadFromSwapFile` | fs.c:803-810 | reads back the page at the slot, or nothing past the end |
| `SwapFile.WriteIsWriteSlot` | fs.c:793-801 | the bytes written at a slot's offset are that slot's page |
| `SleepLock.SleepLockIsSafe` | sleeplock.c:22-42 | for any number of processes and any interleaving: locked if and only if exactly one process holds, and with the inner spinlock free nobody sleeps on an unlocked lock |
| `SleepLock.ReturnMeansDone` | sleeplock.c:22-42 | a return from acquiresleep leaves its caller holding the lock, and a return from releasesleep leaves it not holding it |
| `SleepLock.InsideIsHolding` | sleeplock.c:22-42 | in every interleaving, the processes between a return from acquiresleep and their next releasesleep are exactly those that hold the lock outside both |
| `SleepLock.MutualExclusion` | sleeplock.c:22-42 | never two processes between acquiresleep and releasesleep, and the lock is locked while one is |
| `SleepLockRun.Handover` | sleeplock.c:22-42 | for any two processes a run from the start in which the second sleeps on the lock that the first holds, and holds it after the first has released it |
| `SleepLockCpu.RunningIff` | proc.c:387-457 | a process has a CPU after a step if and only if the scheduler just dispatched it, or it had one and did not enter sched |
| `SleepLockCpu.SleepsOnIff` | proc.c:482-539 | a sleeper sleeps on, on its channel, if and only if it is not killed and the step does not wake the channel |
| `SleepLockCpu.SchedulerHoldsIff` | proc.c:387-457 | the scheduler has ptable.lock after a step if and only if it took it or was handed it in sched, or had it and neither dropped it nor handed it to a process |
| `SleepLockCpu.HoldersGoOn` | proc.c:387-539 | over every run no spinlock is held for ever: its holder can take its next statement, unless that is to acquire ptable.lock, whose holder can |
| `SleepLockCpu.NoStaleChannel` | proc.c:482-518 | over every run: a process outside sleep is on no channel |
| `SleepLock.StepKeepsInv` | proc.c:481-538 | every statement of acquiresleep, releasesleep, sleep and wakeup keeps the invariant |
| `SleepLock.Wakeup1Loop` | proc.c:521-529 | wakeup1's loop makes runnable exactly the sleepers on the channel |
| `ProcTree.ProcessTreeIsSafe` | proc.c:277-376 | whenever ptable.lock is free: no process has an exited parent, every process but init has a parent, nobody sleeps in wait beside a zombie child or without a child, and wait returns each pid at most once |
| `ProcTree.ExitGivesChildrenToInit` | proc.c:306-318 | exit passes every child to init and wakes init for a dead one |
| `ProcTree.StepKeepsInv` | proc.c:198-376 | every step of fork, exit, wait, kill, sleep and wakeup keeps the tree invariant |
| `ProcTree.RunKeepsInv` | proc.c:198-376 | and so does every run |
| `ProcTree.BootInv` | proc.c:136-170 | the table with init alone satisfies it |
| `ProcKilled.BornKilledIff` | proc.c:74-93 | over every run: the process that fork takes a slot for is born killed if and only if a kill has found the slot, unused or an embryo then, and wait has not reaped it since |
| `ProcKilled.KilledIff` | proc.c:543-563 | over every run: a slot is marked killed if and only if a kill has found it and wait has not reaped it since |
| `ProcKilled.BearsKilledIff` | proc.c:549-551 | in a table with two slots or more, some run whose kills are of given pids bears a killed process if and only if one of them is not init's: 0 and the pids of failed forks match unused slots |
| `ProcCalls.KillMarksAndWakes` | proc.c:543-561 | kill marks the first slot with the pid, leaves it runnable if it slept and in its state otherwise, and changes nothing else |
| `ProcCalls.KillOfNobody` | proc.c:543-563 | a kill of a pid that no slot has changes nothing |
| `ProcCalls.AwakeAfterKill` | proc.c:543-561 | over every run: a process that a kill has found is not asleep again before it goes to sleep by itself |
| `ProcCalls.SleepSleeps` | proc.c:482-518 | sleep leaves its caller asleep on the channel and changes no other process |
| `ProcCalls.WakeupWakes` | proc.c:522-539 | wakeup leaves nobody asleep on its channel and every other process as it was |
| `ProcCalls.SleepsThroughoutIff` | proc.c:482-561 | over every run: a process sleeps through on its channel if and only if no wakeup of the channel and no kill of it happens |
| `ProcCalls.RunningIff` | proc.c:387-457 | a process runs after a step if and only if the scheduler picked it, or it ran and neither yielded, slept, exited nor found nothing to collect in wait |
| `ProcCalls.OffUntilScheduled` | proc.c:387-457 | over every run: a process off the CPU stays off it until the scheduler picks it |
| `ProcCalls.WaitReaps` | proc.c:331-365 | with a zombie child wait returns its pid, frees its slot and changes no other |
| `ProcCalls.WaitGivesUpIff` | proc.c:367-378 | without one it gives up if and only if the caller has no children or is killed, and sleeps on its own channel otherwise |
| `ProcCalls.NobodyIsLost` | proc.c:199-380 | over every run: the pids of finished forks are exactly those in the table, running or zombie, and those that some wait has returned |
| `ProcTable.Table.WakeAll` | proc.c:521-529 | the in-place loop is the specified wakeup |
| `ProcTable.Table.ExitProc` | proc.c:277-326 | the in-place exit, with its loop over children, is the exit step |
| `ProcTable.Table.WaitPass` | proc.c:330-376 | one pass of wait reaps the first zombie child, gives up, or goes to sleep, as specified |
| `ProcTable.Table.KillPid` | proc.c:543-561 | kill finds a slot if and only if one has the pid; the first such slot is marked, runnable if it slept and in its state otherwise, and no other slot changes |
| `Pipe.WrappedCounters` | pipe.c:13-20 | the tests and indices on wrapping 32-bit counters are those on the true byte counts |
| `Pipe.PushCarries` | pipe.c:93-93 | a stored byte is appended to the bytes in flight, across counter wrap |
| `Pipe.PopCarries` | pipe.c:113-117 | the byte taken is the oldest in flight |
| `Pipe.Buffer.constructor` | pipe.c:22-57 | a new pipe carries nothing |
| `Pipe.Buffer.Fill` | pipe.c:84-94 | the bytes stored are appended in order, until all are stored or PIPESIZE are in flight |
| `Pipe.Buffer.Drain` | pipe.c:113-117 | returns the oldest bytes in flight, as many as there are up to n |
| `PipeSystem.PipeIsFifo` | pipe.c:59-121 | in every interleaving the bytes read are a prefix of the bytes written and at most PIPESIZE are in flight |
| `PipeSystem.PipeLosesNoWakeup` | pipe.c:59-121 | with the lock free no writer sleeps on a pipe with room, and no reader on a pipe with bytes or closed for writing unless bytes were stored since the last wakeup of readers |
| `PipeCalls.EveryCall` | pipe.c:78-121 | over every run, every byte stored belongs to one write call and every byte taken to one read call. The bytes of a write are there in its order, all of them unless it is under way, killed or without readers; a read takes at most n bytes, and some unless it is under way, killed or without writers |
| `PipeCalls.ShortOnlyAtTheEdge` | pipe.c:78-121 | a write that returns early leaves the pipe full, and a read that returns fewer than n bytes leaves it empty |
| `PipeCalls.RunKeepsBook` | pipe.c:78-121 | the invariant behind them: what a call has moved and what it has to go make up what was asked, in every state |
| `PipeEnds.EndOpenIff` | pipe.c:59-76 | over every run: an end of the pipe is open if and only if its last descriptor has not been closed or the process closing it has yet to reach pipeclose's assignment |
| `PipeEnds.KilledNeverSleeps` | pipe.c:85-112 | over every run: a process killed before its test for room or bytes never sleeps in the pipe again |
| `PipeEnds.KillWakes` | proc.c:543-561 | a killed sleeper is awake, and once dispatched it is such a process |
| `PipeEnds.HoldersGoOn` | pipe.c:59-121 | over every run no spinlock is held for ever: the pipe's lock holder can take its next statement, unless that is to acquire ptable.lock, whose holder can |
| `PipeStranded.ReadersSafeIff` | pipe.c:79-98 | no run strands a reader, asleep on a pipe with bytes while nobody is at work on the pipe, if and only if processes are not killed or there is only one |
| `PipeStranded.NoKillNoStranded` | pipe.c:79-98 | without kill: whoever stored bytes is still at work until it wakes the readers |
| `PipeStranded.AloneNotStranded` | pipe.c:79-121 | a process alone with the pipe does not strand itself, killed or not |
| `PipeStranded.KilledWriterLosesWakeup` | pipe.c:85-89 | with two processes and kill: a run for any bytes that overfill the pipe in which the killed writer returns without waking the sleeping reader |
| `PipeSystem.StepKeepsInv` | pipe.c:59-121 | every statement of pipewrite, piperead, pipeclose, sleep and wakeup keeps the pipe's invariant |
| `FreeList.InsertKeepsChain` | umalloc.c:24-44 | freeing keeps the list in address order with no two touching blocks |
| `FreeList.InsertKeepsSound` | umalloc.c:24-44 | free and live blocks stay disjoint and together are exactly the units obtained from sbrk |
| `FreeList.TakeKeepsChain` | umalloc.c:75-82 | taking a block or its tail end keeps the list ordered with no touching blocks |
| `FreeList.TakeKeepsSound` | umalloc.c:75-82 | the allocated block was free, becomes live, and the units stay a partition |
| `FreeList.GrowKeepsSound` | umalloc.c:46-61 | a fresh region from sbrk joins the partition |
| `Umalloc.UnitsHoldBytesIff` | umalloc.c:69-69 | the units returned hold the bytes asked for if and only if the 32-bit rounding does not wrap, and then waste less than one unit |
| `Umalloc.LargestRequestGetsNothing` | umalloc.c:69-69 | the largest request gets a bare header |
| `Umalloc.SbrkAskedRightIff` | umalloc.c:54-54 | sbrk is asked for the bytes that morecore then frees if and only if the request is at most 2 GiB - 16 |
| `Umalloc.SearchStops` | umalloc.c:30-32 | free's two exit conditions together mean that the block belongs right after p |
| `Umalloc.RelinkRight` | umalloc.c:33-37 | joining with the successor, as pointer writes |
| `Umalloc.RelinkLeft` | umalloc.c:38-42 | joining with the predecessor, as pointer writes, closes the ring |
| `Umalloc.Heap.constructor` | umalloc.c:21-22 | nothing is live and nothing was obtained |
| `Umalloc.Heap.Search` | umalloc.c:30-32 | the search ends at the one place for the block from any position of freep |
| `Umalloc.Heap.Free` | umalloc.c:24-44 | the block is no longer live, its units are free, and the ring is the address-ordered list with neighbours joined |
| `Umalloc.Heap.Morecore` | umalloc.c:46-61 | a granted region becomes free and some block is then large enough; nothing changes when sbrk fails |
| `Umalloc.Heap.Carve` | umalloc.c:75-84 | the chosen block or its tail becomes live and the ring is the rest |
| `Umalloc.Heap.Start` | umalloc.c:70-73 | the first call makes base a ring of one |
| `Umalloc.Heap.Malloc` | umalloc.c:63-90 | next fit: the first large enough block after freep; sbrk is called, once, only if none fits, and the call then succeeds, also when the region merges into its predecessor; null if and only if none fits and sbrk fails |
| `Shell.GetToken` | sh.c:265-308 | advances past every token but the end of the line; a word is a maximal run of word characters |
| `Shell.ParseRedirs` | sh.c:374-397 | the redirection files are words of the line, and the cursor only advances |
| `Shell.ParseArgs` | sh.c:426-445 | the arguments are words of the line, fewer than MAXARGS, or the shell panics |
| `Shell.ParseBlock` | sh.c:399-413 | a block returned is made of words of the line |
| `Shell.ParseExec` | sh.c:415-446 | so is a command |
| `Shell.ParsePipe` | sh.c:361-372 | so is a pipeline; the cursor never goes back or past the end |
| `Shell.ParseLine` | sh.c:344-359 | so is a line |
| `Shell.ParseCmd` | sh.c:327-342 | on every line the parser ends with a command of words of the line, each argv with room for its null, or a panic |
| `ShellParser.Cursor.constructor` | sh.c:327-334 | parsing starts at the line's first character |
| `ShellParser.Cursor.SkipBlanks` | sh.c:271-273 | the cursor stops at the next character that is not blank |
| `ShellParser.Cursor.PeekAt` | sh.c:310-320 | peek's loop and answer |
| `ShellParser.Cursor.NextToken` | sh.c:265-308 | gettoken's loops compute the token |
| `ShellParser.Cursor.Redirs` | sh.c:374-397 | parseredirs' loop on the shared cursor is the recursive function |
| `ShellParser.Cursor.Args` | sh.c:426-445 | so is parseexec's loop |
| `ShellParser.Cursor.ExecOrBlock` | sh.c:415-446 | so is parseexec |
| `ShellParser.Cursor.Block` | sh.c:399-413 | so is parseblock |
| `ShellParser.Cursor.PipeAt` | sh.c:361-372 | so is parsepipe |
| `ShellParser.Cursor.Backs` | sh.c:350-353 | so is parseline's loop over '&' |
| `ShellParser.Cursor.LineAt` | sh.c:344-359 | so is parseline |
| `ShellParser.Nulterminate` | sh.c:449-493 | NULs are written at the ends of the command's words and nowhere else |
| `ShellParser.WordsReadBack` | sh.c:449-493 | no NUL lands inside a word: each argument and file read as a C string is exactly its slice of the line |
| `ShellParser.ParseCommand` | sh.c:327-342 | parsecmd on a buffer: the command of the line, every word a C string in place; the buffer is untouched on a panic |
| `ShellPrint.RedirsReadBack` | sh.c:374-397 | redirections written out are read back |
| `ShellPrint.ArgsReadBack` | sh.c:415-446 | arguments and redirections written out are read back |
| `ShellPrint.ExecReadsBack` | sh.c:399-446 | a command or parenthesised block written out is read back |
| `ShellPrint.PipeReadsBack` | sh.c:361-372 | a pipeline written out is read back |
| `ShellPrint.BackReadsBack` | sh.c:344-353 | trailing '&' written out are read back |
| `ShellPrint.LineReadsBack` | sh.c:344-359 | a line written out is read back, wherever it stands |
| `ShellPrint.ParseReadsBack` | sh.c:327-342 | round trip: every command tree (with fewer than MAXARGS arguments a command, and words of word characters) has a line that parsecmd reads back as that tree |
| `ShellRedirect.AppendIsOutput` | sh.c:374-397 | a redirection written with '>>' and the same one written with '>' parse to the same redirections, or to the same panic, with the cursor one character apart |
| `ShellBlanks.TokensDecide` | sh.c:265-446 | two lines with the same tokens parse to the same command, words and files compared as text, or to the same panic |
| `ShellBlanks.BlankKeepsTokens` | sh.c:262-308 | one of the five blanks put anywhere into a line leaves its tokens the same if and only if it does not cut a token in two |
| `ShellBlanks.BlankBetweenTokens` | sh.c:262-446 | so a blank may stand before, after and between tokens without changing the command |
| `ShellBlanks.BlankAtEnd` | sh.c:262-342 | a line followed by a space, tab, carriage return, newline or vertical tab is the same command |
| `ShellBlanks.OneWord` | sh.c:262-308 | a line without those blanks and the seven symbols is one word |
| `ShellBlanks.OneMark` | sh.c:263-301 | each symbol is a token of its own, and so is '>>' |
| `ShellWords.NothingDropped` | sh.c:327-446 | the words of the command of a line that parses are exactly the words of the line, each as often as it stands there: nothing is dropped or made up |
| `Grep.ConsDivides` | grep.c:84-96 | an item that fits a prefix and a rest that matches after it match together |
| `Grep.TailDivides` | grep.c:84-96 | and every match splits that way |
| `Grep.MatchHere` | grep.c:84-96 | true if and only if the pattern's items divide a prefix of the text |
| `Grep.MatchStar` | grep.c:98-106 | true if and only if some number of repetitions is followed by a match of the rest |
| `Grep.Match` | grep.c:72-82 | true if and only if the pattern matches a suffix of the text, the whole text under a leading '^', the empty suffix included |

## Left out

- Device drivers, interrupts, boot, segment and TLB handling, and the x86 memory model: the disk and the
  spinlocks are primitives.
- exec with paging, and shrinking sbrk with pages paged out: the paging tables are those of one address
  space that only grows; `VmFork.Free` models deallocuvm only as freevm uses it.
- The choice of victim by NFUA, LAPA, AQ and RROBIN: the paging model is proved for every
  choice; of the policies only SCFIFO is modelled.
- The free page counters of kalloc.c:77-104: they do not describe the free list once frames are shared.
- Directories, path names, the inode cache's reference counts, and inode allocation: an inode is named by
  its number, and both its copies are lists.
- Device files in readi and writei, and pipes in filewrite: they leave the file system.
- mkfs.c, and the reading of the superblock: an image is any that satisfies the invariant.
- runcmd, the console, printf and grep's input buffering: input and output.
- Out-of-memory in malloc'ed shell nodes and page table pages: node and page table allocation is not modelled.
- LogFormat.LoadHeader: takes a count of at most LOGSIZE, because read_head would write past log.lh.block for a larger one.
- LogDevice.Device.ReadHead: takes a disk whose header has a count of at most LOGSIZE, for the same reason.
- LogDevice.Device.constructor: stands for initlog up to the call of recover_from_log, which is a method of its own.
- LogDevice.Device.LogWrite: is called inside a transaction; the panic outside of one is a panic of `LogReservation.Panics`, and `LogReservation.OnlyFullLogPanics` excludes it.
- FileSystem.Volume.constructor: takes any image that satisfies the invariant, because reading the superblock and the inodes is not modelled.
- FileSystem.Volume.Iupdate: an inode is its addresses and size, because type, major, minor and nlink belong to directories and devices.
- FileSystem.Volume.Iput: takes as an argument whether it frees the inode, because links and references are not modelled.
- TruncBound.CloseInode: is fileclose's transaction; where iput is the end of a longer one, as in unlink, the blocks logged before it count too.
- FileSystem.Volume.Writei: after a panic on a full disk it says only that the disk is full, because the run ends there.
- FsCrash.FilewriteSurvivesCrash: is about one operation at a time; a commit that several operations share is one transaction of `Log.RunSurvivesCrash` with all their blocks.
- VmKernel.Kernel.AllocUvm: running out of frames ends the run, because the deallocuvm that allocuvm then calls is modelled only as freevm uses it.
- Umalloc.Heap.Malloc: when sbrk succeeds, the region is taken to be as large as morecore goes on to treat it; `Umalloc.SbrkAskedRightIff` says for which requests that is what sbrk was asked for.
- Umalloc.Heap.Morecore: the same.
- Umalloc.Heap.Free: takes the live block as a ghost argument; freeing an address that malloc did not return is undefined in the source.
- Scfifo.Pager.Select: assumes that the timestamp does not wrap during the call and that no page is accessed meanwhile, as the hardware's accessed bits are a snapshot in the model.
- PipeSystem.PipeLosesNoWakeup: says of readers only what holds while processes may be killed; `PipeStranded.ReadersSafeIff` has the exact condition.
- Bio.CacheIsCoherent: a caller that changes a buffer marks it dirty before it lets go of it, as every caller in the kernel does; Update is that pair of actions as one step.
- ShellPrint.ParseReadsBack: reads a tree back from the line written for it; it does not say that every line that parses is such a line up to blanks.
