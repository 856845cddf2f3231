# Verified core of the xv6 kernel with copy-on-write fork

This project models the hard parts of the kernel and user programs under `initial-xv6/src` and of
`concurrency/file_manager.c`, and proves what they promise. `dafny verify dfyconfig.toml` checks all of it.

Code that works in place is modelled in place: classes with the source's fields and loops, each proved against a
function on values, about which the theorems are stated. Code whose point is interleaving is a step system, and its
theorems are about every state of every run.

| files | subject |
|---|---|
| `Options`, `Blocks` | options and set sizes; disk blocks and the words in them |
| `WriteAheadLog`, `Log`, `WalSystem`, `WalRuns`, `WalDurability` | the redo log: crash theory, the code, concurrent runs, what a crash cannot lose |
| `Bio`, `Lru`, `CacheView` | the buffer cache: list, recycling order, what a reader sees |
| `Cow`, `CowSteps`, `CowRuns`, `CowCalls`, `CowTraces`, `CowCopyout`, `UserMemory` | copy-on-write memory: invariant, steps, runs, whole calls, whole calls as runs, copyout, the code |
| `Sv39` | three-level page tables |
| `Bitmap`, `Files`, `FileBytes`, `FileLog`, `FileSystem`, `FullLog` | free map, block ownership, file content, what a write logs, the code, a write that fills its share of the log |
| `Arena`, `Umalloc` | the user-level allocator |
| `SleepLock`, `SleepRuns` | sleep locks, sleep, wakeup and kill: the steps and what they keep, whole calls |
| `Virtio`, `VirtioData`, `Descriptors` | the disk queue: the rings, what requests move, the code |
| `FileManager` | the file manager's semaphores |
| `Shell`, `ShellGrammar`, `ShellPlaces`, `ShellRoundTrip`, `ShellParser`, `ShellStrings` | the shell's parser: functions, the grammar, words, round trips, the code, nulterminate |
| `Grep` | grep's matcher |

How to read the main results:

- **Crash safety.** A disk *stands for* an image if recovering it gives that image. Commit and recovery are sequences
  of atomic block writes. `CrashAtomicity` cuts them anywhere, any number of times. `WalRuns` lifts this to
  concurrent operations through the cache: the durable image is always the content at a moment with no operation in
  progress, and (`WalDurability`) never from before the last moment at which everything had been committed.
- **Copy-on-write.** The specification is a map from process and virtual page to content and rights (read, write,
  execute, user), which fork copies at once; a copy-on-write page counts as one that may be written. `CowIsEager` says
  that every run of the kernel's steps reads and permits the same. `leaked` in the state counts references
  without an entry, which only a `uvmcopy` that fails part way leaves behind.
- **copyout.** It ignores the fault handler's answer and does not test PTE_W, so the promise that a write stays
  private is false in general: `CopyoutReachesChild` is a run that shows it, and `CopyoutExact` gives the exact
  condition, read off the page tables, counts and free list before the call.
- **Log budget.** `filewrite` passes at most 3072 bytes to `writei` so that one operation logs at most 10 blocks.
  `Writei` has the exact set of blocks, `LogCount` the bound, and `FullWrite` an image and a call that reach it.
- **Disk requests.** The device does what the three descriptors and the request header say, completes requests in any
  order, and may fail them. `IoDone` says that by the time `virtio_disk_rw` returns, what was asked for has happened.
- **Shell.** The grammar is stated over tokens, apart from the parser; `ParseExact`, `ParseSound` and `ParseComplete`
  say that the parser accepts exactly its sentences and builds exactly the commands they stand for.
- **File manager.** With `max_concurrent` of 2 or more a READ can be taken up after the DELETE
  (`ReadAfterDelete`); with 0 or 1 it cannot (`ReadSafetyExact` has both directions).

## Model

| member | source | states |
|---|---|---|
| `Blocks.WordOfSetWord` | initial-xv6/src/kernel/log.c:103-114 | a 32-bit little-endian word stored in a block reads back, and storing one word changes no other |
| `WriteAheadLog.HeadOfSetHead` | initial-xv6/src/kernel/log.c:87-114 | the header that write_head lays out is the list that read_head finds in it |
| `WriteAheadLog.RecoveryPrefix` | initial-xv6/src/kernel/log.c:117-124 | a recovery cut after any of its writes leaves a disk that still stands for the same file-system image |
| `WriteAheadLog.RecoveryRestores` | initial-xv6/src/kernel/log.c:117-124 | after any series of recoveries cut anywhere, the one that completes leaves exactly the image the disk stood for, and an empty log |
| `WriteAheadLog.HeaderCommits` | initial-xv6/src/kernel/log.c:101-114 | the header write is the commit point: before it the disk stands for the old image, after it for the new one |
| `WriteAheadLog.CommitPrefix` | initial-xv6/src/kernel/log.c:193-203 | a commit cut after k writes stands for the old image while the header is unwritten and for the new one from then on |
| `WriteAheadLog.CrashAtomicity` | initial-xv6/src/kernel/log.c:68-124 | crash atomicity: cut commit after any of its disk writes, cut any number of recoveries anywhere; the recovery that completes leaves all home blocks as before the transaction or all as after it, and an empty log |
| `WriteAheadLog.CommitCompletes` | initial-xv6/src/kernel/log.c:193-203 | a commit that completes leaves the new contents at home and the log empty |
| `Bio.UnlinkRing` | initial-xv6/src/kernel/bio.c:128-129 | unlinking a buffer keeps one circular doubly linked list of the others, in the same order |
| `Bio.PushRing` | initial-xv6/src/kernel/bio.c:130-133 | linking a buffer after the head keeps one circular doubly linked list with it at the front |
| `Bio.OneBuffer` | initial-xv6/src/kernel/bio.c:58-89 | two buffers never cache the same block of a device other than 0 |
| `Bio.LookupExact` | initial-xv6/src/kernel/bio.c:66-73 | the first loop of bget finds a buffer if and only if that buffer caches the block |
| `Bio.GetKeepsInv` | initial-xv6/src/kernel/bio.c:58-89 | bget keeps one buffer per block and the list over all buffers |
| `Bio.PutKeepsInv` | initial-xv6/src/kernel/bio.c:116-137 | the end of brelse keeps one buffer per block and the list over all buffers |
| `Bio.ReadKeepsInv` | initial-xv6/src/kernel/bio.c:92-103 | bread keeps one buffer per block and the list over all buffers |
| `Bio.BufferCache.constructor` | initial-xv6/src/kernel/bio.c:36-53 | binit links the head and all NBUF buffers into one ring, the last initialised first |
| `Bio.BufferCache.FindCached` | initial-xv6/src/kernel/bio.c:66-73 | the forward loop returns what the lookup on values returns, changing nothing |
| `Bio.BufferCache.FindUnused` | initial-xv6/src/kernel/bio.c:77-86 | the backward loop returns the last unreferenced buffer of the list, or none when every buffer is referenced |
| `Bio.BufferCache.Bget` | initial-xv6/src/kernel/bio.c:58-89 | the buffer of the block with one more reference, or the last unreferenced one made invalid for it, or none; nothing else changes |
| `Bio.BufferCache.Bread` | initial-xv6/src/kernel/bio.c:92-103 | as bget, with the sleep lock taken and the data read from disk exactly when the buffer was not valid |
| `Bio.BufferCache.Bwrite` | initial-xv6/src/kernel/bio.c:106-112 | one disk write of the buffer's block; a caller that does not hold the lock gets the panic and writes nothing |
| `Bio.BufferCache.Brelse` | initial-xv6/src/kernel/bio.c:116-137 | drops the lock and a reference, and moves the buffer to the front exactly when that was the last one; not holding it is the panic |
| `Bio.BufferCache.Bpin` | initial-xv6/src/kernel/bio.c:139-144 | one more reference, nothing else |
| `Bio.BufferCache.Bunpin` | initial-xv6/src/kernel/bio.c:146-151 | one reference less, nothing else |
| `Bio.BufferCache.MoveFront` | initial-xv6/src/kernel/bio.c:128-133 | the buffer comes to the front and the others keep their order |
| `Lru.RunKeeps` | initial-xv6/src/kernel/bio.c:36-151 | every run keeps one buffer per block and the list in the order of last move to the front |
| `Lru.RecyclesLeastRecent` | initial-xv6/src/kernel/bio.c:75-88 | a miss recycles the unreferenced buffer moved to the front longest ago, and fails only when every buffer is referenced |
| `CacheView.ReadSettled` | initial-xv6/src/kernel/bio.c:92-103 | a read through a settled cache returns the block's content in the plain block map and leaves the cache settled |
| `CacheView.UnpinSettled` | initial-xv6/src/kernel/log.c:79-81 | unpinning a block that is home leaves the cache showing the same block map |
| `CacheView.ReadSucceeds` | initial-xv6/src/kernel/bio.c:58-89 | bget finds a buffer for a pinned block and whenever pins and held buffers leave one over; with all buffers pinned it fails on any other block, and it fails only with every buffer referenced |
| `Log.Log.WriteHead` | initial-xv6/src/kernel/log.c:102-114 | writes exactly the header block for the current list, seen through the cache; it lacks a buffer exactly when as many blocks are pinned as there are buffers |
| `Log.Log.ReadHead` | initial-xv6/src/kernel/log.c:86-98 | loads exactly the list the header on disk holds; it never lacks a buffer |
| `Log.Log.WriteLog` | initial-xv6/src/kernel/log.c:178-191 | its disk writes are the logged blocks, in order, to the log area; it stops early only with every buffer referenced, and exactly when the logged blocks pin all of them |
| `Log.Log.InstallTrans` | initial-xv6/src/kernel/log.c:68-83 | its disk writes are the logged blocks, in order, to their home places, and each is unpinned once unless recovering; it completes exactly if it is recovering or fewer blocks are logged than there are buffers |
| `Log.Log.Commit` | initial-xv6/src/kernel/log.c:193-203 | its disk writes are a prefix of exactly the commit sequence; complete, the disk is the file-system image, nothing is pinned and the log is empty; it completes if and only if fewer than NBUF blocks are logged |
| `Log.Log.RecoverFromLog` | initial-xv6/src/kernel/log.c:116-124 | its disk writes are exactly the recovery sequence and the disk is then the recovered one; it never lacks a buffer |
| `WalSystem.StepKeeps` | initial-xv6/src/kernel/log.c:126-235 | every step of concurrent processes (bread, stores, log_write, brelse, begin_op, end_op and each step of commit) keeps the cache, log and durability invariants together |
| `WalRuns.SomeRun` | initial-xv6/src/kernel/log.c:126-143 | there are runs: from a blank disk any process can begin an operation |
| `WalRuns.RunInv` | initial-xv6/src/kernel/log.c:126-235 | those invariants hold in every state of every run |
| `WalRuns.CrashRecovers` | initial-xv6/src/kernel/log.c:68-124 | a crash in any state of any run, then any interrupted recoveries: the completed recovery gives exactly the durable image and an empty log |
| `WalRuns.DurableIsQuiescent` | initial-xv6/src/kernel/log.c:146-203 | the durable image is the file-system content at an earlier moment with no operation in progress and nothing unlogged, so every operation is in it wholly or not at all |
| `WalDurability.QuietInRuns` | initial-xv6/src/kernel/log.c:146-175 | in every run, whenever no operation and no commit is in progress, the log is empty and everything stored is durable |
| `WalDurability.EndedSurvives` | initial-xv6/src/kernel/log.c:146-203 | durability: after a crash at any moment following such a moment, and any interrupted recoveries, the recovered image has the last store to every block up to a moment since then at which no operation was in progress, so no operation that had ended and been committed is lost |
| `WalDurability.StoreSurvives` | initial-xv6/src/kernel/log.c:146-203 | a store made before such a moment, and not overwritten since, is in the image recovered after a crash at any later moment |
| `WalDurability.CommitAdvances` | initial-xv6/src/kernel/log.c:155-203 | while a process commits, each step of commit is its own and brings the end one step closer, and no other step touches the commit |
| `WalDurability.CommitCanAdvance` | initial-xv6/src/kernel/log.c:193-203 | a process that commits and has its buffers can always take the next step of commit |
| `WalDurability.BeginExact` | initial-xv6/src/kernel/log.c:126-143 | begin_op goes through if and only if no commit is under way and the log has room for the budget of one more operation |
| `WalDurability.OperationCanAdvance` | initial-xv6/src/kernel/log.c:214-235 | an operation that holds a home block can change it, and log it as long as its budget and the log area last |
| `WalDurability.CanEnd` | initial-xv6/src/kernel/log.c:146-175 | an operation that has logged what it changed can end, and the last to end is the one that commits |
| `WalRuns.ReadsLatest` | initial-xv6/src/kernel/bio.c:58-112 | whoever holds a valid buffer of a home block sees what was last stored in that block, however often its buffer was recycled |
| `WalRuns.FsIsLastStored` | initial-xv6/src/kernel/log.c:68-83 | copying to the log, installing and recycling change no block: its content is what was last stored |
| `WalRuns.PinsMatch` | initial-xv6/src/kernel/log.c:214-235 | every logged block stays cached with one extra reference until unpinned after installation, and every other buffer has one reference per user |
| `WalRuns.Reserved` | initial-xv6/src/kernel/log.c:126-175 | logged blocks plus unspent budgets stay within LOGSIZE, no block is listed twice, outstanding counts the active operations, and none is active during a commit |
| `WalRuns.RefusedOnlyBySize` | initial-xv6/src/kernel/log.c:219-220 | an operation within its budget is refused by log_write exactly when the on-disk log area is the smaller bound |
| `Cow.KallocFresh` | initial-xv6/src/kernel/kalloc.c:119-135 | the page handed out is mapped by nobody, not the kernel's own and counted 0 |
| `Cow.KallocFree` | initial-xv6/src/kernel/kalloc.c:119-135 | kalloc keeps the free list exactly the pages of count 0, each once |
| `Cow.KfreeFree` | initial-xv6/src/kernel/kalloc.c:92-114 | kfree keeps the free list exactly the pages of count 0, each once |
| `CowSteps.MappedLive` | initial-xv6/src/kernel/kalloc.c:51-75 | a mapped page has a positive count, so the panics of the count functions are unreachable on it |
| `CowSteps.SharePageOk` | initial-xv6/src/kernel/vm.c:314-332 | a pass of uvmcopy gives the child the parent's page, content and rights to read, write, execute and use it in user mode, and changes nobody else's memory or rights, the parent's included |
| `CowSteps.ShareFailedOk` | initial-xv6/src/kernel/vm.c:320-332 | a pass whose mappages fails changes nothing anyone reads, with one reference more and no entry for it |
| `CowSteps.ReleaseOk` | initial-xv6/src/kernel/vm.c:179-191 | a pass of uvmunmap removes the page from that process and changes nothing anyone else reads |
| `CowSteps.SplitOk` | initial-xv6/src/kernel/trap.c:49-59 | splitting a page that may be written changes what no process reads or may do, leaves the entry alone on a page it can write now, and fails exactly when no page is free |
| `CowSteps.MapNewOk` | initial-xv6/src/kernel/vm.c:236-248 | a new page adds exactly its content and the rights of its entry to one process |
| `CowSteps.KernAllocOk` | initial-xv6/src/kernel/vm.c:85-103 | a page for the kernel's own use changes nothing anyone reads |
| `CowSteps.KernFreeOk` | initial-xv6/src/kernel/kalloc.c:92-114 | freeing a kernel page changes nothing anyone reads; its count was 1 |
| `CowSteps.WriteExact` | initial-xv6/src/kernel/vm.c:373-376 | a store to a physical page is private to its process if and only if its entry is the only one on the page or the content does not change |
| `CowSteps.StoreOk` | initial-xv6/src/kernel/vm.c:323-326 | a store through a writable entry reaches only its own process |
| `CowRuns.BootInv` | initial-xv6/src/kernel/kalloc.c:43-49 | the state kinit leaves satisfies the invariant, with nothing mapped |
| `CowRuns.StepEager` | initial-xv6/src/kernel/vm.c:305-338 | every step keeps the invariant and changes what processes read and may do exactly as plain memory would |
| `CowRuns.CowIsEager` | initial-xv6/src/kernel/vm.c:305-338 | copy-on-write refines eager copy: at every point of every run each process has the memory, contents and rights, that it would have had if fork had copied every page with its rights |
| `CowRuns.SharedReadOnly` | initial-xv6/src/kernel/vm.c:323-326 | in every run a page mapped by two entries has PTE_W in neither |
| `CowRuns.CountsInRuns` | initial-xv6/src/kernel/kalloc.c:51-135 | in every run the free list holds each page of count 0 once and nothing else, and a count is at least the number of entries, with equality for user pages when no uvmcopy failed part way |
| `CowRuns.KallocUnmapped` | initial-xv6/src/kernel/kalloc.c:119-135 | in every run kalloc never hands out a mapped page |
| `CowCalls.UnmapOk` | initial-xv6/src/kernel/vm.c:170-192 | uvmunmap removes exactly its range from what processes read |
| `CowCalls.CopyPassOk` | initial-xv6/src/kernel/vm.c:314-332 | a pass with its table pages: the child gets the parent's content and rights, or nothing anyone reads or may do changes and one count stays raised |
| `CowCalls.UvmcopyIsEager` | initial-xv6/src/kernel/vm.c:305-338 | uvmcopy as a whole: the child has an eager copy, contents and rights, or everyone reads and may do what they did before and exactly one page of the parent stays counted once too often |
| `CowCalls.GrowPassOk` | initial-xv6/src/kernel/vm.c:236-248 | a pass of uvmalloc adds one zeroed page or changes nothing, and leaks nothing |
| `CowCalls.UvmallocAllOrNothing` | initial-xv6/src/kernel/vm.c:225-251 | uvmalloc gives every new page zeroed or leaves what everyone reads as it was; it succeeds if and only if the free list has a page for each new page and for each table page needed |
| `CowTraces.CopyPassIsShare` | initial-xv6/src/kernel/vm.c:314-332 | a pass of uvmcopy with its table pages is those allocations followed by one share step, or by one failed share when they cannot be had |
| `CowTraces.GrowPassIsMap` | initial-xv6/src/kernel/vm.c:236-248 | a pass of uvmalloc is one new page and its table pages, and one release when they cannot be had |
| `CowTraces.UvmcopyInRuns` | initial-xv6/src/kernel/vm.c:305-338 | after any run, a call of uvmcopy continues it to a longer run that ends in the state the call leaves |
| `CowTraces.UvmallocInRuns` | initial-xv6/src/kernel/vm.c:225-251 | after any run, a call of uvmalloc continues it to a longer run that ends in the state the call leaves |
| `CowCopyout.FaultOk` | initial-xv6/src/kernel/trap.c:30-61 | the handler changes nothing any process reads, answers -2 exactly for refused addresses and -1 exactly without an entry or a free page, and after 0 a copy-on-write entry is alone on its page |
| `CowCopyout.StoredExact` | initial-xv6/src/kernel/vm.c:361-376 | a pass of copyout does what plain memory would if and only if the page is split first, the entry is alone on it, or the bytes are there already |
| `CowCopyout.CopyoutExact` | initial-xv6/src/kernel/vm.c:356-383 | copyout leaves every process with what plain memory would give if and only if, in the state before the call, every destination page is alone on its frame, or holds the bytes already, or is copy-on-write at an accepted address with a free page left after the splits before it |
| `CowCopyout.CopyoutKeeps` | initial-xv6/src/kernel/vm.c:356-383 | whatever copyout stores and where, nobody's rights change |
| `CowCopyout.RefusedWindow` | initial-xv6/src/kernel/trap.c:36-40 | with the stack pointer at or above PGSIZE, the handler refuses exactly the addresses from MAXVA on, those on the page below the stack pointer's page, and the first address of the stack pointer's page |
| `CowCopyout.RefusedWrapped` | initial-xv6/src/kernel/trap.c:36-40 | with the stack pointer on the first page the window wraps around and only addresses from MAXVA on are refused |
| `CowCopyout.CopyoutPasses` | initial-xv6/src/kernel/vm.c:361-382 | the same condition pass by pass: every pass finds its page split, alone or unchanged |
| `CowCopyout.CopyoutPrepared` | initial-xv6/src/kernel/vm.c:356-383 | it does so when every mapped destination page is writable, or copy-on-write at an accepted address, and pages are free |
| `CowCopyout.CopyoutAnswer` | initial-xv6/src/kernel/vm.c:356-383 | its answer is always the one plain memory would give |
| `CowCopyout.PutBytes` | initial-xv6/src/kernel/vm.c:356-383 | a successful call stores exactly the given bytes at the given addresses |
| `CowCopyout.AlignedInRuns` | initial-xv6/src/kernel/vm.c:314-332 | in every run entries on one page are at the same virtual page of different processes |
| `CowCopyout.CopyoutReachesChild` | initial-xv6/src/kernel/vm.c:367-376 | a run after which copyout near the parent's stack pointer is seen by the child |
| `UserMemory.Kernel.DecrementAndGetPageReference` | initial-xv6/src/kernel/kalloc.c:51-62 | the count drops by one and is returned; no other count changes |
| `UserMemory.Kernel.IncrementAndGetPageReference` | initial-xv6/src/kernel/kalloc.c:64-75 | the count rises by one and is returned; no other count changes |
| `UserMemory.Kernel.Kfree` | initial-xv6/src/kernel/kalloc.c:92-114 | drops a reference; the last one puts the page, filled with 1s, at the head of the linked free list |
| `UserMemory.Kernel.Kalloc` | initial-xv6/src/kernel/kalloc.c:119-135 | takes the head of the linked free list with count 1, filled with 5s, or answers 0 on an empty list |
| `UserMemory.Kernel.constructor` | initial-xv6/src/kernel/kalloc.c:43-49 | kinit produces the free list of all managed pages, the last first |
| `UserMemory.Kernel.Freerange` | initial-xv6/src/kernel/kalloc.c:77-86 | counts and frees every page of the range |
| `UserMemory.Kernel.MapTables` | initial-xv6/src/kernel/vm.c:90-101 | takes the table pages a mapping needs; on shortage those taken stay taken |
| `UserMemory.Kernel.UnmapOne` | initial-xv6/src/kernel/vm.c:179-191 | the body of uvmunmap's loop is one release |
| `UserMemory.Kernel.Uvmunmap` | initial-xv6/src/kernel/vm.c:170-192 | removes exactly the range, page by page |
| `UserMemory.Kernel.HandlePageFault` | initial-xv6/src/kernel/trap.c:30-61 | behaves as the specified handler and changes nothing any process reads |
| `UserMemory.Kernel.CopyOne` | initial-xv6/src/kernel/vm.c:314-332 | the body of uvmcopy's loop is one pass |
| `UserMemory.Kernel.Uvmcopy` | initial-xv6/src/kernel/vm.c:305-338 | the child gets an eager copy, contents and rights, or nothing anyone reads or may do changes |
| `UserMemory.Kernel.Uvmalloc` | initial-xv6/src/kernel/vm.c:225-251 | all new pages zeroed, or 0 with nothing anyone reads changed, exactly when the free list is too short for the pages and their tables |
| `UserMemory.Kernel.Uvmdealloc` | initial-xv6/src/kernel/vm.c:255-267 | exactly the pages between the sizes go |
| `UserMemory.Kernel.Copyout` | initial-xv6/src/kernel/vm.c:356-383 | the page loop computes the specified call, answer included |
| `Sv39.PteRoundTrip` | initial-xv6/src/kernel/riscv.h:349-354 | an entry gives back the page it was made of and its flags |
| `Sv39.IndicesDetermine` | initial-xv6/src/kernel/riscv.h:356-364 | two addresses below MAXVA have equal indices at all levels if and only if they are on the same page |
| `Sv39.SlotShared` | initial-xv6/src/kernel/vm.c:85-103 | two addresses below MAXVA have the same leaf slot if and only if they are on the same page |
| `Sv39.GrownShape` | initial-xv6/src/kernel/vm.c:95-100 | a new empty table keeps the tree and changes no translation |
| `Sv39.LeafSetShape` | initial-xv6/src/kernel/vm.c:158-158 | storing a leaf word changes the translation of its own page and of no other |
| `Sv39.PageTable.constructor` | initial-xv6/src/kernel/vm.c:196-205 | an empty root table translates nothing |
| `Sv39.PageTable.Walk` | initial-xv6/src/kernel/vm.c:85-103 | finds the leaf slot, building missing tables if asked, fails exactly when the table is missing or no page is left, and changes no translation |
| `Sv39.PageTable.Walkaddr` | initial-xv6/src/kernel/vm.c:108-126 | the page of a valid user-accessible entry, 0 for every other address |
| `Sv39.PageTable.Mappages` | initial-xv6/src/kernel/vm.c:142-164 | adds exactly the pages of the range at consecutive physical pages, or the first few of them when tables run out |
| `Sv39.PageTable.Uvmunmap` | initial-xv6/src/kernel/vm.c:170-192 | removes exactly its range, and frees exactly those pages in order if asked |
| `Sv39.PageTable.Uvmalloc` | initial-xv6/src/kernel/vm.c:225-251 | maps every new page, at distinct pages taken from the free ones, or leaves the translation as it was with no free page left |
| `Bitmap.SetBlockBitBits` | initial-xv6/src/kernel/fs.c:75-101 | setting or clearing one bit of the free map changes no other |
| `Files.Distinct` | initial-xv6/src/kernel/fs.c:382-421 | no two slots of any inodes hold the same block, and every block held is a marked data block |
| `Files.AllocInv` | initial-xv6/src/kernel/fs.c:65-88 | an allocated block was owned by nobody, is zeroed, and no file changes |
| `Files.AttachDirectIs` | initial-xv6/src/kernel/fs.c:388-407 | filling a direct slot or the indirect slot changes that slot only; a new indirect block lists nothing because it was zeroed |
| `Files.AttachIndirectIs` | initial-xv6/src/kernel/fs.c:408-416 | listing a block in an indirect block changes that slot of that file only |
| `Files.AttachedInv` | initial-xv6/src/kernel/fs.c:382-421 | filling an empty slot with a block in hand keeps ownership and the free map in agreement |
| `Files.WriteDataInv` | initial-xv6/src/kernel/fs.c:517-526 | storing into a data block moves no block and changes no bit |
| `Files.KeepsContent` | initial-xv6/src/kernel/fs.c:382-421 | while every data block stays where it is with its content, no file's content changes |
| `FileBytes.ProgressWrite` | initial-xv6/src/kernel/fs.c:517-528 | a pass of writei puts in exactly its bytes and disturbs no other byte of any file |
| `FileBytes.WriteDone` | initial-xv6/src/kernel/fs.c:530-538 | with the size brought up to date, the file is its old content with the bytes stored in it and every other file is as it was |
| `FileSystem.Disk.Balloc` | initial-xv6/src/kernel/fs.c:65-88 | the first free block, marked and zeroed, or 0 exactly when the disk is full |
| `FileSystem.Disk.Bfree` | initial-xv6/src/kernel/fs.c:91-105 | clears exactly that block's bit; the panic is unreachable when it is set |
| `FileSystem.Disk.FillDirect` | initial-xv6/src/kernel/fs.c:388-407 | a slot of the inode is filled if it was empty; no other slot or file changes, and exactly the new block and its bitmap block are logged |
| `FileSystem.Disk.FillIndirect` | initial-xv6/src/kernel/fs.c:408-416 | a slot of the indirect block is filled if it was empty; no other slot or file changes, and exactly the new block, its bitmap block and the indirect block are logged |
| `FileSystem.Disk.Bmap` | initial-xv6/src/kernel/fs.c:382-421 | the block of a file, found without change if mapped, new and zeroed otherwise, 0 only when the disk is full; exactly the blocks of the slots it fills are logged |
| `FileSystem.Disk.Itrunc` | initial-xv6/src/kernel/fs.c:425-453 | the file is empty, exactly its own blocks are free again (so "freeing free block" is unreachable), and no other file changes |
| `FileSystem.Disk.Readi` | initial-xv6/src/kernel/fs.c:471-497 | the matching slice of the file and its length, or -1 exactly when the destination cannot take it all, after the part it can; nothing is allocated or changed |
| `FileSystem.Disk.Writei` | initial-xv6/src/kernel/fs.c:505-539 | rejected exactly past the size or the maximum; otherwise exactly the written bytes are stored, other files are unchanged, fewer than asked only on a full disk or at a failing copyin, whose readable part is stored below the size; the logged set is exactly the data blocks stored, the new blocks with their bitmap blocks, the indirect block if it lists new ones and the inode block |
| `FileSystem.Disk.Filewrite` | initial-xv6/src/kernel/file.c:149-175 | all of the bytes go in, or -1 with exactly the part up to the new offset and what the last copyin could read; every pass logs at most MAXOPBLOCKS blocks |
| `FileLog.NewLogTrans` | initial-xv6/src/kernel/fs.c:382-421 | what two calls of bmap log one after the other is what their joint effect on the slots determines |
| `FileLog.LogCount` | initial-xv6/src/kernel/file.c:151-158 | data, bitmap, indirect and inode blocks of one pass are at most 10 for every offset and alignment, wherever it stops |
| `FullLog.ImageInv` | initial-xv6/src/kernel/fs.h:14-51 | an image with four free blocks under four bitmap blocks satisfies the file system invariant |
| `FullLog.TenBlocks` | initial-xv6/src/kernel/file.c:151-158 | the blocks that a write of 3072 bytes at 11*BSIZE+1 of that image logs, one by one: ten of them |
| `FullLog.FullWrite` | initial-xv6/src/kernel/file.c:151-158 | the bound of 10 is reached: writei of 3072 bytes at 11*BSIZE+1 on that image writes them all and logs exactly 10 blocks |
| `FileSystem.FirstMapped` | initial-xv6/src/kernel/fs.c:515-528 | an unaligned write starts in a block that is mapped already |
| `Arena.FreeApart` | initial-xv6/src/user/umalloc.c:24-44 | neighbours on the free list neither overlap nor touch |
| `Arena.Disjoint` | initial-xv6/src/user/umalloc.c:24-90 | no two blocks, live or free, overlap |
| `Umalloc.StopsAtPlace` | initial-xv6/src/user/umalloc.c:30-32 | free's search stops at the block's place in address order and nowhere else |
| `Umalloc.FreedRing` | initial-xv6/src/user/umalloc.c:33-42 | after free, with either merge or both, the list is still one circle in order |
| `Umalloc.FreedShape` | initial-xv6/src/user/umalloc.c:33-42 | after free, the list is in address order with one wrap, no two free blocks touch, and every unit belongs to exactly one block |
| `Umalloc.FreedUndisturbed` | initial-xv6/src/user/umalloc.c:33-42 | free leaves every other live block and its units alone and loses no unit |
| `Umalloc.UnitsEnough` | initial-xv6/src/user/umalloc.c:69-69 | the units computed hold the bytes asked for after the header, and not one unit fewer would |
| `Umalloc.Heap.Search` | initial-xv6/src/user/umalloc.c:30-32 | the loop ends, at the last list node below the block |
| `Umalloc.Heap.Free` | initial-xv6/src/user/umalloc.c:24-44 | the block joins the list merged with the free blocks it touches; the other live blocks and the units obtained are unchanged |
| `Umalloc.Heap.Morecore` | initial-xv6/src/user/umalloc.c:46-61 | fresh units join the list, or nothing changes when sbrk refuses |
| `Umalloc.Heap.Take` | initial-xv6/src/user/umalloc.c:75-84 | a whole free block or its tail becomes live, and freep is the block before it |
| `Umalloc.Heap.Malloc` | initial-xv6/src/user/umalloc.c:63-90 | ends with a block of the size asked for that overlaps no live block, or 0 only when sbrk refuses; sbrk is asked only when no free block is large enough; live blocks are untouched and units conserved |
| `SleepLock.ActKeeps` | initial-xv6/src/kernel/proc.c:552-624 | every step of a process keeps the invariant of spinlocks, sleepers and holders |
| `SleepLock.OtherStep` | initial-xv6/src/kernel/proc.c:461-527 | so do the steps of callers, the scheduler and the timer |
| `SleepLock.MutualExclusion` | initial-xv6/src/kernel/sleeplock.c:21-41 | in every interleaving at most one process holds a sleep lock, the one it records, and it is taken if and only if some process holds it |
| `SleepLock.NoLostWakeup` | initial-xv6/src/kernel/sleeplock.c:21-41 | whenever the inner spinlock is free and the lock is not taken, no process is asleep on it or past committing to sleep on it |
| `SleepRuns.AcquireReturns` | initial-xv6/src/kernel/sleeplock.c:21-31 | in every interleaving acquiresleep returns with the lock taken and in the caller's name |
| `SleepRuns.ReleaseReturns` | initial-xv6/src/kernel/sleeplock.c:33-41 | in every interleaving releasesleep returns without the lock |
| `SleepRuns.StaysHeld` | initial-xv6/src/kernel/sleeplock.c:21-41 | from then until the holder itself clears it in releasesleep, the lock stays taken and the holder's |
| `SleepRuns.KillWakes` | initial-xv6/src/kernel/proc.c:596-620 | kill returns only after it has come to its victim under the victim's lock, and leaves it not asleep |
| `SleepRuns.WokenOnlyBy` | initial-xv6/src/kernel/proc.c:577-620 | a process is woken only by a wakeup on the channel it sleeps on or by a kill of it |
| `SleepRuns.PassedOn` | initial-xv6/src/kernel/sleeplock.c:21-41 | there is a run in which one process takes the lock, another sleeps waiting for it, and gets it on release |
| `SleepLock.SchedAlone` | initial-xv6/src/kernel/proc.c:500-516 | a process calling sched from sleep holds its own lock and no other spinlock |
| `Virtio.NoThree` | initial-xv6/src/kernel/virtio_disk.c:215-290 | no three requests are pending at once |
| `Virtio.FewUnread` | initial-xv6/src/kernel/virtio_disk.c:270-277 | neither ring ever holds more than two unread entries |
| `Virtio.SubmitKeeps` | initial-xv6/src/kernel/virtio_disk.c:215-280 | submitting a request keeps descriptors partitioned and unread ring entries intact |
| `Virtio.IntrKeeps` | initial-xv6/src/kernel/virtio_disk.c:312-325 | a pass of the interrupt loop keeps the invariant |
| `Virtio.FinishKeeps` | initial-xv6/src/kernel/virtio_disk.c:287-290 | freeing a finished chain keeps the invariant |
| `Virtio.Partition` | initial-xv6/src/kernel/virtio_disk.c:156-213 | in every run a descriptor is free exactly if it is in no pending chain, and the chains are disjoint and of three descriptors each |
| `Virtio.NoOverwrite` | initial-xv6/src/kernel/virtio_disk.c:270-325 | in every run at most two entries of either ring are unread, and the 16-bit indices agree exactly when none is, across wrap |
| `Virtio.EntriesStay` | initial-xv6/src/kernel/virtio_disk.c:270-325 | in every run an entry put in either ring keeps its value until the other side reads it |
| `Virtio.OwnCompletion` | initial-xv6/src/kernel/virtio_disk.c:312-325 | in every run a buffer is released only by the completion of its own chain |
| `VirtioData.StepData` | initial-xv6/src/kernel/virtio_disk.c:215-325 | every step keeps what the descriptors and header of each pending request tell the device, and what the request has moved so far |
| `VirtioData.IoDone` | initial-xv6/src/kernel/virtio_disk.c:215-293 | in every run, when virtio_disk_rw returns: a write has put what the buffer held at the call into its block and left the buffer alone, a read has put what the block held at the call into the buffer and left the block alone |
| `VirtioData.OnlyOwn` | initial-xv6/src/kernel/virtio_disk.c:215-293 | in every run a block changes only when a write to it completes, and a buffer only when its holder stores to it or a read into it completes |
| `VirtioData.SomeServed` | initial-xv6/src/kernel/virtio_disk.c:215-325 | from any state after start-up, any request for a block of the device can be served |
| `Virtio.FreeDescSafe` | initial-xv6/src/kernel/virtio_disk.c:169-182 | in every run the descriptors freed are in range and not free, so both panics are unreachable |
| `Descriptors.DescTable.AllocDesc` | initial-xv6/src/kernel/virtio_disk.c:156-166 | the first free descriptor, marked used, or -1 exactly when none is free |
| `Descriptors.DescTable.FreeDesc` | initial-xv6/src/kernel/virtio_disk.c:169-182 | that descriptor alone is cleared and free |
| `Descriptors.DescTable.FreeChain` | initial-xv6/src/kernel/virtio_disk.c:185-197 | exactly the descriptors of the chain are cleared and free |
| `Descriptors.DescTable.Alloc3Desc` | initial-xv6/src/kernel/virtio_disk.c:201-213 | three descriptors, or the free ones as they were when fewer than three are free |
| `Descriptors.PutAllIsMark3` | initial-xv6/src/kernel/virtio_disk.c:185-197 | freeing the chain of a disk request is what the step system's Finish says |
| `FileManager.StepInv` | concurrency/file_manager.c:62-138 | every access by any thread keeps write_lock and is_deleted consistent, for every limit |
| `FileManager.OneWriter` | concurrency/file_manager.c:90-134 | on each file at most one WRITE or DELETE is in progress |
| `FileManager.OneDelete` | concurrency/file_manager.c:110-134 | on each file at most one DELETE is ever taken up and no WRITE is in progress once it has been |
| `FileManager.DeletedStays` | concurrency/file_manager.c:110-134 | a deleted file stays deleted, so no WRITE is taken up after its DELETE |
| `FileManager.StepSerial` | concurrency/file_manager.c:62-138 | with a limit of at most 1, every access keeps read_count, lock and delete_lock consistent |
| `FileManager.CountIsReaders` | concurrency/file_manager.c:63-89 | with a limit of at most 1, read_count is the number of admitted readers, who hold delete_lock while lock is free |
| `FileManager.NoReadAfterDelete` | concurrency/file_manager.c:62-134 | with a limit of at most 1, no READ overlaps or follows a DELETE |
| `FileManager.ReadAfterDelete` | concurrency/file_manager.c:62-134 | with a limit of 2 or more there is a run in which a READ is taken up after the DELETE |
| `FileManager.Answered` | concurrency/file_manager.c:62-134 | in every run, for every limit, a request that is declined found its file deleted when it tested, and one that is taken up found it not deleted |
| `FileManager.StuckOnlyWaiting` | concurrency/file_manager.c:62-148 | in every run a request that is not finished can go on if and only if the semaphore it waits for is not 0, each new try adds one to its wait, and it is cancelled only once its patience has run out |
| `FileManager.ReadSafetyExact` | concurrency/file_manager.c:149-157 | no READ overlaps or follows a DELETE in any run if and only if max_concurrent is at most 1 |
| `Shell.GetToken` | initial-xv6/src/user/sh.c:266-309 | token bounds in order and within the text, the cursor on a non-blank, and a token before the end is not empty |
| `Shell.ParseLine` | initial-xv6/src/user/sh.c:345-360 | ends at or after its start and never passes the end of the text |
| `Shell.ParsePipe` | initial-xv6/src/user/sh.c:362-373 | ends at or after its start and never passes the end of the text |
| `Shell.ParseRedirs` | initial-xv6/src/user/sh.c:375-398 | ends at or after its start and never passes the end of the text |
| `Shell.ParseBlock` | initial-xv6/src/user/sh.c:400-414 | ends at or after its start and never passes the end of the text |
| `Shell.ParseExec` | initial-xv6/src/user/sh.c:416-447 | ends at or after its start and never passes the end of the text |
| `Shell.ParseCmd` | initial-xv6/src/user/sh.c:328-343 | accepts only with nothing left over |
| `ShellGrammar.ParseSound` | initial-xv6/src/user/sh.c:328-447 | whatever the parser accepts is a sentence of the grammar, all of it, and the command built is the one the sentence stands for: words in order, one redirection per sign with the first innermost, pipelines, lists, background commands, blocks |
| `ShellGrammar.ParseComplete` | initial-xv6/src/user/sh.c:328-447 | every sentence is accepted, however it is spaced, with the command it stands for |
| `ShellGrammar.ParseExact` | initial-xv6/src/user/sh.c:328-447 | a line is accepted if and only if its tokens are those of a sentence of the grammar |
| `ShellGrammar.RedirsSound` | initial-xv6/src/user/sh.c:375-398 | parseredirs finds exactly the redirections that come next, in order, with the modes of their signs |
| `ShellPlaces.EveryWord` | initial-xv6/src/user/sh.c:328-447 | the arguments and file names of an accepted line are exactly the words of the text |
| `ShellRoundTrip.SentenceRoundTrip` | initial-xv6/src/user/sh.c:328-447 | any sentence spelled out, with or without parentheses, with redirections before, between and after the words, parses to the command it stands for |
| `ShellRoundTrip.LexSpell` | initial-xv6/src/user/sh.c:266-309 | spelled-out tokens are read back as the same tokens, >> included |
| `ShellRoundTrip.SpacingIrrelevant` | initial-xv6/src/user/sh.c:266-447 | texts with the same tokens parse alike |
| `ShellRoundTrip.ParsePrintParse` | initial-xv6/src/user/sh.c:328-447 | whatever a line parses to can be printed, and parsing the printed line gives the same tree |
| `ShellRoundTrip.RoundTrip` | initial-xv6/src/user/sh.c:328-447 | parsing the fully parenthesised text of any tree with at most 9 words per command gives that tree back with nothing left over |
| `ShellParser.Parser.Gettoken` | initial-xv6/src/user/sh.c:266-309 | the loops compute the token function and leave the cursor at the next token |
| `ShellParser.Parser.PeekAt` | initial-xv6/src/user/sh.c:311-321 | whether the next character is one of those given; the cursor skips blanks only |
| `ShellParser.Parser.Parseredirs` | initial-xv6/src/user/sh.c:375-398 | the loop finds the redirections in order or reports the missing file |
| `ShellParser.Parser.Parseargs` | initial-xv6/src/user/sh.c:430-446 | the loop finds words and redirections, at most 9 words |
| `ShellParser.Parser.Parseline` | initial-xv6/src/user/sh.c:345-360 | terminates with the line the function gives |
| `ShellParser.Parser.Parsepipe` | initial-xv6/src/user/sh.c:362-373 | terminates with the pipeline the function gives |
| `ShellParser.Parser.Parseexec` | initial-xv6/src/user/sh.c:416-447 | terminates with the command the function gives |
| `ShellParser.Parser.Parseblock` | initial-xv6/src/user/sh.c:400-414 | terminates with the block the function gives |
| `ShellParser.Parser.Parsecmd` | initial-xv6/src/user/sh.c:328-343 | terminates with the command or a syntax error, exactly as the function |
| `ShellStrings.LineWords` | initial-xv6/src/user/sh.c:345-447 | every word and file of a parsed line is a maximal run free of blanks and symbols, at both ends, and no command has more than 9 words |
| `ShellStrings.Nulterminate` | initial-xv6/src/user/sh.c:450-494 | writes a NUL at the end of every word and file name, and nowhere else |
| `ShellStrings.TerminatedAt` | initial-xv6/src/user/sh.c:450-494 | a buffer position is NUL afterwards exactly if it ends a word or file name or was NUL before |
| `ShellStrings.TokensAreStrings` | initial-xv6/src/user/sh.c:328-494 | after nulterminate every argument and file name of a parsed command is a C string equal to its token |
| `Grep.HereExact` | initial-xv6/src/user/grep.c:83-95 | matchhere succeeds if and only if a prefix of the text is in the pattern's language, all of it for a final $ |
| `Grep.MatchHere` | initial-xv6/src/user/grep.c:83-95 | terminates with that answer |
| `Grep.MatchStar` | initial-xv6/src/user/grep.c:97-105 | the loop terminates with whether some number of repetitions lets the rest match |
| `Grep.Match` | initial-xv6/src/user/grep.c:71-81 | 1 exactly when some position of the text (only the first after ^) begins a string of the language |

## Left out

- Block writes smaller than a block: each 1024-byte `bwrite` is taken to be atomic, and a crash keeps the disk and loses memory.
- Panics for exhausted resources ("bget: no buffers" in concurrent runs, "kvmmap", "uvmcopy: pte should exist") stop a run; they are not claimed to be unreachable. For commit and recovery on their own, `Log` says exactly when they lack a buffer.
- WalRuns.Reserved: the guard `log.lh.n >= log.size - 1` of log_write is a bound of its own (see `RefusedOnlyBySize`), since mkfs makes the log area exactly LOGSIZE blocks long.
- Log.Log.Commit: takes the single process that commits; the interleaving of commit with other processes is in `WalSystem`, step by step.
- UserMemory.Kernel.Kfree: the free list's links are a map of their own rather than the first eight bytes of each free page, and counts are unbounded integers.
- UserMemory.Kernel.HandlePageFault: covers addresses whose leaf slot exists, an empty slot being a zero entry; the source reads through a null pointer when the leaf table itself is missing.
- UserMemory.Kernel.Uvmcopy: page tables are flat maps here and the number of table pages each mapping needs is an input; `Sv39` has the tables themselves.
- Sv39.PteRoundTrip: physical addresses are unbounded integers; the 44-bit page-number field is not cut off.
- Sv39.PageTable.Uvmalloc: pages freed are recorded in `released` and not handed out again.
- FileSystem.Disk.Writei: inodes are a map beside the blocks; their layout in inode blocks is not modelled, only that iupdate logs one block. How much of the source can be read is an input, and the file system is what the buffer cache shows: bytes stored before a failing copyin are not logged, so they last only as long as their buffer.
- VirtioData.IoDone: two requests for one block are not pending at once; callers hold the block's only buffer (`Bio.OneBuffer`).
- SleepRuns.KillWakes: the flag p->killed, which later makes the victim exit, is not modelled.
- Umalloc.Heap.Malloc: requests of 2 GiB or more, whose byte count no longer fits sbrk's int parameter, and the wrap of the unit count just below 4 GiB are not modelled; sbrk grants fresh ascending ranges, with gaps, or refuses.
- Link counts, path walking, directories and system-call argument fetching (sysfile.c, syscall.c).
- uvmclear, exec's loading of programs, copyin and copyinstr, freewalk.
- Liveness: deadlock freedom of the file manager, pipes, progress of the scheduler.
- Assembly, CSR access, TLB flushes, traps, PLIC, UART, boot code, MMIO set-up and memory fences: steps are sequentially consistent and the disk device follows its standard.
- concurrency/lazy_sort.c is a merge sort whose threads work on separate ranges and which leaves the small inputs to the C library's qsort; printf and the console format and echo characters, mkfs lays out one image, ramdisk.c copies blocks, and the other user programs call the kernel and keep no data structure.
