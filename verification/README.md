# xv6 for RISC-V: a verified model of the kernel's core

This project models the parts of the kernel and of its user programs where correctness
depends on many steps fitting together, and proves what they are for:

- **The file system and its log.** The redo log of `kernel/log.c` on a disk that may stop
  after any block write, over the buffer cache of `kernel/bio.c`; the block map, `readi`,
  `writei`, `filewrite`, `itrunc` and `ialloc` of `kernel/fs.c` and `kernel/file.c`; the
  layout of all that on disk; directories and link counts of `kernel/fs.c` and
  `kernel/sysfile.c`. The two ends meet in `FileCrash`: commit any group of operations of the
  file system, crash anywhere, recover and mount, and every file is what it was before the
  group, or every file is what it was after it. `LogRuns` runs commit block by block between
  the reads, changes and calls of other processes.
- **Memory.** The per-hart page allocator of `kernel/kalloc.c`, three-level page tables as
  words in memory, every user-memory operation of `kernel/vm.c` with `kalloc` free to fail
  anywhere, and the process table of `kernel/proc.c` over them. Over any run no page is
  lost, made or shared, and every process sees a memory of its own.
- **Concurrency.** `fork`, `exit` and `wait` with preemption, sleep-locks over `sleep` and
  `wakeup`, the log's admission protocol, and the virtio driver with its device, each as a
  state machine over the steps between two points where somebody else can see a difference,
  for any number of processes and any run.
- **User programs.** `malloc` and `free`, the shell's parser, and `grep`'s matcher against
  the language it is meant to decide.

Each entity that the C code updates in place is a class whose methods have the code's
branches, loops and failure paths; ghost fields hold the abstract state they are proved
against. Locks that make a stretch of code atomic are not modelled as such: the stretch is
one step. A panic in the modelled code is ruled out by what its callers guarantee, proved
unreachable, or a result with its exact condition.

`dafny verify dfyconfig.toml` checks the whole project.

## Findings

Places where the code, its constants and its comments do not agree. Each has a concrete
witness and the exact condition.

- `log_write` of a block new to the log panics exactly when the log area is too small
  (`LogProtocol.PanicsReached`). `mkfs` lays out a log of LOGSIZE blocks, one of which is
  the header, so three operations within their budgets reach that panic
  (`LogProtocol.SmallLogPanics`); with one block more no run does.
- `log_write` of a block that is already in the log needs no room, but panics exactly when
  the log is full (`LogProtocol.AbsorptionPanics`, for any size of the log area).
- NBUF equals LOGSIZE. A transaction that fills a log area of more than LOGSIZE blocks pins
  every buffer, and commit's first `bread` panics. On the log of `mkfs`, which has room for
  one block less, the panic also takes one more buffer that some process holds.
  `LogRuns.FullTransactionPanics` runs into it on both; `Log.CommitNeedsSpare` is the
  condition while nobody holds a buffer, and `Log.LogLayer.CommitStep` has it for every
  `bread` of a commit between other processes.
- The comment on `uvmdealloc` allows an old size above the actual one. The code then panics
  in `uvmunmap` as soon as that reaches an unmapped page (`AddressSpace.DeallocPanics`).
- `growproc` with a negative argument larger than the size wraps around in `uint64`, changes
  nothing and returns success (`AddressSpace.Growproc`).
- `growproc` checks no upper bound. None is needed: physical memory is too small for a space
  to come near TRAPFRAME (`AddressSpace.SpaceBounded`).
- `itrunc` fits every file of every consistent file system into one transaction if and only if
  the bits of the data blocks lie in fewer than MAXOPBLOCKS blocks of the bitmap
  (`Budgets.TruncBudget`, with a file that logs one block too many otherwise). `mkfs` makes
  one.
- `filewrite`'s budget of MAXOPBLOCKS has no slack. A chunk logs that many blocks if and only
  if it touches four file blocks, has to allocate three of them and the indirect block, and
  the four lowest free blocks have their bits in four blocks of the bitmap
  (`Budgets.WriteBudgetExact`); a consistent disk on which it does is in
  `Budgets.WriteBudgetReached`.
- When the caller's memory ends in the middle of a block, `writei` has already copied a part of
  it into the buffer and returns without logging it. Readers see those bytes although the
  write did not count them, and they may not survive (`PartialCopy.LeftoverReads` and
  `PartialCopy.LeftoverLogged` say exactly when, `PartialCopy.LeftoverReached` is a case).

## Model

| member | source | states |
|---|---|---|
| LogRecovery.HeadRoundTrip | kernel/log.c:82-106 | what `write_head` stores in the header block is exactly the list of homes that `read_head` takes out of it |
| LogRecovery.CommitPrefix | kernel/log.c:164-185 | a crash after any number of commit's writes leaves all homes old under an empty header, or the whole transaction in the log under its header, and the header write decides which |
| LogRecovery.RecoverCommitted | kernel/log.c:66-113 | a recovery that crashes anywhere leaves a committed transaction recoverable, and one that completes installs all of it and empties the header |
| LogRecovery.CrashAtomicity | kernel/log.c:66-185 | commit crashes after any prefix of its writes, any number of recoveries crash after any prefix of theirs, one completes: the homes are all new if the header write got through, else all old, nothing else outside the log changed, and the header is empty |
| LogRecovery.RecoverEmpties | kernel/log.c:108-113 | a complete recovery leaves an empty log |
| LogRecovery.RecoverIdempotent | kernel/log.c:108-113 | recovering twice is recovering once |
| LogProtocol.StepKeepsInv | kernel/log.c:116-215 | every step of any process keeps: entries distinct, entries plus unused reservations within LOGSIZE, commit alone |
| LogProtocol.RunKeepsInv | kernel/log.c:116-215 | over every interleaving of any number of processes that keep to MAXOPBLOCKS, the log plus all reservations never exceeds LOGSIZE, entries stay distinct, and commit runs only while no operation is outstanding |
| LogProtocol.PanicsReached | kernel/log.c:134-215 | in any run `end_op` never panics, and `log_write` panics exactly under the stated sizes, both for new blocks and for absorbed ones |
| LogProtocol.SmallLogPanics | kernel/log.c:200-201 | for every log area of at most LOGSIZE blocks a run within budget reaches the panic on a new block |
| LogProtocol.AbsorptionPanics | kernel/log.c:200-208 | whatever the log area's size, a run within budget reaches the panic on a block that is already logged |
| BufferCache.Cache.constructor | kernel/bio.c:35-50 | the ring holds every buffer once and no buffer holds a block |
| BufferCache.Cache.Bget | kernel/bio.c:55-84 | the buffer that caches the block, else the least recently used unreferenced one recycled; it panics exactly when every buffer is referenced and none caches the block |
| BufferCache.Cache.Bread | kernel/bio.c:87-96 | the returned buffer is locked, valid and holds the block's latest contents, and no reader's view of any block changes |
| BufferCache.Cache.Bwrite | kernel/bio.c:99-103 | the disk gets the buffer's contents by one write, and no reader's view changes |
| BufferCache.Cache.Brelse | kernel/bio.c:107-126 | the reference is dropped, the buffer becomes most recently used exactly when it was the last, no reader's view changes, and the cache stays sound if and only if that did not leave the only copy of a block in a buffer that may be recycled |
| BufferCache.Cache.Bpin | kernel/bio.c:128-132 | one more reference and the same view of every block |
| BufferCache.Cache.Bunpin | kernel/bio.c:134-138 | one reference less, the same view of every block, and the cache stays sound under exactly the same condition |
| BufferCache.Cache.MakeMostRecent | kernel/bio.c:112-121 | the pointer surgery on the two links leaves a doubly linked ring with the buffer at the front and all others in their order |
| Log.Install | kernel/log.c:69-78 | one round of `install_trans` at recovery: the home block gets the log block's contents by one write, and nothing stays referenced |
| Log.LogLayer.constructor | kernel/log.c:54-63 | booting on any recoverable disk leaves the recovered disk as the file system's flat array, and an empty log |
| Log.LogLayer.RecoverFromLog | kernel/log.c:108-113 | through the cache, recovery issues exactly the writes LogRecovery speaks of |
| Log.LogLayer.InstallTrans | kernel/log.c:66-79 | at recovery every home block gets its logged contents and no other block changes |
| Log.LogLayer.BeginOp | kernel/log.c:116-130 | admission exactly when the protocol allows it |
| Log.LogLayer.LogWrite | kernel/log.c:196-215 | unless it panics, which is exactly when the protocol says so, the block joins the log once, its buffer is pinned once, and the flat array has its new contents |
| Log.LogLayer.EndOp | kernel/log.c:134-154 | the last operation out starts a commit, never while one is under way; nobody's view changes |
| Log.LogLayer.Fetch | kernel/log.c:164-175 | a `bread` of commit waits exactly while somebody holds the block, panics exactly when there is no buffer, and else commit holds the block as last logged |
| Log.LogLayer.PutLog | kernel/log.c:164-175 | the write of a round of `write_log` takes the disk exactly one write of CrashAtomicity further and gives both buffers back |
| Log.LogLayer.PutHome | kernel/log.c:66-79 | so does the write of a round of `install_trans`, and the pin of that block goes |
| Log.LogLayer.PutHeader | kernel/log.c:93-106 | so does the write of `write_head` |
| Log.LogLayer.CommitStep | kernel/log.c:134-185 | one `bread` or `bwrite` of commit at a time, with other processes free to run in between: the disk and the writes issued are always a prefix of exactly the commit CrashAtomicity is about, the flat array and buffers of others are untouched, and after the last write the disk is the flat array |
| Log.LogLayer.Commit | kernel/log.c:177-185 | run without a break while nobody holds its blocks, commit ends, with exactly those writes; it panics exactly when there is something to commit and no spare buffer |
| Log.LogLayer.Read | kernel/bio.c:87-96 | at any time, also in the middle of a commit, a read of any block nobody holds returns what the file system last logged for it, whether it is in the cache, pinned, or on disk |
| Log.LogLayer.Modify | kernel/log.c:187-195 | a holder may change its buffer in place without disturbing what others read |
| Log.LogLayer.Release | kernel/bio.c:107-126 | `brelse` of a logged buffer keeps the layer's invariant: a pinned buffer keeps a reference of its own |
| Log.CrashedCommit | kernel/log.c:66-185 | a crash anywhere in a commit, with any crashing recoveries, leaves the disk outside the log wholly as before the commit or wholly as the file system calls left it |
| Log.CommitNeedsSpare | kernel/log.c:164-169 | while nobody holds a buffer, commit's first `bread` finds one if and only if fewer than NBUF blocks are logged |
| LogRuns.Runner.Do | kernel/log.c:116-215 | any one call of any process, or step of a commit, keeps the layer's invariant, waits or panics exactly under the stated conditions, and a read returns the flat array's block |
| LogRuns.Runner.Run | kernel/log.c:116-215 | the cache and the log refine one flat array of blocks: in any interleaving of reads, changes, releases, `begin_op`, `log_write`, `end_op` and single steps of commit, every read returned the contents its block was last logged with |
| LogRuns.Runner.RunAndCrash | kernel/log.c:66-215 | stop the machine anywhere in any such run, let any number of recoveries stop anywhere and one complete: all blocks outside the log are as they were last logged, or all are as the last completed commit left them |
| LogRuns.FullTransactionPanics | kernel/log.c:164-169 | three operations within budget reach the commit that panics, on any log area of more than LOGSIZE blocks, and on one of LOGSIZE blocks with one more buffer held |
| BlockMap.WordRoundTrip | kernel/fs.c:375-386 | a word stored in an indirect block reads back and disturbs no other word |
| BlockMap.NoSharing | kernel/fs.c:355-392 | no block is in two slots of any inodes |
| FileSystem.FileSys.Balloc | kernel/fs.c:60-81 | the lowest free block, now marked and zeroed, with both changed blocks logged; 0 exactly when none is free |
| FileSystem.FileSys.Bmap | kernel/fs.c:355-392 | the block of the file block, allocated with the indirect block where missing; every slot in use, every other inode and every data block are as before, the ownership invariant holds, exactly the stated blocks are logged, and 0 means the disk is full |
| FileOps.Iupdate | kernel/fs.c:212-226 | the inode on disk becomes the one in memory, and its block is logged |
| FileOps.Writei | kernel/fs.c:470-502 | -1 exactly for bad arguments; else exactly the first bytes it returns are written, nothing else of this file and nothing of any other file changed but the bytes of a copy that failed half way, size and disk inode are up to date, it falls short only for a full disk or a failed copy and then at the end of a block, exactly the stated blocks are logged, and a write of at most three blocks logs at most MAXOPBLOCKS |
| FileOps.WriteBudget | kernel/file.c:139-148 | four data blocks, four bitmap blocks, the indirect block and the inode: a chunk of filewrite never logs more than MAXOPBLOCKS blocks, aligned or not |
| Budgets.WriteCount | kernel/file.c:139-148 | exactly how many blocks a write logs: its data blocks, the bitmap blocks of what it allocated, the indirect block if touched, and the inode |
| Budgets.WriteBudgetExact | kernel/file.c:139-148 | a chunk written to its end logs MAXOPBLOCKS blocks if and only if it touches four file blocks, must allocate three of them and the indirect block, and the four lowest free blocks lie in four bitmap blocks |
| Budgets.WriteChunk | kernel/file.c:139-148 | the same of the code: one transaction of filewrite logs MAXOPBLOCKS blocks exactly in that case |
| Budgets.WriteBudgetReached | kernel/file.c:139-148 | and there is a consistent file system and an unaligned chunk for which the code does |
| PartialCopy.LeftoverSeen | kernel/fs.c:483-489 | what a copy that failed half way left is seen at those bytes of this file, by every reader, and nowhere else |
| PartialCopy.LeftoverReads | kernel/fs.c:483-489 | the file reads as if nothing had been left if and only if the bytes lie past its end or were there already |
| PartialCopy.LeftoverLogged | kernel/fs.c:483-489 | everything changed is in the log if and only if that block was logged for another reason or is what it was |
| PartialCopy.LeftoverReached | kernel/fs.c:470-502 | a write that returns 0 and changes a byte of the file that no log will restore |
| FileOps.Readi | kernel/fs.c:438-461 | exactly the slice of the file that was asked for and that exists, -1 exactly when the copy out fails; nothing is allocated, changed or logged |
| FileOps.Filewrite | kernel/file.c:139-160 | a chain of transactions, each from one consistent file system to another, each logging every block it changes and within the budget, each leaving a first part of the data written; the result tells exactly whether all of it is, and what a failed copy leaves behind is told apart |
| Truncate.Bfree | kernel/fs.c:84-96 | exactly this block becomes free, and its bitmap block is logged; the panic needs a block that is free already |
| Truncate.Itrunc | kernel/fs.c:396-422 | never frees a free block; the inode's blocks and no others are free afterwards, no other file changed, and exactly the bitmap blocks concerned and the inode's block are logged |
| Budgets.TruncBudget | kernel/fs.c:396-422 | whatever the file and the file system, that fits into MAXOPBLOCKS if and only if the data blocks have their bits in fewer than MAXOPBLOCKS bitmap blocks |
| Truncate.IputLast | kernel/fs.c:318-334 | the last put of an unlinked inode truncates it and frees it on disk, and free inodes hold no blocks |
| Truncate.Ialloc | kernel/fs.c:187-206 | the lowest free inode becomes an empty file of the type asked for, no block moves and no other file changes; 0 exactly when there is none |
| DiskFormat.BytesRoundTrip | kernel/fs.c:375-386 | the bytes of a block survive being words on disk |
| DiskFormat.PackRoundTrip | kernel/fs.c:68-73 | bit b of the bitmap is bit b mod 32 of its little-endian word, and reads back |
| DiskFormat.InodeRoundTrip | kernel/fs.h:34-41 | an inode of any type, device numbers, link count, size and addresses that fit their C types reads back from its 64 bytes |
| DiskFormat.MkfsLayout | mkfs/mkfs.c:90-100 | the areas of the disk that mkfs lays out do not overlap |
| DiskFormat.MountReadsBack | kernel/fs.c:273-296 | mounting a disk that holds a file system finds its bitmap, its data blocks and its inodes |
| DiskFormat.UnloggedBlock | kernel/fs.c:60-96 | a block that a run of operations did not log holds on disk what it held: inode blocks, bitmap blocks and data blocks alike |
| FileCrash.MountedFiles | kernel/fs.c:273-296 | the mounted file system satisfies the ownership invariant, and every file has the same inode, the same blocks and the same bytes |
| FileCrash.GroupIsTxn | kernel/log.c:134-161 | operations that one commit makes durable together, each from where the last one ended, change nothing that their logs together do not hold |
| FileCrash.FilesAtomic | kernel/log.c:66-185 | a crash after any prefix of the commit of any group of operations, any crashing recoveries, a complete one, a mount: a consistent file system in which all files are as before the group, or all as after it |
| FileCrash.FilewriteAtomic | kernel/file.c:139-160 | after a crash in any transaction of any filewrite the file is its old contents overwritten with a first part of the data, exactly what the transactions up to the committed one wrote |
| Namespace.LinkKeeps | kernel/sysfile.c:109-154 | a new name for a file keeps link counts, dots, distinct names and the tree |
| Namespace.MakeKeeps | kernel/sysfile.c:225-280 | so does a new file or directory, with the link that ".." adds to the parent |
| Namespace.UnlinkKeeps | kernel/sysfile.c:170-223 | so does removing a file, or an empty directory with the link its ".." took |
| Namespace.PutKeeps | kernel/fs.c:313-337 | so does freeing an inode without links |
| Directories.FileNames.Dirlookup | kernel/fs.c:510-532 | the first slot with that name, or none |
| Directories.FileNames.Dirlink | kernel/fs.c:536-561 | refuses a name that is there; else fills the first free slot, or one new slot at the end |
| Directories.FileNames.IsDirEmpty | kernel/sysfile.c:157-168 | true if and only if every slot from 2 on is free |
| Directories.FileNames.SysLink | kernel/sysfile.c:109-154 | the link step of the state machine, success exactly when stated, and every failure rolls the link count back |
| Directories.FileNames.SysUnlink | kernel/sysfile.c:170-223 | the unlink step, success exactly when the name is there, is no dot, and is no directory with entries; its link-count panic is not reached |
| Directories.FileNames.Create | kernel/sysfile.c:225-280 | the create step with all its outcomes: an existing file returned, a new file or directory, or a failure after `ialloc` undone |
| Directories.FileNames.Iput | kernel/fs.c:313-337 | the last put frees the inode if and only if no entry of any linked directory, other than its own ".", names it, and changes nothing else |
| Directories.StepKeepsInv | kernel/sysfile.c:109-280 | every link, unlink, create and put, successful or not, keeps the invariant |
| Directories.RunKeepsInv | kernel/sysfile.c:109-280 | so does every run from a root directory |
| Directories.LinkCounts | kernel/sysfile.c:109-280 | in every state of every run, each inode's link count is the number of entries, other than ".", in linked directories that name it |
| Directories.DotsStay | kernel/sysfile.c:249-259 | in every state of every run, a linked directory begins with "." and ".." naming itself and its parent |
| Directories.OnlyEmptyDirsGo | kernel/sysfile.c:195-200 | a directory leaves the tree only by unlink, and only when it holds nothing but its dots |
| PageAlloc.PhysMem.constructor | kernel/kalloc.c:28-39 | after `kinit` every page is on exactly one list, its home's |
| PageAlloc.PhysMem.Kalloc | kernel/kalloc.c:73-91 | fails exactly when this hart's list and the shared one are empty; else a page that was free and no longer is, from its own list if that has one, and no other page's contents change |
| PageAlloc.PhysMem.Kfree | kernel/kalloc.c:47-66 | the page goes to the top of its home list, every other list and page is untouched |
| PageAlloc.PhysMem.Pkfree | kernel/kalloc.c:158-172 | takes exactly the pages of some hart's region, and gives them to that hart |
| PageAlloc.HartOfIsHome | kernel/kalloc.c:158-165 | the unsigned arithmetic of `pkfree` finds the right hart, also for addresses below the pool, where it wraps |
| PageTree.EntryRoundTrip | kernel/riscv.h:263-267 | address and flags of an entry survive PA2PTE, PTE2PA and PTE_FLAGS |
| PageTree.TreeRefinesFlatMap | kernel/vm.c:78-94 | the hardware's walk over the words in memory finds exactly the flat map's entry, for every virtual address |
| PageTree.AddMid | kernel/vm.c:82-92 | linking a fresh zeroed table below the root keeps the tree and every translation |
| PageTree.AddLeaf | kernel/vm.c:82-92 | so does linking one below a middle table |
| PageTree.SetEntry | kernel/vm.c:136-158 | storing an entry changes the translation of that page and no other |
| VirtualMemory.PageTable.Walk | kernel/vm.c:78-94 | the slot of the entry for the address; no translation changes, missing tables are made from free pages, and without `alloc` nothing changes |
| VirtualMemory.PageTable.Mappages | kernel/vm.c:136-158 | success maps exactly the pages of the range; failure has mapped a first part of it; every other translation and every page that belongs to someone else is unchanged, and new tables are paid for by free pages |
| VirtualMemory.PageTable.Uvmunmap | kernel/vm.c:163-183 | panics exactly when a page of the range is unmapped; else exactly the range is unmapped, its pages are freed once if asked for, and nothing else changes |
| UserMemory.Uvmdealloc | kernel/vm.c:241-251 | panics exactly when a page between the sizes is unmapped; else exactly those pages are unmapped and freed |
| UserMemory.Uvmalloc | kernel/vm.c:212-235 | success adds exactly the zeroed pages between the sizes, private and with the permissions asked for; failure leaves the map, all pages and the free pages as before but for new tables |
| UserMemory.Uvmcopy | kernel/vm.c:285-311 | success gives the child the parent's pages byte for byte, with the same permissions, in pages of its own; failure gives back all but new tables; the parent is untouched either way |
| FreeWalk.Freewalk | kernel/vm.c:255-269 | every table page at and below is freed exactly once, and no other page changes |
| AddressSpace.EmptyTreeFreeable | kernel/vm.c:255-269 | a tree without mappings can be freed without the panic, and what is freed is exactly its tables |
| AddressSpace.Uvmfree | kernel/vm.c:273-277 | exactly the user pages and the tables go back, once |
| AddressSpace.SpaceBounded | kernel/proc.c:234-248 | no space has more pages than physical memory, so none comes near TRAPFRAME |
| AddressSpace.DeallocPanics | kernel/vm.c:237-251 | for any sizes, `uvmdealloc` on a space panics if and only if it has pages to give back and the old size reaches past the actual one |
| AddressSpace.Growproc | kernel/proc.c:234-248 | for any int: the new size, with the memory cut off or extended by zero pages, or -1 and unchanged; in every case free pages plus the pages of the space are what they were, and no page of anyone else changes |
| AddressSpace.ForkMemory | kernel/proc.c:260-267 | the child becomes a copy of the parent in pages of its own, or stays empty; free pages plus the child's are what they were, and no page of anyone else, the parent included, changes |
| AddressSpace.ProcPagetable | kernel/proc.c:160-188 | an empty space with trampoline and trapframe mapped, paid for by free pages; on failure everything taken is given back |
| AddressSpace.ProcFreepagetable | kernel/proc.c:192-196 | every table page and every user page goes back exactly once, and nothing else changes |
| Processes.OneChanged | kernel/proc.c:97-156 | an operation on one process's pages and the free ones leaves every other process's pages and bytes alone, and the total is the same |
| Processes.StoreAllowed | kernel/vm.c:78-94 | the hardware lets a user store through exactly where the process has a writable user page, and never to trapframe or trampoline |
| Processes.StoreDone | kernel/vm.c:78-94 | such a store changes that one word of that one process |
| ProcessTable.ProcTable.Allocproc | kernel/proc.c:97-136 | the first unused slot with a trapframe and an empty space; on any failure nothing has been taken |
| ProcessTable.ProcTable.Freeproc | kernel/proc.c:141-156 | all the process held goes back exactly once |
| ProcessTable.ProcTable.Growproc | kernel/proc.c:234-248 | the process's memory is resized or unchanged, no other memory changes, no page is lost |
| ProcessTable.ProcTable.Fork | kernel/proc.c:252-269 | a new process with a copy of the memory; on any failure free pages and processes are as before |
| ProcessTable.ProcTable.Run | kernel/proc.c:97-297 | over any sequence of allocproc, growproc, fork, freeproc and user stores: free pages plus the pages of all processes are constant, no page is held twice, the memories are those of a machine where each process has its own, and once all processes are gone every page is free |
| ProcessTable.Isolated | kernel/proc.c:252-297 | whatever other processes do in a run, it does not show in a process's memory |
| ExitWait.StepKeepsInv | kernel/proc.c:252-400 | every step of fork, exit, wait, sleep, wakeup, kill, the scheduler and a timer interrupt keeps the invariant on locks, states, parents and counts |
| ExitWait.RunKeepsInv | kernel/proc.c:252-556 | so does every run of any number of processes, preempted anywhere interrupts are on |
| ExitWait.ParentsAlive | kernel/proc.c:301-353 | no process ever has a ZOMBIE or free parent |
| ExitWait.SleepersHaveNoZombie | kernel/proc.c:357-400 | no lost wakeup: while wait_lock is free, no process asleep in wait has a ZOMBIE child |
| ExitWait.ReapedOnceAndOffCpu | kernel/proc.c:372-384 | wait frees a slot only when its process is off the CPU for good, and each reaping is of one exit |
| ExitWait.FailedForkNeverRan | kernel/proc.c:263-267 | a slot that fork gives up on was never scheduled and never anyone's child |
| ExitWait.SomebodyCanGo | kernel/proc.c:252-400 | no deadlock on wait_lock and the process locks: in every state of every run, a process that is ready to run, or in the kernel and not asleep, can be scheduled or go on, or some process that holds a lock can go on |
| SleepLock.RunKeepsInv | kernel/sleeplock.c:19-35 | the invariant of sleep-lock, spin-lock and sleeping processes over every run |
| SleepLock.MutualExclusion | kernel/sleeplock.c:19-35 | in every state of every run at most one process owns the sleep-lock |
| SleepLock.NoLostWakeup | kernel/proc.c:493-534 | while the spin-lock and the sleep-lock are free nobody sleeps on it or is about to |
| SleepLock.HoldingSleepTells | kernel/sleeplock.c:37-44 | what holdingsleep computes is whether the caller owns the lock |
| SleepLock.SomebodyCanGo | kernel/sleeplock.c:19-35 | no deadlock: as long as some process is inside, some process inside can take a step |
| Virtqueue.IndicesTell | kernel/virtio_disk.c:282-313 | comparing the 16-bit ring indices tells exactly whether anything is left, across any number of wrap-arounds |
| Virtqueue.RingShort | kernel/virtio_disk.c:205-280 | neither ring ever holds more than two entries that nobody consumed |
| Virtqueue.StepKeepsInv | kernel/virtio_disk.c:154-313 | every step of drivers, device and interrupt handler keeps the invariant of rings, chains and buffers |
| Virtqueue.RunKeepsInv | kernel/virtio_disk.c:154-313 | so does every run |
| Virtqueue.Conservation | kernel/virtio_disk.c:154-203 | in every state of every run a descriptor is free exactly when it is in no chain, and is in at most one |
| Virtqueue.ClearedByOwnCompletion | kernel/virtio_disk.c:282-313 | a buffer's flag clears only by an interrupt turn for its own request, which the device had completed |
| VirtioRuns.CallServed | kernel/virtio_disk.c:205-280 | when a call of virtio_disk_rw returns, in any run, the device has carried its request out in between: a read has in its buffer what the block held then, a write has put there what the buffer held at the call |
| VirtioRuns.BlockHolds | kernel/virtio_disk.c:205-313 | in any state of any run a block holds what the last completed write of it was called with, or what it held at first |
| VirtioRuns.ReadReturnsLastWrite | kernel/virtio_disk.c:205-313 | so a read returns what the last write of the block that the device completed before it was called with, whatever else was under way |
| VirtioDriver.Driver.AllocDesc | kernel/virtio_disk.c:154-162 | the lowest free descriptor, or -1 exactly when none is free |
| VirtioDriver.Driver.FreeChain | kernel/virtio_disk.c:179-189 | following the links frees exactly the three descriptors of the chain |
| VirtioDriver.Driver.Alloc3Desc | kernel/virtio_disk.c:193-203 | three distinct free descriptors if and only if three are free; else nothing has changed |
| VirtioDriver.Driver.Request | kernel/virtio_disk.c:205-268 | exactly the submit step of the state machine, or a sleep with nothing changed exactly when fewer than three descriptors are free |
| VirtioDriver.Driver.Conclude | kernel/virtio_disk.c:270-279 | exactly the finish step |
| VirtioDriver.Driver.Intr | kernel/virtio_disk.c:282-313 | every completed request is seen, and it panics exactly when one of them failed |
| Malloc.Heap.Free | user/umalloc.c:24-42 | the block leaves the blocks in use and is joined with every free block it touches, no unit is lost, and nothing in a block in use is written to |
| Malloc.Heap.Malloc | user/umalloc.c:59-84 | a block of exactly the units asked for, none of them in use; the heap grows, once, if and only if no free block was large enough, and it fails if and only if it then cannot |
| Malloc.Heap.Morecore | user/umalloc.c:44-57 | the granted units join the free blocks, and the request then fits |
| Malloc.Heap.FindPlace | user/umalloc.c:28-30 | free's walk around the ring ends, at the free block below the one given back |
| Regex.MatchHere | user/grep.c:78-88 | true if and only if a prefix of the text is in the pattern's language |
| Regex.MatchStar | user/grep.c:91-97 | the same for a starred character and the rest |
| Regex.Match | user/grep.c:67-75 | true if and only if the text contains a match, anchored where the pattern says so |
| ShellParser.GetToken | user/sh.c:247-288 | exactly the token the grammar has at that place |
| ShellParser.ParseExec | user/sh.c:383-412 | the recursive descent computes the grammar's tree, with redirections outside and too many arguments refused |
| ShellParser.ParseLine | user/sh.c:320-333 | the same for lines with background and list operators |
| ShellParser.ParseCmd | user/sh.c:305-318 | the whole line is one command, or the first of the parser's five panics and which one |
| ShellParser.Nulterminate | user/sh.c:415-457 | exactly the character after each argument and file name becomes NUL, and no other |
| ShellParser.ParseInPlace | user/sh.c:305-318 | read as C strings, the arguments and file names in the buffer are exactly the words of the line; a failing parse leaves the buffer alone |
| ShellRoundTrip.RoundTrip | user/sh.c:247-457 | every command tree of words, printed and parsed again, is the same tree |

## Left out

- Log.LogLayer.CommitStep: a bwrite with the memmove before it and the brelses after it is one step; commit holds the buffers concerned all that time.
- Log.LogLayer.Read: taken when the block's sleep-lock is free; waiters are not counted in reference counts.
- Directories.LinkCounts: link counts are unbounded, where the kernel has a 16-bit short; path lookup is a parameter.
- Directories.FileNames.Iput: the put that drops the last reference; the counting of references is not modelled.
- FileCrash.FilesAtomic: the values in the inodes and blocks fit their C types.
- FileOps.Filewrite: what later operations make of bytes that a failed copy left in a buffer is not followed.
- Malloc.Heap.Malloc: requests of 2 GB and more, which sbrk's int argument would truncate.
- ExitWait.RunKeepsInv: pids, killed and exit status are not modelled; a copyout or allocation may fail at any time.
- VirtioDriver.Driver.Request: memory barriers and device registers; the device sees the driver's writes in program order.
- Processes.StoreDone: stores of aligned words only; loads and instruction fetches change nothing.
- The inode table with its reference counts and locks, iget, ilock and idup.
- Path lookup (namex, skipelem), open files and file descriptors, pipes, the console and devices.
- exec, copyin and copyout, walkaddr, uvmfirst, uvmclear, system-call dispatch and argument fetching.
- Boot, traps, interrupts other than the disk's and the timer's yield, context switching and all assembly code.
- Spin-locks themselves, push_off and pop_off: what they make atomic is one step here.
- mkfs beyond the layout it chooses, and the user programs other than those above.
