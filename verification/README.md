# A model of the xv6 kernel's core, with proofs

This project models the parts of an x86 xv6 kernel (with its own schedulers and process time
accounting) whose correctness is not visible in any single function, and proves what they promise.
`dafny verify dfyconfig.toml` checks all of it.

| module | what it models |
|---|---|
| `Common`, `Blocks` | what the modules share; disk blocks as bytes and as 32-bit words |
| `CrashRecovery` | the redo log as the sequence of block writes it issues; a crash cuts the sequence anywhere, also inside recovery, any number of times |
| `BufferCache` | the buffer cache (bio.c) over the in-memory disk (memide.c): the circular list, reference counts, pins |
| `Log` | log.c on that cache; its block writes are prefixes of the sequences of `CrashRecovery` |
| `LogRun` | any sequence of block reads, logged updates, begin_op, end_op, commits, panics and power failures on the running log, against two plain maps |
| `Reservation` | the log space protocol of any number of operations, and the size guard of log_write |
| `FsLayout`, `FsOwnership`, `FsContent`, `FileSystem` | the free map, who owns each block, file content, and balloc, bfree, bmap, iupdate, readi, writei, itrunc (fs.c) and filewrite (file.c) |
| `FsTight` | a consistent file system in which a chunk of filewrite logs as many blocks as an operation may |
| `FsCrash`, `FsOnLog` | the file system's operations as transactions of the log, on the disk and on the running log: files across crashes |
| `Heap` | malloc and free (umalloc.c) |
| `ProcTable`, `Scheduler` | the process table, tickets, times and the scheduling policies (proc.c) |
| `SleepLock` | sleep locks and the sleep/wakeup protocol as interleaved steps (sleeplock.c, proc.c) |
| `Pipe` | the pipe's ring buffer with wrapping counters (pipe.c) |
| `ShellGrammar`, `ShellSyntax`, `ShellLexer`, `ShellParser` | the shell's parser (sh.c): grammar on tokens, what a line can say and mean, tokens of a line, and the parser that walks characters |
| `Grep` | the regular expression matcher (grep.c) |
| `PageTables`, `PageCounts`, `PageMaps`, `Vm` | page tables, address spaces (vm.c) and the page allocator (kalloc.c) |

Main results:

- **Crash atomicity.** After any run of commits, crashes in commit and crashes in recovery the disk
  stands for the transactions that reached their commit point, whole and in order
  (`CrashRecovery.CrashAtomicity`), and the running log issues exactly those block writes
  (`Log.Log.Commit`, `Log.Boot`).
- **Cache, log and disk are two plain maps.** Whatever sequence of reads, logged updates, begin_op,
  end_op, commits, panics and power failures runs on the log, with power failing after any number of
  block writes of a commit and again in any number of recoveries, every read gives what was last logged,
  every commit makes the current content the one a crash leaves, every reboot falls back to that, and
  each call panics, sleeps or succeeds exactly when the maps say (`LogRun.Run`).
- **Files across crashes.** Over every run with crashes, a recovered disk holds a consistent file system
  with the files and inode attributes there were after the last transaction that reached its commit point
  (`FsCrash.FilesSurviveCrashes`). A filewrite that power failures cut, in any grouping of its operations
  into transactions and after any number of block writes of a commit, has written a whole number of chunks
  and nothing else (`FsCrash.FileWriteCut`), also when its log_writes go through the running log
  (`FsOnLog.FileWriteOnLog`).
- **Files.** writei, filewrite and itrunc act on whole files as splice and truncation and leave all
  other files alone; types and link counts on disk change only for the inode that is written, to those in
  core; every used block has one owner; a write panics if and only if fewer blocks are free than it has to
  allocate, and logs exactly the blocks that its pieces name; a chunk of filewrite fits its
  log reservation, and there is a consistent file system in which one uses it up
  (`FileSystem.FileSystem.WriteOp`, `FsTight.TightFileSystem`).
- **Heap.** Free and live blocks always partition what sbrk gave.
- **Scheduling.** Ticket total, lottery shares, how many values of fastrand choose each process and who can win
  at all, burst and wait times equal to the ticks spent RUNNING and RUNNABLE modulo 2^32, priority choice, and
  how long round robin passes a process over.
- **Sleep locks.** Mutual exclusion, no lost wakeup and no deadlock in every interleaving; a free lock is granted.
- **Memory.** Every page of the pool is free or has one use; a failed copyuvm restores what
  there was, and a failed allocuvm does if and only if its range was empty; allocuvm, setupkvm and copyuvm fail
  exactly when fewer pages are free than memory and page tables take; two-level tables are flat maps, with the
  permissions that the hardware grants.
- **Shell and grep.** The parser accepts exactly the lines that are a way to write some phrase, with or without
  parentheses, and returns what the phrase means; words survive nulterminate; the matcher accepts exactly what
  its expression means, and every expression is the text of the pattern that it is read as.

Conventions. A panic of the source is a result of the method. Values that come from outside (whether
there is memory for sbrk, what fastrand or the linker provide, whether a process has been killed) are parameters. `ghost`
fields carry the abstract state that `Valid()` ties to the real one. Lock-protected regions are
atomic steps, except in `SleepLock`, where every lock operation is a step of its own.

Where the code does less than one might expect, the exact condition is proved:

- log_write's guard stops at `log.size - 1` blocks while reservations go up to LOGSIZE, and mkfs makes
  the on-disk log LOGSIZE blocks long (mkfs.c:25): a fresh block inside an operation's budget can be stopped
  by the guard if and only if the log has at most LOGSIZE blocks (`Reservation.BudgetMeetsGuard`). The guard
  comes before absorption: once the list is full it stops a block that is listed already, however large the
  log is (`Reservation.AbsorbedMeetsGuard`), and on a larger log it stops nothing else
  (`Reservation.GuardOnLargeLog`).
- There are as many buffers as the log may list blocks. Three operations that use up their reservations on a
  log that is large enough pin every buffer, and then commit panics before its first block write
  (`LogRun.Jam`); it panics in no other case (`LogRun.DoCommit`).
- malloc's size computation wraps: the block fits the request if and only if the sum does not wrap
  (`Heap.UnitsCover`). sbrk takes an int: it gives morecore the units it asks for if and only if they are
  fewer than 2^28 (`Heap.SbrkHonours`); malloc(0x80000000) is answered with memory that the process does not
  have (`Heap.HugeRequest`). A count that is negative as an int makes the process smaller if and only if it is
  not below minus its size (`Heap.SbrkTakesAway`): malloc(0xffff7ff8) can unmap all of it
  (`Heap.ShrinkingRequest`). `Heap.Allocator.Malloc` says exactly when each of these happens and
  which units are gone; short of 2^31 bytes it fails if and only if there is no memory or KERNBASE is in the way.
- fastrand has 15 bits and the ticket total is an int: a RUNNABLE process can win if and only if its first
  ticket is within the reach of the draws (`Scheduler.WinnableIff`, `Scheduler.LotteryReach`). A first process
  with 32768 tickets wins every draw and starves all others (`Scheduler.GreedyProcessWins`,
  `Scheduler.GreedyProcessStarvesOthers`), and two processes with the largest int of tickets make the total
  negative (`Scheduler.TicketsOverflow`).
- The round robin cursor stays on slot 0 while slot 0 is RUNNABLE: fewer than NPROC passes that pass a process
  over choose something else than slot 0 (`Scheduler.RoundRobinWait`), and while slot 0 stays RUNNABLE the
  process is chosen if and only if the cursor starts behind slot 0 and before it
  (`Scheduler.RoundRobinPastSlotZero`, `Scheduler.StarvingRun`). Slot 0 itself waits fewer than NPROC passes
  (`Scheduler.SlotZeroWait`). The cursor leaves the table if and only if it
  was at the last slot (`Scheduler.AdvanceInTable`).
- allocuvm unmaps its whole range when memory runs out, so the maps are as before if and only if the range was
  empty (`PageMaps.EmptiedIffVacant`).

## Model

| member | source | states |
|---|---|---|
| `CrashRecovery.HeaderRoundTrip` | log.c:86-113 | what write_head stores, read_head reads back, for every list of at most LOGSIZE block numbers and whatever was in the block before |
| `CrashRecovery.InstallInvisible` | log.c:70-82 | copying any of the committed log slots home changes nothing that a later recovery would see |
| `CrashRecovery.HeaderWriteCommits` | log.c:102-113 | once the slots are filled, the one header write changes the content the disk stands for from before the transaction to after it |
| `CrashRecovery.LogPrefix` | log.c:178-190 | any prefix of write_log leaves the disk standing for the old content, with the log still empty |
| `CrashRecovery.InstallPrefix` | log.c:70-82 | any prefix of install_trans keeps header, slots and content, and has put the slots so far in place |
| `CrashRecovery.RecoveryCrash` | log.c:116-122 | a crash after any prefix of recovery keeps the content; recovery that ends leaves an empty log |
| `CrashRecovery.CommitIsLogThenRecover` | log.c:193-202 | what commit still writes after the commit point is exactly what recovery would write from that disk |
| `CrashRecovery.CommitCrash` | log.c:193-202 | a crash after k writes of commit leaves the whole old content up to the header write and the whole new content from it on |
| `CrashRecovery.CrashAtomicity` | log.c:70-122 | over every run of commits, crashes inside commit, crashes inside recovery and completed recoveries, the disk stands for exactly the transactions that reached their commit point, in order, and the log is empty whenever the machine is up |
| `CrashRecovery.CleanHomeIsDisk` | log.c:116-122 | with an empty log that content is the home blocks themselves |
| `CrashRecovery.CommitLength` | log.c:178-202 | a commit of n > 0 blocks takes 2n + 2 block writes, and an empty one none |
| `BufferCache.UnlinkRemoves` | bio.c:132-133 | the two stores of brelse turn a circular doubly linked list into the list without that buffer |
| `BufferCache.LinkFrontAdds` | bio.c:134-137 | the four stores put a buffer at the front and keep one circular list |
| `BufferCache.ReleaseOrder` | bio.c:129-138 | moving the buffer released now to the front keeps the list ordered by time of last release |
| `BufferCache.BCache.constructor` | bio.c:39-56 | binit makes one circular list of exactly the NBUF buffers, none of which holds a block |
| `BufferCache.BCache.FindCached` | bio.c:69-76 | the walk from the front finds the buffer of a block or shows that there is none |
| `BufferCache.BCache.FindRecyclable` | bio.c:81-90 | the walk from the back finds the least recently released buffer that is unreferenced and not dirty, or shows that there is none |
| `BufferCache.BCache.Bget` | bio.c:62-93 | hit, recycling of the least recently released unpinned buffer, or "no buffers" exactly when neither is possible; no block is ever in two buffers |
| `BufferCache.BCache.Iderw` | memide.c:39-60 | a dirty buffer is one block write, an unloaded one a read, and the panics come exactly where the source has them |
| `BufferCache.BCache.Bread` | bio.c:97-106 | the buffer has the content readers of the block are entitled to, also when the disk is behind; a panic exactly when there is no such block or no buffer for it |
| `BufferCache.BCache.Bwrite` | bio.c:110-116 | one block write that ends the pin of that block |
| `BufferCache.BCache.Pin` | log.c:231 | the holder's data becomes the content of the block and the buffer cannot be recycled |
| `BufferCache.BCache.Brelse` | bio.c:121-141 | the reference count goes down and the last release moves the buffer to the front; list, contents and pins stay sound |
| `BufferCache.RecycleSound` | bio.c:81-90 | recycling an unpinned buffer loses no content, because the disk has it |
| `BufferCache.LoadSound` | bio.c:97-106 | what is read from disk for an uncached block is what readers are entitled to |
| `BufferCache.BwriteSound` | bio.c:110-116 | a write to disk keeps cache, disk and pins coherent |
| `BufferCache.PinSound` | log.c:231 | so does pinning |
| `Log.CopyBlock` | log.c:75-80 | read two blocks, copy, write, release: one block write, no pin but the destination's is lost, no panic when one of the blocks is pinned and one buffer is recyclable, and a panic when the block read first is not cached and no buffer is |
| `Log.Log.WriteLog` | log.c:178-190 | the disk has seen the slot writes of the transaction in order, with the data readers see in the pinned blocks; none of them, and a panic, when no buffer is left for the first slot |
| `Log.Log.WriteHead` | log.c:102-113 | one block write of the header of the in-memory list |
| `Log.Log.FillHeader` | log.c:107-110 | the loop builds exactly that header block |
| `Log.Log.InstallTrans` | log.c:70-82 | the disk has seen the installs of the slots in order, and installed blocks are no longer pinned |
| `Log.Log.ReadHead` | log.c:86-96 | the in-memory list is what the header on disk says |
| `Log.Log.InstallAndClear` | log.c:198-200 | the block writes are those of a recovery, a prefix of them if buffers run out |
| `Log.Log.Recover` | log.c:116-122 | the block writes are a prefix of a recovery's, all of them when two buffers are recyclable |
| `Log.Log.ReachCommitPoint` | log.c:195-197 | slots and header are on disk, in that order, with every pin still in place; a panic before the first write when no buffer is left for the first slot |
| `Log.Log.Commit` | log.c:193-202 | the block writes are a prefix of the commit of the whole transaction, all of them when one buffer is recyclable and none when there is none for the first slot; afterwards nothing is pinned and readers see what they saw before, now on disk |
| `Log.CommitView` | log.c:193-202 | after a whole commit the home blocks hold what readers saw before it |
| `Log.IdleHasSpare` | log.c:218-219 | when no buffer is referenced, fewer listed blocks than buffers leave a recyclable buffer, which is what commit needs |
| `Log.Log.BeginOp` | log.c:126-141 | an operation is admitted exactly when no commit is on and its reservation fits with those before it |
| `Log.Log.FindEntry` | log.c:224-227 | the search finds the block's entry or shows it is not listed |
| `Log.Log.LogWrite` | log.c:214-233 | both panics exactly where the guards say, absorption, a distinct list, the block pinned, and the reservation invariant kept |
| `Log.Log.EndOp` | log.c:146-163 | the last operation out, and only it, starts a commit |
| `Log.Log.CommitAndReopen` | log.c:165-173 | commit, then the log is empty, nothing is pinned and operations may start again; a panic before the first write when no buffer is left for the first slot |
| `Log.Boot` | log.c:54-66 | on any recoverable disk the log starts empty with the content the disk stood for in the home blocks |
| `Log.Log.Read` | bio.c:97-106 | between log operations, reading a block through the cache gives what was last logged for it, committed or not, and disturbs nothing |
| `Log.Log.Update` | log.c:204-233 | bread, change, log_write, brelse: readers see the new content at once, the disk does not change, and the three panics come exactly where they should |
| `LogRun.NoRoomIffFull` | bio.c:62-93 | with no buffer held, bget panics if and only if the log lists as many blocks as there are buffers and not this one |
| `LogRun.TransactionIsView` | log.c:178-202 | installing the running transaction turns what the disk has into what readers see |
| `LogRun.DoCommit` | log.c:165-173 | with no buffer held, end_op's commit makes what readers see durable, or panics without a block write, exactly when the log lists as many blocks as there are buffers |
| `LogRun.DoPowerFail` | log.c:54-122 | power fails after k block writes of a commit and then in any number of recoveries: the machine comes up with what readers saw if the header had been written, and with what was stable otherwise |
| `LogRun.ExtendRetries` | log.c:116-122 | recoveries that the power fails in are steps of the machine, after which no more is durable |
| `LogRun.Extend` | log.c:116-202 | whatever a call does to the disk is a step of the machine of commits, crashes and recoveries, and adds exactly its durable transaction |
| `LogRun.Step` | log.c:126-233 | one call is answered as by the two maps, with its panic or sleep exactly when they say |
| `LogRun.Run` | log.c:126-233 | any sequence of calls is answered as by the two maps; what happened to the disk is a run of commits, crashes and recoveries whose durable transactions are the steps between the successive stable contents |
| `LogRun.Jam` | log.c:126-202 | three operations that each log MAXOPBLOCKS blocks on a log of more than LOGSIZE blocks: every call succeeds up to the commit, which panics, and nothing of them stays |
| `Reservation.StepWithinLog` | log.c:126-174 | begin, a fresh block within budget, and end keep listed blocks plus unused reservations within LOGSIZE |
| `Reservation.ReachableWithinLog` | log.c:126-174 | so in every state of every run of any number of operations |
| `Reservation.FilledReachable` | log.c:214-233 | every fill level up to LOGSIZE is reached by three operations inside their budgets |
| `Reservation.BudgetMeetsGuard` | log.c:218-219 | a fresh block inside an operation's budget can be stopped by the size guard if and only if the on-disk log has at most LOGSIZE blocks, which is what mkfs makes |
| `Reservation.AbsorbedMeetsGuard` | log.c:218-227 | for every size of the on-disk log, three operations that have spent their budgets reach a state in which a write of a listed block is stopped |
| `Reservation.GuardOnLargeLog` | log.c:218-219 | with more than LOGSIZE blocks on disk the guard stops a write if and only if the list is full, and then every budget has been spent |
| `FsLayout.MarkBits` | fs.c:66-68 | setting or clearing a bit of a bitmap block changes that bit and no other |
| `FsLayout.BitAfter` | fs.c:82-95 | the same for the whole free map |
| `FsOwnership.AllocStep` | fs.c:57-78 | a block whose bit is clear is a data block that no slot holds, and never block 0; marking it keeps the free map exact |
| `FsOwnership.FreeStep` | fs.c:82-95 | a block taken out of its slot still has its bit set, so "freeing free block" is not reached; clearing it keeps the free map exact |
| `FsOwnership.PlaceDirect` | fs.c:379-388 | a new block in an empty slot keeps one owner for every used data block |
| `FsOwnership.PlaceEntry` | fs.c:391-394 | so does a new block in an empty entry of the indirect block |
| `FsOwnership.DetachDirect` | fs.c:414-419 | emptying a direct slot leaves all other slots and owners alone |
| `FsOwnership.DetachIndirect` | fs.c:421-431 | dropping the indirect block frees exactly it and the blocks its entries name of their owner |
| `FsOwnership.WriteStep` | fs.c:501-503 | writing file data or an inode block moves no block |
| `FileSystem.FileSystem.FindFree` | fs.c:62-75 | the first block with a clear bit, or none has one |
| `FileSystem.FileSystem.Balloc` | fs.c:57-78 | a zeroed data block that belonged to nobody, or the panic exactly when no block is free |
| `FsContent.RoomIsClearBits` | fs.c:57-78 | the number of free blocks, counted by owners, is the number of clear bits of the free map |
| `FileSystem.FileSystem.Bfree` | fs.c:82-95 | clears that bit only, and never panics on a block that was in a slot |
| `FileSystem.FileSystem.Bmap` | fs.c:373-400 | a mapped piece is found without any change; otherwise a fresh zeroed block is placed, all other slots and data stay, and exactly the named blocks are logged; a panic exactly for a piece out of range or with fewer free blocks than the piece needs |
| `FileSystem.FileSystem.Iupdate` | fs.c:221-236 | the disk has all fields of this inode, and every other inode as before |
| `FsContent.InodeLayout` | fs.h:29-42 | the inodes on disk are one array of 64-byte structures from inodestart on, with each field at its offset, lowest byte first |
| `FsContent.MapLayout` | fs.h:45-48 | the free map is one array of bits from bmapstart on, eight to a byte, the lowest first |
| `FsContent.InodeWritten` | fs.c:221-236 | the same for any two inodes, also in one block |
| `FileSystem.FileSystem.ReadI` | fs.c:453-476 | the slice of the file from off, at most n bytes; the refusals; nothing changes on disk |
| `FileSystem.FileSystem.WriteAll` | fs.c:498-504 | after the loop the new bytes are in the file, all others are old, and the log has grown by exactly the blocks that the pieces name before and after; it stops early if and only if fewer blocks were free than the write has to allocate |
| `FileSystem.FileSystem.WriteI` | fs.c:482-511 | the file is its prefix, the source and its remaining suffix; every other file is unchanged; new addresses and size are on disk; exactly the refusals of the source; the blocks logged are exactly those that the pieces name in the old and the new table, and the inode's if the file grew, at most WriteCost; a panic if and only if fewer blocks were free than the write has to allocate; attributes on disk are as before, but for this inode if the file grew, which then has those in core |
| `FsContent.ThisFile` | fs.c:498-510 | the bytes written read back as that splice |
| `FsContent.OtherFile` | fs.c:498-510 | a write to one inode changes no byte of another |
| `FsContent.FilesUnmoved` | fs.c:221-236 | changes outside the data area move no byte of any file |
| `FsContent.ChunkFitsLog` | file.c:127-133 | the bound for a chunk of filewrite is at most MAXOPBLOCKS for any offset and alignment |
| `FsContent.ChunkReachesLimit` | file.c:127-133 | a full chunk that begins inside the last direct block of a file without an indirect block logs exactly its four data blocks, the new indirect block, the bitmap blocks of the four new ones and the block of the inode: MAXOPBLOCKS blocks if and only if the four new blocks have their bits in different bitmap blocks, and so whenever no two free blocks share one |
| `FsTight.TightFileSystem` | file.c:127-133 | there is a consistent file system with such a file and just the four free blocks that the chunk needs, each under a bitmap block of its own |
| `FsContent.RecordNext` | fs.c:373-400 | one more piece adds to the log exactly the blocks it names, takes exactly the blocks it needs, and leaves every other piece where it was |
| `FsContent.WriteSetSize` | fs.c:498-504 | what the pieces name is at most a block each, a bitmap block for each new one, and the indirect block with its bitmap block |
| `FsContent.FreshOnlyBeyond` | fs.c:498-504 | only blocks beyond the old size can be new |
| `FileSystem.FileSystem.WriteOp` | file.c:140-145 | one log operation of filewrite writes one chunk, its log_writes account for every changed block and name exactly the blocks of its pieces, at most MAXOPBLOCKS, and exactly MAXOPBLOCKS where ChunkReachesLimit says so; a panic if and only if the free blocks do not suffice; the attributes on disk as for WriteI |
| `FileSystem.FileSystem.NextChunk` | file.c:135-152 | one round of filewrite's loop: the next chunk is in the file, or refused because the range does not fit, or the free blocks do not suffice for it |
| `FileSystem.FileSystem.FileWrite` | file.c:118-156 | chunk by chunk, each chunk one operation on a consistent file system whose log_writes name at most MAXOPBLOCKS blocks; at the end the whole buffer is spliced in at the offset, which moves past it, or -1, exactly when the file is not writable or the range does not fit; a panic exactly at the first chunk for which the free blocks do not suffice; at each moment between operations only this inode's attributes on disk may differ, being those in core once the file has grown |
| `FsContent.WrittenStep` | file.c:135-152 | two chunks one after the other are one write of both |
| `FileSystem.FileSystem.FreeEntries` | fs.c:422-427 | each nonzero entry of a detached indirect block is freed once |
| `FileSystem.FileSystem.Itrunc` | fs.c:408-435 | the file is empty on disk and in core, its blocks and only its blocks become free, no other file changes, bfree never panics, and only bitmap blocks and the inode's block are logged; only this inode's attributes on disk change, to those in core |
| `FsContent.FilesAfterFree` | fs.c:408-435 | freeing blocks of one inode keeps the bytes of all others |
| `FsContent.HistoryStep` | file.c:135-152 | one more operation of filewrite adds one chunk to the file, changes no other file, no attributes but those of a file that grows, and stays within its reservation |
| `FsContent.EmptyFileSystem` | mkfs.c:237-251 | every geometry that fits on a disk has a consistent file system, the empty one that mkfs makes |
| `FsCrash.WritesAreTransaction` | log.c:214-233 | what log_writes changed is a transaction the log can take, over exactly the blocks they name, if those are few enough |
| `FsCrash.GroupIsTransaction` | log.c:146-163 | so is what several operations changed together, on any disk of that size |
| `FsCrash.HistoryInstalled` | log.c:70-82 | installing the transactions one after the other follows the history of the file system |
| `FsCrash.BehindLog` | fs.h:8-10 | consistency and content of a file system do not depend on what is in the log area, nor do the attributes |
| `FsCrash.FilesSurviveCrashes` | log.c:116-202 | over every run of commits, crashes in commit, crashes in recovery and recoveries, whenever the machine is up the disk holds a consistent file system with exactly the files and inode attributes after the last operation that reached its commit point |
| `FsCrash.FileWriteSurvivesCrashes` | file.c:118-156 | however the operations of a filewrite are grouped into transactions, a recovered disk holds a consistent file system with a whole number of its chunks written in place, no other file changed, and no attributes but those of this inode once its file has grown |
| `FsCrash.CommitGroups` | log.c:146-202 | committing the groups of a filewrite's operations one after the other is a run of the machine whose durable transactions are the steps of the file system |
| `FsCrash.FileWriteCut` | file.c:118-156 | power fails after any number of block writes of any commit of a filewrite: once recovery has run the disk holds a consistent file system with the chunks of the earlier groups, and those of this group exactly if its header had been written; attributes as above |
| `FsOnLog.StoryServes` | log.c:126-202 | the transactions that the running log makes durable are the steps of every history that its stable contents follow |
| `FsOnLog.Perform` | log.c:126-174 | an operation that runs alone on the log, within MAXOPBLOCKS blocks, becomes durable as a whole |
| `FsOnLog.Interrupt` | log.c:126-174 | an operation that the power fails in, behind any log_write or any block write of its commit, and again in any number of recoveries: all of it stays if the header had been written, and nothing otherwise |
| `FsOnLog.FileWriteOnLog` | file.c:118-156 | filewrite's log_writes on the running log, with power failing behind any log_write of any operation or any block write of its commit, and in any number of recoveries: the machine comes up with a consistent file system in which exactly the chunks have been written whose commit had written its header; attributes as above |
| `Heap.ListInsert` | umalloc.c:33-42 | a block between its neighbours keeps one address-ordered cycle of blocks that do not touch |
| `Heap.FreeKeeps` | umalloc.c:33-43 | all four ways free joins a block with its neighbours keep the heap well formed and every unit owned once |
| `Heap.TakeKeeps` | umalloc.c:75-84 | so do handing out a whole block and handing out its tail |
| `Heap.AddCore` | umalloc.c:54-59 | memory from sbrk joins the heap as a block of its own |
| `Heap.UnitsCover` | umalloc.c:69 | the block malloc carves is big enough for the request, and by less than a unit more, if and only if its 32-bit sum does not wrap; if it does the block has no room at all |
| `Heap.SbrkHonours` | proc.c:193-210 | when sbrk succeeds, the process has grown by what morecore asked for if and only if that is fewer than 2^28 units; otherwise it has not grown at all |
| `Heap.SbrkAnswers` | proc.c:193-210 | how sbrk answers morecore, by the bytes wanted: fewer than 2^31 are given if and only if there is memory and they end below KERNBASE; from 2^31 on it fails if and only if they end at 2^32, and otherwise gives none |
| `Heap.HugeRequest` | umalloc.c:54-57 | malloc(0x80000000) does not wrap, and sbrk succeeds without giving a byte |
| `Heap.SbrkTakesAway` | proc.c:193-210 | sbrk makes the process smaller if and only if the count is negative and not below minus its size, and reports failure with all memory gone exactly when it is minus its size; the new size is the old one less the count |
| `Heap.ShrinkingRequest` | umalloc.c:54-57 | malloc(0xffff7ff8) unmaps a process of 0x8000 bytes and halves one of 0x10000 |
| `Heap.TakenPages` | vm.c:298-322 | a unit is taken away if and only if its page begins at or above the new end of the process |
| `Heap.Allocator.FindSpot` | umalloc.c:30-32 | free's search stops, at the free block after which the block belongs |
| `Heap.Allocator.Join` | umalloc.c:33-42 | the two conditionals of free are the memory update that FreeKeeps is about |
| `Heap.Allocator.Free` | umalloc.c:25-44 | the block is no longer live, all units stay accounted for, no other live block changes |
| `Heap.Allocator.MoreCore` | umalloc.c:47-61 | short of 2^31 bytes: a free block of at least the requested size and exactly the wanted units more, if there is memory and they end below KERNBASE, and null otherwise; from 2^31 on null or astray, and the new size; and which units sbrk takes away |
| `Heap.Allocator.Search` | umalloc.c:74-89 | one walk around the list from freep stops with the first block that is big enough or shows there is none |
| `Heap.Allocator.Take` | umalloc.c:75-84 | a block that was not live, of exactly the requested units |
| `Heap.Allocator.Malloc` | umalloc.c:64-90 | a new live block of Units(nbytes) units apart from all others, from the free list if one fits; otherwise a block if and only if fewer than 2^31 bytes are wanted, there is memory and they end below KERNBASE; null and lost exactly as MoreCore says; the units that are taken away are named, and the heap stays in memory that the process has if and only if there are none |
| `Heap.HeapConserved` | umalloc.c:25-90 | while sbrk has taken nothing away, free plus live units are the units that it has given |
| `Heap.NoOverlap` | umalloc.c:25-90 | no two blocks, free or live, share a unit |
| `ProcTable.SlotStep` | proc.c:678-685 | when one slot changes and the total follows, the total still is the sum over RUNNABLE and RUNNING slots, modulo 2^32 |
| `ProcTable.TickCounts` | trap.c:51-55 | one more tick in its state keeps the time fields of a process in agreement with the ticks counted |
| `ProcTable.ChargesAreTimely` | proc.c:600-601 | each way to leave a state charges exactly the ticks the clock has counted in it, to burst, wait or nothing, also when the counters wrap |
| `ProcTable.TurnaroundSplits` | proc.c:665-669 | burst and wait time are the ticks that found the process RUNNING and RUNNABLE, and the turnaround time those and the ticks that found it an embryo or asleep, modulo 2^32 |
| `ProcTable.Table.Tick` | trap.c:51-55 | every live process has spent one more tick in its state, and all time fields still agree with the ticks counted |
| `ProcTable.Table.AllocProc` | proc.c:91-116 | the first UNUSED slot becomes an EMBRYO, or there is none |
| `ProcTable.Table.Abandon` | proc.c:229-234 | fork gives the slot back |
| `ProcTable.Table.MakeRunnable` | proc.c:252-257 | fork's child starts to count in the ticket total |
| `ProcTable.Table.Dispatch` | proc.c:566-575 | the waiting time is charged and the process runs |
| `ProcTable.Table.Yield` | proc.c:618-624 | the running time is charged and the process waits |
| `ProcTable.Table.Sleep` | proc.c:711-736 | its tickets leave the total and the running time is charged |
| `ProcTable.Table.Wakeup1` | proc.c:752-761 | exactly the sleepers on the channel become RUNNABLE and count again |
| `ProcTable.Table.Kill` | proc.c:776-808 | the first process with that pid is marked and, if asleep, made RUNNABLE with its tickets |
| `ProcTable.Table.SetTicketCount` | proc.c:678-685 | the total follows the count; a count that is not positive is ignored |
| `ProcTable.Table.SetPriority` | proc.c:653-658 | the priority stays in 1..6 |
| `ProcTable.Table.GetProcTimes` | proc.c:661-670 | the three times reported are the ticks the clock has counted in each state since creation |
| `ProcTable.Table.WaitPass` | proc.c:322-374 | the first exited child is reaped and its times, as the clock counted them, reported; otherwise it gives up exactly if there are no children or the caller is killed, and sleeps if not; a reaped slot is UNUSED with pid 0 and not killed |
| `ProcTable.Table.Exit` | proc.c:274-317 | children go to init, so nobody with a pid has the dead slot as parent, waiters are woken, nothing else of another process changes, and the process is a ZOMBIE without tickets |
| `ProcTable.ExitNext` | proc.c:299-310 | what one round of exit's loop adds, for every slot |
| `ProcTable.ExitWakesParent` | proc.c:299-310 | a parent asleep in wait does not miss the exit |
| `Scheduler.LotteryScan` | proc.c:549-557 | the process whose tickets the number falls on, or nobody's |
| `Scheduler.LotteryShares` | proc.c:543-558 | of the numbers below the total, as many select a RUNNABLE process as it has tickets, and as many select nobody as the RUNNING processes have |
| `Scheduler.SelectsOne` | proc.c:543-558 | no number selects two processes |
| `Scheduler.WinnableIff` | proc.c:543-558 | some value of fastrand makes a RUNNABLE process win if and only if its first ticket is below the reach of the draws: the total and 2^15, or 1 when the int total is not positive |
| `Scheduler.LotteryReach` | proc.c:543-558 | the same in terms of the tickets: while they fit an int, it can win if and only if fewer than 2^15 come before its own; when they do not and the total is not positive, if and only if it is the first RUNNABLE process |
| `Scheduler.DrawIsRemainder` | proc.c:545 | the winning number differs from what fastrand returned by a multiple of the total, and lies below the total |
| `Scheduler.DrawsCount` | proc.c:36-37 | how many values of fastrand draw a number of a range: each number once per whole turn of the total, and once more if it is below the rest |
| `Scheduler.LotteryChances` | proc.c:543-558 | while the tickets fit an int, exactly how many values of fastrand choose a RUNNABLE process: its tickets times the whole turns, and those of its tickets that the last turn reaches |
| `Scheduler.GreedyProcessWins` | proc.c:543-558 | a first RUNNABLE process with 32768 tickets wins every draw |
| `Scheduler.GreedyProcessStarvesOthers` | proc.c:543-558 | so no draw lets another process win |
| `Scheduler.TicketsOverflow` | proc.c:543-547 | two processes with 0x7FFFFFFF tickets make the total -2, so every draw is 0 and the second never wins |
| `Scheduler.PriorityScan` | proc.c:509-531 | the first process in cyclic order from the cursor among those of least priority number, despite the sentinel and the early exit |
| `Scheduler.AdvanceInTable` | proc.c:476-482 | the cursor stays in the table if and only if it was not at the last slot |
| `Scheduler.RoundRobinScan` | proc.c:493-499 | the first RUNNABLE slot from the cursor to the end of the table |
| `Scheduler.PassProgress` | proc.c:476-504 | a pass chooses the process, brings the cursor closer to it, or chooses slot 0 and stays as far |
| `Scheduler.RoundRobinWait` | proc.c:476-504 | whatever slot 0 does, fewer than NPROC of the passes that pass over a process that stays RUNNABLE choose something else than slot 0 |
| `Scheduler.SlotZeroWait` | proc.c:476-504 | a process in slot 0 that stays RUNNABLE is chosen within NPROC passes |
| `Scheduler.RoundRobinBoundedWait` | proc.c:476-504 | while slot 0 is not RUNNABLE, a process that stays RUNNABLE is chosen within NPROC passes |
| `Scheduler.RoundRobinPastSlotZero` | proc.c:476-504 | while slot 0 stays RUNNABLE, a process that stays RUNNABLE is chosen if and only if the cursor starts behind slot 0 and before it |
| `Scheduler.StarvingRun` | proc.c:481-482 | a run of any length in which slots 0 and 1 stay RUNNABLE and slot 0 is chosen every time |
| `Scheduler.Cpu.Choose` | proc.c:471-559 | each policy's choice, cursor and time quantum |
| `Scheduler.Cpu.Pass` | proc.c:470-586 | the policy's choice is dispatched with its time quantum, exactly if there is one, and the table stays sound |
| `SleepLock.RunKeepsInv` | sleeplock.c:23-42 | the protocol invariant holds in every state of every interleaving of any number of processes, kill included |
| `SleepLock.MutualExclusion` | sleeplock.c:23-42 | at most one process owns the lock |
| `SleepLock.SleepersAreWoken` | proc.c:711-746 | nobody sleeps on a free lock unless a releaser is between clearing locked and its wakeup |
| `SleepLock.WakeupWakesAll` | proc.c:752-761 | after that wakeup nobody sleeps or is about to sleep |
| `SleepLock.NoDeadlock` | proc.c:711-746 | the two spinlocks never block everyone inside |
| `SleepLock.FreeLockIsGranted` | sleeplock.c:23-32 | a process that asks for a free lock, or wakes up to it, reaches the lock if nobody interferes, with its pid in it and nothing else changed |
| `SleepLock.TakenLockIsWaitedFor` | sleeplock.c:23-32 | on a taken lock it goes to sleep and leaves both spinlocks free |
| `SleepLock.ReleaseFreesAndWakes` | sleeplock.c:35-42 | releasing leaves the lock and both spinlocks free and everyone awake who slept on it |
| `Pipe.PlaceSurvivesWrap` | pipe.c:93 | a wrapped counter still names the right place of the ring |
| `Pipe.TestsSurviveWrap` | pipe.c:85-106 | the full and the empty test are right although the counters wrap |
| `Pipe.PipeBuf.PutByte` | pipe.c:93 | one more byte accepted, none of the waiting ones overwritten |
| `Pipe.PipeBuf.TakeByte` | pipe.c:116 | the oldest byte not yet delivered |
| `Pipe.PipeBuf.Write` | pipe.c:79-98 | the bytes up to the next sleep or return are accepted in order; it stops early only when the ring is full |
| `Pipe.PipeBuf.Read` | pipe.c:101-121 | what was accepted next, in order, as much as there is up to n; sleep and failure exactly as the source |
| `Pipe.PipeBuf.Close` | pipe.c:60-75 | one end is closed, and the page is freed exactly when both are |
| `ShellGrammar.LineFrom` | sh.c:345-446 | every command the parser builds has fewer than MAXARGS arguments and its words are word tokens of the input |
| `ShellGrammar.PipeParse` | sh.c:362-372 | the tokens of two blocks with '|' between them parse to the pipeline of what the blocks parse to |
| `ShellGrammar.ListParse` | sh.c:345-359 | and with ';' to their list |
| `ShellGrammar.PrintedParse` | sh.c:345-446 | parsing the tokens of a fully parenthesised command gives the command and stops where it ends |
| `ShellSyntax.PhraseRead` | sh.c:345-446 | every way to write a phrase, with pipelines and lists of any length, parentheses or none, and redirections anywhere, parses to what the phrase means |
| `ShellSyntax.PhraseTree` | sh.c:345-446 | whatever the parser accepts is a way to write some phrase, and it returns what the phrase means |
| `ShellSyntax.ArgsRead` | sh.c:429-445 | the arguments in order below all redirections, the first innermost, wherever they stand between the arguments |
| `ShellSyntax.RedirsRead` | sh.c:375-397 | each redirection's file, mode and descriptor |
| `ShellLexer.LexSpells` | sh.c:266-308 | the tokens are those that stand in the line, each as long as it can be, with nothing but blanks between them; and no other tokens are |
| `ShellLexer.LexWords` | sh.c:266-308 | word tokens are maximal runs of word characters |
| `ShellLexer.LexPrint` | sh.c:266-308 | reading a printed command gives its tokens with its words where they were printed |
| `ShellLexer.Located` | sh.c:266-308 | those words have the text that was printed |
| `ShellParser.Parser.GetToken` | sh.c:266-308 | gettoken takes the first of the remaining tokens |
| `ShellParser.Parser.Peek` | sh.c:311-320 | peek keeps the remaining tokens and says whether the first starts with one of the characters |
| `ShellParser.Parser.ParseRedirs` | sh.c:375-397 | the grammar's redirections, or its panic |
| `ShellParser.Parser.ParseExec` | sh.c:416-446 | the grammar's simple command or block, or its panic |
| `ShellParser.Parser.ParseArgs` | sh.c:429-445 | the argument loop, which adds to the exec node below the redirections |
| `ShellParser.Parser.ParseBlock` | sh.c:400-413 | the grammar's block, or its panic |
| `ShellParser.Parser.ParsePipe` | sh.c:362-372 | the grammar's pipeline, or its panic |
| `ShellParser.Parser.ParseLine` | sh.c:345-359 | the grammar's line, or its panic |
| `ShellParser.RoundTrip` | sh.c:328-446 | every command within MAXARGS made of spellable words comes back, word by word, from its printed form |
| `ShellParser.ParsedReparses` | sh.c:328-446 | whatever the parser accepts has a printed form that parses to the same command |
| `ShellParser.NulTerminate` | sh.c:450-493 | a NUL at the end of every word of the command and nowhere else |
| `ShellParser.WordsSurvive` | sh.c:450-493 | no terminator lands inside a word |
| `ShellParser.ParseCmd` | sh.c:328-342 | a command if and only if the line says some phrase, and then what the phrase means; otherwise the grammar's panic; and every word of the command is a C string in the line |
| `Grep.CompileIsRead` | grep.c:85-96 | every expression is the text of the pattern that it is read as |
| `Grep.CompileText` | grep.c:85-96 | a pattern is what its text is read as if and only if no character in it stands before a '*' or is a final '$' by accident |
| `Grep.AcceptsFirst` | grep.c:85-96 | a pattern matches if and only if its first item matches a piece and the others match what follows |
| `Grep.AcceptsStar` | grep.c:99-106 | c* matches if and only if some run of c can be skipped |
| `Grep.MatchHere` | grep.c:85-96 | true exactly when the text begins with a match of what the expression means |
| `Grep.MatchStar` | grep.c:99-106 | the same for c* and the rest |
| `Grep.Match` | grep.c:73-82 | true exactly when some place of the text, or the beginning after '^', has a match |
| `PageTables.Attach` | vm.c:44-52 | a page put into an empty entry keeps entries and uses of pages inverse to each other, and a table linked with all permissions keeps the directory open |
| `PageTables.Detach` | vm.c:312-319 | so does clearing an entry of a user table |
| `PageTables.DropDir` | vm.c:333-340 | so does dropping a directory whose user memory is gone |
| `PageTables.LookEntry` | vm.c:36-55 | writing one entry of one table changes one place of one map: the two-level table is a flat map, with the permissions of both levels |
| `PageTables.LookNewTable` | vm.c:45-52 | a new, zeroed table changes no map |
| `Vm.PushFree` | kalloc.c:60-77 | a freed page at the front keeps the list through the pages, and free and used pages a partition of the pool |
| `Vm.PopFree` | kalloc.c:83-95 | so does taking the first page |
| `Vm.Kernel.Kfree` | kalloc.c:60-77 | the panic exactly outside the pool; otherwise the page is first on the list and no other page changes |
| `Vm.Kernel.Kalloc` | kalloc.c:83-95 | null exactly when no page is free; otherwise a page that was in nobody's use |
| `Vm.Kernel.FreeRange` | kalloc.c:47-53 | exactly the whole pages of the range become free |
| `PageCounts.WalkedThen` | vm.c:61-80 | the tables that two adjacent ranges lack are those the first lacks and those the second still lacks after it |
| `PageCounts.LackingHere` | vm.c:36-55 | one more page needs one more table exactly if its directory entry has none |
| `Vm.Kernel.WalkPgdir` | vm.c:36-55 | the table of the page, made on demand without changing any map or any other directory entry, at the price of one page exactly if there was none; null only if it may not be made or no page is left; new tables take no permission away from their pages |
| `Vm.Kernel.Mappages` | vm.c:61-80 | the map has exactly these pages more, and so far as it got when memory ran out or a page was mapped already; it takes exactly the tables that were missing, and memory runs out only if fewer pages are free |
| `Vm.Kernel.Deallocuvm` | vm.c:298-322 | the range is unmapped page by page although the loop skips directory entries; its pages are free, all other maps and pages are as they were, and the panics are not reached |
| `PageMaps.UnmapNone` | vm.c:309-311 | skipping pages without a table changes nothing |
| `PageMaps.UnmapOne` | vm.c:312-319 | freeing one page of user memory takes it out of the map and of nothing else |
| `Vm.Kernel.Allocuvm` | vm.c:248-275 | zeroed, writable pages that were free before at exactly the range; or, when memory runs out, the range is empty and every other map entry is as it was, so all maps are if and only if the range was empty before, and then page tables are the only pages taken; it fails from KERNBASE on and below it, unless a page was mapped already, if and only if fewer pages are free than the range and its missing tables take |
| `PageMaps.EmptiedIffVacant` | vm.c:261-272 | emptying the range leaves every map as it was if and only if the range was empty |
| `PageMaps.AllocUndone` | vm.c:261-272 | unmapping the range after a failure restores every map |
| `Vm.Kernel.Freevm` | vm.c:327-341 | exactly the pages of the address space become free and all others are as they were |
| `PageMaps.OwnedIs` | vm.c:327-341 | user pages, tables and directory are all the pages of an address space |
| `Vm.Kernel.Setupkvm` | vm.c:145-162 | a new directory with exactly the kernel's map and 65 pages taken, or null with no page taken, exactly when fewer than 65 are free |
| `PageMaps.KernelTablesNext` | vm.c:131-141 | each region of the kernel's table needs the tables it should, whatever the size of the kernel's text |
| `PageMaps.RegionEntry` | vm.c:131-141 | each region of the kernel's table maps what it should |
| `Vm.Kernel.Copyuvm` | vm.c:378-407 | every page below sz is copied to a page that was free, with the same bytes and flags; when memory runs out no page stays taken; a panic only for a missing page, and success only if none is missing; without a missing page it succeeds if and only if enough pages are free for the kernel's map, the copies and their tables |
| `PageMaps.CopyMapped` | vm.c:392-400 | one more page copied keeps the copies made before and the parent as it was |
| `PageMaps.SpaceMapped` | vm.c:378-407 | work on a new address space leaves all pages in use before untouched |

## Left out

- Scheduler.Cpu.Choose: for the priority policies the cursor must not be at the last slot of the table, because the source then reads one slot past its end, which has no meaning here.
- Scheduler.Cpu.Pass: has the same condition.
- Log.Log.CommitAndReopen: takes commit as one step; readers that use the cache between two of its block writes are not interleaved with it.
- FileSystem.FileSystem.FileWrite: does not cover pipes and device inodes, which filewrite passes on to other code, nor operations of other processes between two chunks.
- ProcTable.Table.Sleep: ends at the switch; clearing the channel after the process runs again is not modelled, since nothing reads the channel of a process that is not asleep.
- ProcTable.Table.MakeRunnable: copying the parent's files, memory and registers in fork is not modelled.
- Heap.Allocator.MoreCore: takes a process size that is a multiple of 8 and nobody else calling sbrk with other sizes; whether there are pages is a parameter; what a header written to memory that was never given, or taken away, does is not modelled, so the headers of an allocator that went astray stay as they were.
- Log.Log.ReadHead: takes a header whose count is at most LOGSIZE; the source copies a larger one past the end of its array.
- LogRun.Step: takes a call as one step, with no buffer held between calls; that the disk has seen a prefix of a commit's or a recovery's block writes when the power fails in it is taken from `Log.Log.Commit` and `Log.Log.Recover`; processes that hold different buffers at the same time are covered by `Log.Log.Read` and `Log.Log.Update` only.
- LogRun.Run: has the same granularity.
- Vm.Kernel.Kfree: takes a page that is not free; the source would put a page on the list twice.
- Vm.Kernel.Deallocuvm: takes an old size of at most KERNBASE, as its callers pass; the source does not check it.
- Pipe.PipeBuf.Write: takes a length that is not negative.
- Vm.Kernel.Copyuvm: takes a size of at most KERNBASE, as allocuvm guarantees; above it the source would copy kernel memory.
- Threads (thread_create, thread_join, linkuvm, freethread): they share pages between page tables, so the single-owner statements do not describe them.
- Sleep locks inside buffers and inodes: the cache and the file system take a locked buffer or inode as given; the lock itself is proved in `SleepLock`.
- The calls from the file system into the cache and the log: `FileSystem` works on the plain map of blocks that `LogRun` provides and records its log_writes; `FsOnLog` runs those log_writes on the log, so the two meet in the sequence of log_writes and not as one program.
- The inode cache and directories (iget, iput, ilock, dirlookup, dirlink, namex) and exec: easier once file content is proved.
- Reading lines in grep, running commands in the shell, system calls, console and device drivers, interrupts, boot code, spinlock memory ordering, the quality of fastrand: little logic or hardware effects.
