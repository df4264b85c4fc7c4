# xv6, modelled and verified in Dafny

xv6 is a small Unix-like teaching kernel with its user programs. This project models the parts of
it that are hardest to get right and proves what they promise:

- the file system: the free map, the three-tier block map of an inode, `writei`, `readi`, `itrunc`, `iput`, `ialloc`
  and `filewrite`, over the disk as the kernel sees it, with the sectors of the log on it (`Blocks`, `BlockTree`,
  `Inodes`, `DiskLayout`, `FileContent`, `Format`, `LogBooks`, `FileSystem`, `InodeAlloc`, `FileRuns`, `FreshFile`,
  `InodeLeak`, `LogOverrun`);
- what a write puts in the log, counted on the disk it begins with, and so exactly which writes succeed
  (`Spans`, `WriteLoad`, `FileWrite`, `WholeWrite`, `LogFull`);
- the buffer cache and the transaction log below it, sector by sector, with crashes and reboots
  (`Rings`, `BufferCache`, `LogHeader`, `CrashLog`, `TransactionLog`, `LogUpdates`), and the file system's
  transactions carried out on them (`DiskTransactions`);
- the user-level allocator `malloc`/`free` over its circular free list
  (`FreeList`, `Tiling`, `Coalescing`, `Umalloc`, `HeapRuns`, `MallocRuns`);
- the process table (`ProcTable`) and every interleaving of fork, exit, wait, sleep, wakeup and kill (`ProcRuns`);
- the pipe's ring buffer (`PipeRing`) and every interleaving of its readers, writers, closers and killers,
  down to the two locks of sleep and wakeup (`PipeRuns`, `PipeStranding`, `PipeStreams`);
- the page allocator and two-level page tables (`PageTables`, `FrameAlloc`, `Vm`, `Teardown`, `KernelVm`,
  `DeallocSkip`);
- the shell's parser, in place on its line buffer, against its language and the text of commands (`ShellLex`,
  `ShellGrammar`, `ShellSentences`, `ShellText`, `Shell`), and grep's matcher (`Grep`).

Code that works by changing things is written as classes, arrays and loops, each method proved against a
specification; code made of expressions is written as functions. `Basics` holds what several parts share.

Conventions. Block and frame numbers are unbounded naturals with their ranges stated; 32-bit wrap-around is
written out wherever the C code relies on it or falls over it. A kernel panic is a result (`Halt`, `Got`, `Outcome`,
`MapResult`, ...), not a precondition. What the proofs keep books of (owners of blocks, live heap blocks,
users of page frames) is ghost state that each class ties to its real fields.

## Model

| member | source | states |
|---|---|---|
| `FileSystems.FirstFree` | fs.c:60-73 | the scan of the free map finds the first block whose bit is clear, or every block is in use |
| `FileSystems.FileSystem.Balloc` | fs.c:52-76 | the first free block is marked, zeroed and logged, and every sector that has changed is in the list of the log; no block is found exactly when none is free, and then nothing changes |
| `FileSystems.FileSystem.Bfree` | fs.c:79-95 | clears one bit, and every sector that has changed is in the list of the log; panics exactly when the block is free already |
| `FileSystems.FileSystem.LogWrite` | log.c:164-187 | refuses exactly when the log is full; absorbs or appends the sector; keeps the list distinct, within the log, and free of reserved data blocks |
| `FileSystems.FileSystem.Bmap` | fs.c:356-411 | the disk block of any file block below the limit, with the index blocks above it allocated where missing; trees only grow, on that one path, no data block of any file changes, nothing at all changes if the block is there; every sector that has changed is in the list of the log |
| `FileSystems.FileSystem.Iupdate` | fs.c:201-217 | the inode's image is stored in its block, which is logged, and no tree or free-map bit changes |
| `Inodes.ImageRoundTrip` | fs.c:205-215 | an inode read back from its disk image is the inode stored, and only that one |
| `Inodes.StoredOnDisk` | fs.c:201-217 | storing one inode leaves every other inode of the block as it is |
| `DiskLayout.InodeLayout` | fs.h:27-40 | the disk copy of inode i is slot i % 8 of sector 2 + i / 8, its fields at the bytes and in the order of struct dinode, and conversely |
| `DiskLayout.PathLayout` | fs.c:356-411 | the block of file block n is named in the inode, in a word of the indirect block, or two index blocks away, at the words given by n |
| `DiskLayout.MapLayout` | fs.h:42-46 | a block is in use if and only if its bit, at the byte and the place in it given by its number, is set |
| `FileSystems.FileSystem.Itrunc` | fs.c:418-446 | the blocks of the first two tiers and no others are freed, the file is empty, every other file is byte for byte the same; it logs every sector it changes, and free-map blocks and the inode's own block only |
| `FileSystems.FileSystem.Writei` | fs.c:489-519 | refuses exactly past the end or past the largest file; otherwise the file has the new bytes in place, is extended if need be, no other file changes, and every sector that has changed is in the list of the log, or the kernel has stopped for want of a block, with a slot on the paths of the write still empty, or of log space |
| `FileSystems.FileSystem.Readi` | fs.c:461-485 | returns exactly the bytes of the file from the offset, cut at its end, and changes nothing |
| `FileSystems.FileSystem.InstallTrans` | log.c:70-85 | each listed sector is copied to its place in the log and written home, and nothing else changes |
| `FileSystems.FileSystem.Commit` | log.c:139-154 | afterwards the disk is what the kernel sees; changes nothing before the log; leaves the header sector as two header writes leave it; keeps every file and every invariant when no logged sector lies in the log, which is so in every transaction if the free map reserves the log |
| `LogBooks.ReservedOutside` | log.c:63-64 | a log all of whose sectors are reserved in the free map is never itself logged |
| `LogBooks.NextGiven` | fs.c:60-73 | first fit hands out the blocks that were free when the transaction began, in order |
| `FileSystems.CommitKeeps` | log.c:139-154 | overwriting the log leaves every file, inode and free-map bit alone when no tree block lies in it |
| `Format.FirstBits` | mkfs.c:233-247 | the free-map block mkfs writes has exactly its first `used` bits set |
| `Format.SuperBlock` | mkfs.c:86-108 | the superblock's words: all sectors, those for data, inodes and log, which add up |
| `Format.Mkfs` | mkfs.c:86-108 | on the formatted disk sector 1 is the superblock, exactly the first `used` blocks are in use and every other sector is zero |
| `FileSystems.FileSystem.constructor` | mkfs.c:86-108 | the formatted disk meets every invariant of the file system, with all inodes free and all files empty |
| `WriteLoads.AtMost` | fs.c:356-411 | at any time a write has logged at most its load: the file blocks written, the index blocks that get an entry, and the free-map blocks of the blocks first fit hands out |
| `WriteLoads.AtLeast` | fs.c:356-411 | when it is through it has logged exactly that, besides the inode block |
| `WriteLoads.FirstGiven` | fs.c:356-411 | a write that is through has taken as many of the first free blocks as slots on its paths were empty |
| `WriteLoads.TooFew` | fs.c:52-76 | a write that stops for want of a block had fewer free blocks than empty slots to begin with |
| `FileWrites.ChunkFits` | file.c:126-132 | a transaction of at most 1536 bytes wants at most seven blocks and touches at most three index blocks, so it is light when its blocks share a free-map block |
| `FileWrites.WriteChunk` | file.c:139-144 | one transaction of filewrite, decided by the disk it finds: a refusal exactly past the end or the limit; else the log overflows only if the load is nine or more, blocks run out only if there are fewer than empty slots, it runs over the log exactly if one of the blocks it takes is there, and otherwise all of the chunk is in the file, the first free blocks are taken and exactly the slots on its paths filled |
| `FileWrites.OutsideIff` | log.c:139-154 | a transaction logs a sector of the log exactly when one of the first free blocks it takes is there |
| `WholeWrites.ReachedVerdict` | file.c:134-152 | what becomes of the chunk at byte k is told by the disk the whole write begins with |
| `WholeWrites.GoesThroughIff` | file.c:116-155 | every chunk of a write goes through if and only if each is light, there is a free block for every empty slot on the paths of all its bytes, and none of the first so many free blocks is in the log |
| `WholeWrites.Filewrite` | file.c:116-155 | the whole write, on the disk it begins with: inside the limits it succeeds if and only if every chunk is light and the disk is stocked before the log; the bytes are in the file and no other file changes; where it stops, and why, is foretold; it stops early without a panic exactly when a chunk starts past the end or ends past the largest file, with all chunks before in place |
| `WholeWrites.OneMapLight` | file.c:126-132 | on a disk of any size every chunk is light when the blocks the write takes have their bits in one free-map block |
| `WholeWrites.SmallDiskLight` | file.c:126-132 | on disks of up to 4096 blocks every chunk is light |
| `WholeWrites.StarvedAtStart` | fs.c:52-76 | a write stopped for want of a block had fewer free blocks than empty slots when the whole write began |
| `LogFulls.LogFills` | fs.c:395-405 | on every disk of more than 4104 blocks, with inodes and free map among the first 3956, two writes to one file, of 70244 and 1536 bytes, end in the log's panic |
| `InodeAllocs.Ialloc` | fs.c:175-198 | the first inode after inode 0 that is free on the disk is wiped and of the given kind; panics exactly when there is none; the blocks it still had stay marked and are in no tree |
| `InodeAllocs.Iput` | fs.c:317-337 | an inode without links is emptied and freed at its last use, and otherwise nothing happens; no other file changes; it logs every sector it changes, and free-map blocks and the inode's own block only |
| `InodeAllocs.Label` | sysfile.c:257-261 | the fields that create and the link calls set are stored, and no file changes |
| `InodeAllocs.ReuseLoses` | fs.c:185-190 | reusing an inode that iput has freed loses blocks if and only if it has a doubly indirect block |
| `InodeLeaks.PutInode` | file.c:75-77 | with fewer than 28672 blocks on the disk iput in a transaction of its own never overflows the log, whatever the size of the file |
| `InodeLeaks.Leak` | fs.c:173-337 | a complete run that writes a file of 71169 bytes, frees it and reuses its inode, and ends with a block that is marked and in no file |
| `FileRuns.Run` | fs.c:173-519 | any sequence of reads, writes, and calls that make, label and free inodes, devices among them, gives the answers, and leaves the inodes and bytes, of a plain table, on the disk itself and not only in the cache; it panics over a free inode, or for want of one, exactly where the table says, and otherwise stops only at a full disk, a full log or a transaction that was given a sector of the log; nothing is lost as long as no file reaches the doubly indirect tier |
| `FileRuns.CreateAccounts` | fs.c:173-198 | one new file loses blocks if and only if its inode had a doubly indirect block |
| `FileRuns.RunFormatted` | mkfs.c:86-158 | the same from a freshly formatted disk, where the table starts with free inodes |
| `FileRuns.Accounting` | fs.c:52-95 | the free map marks exactly the reserved blocks, those lost by `FileRuns.CreateAccounts` among them, and the blocks found in the trees |
| `FileRuns.NoSharing` | fs.c:356-411 | no block is in two slots, of one inode or of two |
| `FileRuns.WholeTreeFreed` | fs.c:418-446 | truncation frees an inode's whole tree if and only if the inode has no doubly indirect block |
| `LogOverruns.LogGivenOut` | fs.c:60-73 | the allocator reaches the log exactly when every block before it is in use, and then gives out its header sector first |
| `LogOverruns.HeadedSame` | log.c:104-116 | a commit leaves the block in the header sector unchanged if and only if it already was that header |
| `LogOverruns.SurvivesIff` | log.c:139-154 | a file with a block in the header sector survives a commit if and only if that block already is the header the commit writes |
| `LogOverruns.WriteFirst` | fs.c:489-519 | in any file system whose blocks before the log are in use and whose header sector is not, on disks of every size, the first block of an empty file is put in the header sector |
| `LogOverruns.HeaderLost` | log.c:139-154 | there such a write is accepted and its block is gone after the commit |
| `LogOverruns.FormattedFull` | mkfs.c:86-108 | mkfs and ialloc make such a file system |
| `FreshFiles.NewFile` | fs.c:175-198 | on a formatted disk ialloc takes inode 1, in a transaction of its own, and loses nothing |
| `BufferCache.FindCached` | bio.c:70-80 | the search along the ring finds the sector's buffer, or no buffer has that sector |
| `BufferCache.FindVictim` | bio.c:83-91 | the backward search finds the last buffer of the ring that is neither busy nor dirty, or there is none |
| `BufferCache.MoveToFront` | bio.c:127-132 | the pointer updates of brelse move one buffer to the front of the ring and keep the order of the others |
| `Rings.ReleasedByAge` | bio.c:127-132 | the ring stays in the order of the last releases, the latest first |
| `BufferCache.Cache.constructor` | bio.c:38-56 | the ring is built, no buffer holds anything, and what the kernel sees is the disk |
| `BufferCache.Cache.Bget` | bio.c:61-93 | the sector's own buffer, or, of the clean ones, one whose last brelse was longest ago, re-assigned, made busy; waits or panics exactly when it must |
| `BufferCache.Cache.Iderw` | memide.c:36-58 | reads a buffer that is not valid, writes a dirty one, and refuses the other requests |
| `BufferCache.Cache.Bread` | bio.c:96-105 | the buffer holds what the kernel sees for that sector, and reading changes nothing it sees |
| `BufferCache.Cache.Bwrite` | bio.c:108-115 | one more sector write, of the buffer's data; what the kernel sees stays the same |
| `BufferCache.Cache.Brelse` | bio.c:119-138 | the buffer is free again and first in the ring; panics exactly when it was not held |
| `LogHeader.Record` | log.c:169-185 | log_write's search: absorbed if listed, appended if not, refused if the log is full |
| `LogHeader.HeaderRoundTrip` | log.c:88-116 | a header written with a list reads back as that list |
| `LogHeader.DistinctBound` | log.c:175-183 | a list without repetitions is no longer than any set that holds it |
| `TransactionLog.SomeClean` | bio.c:83-91 | as long as fewer sectors are pinned than there are buffers, bget finds one |
| `TransactionLog.Log.Read` | bio.c:96-105 | bread in a transaction gives away no pinned buffer, and says why when it fails |
| `TransactionLog.Log.LogWrite` | log.c:164-187 | the dirty buffers stay exactly the buffers of the listed sectors, so nothing logged can be evicted |
| `TransactionLog.Log.WriteHead` | log.c:104-116 | exactly one sector write, of a header that lists the given sectors |
| `TransactionLog.Log.InstallTrans` | log.c:70-85 | its writes are, for each listed sector in order, the copy in the log and then the sector itself |
| `TransactionLog.Log.CommitTrans` | log.c:139-154 | the sector writes are exactly those of the commit plan; afterwards every home sector is on the disk as the kernel sees it and nothing is dirty |
| `TransactionLog.Log.ReadHead` | log.c:88-99 | the list becomes what the header on the disk lists |
| `TransactionLog.Log.RecoverFromLog` | log.c:118-126 | its writes are exactly the recovery plan; no home sector changes and the header is empty |
| `LogUpdates.Update` | log.c:156-163 | bread, change, log_write and brelse together are one step: that sector of the disk as seen, and the list; the cache always has a buffer |
| `LogUpdates.UpdateHolding` | fs.c:373-380 | the same while another buffer is held, as bmap holds an index block; it fails exactly when the log is full, and then bread may find no buffer before log_write can refuse |
| `LogUpdates.Transaction` | log.c:128-163 | a whole transaction of such updates, from begin_trans to commit_trans, over the cache and the log: it fails exactly when the log has no room for one of them, never for want of a buffer, and otherwise every update is on the disk |
| `DiskTransactions.Perform` | log.c:128-163 | any transaction of the file system, carried out on the cache and the log from the disk it began with, goes through and leaves on the disk, outside the log, exactly what the file system sees |
| `CrashLog.Commit.AnyCrash` | log.c:139-154 | at every point a commit can be cut off, the home sectors are new up to some place in the list and old from there on |
| `CrashLog.Commit.CrashPrefix` | log.c:118-126 | the same after any number of recoveries, themselves cut off anywhere |
| `CrashLog.Commit.FullCommit` | log.c:139-154 | an uninterrupted commit installs every listed sector and leaves an empty header |
| `CrashLog.Commit.AtomicIff` | log.c:139-154 | a commit is all or nothing at every crash point if and only if at most one listed sector really changes |
| `CrashLog.Commit.Torn` | log.c:139-154 | with two changed sectors there is a crash point that is neither old nor new |
| `CrashLog.RebootKeepsHome` | log.c:118-126 | a recovery, whole or cut off, changes no home sector and leaves a disk that can be recovered |
| `CrashLog.HalfDone` | log.c:118-154 | a concrete two-sector commit that stays half done however often the machine reboots |
| `Umalloc.RoomIff` | umalloc.c:69 | the block malloc carves has room for the bytes asked for if and only if the rounding does not wrap |
| `Umalloc.RequestIff` | umalloc.c:46-61 | exactly which sizes make morecore's request to sbrk positive |
| `Umalloc.Search` | umalloc.c:30-32 | free's walk ends, at the free block after which the released one belongs, from wherever it starts |
| `Umalloc.Tour` | umalloc.c:74-88 | malloc's walk ends, having found a large enough block exactly when there is one |
| `Coalescing.FreeKeeps` | umalloc.c:33-43 | in all four merging cases the list stays sorted, circular and fully coalesced, and the blocks tile the same memory |
| `Umalloc.Heap.Free` | umalloc.c:24-44 | the block leaves the live set, every other live block keeps contents and place, and a block of that size fits again |
| `Umalloc.Heap.Morecore` | umalloc.c:46-61 | the units sbrk grants join the list, and no others |
| `Umalloc.Heap.Malloc` | umalloc.c:63-90 | returns a block of the right size that is disjoint from all live ones and leaves them untouched; NULL exactly when nothing fits and sbrk refuses |
| `HeapRuns.FreeListDetermined` | umalloc.c:24-90 | the live blocks determine the free list, block by block and size by size, whatever the order of the calls |
| `HeapRuns.FreeUndoesMalloc` | umalloc.c:24-90 | freeing what malloc just returned restores the free list |
| `MallocRuns.Run` | umalloc.c:24-90 | over any sequence of malloc, free and stores into held blocks, each block holds exactly what the program last stored in it |
| `MallocRuns.BlocksApart` | umalloc.c:63-90 | two blocks held at the same time do not overlap, headers included |
| `ProcTable.Ptable.AllocProc` | proc.c:34-56 | the first unused slot becomes an embryo with the next pid, which then moves on by one modulo 2^32; without a kernel stack it is unused again, and the pid is gone |
| `ProcTable.Ptable.Wakeup1` | proc.c:379-388 | exactly the processes asleep on the channel become runnable, and nothing else of any process changes |
| `ProcTable.Ptable.Exit` | proc.c:166-204 | panics exactly for init; otherwise the parent is woken, the children go to init, which is woken for zombies among them, and the slot is a zombie |
| `ProcTable.Ptable.Wait` | proc.c:208-247 | reaps a zombie child, whose slot is then unused, unmarked and without pid or parent; gives up without children; or goes to sleep on itself; each exactly when it should |
| `ProcTable.Ptable.Kill` | proc.c:402-420 | the first process with the pid, and no other, is marked, and made runnable if it was asleep |
| `ProcRuns.StepKeeps` | proc.c:128-420 | every step of any process keeps the invariant of the process table |
| `ProcRuns.NoMissedExit` | proc.c:166-247 | in no reachable state is a process asleep in wait while it has a zombie child |
| `ProcRuns.ZombieHasParent` | proc.c:166-204 | in every reachable state each zombie has a living parent |
| `ProcRuns.FatesMove` | proc.c:128-247 | a process's fate only moves forward, and only its parent's wait can reap it |
| `ProcRuns.ReapedOnce` | proc.c:208-247 | a process that has been reaped stays reaped by that one parent |
| `ProcRuns.StepFields` | proc.c:128-420 | every field of every slot after any step: who changes state, parent, pid, channel and mark, and to what |
| `ProcRuns.KillWakes` | proc.c:402-420 | in every run the target of a kill is marked right after it and not asleep |
| `ProcRuns.KilledIff` | proc.c:402-420 | in every run a slot is marked if and only if it has been killed and not reaped since |
| `ProcRuns.PidsInOrder` | proc.c:46-48 | in every run the pid of a process is told by how many were born before it |
| `ProcRuns.PidsApart` | proc.c:46-48 | two processes have the same pid if and only if a multiple of 2^32 births lies between theirs |
| `ProcRuns.BornKilled` | proc.c:402-411 | a run in which a process is born marked, since kill took a free slot for its target |
| `PipeRing.Tests` | pipe.c:84-106 | the 32-bit tests for full and empty mean what they should however often the counters have wrapped |
| `PipeRing.Buffer.Fill` | pipe.c:83-93 | stores as many of the bytes as there is room for, in order |
| `PipeRing.Buffer.Drain` | pipe.c:112-116 | returns the oldest bytes, as many as asked for or present |
| `PipeRuns.StepKeeps` | pipe.c:58-120 | every step of any process keeps the pipe's invariant, including who holds which lock and who may be asleep |
| `PipeRuns.Fifo` | pipe.c:77-120 | in every state of every run the bytes returned are a prefix of the bytes stored, at most 512 behind |
| `PipeRuns.ReadsContiguous` | pipe.c:99-120 | what one piperead returns is one contiguous piece of the stream |
| `PipeRuns.NoLostWakeup` | proc.c:342-375 | with the lock free, a sleeping writer faces a full pipe and, unless a killed writer has left, a sleeping reader an empty open one |
| `PipeRuns.NoUseAfterFree` | pipe.c:58-74 | once the pipe's page is freed nobody is inside it |
| `PipeRuns.NoKillNoLoss` | pipe.c:77-120 | in runs without kill no reader is ever stranded |
| `PipeRuns.StrandedIff` | pipe.c:83-88 | the two steps by which a killed writer leaves a full pipe wake nobody: readers are asleep after them exactly if they were before, and then the writer had bytes to tell them of |
| `PipeStranding.Stranded` | pipe.c:77-120 | for every write longer than the pipe a complete run from a new pipe to a reader asleep beside a full pipe |
| `PipeStranding.ShortWrites` | pipe.c:77-120 | in every run whose writes are at most 512 bytes long, kills allowed, no reader is ever stranded |
| `PipeStranding.StrandingLength` | pipe.c:77-120 | readers can be stranded if and only if writes may be longer than 512 bytes |
| `PipeStreams.Interleaved` | pipe.c:77-97 | in every state of every run the bytes stored are the sources of the pipewrite calls interleaved: those of one call, in order, are a prefix of its source, and just its first i bytes while it stands at byte i |
| `PipeStreams.WritesAll` | pipe.c:94-96 | a pipewrite about to return n has stored its whole source |
| `PipeStreams.ReadsEnough` | pipe.c:112-119 | a piperead about to return has at most n bytes, fewer only if it left the pipe empty, none only if the write end is closed |
| `PipeStreams.WriterChoice` | pipe.c:83-93 | at its loop test a writer ends, stores a byte, gives up or waits, each exactly when it should |
| `PipeStreams.ReaderChoice` | pipe.c:105-111 | so does a reader |
| `PipeStreams.FreedIff` | pipe.c:58-74 | in every run, with the lock free, the page has been freed if and only if both ends are closed |
| `PipeStreams.KilledNeverSleeps` | pipe.c:85-110 | in every run a process killed while not on its way to sleep never sleeps on the pipe again |
| `PipeStreams.KilledMaySleep` | proc.c:342-375 | and one killed on its way to sleep does sleep, marked, if it runs |
| `KernelVm.Kernel.constructor` | kalloc.c:30-43 | any memory contents: no frame is free yet, every frame above the kernel is still to be handed over |
| `KernelVm.Kernel.Kalloc` | kalloc.c:82-95 | the first free frame or 0, and every frame stays accounted for |
| `KernelVm.Kernel.Kfree` | kalloc.c:59-77 | the frame is filled with ones but for its link, and is the first free one; panics exactly outside the allocator's range; no mapping changes |
| `KernelVm.Kernel.FreeRange` | kalloc.c:45-52 | frees exactly the whole pages between the addresses, or panics exactly when one is not the allocator's |
| `KernelVm.Boot` | main.c:20-39 | after the two ranges and the kernel's page table, every frame above the kernel is free or part of that table, which gives the kernel its rights and users none |
| `KernelVm.Kernel.Walk` | vm.c:47-67 | finds or makes the page table, under a directory entry that allows everything, changing no mapping of any address space |
| `PageTables.AllowsRights` | vm.c:60-65 | what the processor allows at a page, by both levels, is what the entry in the page table says |
| `KernelVm.PagesCovered` | vm.c:78-79 | the pages mappages goes through are exactly those that overlap the byte range |
| `KernelVm.Kernel.MapPages` | vm.c:72-92 | binds the pages of the range in order to consecutive frames, with the rights of perm at both levels together, up to the first that was bound, which is remap, or to one whose table finds no free frame; no other mapping changes |
| `KernelVm.Kernel.SetupKvm` | vm.c:130-146 | the new directory maps exactly the kernel's ranges, none for users and its text not for writing, and every other address space is untouched |
| `KernelVm.Kernel.DeallocUvm` | vm.c:251-275 | from where its work begins to the old size every user page is unbound and its frame freed, and nothing else changes |
| `Teardown.CompleteIff` | vm.c:260-264 | deallocuvm covers the whole range if and only if no page before the place where its work begins was bound |
| `DeallocSkips.Skipped` | vm.c:260-264 | a page directory, and a shrinking process, for which it leaves a page bound |
| `KernelVm.Kernel.FreeVm` | vm.c:279-294 | exactly the frames of that address space become free, and no other address space changes |
| `KernelVm.Kernel.CopyUvm` | vm.c:311-339 | the copy maps every page of the parent, with equal contents and equal rights, to frames of its own; panics only over a page that is not there |
| `KernelVm.Kernel.CopyThenFree` | vm.c:279-339 | copying an address space and freeing the copy gives back every frame and leaves all others as they were |
| `ShellLex.GetToken` | sh.c:268-311 | returns the next token of the line, where it lies, and the place after it |
| `ShellLex.Peek` | sh.c:313-323 | skips blanks only, and answers whether the next token begins with one of the symbols |
| `ShellText.LexIff` | sh.c:262-311 | the tokens found are exactly those the line spells, each read as far as it goes, whatever blanks lie between |
| `Shell.ParseRedirs` | sh.c:377-400 | collects the redirections the grammar finds there, in order, or fails with its error |
| `Shell.ParseExec` | sh.c:418-449 | builds the tree the grammar gives for a simple command, or fails with the same error |
| `Shell.ParseBlock` | sh.c:402-416 | the same for a parenthesised list, and the panic without one |
| `Shell.ParsePipe` | sh.c:364-375 | the same for a pipeline |
| `Shell.ParseLine` | sh.c:347-362 | the same for a line with background and sequence operators |
| `Shell.NulTerminate` | sh.c:452-496 | writes a NUL at the end of every word of the tree and nowhere else |
| `Shell.PointersKept` | sh.c:452-496 | the C strings the tree then points to are the words of the line |
| `Shell.ParseCmd` | sh.c:330-345 | the tree read through its pointers is the command the line stands for in the shell's language; it panics exactly when the line stands for none, with the grammar's error, and then leaves the line alone |
| `ShellSentences.ParsesIff` | sh.c:330-449 | the parser gives a tree for a sequence of tokens if and only if that sequence is a sentence for that tree, in a language of lists, jobs, pipelines, blocks and simple commands defined without the parser |
| `ShellSentences.SentenceNames` | sh.c:377-449 | the words of the command are those of the line that follow no redirection sign, and its redirections are the line's, each in order: '<' opens for reading as 0, '>' and '>>' create and write as 1 |
| `ShellText.RoundTrip` | sh.c:330-449 | every well-formed tree, written out as text, parses back to itself |
| `ShellText.Normalised` | sh.c:330-449 | every line that parses has a well-formed tree, whose text parses to the same tree |
| `ShellText.LineGood` | sh.c:347-449 | whatever the grammar builds from proper tokens is well-formed |
| `Grep.PrintParse` | grep.c:84-95 | a pattern text is what its parsed form prints as |
| `Grep.ParsePrint` | grep.c:84-95 | a readable pattern printed and parsed is itself |
| `Grep.MatchHere` | grep.c:84-95 | true if and only if the pattern matches here, in the sense of some division of the text |
| `Grep.MatchStar` | grep.c:98-105 | true if and only if a run of the starred character followed by the rest matches here |
| `Grep.Match` | grep.c:71-81 | true if and only if the pattern, read as a regular expression over all divisions of the text, matches somewhere |

## Findings

Properties a reader would expect and the code does not meet, each with the exact condition under which it does.

- filewrite can overflow the log, although it cuts writes into chunks for that (file.c:126-132). A chunk may take blocks
  whose bits lie in two free-map blocks, and log_write panics on a full log even for a sector it could absorb
  (log.c:169-170): a chunk that starts the doubly indirect tier then logs nine sectors and panics at the next log_write
  (fs.c:403). `LogFulls.LogFills` is such a run, on every disk of more than 4104 blocks, the 21029 blocks of mkfs.c:16-19
  among them. `WholeWrites.GoesThroughIff` is the exact condition, and `WholeWrites.Filewrite` has it;
  `WholeWrites.OneMapLight` says it holds whenever the blocks taken share a free-map block.
- The log is not protected from the block allocator. mkfs does not mark the log's sectors in the free map (mkfs.c:155,
  233-247), the log is the last `nlog` sectors (log.c:63) and balloc searches to the end of the disk (fs.c:60-73).
  When every block before the log is in use the header sector is given to a file and the next commit overwrites it:
  `LogOverruns.HeaderLost`, for every file system in that state. `FileSystems.FileSystem.Commit` keeps all files when
  no logged sector is in the log, which for a chunk of filewrite means that none of the blocks it takes is
  (`FileWrites.OutsideIff`); reserving the log in the free map is enough for that in every transaction
  (`LogBooks.ReservedOutside`); `LogOverruns.SurvivesIff` is the exact condition for a file in the header sector.
- A commit is not atomic. log_write no longer copies blocks to the log, and install_trans copies a block to the log
  just before it writes it home, so recovery has nothing to redo. `CrashLog.Commit.AtomicIff`: a commit is all or
  nothing if and only if at most one listed sector really changes. `CrashLog.HalfDone` is a failing commit.
- itrunc frees no block of the third tier (fs.c:418-446), iput then marks the inode free (fs.c:327-329) and ialloc wipes
  its addresses (fs.c:189), so the blocks stay marked for good. `FileRuns.WholeTreeFreed` and `InodeAllocs.ReuseLoses`:
  nothing is lost if and only if the inode has no doubly indirect block. `InodeLeaks.Leak` is a run that loses blocks;
  `FileRuns.Run` keeps the free map exact in every run whose writes stay below that tier.
- A killed writer leaves a full pipe without waking the readers (pipe.c:85-88). `PipeStranding.StrandingLength`: that can
  strand a reader if and only if writes may be longer than the pipe; `PipeStranding.Stranded` is a run for every such
  length, and without kill it cannot happen either (`PipeRuns.NoKillNoLoss`).
- A process killed between its last look at its mark and its sleep on a pipe goes to sleep all the same, since sleep does
  not look again (proc.c:342-375). `PipeStreams.KilledMaySleep` and `PipeStreams.KilledNeverSleeps`: after a kill it
  sleeps there again if it was on its way to sleep, and never if it was not.
- kill of pid 0 marks the first free slot, whose pid is 0 too (proc.c:407-409), and allocproc does not clear the mark, so
  that the next process in that slot is born killed: `ProcRuns.BornKilled`. `ProcRuns.KilledIff`: a slot is marked if
  and only if it has been killed and not reaped since, so a process is born marked exactly if its slot was killed free.
- malloc's rounding wraps for the seven largest sizes and then returns a block that is too small
  (`Umalloc.RoomIff`). For sizes above 0x7FFFFFF0 its request to sbrk is not positive (`Umalloc.RequestIff`), and
  growproc takes a negative request as an order to shrink (proc.c:116-119) while sbrk answers with the old break.
- deallocuvm skips 4 MB whenever a page table is missing, even from the middle of a table (vm.c:263-264), and so can
  pass over pages of the next table that is there: `DeallocSkips.Skipped`. `Teardown.CompleteIff` is the condition; it
  always holds from address 0, which is how freevm calls it.
- log_write panics on a full log even for a sector it could absorb (log.c:169-170, `LogHeader.Record`).

## Left out

- Umalloc.Heap.Malloc: assumes of sbrk that what it grants was a positive request and fits the address space (`Grantable`); for the sizes of `Umalloc.RequestIff` where the request is not positive, what malloc does with the answer is not modelled.
- MallocRuns.Run: frees and stores through pointers that are not held are skipped, and an answer sbrk could not have given counts as a refusal.
- FileSystems.FileSystem.Commit: when a logged sector is in the log it says which sectors have changed and what the header sector holds; what the kernel does from then on (it may also wait for a buffer it holds itself) is not modelled.
- FileSystems.FileSystem.constructor: an empty disk with fewer than 4096 marked blocks, as mkfs asserts; mkfs's directory and files are not written to it.
- FileWrites.WriteChunk: when the load is nine or more and blocks run out too, it does not say which panic comes first.
- WholeWrites.Filewrite: regular files and directories, with a log of the size mkfs gives it; the pipe case, devices and negative counts are not modelled.
- InodeAllocs.Iput: the reference count and flags of the inode cache are its argument `last`.
- InodeAllocs.Ialloc: expects that only inode and free-map blocks are logged so far in its transaction, as is so in create.
- FileRuns.Run: one operation, one transaction, where create and the link calls put several in one; processes sharing the file system are serialised by the log, which is modelled as a flag.
- KernelVm.Kernel.SetupKvm: when it returns 0 it says only that no frame is free; as in the code, the frames taken so far stay allocated.
- KernelVm.Kernel.CopyUvm: when it runs out of memory it says only that the invariant holds; as in the code, a frame copied but not yet mapped stays allocated.
- KernelVm.Boot: if there is no memory for the kernel's page table the model stops where the code goes on without one.
- ShellText.RoundTrip: only trees the grammar can build, with fewer than ten words to a command, as the parser limits them.
- The superblock is a constant of the file system, not a sector that is read on every call; begin_trans's sleep is a flag.
- DiskTransactions.Perform: takes from a transaction of the file system the last contents of each sector it has logged; buffers shared between processes, and the moments between, are not followed.
- PageTables.AllowsRights: the accessed and dirty flags, which the processor sets, are not modelled.
- Directories, path names, the inode cache, file descriptors, fileread, pipealloc, exec.
- Interrupts, the scheduler's choice, fairness and the memory model: steps between lock operations are atomic.
- Devices, traps, system-call argument checking, segmentation, TLBs; allocuvm, inituvm, loaduvm, copyout.
- The shell's runcmd and its allocation of tree nodes, which are values here; grep's line buffering.
- The other user programs and the tests, which would only add easy members.
