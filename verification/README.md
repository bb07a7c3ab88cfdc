# A verified model of the xv6 kernel with a second file system

The system is the xv6 teaching kernel for x86 with an ext2 file system beside its own.
This project models its hardest parts in Dafny and proves what they are for, for all
inputs, all interleavings and all crash points. `dafny verify dfyconfig.toml` checks
everything.

| file | models |
|---|---|
| `Common.dfy`, `Blocks.dfy` | shared types; a disk block as bytes, words and bits |
| `Log.dfy`, `LogSpace.dfy` | the redo log: crash atomicity, and its space reservation over all interleavings |
| `FileBlocks.dfy`, `Fs.dfy` | free map, block map, inodes and files of the xv6 file system: block ownership, a file as a byte sequence |
| `Crash.dfy` | log and file system together: what the files are after a crash |
| `Mkfs.dfy`, `Boot.dfy` | the image builder: it establishes the invariants that `Fs.dfy` and `Links.dfy` start from |
| `Bio.dfy` | the buffer cache: transparency and the LRU ring |
| `Umalloc.dfy` | the user allocator: one coalesced ring, conservation of units |
| `Pages.dfy`, `Vm.dfy` | page allocator and two-level page tables: page conservation, refinement of a flat map |
| `Proc.dfy`, `SleepLock.dfy`, `Pipe.dfy` | process life cycle, sleep locks and pipes as interleaved steps |
| `FileTable.dfy` | file-table references, with every call split at its interleaving points |
| `Dirs.dfy`, `Links.dfy` | directory slots; path walks, chdir, fork, exit, link, unlink, create and iput as interleaved steps |
| `LinkLaw.dfy`, `LinkTidy.dfy`, `LinkRuns.dfy` | link counts: exactly which runs keep them, a condition on paths that suffices, and runs that break them |
| `Shell.dfy`, `ShellRoundTrip.dfy` | the shell's parser, NUL termination, and the round trip with a canonical spelling |
| `Grep.dfy` | the matcher against a declarative meaning |
| `Ext2.dfy` | truncation of an ext2 block tree and the reach of an accepted write |

Code that changes state in place is a class with the fields of the source and methods
proved against functions of the old state; what the source promises is then proved about
those functions. Protocols are state machines whose steps are the code between two points
where another process can run; results hold in every state of every run.

The disk is a sequence of blocks written one at a time, each write atomic. Interrupts,
the clock, `sbrk`, the device and user memory appear as parameters of the steps.

Where the code does not do what is written about it, the model follows the code:

* `param.h` calls MAXOPBLOCKS (10) the most blocks an operation writes. The log can then
  overflow; the safe limit is exactly 9 (`LogSpace.SafeLimitExact`), which is what
  `filewrite` keeps to (`Fs.FileSystem.Filewrite`).
* `malloc` serves requests up to 2^31-16 bytes soundly; past that the argument of sbrk is
  negative or 0, and from 2^32-7 on the unit count wraps to a bare header
  (`Umalloc.SoundExactly`).
* There are as many buffers as blocks in the log. With 28 of them pinned by a transaction
  two more held ones make `bget` panic (`Bio.Exhaust`, `Bio.EnoughBuffers`).
* `kill(0)` finds an unused slot, and the next process there is born killed
  (`Proc.KilledExactly`, `Proc.BornKilled`).
* A killed writer returns from a full pipe without waking readers (`Pipe.ReaderStranded`).
* nlink is 16 bits wide, and links made inside a removed working directory are never given
  back. One process can so raise a count past 32767 and make `unlink` panic
  (`LinkRuns.CountReached`, `LinkRuns.OverflowPanics`).
* The ".." of a removed working directory outlives the parent's inode. Through it `ilock`
  meets a free inode and panics (`LinkRuns.UpPanics`), a link reaches an inode `create` has
  not set up yet and its count is overwritten (`LinkRuns.EarlyLinkLosesCount`), and an
  entry "." appears before `create` makes its own (`LinkRuns.DotsPanic`). Without such a
  lookup and without a full count none of this happens (`LinkTidy.StraightExact`).
* mkfs enters the root under the name "mnt". A path that starts with "/mnt" never meets the
  entry, but `unlink("mnt")` in the root locks the root twice and waits forever
  (`LinkLaw.SelfLockExactly`, `LinkLaw.UnlinkMntHangs`).
* mkfs rounds the root's size up even from a block boundary. With 61 files, or 64 more, and
  so on, the root then has a hole that the first read fills without a transaction
  (`Boot.ImageSound`).
* ext2 files past 268 blocks map several file blocks to one disk block
  (`Ext2.TwoBlocksOneAddress`, `Ext2.SharedBlocks`).
* `>>` parses to the same node as `>`, so a tree cannot tell appending from overwriting.

## Model

| member | source | states |
|---|---|---|
| `Blocks.GetSetWord` | fs.c:445-450 | A word stored in a block reads back, and every other word of the block keeps its value (indirect blocks, dinodes, log header). |
| `Blocks.BitUpdate` | fs.c:90-116 | Setting or clearing one bit of a bitmap block changes that bit and no other. |
| `Log.HeaderRoundTrip` | log.c:84-113 | read_head of what write_head wrote gives the same list, for every list that fits. |
| `Log.RecoveredChar` | log.c:115-122 | After recovery each listed home block holds its log block, every other block is untouched and the log is empty. |
| `Log.RecoveryIdempotent` | log.c:115-122 | A crash after any of recovery's writes does not change what the next recovery produces. |
| `Log.CrashChainStable` | log.c:115-122 | Any number of crashes inside recovery, one after the other, give the home blocks of a recovery that never crashed. |
| `Log.CommitPointRecovers` | log.c:192-202 | A crash after any k writes of a commit leaves a disk that recovers to all-old blocks if the first header write is not done, all-new if it is. |
| `Log.CrashAtomicity` | log.c:69-122 | Crash anywhere in a commit, then any number of times in recovery: the home blocks end all old or all new, new exactly when the first write_head reached the disk. |
| `Log.RecoveryTraceIndex` | log.c:115-122 | The disk after each of recovery's writes is the one the crash lemmas speak about. |
| `Log.CommitEnds` | log.c:192-202 | A commit that is not interrupted updates exactly its home blocks and leaves the log empty. |
| `Log.LogWriteKeeps` | log.c:214-233 | An accepted log_write keeps the blocks distinct, pinned and in range, and changes the pending view at that block alone. |
| `Log.UpdatedIsOverlay` | log.c:176-202 | Writing the pinned blocks home gives the pending view of the disk. |
| `Log.CommitPointHome` | log.c:192-202 | The crash points of a commit, stated as: the old disk or the whole pending view. |
| `Log.Find` | log.c:224-227 | The absorption scan finds the first entry for the block, or the end of the list. |
| `Log.RedoLog.constructor` | log.c:53-66 | An empty log over a disk whose header is readable. |
| `Log.RedoLog.WriteHead` | log.c:98-113 | One block write: the header with the in-memory list. |
| `Log.RedoLog.ReadHead` | log.c:84-96 | The in-memory list becomes the one on disk. |
| `Log.RedoLog.WriteLog` | log.c:176-190 | The block writes of write_log, in order, and the disk after them. |
| `Log.RedoLog.InstallTrans` | log.c:68-82 | The block writes of install_trans, in order; installed blocks are no longer pinned. |
| `Log.RedoLog.Recover` | log.c:115-122 | recover_from_log ends in the recovered disk, and its writes are exactly the trace the crash lemmas speak about. |
| `Log.RedoLog.LogTransaction` | log.c:192-197 | write_log and the first write_head, as disk and as trace of writes. |
| `Log.RedoLog.Commit` | log.c:192-202 | The home blocks end as the pending view, the log is empty, and the writes are exactly the commit trace of the crash lemmas. |
| `Log.RedoLog.TryBegin` | log.c:124-141 | An operation is admitted exactly when no commit is running and its reservation fits. |
| `Log.RedoLog.LogWrite` | log.c:204-233 | Exactly when log_write panics; otherwise the view changes at that block only and the block is listed once. |
| `Log.RedoLog.EndOp` | log.c:143-174 | The view is never changed by end_op; the last operation out makes it durable, and a crash at any of its writes recovers to the old disk or the whole view. |
| `LogSpace.BeginBound` | log.c:132-136 | What an admitted operation may still add fits, if no operation adds more than MAXOPBLOCKS-1 blocks. |
| `LogSpace.InvStep` | log.c:124-174 | Every begin_op, log_write, end_op and commit step keeps the reservation invariant. |
| `LogSpace.SpaceSuffices` | log.c:124-174 | Over all interleavings with at most MAXOPBLOCKS-1 new blocks per operation the list stays within LOGSIZE-2 and no log_write panics. |
| `LogSpace.CrowdedRunIsRun` | log.c:218-219 | The run of three operations with MAXOPBLOCKS blocks each is a run of the log. |
| `LogSpace.SafeLimitExact` | param.h:11-12 | No run panics if and only if the per-operation limit is at most MAXOPBLOCKS-1; the documented MAXOPBLOCKS is one too many. |
| `FileBlocks.UsedUpdate` | fs.c:81-120 | balloc and bfree change one bit of the free map. |
| `FileBlocks.SingleOwner` | fs.c:424-454 | A mapped block is a used data block, and no two slots of any inodes hold the same block. |
| `FileBlocks.AllocKeeps` | fs.c:81-103 | balloc keeps the ownership invariant and every file; its block was nobody's. |
| `FileBlocks.AttachAddr` | fs.c:431-443 | Storing a fresh block in a direct slot or as the indirect block keeps ownership and every file. |
| `FileBlocks.AttachEntry` | fs.c:443-450 | Storing a fresh block in the indirect block keeps ownership. |
| `FileBlocks.AllocEntry` | fs.c:443-450 | balloc into the indirect block, as one step: ownership kept, no file changed, the slot holds the block. |
| `FileBlocks.DataWrite` | fs.c:554-560 | Writing one data block of an inode changes that block of that file and nothing else. |
| `FileBlocks.InodeBlockWrite` | fs.c:241-258 | Writing an inode block changes no file and no ownership. |
| `FileBlocks.DetachAll` | fs.c:456-491 | An inode that drops its addresses leaves the other files and the ownership of their blocks. |
| `FileBlocks.FreeKeeps` | fs.c:106-120 | Freeing a block nobody owns keeps the invariant and every file. |
| `Fs.DinodeRoundTrip` | fs.c:241-258 | ilock reads back the inode iupdate stored; the other dinodes of the block are untouched. |
| `Fs.FindFree` | fs.c:81-103 | The bitmap scan returns the lowest free block, or there is none. |
| `Fs.ChunkFits` | file.c:127-146 | A chunk of filewrite touches few enough blocks for nine log blocks. |
| `Fs.BlockWrote` | fs.c:554-560 | Patching one block writes exactly the bytes of the range. |
| `Fs.WroteFile` | fs.c:536-567 | Bytes written at off give the old file with the range overwritten and extended. |
| `Fs.BlockSlice` | fs.c:525-530 | The part of a block that readi copies is that slice of the file. |
| `Fs.FileSystem.constructor` | fs.c:192-206 | Super block and inodes are the ones read from the disk; with the ownership invariant on them the file system is valid, and if no file has a hole its cache is written through. |
| `Fs.FileSystem.Balloc` | fs.c:81-103 | Panics exactly when no block is free; otherwise the lowest free block is marked and zeroed. |
| `Fs.FileSystem.Bfree` | fs.c:106-120 | Panics exactly on a free block; otherwise clears its bit. |
| `Fs.FileSystem.Iupdate` | fs.c:241-258 | The inode is on disk, other dinodes and all files are unchanged. |
| `Fs.FileSystem.Bmap` | fs.c:424-454 | Returns the block of bn, allocating it and the indirect block if needed; no file changes, the invariant is kept, and it panics only past the end or when the disk is full. |
| `Fs.FileSystem.Itrunc` | fs.c:456-491 | Frees exactly the inode's blocks, never meets a free one, leaves every other file alone, and the inode cache stays written through. |
| `Fs.FileSystem.Readi` | fs.c:506-532 | Returns the slice of the file clipped to its size, or fails exactly on the 32-bit bounds check; no file changes, and in a file without holes the disk does not either. |
| `Fs.FileSystem.Writei` | fs.c:534-567 | Accepted exactly by the 32-bit and MAXFILE checks; the file becomes the old one overwritten and extended at off, no other file changes, the disk alone then holds the same files if it did before, only logged blocks change, and their number is bounded. |
| `Fs.FileSystem.EndWrite` | fs.c:562-565 | A longer file gets its new size in memory and on disk. |
| `Fs.WholeGrown` | fs.c:562-565 | A write past the end leaves no hole and every inode on disk. |
| `Fs.WholeTruncated` | fs.c:456-491 | So does a truncation. |
| `Fs.FileSystem.Filewrite` | file.c:116-157 | The bytes written so far are a prefix of data at off, stopping only at a refused chunk, no transaction logs more than nine blocks, and after every chunk the disk alone holds the files. |
| `Crash.CacheIsDisk` | fs.c:241-258 | With every inode written through and no holes, the files read from the disk alone are the ones the kernel sees. |
| `Crash.LogApart` | log.c:68-122 | Nothing recovery or a commit does inside the log region changes a file or the invariant. |
| `Crash.CrashKeepsFiles` | log.c:115-202 | Crash at any write of a commit and then any number of times in recovery: the disk is a valid file system again and every file is the old one, or every file is the new one, by whether the header was written. |
| `Crash.WriteSurvives` | fs.c:534-567 | The same for a writei: the file is wholly the old bytes or wholly the overwritten and extended ones, and every other file is untouched. |
| `Crash.WriteOp` | log.c:124-174 | A writei between begin_op and end_op, on the file system and the log together: admitted exactly by begin_op, the kernel sees the file spliced and no other changed, and a crash after any block write ends with the files of the last commit or with those the write left; it panics only without free blocks or when the write logs more than fits. |
| `Mkfs.MarkedBit` | mkfs.c:243-257 | The bitmap block built bit by bit marks exactly the first n blocks. |
| `Mkfs.TakeIsAlloc` | mkfs.c:262-303 | Taking freeblock is the kernel's balloc on the finished image. |
| `Mkfs.StoreInode` | mkfs.c:190-214 | winode stores one inode; rinode reads it and every other one back. |
| `Mkfs.SuperRead` | mkfs.c:97-115 | The kernel reads the layout of the image back from the super block mkfs writes. |
| `Mkfs.Image.constructor` | mkfs.c:108-115 | The zeroed image with its super block is a valid empty file system once the bitmap is written. |
| `Mkfs.Image.MapBlock` | mkfs.c:274-291 | The block of fbn is found or taken, through the indirect block if need be; no file changes; it fails only when the image is full. |
| `Mkfs.Image.Iappend` | mkfs.c:261-303 | The file grows by exactly p, past its end it still reads as zeroes, and no other inode or file changes. |
| `Mkfs.Image.Ialloc` | mkfs.c:229-241 | The next inode, empty, with one link, on disk. |
| `Mkfs.Image.Balloc` | mkfs.c:243-257 | After the bitmap write the disk is the goal and marks exactly the blocks handed out. |
| `Mkfs.Image.AddFile` | mkfs.c:134-161 | One command-line file: a root entry, the contents, and all earlier files as they were. |
| `Mkfs.SnugRounded` | mkfs.c:164-169 | Rounding a size up keeps a file free of holes if and only if it did not already end at a block boundary. |
| `Mkfs.Image.FixRoot` | mkfs.c:164-169 | Rounding the root up to whole blocks adds free slots only; it leaves a hole exactly when the size was a multiple of the block size. |
| `Mkfs.Build` | mkfs.c:67-174 | For every list of files: the finished image satisfies the kernel's ownership invariant, its bitmap and super block are exact, its inodes are all on disk, and the root and every file hold what they should; it fails only when something is full. |
| `Boot.DirentReads` | mkfs.c:153-156 | An entry mkfs writes reads back as its inode number and its name, cut to DIRSIZ. |
| `Boot.RootDecoded` | mkfs.c:117-169 | The bytes of the root decode to ".", "..", "mnt", the files in order, and free slots. |
| `Boot.StartsLinks` | mkfs.c:117-169 | Every inode of the image is the one the link-count machine starts from. |
| `Boot.LogEmpty` | mkfs.c:97-115 | The image has a readable, empty log before its inodes. |
| `Boot.ImageSound` | mkfs.c:67-174 | The kernel reads all inodes from the image, and it is a file system without holes if and only if the number of files plus three is no multiple of 64. |
| `Bio.UnlinkRing` | bio.c:132-133 | Unlinking a buffer anywhere in the doubly linked ring leaves the ring of the others. |
| `Bio.PushRing` | bio.c:134-137 | Pushing a buffer at the head gives the ring with it in front. |
| `Bio.MoveToFront` | bio.c:130-138 | The last release keeps the ring a permutation of all buffers in order of last release. |
| `Bio.OneBuffer` | bio.c:61-93 | At most one buffer holds a block, a valid one holds what an uncached store would, and a clean unlocked one agrees with the disk. |
| `Bio.Recycle` | bio.c:81-90 | Reusing a clean unreferenced buffer loses nothing. |
| `Bio.BufferCache.constructor` | bio.c:38-56 | binit builds the ring of all buffers, none of them in use. |
| `Bio.BufferCache.Bget` | bio.c:61-93 | The cached buffer, else the least recently released clean unreferenced one, else a panic exactly when there is none; no other buffer changes. |
| `Bio.BusyExactly` | bio.c:78-92 | No buffer can be reused, and so bget of an uncached block panics, if and only if pinned buffers and other referenced ones are NBUF together. |
| `Bio.EnoughBuffers` | bio.c:78-92 | With at most p pinned and h other referenced buffers and p + h below NBUF, bget finds one. |
| `Bio.Exhaust` | bio.c:61-93 | For every p up to NBUF a run from binit with p pinned and NBUF - p held buffers in which bget panics. |
| `Bio.BufferCache.FindCached` | bio.c:68-76 | The forward scan finds the block if and only if it is cached. |
| `Bio.BufferCache.FindVictim` | bio.c:78-91 | The backward scan finds the least recently released reusable buffer, or there is none. |
| `Bio.BufferCache.Acquire` | bio.c:73-74 | A referenced buffer is locked and nothing else changes. |
| `Bio.BufferCache.Fill` | bio.c:95-106 | bread returns what an uncached store would. |
| `Bio.BufferCache.Modify` | bio.c:95-106 | A holder's change is a change of the reference store at that block. |
| `Bio.BufferCache.MarkDirty` | log.c:231-231 | Marking a buffer pins it and changes no contents. |
| `Bio.BufferCache.Bwrite` | bio.c:108-116 | The disk takes the buffer's contents; panics exactly without the lock. |
| `Bio.BufferCache.Unlock` | bio.c:120-126 | Panics exactly without the lock; otherwise only the lock is given up, provided the caller marked what it changed. |
| `Bio.BufferCache.Unref` | bio.c:128-140 | One reference fewer, whoever holds the lock by now; the last one moves the buffer to the front. |
| `Bio.BufferCache.Brelse` | bio.c:118-141 | The two in a row. |
| `Bio.BufferCache.ToFront` | bio.c:132-137 | The six pointer writes move one buffer to the front of the ring. |
| `Umalloc.SoundExactly` | umalloc.c:63-69 | Requests are served by a large enough block and a sensible sbrk argument exactly up to 2^31-16 bytes. |
| `Umalloc.WrappedRequest` | umalloc.c:63-69 | malloc(2^32-1) asks for a bare header. |
| `Umalloc.Disjoint` | umalloc.c:24-90 | Two blocks, free or live, never overlap. |
| `Umalloc.OneRing` | umalloc.c:24-44 | The free list is a single ring through every free block. |
| `Umalloc.FreeRing` | umalloc.c:24-44 | free keeps the address-ordered ring and loses no unit. |
| `Umalloc.FreeCoalesces` | umalloc.c:33-42 | free leaves no two free blocks touching. |
| `Umalloc.SearchProgress` | umalloc.c:30-32 | Each step of free's search that does not stop gets closer, so the search ends. |
| `Umalloc.LiveStays` | umalloc.c:24-90 | A unit of a live block is in no free block while the live headers stay put. |
| `Umalloc.Heap.constructor` | umalloc.c:21-22 | No ring, nothing obtained. |
| `Umalloc.Heap.Free` | umalloc.c:24-44 | The block joins the coalesced ring; every unit is accounted for and no other live block changes. |
| `Umalloc.Heap.Morecore` | umalloc.c:46-61 | One sbrk: its units, and only those, are added as free, and a large enough block exists. |
| `Umalloc.Heap.Malloc` | umalloc.c:63-90 | A new live block of exactly the units asked, disjoint from all live ones, with room for every request up to 2^31-16 bytes; sbrk is called if and only if nothing fits; null only when sbrk fails or the new core is smaller than its own header says. |
| `Pages.NoSharing` | vm.c:225-349 | Two address spaces, or two pages of one, never share a frame. |
| `Pages.AddTableKeeps` | vm.c:39-59 | A new page table changes no flat map and no other owner. |
| `Pages.PteWritten` | vm.c:64-84 | Writing one entry changes the flat map of one directory at one page. |
| `Pages.MapUserKeeps` | vm.c:64-84 | A held page mapped at an empty user page becomes that page's frame; ownership is kept. |
| `Pages.UnmapKeeps` | vm.c:272-280 | Clearing a user entry releases exactly its frame. |
| `Pages.ReassignKeeps` | vm.c:286-302 | A directory can be taken apart without touching any other. |
| `Vm.KmapPages` | vm.c:108-119 | The kmap byte ranges in pages, with the size of the device range wrapping at 2^32. |
| `Vm.KernelTablesSize` | vm.c:108-119 | The kernel's mappings need exactly 64 page tables. |
| `Vm.Machine.constructor` | kalloc.c:30-44 | Before kinit nothing is free. |
| `Vm.Machine.Freerange` | kalloc.c:46-53 | Every whole page of the range is freed, once. |
| `Vm.Machine.Kfree` | kalloc.c:55-77 | Panics exactly outside the allocator's range; otherwise the page heads the list of free pages, which stays exact and without repetition. |
| `Vm.Machine.Kalloc` | kalloc.c:79-95 | The head of the free list, or 0 exactly when nothing is free. |
| `Vm.Machine.Walkpgdir` | vm.c:36-59 | The table for v, made if asked and possible; the flat map never changes. |
| `Vm.Machine.MapPage` | vm.c:73-77 | One round of mappages: no memory, remap exactly on a present entry, or exactly one new mapping. |
| `Vm.Machine.Mappages` | vm.c:61-84 | Exactly the pages of the range are mapped, in order, up to the first failure; everything else keeps its mapping. |
| `Vm.Machine.Setupkvm` | vm.c:121-140 | The kernel's flat map and nothing else, or 0 with every page back where it was; it succeeds exactly with 65 free pages. |
| `Vm.Machine.Allocuvm` | vm.c:223-253 | New zeroed user frames on exactly the pages between the sizes; on failure the flat map is restored and only page tables are kept. |
| `Vm.Machine.Deallocuvm` | vm.c:255-283 | Exactly the pages from PGROUNDUP(newsz) to oldsz are unmapped and their frames freed, across missing page tables. |
| `Vm.Machine.Freevm` | vm.c:285-302 | Every frame, every table and the directory are freed once, and no other page changes hands. |
| `Vm.Machine.FreeTables` | vm.c:295-300 | The tables of the directory are freed, each once. |
| `Vm.Machine.Copyuvm` | vm.c:317-349 | The child has the same flags and bytes on frames that were free; the parent is untouched; failure gives every page back; it panics only on a missing parent page. |
| `Proc.ProcTable.Wakeup1` | proc.c:459-470 | Exactly the processes asleep on the channel become runnable. |
| `Proc.ProcTable.Exit` | proc.c:254-272 | The table after exit: parent woken, children given to init, init woken for zombie ones. |
| `Proc.ProcTable.WaitScan` | proc.c:284-305 | The first zombie child is reset and returned, or there is none and whether there are children. |
| `Proc.InvDo` | proc.c:77-386 | Every step of allocproc, fork, exit, wait, kill, sleep, wakeup and the scheduler keeps the process-table invariant. |
| `Proc.NoMissedChild` | proc.c:274-316 | No process sleeps in wait while it has a zombie child. |
| `Proc.ParentAlive` | proc.c:228-272 | Every live or zombie process but init has a parent that has not exited. |
| `Proc.OneCpu` | proc.c:318-396 | In every state of every run a process is RUNNING if and only if some CPU runs it, and no two CPUs run it. |
| `Proc.ReapedOnce` | proc.c:274-316 | wait returns each exited pid at most once, and no process has it afterwards. |
| `Proc.KilledExactly` | proc.c:480-502 | In every run a process is marked killed if and only if, since wait last reset its slot, a kill hit its own pid, or a kill hit the slot while it held pid 0 or the pid of a fork that failed. |
| `Proc.BornKilled` | proc.c:77-95 | A run of init alone: kill(0) marks the first unused slot and the next child is born killed. |
| `SleepLock.InvStep` | sleeplock.c:22-42 | Every step of acquiresleep, releasesleep, sleep and wakeup keeps the lock invariant, for any number of processes. |
| `SleepLock.MutualExclusion` | sleeplock.c:22-42 | A sleep lock never has two holders. |
| `SleepLock.NoLostWakeup` | proc.c:420-457 | Whenever the inner spinlock is free, a sleeper implies that the lock is held. |
| `SleepLock.WakeupWakesAll` | proc.c:459-479 | The wakeup of releasesleep leaves nobody asleep. |
| `SleepLock.NoDeadlock` | sleep1.p:61-133 | Some busy process can always step. |
| `Pipe.WritersAlways` | pipe.c:77-98 | In every run a sleeping writer means a full pipe with its read end open. |
| `Pipe.ReaderStranded` | pipe.c:84-88 | Exactly which step leaves a reader asleep on a non-empty pipe. |
| `Pipe.ReadersAlways` | pipe.c:100-121 | Without such a step readers sleep on empty pipes only. |
| `Pipe.StrandedRun` | pipe.c:84-88 | A concrete run of two calls that strands a reader. |
| `Pipe.WrapCompare` | pipe.c:84-117 | The wrapped counters compare equal exactly when the pipe is full or empty. |
| `Pipe.PipeBuf.constructor` | pipe.c:32-37 | An empty pipe with both ends open. |
| `Pipe.PipeBuf.Put` | pipe.c:93-93 | One byte is appended to the stored stream. |
| `Pipe.PipeBuf.Get` | pipe.c:116-116 | The next stored byte is delivered. |
| `Pipe.PipeBuf.Pipewrite` | pipe.c:77-98 | Exactly the bytes consumed are appended, in order, across sleeps and counter wrap, and the sleepers change as the protocol says. |
| `Pipe.PipeBuf.Piperead` | pipe.c:100-121 | The bytes delivered continue the stored stream; as many as asked and available. |
| `Pipe.PipeBuf.Pipeclose` | pipe.c:59-75 | When both ends are closed nobody is left asleep and the page is freed. |
| `FileTable.Ftable.Filealloc` | file.c:25-41 | The first entry with no references, or there is none. |
| `FileTable.Ftable.Filedup` | file.c:43-53 | One more reference; panics exactly on an unreferenced file. |
| `FileTable.Ftable.Fileclose` | file.c:55-80 | One reference fewer; what the file refers to is handed on exactly at the last one. |
| `FileTable.Fdalloc` | sysfile.c:38-53 | The lowest free descriptor takes the reference, or the table is full. |
| `FileTable.InvDo` | sysfile.c:38-104 | Every step of open, dup, close, pipe, fork and exit keeps the reference accounting. |
| `FileTable.RefsConserved` | sysfile.c:285-333 | In every reachable state a file's count is the descriptors naming it plus what calls in flight hold, and no account is negative. |
| `FileTable.QuietRefs` | proc.c:210-213 | With no call in flight the count is the number of descriptors. |
| `FileTable.NeverPanics` | file.c:43-61 | Neither filedup nor fileclose can panic. |
| `FileTable.DescriptorsLive` | sysfile.c:20-36 | Every descriptor a process can use names a referenced file with contents. |
| `FileTable.ReleasedOnce` | file.c:62-80 | An inode or pipe end given to a file is put exactly once, in the step that takes the count to zero; after it no descriptor names the file but the one exit is clearing. |
| `Dirs.Dirlookup` | fs.c:578-604 | The first live slot with the name, or there is none. |
| `Dirs.LookupFinds` | fs.c:578-604 | dirlookup succeeds exactly on the names that are there. |
| `Dirs.Dirlink` | fs.c:606-634 | Refuses exactly a name already there; otherwise fills the first free slot or appends. |
| `Dirs.Isdirempty` | sysfile.c:167-181 | True exactly when no slot past the first two is in use. |
| `LinkLaw.InvStart` | mkfs.c:117-169 | The state mkfs leaves satisfies the invariant. |
| `LinkLaw.InvDo` | sysfile.c:117-283 | Every careful step of concurrent path walks, chdir, fork, exit, link, unlink, create and iput keeps the invariant: counts exact, dots in place, locks with their holders, references with their processes. |
| `LinkLaw.CarefulExactly` | sysfile.c:117-283 | A step from a good state leaves every count exact if and only if it raises no count at 32767, finds the count of a new inode still zero, and makes no new entry called "." or "..". |
| `LinkLaw.ExactExactly` | sysfile.c:117-283 | For every run from every image: the counts are exact in all its states if and only if all its steps are careful. |
| `LinkLaw.LinksExact` | sysfile.c:117-283 | In every state of a careful run an allocated inode's nlink is the entries naming it, its subdirectories, what calls in flight have taken or owe, and the links lost with truncated directories; no entry names a free inode. |
| `LinkLaw.LinksCovered` | sysfile.c:117-283 | nlink is at least the number of entries naming the inode, at every step. |
| `LinkLaw.NamedNeverFreed` | fs.c:374-404 | iput never truncates an inode that an entry names. |
| `LinkLaw.UnlinkNeverPanics` | sysfile.c:211-212 | The unlink panic on nlink is unreachable in careful runs. |
| `LinkLaw.CreateNeverPanics` | sysfile.c:269-278 | So are the panics of create on the dots and on the new name. |
| `LinkLaw.SelfLockExactly` | sysfile.c:201-209 | unlink goes on to lock the inode it already holds if and only if the parent is the root and the name is mnt. |
| `LinkLaw.StuckForever` | sysfile.c:201-209 | A process that waits for its own lock never moves again, whatever the others do. |
| `LinkLaw.UnlinkMntHangs` | mkfs.c:130-134 | On every image the first process can do that, by unlinking mnt from the root. |
| `LinkTidy.TidyDo` | fs.c:684-721 | Careful steps that use no stale ".." keep every held inode allocated and every half-made inode unreachable. |
| `LinkTidy.TidyCareful` | sysfile.c:117-283 | In such a state only raising a count at 32767 is uncareful. |
| `LinkTidy.StaleAstray` | fs.c:684-721 | The first stale ".." of a run is looked up in a removed directory. |
| `LinkTidy.StraightExact` | sysfile.c:117-283 | Every run that never looks up ".." in a removed directory and never raises a full count is exact throughout, with no ilock panic. |
| `LinkRuns.CountReached` | sysfile.c:117-165 | One process can drive the count of one file to any value up to 32767, by linking it into removed working directories. |
| `LinkRuns.OverflowPanics` | sysfile.c:140-142 | From there one more link makes the 16-bit count negative, and removing a name panics. |
| `LinkRuns.UpPanics` | fs.c:328-356 | A run in which ".." leads to a freed inode, where ilock panics. |
| `LinkRuns.EarlyLinkLosesCount` | sysfile.c:260-267 | A run in which a link reaches a half-created inode: the file ends with two names and one link, and iput may then free it while named. |
| `LinkRuns.DotsPanic` | sysfile.c:268-274 | A run in which create panics because its new directory already has a dot. |
| `Ext2.OrderReaches` | ext2fs.c:440-531 | The free order of a tree is exactly the blocks reachable from its root. |
| `Ext2.FreedOnce` | ext2fs.c:440-531 | If no block is reached twice, truncation frees each block the inode uses exactly once and no other. |
| `Ext2.ChildBeforeParent` | ext2fs.c:440-531 | A block is freed after every block it names. |
| `Ext2.WriteReach` | ext2fs.c:571-582 | The write bound wraps to 65804 blocks, so an accepted write stays within direct, single and double indirect blocks with indices below 256. |
| `Ext2.TwoBlocksOneAddress` | ext2fs.c:396-409 | On every disk and for every inode file blocks 268 and 269 are one disk block, and so is each group of 256 from there on. |
| `Ext2.SharedBlocks` | ext2fs.c:396-409 | Two file blocks of any such inode are on one disk block if and only if they are the same or both are past 268 in one group of 256. |
| `Ext2.BlockTree.FreeTree` | ext2fs.c:462-526 | One arm of the truncation frees the tree in the free order and zeroes its entries. |
| `Ext2.BlockTree.Itrunc` | ext2fs.c:440-531 | Exactly the inode's blocks are freed, in the free order, all slots end up zero and no other block changes. |
| `Grep.FirstPiece` | grep.c:84-106 | A pattern matches if its first piece does and the rest matches where it ends. |
| `Grep.StarStep` | grep.c:98-106 | c* matches nothing, or one c and c* again. |
| `Grep.MatchHere` | grep.c:84-96 | True exactly when the pattern matches at this position. |
| `Grep.MatchStar` | grep.c:98-106 | True exactly when c* and the rest of the pattern match at this position. |
| `Grep.Match` | grep.c:72-82 | True exactly when the pattern matches somewhere, or at the start under ^. |
| `Shell.Gettoken` | sh.c:265-308 | The token, its span and the advanced cursor, for every line and position. |
| `Shell.Peek` | sh.c:310-320 | Blanks are skipped and the answer is whether one of the characters is next. |
| `Shell.Parseredirs` | sh.c:374-397 | The redirections read are those of the grammar, or the missing-file panic. |
| `Shell.Parseblock` | sh.c:399-413 | A parenthesised line with its redirections. |
| `Shell.Parseargs` | sh.c:427-446 | The words and redirections of a command, with the panics on syntax and on a tenth word. |
| `Shell.Parseexec` | sh.c:415-446 | A command or a block, as the grammar says. |
| `Shell.Parsepipe` | sh.c:361-372 | A pipeline, as the grammar says. |
| `Shell.Parseline` | sh.c:344-359 | A line with its & and ;, as the grammar says; the mutual recursion ends. |
| `Shell.LineWords` | sh.c:344-446 | Every stored pointer pair delimits a whole word of the line, at most nine to a command. |
| `Shell.TokensReadBack` | sh.c:448-493 | After all NULs are written each stored pointer reads back exactly its word. |
| `Shell.Nulterminate` | sh.c:448-493 | A NUL at the end of every word of the tree and nowhere else. |
| `Shell.Parsecmd` | sh.c:327-342 | The parse of the line, leftovers refused, and every stored pointer a C string equal to its word; the buffer is untouched on failure. |
| `ShellRoundTrip.RoundTrip` | sh.c:327-446 | Parsing the canonical spelling of any tree with at most nine plain words to a command gives the tree back. |
| `ShellRoundTrip.ParsedFine` | sh.c:327-446 | Spelling out what was parsed and parsing again changes nothing, for every line. |
| `ShellRoundTrip.ParsedExactly` | sh.c:327-446 | A tree is the parse of some line if and only if it has at most nine words to a command and all words are non-empty and free of blanks, symbols and NUL. |
| `ShellRoundTrip.SpellClean` | sh.c:327-342 | A canonical spelling is a line. |
| `ShellRoundTrip.ArgsSimple` | sh.c:415-446 | Collecting words and redirections at once is reading them in order and wrapping the command afterwards. |
| `ShellRoundTrip.EitherSide` | sh.c:415-446 | Redirections before the words or after them give the same tree. |

## Left out

- Hardware and boot code, interrupts, the IDE driver's queue: the device is an atomic block store.
- ext2 bitmap allocation, directories and file contents beyond direct blocks: allocate and free use different bit orders and the double-indirect map is not injective, so the laws one would state are false.
- Splitting path strings into elements: `Links` takes one element at a time; paths into the ext2 mount are no part of it.
- Crashes between the system calls of `Links` and `FileTable`: those machines have no disk; crash safety is proved for the log and for writes to files.
- Directory contents in `Links` are slots, not bytes: only at boot are the two tied together (`Boot.StartsLinks`). A directory never runs out of room there.
- iget, idup and the limit of 50 cached inodes: an inode is referred to by the processes whose call or working directory names it, so the last reference is the last of these. Its truncation by iput is one step.
- The entries "." and ".." are in no count of `Links`; the link a ".." stands for is counted through the parent's entry for the subdirectory. Image files called "." or ".." are left out.
- Transactions around the calls of `Links`: begin_op only delays a call there.
- exec, copyout, loaduvm, clearpteu and inituvm: loading a program and copying to and from user pages.
- Shell.Parseexec: the exec node is filled in while redirections already point at it; on values the redirections are collected and wrapped around it at the end, so sharing of that node is not modelled.
- Mkfs.Build: the original does not notice a full image or inode table and writes past it; the model stops there. Reads of 1024 bytes stand for whatever chunks the host's read returns.
- Vm.Machine.Mappages: below KERNBASE a call maps one page, as every call in the kernel does.
- Vm.Machine.Deallocuvm: oldsz is at most KERNBASE, as every caller keeps it; above that the source would walk into the kernel's mappings.
- Vm.Machine.Allocuvm: nothing is mapped above oldsz, as process sizes are kept; otherwise the source panics on a remap.
- Proc.ReapedOnce: pids are unbounded; after 2^31 forks the 32-bit counter would wrap.
- Umalloc.Heap.Malloc: stops after an sbrk whose argument was negative or 0, which takes a request above 2^31-16 bytes; the source goes on with a header past the end of its memory.
- Fs.FileSystem.Filewrite: no other writer comes between two chunks; begin_op and end_op are in `Log` and `LogSpace`.
- User programs other than sh, grep and the allocator; printf; the console.
