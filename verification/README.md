# Kernel and library protocols of an xv6 system, modelled and proved

This project models the parts of the repository where correctness is hard to
see and proves what they promise. Most of it is the xv6 kernel and user library
under `project3/xv6-modified`; two small protocols come from `project4`.

Each part has its data model, its operations in the form of the source (classes
and loops where the source changes things step by step, step machines where
processes interleave, functions where it only computes), and theorems over all
inputs, all runs or all reachable states.

| part | files |
|---|---|
| shared definitions | `Basics` |
| redo log, group commit, crashes | `Blocks`, `LogDisk`, `AtomicDisk`, `LogMachine`, `LogProof`, `LogTheorems`, `LogReserve`, `LogRace`, `LogSleep`, `Log` |
| buffer cache | `Ring`, `Bcache`, `CacheRefines` |
| block allocator, inodes, files | `FsLayout`, `FsInode`, `FsOps`, `FsFile`, `FsSyscall`, `FsHole`, `FsFormat` |
| files across crashes | `FsCrash` |
| physical pages and page tables | `PageTree`, `VmSpec`, `VmCount`, `Vm` |
| user-level allocator | `FreeList`, `Umalloc` |
| process table, sleep and wakeup | `Proc`, `ProcProof`, `ProcTheorems`, `ProcHistory`, `ProcTable` |
| pipes | `Pipe`, `PipeProof`, `PipeCalls`, `PipeKill` |
| semaphore, bounded buffer | `Semaphore`, `MasterWorker` |
| regular expressions, shell grammar | `Grep`, `ShellLex`, `ShellParse`, `ShellTokens`, `ShellGrammar`, `ShellAccepts`, `ShellRoundTrip`, `Shell` |

`dafny verify dfyconfig.toml` checks the whole project.

## How the models are built

- **Storage.** A disk write is one atomic block write, as in `memide.c`.
  `LogMachine` interleaves any number of file system calls, readers, evictions,
  the committing process and crashes. `AtomicDisk` is the reference: a volatile
  image, a durable image, and nothing else; `LogProof.Simulation` relates them.
  `Log.Journal` is the same code with its loops, recording the disk after every
  write. `CacheRefines` relates the ring of buffers to the machine's cache.
  A panic is an abort.
- **Files.** `Fs` holds the disk, the inodes as the kernel has them in memory
  and, for the proof, who owns each block. A file is the byte sequence of
  length `size` that its blocks spell; a hole reads as zeros.
- **Pages.** Every page has one role. The free list is chained through the
  first words of the pages, page tables are words in pages, and the invariant
  says that roles and words agree in both directions.
- **Allocator.** Addresses count header-sized units; `own` maps every unit
  obtained from sbrk to the block it lies in.
- **Processes, pipe, semaphore, bounded buffer.** A spinlock section is a step.
  The pipe, and the sleeping in begin_op, are modelled at the grain of single
  lock operations, with ptable.lock as state, so that the handover inside sleep
  is part of the proof; a kill may come at any moment.
- **Shell.** Parsing functions go from a position to a command and the position
  behind it; the methods over the buffer are proved equal to them, and they to a
  grammar on token sequences that has no parser in it.
- **Formats.** Inodes, free map, indirect blocks and log header are also told in
  bytes and offsets, without the functions that read and write them.

## What the code does not meet as written

- `log.c:218` compares the header with the log size before taking the lock, and
  `mkfs.c:25` makes the log area one block too small for LOGSIZE entries. Two
  calls on different processors, or one preempted between check and lock
  (`trap.c:103-107` yields on a timer tick in the kernel too), can overrun it;
  the log block then lands on the first block behind the area.
  `AtomicIffRoomForLogsize` gives the exact condition, `TornRun` the run. Both
  are relative to what MAXOPBLOCKS allows: the calls of the run log up to that
  many blocks each, and no particular system call is shown to.
- The same line refuses a call that logs a block again when the header is full
  (`RelogPanicsWhenFull`), although nothing needs space then; `RefusesIffFull`
  says that this is the only call it refuses.
- `writei` writes the inode back only when the size grows. If a write below the
  size fills a hole through an address in the inode itself, the inode on disk is
  left behind: `HoleLeavesInodeBehind` runs into it, and `WriteI` states exactly
  when it happens. Files that filewrite and writei make have no holes
  (`NoHolesKept`), so it does not happen to them.
- `pipewrite`, killed while the pipe is full, returns without waking readers
  (`pipe.c:86-88`), so a reader can sleep over a full pipe: `OversleepingRun` is
  such a run. `ServedIffWritersSpared` says that kills inside pipewrite are the
  only cause. Byte order, mutual exclusion and the wakeups of writers hold
  under every kill.
- `sh.c` treats `>>` like `>` (`AppendIsWrite`, `AppendLine`); the model keeps that.

## Model

| member | source | states |
|---|---|---|
| `LogDisk.HeadRoundTrip` | project3/xv6-modified/log.c:85-113 | read_head of what write_head stored gives the entries back, whatever stale words the block held before |
| `LogDisk.RecoverIsDurable` | project3/xv6-modified/log.c:115-122 | one uninterrupted recovery leaves on every home block what `Durable` says, the log copy where the header names the block and the old block elsewhere, and an empty log |
| `LogDisk.RecoverIdempotent` | project3/xv6-modified/log.c:115-122 | recovering a recovered disk leaves every block of it as it is |
| `LogDisk.HeadWritten` | project3/xv6-modified/log.c:101-113 | in bytes: write_head leaves the count at byte 0 and entry k at byte 4 + 4k of the header block, little-endian |
| `LogDisk.HeadRead` | project3/xv6-modified/log.c:85-96 | in bytes: read_head takes any header block for exactly those numbers |
| `LogDisk.RecoveredBytes` | project3/xv6-modified/log.c:69-122 | in bytes: recovery gives a block named in entry k the block start + 1 + k, leaves every other home block, and zeroes the count |
| `LogProof.InstallKeepsDurable` | project3/xv6-modified/log.c:69-82 | a crash between two home writes of install_trans recovers to the same contents |
| `LogProof.AppendFits` | project3/xv6-modified/log.c:126-141 | the reservation made by begin_op leaves room for every block a call within its budget has still to log |
| `LogProof.Simulation` | project3/xv6-modified/log.c:69-233 | refinement: every step of log.c over the buffer cache, crashes included, is a step of an atomic disk with a volatile and a durable image, and keeps the invariant (header entries distinct and at most LOGSIZE) |
| `LogTheorems.AlwaysRecoversToQuiescent` | project3/xv6-modified/log.c:126-233 | over whole runs with crashes anywhere, also during recovery: once a moment is durable, the disk always recovers to the logical contents of a moment since then with no call outstanding |
| `LogTheorems.SystemCallsAtomic` | project3/xv6-modified/log.c:126-202 | in every interleaving, a crash recovers the logical disk of some moment of the run with no operation outstanding, provided the header never outgrew the log area |
| `LogRace.AtomicIffRoomForLogsize` | project3/xv6-modified/log.c:214-233 | the exact condition: for a disk laid out as mkfs does, every run keeps the header within the log area, and every crash is recovered from, if and only if nlog is greater than LOGSIZE |
| `LogRace.TornRun` | project3/xv6-modified/log.c:216-230 | with nlog up to LOGSIZE (mkfs.c:25 makes it equal): a run in which two calls pass the unlocked check together, write_log overwrites the block behind the log, and the crash recovers to no quiescent moment |
| `LogRace.RelogPanicsWhenFull` | project3/xv6-modified/log.c:218-219 | a run in which a call that logs one of its own blocks again, needing no space, is refused because the header is full |
| `LogRace.RefusesIffFull` | project3/xv6-modified/log.c:216-221 | over all runs with nlog above LOGSIZE the check refuses a call within its budget exactly when the header is full, and then only a block the call has logged before |
| `LogReserve.HeaderBounded` | project3/xv6-modified/log.c:126-141 | in every interleaving, for every size of the log area, the header entries are pairwise distinct and at most LOGSIZE, in memory and on disk |
| `LogReserve.AppendFindsEntry` | project3/xv6-modified/log.c:223-230 | an appending log_write always finds a free entry in lh.block |
| `LogReserve.AdmitsIffRoom` | project3/xv6-modified/log.c:126-141 | three calls at most are in progress at a time, and while no commit is under way one more is let in exactly if the log has room at ten blocks a call |
| `LogTheorems.RoomFits` | project3/xv6-modified/log.c:126-141 | with nlog above LOGSIZE the header fits in every state of every run |
| `LogTheorems.FreshLogWriteNeverPanics` | project3/xv6-modified/log.c:216-221 | with nlog above LOGSIZE a call within MAXOPBLOCKS never meets the panics when it logs a new block |
| `LogTheorems.EndOpNeverDuringCommit` | project3/xv6-modified/log.c:145-153 | the panic on log.committing in end_op is unreachable |
| `LogTheorems.CommitIsAtomic` | project3/xv6-modified/log.c:193-202 | each step of commit keeps the logical contents; what is durable switches from all old to all new exactly at the header write |
| `LogTheorems.FinishedCommitIsDurable` | project3/xv6-modified/log.c:145-174 | when the last end_op is done, everything the calls wrote is durable |
| `LogTheorems.IdleIsDurable` | project3/xv6-modified/log.c:145-174 | group commit: in every run, whenever no call is in progress and no commit or recovery under way, everything the calls have written is durable |
| `LogTheorems.HeldUntilReleased` | project3/xv6-modified/bio.c:96-141 | a buffer is held from bread to brelse by the one who read it; no eviction, commit or other call takes it away |
| `LogTheorems.RecoveryCompletes` | project3/xv6-modified/log.c:115-122 | a completed recovery leaves the home blocks exactly as they were durable at the crash |
| `LogTheorems.BreadReturnsLatest` | project3/xv6-modified/bio.c:97-106 | over whole runs with calls, commits, evictions and crashes: what cache and disk show for a block, and what bread hands out, is the data of its last change since the last crash, or else what recovery from that crash left |
| `LogTheorems.RunShowsLatest` | project3/xv6-modified/bio.c:97-106 | every run has steps to read the last change off, so in every run what is shown is the latest contents |
| `LogTheorems.RecoversWhatCallsLeft` | project3/xv6-modified/log.c:143-174 | if every call that ends with no other in progress leaves one of a set of contents, then a crash at any later step, during a commit or a recovery too, recovers one of that set |
| `LogSleep.StepInv` | project3/xv6-modified/log.c:124-174 | every lock operation, test, sleep, wakeup, append and commit of begin_op, log_write and end_op, and every kill, keeps the sleep invariant |
| `LogSleep.NobodyOversleeps` | project3/xv6-modified/log.c:124-174 | no lost wakeup: in every run, while log.lock is free, a process asleep in begin_op means that a commit is under way or lh.n + (outstanding+1)*MAXOPBLOCKS exceeds LOGSIZE |
| `LogSleep.SleeperHasWaker` | project3/xv6-modified/log.c:143-174 | nobody sleeps in begin_op for good: another process is inside a call or committing, and its end_op wakes |
| `LogSleep.EndOpNeverPanics` | project3/xv6-modified/log.c:150-153 | at the grain of single lock operations too, end_op never finds a commit under way |
| `LogSleep.CommitsAlone` | project3/xv6-modified/log.c:153-173 | one process commits at a time, and while it does no call is in progress |
| `Log.Journal.LogWrite` | project3/xv6-modified/log.c:213-233 | absorption: a block enters the header once however often it is logged; exactly when the call panics |
| `Log.Journal.WriteLog` | project3/xv6-modified/log.c:177-190 | copies the k-th pinned block to the k-th block behind the header; after each single write a crash still recovers the old contents |
| `Log.Journal.WriteHead` | project3/xv6-modified/log.c:101-113 | stores the in-memory header with one block write, spelled in bytes as the format has it |
| `Log.Journal.ReadHead` | project3/xv6-modified/log.c:85-96 | loads the header the bytes on disk spell |
| `Log.Journal.InstallTrans` | project3/xv6-modified/log.c:69-82 | installs every entry, equal to the reference `Installed`; after each write a crash recovers the same contents |
| `Log.Journal.Commit` | project3/xv6-modified/log.c:192-202 | crash-atomic: every disk before the cut recovers to all old contents, every disk from the cut on to all new, and the logical contents stay |
| `Log.Journal.RecoverFromLog` | project3/xv6-modified/log.c:115-122 | ends with the durable contents on the home blocks and an empty log; a crash after any of its own writes recovers to the same |
| `Ring.UnlinkedLinks` | project3/xv6-modified/bio.c:132-133 | taking a buffer out of the prev/next ring leaves the ring of the others |
| `Ring.PushedLinks` | project3/xv6-modified/bio.c:134-137 | pushing a buffer behind the head gives the ring with it in front |
| `Bcache.Cache.constructor` | project3/xv6-modified/bio.c:38-56 | binit links all NBUF buffers into one ring |
| `Bcache.Cache.Find` | project3/xv6-modified/bio.c:68-76 | the walk of the ring finds a cached block exactly when there is one |
| `Bcache.Cache.Victim` | project3/xv6-modified/bio.c:78-91 | the walk from the tail finds the least recently released buffer that is neither referenced nor dirty |
| `Bcache.Cache.Bget` | project3/xv6-modified/bio.c:61-93 | at most one buffer per block; a dirty or referenced buffer is never recycled; it fails exactly when no buffer is free |
| `Bcache.Cache.Bread` | project3/xv6-modified/bio.c:96-106 | returns the latest contents of the block, whatever was written, pinned, committed or recycled before; which buffer it takes and what becomes of it; fails exactly when the block is not cached and every buffer is referenced or dirty |
| `Bcache.Cache.Fill` | project3/xv6-modified/bio.c:102-104 | a buffer not yet read in gets the disk block, which is the latest contents; no other buffer changes |
| `Bcache.Cache.Write` | project3/xv6-modified/log.c:208-212 | the holder of a buffer changes its data, which become the latest contents of the block and of no other |
| `Bcache.Cache.Pin` | project3/xv6-modified/log.c:231-231 | a pinned buffer keeps its contents; together with Bget it is not recycled until it is written |
| `Bcache.Cache.Bwrite` | project3/xv6-modified/bio.c:109-116 | the disk gets the data of the buffer and the pin is gone; for a buffer that was read in, the latest contents of no block change, and otherwise the data become those of this block alone |
| `Bcache.Cache.MoveToHead` | project3/xv6-modified/bio.c:131-137 | the ring stays a permutation of all buffers, the released one in front |
| `Bcache.Cache.Brelse` | project3/xv6-modified/bio.c:120-141 | the reference is dropped; the last one moves the buffer to the front and stamps it, keeping the ring in order of release |
| `CacheRefines.NewCache` | project3/xv6-modified/bio.c:38-56 | the cache that binit makes is the empty cache of the log machine |
| `CacheRefines.Bread` | project3/xv6-modified/bio.c:61-106 | refinement: reading through the ring is the Bread step of the log machine on the map of cached blocks, after the eviction of another block where a buffer is recycled; it fails exactly when no buffer can be had |
| `CacheRefines.Modify` | project3/xv6-modified/log.c:208-212 | changing the data of a held buffer is the Modify step of the log machine |
| `CacheRefines.Pin` | project3/xv6-modified/log.c:231-231 | setting the dirty flag is what the LogAppend step of the log machine does to the cache |
| `CacheRefines.Brelse` | project3/xv6-modified/bio.c:120-141 | releasing a buffer, with its move in the ring, is the Brelse step of the log machine; by the invariant of the machine it shows what is on disk or is pinned |
| `CacheRefines.Store` | project3/xv6-modified/log.c:101-113 | reading a block in, filling it, writing and releasing it is the single block write of the log machine, after an eviction where a buffer is recycled |
| `FsLayout.OwnedExactlyOnce` | project3/xv6-modified/fs.c:373-401 | the ownership invariant in its own words: a used block is metadata or named by exactly one slot (direct, indirect, inside the indirect block) of exactly one inode |
| `FsLayout.EmptyIsOwned` | project3/xv6-modified/mkfs.c:237-251 | a file system with exactly its metadata marked in the free map and no blocks in any inode satisfies the invariant |
| `FsLayout.AllocStep` | project3/xv6-modified/fs.c:56-78 | marking and zeroing a free block keeps ownership and changes no file |
| `FsLayout.FreeStep` | project3/xv6-modified/fs.c:81-96 | a detached block is marked used, so freeing it cannot panic; freeing keeps ownership and every file |
| `FsLayout.AttachStep` | project3/xv6-modified/fs.c:380-381 | giving a fresh zeroed block to a direct slot or the indirect slot keeps ownership and changes no file |
| `FsLayout.AttachInnerStep` | project3/xv6-modified/fs.c:390-396 | the same for an entry of the indirect block |
| `FsLayout.DetachStep` | project3/xv6-modified/fs.c:409-434 | clearing an address makes exactly the blocks under it ownerless and touches no other file |
| `FsLayout.WithUsedAt` | project3/xv6-modified/fs.c:62-69 | setting or clearing one bit of the free map changes the status of one block |
| `FsInode.WordsRoundTrip` | project3/xv6-modified/fs.c:221-237 | a dinode survives being stored as 16 words |
| `FsInode.UpdatedAt` | project3/xv6-modified/fs.c:221-237 | writing one dinode into its block leaves the other seven as they were |
| `FsInode.InodeBytes` | project3/xv6-modified/fs.h:29-36 | the on-disk format: inode inum of any disk is d if and only if the 64 bytes at 64 * (inum % 8) of block inum / 8 + inodestart are its four shorts, its size and its thirteen addresses, little-endian |
| `FsFormat.FreeMapBit` | project3/xv6-modified/fs.c:62-69 | the on-disk format: block b is used if and only if bit b % 8 of byte b % 4096 / 8 of block b / 4096 + bmapstart is set |
| `FsFormat.FileByte` | project3/xv6-modified/fs.c:373-401 | the on-disk format: byte p of a file is byte p % 512 of the block named by address p / 512 of the inode, or at byte 4 * (p / 512 - 12) of the indirect block; 0 in a hole |
| `FsOps.FileSystem.FirstFree` | project3/xv6-modified/fs.c:62-66 | the scan of balloc finds the lowest free block, or there is none |
| `FsOps.FileSystem.BAlloc` | project3/xv6-modified/fs.c:56-78 | the block was free, is now marked and zeroed, belongs to nobody; no file and no dinode on disk changes; it fails exactly when no block is free |
| `FsOps.FileSystem.BMap` | project3/xv6-modified/fs.c:373-401 | the address of the bn-th block, allocated if need be; only missing addresses are filled in, no file changes, and exactly which blocks are logged; it panics exactly beyond the largest file or with fewer free blocks than missing ones |
| `FsOps.FileSystem.BFree` | project3/xv6-modified/fs.c:81-96 | clears the bit, and panics exactly when the block is free |
| `FsOps.FileSystem.ITrunc` | project3/xv6-modified/fs.c:408-436 | never panics; frees exactly the blocks of this inode, keeps ownership, every other file and every other dinode, and ends with the empty inode on disk |
| `FsOps.FileSystem.IUpdate` | project3/xv6-modified/fs.c:221-237 | the dinode on disk, in its bytes, equals the inode in memory; no file and no other dinode changes |
| `FsFile.GrownIntact` | project3/xv6-modified/fs.c:373-401 | a write leaves the addresses kept in the inode itself alone exactly when none that it needed was 0 |
| `FsFile.WriteBlock` | project3/xv6-modified/fs.c:500-505 | one turn of the loop patches one block of one file and nothing else; it panics exactly when too few blocks are free |
| `FsFile.WriteI` | project3/xv6-modified/fs.c:482-512 | the bytes of the file are spliced and extended, all other files and dinodes untouched; exactly when it refuses and exactly when it panics for want of free blocks; how many blocks it logs; and the exact condition under which the dinode on disk follows the one in memory |
| `FsSyscall.ChunkCost` | project3/xv6-modified/file.c:127-139 | a chunk never logs more than MAXOPBLOCKS blocks, at every offset, alignment and free-map layout, because an unaligned first block is already there |
| `FsSyscall.NoHolesKept` | project3/xv6-modified/fs.c:482-512 | a write that starts within the file keeps it without holes |
| `FsSyscall.WriteChunk` | project3/xv6-modified/file.c:140-146 | one transaction of filewrite keeps the file without holes and on disk as in memory, and logs at most MAXOPBLOCKS blocks; it panics exactly when too few blocks are free |
| `FsSyscall.FileWrite` | project3/xv6-modified/file.c:117-155 | the chunked loop equals one whole write; how far it gets is a function of size, offset and length, all the way exactly when the range fits, and it panics exactly when fewer blocks are free than that range lacks; other files untouched; after each transaction, also before a panic, the file has got exactly the chunks so far and its inode is on disk |
| `FsSyscall.TransactionsOf` | project3/xv6-modified/file.c:133-139 | 1536 bytes to a transaction: how many a write takes, and that the k-th leaves exactly 1536 * k bytes written |
| `FsSyscall.NeedMore` | project3/xv6-modified/file.c:133-152 | two adjoining writes take as many free blocks as one write over both |
| `FsSyscall.ReadI` | project3/xv6-modified/fs.c:453-478 | returns the slice clipped at the size, or -1 exactly for a start beyond the end or a range that wraps; no file changes, and where no hole is read nothing does; inside a transaction it panics exactly when filling the holes read takes more blocks than are free (outside one, as in fileread, filling any hole would meet the second panic of log_write) |
| `FsSyscall.FileRead` | project3/xv6-modified/file.c:96-112 | never panics; returns the bytes from the offset on and moves the offset past them; the file system is as before |
| `FsSyscall.IPut` | project3/xv6-modified/fs.c:332-353 | the last reference to an unlinked inode frees exactly its blocks and clears its type on disk; otherwise only the count drops |
| `FsHole.HoleLeavesInodeBehind` | project3/xv6-modified/fs.c:482-512 | writei of one byte over a hole in the given file system returns 1 and the file holds the byte, but the inode on disk, equal to the one in memory before, is no longer equal to it |
| `FsHole.HoledFile` | project3/xv6-modified/fs.c:453-512 | the file system with the hole exists: one block left, one inode of size 1 without blocks |
| `FsCrash.CrashKeepsFiles` | project3/xv6-modified/log.c:115-122 | if the disk is a sound file system whenever no call is in progress, then after a crash at any step of any run the recovered disk is a sound file system, with the inodes and files of one such moment |
| `FsCrash.OwnedIsSound` | project3/xv6-modified/log.c:115-122 | with every inode written back and nothing in progress, the ownership invariant makes the disk alone a sound file system |
| `FsCrash.StageOnDisk` | project3/xv6-modified/file.c:140-146 | filewrite leaves every inode on disk after every transaction, so the disk is sound at each of them |
| `FsCrash.CrashKeepsWholeChunks` | project3/xv6-modified/file.c:127-152 | a crash at any step of a run whose calls leave the file systems of a filewrite behind recovers a sound file system in which the file has got a whole number of chunks of the write, at least the committed ones, and every other file is as it was |
| `PageTree.OneRoleEach` | project3/xv6-modified/vm.c:36-55 | the page invariant in its own words: no user page is reached from two entries, no table from two directory entries, and none of them is free or a directory |
| `PageTree.LeafDecides` | project3/xv6-modified/vm.c:48-54 | access by the bits of both levels: user mode may read or write a page exactly as the entry in the table says, because every directory entry has P, W and U |
| `PageTree.PutLeafAt` | project3/xv6-modified/vm.c:69-73 | setting one page-table entry changes the translation of one page of one address space |
| `PageTree.UnmappedOk` | project3/xv6-modified/vm.c:269-276 | unmapping a page and freeing it keeps every page in one role and every other translation |
| `VmSpec.NaiveSkip` | project3/xv6-modified/vm.c:265-268 | without a table, going page by page to the next directory entry does nothing |
| `VmSpec.NaiveReleases` | project3/xv6-modified/vm.c:256-279 | the page-by-page loop clears exactly the present entries of the range and frees exactly their pages |
| `VmSpec.BuiltThenDissolved` | project3/xv6-modified/vm.c:316-345 | taking apart an address space that was built from free pages restores the role of every page |
| `Vm.NextDirectory` | project3/xv6-modified/vm.c:268-268 | the address jumped to does not wrap and skips no page under another directory entry, for every address below KERNBASE |
| `VmCount.NewTabsAbove` | project3/xv6-modified/vm.c:41-53 | how many tables a range of pages lacks, counted where the entries present are the lower ones |
| `VmCount.DrawnStops` | project3/xv6-modified/vm.c:233-247 | running out in the turn for one page means there were fewer free pages than the whole growth takes |
| `Vm.FailedGrowthKeepsUsers` | project3/xv6-modified/vm.c:235-246 | a failed allocuvm leaves every user page where it was |
| `Vm.Memory.KFree` | project3/xv6-modified/kalloc.c:59-77 | fills the page with ones and pushes it on the list chained through first words, and panics exactly on an address that is no free-memory page |
| `Vm.Memory.KAlloc` | project3/xv6-modified/kalloc.c:82-95 | pops the first page, and returns 0 exactly when the list is empty |
| `Vm.Memory.FreeRange` | project3/xv6-modified/kalloc.c:46-53 | every whole page between the two addresses becomes free, and no other page changes |
| `Vm.Memory.Walk` | project3/xv6-modified/vm.c:35-55 | the entry of an address; without alloc nothing changes; with alloc a missing table is added, which maps nothing and has P, W and U in the directory; null exactly when there is no table and none can be had |
| `Vm.Memory.MapPages` | project3/xv6-modified/vm.c:60-80 | all pages of the range are mapped, or there were fewer free pages than missing tables, or an entry was present, and how far it came; exactly the missing tables are added; every other translation and every page in one role |
| `Vm.Memory.SetupKvm` | project3/xv6-modified/vm.c:118-136 | a directory that maps exactly the kernel layout of the kmap table, built from 65 free pages; with fewer, and only then, it fails and every page is back in its role; never a remap panic; user mode may read none of it |
| `Vm.Memory.DeallocUvm` | project3/xv6-modified/vm.c:255-279 | the loop that jumps over absent tables equals the page-by-page loop, down to the order of the free list, without a 32-bit wrap for every oldsz up to KERNBASE |
| `Vm.Memory.FreeVm` | project3/xv6-modified/vm.c:283-298 | exactly the pages of this address space become free; no other page changes role or contents |
| `Vm.Memory.AllocUvm` | project3/xv6-modified/vm.c:221-249 | grows by zeroed pages that user mode may write, by the bits of both levels, if there are as many free pages as the growth and its missing tables take; with fewer nothing stays mapped in the range; panics only over an entry present beforehand; other address spaces untouched |
| `Vm.Memory.CopyUvm` | project3/xv6-modified/vm.c:315-345 | below sz the child has the bytes and flags of the parent on pages that were free, and user mode may access exactly what it may in the parent, if there are as many free pages as the copy takes (a closed form of sz); with fewer every page is back in its role; panics only over a page missing in the parent |
| `FreeList.LinkInOk` | project3/xv6-modified/umalloc.c:33-42 | linking a block in behind its place keeps the list circular, sorted and starting at base, and every unit in one block |
| `FreeList.MergedOk` | project3/xv6-modified/umalloc.c:33-41 | so does merging two neighbours |
| `FreeList.FreedOk` | project3/xv6-modified/umalloc.c:24-44 | after free no two free blocks touch |
| `FreeList.FreedMem` | project3/xv6-modified/umalloc.c:33-43 | the header writes of free are exactly linking in and merging |
| `FreeList.StopsThere` | project3/xv6-modified/umalloc.c:30-32 | the two stopping conditions of the search hold at the place of the block and nowhere else on the ring |
| `FreeList.SplitOk` | project3/xv6-modified/umalloc.c:79-81 | cutting the tail off a free block keeps every unit in one block |
| `FreeList.TakenOk` | project3/xv6-modified/umalloc.c:76-77 | so does taking a block out of the list |
| `FreeList.OneBlockEach` | project3/xv6-modified/umalloc.c:24-90 | every unit obtained from sbrk lies in one block and no other, which is either free or live |
| `FreeList.Conservation` | project3/xv6-modified/umalloc.c:24-90 | the sizes on the free list and the sizes of the live blocks add up to the number of units in blocks |
| `Umalloc.Allocator.NothingLeaks` | project3/xv6-modified/umalloc.c:24-90 | whenever malloc or free has returned, the sizes on the free list plus the sizes of the live blocks are the units sbrk has handed out |
| `FreeList.NotTouching` | project3/xv6-modified/umalloc.c:33-42 | no free block ends where another begins |
| `Umalloc.Allocator.Search` | project3/xv6-modified/umalloc.c:30-32 | the search ends within one lap, at the entry behind which the block belongs |
| `Umalloc.Allocator.Free` | project3/xv6-modified/umalloc.c:24-44 | the block joins the free units, coalesced; all other live blocks keep their place and size; the list is valid again |
| `Umalloc.Allocator.MoreCore` | project3/xv6-modified/umalloc.c:46-61 | one sbrk call for at least 4096 units; 0 exactly if it refuses; otherwise a large enough block is at freep or next to it |
| `Umalloc.Allocator.Malloc` | project3/xv6-modified/umalloc.c:63-90 | a new block apart from all others with room for nbytes and less than a unit to spare, and 0 exactly when no free block is large enough and sbrk refuses; sbrk is called exactly once if no free block is large enough and not at all otherwise |
| `ProcTable.Ptable.Wakeup1` | project3/xv6-modified/proc.c:469-477 | wakes exactly the processes asleep on the channel, after which none sleeps on it |
| `ProcTable.Ptable.Alloc` | project3/xv6-modified/proc.c:82-93 | the first unused slot becomes an EMBRYO with the next pid; fails only when no slot is unused |
| `ProcTable.Ptable.Exit` | project3/xv6-modified/proc.c:254-269 | the loop that hands children over one by one has the outcome of handing all over at once, told slot by slot: the caller a zombie, its children with init, its parent and init woken, nothing else changed |
| `ProcTable.Ptable.Wait` | project3/xv6-modified/proc.c:283-316 | reaps the first zombie child if there is one, whose slot is then unused without pid, parent or kill, otherwise reports or sleeps, never touching another slot |
| `ProcTable.Ptable.Kill` | project3/xv6-modified/proc.c:491-510 | marks the first process with the pid, wakes it if it sleeps, and fails exactly if there is none |
| `ProcProof.StepInv` | project3/xv6-modified/proc.c:74-486 | every step, including those fork and allocproc take without the lock, keeps the table invariant |
| `ProcTheorems.NoLostExit` | project3/xv6-modified/proc.c:276-317 | in every state of every run a process asleep in wait has a child and no zombie child |
| `ProcTheorems.ExitWakesParent` | project3/xv6-modified/proc.c:256-270 | exit makes a parent asleep in wait runnable |
| `ProcTheorems.ParentsAlive` | project3/xv6-modified/proc.c:183-272 | nobody has a parent that is unused, a zombie or an embryo, and parents have smaller pids |
| `ProcTheorems.LeadsToInit` | project3/xv6-modified/proc.c:183-272 | parent links are acyclic and lead to init |
| `ProcTheorems.ReapedOnce` | project3/xv6-modified/proc.c:276-317 | every process that exited is a zombie or was reaped, not both, and was reaped once |
| `ProcHistory.KilledHistory` | project3/xv6-modified/proc.c:276-317 | in every run a slot is marked killed if and only if it was killed and not reaped since, so nobody is born killed |
| `ProcHistory.AsleepHistory` | project3/xv6-modified/proc.c:428-486 | in every run a process sleeps on a channel if and only if it went to sleep on it and since then there was neither a wakeup of the channel nor a kill of the process |
| `ProcHistory.LifeCycle` | project3/xv6-modified/proc.c:74-510 | a slot changes state only by the step meant for that; a wakeup changes exactly the sleepers on its channel |
| `ProcHistory.MeantIsDone` | project3/xv6-modified/proc.c:74-510 | every step takes the slot it is meant for into its state |
| `ProcHistory.RunHasSteps` | project3/xv6-modified/proc.c:74-510 | every run has steps to tell these histories by |
| `Pipe.CountersTell` | project3/xv6-modified/pipe.c:85-116 | comparing the wrapped counters tells full from empty, and the wrapped counters index the buffer rightly |
| `PipeProof.StepInv` | project3/xv6-modified/pipe.c:59-121 | every lock operation, copy, wakeup, sleep and early return, and every kill, keeps the pipe invariant |
| `PipeProof.DeliversInOrder` | project3/xv6-modified/pipe.c:78-121 | the bytes delivered are always a prefix of the bytes accepted, with at most 512 in flight, however often the counters wrap and whoever is killed |
| `PipeProof.NobodyOversleeps` | project3/xv6-modified/pipe.c:78-121 | whoever is killed: while the pipe lock is free no writer sleeps over space or a closed read end, and a reader sleeps over data or a closed write end only if a writer gave up at a full pipe and no reader has been woken since |
| `PipeProof.OneHolder` | project3/xv6-modified/pipe.c:78-121 | critical sections of the pipe exclude each other, whoever is killed |
| `PipeProof.SparedReadersServed` | project3/xv6-modified/pipe.c:78-121 | in every run in which nobody is killed inside pipewrite no reader sleeps over data or a closed write end while the lock is free, whatever other threads are killed |
| `PipeKill.OversleepingRun` | project3/xv6-modified/pipe.c:85-92 | a run in which a writer is killed at a full pipe and a reader stays asleep over 512 bytes with the lock free |
| `PipeKill.ServedIffWritersSpared` | project3/xv6-modified/pipe.c:78-121 | the exact condition: no reader oversleeps in any run if and only if nobody is killed inside pipewrite |
| `PipeProof.KillWakes` | project3/xv6-modified/proc.c:491-510 | a kill marks its victim, which is then not asleep, and changes nothing else |
| `PipeCalls.StepCalls` | project3/xv6-modified/pipe.c:78-121 | every step keeps the account of what each call has stored or taken |
| `PipeCalls.CallsFixed` | project3/xv6-modified/pipe.c:78-121 | the calls on record are exactly those begun, with the bytes and counts they were begun with |
| `PipeCalls.StoresItsBytes` | project3/xv6-modified/pipe.c:84-94 | in every run, whoever interferes, a thread inside pipewrite has stored exactly the first i bytes it was given, in order; when it is done, all of them |
| `PipeCalls.TakesTheNext` | project3/xv6-modified/pipe.c:106-118 | in every run a piperead that has copied has taken the next bytes of the stream, in one piece, as many as it asked for or all there were; none only at the end of the stream |
| `PipeCalls.ReturnsWhatItDid` | project3/xv6-modified/pipe.c:78-121 | what every returned call returned is what it stored or took; -1 only for the killed or where nobody can read any more |
| `PipeCalls.SoleWriter` | project3/xv6-modified/pipe.c:78-98 | with one writing thread the stream is the bytes of its calls, call after call; once all have returned their count, exactly what they were given |
| `Semaphore.NeverOverdrawn` | project4/3/SSU_Sem.c:21-44 | in every interleaving completed downs never exceed the initial value plus ups, and the counter never drops below -1 |
| `Semaphore.WaitsOnlyWhenExhausted` | project4/3/SSU_Sem.c:25-33 | except between an increment and its broadcast, a thread waits un-notified only when initial value plus ups equals completed downs |
| `Semaphore.OnePending` | project4/3/SSU_Sem.c:21-33 | because mutex_down is held across the wait, at most one thread is between its decrement and the end of its wait |
| `MasterWorker.RangesPartition` | project4/1/master-worker.c:33-38 | the ranges of the masters follow one another from 0 to total_items |
| `MasterWorker.QuotasAddUp` | project4/1/master-worker.c:64-69 | the quotas of the workers add up to total_items |
| `MasterWorker.QuotaIs` | project4/1/master-worker.c:64-69 | every worker consumes total / workers items, the first also the remainder |
| `MasterWorker.NothingLost` | project4/1/master-worker.c:40-81 | in every interleaving produced equals consumed plus buffered, as multisets, with the buffer within its bounds |
| `MasterWorker.AllConsumed` | project4/1/master-worker.c:31-87 | once all threads are done the consumed numbers are a permutation of 0 to total_items-1 |
| `Grep.MatchHere` | project3/xv6-modified/grep.c:84-96 | true exactly when some prefix of the text is in the language of the pattern, up to the end of the text if the pattern ends in $ |
| `Grep.MatchStar` | project3/xv6-modified/grep.c:99-106 | true exactly when the rest of the pattern matches behind some run of the starred character |
| `Grep.Match` | project3/xv6-modified/grep.c:72-82 | true exactly when some suffix of the text, the whole text after ^, begins with a match |
| `ShellLex.LexRender` | project3/xv6-modified/sh.c:265-308 | printing tokens with spaces and scanning them gives the tokens back |
| `ShellLex.LexIsWritten` | project3/xv6-modified/sh.c:262-308 | what the tokens of a line are: the one sequence of symbols, >> and words that the line writes out, with or without blanks between them, a word ending at a blank or symbol and > where no other > follows |
| `ShellParse.LineSpans` | project3/xv6-modified/sh.c:344-446 | every word of a parsed command is a whole token of the line |
| `ShellTokens.CmdAgrees` | project3/xv6-modified/sh.c:327-446 | what the shell makes of a line, command or error, depends on its tokens alone |
| `ShellAccepts.AcceptsIffSpelled` | project3/xv6-modified/sh.c:327-446 | the shell accepts a line if and only if its tokens spell a command of the grammar with at most 9 arguments each, and reads it as the one command they spell |
| `ShellAccepts.RefusesIffBroken` | project3/xv6-modified/sh.c:327-446 | it reports an error if and only if the tokens break the rule the error stands for: a redirection without a word, a tenth argument, a parenthesis behind a word, an unclosed parenthesis, something behind the line |
| `ShellAccepts.SyntaxIsParen` | project3/xv6-modified/sh.c:431-432 | the token that makes a syntax error is an opening parenthesis |
| `ShellRoundTrip.ParsesTokens` | project3/xv6-modified/sh.c:327-446 | a line that spells the tokens of a command, with any spacing, parses to that command |
| `ShellRoundTrip.RoundTrip` | project3/xv6-modified/sh.c:327-446 | parsing the print of any command with legal words and at most 9 arguments gives the command back |
| `ShellRoundTrip.AppendIsWrite` | project3/xv6-modified/sh.c:387-393 | at every position >> gives the same redirection as > |
| `ShellRoundTrip.AppendLine` | project3/xv6-modified/sh.c:387-393 | for every file name the two lines with >> and > parse to the same command |
| `Shell.SeenWhole` | project3/xv6-modified/sh.c:449-493 | once the words end in NULs every argv and file string is exactly its token, so no NUL falls inside a word |
| `Shell.Parser.GetToken` | project3/xv6-modified/sh.c:265-308 | the token at the cursor, its start and end, and the cursor behind it |
| `Shell.Parser.PeekAt` | project3/xv6-modified/sh.c:310-320 | whether the next character is one of the given symbols; only white space is passed over |
| `Shell.Parser.ReadRedirs` | project3/xv6-modified/sh.c:374-397 | the loop over redirections follows the grammar |
| `Shell.Parser.ReadWords` | project3/xv6-modified/sh.c:426-445 | the loop over words and redirections of a simple command follows the grammar, with its limit on arguments |
| `Shell.Parser.ReadBlock` | project3/xv6-modified/sh.c:399-413 | a parenthesised line and its redirections |
| `Shell.Parser.ReadPipe` | project3/xv6-modified/sh.c:361-372 | pipelines |
| `Shell.Parser.ReadLine` | project3/xv6-modified/sh.c:344-359 | lists and background commands; terminates on every input |
| `Shell.Parser.NulTerminate` | project3/xv6-modified/sh.c:449-493 | writes NULs exactly at the ends of the words of the command |
| `Shell.Parser.ParseCommand` | project3/xv6-modified/sh.c:327-342 | the command that the tokens of the line spell, exactly if they spell one, or the error for the rule they break; read back as C strings, its words are the tokens of the line |

## Left out

- Devices, permission flags and pipes behind file descriptors in readi, writei, fileread and filewrite; directories, path lookup, exec, system call argument fetching.
- The inode cache (iget, ilock, idup) and ialloc: reference counting and a table scan, with nothing harder than what is here; an inode in memory that is not loaded counts as equal to its disk copy.
- Sleep locks: in `Bcache.Cache` a buffer is used by one caller at a time; who holds which buffer when is part of `LogMachine`, and `CacheRefines` carries it along. Inode operations are modelled one after another, as the inode locks and the transaction order them.
- That no call exceeds MAXOPBLOCKS is proved for filewrite's chunks; for the other calls it is the hypothesis of `LogMachine`'s append step.
- bget, balloc, ialloc and iget running out of buffers, blocks or inodes: modelled as a failing result with its exact condition, not shown unreachable. The state a panic leaves is not described, since the kernel stops there.
- FsSyscall.ReadI: the panic of log_write when a hole is read outside a transaction; files that filewrite makes have no holes, and `FileRead` is stated for those.
- FsCrash.CrashKeepsWholeChunks: which steps of the log machine a writei makes is not spelled out; the hypothesis is what each call leaves behind when it ends alone.
- The mkfs program: the file system theorems start from any disk that satisfies the ownership invariant, and files are assumed without holes where stated.
- Umalloc.Allocator.Malloc: assumes a request small enough that the byte count passed to sbrk stays positive; addresses are header-aligned, and the answers of sbrk, which never moves down, are given with the allocator.
- Vm.Memory: user programs' own writes to their pages, inituvm, loaduvm, clearpteu and copyout; pages handed out for other uses are one role. One operation at a time.
- Vm.Memory.KFree: requires that the page is not on the free list already, as the source does without checking.
- Umalloc.Allocator.Free: requires a block that is live, as the source does without checking.
- Pids are unbounded numbers; kill may hit any slot, and which zombie a wait reaps first is left open in the machine (the table method fixes it).
- An end of a pipe is closed only when no thread is inside an operation on it, as file reference counts see to.
- The choice of the next process by priority in the scheduler; context switching, interrupts, spinlock internals and all drivers.
- Liveness, of the bounded buffer above all: it signals single waiters in some states only. A blocked thread is one that takes no step.
- The counter of the semaphore is unbounded.
- grep's reading of files line by line; the shell's running of commands.
- project1, project2, project5, project6 and the reader-writer locks of project4.
