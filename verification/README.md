# A verified model of the xv6 kernel with stride scheduling

This project models the parts of the xv6 kernel in `src/` whose correctness is hard to see,
and of two of its user programs, and proves what they are for. Everything is in Dafny 4.11;
`dafny verify dfyconfig.toml` checks it.

| file | models | main results |
|---|---|---|
| `Blocks.dfy` | sectors as little-endian words and as bytes | |
| `RedoLog.dfy`, `Log.dfy` | the on-disk redo log and `src/log.c` | crash atomicity, crashes during recovery included |
| `GroupCommit.dfy` | the concurrent log of `src/fmt/log.c` | atomicity of operations in every interleaving; every commit completes; who waits, who panics |
| `Ide.dfy` | `src/ide.c` against `src/memide.c` | the interrupt-driven disk refines the synchronous one; calls are served in order, and no process goes on before its call is |
| `BufCache.dfy` | `src/bio.c` | coherence, one buffer a sector, the LRU ring |
| `Fs.dfy` | blocks and files: `src/fs.c`, `filewrite` | block ownership; files as flat byte sequences; when filewrite panics, or writes into the log area |
| `FsCrash.dfy` | files on top of the log | wherever filewrite crashes, a whole number of its chunks is on disk |
| `DirTree.dfy`, `Path.dfy` | directories: `src/sysfile.c`, `src/fs.c` | link counts and tree shape, exactly when kept; what create, link and unlink leave; path walking |
| `Stride.dfy` | tickets and the stride scheduler | lifetime bound, fairness over any window, nobody starves |
| `Locks.dfy`, `SleepWakeup.dfy` | spinlocks, interrupt flag, `swtch`, sleep and wakeup | one CPU a process, lock hand-over, no lost wakeup |
| `Family.dfy` | fork, exit, wait, kill | no dangling parent, no lost exit, one reaping, one process a pid |
| `Pipe.dfy` | `src/pipe.c` | FIFO across counter wrap-around, who sleeps |
| `Vm.dfy` | `src/vm.c`, `src/kalloc.c` | exactly what freevm and deallocuvm free, and when copyuvm and allocuvm fail and lose a frame |
| `UMalloc.dfy` | `src/umalloc.c` | the coalescing free list, the partition of the arena |
| `Shell.dfy` | the parser of `src/sh.c` | the parser accepts exactly its grammar; print-and-parse round trip with the fewest parentheses; NUL termination |
| `Grep.dfy` | the matcher of `src/grep.c` | agreement with a declarative semantics; patterns as strings |

C code that changes memory step by step is a class or a method with the same loops, proved
against functions and predicates on values; results that span operations are lemmas about
those. A loop body that is a method of its own (`LogNext`, `WriteBlock`, `FreeEntry`,
`CopyPage`, ...) carries what one pass does. Concurrent protocols (group commit, the disk
driver, locks, sleep and wakeup, the process table) are state machines, whose runs
interleave steps of any number of threads or CPUs in any order; memory is sequentially
consistent and the exchange instruction atomic. A panic is a result the contract speaks of.

## What the proofs show of the code

- `src/log.c`: log_write panics exactly when the log already holds LOGSIZE or `size - 1`
  sectors, even for a sector already in it (`Log.TransLog.LogWrite`).
- `src/fmt/log.c`: log_write's size check is made before it takes the lock, and before it
  looks whether the sector is logged already. Operations that keep to MAXOPBLOCKS blocks can
  therefore fill the log and then meet the panic, for a block that needs no new room
  (`FullLogPanics`). They meet it if and only if the log is full, and then the operation has
  logged all it may (`WhoPanics`). Appending itself always finds room (`RoomToAppend`).
- `src/file.c`: a chunk of filewrite cannot overfill the log even with three bitmap sectors
  (`ChunkFitsLog`).
- `src/fs.c`: balloc searches the log area too, and hands out a log block once all blocks
  below it are in use. While no file has blocks there, filewrite keeps out of the log exactly
  when as many blocks below it are free as it takes (`Filewrite`), and is then atomic chunk by chunk
  whatever crashes (`WriteDurably`); one byte written with none free commits a transaction
  that goes into the log (`WriteAstray`).
- `src/sysfile.c`: create and link in a directory that has been unlinked, but is still open,
  break the link counts; so does link number 32768 to one inode, `nlink` being a short. Otherwise the
  tree is kept: `CreateKeepsTreeIff` and `LinkKeepsTreeIff` say exactly when, and
  `CreateAfterRmdir` and `LinkAfterRmdir` break one.
- `src/pipe.c`: a writer that notices it was killed wakes nobody. A reader then sleeps on
  beside a full pipe if and only if it was asleep and the killed writer had more than
  PIPESIZE bytes left to write (`Pipe.Pipe.Write`); `StrandReader` gets there.
- `src/spinlock.c`, `src/proc.c`: sched saves and restores `intena` for processes only. The
  scheduler gets the flag of the process that left last (`SchedulerGetsProcessFlag`); a
  process always gets its own (`ProcessGetsFlagBack`).
- `src/proc.c`: allocproc does not clear `killed`. kill(0) marks the first entry of pid 0, an
  unused one, and the process next made there exits at its first trap or system call
  (`KilledAtBirth`). An unused entry is marked only so, by kill of the pid that a failed fork
  has left in one, or by a failed fork of a child killed meanwhile (`StepKeepsUnmarkedIff`).
- The scheduler starts every process at step 0, however far the others have got: a newcomer
  is dispatched alone until it has caught up (`NewcomerCatchesUp`). Among processes that are
  always runnable nobody waits longer than 21 passes for each of the others
  (`NobodyStarves`), until steps reach the cutoff, from which a process never runs again
  (`DispatchesInLife`).
- `src/umalloc.c`: `nbytes + sizeof(Header) - 1` wraps for the seven largest requests, which
  then get a one-unit block (`UnitsHoldBytes`), and the product passed to sbrk, a signed int,
  from 2^31 - 15 bytes on (`AskedIsExact`).
- `src/vm.c`: copyuvm succeeds exactly if there are frames for one directory, the kernel's
  tables, the pages and their tables. If it fails it loses one frame exactly when it was a
  page table it could not get, which is when the frames left by setupkvm are one more than
  a multiple of 1025 (`Copyuvm`, `OneFrameIsLost`); if setupkvm fails, all it had is lost.
- allocuvm does not look at what mappages returns. If the table for the last page is what it
  cannot get, it succeeds without that page and loses its frame (`Allocuvm`).
- deallocuvm, where a page table is missing, goes on 4 MB further at the same page
  index, and so misses the pages below that index in the first table it comes to. It frees its
  range exactly if none is there (`Deallocuvm`, `FreedExactlyIff`); `ApartPageIsMissed` is a
  space where one is.
- `src/sh.c`: `>>` builds the same node as `>`; a tenth argument panics, as MAXARGS counts
  the final null pointer.

## Model

| member | source | states |
|---|---|---|
| `Blocks.StoredDigit` | src/fs.c:482-482 | storing one byte of a word leaves its other bytes alone, whatever they are |
| `Blocks.CopyInBytes` | src/fs.c:482-482 | memmove into a block sets exactly the bytes of its range |
| `RedoLog.AfterIsLastValue` | src/log.c:69-82 | after any prefix of sector writes a sector holds the value last written to it, or its old one |
| `RedoLog.LastAfterLogging` | src/log.c:169-179 | logging a sector, absorbed or appended, changes the log slot of that sector and of no other |
| `RedoLog.DistinctAfterLogging` | src/log.c:169-179 | absorption keeps the header free of duplicates |
| `RedoLog.LogAreaWrite` | src/log.c:174-177 | a write to an unnamed log block changes nothing of the file system the disk stands for |
| `RedoLog.InstallWrite` | src/log.c:69-82 | nor does a write to a home sector that the header names |
| `RedoLog.HeaderWrite` | src/log.c:98-113 | the one write of the header replaces that file system by what the log overlays |
| `RedoLog.RecoveryKeepsLogical` | src/log.c:115-122 | no sector write of recovery changes the file system; once complete, it is in the home sectors and the log is empty |
| `RedoLog.RepeatedCrashesRecover` | src/log.c:115-122 | however often recovery is cut short, and wherever, the recovery that completes restores the file system of the first crash |
| `RedoLog.CommittedStandsForOverlay` | src/log.c:138-143 | once the header is written the disk stands for the file system with all logged blocks, and names exactly them |
| `Log.OverlayLogged` | src/log.c:169-179 | one log_write makes the log overlay one more write, absorbed or not |
| `Log.LoggingState` | src/log.c:159-181 | during a transaction the disk still stands for the old file system, and the log overlays all calls so far |
| `Log.TransactionSwitchesOnce` | src/log.c:135-149 | over all sector writes of a transaction the disk stands for the old file system up to the header write, and for the new one from there on |
| `Log.TransactionIsCrashAtomic` | src/log.c:69-181 | crash atomicity: after a crash at any sector write and any number of crashed recoveries, the home sectors are all old or all new, by whether the header was written |
| `Log.HistoryIsReplayed` | src/log.c:69-181 | the disk over whose every sector write crash atomicity is stated is the replay of the writes that RunTransaction records, up to that one |
| `Log.RecoverySteps` | src/log.c:115-122 | installing the named blocks and clearing the header is the whole of recovery |
| `Log.TransLog.ReadHead` | src/log.c:85-96 | reads count and sector numbers off the header sector |
| `Log.TransLog.WriteHead` | src/log.c:101-113 | makes one sector write, which names exactly the logged sectors |
| `Log.TransLog.InstallTrans` | src/log.c:69-82 | makes exactly the install writes, in order, and unpins what it installs |
| `Log.TransLog.RecoverFromLog` | src/log.c:115-122 | from any well-formed disk: makes exactly the writes of recovery, and leaves the file system the disk stood for, in the home sectors and as read through the cache |
| `Log.TransLog.BeginTrans` | src/log.c:124-133 | one pass: sleeps exactly if a transaction is active, and else becomes the active one |
| `Log.TransLog.FindSector` | src/log.c:169-172 | the scan finds the slot of the sector, or the next free one |
| `Log.TransLog.LogWrite` | src/log.c:159-181 | panics exactly on a full log or outside a transaction, changing nothing; else one sector write to its slot, and code reads the new value |
| `Log.TransLog.CommitTrans` | src/log.c:135-149 | what code reads is unchanged and is now in the home sectors; nothing stays pinned; an empty transaction writes nothing |
| `Log.TransLog.RunTransaction` | src/log.c:124-181 | a system call makes exactly the sector writes over which crash atomicity is stated |
| `GroupCommit.CallKeepsCollecting` | src/fmt/log.c:222-242 | a log_write changes the file system as running code reads it, and nothing on disk |
| `GroupCommit.HeadSettles` | src/fmt/log.c:201-211 | the header write makes all calls of the group durable at once |
| `GroupCommit.InstallSettles` | src/fmt/log.c:71-85 | each install keeps every call durable and readable |
| `GroupCommit.CommitWriteKeepsStore` | src/fmt/log.c:183-211 | every sector write of commit keeps disk, pinned buffers and header in step |
| `GroupCommit.DiskStandsForDurable` | src/fmt/log.c:183-211 | at every moment the disk stands for exactly the durable calls |
| `GroupCommit.RoomToAppend` | src/fmt/log.c:222-242 | past the unlocked checks a free slot is there, whatever ran in between; commit is not running |
| `GroupCommit.StepKeeps` | src/fmt/log.c:126-242 | every step of every thread keeps the invariant: reservations cover what is logged, `outstanding` counts the operations, commit runs with none |
| `GroupCommit.RunHolds` | src/fmt/log.c:126-242 | so it holds after every interleaving from boot |
| `GroupCommit.GroupCommitIsCrashAtomic` | src/fmt/log.c:126-242 | after a crash anywhere and any crashed recoveries the disk has exactly the durable calls, and of no operation only some |
| `GroupCommit.StepAddsOnlyCalls` | src/fmt/log.c:222-242 | calls are neither lost nor reordered, and log_write alone adds one, its own |
| `GroupCommit.FinishedIsDurable` | src/fmt/log.c:170-179 | when commit is over, every call is durable and nobody sleeps |
| `GroupCommit.WhoPanics` | src/fmt/log.c:222-230 | operations within their promise never meet the second panic, nor the one of end_op; the first exactly when the log is full, and then the operation has used up its blocks |
| `GroupCommit.FullLogPanics` | src/fmt/log.c:227-228 | three such operations do reach the first panic, with a block already in the log |
| `GroupCommit.SleeperHasWaker` | src/fmt/log.c:128-142 | who sleeps in begin_op has a waker: an operation in progress, or a commit that can go on |
| `GroupCommit.CommitProgresses` | src/fmt/log.c:201-211 | every sector write brings commit one nearer to its end |
| `GroupCommit.NoOperationIsSplit` | src/fmt/log.c:126-242 | so if one call of an operation is durable, all that it has made are, and it is over |
| `GroupCommit.BeginGoesAheadIff` | src/fmt/log.c:128-144 | in every reachable state begin_op goes ahead exactly if no commit runs and ten blocks fit beside those logged and ten for each operation in progress; otherwise it sleeps and changes nothing else |
| `GroupCommit.LastEndCommits` | src/fmt/log.c:153-173 | the end of the last operation, and no other, begins a commit, of two sector writes a block and two of the header, if there are blocks |
| `GroupCommit.CommitCompletes` | src/fmt/log.c:170-211 | however other threads interleave with it, commit makes exactly those writes, can finish when they are made and not before, and all calls are then durable |
| `GroupCommit.CommitCanComplete` | src/fmt/log.c:183-211 | and it needs no other thread to get there |
| `GroupCommit.EndWakes` | src/fmt/log.c:153-169 | end_op starts the commit or wakes everybody |
| `Ide.MemDisk.Iderw` | src/memide.c:36-58 | panics exactly on a buffer not held, with nothing to do, off disk 1 or past its end; else one transfer |
| `Ide.StepSimulates` | src/ide.c:69-155 | each step of driver, device or client is no step, one whole iderw, or the client's own, of the memory disk |
| `Ide.RunRefinesMemide` | src/ide.c:69-155 | in every interleaving buffers and disk equal those of memide run in queue order |
| `Ide.InterruptServesNext` | src/ide.c:91-119 | requests are completed in order, once each; exactly the process concerned wakes, with a valid clean buffer, and the next request starts |
| `Ide.AwakeIsNotQueued` | src/ide.c:150-152 | exactly the processes with a request queued sleep |
| `Ide.CallsAreServedInOrder` | src/ide.c:69-155 | in every run each call of iderw is served once, in the order of the calls, and those not served yet are the queue |
| `Ide.WakesServed` | src/ide.c:109-112 | a process that called iderw goes on only after an interrupt, with its buffer valid, clean and equal to its sector of the memory disk |
| `Ide.AllAreServed` | src/ide.c:69-119 | from every reachable state disk and interrupts alone serve every call, and nobody stays asleep |
| `Ide.IderwReturns` | src/ide.c:126-155 | so a call of iderw made in any reachable state sleeps, and can return |
| `Ide.Queue.Append` | src/ide.c:139-143 | the walk over `qnext` ends and puts the request last |
| `Ide.Queue.Remove` | src/ide.c:96-103 | takes the first request off, if there is one |
| `BufCache.RingWithout` | src/bio.c:127-128 | unlinking a buffer by its two assignments leaves a ring of the others |
| `BufCache.RingFront` | src/bio.c:129-132 | linking it behind the head makes it the first |
| `BufCache.RecycleKeeps` | src/bio.c:79-91 | a clean free buffer may be reused: no value is lost, and no sector gets two buffers |
| `BufCache.HeldChangeKeeps` | src/bio.c:95-115 | whatever its holder does to a held buffer, the others stay coherent |
| `BufCache.Cache.constructor` | src/bio.c:38-56 | binit links all buffers, none of a real device, and is coherent |
| `BufCache.Cache.FindSector` | src/bio.c:68-78 | finds the one buffer of the sector, or there is none |
| `BufCache.Cache.FindClean` | src/bio.c:83-91 | finds the least recently released buffer that is neither busy nor dirty, or there is none |
| `BufCache.Cache.Bget` | src/bio.c:61-93 | returns a free buffer, held from now on; sleeps exactly on a busy one; recycles only the oldest clean one; panics only if none is |
| `BufCache.Cache.Bread` | src/bio.c:96-105 | the buffer holds the value last written to the sector |
| `BufCache.Cache.Bwrite` | src/bio.c:108-115 | disk and last written value become what the buffer holds; panics exactly if it is not held |
| `BufCache.Cache.Pin` | src/log.c:180-180 | a dirty buffer keeps the last written value for the disk |
| `BufCache.Cache.Brelse` | src/bio.c:119-138 | the list stays a permutation of all buffers, with this one first |
| `Fs.AllocatedOwned` | src/fs.c:356-384 | entering a free block where none was keeps ownership exact: no block gets two places |
| `Fs.AllocatedBytes` | src/fs.c:356-384 | and no byte of any file changes |
| `Fs.StoredBytes` | src/fs.c:479-486 | a store into a data block changes exactly those bytes of exactly that file |
| `Fs.DirectFreedOwned` | src/fs.c:398-403 | a direct block is in use and owned by this inode when it is freed, and ownership stays exact |
| `Fs.EntryFreedOwned` | src/fs.c:408-411 | so is each entry of the indirect block |
| `Fs.TableFreedOwned` | src/fs.c:413-414 | and then the indirect block itself |
| `Fs.TruncatedExactly` | src/fs.c:391-419 | an inode emptied so has given up exactly its blocks; other files keep every byte |
| `Fs.WriteIsSplice` | src/fs.c:462-492 | writei's loop and new size are a splice into one flat file, and leave no hole |
| `Fs.WriteLogsMore` | src/fs.c:479-486 | each pass of writei logs at most one data block and the indirect block more |
| `Fs.ChunkFitsLog` | src/file.c:126-145 | a chunk logs at most four data blocks, one indirect block and one inode besides bitmap sectors; with up to three of those the log is not full |
| `Fs.FewBitmapSectors` | src/file.c:121-126 | on a disk of up to 12288 blocks no transaction logs more than three bitmap sectors |
| `Fs.FirstFree` | src/fs.c:60-73 | the first free block is below the log exactly if one is free there |
| `Fs.LackLess` | src/fs.c:356-384 | a block given to a file, and its indirect block, are what it lacks less |
| `Fs.RoomTaken` | src/fs.c:52-76 | a block handed out is below the log as long as one is free there; otherwise it is in the log area, and a log_write goes there |
| `Fs.JobGoesOn` | src/file.c:134-152 | one more transaction of filewrite keeps the splice, the ledger, the count of blocks and the chunks on disk |
| `Fs.SplicedTwice` | src/file.c:134-152 | two splices end to end are one |
| `Fs.JournalsBit` | src/fs.c:64-67 | a bit changed and its bitmap sector logged: the calls so far still lead from the old disk to what is to be on disk |
| `Fs.JournalsBlock` | src/fs.c:482-483 | so for a block |
| `Fs.JournalsInode` | src/fs.c:207-215 | so for an inode, which shares its sector with others |
| `Fs.TalliedMore` | src/log.c:164-179 | one more log_write counts its sector once, and panics exactly as the log does |
| `FsCrash.LoggedNames` | src/log.c:169-179 | after each log_write the header names exactly the sectors logged, each once |
| `FsCrash.TalliedIsLoggable` | src/log.c:164-165 | calls that tally without the panic never meet it in a log of full size |
| `FsCrash.BelowIsHome` | src/log.c:62-63 | with the log at the end of the disk, calls go home exactly if they go below it |
| `FsCrash.TransactionIsAtomic` | src/file.c:139-144 | crash atomicity through both layers: a crash at any sector write of a transaction, and any crashed recoveries, leave the old home sectors or the new ones; uncrashed, it leaves an idle log and the new ones |
| `FsCrash.LedgerIsChained` | src/file.c:134-151 | each transaction filewrite commits logs all it changes, and starts where the one before ended |
| `FsCrash.RunRests` | src/file.c:134-151 | run one after the other through the log, each finds on disk what the one before left |
| `FsCrash.RunIsAtomic` | src/file.c:134-151 | wherever that run crashes, all transactions before are on disk, none after, and the one it crashed in is there or not |
| `FsCrash.WriteDurably` | src/file.c:116-155 | filewrite with enough free blocks below the log neither panics nor makes the log panic; after a crash at any sector write and any crashed recoveries the file is its old contents with a whole number of chunks written; uncrashed, the next write finds log, disk and file as this one did |
| `FsCrash.WriteAstray` | src/fs.c:61-73 | the input where it is not so: with all blocks below the log in use, one byte for an empty file is written by a transaction with a log_write into the log |
| `FsCrash.HomeTellsAll` | src/mkfs.c:85-100 | if packing loses nothing, home sectors determine bitmap, inodes and blocks below the log |
| `FsCrash.HomeTellsFile` | src/mkfs.c:85-100 | and so the contents of every file that keeps out of the log |
| `Fs.NewDiskIsOwned` | src/mkfs.c:89-101 | a disk without files has ownership exact, its blocks in use being the reserved ones |
| `Fs.FileSystem.constructor` | src/log.c:54-66 | from any disk with exact ownership, log recovered, the file system starts valid, with nothing to log |
| `Fs.FileSystem.Iupdate` | src/fs.c:201-217 | the inode on disk becomes the one in memory, and is logged |
| `Fs.FileSystem.Balloc` | src/fs.c:52-76 | the first free block, marked and zeroed; the panic exactly when all are in use |
| `Fs.FileSystem.Bmap` | src/fs.c:356-384 | the block of that place, changing no file; takes exactly the free blocks that were lacking, and panics only if there are too few |
| `Fs.FileSystem.Writei` | src/fs.c:462-492 | fails exactly past the end, on wrap-around or past the largest file, changing nothing; else, unless the disk is full, a splice of this file alone, keeping ownership, no holes and the inode on disk, with every change logged; takes exactly the free blocks that the file lacked, and panics only if there are too few |
| `Fs.FileSystem.Filewrite` | src/file.c:116-155 | panics exactly if fewer blocks are free than it takes; fails exactly as stated, after whole chunks that add up to one splice; every transaction logs all it changes, meets the log's panic only if it allocated from more than three bitmap sectors, and leaves one chunk more on disk; all log_writes go below the log exactly if that many blocks are free there |
| `Fs.FileSystem.Readi` | src/fs.c:434-458 | returns the slice of the flat file, clipped at its end; without holes nothing changes |
| `Fs.FileSystem.Bfree` | src/fs.c:79-95 | panics exactly on a free block |
| `Fs.FileSystem.Itrunc` | src/fs.c:391-419 | frees exactly the blocks of this inode, never meets bfree's panic, changes no other file, and logs every change |
| `DirTree.UniquePut` | src/fs.c:532-559 | a name entered where it was missing keeps names unique |
| `DirTree.CountChanges` | src/sysfile.c:116-277 | what a change of one directory does to the count of links to any inode |
| `DirTree.EmptyTree` | src/mkfs.c:107-118 | a new disk is a tree |
| `DirTree.CreateKeeps` | src/sysfile.c:234-277 | create in a linked directory keeps link counts and tree shape |
| `DirTree.CreateKeepsTreeIff` | src/sysfile.c:234-277 | create keeps them if and only if the directory is still linked and its count does not overflow; else no tree has these inodes |
| `DirTree.CreateAfterRmdir` | src/sysfile.c:234-277 | mkdir, rmdir of the still open directory, create in it: no tree has these inodes |
| `DirTree.LinkKeeps` | src/sysfile.c:115-160 | link in a linked directory keeps link counts and tree shape |
| `DirTree.LinkKeepsTreeIff` | src/sysfile.c:115-160 | link keeps them if and only if the directory is still linked and the file's count does not overflow |
| `DirTree.LinkAfterRmdir` | src/sysfile.c:115-160 | so with link in place of create |
| `DirTree.HasDots` | src/sysfile.c:263-272 | a directory has "." and ".." first, for as long as it is one, so create and link refuse them |
| `DirTree.UnlinkKeeps` | src/sysfile.c:179-232 | unlink keeps them; a directory that goes takes its ".." with it |
| `DirTree.NamedIsLinked` | src/sysfile.c:204-205 | what an entry names has a link, so unlink's panic is never met |
| `DirTree.ReclaimKeeps` | src/fs.c:317-336 | freeing an unlinked inode keeps the tree |
| `DirTree.LinkedDirs` | src/sysfile.c:115-277 | a directory is linked exactly if its count is positive |
| `DirTree.DotDotIsParent` | src/sysfile.c:263-272 | ".." of a linked directory names the one linked directory that has an entry for it, one level up |
| `DirTree.PutFinds` | src/fs.c:532-559 | an entry in use is found under its name, and every other name finds what it did |
| `DirTree.ClearedFinds` | src/sysfile.c:208-210 | a cleared entry is not found any more, and every other name finds what it did |
| `DirTree.CreatedCreates` | src/sysfile.c:251-277 | the new inode has the kind asked for, one link, and dots if it is a directory; its name finds it in the directory; every other name and inode is as before |
| `DirTree.DirFs.Dirlookup` | src/fs.c:505-529 | the inode of the first entry in use under the name; 0 exactly if there is none |
| `DirTree.DirFs.Dirlink` | src/fs.c:532-559 | refuses a name that is there; else uses the first free entry, growing the directory only if there is none |
| `DirTree.DirFs.IsDirEmpty` | src/sysfile.c:163-176 | whether anything but "." and ".." is there |
| `DirTree.DirFs.Ialloc` | src/fs.c:175-198 | the first free inode; none exactly if all are in use |
| `DirTree.DirFs.Create` | src/sysfile.c:234-277 | finds an existing file of kind T_FILE, refuses any other that exists, or makes an inode of the kind asked for that its name then finds, all other names and inodes as before; keeps the tree where that is possible; panics only on a full disk or directory |
| `DirTree.DirFs.CreateTwice` | src/sysfile.c:244-249 | create of a file under the same name again finds the inode that the first has made or found |
| `DirTree.DirFs.Link` | src/sysfile.c:115-160 | succeeds exactly for a file and a new name, which then finds the file, one link up; else changes nothing; keeps the tree where that is possible |
| `DirTree.DirFs.Unlink` | src/sysfile.c:179-232 | succeeds exactly for an entry that may go, whose name then finds nothing, all others what they did, one link down; never panics; always keeps the tree |
| `Path.SlashesDoNotCount` | src/fs.c:580-583 | leading slashes change nothing of what a path names |
| `Path.Skipelem` | src/fs.c:576-599 | takes off exactly the first element, of at most 14 characters, with the slashes around it; says there is none exactly if only slashes are left |
| `Path.Namex` | src/fs.c:604-637 | walks from the root if the path starts with a slash, else from the current directory, and finds what the elements of the path name, or the directory and name of the last one |
| `Path.ResolveInSteps` | src/fs.c:604-637 | a path is walked element by element: first a part, then the rest from there |
| `Path.ParentThenLookup` | src/fs.c:639-650 | nameiparent and a lookup of the last element find what namei finds |
| `Path.WalkResolves` | src/fs.c:604-637 | a chain of directories, each with an entry for the next element, leads to what namei finds |
| `Path.ResolveWalks` | src/fs.c:604-637 | and whatever namei finds has such a chain |
| `Path.ParentIsBeforeLast` | src/fs.c:618-622 | nameiparent finds exactly the directory that the path without its last element names |
| `Path.DotsResolve` | src/fs.c:604-637 | in a tree "." stays, and ".." goes to the parent, or stays at the root |
| `Stride.SizeStepIsInverse` | src/proc.c:76-88 | more tickets never give a longer stride, and between the clamps it is the largest that fits into 10000 divided by them |
| `Stride.Scan` | src/proc.c:318-326 | the loop picks what the specification picks |
| `Stride.LeastIsBest` | src/proc.c:318-326 | which is the first runnable process with the least step, if that is below the cutoff, and otherwise none |
| `Stride.Table.Pass` | src/proc.c:317-346 | one pass of scheduler picks a runnable process of least step below the cutoff, adds its stride to its step and one to its runs, and changes nothing else; it picks nobody exactly if there is none |
| `Stride.Table.Allot` | src/proc.c:76-88 | a new process starts at step 0 with the stride for its tickets |
| `Stride.LifetimeIsBounded` | src/proc.c:313-346 | in every run of dispatches, blocking, waking and new processes every step is its stride times its dispatches and at most 5000199 |
| `Stride.DispatchesInLife` | src/proc.c:313-346 | a process is dispatched at most as often as its stride goes into the cutoff, and then never again |
| `Stride.DispatchKeepsLevel` | src/proc.c:313-346 | with all processes runnable, nobody gets ahead of anybody by more than its own stride |
| `Stride.WindowIsFair` | src/proc.c:313-346 | so over any window what two processes got, in strides, differs by at most the sum of their strides |
| `Stride.DispatchProgresses` | src/proc.c:313-346 | a pass dispatches one process if somebody is runnable below the cutoff, and else none |
| `Stride.PassesProgress` | src/proc.c:313-346 | so over k such passes the dispatches grow by exactly k |
| `Stride.NobodyStarves` | src/proc.c:313-346 | with n processes runnable, each is dispatched in any 21(n - 1) + 1 passes that dispatch anybody |
| `Stride.NewcomerCatchesUp` | src/proc.c:76-88 | a new process gets every pass until its step has reached the least of the others, or the cutoff |
| `Locks.StepKeeps` | src/spinlock.c:24-116 | every step of every CPU keeps lock owners, nesting depth, interrupt flags and process states in step |
| `Locks.RunKeeps` | src/proc.c:270-437 | so they are after every interleaving from boot |
| `Locks.OneCpuEach` | src/proc.c:329-346 | no two CPUs execute the same process, not even one on its way out |
| `Locks.SchedPassesIff` | src/proc.c:354-370 | sched passes its checks exactly if ptable.lock is the one lock held |
| `Locks.SwitchHandsLockOver` | src/proc.c:313-370 | swtch, either way, is made with ptable.lock the only lock held, nested once and interrupts off, and whoever goes on can release that lock and no other |
| `Locks.ReapedIsOffCpu` | src/proc.c:226-250 | wait frees a stack only when no CPU is on it |
| `Locks.PopNeverPanics` | src/spinlock.c:107-116 | whoever holds a lock can release it without popcli's panics |
| `Locks.ProcessGetsFlagBack` | src/spinlock.c:96-116 | the outermost popcli of a process restores its interrupt flag, across any switches in between |
| `Locks.SchedulerGetsProcessFlag` | src/proc.c:354-370 | the scheduler gets the flag of the process that left: its own exactly if that is to have interrupts on |
| `Locks.PassRuns` | src/proc.c:317-346 | a pass of the scheduler starts any runnable process, with its own interrupt flag, and gives ptable.lock up |
| `Locks.ProcessLeaves` | src/proc.c:373-379 | a process that yields, sleeps or exits leaves its CPU to the scheduler, which gives ptable.lock up, and keeps its flag |
| `Locks.WakeUnderPtable` | src/proc.c:453-459 | a wakeup by anybody makes a sleeper runnable, and changes no other process |
| `Locks.ReapUnderPtable` | src/proc.c:226-250 | so does wait with a zombie that it frees |
| `Locks.InterruptReturns` | src/trap.c:37-111 | an interrupt handler starts with interrupts off and gives the CPU back as it was |
| `Locks.FlagAndFork` | src/x86.h:108-118 | cli and sti outside of all locks set the flag, and the child fork makes can be run |
| `SleepWakeup.RunKeeps` | src/sleep1.p:97-133 | for any number of threads and any interleaving: one holder a lock, and who sleeps while there is something to consume is owed a wakeup |
| `SleepWakeup.StepKeeps` | src/proc.c:404-450 | single lock operations of sleep and wakeup keep that |
| `SleepWakeup.WakesBeforeOrAfter` | src/proc.c:453-459 | a wakeup is made holding the lock or after releasing it, as the producer chooses |
| `SleepWakeup.NothingIsLost` | src/sleep1.p:97-133 | in every run what was put in is what was taken out and what is there |
| `SleepWakeup.NobodyLeftBehind` | src/proc.c:404-450 | no wakeup is lost, and a wakeup leaves nobody asleep |
| `SleepWakeup.SomebodyMoves` | src/proc.c:404-437 | the two locks of sleep do not deadlock |
| `Family.ExitKeeps` | src/proc.c:203-221 | exit leaves no child without a live parent and no parent asleep beside a zombie |
| `Family.SleepKeepsIff` | src/proc.c:254-263 | going to sleep in wait is safe exactly if no child is a zombie |
| `Family.StepKeeps` | src/proc.c:146-265 | every critical section, and every step of a fork in progress, keeps that |
| `Family.RunKeeps` | src/proc.c:96-265 | so it holds in every run from the first process on, and no two processes ever have the same pid |
| `Family.OnlyParentReaps` | src/proc.c:226-265 | an exited child stays a zombie until its parent of the moment reaps it, once |
| `Family.StepKeepsPids` | src/proc.c:36-52 | every step keeps pids of processes positive and distinct |
| `Family.KillHitsOne` | src/proc.c:465-482 | so kill of a process marks that one, wakes it if it sleeps, and changes no other |
| `Family.StepKeepsUnmarkedIff` | src/proc.c:465-482 | no unused entry is marked killed, unless kill is given the pid of one, or a fork gives up a child that was killed |
| `Family.KilledAtBirth` | src/proc.c:36-52 | kill(0), and the process then made in the first unused entry is killed from birth |
| `Family.ForkMakesChild` | src/proc.c:147-179 | with an entry and memory the steps of fork make one runnable child of the caller, and change nothing else |
| `Family.FailedForkLeaves` | src/proc.c:157-162 | without memory they leave the entry unused |
| `Family.SleepsUntilWoken` | src/proc.c:405-459 | a process asleep runs again after a wakeup of its channel and of no other |
| `Family.ProcTable.Wakeup1` | src/proc.c:441-450 | wakes exactly the sleepers on the channel; nobody sleeps on it then |
| `Family.ProcTable.PassChildren` | src/proc.c:209-216 | all children and only they are init's, which is woken if one is a zombie |
| `Family.ProcTable.ExitLocked` | src/proc.c:203-221 | the table becomes the specified one, and keeps the invariant |
| `Family.ProcTable.WaitOnce` | src/proc.c:226-265 | reaps exactly if there is a zombie child, leaving its entry unused, without pid, parent and mark, and answers its pid; fails exactly if there is no child or it was killed; else sleeps |
| `Family.ProcTable.Kill` | src/proc.c:465-482 | marks the first entry of that pid, and wakes it if it sleeps; fails exactly if there is none, changing nothing |
| `Pipe.Counters` | src/pipe.c:77-120 | the wrapping counters tell empty from full, and find the slot, whatever the byte count |
| `Pipe.StoreKeepsRing` | src/pipe.c:92-92 | a byte stored overwrites none in flight |
| `Pipe.Pipe.Write` | src/pipe.c:77-97 | stores the next bytes that fit, in order; sleeps, fails or returns exactly as stated; keeps the sleepers' invariant except in one exactly described case |
| `Pipe.StrandReader` | src/pipe.c:77-97 | that case: after a read that sleeps and a killed write of 513 bytes a reader is asleep beside a full pipe |
| `Pipe.Pipe.Read` | src/pipe.c:99-120 | gets the next bytes in order, as many as there are; sleeps only on an empty pipe with a writer |
| `Pipe.Pipe.Close` | src/pipe.c:58-74 | wakes the other side, and frees the pipe exactly when both ends are closed |
| `Pipe.Pipe.NotBothAsleep` | src/pipe.c:77-120 | a reader and a writer are never both asleep |
| `Vm.PageAddedKeeps` | src/vm.c:70-90 | mapping a page in a frame nobody has changes that page and no other |
| `Vm.PageRemovedKeeps` | src/vm.c:263-270 | unmapping one frees a frame that was in use, and changes no other page |
| `Vm.FreedFurther` | src/vm.c:257-271 | each pass, by a page or past a missing table, frees just the pages it does not miss |
| `Vm.FreedExactlyIff` | src/vm.c:249-273 | deallocuvm frees exactly its range if and only if no page is mapped, below the index it started at, in the first table after a missing one |
| `Vm.ApartPageIsMissed` | src/vm.c:257-260 | a space of which deallocuvm leaves a page in the range |
| `Vm.StopsForTable` | src/vm.c:321-329 | where copyuvm runs out of frames it is a page table it wants exactly if one frame more is left than a multiple of 1025 |
| `Vm.OneFrameIsLost` | src/vm.c:321-329 | with one frame after setupkvm, copyuvm of any space that is not empty loses it |
| `Vm.GrownElsewhere` | src/vm.c:309-337 | what grows from free frames leaves every address space as it was |
| `Vm.KernelTablesAreIn` | src/vm.c:138-142 | the kernel part of such a space is exactly the tables given, each with its very entries |
| `Vm.Memory.Kalloc` | src/kalloc.c:82-95 | takes one frame off the list; fails only if there is none |
| `Vm.Memory.Kfree` | src/kalloc.c:59-77 | puts one frame on the list, which stays without duplicates |
| `Vm.Memory.Deallocuvm` | src/vm.c:249-273 | frees the pages of its range, each once, except exactly those it misses after missing tables; exactly the range if and only if none of those is mapped |
| `Vm.Memory.Freevm` | src/vm.c:277-292 | frees exactly the pages, page tables and directory of the space, each once, and touches no other frame |
| `Vm.Memory.Setupkvm` | src/vm.c:128-144 | a space without user pages and with exactly the kernel's tables, in frames that were free; fails exactly if there are fewer than one and the kernel's tables, and then none is left |
| `Vm.Memory.MapPage` | src/vm.c:45-90 | maps exactly one page, adding a page table if need be; fails only without memory, changing nothing |
| `Vm.Memory.Copyuvm` | src/vm.c:309-337 | succeeds exactly if there are frames for directory, kernel tables, pages and their tables; then the kernel's tables, and same bytes and flags at every address below the size, in frames that were free; if not, one frame is lost exactly if a page table could not be had, and all if setupkvm failed; the parent is unchanged either way |
| `Vm.Memory.Allocuvm` | src/vm.c:220-243 | zeroed pages in the whole range if there are frames for them, else all pages as before, the kernel part as it was; returns success without the last page, its frame lost, exactly if only the table for that page could not be had |
| `UMalloc.BlocksAreDisjoint` | src/umalloc.c:9-22 | no two blocks overlap, free or live |
| `UMalloc.MergeKeeps` | src/umalloc.c:33-42 | joining touching neighbours keeps the cycle, the order and the partition |
| `UMalloc.FreeKeeps` | src/umalloc.c:24-44 | free keeps the list one address-ordered cycle with no two members touching |
| `UMalloc.FreeFreesOne` | src/umalloc.c:24-44 | free gives back its block and no other; no unit is gained or lost |
| `UMalloc.SearchStep` | src/umalloc.c:29-31 | the search stops exactly at the block's place, and gets nearer until then |
| `UMalloc.UnlinkKeeps` | src/umalloc.c:76-77 | an exact fit leaves the list whole |
| `UMalloc.CarveKeeps` | src/umalloc.c:78-82 | cutting a block from the end of a member keeps list and partition |
| `UMalloc.GrowKeeps` | src/umalloc.c:46-61 | units from sbrk join as a block that touches no live one |
| `UMalloc.WalkStep` | src/umalloc.c:74-89 | the walk gets nearer its start, and back there nothing fits |
| `UMalloc.UnitsHoldBytes` | src/umalloc.c:69-69 | a block holds the bytes asked for, with no unit to spare, exactly if the sum does not wrap |
| `UMalloc.AskedIsExact` | src/umalloc.c:52-54 | sbrk is asked for the right number of bytes exactly if the product does not wrap |
| `UMalloc.Allocator.FindSlot` | src/umalloc.c:29-31 | the search of free ends, at the topmost member below the block |
| `UMalloc.Allocator.Free` | src/umalloc.c:24-44 | the heap stays well formed; exactly that block is no longer live |
| `UMalloc.Allocator.MoreCore` | src/umalloc.c:46-61 | adds what sbrk gave as a free block of at least that size, or nothing |
| `UMalloc.Allocator.Malloc` | src/umalloc.c:63-90 | returns a block of exactly the units wanted, disjoint from all live ones; asks sbrk exactly if nothing fits; fails exactly if sbrk does |
| `Shell.Parser.GetToken` | src/sh.c:266-309 | takes exactly the next token off the line |
| `Shell.Parser.Peek` | src/sh.c:311-321 | says whether the next token is one of these, taking none |
| `Shell.Parser.ParseRedirs` | src/sh.c:375-398 | ends, and does what the grammar says of redirections |
| `Shell.Parser.ParseLine` | src/sh.c:345-360 | ends on every input, and does what the grammar says, panics included |
| `Shell.Parser.ParsePipe` | src/sh.c:362-373 | likewise for a pipeline |
| `Shell.Parser.ParseBlock` | src/sh.c:400-414 | likewise for a parenthesised line; its first panic is never met |
| `Shell.Parser.ParseExec` | src/sh.c:416-447 | likewise for a command |
| `Shell.LineRead` | src/sh.c:345-447 | the parser accepts every line the grammar derives, and builds its tree: redirections before, between and after the words, pipelines, lists, background, blocks |
| `Shell.LineDerives` | src/sh.c:345-447 | and whatever it accepts the grammar derives, with that tree |
| `Shell.ParserIsGrammar` | src/sh.c:328-447 | so it accepts a line exactly if the grammar derives it, and gives that tree; it panics exactly if not |
| `Shell.LineIsParsed` | src/sh.c:266-447 | a line of the grammar written with any white space between its tokens is parsed to its tree |
| `Shell.LineIsRendered` | src/sh.c:266-309 | every line is its tokens, written with some white space between them |
| `Shell.PrintRead` | src/sh.c:345-447 | the tokens of a tree, with parentheses only where it needs them, are read back as that tree |
| `Shell.FlatHasNone` | src/sh.c:345-414 | a tree of plain commands joined by `|`, `;` and `&` is printed without any |
| `Shell.RenderScanned` | src/sh.c:266-309 | tokens written out with any white space, none where none is needed, are scanned back |
| `Shell.RoundTrip` | src/sh.c:328-447 | parsing the printed form of a tree of ordinary words, at most nine a command, with whatever white space, gives the tree; a tree that needs no parentheses is printed without |
| `Shell.NulTerminate` | src/sh.c:450-494 | every word of the tree ends in NUL, and no word loses a character |
| `Shell.TerminatedWordIsText` | src/sh.c:450-494 | so each argument, as a C string, is the word on the line |
| `Shell.ParseCmd` | src/sh.c:328-343 | panics exactly if the grammar does not derive the line; else gives its tree, with every word terminated in place |
| `Grep.OneMatches` | src/grep.c:91-92 | a character, or "." for any, matches by the first character of the text |
| `Grep.StarMatches` | src/grep.c:97-105 | a starred character matches by some number of repetitions |
| `Grep.MatchHere` | src/grep.c:83-95 | ends, and says whether the pattern matches at the start of the text |
| `Grep.MatchStar` | src/grep.c:97-105 | ends, and says whether some repetition can be followed by the rest |
| `Grep.Match` | src/grep.c:71-81 | whether the pattern matches somewhere in the text, or with "^" at its start |
| `Grep.ParseWritten` | src/grep.c:71-105 | a pattern of literals, dots, stars and anchors, written as a string, is read back as that pattern |
| `Grep.WrittenParse` | src/grep.c:71-105 | and every string is such a pattern written down: a final `$`, a `*` after a character and a literal `*` mean what they do |

## Left out

- How bits and inodes are packed into a sector: two functions of `Fs.Format` stand for it, and
  a sector is the image of the bits or inodes it has room for; that no bit is lost is a
  hypothesis (`Packs`) of what home sectors tell. Indirect blocks and file data
  do share one representation, words and bytes of the same block.
- Device inodes, `iget`, `ilock` and reference counts of inodes: `ReclaimKeeps` covers iput's
  freeing of an inode, `Namex` no locks.
- Directories as bytes of a file, growing one through writei, and their transactions on the
  log: `DirTree` has them as lists of entries, `FsCrash` joins filewrite to the log.
- Disk errors, and disks of more than 2^28 sectors, of whose numbers the controller is sent
  28 bits (`Ide` assumes a smaller disk).
- Waiting in bget, begin_trans, wait and the pipe: the method is one pass and says that it
  sleeps; the pass after a wakeup starts anew.
- Promptness of kill; that a process gets to run is stated of the scheduler's passes
  (`Stride`), not of processes that block.
- How setupkvm builds the kernel's page tables from its list of mappings: they are a parameter of
  `Vm`; page table entries are frame and flags, not bit fields.
- loaduvm, inituvm, copyout, exec.
- Weak memory ordering; device drivers, traps, boot code, console, other user programs; the
  round-robin branch of scheduler, switched off by a constant; grep's read loop.
- The command nodes of the shell as heap objects: a tree is a value, with words as positions
  in the line; file modes and descriptors of redirections are left out.
- Log.TransLog.BeginTrans: one pass of its loop; that a sleeper is woken is not stated.
- FsCrash.WriteDurably: for disks of at most three bitmap sectors, where filewrite is meant
  to fit the log.
- Vm.Memory.Allocuvm: for a range without pages; mappages panics on others.
- UMalloc.Allocator.Malloc: memory is not modelled after a request to sbrk whose size wraps
  (`WrappedRequest`).
- BufCache.Cache.Brelse: for a client that has written or pinned what it changed.
- Locks.PopNeverPanics: acquiring a lock already held and releasing one not held, the
  panics of acquire and release, are excluded by the steps of the model.
