# A verified model of the xv6 kernel and its core user programs

This project models, in Dafny, the storage stack of xv6 as found in `Xv6-Threads/src` (the tree with
lottery scheduling and kernel threads), its memory allocators, its process table and locks, and two
user programs that parse a language. It proves what these parts promise.

| layer | modules |
|---|---|
| disk, buffer cache, write-ahead log | `Blocks`, `BufferCache`, `LogImages`, `Reservation`, `Commit`, `LogEvents`, `Log`, `FullLog`, `Durable` |
| blocks and files of the disk image | `ByteView`, `FsImage`, `FileSys`, `OpenFile`, `Inodes`, `Mkfs`, `NewDisk`, `TransactionSize`, `Disks` |
| names, directories, link counts | `Names`, `Directory`, `Paths`, `Links`, `Sysfile`, `Consistency` |
| allocators and address spaces | `Umalloc`, `PageTables`, `Vm` |
| processes and synchronisation | `ProcState`, `ProcTable`, `Abandoned`, `Lottery`, `SleepLock`, `Pipe` |
| languages | `Grep`, `ShellGrammar`, `ShellCommand`, `ShellText`, `Shell` |
| facts about finite sets | `Sets` |

Code that updates state step by step is a class with the same fields, or a method with the same
loops; each method is proved against functions and predicates on values, and the main theorems are
about those. Protocols are state machines over their atomic steps, and their theorems hold for every
run. Block numbers, counters and addresses are unbounded numbers except where the code wraps at
2^32; there the wrap is written out. A panic is an outcome, and the contracts say when it happens.

Main results:

- **Every run of the storage stack** (`Log.Log.Run`): any processes call begin_op, bget, lock, store,
  log_write, the two parts of brelse and end_op in any order, and readers go on while a commit is
  under way, which is cut into turns at its own calls into the cache. Each event does to the fields of
  log, the buffers and the disk what its operation does (`LogEvents.Tells`), so a run is a sequence of
  states that follow from each other. In every state reached the cache agrees with the disk and only
  logged blocks are pinned (`Log.Log.CacheAgrees`).
- **Crash atomicity** of every such run (`LogImages.CrashAnywhere`, `Log.Log.Crash`), also for the
  file system that the image holds (`Durable.RecoveredFileSystem`).
- **The buffer cache never lies** (`BufferCache.GotKeepsView` and the contracts of `Cache`): dirty
  blocks are pinned, the ring is a permutation of the buffers, each block has one buffer.
- **Block conservation and byte-sequence files** (`FileSys.Writei`, `Inodes.FreedExactly`,
  `Mkfs.Image.Build`), and the **transaction bound** of ten blocks (`OpenFile.TransactionBound` for
  writes; the contracts of `Sysfile.Create` and `Link`; `TransactionSize` for unlink and itrunc).
  Whatever an operation changes on the disk it logs (`FileSys.Covers`, in the contracts from
  `FileSys.Balloc` up to `Sysfile.Create`), down to the sectors (`NewDisk.SectorsCovered`).
- **A new disk**: the sectors that `mkfs` writes hold the file system that it has built, read as the
  kernel reads them, beginning with the superblock (`NewDisk.MakeDisk`, `NewDisk.FirstBoot`).
- **Link counts and the shape of the tree** over every run (`Links.RunKeeps`), for the real system
  calls on bytes (`Sysfile`), which gives rules 2 to 12 of the repository's own file-system checker
  (`Consistency`), rule 4 for directories that have a link.
- **Heap**: free and live blocks partition all memory obtained (`Umalloc.Heap`).
- **Pages**: each is free once or owned once, through failure paths too (`Vm.Kmem`).
- **Processes**: every interleaving (`ProcState.RunKeepsInv`); a killed process is awake and does not
  sleep in wait or join again (`ProcState.KilledGetsOut`); **fair lottery** (`Lottery.Fairness`);
  **no lost wakeup** (`SleepLock.NoLostWakeup`).
- **Pipes** are FIFO across counter wrap-around, and nobody sleeps in vain but in one exact case
  (`Pipe.Pipe`).
- The **regular-expression matcher** decides its language (`Grep.Match`), and the **shell parser**
  accepts exactly its grammar (`ShellGrammar.ParserExact`), and builds a tree that stands in the text
  node by node: each at its symbol, between its parts (`ShellText.CommandStands`, `Shell.Parser.Parsecmd`).

Where the code does not do what one would hope, the exact condition is proved, and a lemma gives an
input:

- `mkfs` rounds the size of the root up even when it is a multiple of the block size; the root is
  then a file with a hole. `Mkfs.RootRounded`: it is well formed if and only if its entries do not
  fill their last block. `Mkfs.ThirtyFiles` builds an image where they do.
- `mkfs` writes one block of the free map. `Mkfs.Image.Build`: it succeeds if and only if everything
  fits and fewer than 4096 blocks are used. `Mkfs.FullMap`: 31 files of 140 blocks fit, but abort it.
- `malloc` computes its size in 32 bits. `Umalloc.EnoughRoom`: there is room for the request if and
  only if `nbytes + 7` does not wrap. `Umalloc.WrappedRequest`: 0xfffffff9 bytes are taken for none.
- `log_write` panics when the log holds LOGSIZE or `log.size - 1` blocks, even when the write would be
  absorbed (`Log.Log.LogWrite`), although `begin_op` admits reservations up to LOGSIZE. For calls that
  keep to their reservations: a block new to the log is never refused if and only if the log has more
  than LOGSIZE blocks (`Reservation.RoomForNew`; `mkfs` gives it LOGSIZE), and one that is in the log
  is not refused if and only if the log holds less than both bounds (`Reservation.RoomForAbsorbed`).
  `FullLog.NewRefused` and `FullLog.AbsorbedRefused` are runs from boot that end in the two panics,
  the second for a log of any size from two blocks on.
- `itrunc` logs one bitmap block for each that its blocks lie in. `TransactionSize.TruncationThreshold`:
  it keeps to MAXOPBLOCKS on all images of n blocks if and only if n is at most 9 * 4096, and
  `TransactionSize.UnlinkThreshold`: unlink with its `iput` does if and only if n is at most 7 * 4096.
  Beyond, `Disks.Wide` is a consistent image on which they do not (`TransactionSize.WideTruncates`,
  `TransactionSize.WideUnlinks`).
- `filewrite` returns -1 for a write that it cannot finish, but the chunks before are stored and the
  offset has moved (`OpenFile.File.Write`, with the exact number of bytes `Accepted`;
  `OpenFile.PartlyAccepted` is such a write).
- Rule 9 of the file-system checker (an inode in use is named by some directory) holds of an inode if
  and only if its link count is not 0 (`Consistency.LinksAreEntries`): a file that is unlinked while
  open breaks it until its last `iput` (`Consistency.UnlinkedOpen`; `Links.UnlinkedOpen` reaches
  such a state).
- A killed writer leaves a full pipe without waking readers. `Pipe.Pipe.Write`: a call made when
  nobody sleeps in vain ends so if and only if it is not the case that a reader sleeps, the writer
  has been killed, and more than 512 bytes are left to write. `Pipe.FillAndGiveUp` makes such a
  call.
- `exit` hands its ZOMBIE threads to `init`, which only waits. `ProcState.StaysLeft`: such a thread
  is collected if and only if `init` joins; `ProcState.NeverCollected`: so it keeps its slot in every
  run where `init` does not. `Abandoned.ThreadLeft` is a run from boot that gets there.
- `brelse` keeps the cache coherent if and only if what the caller changed has gone to the log or the
  disk before (`BufferCache.Cache.Brelse`); `BufferCache.ReleaseUnlogged` makes a call where it has not.
- Path lookup panics if and only if it comes through an inode that is not in use (`Paths.Namex`), which
  needs a current directory that has been removed (`Paths.NamedReaches`). `Disks.LostBelow` is such a
  lookup, of "../x", on a disk reached by `Links.OrphanRun`. An absolute path is followed from inode 1
  whoever asks; `Disks.RootAndHere` is one that would lead elsewhere from the current directory.

`dafny verify dfyconfig.toml` checks everything.

## Model

| member | source | states |
|---|---|---|
| BufferCache.Cache.constructor | Xv6-Threads/src/bio.c:39-56 | binit links every buffer into the ring; the cache starts empty, clean and coherent with the disk |
| BufferCache.Cache.LinkAll | Xv6-Threads/src/bio.c:45-55 | the loop of binit: afterwards the prev/next ring is one cycle through the head and all NBUF buffers |
| BufferCache.Cache.AddFront | Xv6-Threads/src/bio.c:49-54 | the four pointer stores put one buffer just after the head and touch nothing but links |
| BufferCache.Cache.FindCached | Xv6-Threads/src/bio.c:68-76 | the first walk finds a buffer for (dev, blockno) if and only if there is one |
| BufferCache.Cache.FindUnused | Xv6-Threads/src/bio.c:78-91 | the backward walk finds the least recently used buffer that is neither referenced nor dirty, and fails only when there is none |
| BufferCache.Cache.Bget | Xv6-Threads/src/bio.c:62-93 | references the buffer that holds the block, or recycles the oldest reusable one, for which the process then waits; panics if and only if neither exists; no logged write is lost, and what readers see and the dirty set are unchanged |
| BufferCache.Cache.Acquire | Xv6-Threads/src/bio.c:100-105 | gives the process the lock if the buffer is free, and reads the disk block if the buffer is not valid; if it is held, the process goes on waiting and nothing changes; what readers see and the dirty set are unchanged |
| BufferCache.Cache.Bread | Xv6-Threads/src/bio.c:97-106 | bget, lock and read, or, when the lock is held, bget and a wait: the exact new buffer table; the disk, what readers see and the dirty set unchanged |
| BufferCache.Cache.Iderw | Xv6-Threads/src/memide.c:39-60 | panics in exactly the four listed cases; writes a dirty buffer out, otherwise reads the block in |
| BufferCache.Cache.Bwrite | Xv6-Threads/src/bio.c:110-116 | panics unless the caller holds the lock; writes exactly this block, which becomes clean, and what readers see stays |
| BufferCache.Cache.Brelse | Xv6-Threads/src/bio.c:121-141 | both parts of brelse, when nothing comes between: panics unless the caller holds the lock; drops the lock and one reference; the buffer goes to the front of the ring when it was the last one; the cache stays coherent if and only if the buffer's changes, if any, were logged or written before |
| BufferCache.Cache.Unlock | Xv6-Threads/src/bio.c:124-127 | the first part: releasesleep; the process keeps its reference for the time being |
| BufferCache.Cache.Unref | Xv6-Threads/src/bio.c:128-139 | the second part, under bcache.lock: refcnt goes down, and the buffer to the front if that was the last reference; what readers see is unchanged |
| BufferCache.ReleaseUnlogged | Xv6-Threads/src/bio.c:121-141 | an input for the condition: a process changes the buffer it holds and releases it without log_write; the cache is no longer coherent |
| BufferCache.Cache.MoveToFront | Xv6-Threads/src/bio.c:130-137 | the six pointer stores move one buffer to the front and keep the ring a cycle through all buffers |
| BufferCache.Cache.SetData | Xv6-Threads/src/bio.c:8-19 | a store to the data of a locked buffer changes the reader's view of that one block and nothing else |
| BufferCache.Cache.MarkDirty | Xv6-Threads/src/log.c:231 | the dirty flag pins a block without changing what readers see |
| BufferCache.GotKeepsView | Xv6-Threads/src/bio.c:62-93 | whichever buffer bget returns, the table stays coherent (one buffer per block of a device >= 1; a valid, clean, unlocked buffer equals its disk block), every block reads as before and the dirty set is unchanged |
| BufferCache.UnlinkKeepsRing | Xv6-Threads/src/bio.c:130-131 | unlinking any buffer but the head leaves a cycle through all the others, in order |
| BufferCache.PushFrontKeepsRing | Xv6-Threads/src/bio.c:132-136 | relinking puts it first and leaves a cycle, all other positions kept |
| BufferCache.AcquiredKeeps | Xv6-Threads/src/bio.c:97-106 | locking a referenced buffer, with or without the read from disk, keeps coherence, ring and view |
| BufferCache.UpdateKeeps | Xv6-Threads/src/bio.c:110-116 | any change to the data, dirty flag, lock or count of one valid buffer, with the matching change to its own disk block, keeps coherence and changes the view of that one block only |
| BufferCache.ReleasedKeeps | Xv6-Threads/src/bio.c:121-141 | releasing a buffer keeps coherence, view and dirty set if its contents are clean or dirty-marked, and coherence only then |
| BufferCache.UnreferencedKeeps | Xv6-Threads/src/bio.c:129-139 | counting a reference down and relinking changes nothing that readers see |
| BufferCache.LookCached | Xv6-Threads/src/bio.c:68-76 | the block that readers see is that of any valid buffer for it: there cannot be two |
| BufferCache.CleanView | Xv6-Threads/src/bio.c:16-19 | where every buffer is either dirty or equal to its disk block, a block that is not dirty reads as it is on disk |
| BufferCache.UnusedExists | Xv6-Threads/src/bio.c:78-92 | bget cannot run out of buffers while dirty blocks and referenced buffers together are fewer than NBUF |
| BufferCache.CountedUp | Xv6-Threads/src/bio.c:68-72 | bget adds one reference for the process that will wait: a buffer always has one for its holder, one for each process that waits for it, and one for each between the two parts of brelse |
| BufferCache.CountedOver | Xv6-Threads/src/bio.c:100-105 | the process that gets the lock keeps its reference and no longer waits |
| BufferCache.ReadKeeps | Xv6-Threads/src/bio.c:101-104 | reading a block in keeps the cache coherent and shows nothing new |
| BufferCache.UpdateAgrees | Xv6-Threads/src/bio.c:110-116 | a buffer that is written through, or marked for the log, or changed by a process in a transaction leaves all other processes' clean buffers equal to the disk |
| Log.Log.constructor | Xv6-Threads/src/log.c:54-66 | boot from any image with a well-formed log of any size: the disk goes exactly through the images of recovery and ends at the recovered one, which is the first commit point |
| Log.Log.BeginOp | Xv6-Threads/src/log.c:126-141 | admits an operation if and only if no commit runs and its reservation of MAXOPBLOCKS fits in LOGSIZE together with all others |
| Log.Log.Bget | Xv6-Threads/src/bio.c:62-93 | any process, in or out of a transaction, may do its part of bget between any two turns of a commit; the log's invariant, the disk and what readers see are kept |
| Log.Log.Acquire | Xv6-Threads/src/bio.c:97-106 | so it may lock and read the buffer, or sleep while the commit holds it; panics if and only if the block it is to read is not on the disk |
| Log.Log.Release | Xv6-Threads/src/bio.c:121-127 | and release its lock, the first part of brelse |
| Log.Log.Unref | Xv6-Threads/src/bio.c:128-141 | and, at any later moment, give up its reference, the second part |
| Log.Log.Store | Xv6-Threads/src/fs.c:498-505 | a store by a process in a transaction changes what readers see of that one block, and nothing on the disk |
| Log.Log.LogWrite | Xv6-Threads/src/log.c:214-233 | appends the block number or absorbs the write, and pins the buffer; panics if and only if the log holds LOGSIZE or size - 1 blocks, even for an absorbed write; what readers see is unchanged |
| Log.Log.Room | Xv6-Threads/src/log.c:214-233 | in a log of more than LOGSIZE blocks, a call that keeps to its share meets that panic if and only if its block is in the log already and the log is full |
| Log.Log.EndOpStart | Xv6-Threads/src/log.c:146-160 | committing starts exactly when the last outstanding operation ends, and never while one already runs; the reservation of the operation is given back, and nothing else changes |
| Log.Log.Fetch | Xv6-Threads/src/log.c:183-184 | the committing process's own bget of the next log, home or header block, as a turn; which buffers are touched and how, and the place it has come to |
| Log.Log.Take | Xv6-Threads/src/bio.c:100-105 | it then gets that buffer, or sleeps while a reader holds it; the turn can be tried again |
| Log.Log.WriteLogBlock | Xv6-Threads/src/log.c:183-189 | one disk write: the log block becomes what the cache shows of the home block |
| Log.Log.WriteHomeBlock | Xv6-Threads/src/log.c:75-80 | one disk write: the home block becomes what the log on disk holds of it; it is no longer dirty, and in a commit readers see no change |
| Log.Log.Drop | Xv6-Threads/src/log.c:187-188 | the first part of brelse of the buffers of a turn; disk and view unchanged |
| Log.Log.Leave | Xv6-Threads/src/log.c:193-202 | the copying loops end, and log.lh.n = 0 before the header is cleared |
| Log.Log.Start | Xv6-Threads/src/log.c:193-202 | commit does nothing when lh.n = 0; else it sets out from what the cache shows now |
| Log.Log.Turn | Xv6-Threads/src/log.c:146-202 | any one turn of the committing process, whatever the others did before it: at most one disk write, home blocks read as before, one commit point added exactly at the header write |
| Log.Log.Finish | Xv6-Threads/src/log.c:162-173 | afterwards nothing is committing and lh.n = 0 |
| Log.Log.Happen | Xv6-Threads/src/log.c:126-233 | any one event of any process keeps the invariant, and does what its operation does, said of the fields of log, of the buffers and of the disk: admitted if and only if there is room and no commit runs; waiting for a buffer that holds the block; holding it, or waiting still; the data stored; the block in the log, counted if it is new, and its buffer dirty; the lock and then the reference given up; out of the transaction, the last one out setting about the commit; and each turn of commit on to the next, with its one disk write, if any; readers see a change by a store alone |
| Log.Log.Run | Xv6-Threads/src/log.c:126-233 | every sequence of events, begin_op, bget, lock, store, log_write, the two parts of brelse, and end_op by any processes, interleaved with the turns of commit, keeps the invariant and goes through states that follow from each other in that way; an event that cannot happen changes nothing, and a panic is the end |
| LogEvents.FirstWrite | Xv6-Threads/src/log.c:214-233 | so when a process alone enters, gets a block, changes it and logs it, the log is that block, pinned and counted to the process, readers see the data, and the disk is as it was |
| Log.Log.CacheAgrees | Xv6-Threads/src/bio.c:8-19 | in every reachable state: one buffer for each block; a valid clean buffer that no process in a transaction holds equals its disk block; refcnt is the holder, the processes that wait and those inside brelse; outside the body of commit the dirty set is exactly lh.block[0..n) |
| Log.Log.Crash | Xv6-Threads/src/log.c:68-202 | crash after any disk write of any run, then any number of crashes inside recovery: the next recovery leaves exactly the home blocks of the commit point that write had reached, and n = 0 |
| Log.Log.InstallTrans | Xv6-Threads/src/log.c:70-82 | at boot: every logged block goes home, in order, and the loop ends with nothing dirty |
| Log.Log.InstallBlock | Xv6-Threads/src/log.c:75-80 | at boot: one turn of install_trans leaves one more block home and no buffer in use |
| Log.Log.ClearHead | Xv6-Threads/src/log.c:116-122 | at boot: clearing the header completes exactly the images of the redo |
| Log.Log.ReadHead | Xv6-Threads/src/log.c:86-96 | at boot: loads the list of block numbers that the header block on disk holds |
| Log.Log.WriteHead | Xv6-Threads/src/log.c:102-113 | one disk write, while others use the cache: the header block becomes the in-memory list; with a full list it adds the commit point, which is what readers saw when the commit began |
| Log.Log.RecoverFromLog | Xv6-Threads/src/log.c:116-122 | at boot: the sequence of disk images is exactly that of the redo, and ends at the recovered image |
| Commit.LogWritten | Xv6-Threads/src/log.c:183-189 | writing a log block while readers use the cache keeps the plan of the commit; recovery still gives the commit point before |
| Commit.HeadWritten | Xv6-Threads/src/log.c:102-113 | the header write is the commit point: from this very image on, recovery gives what readers saw when the commit began |
| Commit.HomeWritten | Xv6-Threads/src/log.c:75-80 | installing a block changes neither what readers see nor what recovery gives, and unpins exactly this block |
| Commit.HeadCleared | Xv6-Threads/src/log.c:193-202 | after the header is cleared recovery has nothing to do, and gives the same home blocks |
| Commit.CommitEnded | Xv6-Threads/src/log.c:193-202 | at the end the images written are exactly: log blocks, header, home blocks, cleared header; home blocks on the disk are what readers see; nothing is dirty |
| Commit.ExplainsNext | Xv6-Threads/src/log.c:193-202 | one more disk write that recovers to the last commit point, or to a new one, extends the history of all images |
| Commit.HandsKept | Xv6-Threads/src/log.c:178-190 | what other processes do with the cache leaves the buffers that the committing process holds or waits for as they are |
| Commit.ViewOutsideLog | Xv6-Threads/src/log.c:214-233 | with no operation outstanding, what readers see differs from the disk only in the blocks listed in lh: the premise of crash atomicity holds at every commit |
| Commit.PinnedPush | Xv6-Threads/src/log.c:222-232 | after log_write, appended or absorbed, the dirty set is again exactly lh.block[0..n), without duplicates |
| Commit.BufferPinned | Xv6-Threads/src/log.c:214-233 | log_write keeps what holds between commits, and the agreement of cache and disk |
| LogImages.CrashAnywhere | Xv6-Threads/src/log.c:68-202 | crash after any single-block write of any run of boots and commits, then any number of crashes inside recovery: the next completed recovery leaves exactly the home blocks of the commit point that write had reached, and n = 0 in the header |
| LogImages.CommitAtomic | Xv6-Threads/src/log.c:176-202 | from each image inside a commit, recovery yields all home blocks as before while only the log is being written, and all as after from the header write on; never a mix |
| LogImages.RecoverySurvivesCrashes | Xv6-Threads/src/log.c:115-122 | recovery interrupted any number of times, at any block write, ends with the home blocks of an uninterrupted one and an empty log |
| LogImages.RecoveryIdempotent | Xv6-Threads/src/log.c:68-122 | every image inside recovery is one from which recovery gives the same home blocks |
| LogImages.CrashStepKeeps | Xv6-Threads/src/log.c:115-122 | one interrupted recovery keeps the log well formed and the result of recovery |
| LogImages.PartialInstall | Xv6-Threads/src/log.c:70-82 | after any prefix of the install loop, recovery still gives the very same image |
| LogImages.InstallAgain | Xv6-Threads/src/log.c:70-82 | installing again over a partial install is the same as installing once |
| LogImages.InstallAt | Xv6-Threads/src/log.c:70-82 | install gives a home block its last entry in the log, and leaves every other block |
| LogImages.HeadedRecovers | Xv6-Threads/src/log.c:102-113 | once the header is written, recovery gives the new home blocks exactly |
| Durable.SameDecode | Xv6-Threads/src/fs.h:20-40 | the file system that an image holds does not depend on the log area |
| Durable.MkfsLayout | Xv6-Threads/src/mkfs.c:91-103 | the layout that mkfs computes keeps log, inodes, free map and data apart |
| Durable.DinodeBytes | Xv6-Threads/src/fs.h:29-36 | which bytes of a block hold the fields of an inode |
| Durable.MapBytes | Xv6-Threads/src/fs.c:66-67 | bit k of the free map is bit k % 8 of byte k / 8 of its block |
| Durable.RecoveredFileSystem | Xv6-Threads/src/log.c:115-122 | if every commit point holds a consistent file system, then after a crash at any disk write, and any number in recovery, the next recovery finds exactly the file system of the commit point reached, consistent |
| Reservation.UnusedUpdate | Xv6-Threads/src/log.c:126-141 | the sum of the unused reservations changes by exactly what one operation starts or uses |
| Reservation.UnusedBound | Xv6-Threads/src/log.c:132 | the outstanding operations reserve at most MAXOPBLOCKS each, which is what begin_op adds up |
| Reservation.RoomForNew | Xv6-Threads/src/log.c:218-219 | log_write never refuses a block new to the log, to a call that has reserved room for one more, if and only if the log has more than LOGSIZE blocks |
| Reservation.RoomForAbsorbed | Xv6-Threads/src/log.c:218-219 | with n blocks in the log it refuses no block that is there already if and only if n is below both LOGSIZE and size - 1, although such a write takes no room |
| Reservation.AllButOne | Xv6-Threads/src/log.c:132 | three calls within their reservations, with 29 blocks logged and one more to go |
| FullLog.Write | Xv6-Threads/src/log.c:214-233 | one write of a run that fills the log: bread, log_write, brelse, and one more block is logged |
| FullLog.NewRefused | Xv6-Threads/src/log.c:218-219 | for every log of up to LOGSIZE blocks, a run from boot in which log_write panics on a new block that its call has room reserved for |
| FullLog.AbsorbedRefused | Xv6-Threads/src/log.c:218-219 | for every log of two blocks or more, of any size, a run from boot in which log_write panics on a block that is in the log |
| ByteView.BytesRoundTrip | Xv6-Threads/src/fs.c:468-474 | a block of 128 words and its 512 bytes are the same data |
| ByteView.StoredByte | Xv6-Threads/src/fs.c:500-502 | memmove into a block changes exactly the bytes of its range |
| FsImage.AllocKeeps | Xv6-Threads/src/fs.c:57-78 | marking and zeroing a free block: it was owned by nobody, is no metadata block, and conservation (set bits = metadata + blocks owned, each owned once) holds with this block in hand |
| FsImage.LinkDirect | Xv6-Threads/src/fs.c:378-385 | storing the block in hand in an empty direct or indirect pointer gives it exactly that owner and keeps conservation |
| FsImage.LinkEntry | Xv6-Threads/src/fs.c:389-395 | the same for an empty entry of the indirect block |
| FsImage.FreeKeeps | Xv6-Threads/src/fs.c:82-95 | freeing an owned block finds its bit set and keeps the bitmap exact |
| FsImage.UnlinkKeeps | Xv6-Threads/src/fs.c:408-435 | clearing the pointers to exactly the freed blocks restores conservation |
| FsImage.DataStoreKeeps | Xv6-Threads/src/fs.c:498-505 | a store into a data block changes no owner |
| FsImage.LinkExtends | Xv6-Threads/src/fs.c:373-400 | linking the next block maps exactly one more block of the file |
| FsImage.BlockAt | Xv6-Threads/src/fs.c:373-400 | a file without holes: block bn is mapped if and only if it lies below the count, directly or through the indirect block |
| FsImage.StoreInFile | Xv6-Threads/src/fs.c:498-505 | writing part of a mapped block changes exactly those bytes of this file and no byte of any other |
| FsImage.OthersContents | Xv6-Threads/src/fs.c:482-511 | what an operation on one file leaves alone keeps the contents of every other file |
| FileSys.FileSys.Balloc | Xv6-Threads/src/fs.c:57-78 | returns the first free block, zeroed and marked, logging its bitmap block and itself; panics if and only if all blocks are in use |
| FileSys.FileSys.Bfree | Xv6-Threads/src/fs.c:82-95 | clears exactly one bit; panics if and only if it was clear |
| FileSys.FileSys.AllocPointer | Xv6-Threads/src/fs.c:378-387 | allocates for a direct pointer or the indirect one, owned by nobody before, in no other place now |
| FileSys.FileSys.AllocEntry | Xv6-Threads/src/fs.c:389-395 | allocates for an entry of the indirect block, which is logged too |
| FileSys.FileSys.Bmap | Xv6-Threads/src/fs.c:373-400 | returns the mapped block without any change, or extends the file by exactly its next block; panics only if the disk is full |
| FileSys.FileSys.Readi | Xv6-Threads/src/fs.c:453-476 | returns exactly the slice [off, off + n) of the contents, cut at the end; fails if and only if off is past the end or off + n wraps; never allocates or logs |
| FileSys.FileSys.Iupdate | Xv6-Threads/src/fs.c:221-236 | the dinode on disk becomes the in-memory inode, and its block is logged |
| FileSys.FileSys.WriteBlock | Xv6-Threads/src/fs.c:498-505 | one turn of the loop: the range within one block, and the set of blocks it logs, which is the block itself if it is there already |
| FileSys.FileSys.WriteLoop | Xv6-Threads/src/fs.c:498-505 | after the loop all of src is in place and the set of logged blocks is accounted for |
| FileSys.FileSys.Writei | Xv6-Threads/src/fs.c:482-511 | replaces or extends exactly [off, off + n) of the byte sequence, keeps every other file and conservation, leaves no hole and the disk inode equal to the one in memory, and logs at most the bound's number of blocks; a write within one block that is there logs exactly that block; what it changes it logs |
| FileSys.WriteStep | Xv6-Threads/src/fs.c:498-505 | one turn of the write loop keeps its meaning: first tot bytes stored, all else as before |
| FileSys.WritingEnds | Xv6-Threads/src/fs.c:507-510 | the finished loop and the size update make the contents the spliced sequence |
| FileSys.ExtendedKeeps | Xv6-Threads/src/fs.c:373-400 | an allocation by bmap changes no byte of any file |
| FileSys.DirectExtends | Xv6-Threads/src/fs.c:378-382 | a new direct block is the next block of the file, zeroed |
| FileSys.EntryExtends | Xv6-Threads/src/fs.c:384-396 | a new entry of the indirect block, itself new or not, is the next block of the file, zeroed |
| FileSys.AccountStep | Xv6-Threads/src/fs.c:373-400 | each turn adds to the logged set only its data block, at most the bitmap blocks of what it allocates, and the indirect block |
| FileSys.AccountEnd | Xv6-Threads/src/fs.c:498-510 | so the whole write logs at most data + allocated + indirect + inode blocks |
| FileSys.AccountData | Xv6-Threads/src/fs.c:498-510 | the same bound with the inode's own block told apart, so that calls within one transaction can be added up |
| OpenFile.TransactionBound | Xv6-Threads/src/file.c:127-145 | for every offset up to the size and every chunk that filewrite makes, that bound is at most MAXOPBLOCKS = 10, for any number of bitmap blocks |
| OpenFile.WroteChain | Xv6-Threads/src/file.c:130-151 | writing in chunks is writing once |
| OpenFile.SplicedTwice | Xv6-Threads/src/file.c:130-151 | splicing adjacent pieces of a byte sequence is splicing their concatenation |
| OpenFile.Refused | Xv6-Threads/src/file.c:130-151 | where the loop stops early is a closed formula of size, offset and length |
| OpenFile.File.Read | Xv6-Threads/src/file.c:97-113 | returns exactly the slice at the file offset and advances it by the number of bytes read; -1 in exactly the listed cases |
| OpenFile.File.WriteChunk | Xv6-Threads/src/file.c:134-146 | one transaction: all of the chunk or none of it, within the reservation of begin_op; every block, bit and inode that it changes on disk it has logged |
| OpenFile.File.Write | Xv6-Threads/src/file.c:118-156 | stores exactly the first Accepted bytes, whole chunks, and advances the offset by them; returns n if that is all of them, else -1 although those bytes are stored |
| OpenFile.PartlyAccepted | Xv6-Threads/src/file.c:130-151 | an input where that happens: 4000 bytes with room for 2000 stores one chunk and returns -1 |
| Inodes.Itrunc | Xv6-Threads/src/fs.c:408-435 | frees exactly the blocks of this inode and empties it; "freeing free block" cannot happen; logs exactly the bitmap blocks of what it frees and the inode's block; what it changes it logs |
| Inodes.DropDirect | Xv6-Threads/src/fs.c:414-419 | the loop over the direct pointers frees and clears them all, conservation kept |
| Inodes.DropRest | Xv6-Threads/src/fs.c:421-431 | frees what the indirect block points to, then the indirect block |
| Inodes.Iput | Xv6-Threads/src/fs.c:332-352 | the last reference to an inode without links frees its blocks and the inode, logging exactly their bitmap blocks and the inode's; any other call changes and logs nothing |
| Inodes.Ialloc | Xv6-Threads/src/fs.c:195-214 | takes the first free inode and clears it, logging its block; panics if and only if there is none; conservation and all other files kept |
| Inodes.DropPointer | Xv6-Threads/src/fs.c:414-419 | the block behind a direct pointer was marked in use; freeing it and clearing the pointer keeps conservation |
| Inodes.FreeNext | Xv6-Threads/src/fs.c:424-427 | the next entry of the indirect block is empty, or its block is marked and has not been freed yet |
| Inodes.DropIndirect | Xv6-Threads/src/fs.c:428-430 | freeing the indirect block after its entries removes them all and restores conservation |
| Inodes.FreedExactly | Xv6-Threads/src/fs.c:408-435 | after itrunc a bit is set if and only if it was set and this inode did not own the block |
| TransactionSize.MapsBound | Xv6-Threads/src/fs.c:408-435 | itrunc frees bits in at most as many blocks of the free map as the image needs |
| TransactionSize.TruncationThreshold | Xv6-Threads/src/fs.c:408-435 | itrunc logs at most MAXOPBLOCKS blocks on all consistent images of n blocks if and only if n is at most 9 * 4096 |
| TransactionSize.WideTruncates | Xv6-Threads/src/fs.c:408-435 | the image beyond that: a consistent file system of n blocks with a file of ten blocks, each in another part of the free map |
| Inodes.TruncatedOthers | Xv6-Threads/src/fs.c:408-435 | itrunc keeps the contents of every other file |
| Inodes.TruncatedEmpty | Xv6-Threads/src/fs.c:408-435 | the truncated file is well formed and empty |
| Inodes.TypeCleared | Xv6-Threads/src/fs.c:338-346 | clearing the type of the emptied inode keeps conservation |
| Inodes.FreshInode | Xv6-Threads/src/fs.c:203-209 | a cleared inode is a well-formed empty file that owns nothing |
| Mkfs.Image.constructor | Xv6-Threads/src/mkfs.c:91-115 | the empty image: laid out as the constants say, with its superblock apart, metadata blocks marked, all else zero and free |
| Mkfs.Image.NextInode | Xv6-Threads/src/mkfs.c:224-235 | inodes are handed out in order, with one link and no contents |
| Mkfs.Image.FindBlock | Xv6-Threads/src/mkfs.c:269-285 | finds or allocates the next block of a file, one of the direct ones; fails if and only if the image has no block left, and takes exactly the new blocks |
| Mkfs.Image.FindEntry | Xv6-Threads/src/mkfs.c:276-285 | the same through the indirect block, which is allocated first |
| Mkfs.DataBlock | Xv6-Threads/src/mkfs.c:269-292 | what iappend stores into is never a metadata block |
| Mkfs.Image.Iappend | Xv6-Threads/src/mkfs.c:256-297 | appends exactly the given bytes to one file and keeps all others; fails if and only if the file would be too large or the image has too few blocks left |
| Mkfs.Image.AddFile | Xv6-Threads/src/mkfs.c:130-156 | adds one file: its inode, its contents and its entry in the root, under its name without a leading underscore; fails if and only if the name has a slash or there is no room |
| Mkfs.StemIs | Xv6-Threads/src/mkfs.c:142-143 | "_cat" becomes "cat", and a name without a leading underscore stays |
| Mkfs.Image.MakeRoot | Xv6-Threads/src/mkfs.c:117-128 | the root directory holds "." and "..", both naming itself |
| Mkfs.Image.FixRoot | Xv6-Threads/src/mkfs.c:158-163 | rounding up the size of the root completes the image, which is well formed if and only if the entries do not fill the last block |
| Mkfs.Image.Build | Xv6-Threads/src/mkfs.c:68-168 | succeeds if and only if names, sizes, inodes and blocks allow and fewer than 4096 blocks are used; then the finished image: bitmap as written, superblock as written, all fields within their widths, every file holds what was given, and, when the root does not fill its last block and the names are good, the invariant of the whole file system |
| Mkfs.Image.Balloc | Xv6-Threads/src/mkfs.c:237-253 | marks the first blocks in the one block of the map that it writes; aborts if and only if they are not fewer than that block has bits |
| NewDisk.SuperIs | Xv6-Threads/src/mkfs.c:94-103 | the words of block 1 are size, number of data blocks and of inodes, 30, 2, and the starts of inodes and free map; read by the fields of struct superblock they give the very layout of the image |
| NewDisk.MakeDisk | Xv6-Threads/src/mkfs.c:68-168 | main, down to the sectors: the file system that the kernel decodes, with the layout it reads from block 1 of the image, is the one built, and the log it finds there is empty and in order |
| NewDisk.SectorsDecode | Xv6-Threads/src/mkfs.c:170-253 | packing bits and inodes into sectors and unpacking them as the kernel does gives the same file system |
| NewDisk.MapRead | Xv6-Threads/src/mkfs.c:237-253 | a bit of the free map, packed, is read back |
| NewDisk.InodeRead | Xv6-Threads/src/mkfs.c:183-195 | an inode, packed, is read back |
| NewDisk.FirstBoot | Xv6-Threads/src/log.c:54-66 | a kernel that boots from such an image recovers nothing and finds that file system, in order if it was |
| NewDisk.SectorsCovered | Xv6-Threads/src/fs.c:57-95 | if all that differs between two states of the file system has been logged, then every sector that differs on the disk has been |
| Mkfs.RootRounded | Xv6-Threads/src/mkfs.c:158-163 | rounding the size of the root up leaves a file without holes if and only if it did not fill its last block; then the contents are the entries and zeros |
| Mkfs.ThirtyFiles | Xv6-Threads/src/mkfs.c:158-163 | an input where it does not: the image that mkfs builds from 30 empty files, on 1000 blocks, has a root that is not well formed |
| Mkfs.FullMap | Xv6-Threads/src/mkfs.c:237-243 | an input where mkfs aborts although all files fit: 31 of 140 blocks on 10000 |
| Mkfs.PointerSet | Xv6-Threads/src/mkfs.c:269-279 | the next block number, stored in an empty pointer, was owned by nobody; bitmap-to-be stays exact |
| Mkfs.EntrySet | Xv6-Threads/src/mkfs.c:280-284 | the same for an entry of the indirect block |
| Mkfs.AppendStep | Xv6-Threads/src/mkfs.c:267-292 | one turn of iappend adds one piece to the end of the file |
| Mkfs.FileAdded | Xv6-Threads/src/mkfs.c:130-156 | after one more file the image holds the list of files so far |
| Mkfs.StretchedSlots | Xv6-Threads/src/mkfs.c:158-163 | the zeros of the rounded root read as free slots |
| Mkfs.FreshImage | Xv6-Threads/src/mkfs.c:68-168 | such an image satisfies the file system invariant |
| Names.Strncmp | Xv6-Threads/src/string.c:59-66 | 0 if and only if the strings agree up to their NUL or the n-th byte; else the difference of the first two bytes that differ |
| Names.Strncpy | Xv6-Threads/src/string.c:69-79 | the n bytes are the string, cut at n and padded with NULs |
| Names.PaddedName | Xv6-Threads/src/fs.c:517-520 | a name stored in 14 bytes is read back, also when it fills them |
| Names.Skipelem | Xv6-Threads/src/fs.c:596-618 | the first path element cut to 14 bytes and a strictly shorter rest without leading slashes; nothing if and only if there is no element |
| Names.ElementsJoin | Xv6-Threads/src/fs.c:596-618 | any number of slashes between two paths joins their lists of elements |
| Names.SkipSlashes | Xv6-Threads/src/fs.c:600-601 | leading slashes do not matter |
| Directory.Dirlookup | Xv6-Threads/src/fs.c:525-548 | finds a name if and only if the map of the directory has it, with its inode number and the offset of its first slot; panics only for a non-directory or a ragged size |
| Directory.Dirlink | Xv6-Threads/src/fs.c:552-578 | refuses a name that is there, without change; else adds exactly it to the map, in the first free slot or at the end; no duplicates arise; logs the inode's block and at most 4 others |
| Directory.ReadEntry | Xv6-Threads/src/fs.c:532-534 | reads slot k; panics if and only if the size is ragged there |
| Directory.FreeSlot | Xv6-Threads/src/fs.c:563-569 | the first free slot, or the end |
| Directory.WriteSlot | Xv6-Threads/src/fs.c:571-575 | changes exactly one slot; refused exactly when the directory is at the maximal size; logs the inode's block and at most 1, 2 or 4 others, by the size, and for a slot that is there exactly its block |
| Directory.MapAt | Xv6-Threads/src/fs.c:525-548 | the first live slot with a name gives the map its value |
| Directory.MapHas | Xv6-Threads/src/fs.c:525-548 | every name in the map has such a slot |
| Directory.SomeFirst | Xv6-Threads/src/fs.c:525-548 | any live slot puts its name into the map |
| Directory.PutMap | Xv6-Threads/src/fs.c:571-575 | filling a free slot with a new name adds exactly it to the map |
| Directory.PutDistinct | Xv6-Threads/src/fs.c:556-560 | because dirlink looks first, no two live slots have the same name |
| Directory.ClearMap | Xv6-Threads/src/sysfile.c:226-229 | clearing a live slot removes exactly its name |
| Directory.OtherName | Xv6-Threads/src/fs.c:552-578 | a changed slot does not affect any other name |
| Directory.SlotWritten | Xv6-Threads/src/fs.c:571-575 | writing 16 bytes at a slot changes that slot of the directory and no other |
| Directory.EntryRoundTrip | Xv6-Threads/src/fs.c:571-575 | an entry written and read back is the same |
| Directory.EntryLayout | Xv6-Threads/src/fs.h:53-56 | an entry is the inode number in two bytes, the lower one first, and then the name |
| Directory.EntryBlocks | Xv6-Threads/src/fs.c:571-575 | how many blocks besides the inode's the write of one entry can log |
| Directory.EntryInBlock | Xv6-Threads/src/fs.c:571-575 | an entry that is there lies in one block |
| Paths.Namex | Xv6-Threads/src/fs.c:625-657 | for any path and any current directory, also one that has been unlinked, the result of following its truncated elements: from inode 1 if its first byte is "/", whoever asks, and else from the current directory; or for nameiparent the parent directory and the last element; panics if and only if it comes through an inode that is not in use |
| Paths.NamedReaches | Xv6-Threads/src/fs.c:643-648 | from the root or a current directory that has a link, every path is followed without a panic, and what it leads to has a link |
| Disks.LostBelow | Xv6-Threads/src/fs.c:625-657 | an input for the panic: "../x" from a removed directory whose parent has been freed, on a consistent file system |
| Disks.RootAndHere | Xv6-Threads/src/fs.c:629-632 | an input where the start matters: on a consistent disk with one directory "a" in the root, "/a" is inode 2 from the root, and from inside "a" it would be nothing |
| Links.OrphanRun | Xv6-Threads/src/sysfile.c:192-290 | the run of mkdir and rmdir from a new file system that leads there |
| Paths.Namei | Xv6-Threads/src/fs.c:659-671 | from inode 1 for a path that begins with "/", else from the current directory, lookup then always returns, and what it returns is in use |
| Paths.PathStep | Xv6-Threads/src/fs.c:632-650 | one turn of the loop keeps what the whole path resolves to |
| Paths.WalkInParts | Xv6-Threads/src/fs.c:625-657 | following a path is following its first part, then the rest from there |
| Paths.StepNamed | Xv6-Threads/src/fs.c:643-648 | every inode on the way has a link, so it is in use |
| Links.StepKeeps | Xv6-Threads/src/sysfile.c:125-290 | every step of create, link, unlink and iput keeps the invariant: link count = entries other than "." + links under way; "." and ".." in slots 0 and 1; every directory hangs in the parent its ".." names; entries name inodes in use |
| Links.RunKeeps | Xv6-Threads/src/sysfile.c:125-290 | so does every run of such steps, interleaved in any way |
| Links.CreateFileKeeps | Xv6-Threads/src/sysfile.c:267-286 | a new file has the one entry its count says |
| Links.CreateDirKeeps | Xv6-Threads/src/sysfile.c:274-286 | a new directory counts one, its parent one more for ".." |
| Links.LinkCountKeeps | Xv6-Threads/src/sysfile.c:144-146 | counting a link before entering it, or taking it back, is accounted for as a link under way |
| Links.LinkEnterKeeps | Xv6-Threads/src/sysfile.c:148-155 | entering the counted link |
| Links.UnlinkFileKeeps | Xv6-Threads/src/sysfile.c:226-238 | removing the entry of a file and its link |
| Links.UnlinkDirKeeps | Xv6-Threads/src/sysfile.c:226-238 | removing an empty directory, its own link and the parent's |
| Links.FreeKeeps | Xv6-Threads/src/fs.c:338-346 | freeing an inode that nothing names |
| Links.UnlinkHasLink | Xv6-Threads/src/sysfile.c:218-219 | "unlink: nlink < 1" cannot happen |
| Links.UnlinkedOpen | Xv6-Threads/src/sysfile.c:226-238 | an input: a reachable state with an inode in use that no entry names and whose count is 0 |
| Links.EmptyDirRefs | Xv6-Threads/src/sysfile.c:220-223 | an empty directory has exactly one link and hangs where it was found, and is not the root |
| Links.ParentLinks | Xv6-Threads/src/sysfile.c:230-233 | a parent with a subdirectory has at least two links, so it is still in use after the unlink |
| Links.LinkCompensated | Xv6-Threads/src/sysfile.c:164-171 | a failed link leaves the tree as it was |
| Links.FreshInv | Xv6-Threads/src/mkfs.c:117-165 | the tree that mkfs builds satisfies the invariant |
| Links.Stretched | Xv6-Threads/src/fs.c:563-569 | free slots behind the last entry of a directory make no difference to the invariant |
| Sysfile.Isdirempty | Xv6-Threads/src/sysfile.c:176-188 | true if and only if no slot after the first two is live |
| Sysfile.FindEntry | Xv6-Threads/src/sysfile.c:202-223 | finds the slot to clear if and only if the parent exists, the name is neither "." nor "..", is there, and is no non-empty directory |
| Sysfile.RemoveEntry | Xv6-Threads/src/sysfile.c:226-238 | does exactly the Unlink step on the disk, and the directory's map loses exactly that name; logs exactly the entry's block, the inode's, and for a directory the parent's |
| Sysfile.Unlink | Xv6-Threads/src/sysfile.c:192-246 | does exactly the Unlink step where FindEntry says, or fails with the disk unchanged because nothing there can be removed; logs exactly the entry's block, the inode's, and for a directory the parent's |
| Sysfile.UnlinkPut | Xv6-Threads/src/sysfile.c:192-246 | unlink with the iput at its end, in one transaction: the Unlink step, then the Free step if that was the last reference; the set of blocks it logs is exactly those of the Unlink step and, in that case, the bitmap blocks of the inode's blocks; what it changes it logs |
| TransactionSize.UnlinkThreshold | Xv6-Threads/src/sysfile.c:192-246 | that is at most MAXOPBLOCKS blocks for every unlink on every consistent image of n blocks if and only if n is at most 7 * 4096 |
| TransactionSize.WideUnlinks | Xv6-Threads/src/sysfile.c:192-246 | the unlink beyond that: of an empty directory of eight blocks, each in another part of the free map |
| Disks.WideInv | Xv6-Threads/src/sysfile.c:192-246 | such an image, of any size from there on, is a consistent file system in which that unlink goes ahead |
| Sysfile.NameRemoved | Xv6-Threads/src/sysfile.c:226-229 | after the Unlink step the directory's map has lost exactly the name in that slot |
| Sysfile.SameReaches | Xv6-Threads/src/fs.c:643-648 | counting a link changes nothing that a path leads through |
| Sysfile.EnterName | Xv6-Threads/src/sysfile.c:283-284 | enters one name into one directory or reports that it is there |
| Sysfile.EnterPath | Xv6-Threads/src/sysfile.c:148-155 | the second half of link: the new name goes into the directory its path names |
| Sysfile.Link | Xv6-Threads/src/sysfile.c:126-172 | counts and enters the link, two steps, or fails with the disk exactly as before, and then the old path names nothing or a directory, or the new name cannot be entered; logs at most 6 blocks; what it changes it logs |
| Sysfile.NewInode | Xv6-Threads/src/sysfile.c:267-276 | a new inode with one link, all others kept |
| Sysfile.AddDots | Xv6-Threads/src/sysfile.c:277-282 | "." and ".." in a new directory and one more link for the parent |
| Sysfile.MakeNode | Xv6-Threads/src/sysfile.c:267-286 | does exactly the CreateFile or CreateDir step; logs the two inode blocks and at most 7 others |
| Sysfile.Create | Xv6-Threads/src/sysfile.c:249-290 | a new node in the named parent, the existing file of that name when both are files, or failure without change, decided by the parent's map; logs at most 9 blocks; what it changes it logs |
| Sysfile.SteppedInv | Xv6-Threads/src/sysfile.c:125-290 | an operation on the disk that does a step keeps blocks, files, directories and link counts consistent |
| Sysfile.PutFrees | Xv6-Threads/src/fs.c:332-352 | iput of an unlinked inode is the Free step |
| Sysfile.WriteKeepsTree | Xv6-Threads/src/file.c:118-156 | a write to a file keeps the whole invariant |
| Sysfile.InTree | Xv6-Threads/src/fs.c:625-657 | the invariant gives what path lookup needs: every directory leads to inodes in use |
| Consistency.AddressUsedOnce | File_Systems_Checker/README.html:9-15 | rules 2, 5, 7 and 8: every address of an inode in use is valid, marked in the bitmap, and used once |
| Consistency.MarkedIsUsed | File_Systems_Checker/README.html:13 | rule 6: a marked block is metadata or in use |
| Consistency.RootThere | File_Systems_Checker/README.html:10 | rule 3: inode 1 is a directory and its own parent |
| Consistency.DotNames | Xv6-Threads/src/sysfile.c:280 | the names of the first two slots are one dot and two |
| Consistency.DirectoryFormed | File_Systems_Checker/README.html:11 | rule 4, for directories with a link, and no other slot is called "." or ".." |
| Consistency.LinksAreEntries | File_Systems_Checker/README.html:16-18 | rules 9 and 11: the link count is the number of entries; an inode in use is named if and only if its count is not 0 |
| Consistency.UnlinkedOpen | File_Systems_Checker/README.html:16 | where rule 9 fails: after unlinking the only entry of a file that stays open, the inode is in use and no directory names it |
| Consistency.EntryInUse | File_Systems_Checker/README.html:17 | rule 10: what a directory names is in use |
| Consistency.OneParent | File_Systems_Checker/README.html:19 | rule 12: a directory has exactly one entry besides "..", in the directory its ".." names |
| Umalloc.Heap.FindPlace | Xv6-Threads/src/umalloc.c:30-32 | the first loop of free ends, at the block after which bp belongs, wherever freep points |
| Umalloc.Heap.Relink | Xv6-Threads/src/umalloc.c:33-43 | joins upward, downward, both or neither by the very pointer and size stores, and the headers then link the new list |
| Umalloc.Heap.Free | Xv6-Threads/src/umalloc.c:25-44 | returns exactly this block: free list sorted, circular, no two free blocks touching; free and live blocks still partition all units obtained |
| Umalloc.Heap.Morecore | Xv6-Threads/src/umalloc.c:47-61 | obtains at least 4096 units in one piece, or returns null without any change |
| Umalloc.Heap.Take | Xv6-Threads/src/umalloc.c:74-83 | cuts the tail off a block that is big enough, or unlinks one that fits exactly |
| Umalloc.Heap.Malloc | Xv6-Threads/src/umalloc.c:64-90 | terminates; the block is disjoint from all live ones and large enough; memory is asked for at most once, only when no free block fits; null only when that fails |
| Umalloc.ReturnedSorted | Xv6-Threads/src/umalloc.c:33-43 | after merging, the list is sorted and no two free blocks touch |
| Umalloc.ReturnedCovers | Xv6-Threads/src/umalloc.c:33-43 | the free units are exactly those before and those returned |
| Umalloc.FreePartition | Xv6-Threads/src/umalloc.c:25-44 | free moves exactly one block from live to free |
| Umalloc.TakePartition | Xv6-Threads/src/umalloc.c:74-83 | malloc moves exactly the cut tail from free to live |
| Umalloc.GrowPartition | Xv6-Threads/src/umalloc.c:53-59 | new memory is apart from everything |
| Umalloc.LiveDisjoint | Xv6-Threads/src/umalloc.c:64-90 | live blocks overlap neither each other nor any free block |
| Umalloc.TakenOk | Xv6-Threads/src/umalloc.c:74-83 | cutting keeps the whole heap in order, headers included |
| Umalloc.SpliceLinked | Xv6-Threads/src/umalloc.c:33-42 | the header stores of free link exactly the new list |
| Umalloc.TakeLinked | Xv6-Threads/src/umalloc.c:74-82 | the header stores of malloc link exactly the new list |
| Umalloc.GapExists | Xv6-Threads/src/umalloc.c:30-32 | a block that overlaps no free block fits in the gap the search found |
| Umalloc.EnoughRoom | Xv6-Threads/src/umalloc.c:69 | the rounded request has room for nbytes if and only if nbytes + 7 does not wrap at 2^32 |
| Umalloc.WrappedRequest | Xv6-Threads/src/umalloc.c:69 | an input where it does wrap: 0xfffffff9 bytes are computed as one unit, the header |
| Vm.Kmem.constructor | Xv6-Threads/src/kalloc.c:47-53 | freerange: the free list is exactly the whole pages of the range |
| Vm.Kmem.Kfree | Xv6-Threads/src/kalloc.c:60-77 | fills the page with junk and pushes it |
| Vm.Kmem.Kalloc | Xv6-Threads/src/kalloc.c:83-95 | pops the first free page, or returns 0; conservation kept |
| Vm.Kmem.Walkpgdir | Xv6-Threads/src/vm.c:36-55 | the entry for va; with alloc, a missing table is added zeroed and no leaf mapping of any space changes; fails exactly when the table is missing and may not or cannot be made |
| Vm.Kmem.MapOne | Xv6-Threads/src/vm.c:66-77 | maps one page, or fails with nothing changed because memory is out |
| Vm.Kmem.Mappages | Xv6-Threads/src/vm.c:61-80 | maps exactly the pages of the range, or, out of memory, a prefix of them |
| Vm.Kmem.Deallocuvm | Xv6-Threads/src/vm.c:256-279 | the loop that skips missing tables equals a page-by-page sweep of the range |
| Vm.Kmem.DeallocStep | Xv6-Threads/src/vm.c:263-276 | one turn, skip or page, does not change what is left to sweep |
| Vm.Kmem.FreeEntry | Xv6-Threads/src/vm.c:267-275 | frees one page and clears its entry as the sweep does |
| Vm.Kmem.AllocPage | Xv6-Threads/src/vm.c:231-247 | one zeroed page mapped, or what is in hand when memory ran out |
| Vm.Kmem.Undo | Xv6-Threads/src/vm.c:233-246 | the failure path gives back every new page |
| Vm.Kmem.Allocuvm | Xv6-Threads/src/vm.c:222-249 | on success the range is mapped to fresh zeroed pages; on failure 0 and the leaf mapping and all old pages as before; the pages free again are all that were, except those that have become page tables of this space, which stay |
| Vm.Kmem.Freevm | Xv6-Threads/src/vm.c:284-298 | returns exactly the user pages, tables and directory of this space, and touches no other page |
| Vm.Kmem.Setupkvm | Xv6-Threads/src/vm.c:119-136 | a new space with exactly the kernel mappings, or 0 and every page given back |
| Vm.Kmem.CopyPage | Xv6-Threads/src/vm.c:323-339 | one page copied with its flags to a fresh page |
| Vm.Kmem.Copyuvm | Xv6-Threads/src/vm.c:316-345 | the copy has equal bytes and flags on fresh pages, disjoint from the parent's, and the parent is untouched; or 0 and every page given back |
| Vm.KmapFits | Xv6-Threads/src/vm.c:105-115 | the kernel map table is page-aligned, in kernel space and without overlap |
| Vm.KernelMap | Xv6-Threads/src/vm.c:105-115 | it maps physical memory from 0 up to PHYSTOP at KERNBASE, all of it writable but the text of the kernel, and the devices at their own addresses |
| Vm.KernelMapAll | Xv6-Threads/src/vm.c:105-115 | and leaves no page of these ranges out |
| Vm.PageUpIs | Xv6-Threads/src/mmu.h:90 | the bytes below an address lie in exactly the pages below its rounding up |
| Vm.GainedSwept | Xv6-Threads/src/vm.c:233-246 | sweeping what a partial allocuvm gained restores the leaf mapping |
| Vm.FreeAgain | Xv6-Threads/src/vm.c:233-246 | after that sweep the free pages are exactly those before, less the tables added |
| Vm.SpaceDropped | Xv6-Threads/src/vm.c:340-344 | freevm of a partial new space gives back every page |
| Vm.CopiedOne | Xv6-Threads/src/vm.c:323-339 | one more page mapped extends the copied range |
| PageTables.Taken | Xv6-Threads/src/kalloc.c:83-95 | the page popped is owned by nobody |
| PageTables.Given | Xv6-Threads/src/kalloc.c:60-77 | a page given back is free once, owned never |
| PageTables.Mapped | Xv6-Threads/src/vm.c:66-77 | a leaf entry gives its page exactly one owner |
| PageTables.KernelMapped | Xv6-Threads/src/vm.c:66-77 | a mapping in kernel space owns nothing |
| PageTables.TableAdded | Xv6-Threads/src/vm.c:42-53 | a new zeroed table changes no mapping |
| PageTables.LeafWritten | Xv6-Threads/src/vm.c:75 | writing one entry changes one address of one space: tables are not shared |
| PageTables.Unmapped | Xv6-Threads/src/vm.c:267-275 | freeing a mapped page and clearing its entry keeps every page free once or owned once |
| PageTables.RootDropped | Xv6-Threads/src/vm.c:284-298 | what a swept space leaves is its tables and its directory, and nothing else |
| PageTables.SweepKeeps | Xv6-Threads/src/vm.c:256-279 | a sweep unmaps exactly the range of this space and keeps conservation |
| PageTables.SweepOwners | Xv6-Threads/src/vm.c:256-279 | it ends exactly the ownership of the pages in the range |
| PageTables.SweepFrees | Xv6-Threads/src/vm.c:256-279 | it frees exactly those pages |
| PageTables.SweepSpares | Xv6-Threads/src/vm.c:256-279 | it does not touch the contents of any other page |
| PageTables.SweepSkips | Xv6-Threads/src/vm.c:265-266 | skipping addresses that are not mapped changes nothing |
| PageTables.SpacesKept | Xv6-Threads/src/vm.c:316-345 | an operation that touches only free pages keeps every address space |
| PageTables.AllReturned | Xv6-Threads/src/vm.c:284-298 | a space that is gone has given back exactly what it owned |
| PageTables.AllGivenBack | Xv6-Threads/src/vm.c:340-344 | with the spaces as before, conservation leaves the free pages as before |
| ProcState.RunKeepsInv | Xv6-Threads/src/proc.c:76-596 | the invariant holds after every step of every interleaving of processes and CPUs, from boot |
| ProcState.ActKeepsInv | Xv6-Threads/src/proc.c:76-596 | each kind of step keeps it |
| ProcState.OneCpuEach | Xv6-Threads/src/proc.c:412-491 | in every reachable table RUNNING processes and busy CPUs are in bijection |
| ProcState.LivingParent | Xv6-Threads/src/proc.c:317-357 | in every reachable table a process beyond EMBRYO, except init, has a parent that is alive and has a smaller pid |
| ProcState.NobodyMissed | Xv6-Threads/src/proc.c:277-401 | in every reachable table nobody sleeps in wait over a ZOMBIE child, nor in join over a ZOMBIE thread |
| ProcState.StaysLeft | Xv6-Threads/src/proc.c:342-349 | a ZOMBIE thread that exit has left to init loses its slot in exactly one way: init calls join |
| ProcState.NeverCollected | Xv6-Threads/src/proc.c:342-401 | so in every run in which init only waits, it is never collected |
| Abandoned.ThreadLeft | Xv6-Threads/src/proc.c:317-357 | a run from boot that leaves init such a thread: init forks, the child clones, the thread exits and then the child |
| ProcState.DescendsFromInit | Xv6-Threads/src/proc.c:191-357 | every process descends from init through living processes |
| ProcState.ExitedKeepsInv | Xv6-Threads/src/proc.c:317-357 | exit as a whole: wake the parent, pass the children on, become a ZOMBIE |
| ProcState.ExitedFrame | Xv6-Threads/src/proc.c:317-357 | what exit does to the others: its children go to init, some sleepers wake, nothing else |
| ProcState.PassOnKeepsInv | Xv6-Threads/src/proc.c:342-349 | afterwards nobody has this parent, and init is awake if there is a ZOMBIE for it |
| ProcState.LeftKeepsInv | Xv6-Threads/src/proc.c:465-551 | giving up the CPU, to sleep or not |
| ProcState.EnteredKeepsInv | Xv6-Threads/src/proc.c:440-452 | being given a CPU |
| ProcState.WokenKeepsInv | Xv6-Threads/src/proc.c:557-564 | wakeup1 on any channel |
| ProcState.AllocatedKeepsInv | Xv6-Threads/src/proc.c:81-126 | a slot under construction belongs to one process and has a new pid |
| ProcState.PublishedKeepsInv | Xv6-Threads/src/proc.c:224-232 | the new process becomes RUNNABLE |
| ProcState.ReapedKeepsInv | Xv6-Threads/src/proc.c:375-388 | freeing the slot of a ZOMBIE |
| ProcState.KilledKeepsInv | Xv6-Threads/src/proc.c:579-596 | kill wakes a sleeper, also one in wait, and keeps the invariant |
| ProcState.KilledStays | Xv6-Threads/src/proc.c:579-596 | a killed process stays marked until its slot is freed |
| ProcState.KilledGetsOut | Xv6-Threads/src/proc.c:390-394 | in every run, a process that has been killed is awake at once, and from then on, until its slot is freed, it never goes to sleep in wait or join |
| ProcState.ActTells | Xv6-Threads/src/proc.c:76-596 | what each kind of step makes of the table, slot by slot and field by field |
| ProcState.ExitedIs | Xv6-Threads/src/proc.c:317-357 | and exit: the process is a ZOMBIE, its children are those of init, and exactly its parent and init, if a child is a ZOMBIE, are woken from wait |
| ProcTable.ProcTable.constructor | Xv6-Threads/src/proc.c:131-164 | the table at boot: one RUNNABLE process, which is init, and idle CPUs |
| ProcTable.ProcTable.Wakeup1 | Xv6-Threads/src/proc.c:557-564 | exactly the processes asleep on chan become RUNNABLE |
| ProcTable.ProcTable.Wakeup | Xv6-Threads/src/proc.c:568-573 | the same, by somebody without the lock |
| ProcTable.ProcTable.AllocProc | Xv6-Threads/src/proc.c:81-104 | takes an UNUSED slot, or fails if and only if there is none |
| ProcTable.ProcTable.GiveUp | Xv6-Threads/src/proc.c:106-110 | the slot is UNUSED again |
| ProcTable.ProcTable.Fill | Xv6-Threads/src/proc.c:209-262 | fork passes its tickets on, clone does not; parent and thread flag set |
| ProcTable.ProcTable.Publish | Xv6-Threads/src/proc.c:224-232 | the new process is RUNNABLE; its pid is returned |
| ProcTable.ProcTable.Yield | Xv6-Threads/src/proc.c:485-491 | RUNNABLE, and the CPU is free |
| ProcTable.ProcTable.Sleep | Xv6-Threads/src/proc.c:517-551 | SLEEPING on chan, and the CPU is free |
| ProcTable.ProcTable.Collect | Xv6-Threads/src/proc.c:277-401 | one pass of wait or join: reaps a ZOMBIE child of the right kind and returns its pid, returns -1 if and only if there is none to collect and no child, or it was killed, and else sleeps |
| ProcTable.ProcTable.Exit | Xv6-Threads/src/proc.c:317-357 | the new table of exit, exactly |
| ProcTable.ProcTable.PassOn | Xv6-Threads/src/proc.c:342-349 | the loop of exit with its nested wakeup equals one simultaneous update |
| ProcTable.ProcTable.Scheduler | Xv6-Threads/src/proc.c:412-455 | selects the RUNNABLE process that holds the ticket drawn, or nobody if and only if none is RUNNABLE |
| ProcTable.ProcTable.Kill | Xv6-Threads/src/proc.c:579-596 | the first process with this pid is marked killed and is RUNNABLE if it slept; its other fields and all other slots are as before; fails, changing nothing, if and only if there is none |
| ProcTable.KilledCollects | Xv6-Threads/src/proc.c:390-394 | a killed process that finds nothing to collect in wait or join gets -1, and does not sleep |
| ProcTable.ProcTable.SetTickets | Xv6-Threads/src/sysproc.c:100-108 | sets the caller's tickets if and only if n >= 1 |
| Lottery.Draw | Xv6-Threads/src/proc.c:425-451 | the draw loop returns the one RUNNABLE process that holds the winning ticket |
| Lottery.OneHolder | Xv6-Threads/src/proc.c:434-439 | no ticket has two holders |
| Lottery.Period | Xv6-Threads/src/proc.c:12-15 | krand returns to a value after n calls if and only if 2^32 divides n |
| Lottery.EveryValueOnce | Xv6-Threads/src/proc.c:12-15 | any 2^32 consecutive values are all 32-bit values, each once |
| Lottery.Fairness | Xv6-Threads/src/proc.c:425-451 | with fixed tickets, the wins in one period are between tickets * floor(2^32/total) and tickets * ceil(2^32/total), and what they are exactly |
| Lottery.SlotFairness | Xv6-Threads/src/proc.c:425-451 | the same for the process in a given slot of the table |
| Lottery.GeometricTwos | Xv6-Threads/src/proc.c:12-15 | the geometric sum of the multiplier is divisible by the same powers of two as its number of terms |
| Lottery.FirstDraws | Xv6-Threads/src/proc.c:11-15 | the first four values that krand gives after boot |
| SleepLock.MutualExclusion | Xv6-Threads/src/sleeplock.c:22-53 | in every run with any number of processes at most one holds the lock, and holdingsleep is true of exactly it |
| SleepLock.NoLostWakeup | Xv6-Threads/src/proc.c:516-573 | when the inner lock is free and the sleep lock is too, nobody sleeps on it or is committed to |
| SleepLock.NoDeadlock | Xv6-Threads/src/sleeplock.c:22-42 | in every run, while ptable.lock is not in use elsewhere, some process that is not done with the lock can take its next step; so not all can be asleep on it |
| SleepLock.RunKeepsInv | Xv6-Threads/src/sleeplock.c:22-53 | the invariant behind both, for every interleaving |
| SleepLock.StepKeepsInv | Xv6-Threads/src/sleeplock.c:22-53 | each step of acquiresleep, releasesleep, sleep and wakeup keeps it |
| Pipe.Pipe.constructor | Xv6-Threads/src/pipe.c:23-57 | an empty pipe, both ends open |
| Pipe.Pipe.Length | Xv6-Threads/src/pipe.c:11-20 | nwrite - nread modulo 2^32 is the number of bytes in the pipe, at most 512 |
| Pipe.Pipe.Write | Xv6-Threads/src/pipe.c:79-98 | stores exactly a prefix of what is left to write, after all stored before; sleeps only when the pipe is full; from a state where nobody sleeps in vain it ends in one, unless a reader sleeps, the writer has been killed, and it has more than 512 bytes to go: exactly then it does not |
| Pipe.FillAndGiveUp | Xv6-Threads/src/pipe.c:79-98 | that case at an input: one reader asleep on an empty pipe, a killed process writing 513 bytes |
| Pipe.Pipe.Put | Xv6-Threads/src/pipe.c:94 | one byte into the ring, at a wrapped counter |
| Pipe.Pipe.Read | Xv6-Threads/src/pipe.c:101-121 | delivers the oldest bytes, as many as asked or there are; sleeps or fails if and only if the pipe is empty and the write end open; wakes all writers; from a state where nobody sleeps in vain it ends in one |
| Pipe.Pipe.Close | Xv6-Threads/src/pipe.c:60-75 | closes one end and wakes the other; frees if and only if both are closed |
| Pipe.CountersEqual | Xv6-Threads/src/pipe.c:85-106 | wrapped counters are equal if and only if the true ones are |
| Pipe.CounterIndex | Xv6-Threads/src/pipe.c:94 | the index of a wrapped counter is that of the true one |
| Pipe.CellsDiffer | Xv6-Threads/src/pipe.c:94 | bytes in the ring do not overwrite each other |
| Grep.Match | Xv6-Threads/src/grep.c:73-82 | 1 if and only if some suffix of the text, or all of it for ^, begins with a string in the language of the expression, reaching the end for $; the loop terminates |
| Grep.MatchHere | Xv6-Threads/src/grep.c:85-96 | the same at one place, for the rest of the expression, read as the code reads it |
| Grep.MatchStar | Xv6-Threads/src/grep.c:99-106 | true if and only if after some run of c the rest matches |
| Grep.LitConsumes | Xv6-Threads/src/grep.c:93-94 | a literal or "." consumes one byte |
| Grep.StarSplits | Xv6-Threads/src/grep.c:99-106 | a starred item splits the text at the end of some run |
| Grep.NoItems | Xv6-Threads/src/grep.c:87-92 | the empty expression matches anywhere, "$" only at the end |
| Shell.Parser.Gettoken | Xv6-Threads/src/sh.c:266-308 | returns the next token of the text and moves past it and the white space after it: the tokens that remain are the tail, and the next character, if any, is not white |
| Shell.Parser.ReadToken | Xv6-Threads/src/sh.c:277-299 | the longest token here: symbol, ">>" or word |
| Shell.Parser.Peek | Xv6-Threads/src/sh.c:311-320 | tells whether the next token is one of these, and changes no token |
| Shell.Parser.Parseredirs | Xv6-Threads/src/sh.c:375-397 | the redirections here, in order, or "missing file" |
| Shell.Parser.Parseblock | Xv6-Threads/src/sh.c:400-413 | the block, or the panic, that the grammar gives; panics where there is no "("; the tree is that of the tokens read: a line in parentheses under its redirections |
| Shell.Parser.Parseexec | Xv6-Threads/src/sh.c:416-446 | the command here, or the panic; its argv are the words read, in their order, and "<" opens its file O_RDONLY as fd 0, ">" and ">>" O_WRONLY and O_CREATE as fd 1, the last one outermost |
| Shell.Parser.Parsepipe | Xv6-Threads/src/sh.c:362-372 | the pipeline here, the command before the bar on its left; terminates, because tokens are consumed |
| Shell.Parser.Parseline | Xv6-Threads/src/sh.c:345-359 | the line here, with a background node for each & and what comes before ; on the left of the list |
| Shell.Parser.Nulterminate | Xv6-Threads/src/sh.c:450-493 | writes a NUL at the end of every string in the tree, and nowhere else |
| Shell.Parser.Parsecmd | Xv6-Threads/src/sh.c:328-342 | returns only when the whole text is a line of the grammar, with its tree: the left part of each pipe or list stands before its bar or ";" and the right part behind it, what runs in the background before its "&", the file of each redirection directly behind its "<" or ">", which fixes mode and fd, arguments in their order; as many nodes of each kind as symbols in the text; every string is exactly its token; panics only when the text is no line |
| Shell.CommandWords | Xv6-Threads/src/sh.c:328-342 | every string in the tree is a maximal word of the text |
| Shell.StringsMarked | Xv6-Threads/src/sh.c:450-493 | no NUL falls inside any string |
| Shell.EndsExactly | Xv6-Threads/src/sh.c:450-493 | the places written are exactly the ends of the strings in the tree |
| ShellCommand.LineWritten | Xv6-Threads/src/sh.c:345-359 | the tree of a line has the tokens of the line written out: its list, its background nodes and its pipes, each at its symbol |
| ShellCommand.PipeWritten | Xv6-Threads/src/sh.c:362-372 | the same for pipelines |
| ShellCommand.ExecWritten | Xv6-Threads/src/sh.c:375-446 | the same for commands and blocks: words, redirections and their modes |
| ShellText.CommandStands | Xv6-Threads/src/sh.c:328-342 | a tree that has the tokens of a text written out stands in the text as Parsecmd says |
| ShellText.LeftBeforeRight | Xv6-Threads/src/sh.c:362-372 | so in each pipe or list every string of the left part ends before every string of the right part, with the bar or ";" between them |
| ShellText.PlacedWithin | Xv6-Threads/src/sh.c:328-342 | and every string lies where its part of the tree stands |
| ShellText.LineNodes | Xv6-Threads/src/sh.c:345-397 | a tree has one node for each bar, ";", "&" and "<" among its tokens |
| ShellText.TextCount | Xv6-Threads/src/sh.c:266-308 | and there are as many of those tokens as of those characters in the text |
| ShellGrammar.ParserExact | Xv6-Threads/src/sh.c:328-446 | the parser accepts exactly the lines of the grammar, and gives the one tree with that text: the grammar is unambiguous |
| ShellGrammar.LineSound | Xv6-Threads/src/sh.c:345-359 | what is parsed as a line, written out again, is the tokens consumed |
| ShellGrammar.PipeSound | Xv6-Threads/src/sh.c:362-372 | the same for pipelines |
| ShellGrammar.ExecSound | Xv6-Threads/src/sh.c:400-446 | the same for commands and blocks |
| ShellGrammar.LineComplete | Xv6-Threads/src/sh.c:345-359 | every line of the grammar is parsed to its own tree |
| ShellGrammar.PipeComplete | Xv6-Threads/src/sh.c:362-372 | the same for pipelines |
| ShellGrammar.ExecComplete | Xv6-Threads/src/sh.c:400-446 | the same for commands and blocks, fewer than MAXARGS arguments |
| ShellGrammar.LexWords | Xv6-Threads/src/sh.c:266-308 | every word token is a maximal run of word characters |
| ShellGrammar.LexCovers | Xv6-Threads/src/sh.c:266-308 | the tokens cover the text: every character that is not white space lies in exactly one of them, each read at its place by the longest match |

## Left out

- FileSys.FileSys.BeginOp: a file system operation is a transaction on one image with its set of logged blocks; that the processes of `Log.Log.Run` make exactly these stores and calls of log_write, block by block, is not proved.
- Durable.RecoveredFileSystem: that each commit point holds a consistent file system is a hypothesis here; it is proved of the operations on images (`Sysfile.Stepped` and the contracts beside it), not of the buffer writes that carry them out.
- Log.Log.LogWrite: that an operation writes at most MAXOPBLOCKS blocks new to the log, and never a block of the log, is required of the caller; how many the operations on images log is proved (see Main results).
- Log.Log.EndOpStart: a process leaves a transaction only when each buffer it still holds is logged or unchanged.
- Log.Log.Unref: the reference counted down may be that of any process that has released the buffer, and at any later time; so the runs are more than those of the code.
- Log.Log.ReadHead: recovery runs at boot, before any other process uses the cache.
- FileSys.FileSys.Bmap: asked for a mapped block or the next one, which is all that readi and writei ask for in a file without holes; further on the code would leave a hole.
- FileSys.FileSys.Writei: devices, whose reads and writes go through devsw, are not modelled, nor are major and minor numbers; the contract is for inodes that are not of type T_DEV.
- FileSys.FileSys.Balloc: in the operations the bitmap is a sequence of bits and the inode table a sequence of records; their packing into blocks is in `Durable.Decode` and `NewDisk.Sectors`, and in which block is logged.
- Inodes.Iput: the reference counts of the inode cache (iget, idup) are a parameter.
- Paths.Namei: an `iput` inside path lookup never frees here, as everything on the way has a link; a removed current directory whose last reference goes during its own lookup is not modelled.
- Sysfile.FindEntry: from a removed current directory, paths that lead to something with a link are covered, for example those through its ".."; naming an entry of the removed directory itself is not (the code would look there).
- Sysfile.EnterPath: as for FindEntry; there the code would add an entry to a directory that its last `iput` frees.
- Sysfile.UnlinkPut: as for FindEntry.
- Sysfile.Unlink: as for FindEntry; it stops before the final `iput`, which is in `Sysfile.UnlinkPut`.
- Sysfile.Link: as for FindEntry; both paths are on the one root device, so the comparison of devices is left out.
- Sysfile.Create: as for FindEntry; nor is a parent modelled that another process unlinks between lookup and lock, which the code does not check for.
- Consistency.DirectoryFormed: directories without a link, which wait for their last `iput`, are not covered. Rule 1 of that checker, that types are valid, is not stated.
- Links.RunKeeps: link counts and process ids are unbounded; inode numbers are below 65536.
- Mkfs.Image.AddFile: the contents of the file are a parameter; that the host can open it is assumed.
- Mkfs.Image.Build: running past the end of the image is a failure here, while mkfs goes on writing; bitmap, inodes and superblock are packed into their sectors at the end (`NewDisk.MakeDisk`) rather than with each store, and the size of the image and the number of inodes are parameters.
- Umalloc.Heap.Malloc: memory is counted in header units and the break stays a multiple of 8; a request whose 32-bit unit count reaches 2^28 (`Broken`) is outside the model, since sbrk then gets a wrapped size.
- Vm.Kmem.Kalloc: the free list is a sequence rather than links stored in the free pages. Kernel memory that is not in an address space is the set `other`.
- Vm.Kmem.Deallocuvm: oldsz is at most KERNBASE; above it the code would sweep the kernel's mappings, which no caller asks for.
- Vm.Kmem.Copyuvm: pages below sz are present, as the code demands with a panic; sz is at most KERNBASE.
- Vm.Kmem.Freevm: each page directory is used by one process; address spaces shared by clone have no owner in this code, so their lifetime (clone, join, growproc in threads) is left out, as are growproc, exec, inituvm and loaduvm.
- ProcState.RunKeepsInv: a critical section under ptable.lock is one step; the context switch, trap frames and per-CPU interrupt state are left out.
- ProcTable.ProcTable.Scheduler: the tickets of RUNNABLE processes add up to less than 2^31; the count of ticks is left out.
- Lottery.Draw: as for Scheduler.
- SleepLock.NoLostWakeup: spinlocks are atomic; memory ordering and deadlock between sleep locks are left out.
- Pipe.Pipe.Write: kill is a parameter of each call rather than an event while asleep; running out of files or memory in pipealloc is left out.
- Shell.Parser.Parseexec: the EXEC node is a value with its list of arguments, wrapped in its redirections at the end, rather than filled in through a pointer; running the commands and malloc failing are left out.
- Grep.Match: grep's buffering of lines, which loses a buffer without a newline, is left out.
- The file table and descriptors (filealloc, filedup, fileclose) and the inode cache would add only counting.
- Device drivers, boot code, system-call argument fetching, usertests, small utilities and the other user projects.
- The copies of the kernel in the other trees, which have the same storage code.
