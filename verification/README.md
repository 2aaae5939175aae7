# xv6 in Dafny

A Dafny model of the core of the xv6 teaching kernel (the variant with the `waitx` system call), and proofs about it.
Each part follows one or two C files: the same branches, constants and error cases, imperative where the C code is.
`dafny verify dfyconfig.toml` verifies the whole project. The model is proved, not executed.

| files | what they model | main results |
|---|---|---|
| `Basics`, `Blocks`, `Params`, `LogSpec`, `BufferCache`, `Log`, `LogReservation` | log.c, bio.c, memide.c | crash atomicity of commits and of whole runs; the cache shows the disk overlaid by pinned blocks; LRU order; reservation in every interleaving, with the exact condition for log_write's panic; exactly when a commit runs out of buffers |
| `FsSpec`, `Fs`, `Dinodes`, `Mkfs` | the inode layer of fs.c, filewrite, mkfs.c | every block is free, metadata or in one slot; files are byte sequences; the chunk bound; exactly when an image can be built, and when the kernel finds it in order |
| `LinksSpec`, `Links` | create, link, unlink, iput | link counts equal the entries in live directories; no dangling entry; exactly when create and link break this |
| `HeapSpec`, `Umalloc` | umalloc.c | tiling, order and coalescing of the heap under malloc and free; one sbrk at most |
| `ProcTable`, `Sched`, `Processes`, `ProcessRuns` | proc.c, spinlock.c, the timer branch of trap.c | every interleaving of any number of processors: no panic but init's exit, hand-off of ptable.lock, no lost exit, tick accounting |
| `VmSpec`, `VmMap`, `VmSpaces`, `Vm` | vm.c, kalloc.c | every page has one owner; what the 4MB skip passes over; copies on disjoint pages; exactly when pages leak and when fork panics |
| `Grep`, `Pipe`, `ShellSpec`, `ShellText`, `ShellRoundTrip`, `Shell` | the matcher of grep.c, pipe.c, the parser of sh.c | the language of patterns; the stream through the ring; printing and parsing are inverse |

How the model is built:

- State that the C code updates in place is a class whose fields are sequences and maps; the methods follow the C
  functions, loops with their invariants, and their postconditions tie the new state to a specification. The pipe's
  ring and the shell's line buffer are arrays.
- A block write is one atomic step. A crash keeps the disk, drops memory and runs recovery.
- Concurrency is a transition system over all schedules: processors with their steps (`Sched`, `Processes`), processes
  in begin_op, log_write and end_op (`LogReservation`), readers and writers of a pipe (`Pipe`), other readers of the
  buffer cache between any two of a process's own calls (`BufferCache.Cache.Bread`).
- Words, bytes and bits of a block, unsigned wrap-around in readi, writei, the pipe's counters, malloc and waitx are
  modelled as 32-bit arithmetic; elsewhere numbers stay below the widths used.
- A panic, or a sleep that nobody ends, is an outcome of the method. Contracts say when it occurs.

Where the code does less than its comments or callers expect, the project keeps the code and proves the exact condition:

- mkfs makes a log region of LOGSIZE blocks, one of which is the header. If operations make at most MAXOPBLOCKS
  log_write calls, log_write's size panic is reachable exactly on regions below LOGSIZE+1 blocks; with more calls, as in
  filewrite's chunks, which are sized from LOGSIZE, it is reachable on every region
  (`LogReservation.SizePanicReachable`), and so is a store past the header's array from LOGSIZE blocks on, because
  log_write tests before it takes the lock (`LogReservation.HeaderOverflows`).
  On larger regions LOGSIZE blocks can be logged;
  NBUF is the same number, so every buffer is then pinned and commit finds none for its first slot
  (`Log.EveryRegionFills`, `Log.Log.Commit`).
- mkfs makes 26 inode blocks, which hold 208 inodes, and checks no inode number. The inodes of the 207th file and the
  next seven are stored in the bitmap block and overwritten at the end; mkfs exits with 0, the files are lost, and so are
  their blocks (`Mkfs.Make`, `Mkfs.LastFileLost`). The inode after those goes over a block of a file.
- mkfs rounds the size of the root directory up to the next block even if it is a multiple of the block size already,
  so that the directory then claims a block it does not have (`Mkfs.Make`, exactly for a multiple of 32 entries;
  `Mkfs.ThirtyFiles` is such an image). The kernel then starts from a file system that is not in order (`Mkfs.Boot`),
  and a read to the end of that directory allocates the block. readi calls no iupdate, so no inode on the disk has it:
  the block is in use for good (`Fs.FileSystem.Readi`, `Mkfs.ReadToEnd`). In fileread there is no begin_op either, and
  balloc's log_write panics unless another operation is outstanding (`Log.Log.LogWrite`).
- allocuvm ignores the result of mappages and setupkvm does not free what it took: the pages lost, and the hole that
  allocuvm may leave below the size it returns, are characterised by the number of free pages (`Vm.Machine.AllocUvm`,
  `Vm.Machine.SetupKvm`, `Vm.Machine.CopyUvm`). `Vm.GrowsWithHole` is a run from boot that ends with both. fork of such
  a process panics if there are pages enough to get to the hole, and only then (`Vm.Machine.CopyUvm`, `Vm.ForkPanics`).
- deallocuvm's skip over a missing table does not go to the start of the next one; which pages it passes over, and that
  there are none on contiguous pages or from page 0, is stated for every address space (`Vm.Machine.DeallocUvm`,
  `VmMap.ShrunkContig`, `Vm.Machine.FreeVm`).
- A killed writer that fills the pipe returns without waking a sleeping reader (`Pipe.StepRested`,
  `Pipe.KilledWriterForgets`).
- create and link can add an entry to a directory that was removed after it was looked up; link counts are then wrong,
  and only then (`Links.CreateKeepsIff`, `Links.LinkKeepsIff`). `Links.CreateInRemoved` and `Links.LinkInRemoved` do it.
- ".." of a removed directory may name an inode that has been freed since; create panics on it (`Links.FileTree.Create`,
  `Links.ParentGone`).
- kill does not spare init, and exit panics when init calls it: this is the one panic of the processor model, and it is
  reachable (`ProcessRuns.OnlyInitPanics`, `ProcessRuns.InitExitReachable`).
- malloc's size computation and waitx's times wrap in 32 bits (`Umalloc.SizesRight`, `ProcessRuns.WaitxWraps`).
- trap charges iotime to a SLEEPING current process, a branch that is never taken: iotime stays 0
  (`ProcessRuns.TickAccounting`).

## Model

| member | source | states |
|---|---|---|
| `LogSpec.RedoIsIdempotent` | log.c:68-81 | installing the logged blocks a second time, after any prefix of the first, gives the same disk |
| `LogSpec.PartialRecoveryKeepsLog` | log.c:114-121 | a recovery cut short leaves the header and every slot, so the next one issues the same writes |
| `LogSpec.RecoveryIsCrashProof` | log.c:114-121 | after any number of crashed recoveries and a complete one the header is clear and the home blocks are those of one clean recovery |
| `LogSpec.CrashBeforeHeader` | log.c:174-199 | a crash before the header write leaves the header clear and every home block as it was |
| `LogSpec.HeaderWritten` | log.c:100-112 | once the header is written the log on disk holds the whole transaction, home blocks untouched |
| `LogSpec.CommitIsLogThenRecovery` | log.c:189-199 | a commit is write_log and write_head followed by exactly the writes a recovery would issue |
| `LogSpec.CrashAfterHeader` | log.c:189-199 | from the header write on, recovery gives every logged block its new value |
| `LogSpec.CrashAtomicity` | log.c:174-199 | commit cut after any write, then any number of crashed recoveries and a full one: all old if the header write had not happened, all new if it had |
| `LogSpec.FullCommit` | log.c:189-199 | a complete commit clears the header and has the effect of writing the blocks directly |
| `LogSpec.RunAtomicity` | log.c:68-121 | for whole runs of transactions: a crash anywhere recovers to the state after exactly the transactions whose header write completed |
| `BufferCache.Unlink` | bio.c:131-132 | the two stores that unlink a buffer leave one circular list without it |
| `BufferCache.LinkFront` | bio.c:133-136 | the four stores that link it in leave one circular list with it in front |
| `BufferCache.MoveToFront` | bio.c:131-136 | brelse's six stores together move the buffer to the front and keep the order of the others |
| `BufferCache.EveryBufferListed` | bio.c:40-57 | NBUF distinct entries below NBUF: every buffer is on the list |
| `BufferCache.MissTakesOldest` | bio.c:83-95 | on a miss bget takes the least recently released of the buffers that are neither busy nor dirty; it panics iff there is none |
| `BufferCache.GetsIff` | bio.c:62-96 | bget hands over a buffer at once iff the block is cached in one that is not busy, or is not cached and some buffer may be recycled |
| `BufferCache.CleanIff` | bio.c:84-95 | some buffer is clean iff fewer than NBUF blocks are pinned |
| `BufferCache.NoneLeft` | bio.c:84-95 | with every buffer pinned no other block can be had |
| `BufferCache.SecondGets` | bio.c:62-96 | while one buffer is held, a second block can be had if it is pinned, or if nothing is |
| `BufferCache.TakeKeeps` | bio.c:69-94 | taking a hit or recycling keeps the cache coherent: what it shows is the disk overlaid by the pinned and changed blocks, each block in one buffer |
| `BufferCache.FillKeeps` | memide.c:38-59 | a read from disk delivers the last value given to the block |
| `BufferCache.StoreKeeps` | log.c:201-209 | a holder's store becomes the block's value; the disk keeps the old one |
| `BufferCache.FlushKeeps` | memide.c:38-59 | a write to disk makes disk and cache agree on that block |
| `BufferCache.PinKeeps` | log.c:228 | marking a buffer dirty keeps its block in the cache and the old value on disk |
| `BufferCache.ReleaseKeeps` | bio.c:123-142 | releasing a buffer with no change outstanding keeps the cache coherent |
| `BufferCache.CleanAgrees` | bio.c:62-119 | a block neither pinned nor being changed is the same in the cache and on the disk |
| `BufferCache.Cache.constructor` | bio.c:39-57 | after binit: one list of all buffers, none busy or dirty, the cache shows the disk |
| `BufferCache.Cache.Bget` | bio.c:62-96 | the scans along next and prev give the buffer, the sleep or the panic of the list-order specification, and change only that buffer |
| `BufferCache.Cache.Recycle` | bio.c:84-95 | the backward scan renames and empties the least recently released recyclable buffer, or panics |
| `BufferCache.Cache.Iderw` | memide.c:38-59 | exactly when iderw panics; a dirty buffer is written out, an invalid one gets the block's last value |
| `BufferCache.Cache.Brelse` | bio.c:123-142 | the buffer goes to the front of the release order and is no longer busy; panics iff it was not busy |
| `BufferCache.Cache.MoveFront` | bio.c:131-136 | the pointer stores keep the circular list in order of last release |
| `BufferCache.Cache.Store` | log.c:201-209 | the holder changes its buffer: the block's current value changes, the disk does not |
| `BufferCache.Cache.Bwrite` | bio.c:112-119 | the block reaches the disk as one write and the buffer is clean; panics iff not busy |
| `BufferCache.Cache.Overwrite` | log.c:106-110 | store and bwrite together: one disk write, the block unpinned and no other |
| `BufferCache.Cache.Pin` | log.c:228 | the buffer becomes dirty, so it is not recycled |
| `BufferCache.Cache.ReaderRuns` | bio.c:62-142 | one step of another reader keeps held buffers, pinned blocks and the disk |
| `BufferCache.Cache.OthersRun` | bio.c:62-142 | whatever other reading processes do, held buffers, pinned blocks and the disk stay as they are |
| `BufferCache.Cache.GetBlock` | bio.c:99-109 | bread at once: the buffer holds the last value given to the block; succeeds iff the block exists and bget can give a buffer |
| `BufferCache.Cache.Bread` | bio.c:99-109 | after any steps of other readers bread returns a buffer with the last value given to the block; alone it succeeds iff bget can give one |
| `Log.CrashDuringCommit` | log.c:189-199 | the writes that the running commit issues, cut anywhere, recover to all old or all new |
| `Log.EveryRegionFills` | log.c:124-171 | LOGSIZE is NBUF: on a log region of any size some schedule that keeps its reservations panics in log_write or logs NBUF blocks, for which commit has no buffer |
| `Log.AbsorbIs` | log.c:221-227 | log_write's search and store list a block once, at its first place |
| `Log.RecoveryIsInstall` | log.c:114-121 | recovery's writes are those of install_trans on the header read from disk, then the cleared header |
| `Log.Log.constructor` | log.c:52-65 | an empty log: nothing listed, nothing outstanding |
| `Log.Log.WriteHead` | log.c:100-112 | one write of the header block holding n and the listed numbers; undisturbed it succeeds while some buffer is clean |
| `Log.Log.FillHeader` | log.c:104-109 | the loop stores n and the n block numbers |
| `Log.Log.BreadTwo` | log.c:180-181 | two breads in a row: both blocks' last values; undisturbed, exactly when the buffers suffice |
| `Log.Log.CopyBuf` | log.c:182-185 | one disk write of the source block's value to the destination; both buffers released, the destination unpinned |
| `Log.Log.CopyToSlot` | log.c:179-186 | one turn of write_log copies a logged block to its slot; undisturbed it fails if every buffer is pinned and succeeds if one is clean |
| `Log.Log.CopyFromSlot` | log.c:73-80 | one turn of install_trans copies a slot to its home block and unpins it |
| `Log.Log.ReleaseBoth` | log.c:78-79 | both buffers are released and nothing else changes |
| `Log.Log.WriteLog` | log.c:174-187 | issues a prefix of the slot writes, all of them on success; home blocks and header unchanged |
| `Log.Log.InstallTrans` | log.c:68-81 | issues a prefix of the home writes; on success no logged block stays pinned |
| `Log.Log.WriteLogAndHead` | log.c:193-194 | the transaction is in the log exactly when the header write is issued |
| `Log.Log.InstallAndClear` | log.c:195-197 | home writes, then the header with n = 0 |
| `Log.Log.Room` | log.c:210-230 | some buffer is clean iff fewer than NBUF blocks are logged; no log block is pinned |
| `Log.Log.Commit` | log.c:189-199 | whatever happens the disk has seen a prefix of the commit's writes; undisturbed it completes iff fewer than NBUF blocks are logged, leaving the log empty and nothing pinned |
| `Log.Log.CommitSome` | log.c:192-198 | the same for a non-empty transaction |
| `Log.Log.ReadHead` | log.c:84-95 | the header in memory becomes the one on disk; undisturbed it succeeds |
| `Log.Log.LoadHead` | log.c:88-93 | the loop loads n and the n block numbers |
| `Log.Log.RecoverFromLog` | log.c:114-121 | the disk has seen a prefix of the recovery's writes, all of them on success; undisturbed it succeeds |
| `Log.Log.LogWrite` | log.c:210-230 | exactly when it panics; otherwise the block is listed once, pinned, and listed blocks are exactly the pinned ones |
| `Log.Log.BeginOp` | log.c:124-140 | admits the operation iff no commit runs and the reservation fits |
| `Log.Log.EndOp` | log.c:144-171 | panics iff committing; the last operation commits, the others write nothing |
| `LogReservation.BeginKeepsInv` | log.c:124-140 | begin_op keeps, if an operation makes at most m log_write calls: what is in the log and unspent is at most 10 + 2m, or 3m for m above 10; three operations at most; one commit at most and only with nothing outstanding |
| `LogReservation.LogWriteKeepsInv` | log.c:210-230 | log_write keeps it on every region, and panics exactly in its size test |
| `LogReservation.EndKeepsInv` | log.c:144-171 | end_op keeps it and does not panic |
| `LogReservation.CommitKeepsInv` | log.c:157-170 | commit and the final wakeup keep it |
| `LogReservation.StepKeepsInv` | log.c:124-230 | so does every step, and none panics but log_write's size test |
| `LogReservation.ReservationHolds` | log.c:124-171 | in every interleaving of any number of processes, for every m and region size, the invariant holds; nobody sleeps in begin_op unless a commit runs or an operation is outstanding |
| `LogReservation.NeverPanics` | log.c:124-230 | with at most MAXOPBLOCKS calls and 11 + 2m blocks no panic is reached |
| `LogReservation.FilledPanics` | log.c:215-216 | three operations that use their reservations on a smaller region, or more than them on any, reach log_write's panic |
| `LogReservation.SharedPanics` | log.c:129-216 | operations of fewer calls reach it too: ten short ones beside a waiting one, then two more |
| `LogReservation.SizePanicReachable` | log.c:124-230 | log_write's panic is reachable iff operations make more than MAXOPBLOCKS calls, or at least one and the region has fewer than 11 + 2m blocks: LOGSIZE + 1 for m = MAXOPBLOCKS, one more than mkfs makes |
| `LogReservation.RunBounded` | log.c:215-230 | what operations that passed the unlocked test together can add: at most two blocks past the limit |
| `LogReservation.HeaderOverflows` | log.c:215-227 | a run stores past the header's array iff operations make more than MAXOPBLOCKS calls and the region has LOGSIZE blocks or more |
| `FsSpec.ConservedMeans` | fs.c:53-93 | no block is in two slots, and a bitmap bit is set iff the block is metadata or in a slot of some inode |
| `FsSpec.Unaccounted` | fs.c:53-93 | a block marked in use that is in no slot of the inodes cannot be accounted for by any assignment of blocks to slots |
| `FsSpec.BitsUpdate` | fs.c:64-66 | setting or clearing one bit changes the free map for that block only |
| `FsSpec.RecordAddr` | fs.c:362-372 | recording a new block in an address slot keeps every block in one slot |
| `FsSpec.RecordEntry` | fs.c:375-378 | recording a new block in the indirect block keeps every block in one slot |
| `FsSpec.BmappedExtends` | fs.c:353-384 | bmap of the next block extends the mapped prefix by one; the indirect block exists iff it is needed |
| `FsSpec.BmappedBytes` | fs.c:353-384 | bmap changes no byte of the file |
| `FsSpec.DataWriteByte` | fs.c:482-483 | storing into a file block changes exactly the bytes written |
| `FsSpec.WriteStep` | fs.c:479-485 | one turn of writei's loop: the bytes written so far are the new ones, all others the old ones |
| `FsSpec.WritingDone` | fs.c:479-491 | when the loop ends the file is the old one with the range overwritten or extended |
| `FsSpec.CountStep` | fs.c:479-485 | one turn logs at most one data block and the bitmap blocks of what it allocates |
| `FsSpec.ChunkFits` | file.c:126-137 | a write of one chunk at any offset logs at most 14 data, 14 bitmap, 1 indirect and 1 inode block: LOGSIZE in all |
| `FsSpec.FreeDirect` | fs.c:398-403 | freeing a direct block keeps every block accounted for |
| `FsSpec.FreeIndirect` | fs.c:405-415 | dropping the indirect block gives up exactly the blocks of its entries and itself |
| `FsSpec.EntryFreed` | fs.c:408-411 | each entry freed is owned and not freed before |
| `Fs.FirstClear` | fs.c:62-71 | the inner loop of balloc finds the first clear bit |
| `Fs.SameSizeSameInode` | fs.c:487-490 | a write that does not grow the file leaves its inode as it was, so skipping iupdate is harmless |
| `Fs.WriteEnds` | fs.c:487-491 | after the size is set every file has exactly the blocks its size needs, and the other files are unchanged |
| `Fs.TruncDone` | fs.c:391-419 | direct and indirect parts together give back all blocks of the file and no other |
| `Fs.ChunkStops` | file.c:134-151 | filewrite stops at the first chunk that would pass the maximal file size |
| `Fs.FileSystem.constructor` | fs.c:162-169 | on a disk in which every block is accounted for, the file system is in order iff every inode has the blocks its size says |
| `Fs.FileSystem.Balloc` | fs.c:53-75 | the lowest free block, marked and zeroed; panics iff no block is free |
| `Fs.FileSystem.Bfree` | fs.c:78-93 | clears the bit; the panic iff the block was free already |
| `Fs.FileSystem.AllocAddr` | fs.c:362-372 | an empty slot gets a block that no slot had; fails only on a full disk |
| `Fs.FileSystem.AllocEntry` | fs.c:375-378 | an empty indirect entry gets a block that no slot had; fails only on a full disk |
| `Fs.FileSystem.Bmap` | fs.c:356-384 | the file's block, allocated iff absent, every block still in one slot; panics only out of range or on a full disk; at most two bitmap blocks logged |
| `Fs.FileSystem.BmapIndirect` | fs.c:368-381 | the same past the direct blocks, with the indirect block made first |
| `Fs.FileSystem.Readi` | fs.c:434-458 | refuses exactly past the end or on wrap-around, else returns that range of bytes, cut at the end of the file, and changes nothing if its blocks are all there, as they are for every file in order; a block that is missing is allocated zeroed and nothing else changes, or the disk is full; the inodes on the disk then account for the blocks iff the one in memory got no address |
| `Fs.FileSystem.ReadBlocks` | fs.c:448-457 | its loop |
| `Fs.FileSystem.ReadBlock` | fs.c:448-457 | one turn of it |
| `Fs.MapOne` | fs.c:449 | one more block mapped by a read: the file keeps the blocks and bytes it had, what it gets is zeroed, and nothing else happens to any file |
| `Fs.FileBacked` | fs.c:442-446 | a file whose blocks go with its size has a block for every byte up to that size |
| `Fs.ReadContent` | fs.c:448-457 | the bytes gathered block by block are that range of the file |
| `Fs.ReadLoses` | fs.c:434-458 | after a read the blocks can be accounted for by the inodes on the disk iff the inode in memory got no address: readi calls no iupdate |
| `Fs.FileSystem.Writei` | fs.c:462-492 | all or nothing: refused exactly when the code says so and then nothing changed, or the byte range is overwritten, other files unchanged, disk and memory inodes equal; halts only on a full disk, with every block still accounted for |
| `Fs.FileSystem.WriteBlocks` | fs.c:479-485 | the loop writes every byte unless the disk is full |
| `Fs.FileSystem.WriteBlock` | fs.c:479-485 | one turn of it |
| `Fs.FileSystem.Itrunc` | fs.c:391-419 | the file is empty, exactly its blocks are free, no other file changed, and "freeing free block" does not happen |
| `Fs.FileSystem.TruncIndirect` | fs.c:405-415 | frees the entries and the indirect block |
| `Fs.FileSystem.TruncDirect` | fs.c:398-403 | frees the direct blocks |
| `Fs.FileSystem.WriteChunk` | file.c:139-146 | one operation of filewrite: writei's outcome, with at most LOGSIZE blocks logged |
| `Fs.FileSystem.FileWrite` | file.c:125-152 | exactly how many bytes are accepted: all, none past the end of the file, or the whole chunks that fit; the file is overwritten with them, the others unchanged, each operation logs at most LOGSIZE blocks |
| `Mkfs.MarkedBits` | mkfs.c:245-250 | the bitmap block written has exactly the first n bits set |
| `Dinodes.PutInodeGet` | mkfs.c:183-208 | an inode written into a block is read back, and the other seven are as before |
| `Dinodes.DinodeGet` | mkfs.c:183-208 | rinode reads what winode wrote, and winode changes no other inode on the disk |
| `Mkfs.TakeBlock` | mkfs.c:271-283 | taking the next block is the allocator taking the lowest free one |
| `Mkfs.CostStep` | mkfs.c:268-294 | what a step of iappend adds to the number of blocks of a file |
| `Mkfs.TakenIs` | mkfs.c:268-294 | iappend takes a block, or two at the first indirect one, exactly when the file gets a block more |
| `Mkfs.RootRounded` | mkfs.c:158-163 | rounding the root directory's size up keeps it consistent with its blocks iff it was no multiple of the block size; its blocks and bytes stay |
| `Mkfs.Image.constructor` | mkfs.c:108-111 | a zeroed image: metadata in use, every block accounted for |
| `Mkfs.Image.Ialloc` | mkfs.c:223-235 | the next inode, empty, with one link, stored in its block; all files as before |
| `Mkfs.Image.BlockFor` | mkfs.c:269-286 | the block of the file, allocated iff absent; fails iff the blocks left do not suffice |
| `Mkfs.Image.EntryFor` | mkfs.c:277-285 | the same past the direct blocks |
| `Mkfs.Image.NewEntry` | mkfs.c:281-284 | a new block for an empty indirect entry |
| `Mkfs.Image.Iappend` | mkfs.c:255-297 | the file gets the bytes at its end; succeeds iff the file and the image stay within bounds, taking exactly the blocks the new size needs |
| `Mkfs.Image.Append` | mkfs.c:268-294 | its loop |
| `Mkfs.Image.AddFile` | mkfs.c:145-153 | an inode with the file's bytes and an entry for it at the end of the root directory, under the name without a leading underscore, cut or filled up to 14 bytes |
| `Mkfs.Image.AddEntry` | mkfs.c:145-150 | the inode and the entry |
| `Mkfs.Image.AddData` | mkfs.c:152-153 | the read loop appends the whole file |
| `Mkfs.Image.AddRoot` | mkfs.c:117-128 | the root directory with its two entries; this never fails |
| `Mkfs.Image.AddFiles` | mkfs.c:130-156 | every file in turn; ends well iff none is too large and all fit; past 214 files it stores an inode in a block that belongs to a file |
| `Mkfs.Image.AddNext` | mkfs.c:130-156 | one turn of it |
| `Mkfs.Image.Finish` | mkfs.c:158-165 | the root directory's size rounded up, and the bitmap over whatever is in its block: the inodes in the inode blocks are those built, and every other block is as built |
| `Mkfs.Make` | mkfs.c:68-168 | up to 214 files it exits with 0 iff no file exceeds 140 blocks and all blocks fit on the disk; then the image holds the first 206 files and all entries, the inodes of the others are no files' any more, and the blocks can be accounted for iff those were empty; the root directory has the blocks of its size iff the number of entries is no multiple of 32 |
| `Mkfs.LostInode` | mkfs.c:245-250 | an inode stored in the bitmap block does not read as a file's once the bitmap is written, whatever the number of blocks |
| `Mkfs.HeldAccounted` | mkfs.c:245-250 | the blocks of the image can be accounted for iff the files whose inodes were overwritten had none |
| `Mkfs.WrittenFile` | mkfs.c:158-165 | a file whose inode is in the inode blocks reads as mkfs built it |
| `Mkfs.LastFileLost` | mkfs.c:223-251 | 207 files, the last not empty: exit status 0, that file's inode and its block lost |
| `Mkfs.ThirtyFiles` | mkfs.c:158-163 | 30 empty files: the kernel starts on a root directory that claims a block it does not have |
| `Mkfs.Boot` | fs.c:162-169 | the kernel's inode layer, with the inodes read from the inode blocks of a made image of up to 206 files: in order iff the number of entries is no multiple of 32, every file as it was |
| `Mkfs.ReadToEnd` | fs.c:434-458 | reading the root directory of ThirtyFiles to its end allocates a block that no inode on the disk accounts for |
| `LinksSpec.PutLinks` | fs.c:533-559 | writing a directory slot adds or removes exactly that link |
| `LinksSpec.BumpInv` | sysfile.c:137-138 | nlink++ with a link under way keeps the count invariant |
| `LinksSpec.UnbumpInv` | sysfile.c:155-159 | the undo path restores it |
| `LinksSpec.LinkInv` | sysfile.c:143-149 | the new entry settles the link under way |
| `LinksSpec.NewFile` | sysfile.c:258-265 | a new inode with nlink 1 and no entry yet |
| `LinksSpec.MakeDirInv` | sysfile.c:267-276 | mkdir's counts for ".." and the new entry are right, with "." not counted |
| `LinksSpec.UnlinkFileInv` | sysfile.c:215-226 | unlink of a file keeps the count invariant |
| `LinksSpec.RemoveDirInv` | sysfile.c:215-226 | unlink of an empty directory leaves it with no link and its parent with one less |
| `LinksSpec.EntryCounted` | sysfile.c:208-209 | an entry's inode has nlink at least 1: the panic is unreachable |
| `LinksSpec.TwoLinks` | sysfile.c:218-221 | a directory with a subdirectory has two links or more, so its count stays positive |
| `LinksSpec.FreeInv` | fs.c:318-336 | freeing an inode without links keeps the invariant |
| `LinksSpec.NoDangling` | fs.c:318-336 | no entry of a live directory names a free inode |
| `Links.CreateKeepsIff` | sysfile.c:239-281 | create of a file, device or directory keeps the counts right iff the parent has not been removed |
| `Links.LinkKeepsIff` | sysfile.c:143-150 | link's new entry keeps the counts right iff the directory has not been removed |
| `Links.MakeAndRemove` | sysfile.c:182-281 | mkdir, then unlink with a reference still held: a removed directory that can still be named by it |
| `Links.CreateInRemoved` | sysfile.c:239-281 | create of any kind in that directory leaves the counts wrong |
| `Links.LinkInRemoved` | sysfile.c:117-162 | and so does link |
| `Links.ParentGone` | sysfile.c:249-251 | a directory and then its parent removed while a process is in it: create of ".." panics in ilock |
| `Links.DropBreaks` | sysfile.c:277 | the counts stay wrong when create's last iunlockput frees the removed directory |
| `Links.NewName` | fs.c:533-559 | dirlookup finds what dirlink wrote, at the first empty slot |
| `Links.FileTree.constructor` | mkfs.c:117-128 | the root directory alone satisfies the invariant |
| `Links.FileTree.DirLookup` | fs.c:506-529 | the first slot with that name, or none |
| `Links.FileTree.DirLink` | fs.c:533-559 | refused iff the name is taken; else the first empty slot, or a new one, gets the entry |
| `Links.FileTree.IsDirEmpty` | sysfile.c:165-178 | true iff no slot after the first two is in use |
| `Links.FileTree.Ialloc` | fs.c:176-196 | the first free inode; none iff all are in use |
| `Links.FileTree.Iput` | fs.c:318-336 | the last reference to an inode without links frees it |
| `Links.FileTree.Close` | fs.c:318-336 | giving up a reference keeps every link count right |
| `Links.FileTree.Create` | sysfile.c:239-281 | an existing file, 0, or the first free inode under the new name, exactly as the kinds and the free inodes decide; the parent's reference is given up, and the parent goes iff that was its last and it was removed; every link count right iff nothing was added or the parent has not been removed; panics iff no inode is free, or the name stands for a freed one |
| `Links.FileTree.Open` | sysfile.c:249-256 | the case of a name that is taken |
| `Links.FileTree.FillIn` | sysfile.c:261-275 | the stores for the new inode and its entry |
| `Links.FileTree.AddNew` | sysfile.c:258-280 | the new inode and entry, and the parent's count for ".."; the counts right iff the parent has not been removed, also if the parent is freed |
| `Links.FileTree.LinkBegin` | sysfile.c:130-139 | refused iff a directory; else nlink++ |
| `Links.FileTree.LinkEnd` | sysfile.c:143-161 | an entry, or iff the name is taken the count goes back and the inode goes if it was the last; both references given up, and a removed directory goes with its last; the counts right iff no entry was added or the directory has not been removed |
| `Links.FileTree.LinkUndo` | sysfile.c:155-161 | the count goes back, and the inode goes iff that was its last link and reference |
| `Links.FileTree.Unlink` | sysfile.c:182-236 | exactly when it is refused; else entry and counts go, and the inode iff it has no link and no reference left |
| `Links.FileTree.TakeOut` | sysfile.c:215-226 | the stores of the successful case |
| `HeapSpec.NoOverlap` | umalloc.c:24-44 | free blocks never overlap |
| `HeapSpec.LinkKeeps` | umalloc.c:33-43 | linking a freed block at its place keeps the circle sorted; only its two neighbours may touch it |
| `HeapSpec.JoinKeeps` | umalloc.c:33-42 | joining two touching blocks keeps units and tiling |
| `HeapSpec.FreedInv` | umalloc.c:24-44 | after free the list is one sorted circle with no two blocks touching, every unit in one block, all other allocated blocks as they were |
| `HeapSpec.WholeInv` | umalloc.c:76-77 | taking a block of the exact size keeps all that |
| `HeapSpec.TailInv` | umalloc.c:78-82 | taking the tail of a larger block keeps all that; the tail's units were free |
| `HeapSpec.GrowInv` | umalloc.c:46-61 | memory from sbrk above the heap joins it as one block |
| `Umalloc.FreeStoresAre` | umalloc.c:33-43 | free's conditional stores have the effect of linking and then joining with both neighbours |
| `Umalloc.FreedFits` | umalloc.c:57-60 | after free some block is at least as large as the one freed, so morecore is not called twice |
| `Umalloc.ScribbleInv` | umalloc.c:64-90 | a program may write anything into its blocks without harm to the heap |
| `Umalloc.SizesRight` | umalloc.c:52-69 | in 32-bit arithmetic the block holds the bytes asked for and sbrk is asked for the right number iff nbytes is at most 2^31 - 16 |
| `Umalloc.Allocator.constructor` | umalloc.c:21-22 | a program just started: no heap, freep null |
| `Umalloc.Allocator.FindPlace` | umalloc.c:30-32 | the search from freep ends at the last free block below the one freed, wherever it starts |
| `Umalloc.Allocator.Free` | umalloc.c:24-44 | the block is free, the others unchanged, the heap in order |
| `Umalloc.Allocator.Morecore` | umalloc.c:46-61 | NULL iff sbrk fails; else the heap grows by exactly the request and a block fits |
| `Umalloc.Allocator.Malloc` | umalloc.c:63-90 | NULL iff sbrk is asked and fails; sbrk is asked iff no free block is large enough, once; the new block is made of units that were free, the others unchanged, units conserved |
| `Umalloc.Allocator.Search` | umalloc.c:74-89 | the search terminates after at most one morecore |
| `Umalloc.Allocator.Carve` | umalloc.c:75-85 | the block found, or its tail, becomes allocated |
| `ProcTable.Table.constructor` | proc.c:10-27 | an empty table |
| `ProcTable.Table.Wakeup1` | proc.c:439-447 | exactly the sleepers on the channel become RUNNABLE |
| `ProcTable.Table.PassedStep` | proc.c:206-213 | one turn of exit's loop over the children |
| `ProcTable.Table.Exit` | proc.c:201-219 | the parent is woken, all children pass to init, init is woken iff one of them is a zombie, the process is a zombie with its end time |
| `ProcTable.Table.Wait` | proc.c:272-305 | the first zombie child is reaped with its times; -1 iff there is no child or the caller is killed; else asleep on its own slot |
| `ProcTable.Table.AllocProc` | proc.c:40-50 | the first UNUSED slot becomes an EMBRYO with a new pid, or none |
| `ProcTable.Table.Kill` | proc.c:462-480 | the first process with the pid is marked, and woken if asleep |
| `Sched.AcquireOk` | spinlock.c:25-40 | acquire keeps ncli the number of locks held and interrupts off; intena remembers the flag from before the first |
| `Sched.ReleaseOk` | spinlock.c:43-64 | release of a held lock cannot panic; interrupts come back only with the last lock and if they were on |
| `Sched.CpuKeeps` | spinlock.c:25-116 | no step of a processor by itself but init's exit panics, and each keeps the processor's invariant |
| `Processes.CpusKeep` | proc.c:316-366 | a step that other processors cannot tell keeps: one lock, one holder; one process, one processor |
| `Processes.PickInv` | proc.c:324-336 | the scheduler's choice keeps the system invariant |
| `Processes.ResumeInv` | proc.c:351-397 | returning from swtch into yield, sleep, wait or forkret keeps it; nobody returns into exit |
| `Processes.YieldInv` | proc.c:369-376 | yield keeps it and sched does not panic |
| `Processes.SleepInv` | proc.c:402-434 | sleep keeps it and sched does not panic, the caller's lock being released first |
| `Processes.RelockInv` | proc.c:429-433 | reacquiring the caller's lock keeps it and does not panic |
| `Processes.WakeInv` | proc.c:452-457 | wakeup keeps it |
| `Processes.KillInv` | proc.c:462-480 | kill keeps it |
| `Processes.OwnInv` | trap.c:37-48 | system call entry and exit and a fault keep it |
| `Processes.TickInv` | trap.c:51-55 | counting a tick keeps it, processor 0 then owing one charge |
| `Processes.ChargeRuns` | trap.c:58-63 | the process charged is RUNNING: the SLEEPING branch is not taken |
| `Processes.ChargeInv` | trap.c:58-63 | charging keeps it: no process is charged more ticks than have passed since it was created |
| `ProcessRuns.ForkGoInv` | proc.c:34-50 | allocproc by any process keeps the invariant |
| `ProcessRuns.ForkNextInv` | proc.c:142-153 | fork's unlocked stores, and giving the child up, keep it |
| `ProcessRuns.StartInv` | proc.c:169-171 | starting the child keeps it |
| `ProcessRuns.ExitProcs` | proc.c:201-219 | after exit every process has a live parent, and no parent of a zombie sleeps in wait |
| `ProcessRuns.ExitInv` | proc.c:179-221 | exit keeps the system invariant and does not panic |
| `ProcessRuns.ReapPids` | proc.c:239-251 | the pid returned had exited and had not been returned before |
| `ProcessRuns.WaitInv` | proc.c:225-306 | wait and waitx keep the system invariant and do not panic |
| `ProcessRuns.StepInv` | proc.c:316-434 | every step of every processor but init's exit keeps the invariant and does not panic |
| `ProcessRuns.BootInv` | proc.c:86-110 | the state at boot satisfies it |
| `ProcessRuns.RunInv` | proc.c:316-434 | so does every state of every run |
| `ProcessRuns.OnlyInitPanics` | proc.c:179-366 | in every run a step panics iff it is exit called by init: no panic of popcli or sched, none of acquire or release on ptable.lock, no return into exit |
| `ProcessRuns.InitExitReachable` | proc.c:462-480 | and that step is reachable from boot: init is killed and calls exit on its way out of the system call |
| `ProcessRuns.HandOff` | proc.c:316-376 | whenever ptable.lock is free a process is RUNNING iff exactly one processor's proc is it |
| `ProcessRuns.InterruptsOn` | spinlock.c:97-116 | a processor with interrupts on holds no lock and its process, if any, is RUNNING |
| `ProcessRuns.Exclusion` | spinlock.c:25-64 | a lock is held by one processor at most |
| `ProcessRuns.NoLostExit` | proc.c:179-306 | in every reachable state no process sleeps in wait or waitx with a zombie child, and every started process but init has a live parent |
| `ProcessRuns.ReapedOnce` | proc.c:226-306 | wait returns the pid of a zombie child not returned before, and what exited and was not returned is still a zombie |
| `ProcessRuns.WaitxAddsUp` | proc.c:279-283 | waitx's times are not negative and add up to the child's lifetime, with iotime 0 |
| `ProcessRuns.WaitxWraps` | proc.c:281-282 | on 32-bit fields, wrapped or not, wtime is right iff it is below 2^31 |
| `ProcessRuns.TickAccounting` | trap.c:50-66 | in every run: no more charges than ticks, rtime + iotime at most ticks - ctime1 for every live process, and no charge takes the SLEEPING branch |
| `VmSpec.PopInv` | kalloc.c:82-95 | kalloc keeps every page accounted for |
| `VmSpec.SetPteAt` | vm.c:71-90 | storing a page-table entry changes that entry and no other, in no address space |
| `VmSpec.RewriteTables` | vm.c:71-90 | mapping a held page, unmapping one and changing flags keep every page accounted for |
| `VmSpec.AddTableTables` | vm.c:55-62 | a new table page keeps every page accounted for |
| `VmSpec.WalkedNew` | vm.c:46-65 | making a table shows in no address space and takes one free page |
| `VmMap.MapStep` | vm.c:78-88 | one turn of mappages maps one page more and nothing else |
| `VmMap.UnmapInv` | vm.c:263-270 | freeing a user page keeps every page accounted for and gives one page back |
| `VmMap.Skipped` | vm.c:260-262 | between a missing table and the place the 4MB skip jumps to, every page is unmapped or under the next table there is, below the offset it started with |
| `VmMap.CutSkip` | vm.c:260-262 | the 4MB skip on any address space: what it passes over is exactly that |
| `VmMap.ShrunkContig` | vm.c:249-273 | on contiguous pages it passes over none |
| `VmMap.CutStep` | vm.c:259-271 | one turn of deallocuvm |
| `VmMap.GrowStep` | vm.c:232-241 | one turn of allocuvm maps one zeroed page more |
| `VmMap.GrowLeaks` | vm.c:240 | the ignored result is never "remap"; a page is lost exactly when its table is missing and it was the last free page |
| `VmMap.GrowUndone` | vm.c:234-238 | out of memory, deallocuvm leaves the address space as it was before |
| `VmSpaces.BuildStep` | vm.c:139-142 | one entry of kmap mapped |
| `VmSpaces.BuildFails` | vm.c:139-142 | setupkvm fails only with fewer than 65 free pages, all of which are then used up |
| `VmSpaces.DisownInv` | vm.c:278-292 | giving up an address space without user pages keeps all others |
| `VmSpaces.CopyDone` | vm.c:310-337 | the finished copy has equal contents and flags on other pages; all other address spaces unchanged |
| `VmSpaces.CopyUndone` | vm.c:334-336 | the failed copy: every page but a lost one has the owner it had |
| `VmSpaces.ParentPage` | vm.c:320-325 | a page of the parent below its first hole, as copyuvm finds it while the child is built: mapped, with the contents and flags it had |
| `VmSpaces.ParentEntry` | vm.c:319-322 | any page of the parent is there for copyuvm iff it was before |
| `VmSpaces.CopyNoLeak` | vm.c:310-337 | in terms of the free pages alone: when copyuvm loses a page |
| `Vm.Machine.constructor` | kalloc.c:45-52 | all pages given to freerange are on the free list once |
| `Vm.Machine.Kfree` | kalloc.c:59-77 | the page goes to the front of the free list, its contents overwritten |
| `Vm.Machine.Kalloc` | kalloc.c:82-95 | the first free page, none iff the list is empty |
| `Vm.Machine.Walk` | vm.c:45-65 | the table for the address, made if asked for; fails iff it is missing and not asked for or not to be had |
| `Vm.Machine.MapPages` | vm.c:70-90 | all pages mapped, or stopped at a missing table with no page left, or "remap" only at a page mapped before |
| `Vm.Machine.DeallocUvm` | vm.c:249-273 | on any address space: exactly the mapped pages above the new size are gone and free, but those the 4MB skip passes over; nothing else changed |
| `Vm.Machine.AllocUvm` | vm.c:220-243 | enough free pages: all mapped zeroed; else undone; a page is lost, or a hole left with the pages below it mapped zeroed and all other spaces unchanged, exactly under the stated condition on the free pages |
| `Vm.Machine.GrowOne` | vm.c:232-240 | one turn of its loop: page mapped zeroed, page lost, or no page |
| `Vm.GrowsWithHole` | vm.c:220-243 | from boot with 66 pages: allocuvm returns the new size with nothing mapped and a page lost |
| `Vm.ForkPanics` | vm.c:309-337 | a run from boot in which an address space is grown with a hole, another is freed, and fork of the first panics in copyuvm |
| `VmSpaces.PagesBack` | vm.c:277-292 | freevm gives back at least what setupkvm took |
| `Vm.Machine.SetupKvm` | vm.c:128-144 | a directory with the kernel's mappings iff 65 pages are free; else every free page is lost |
| `Vm.Machine.MapKernel` | vm.c:139-142 | one entry of kmap |
| `Vm.Machine.FreeVm` | vm.c:277-292 | on any address space: exactly its pages go back to the free list, all others unchanged |
| `Vm.Machine.FindPage` | vm.c:319-322 | the parent's entry; both panics are about one that is not there |
| `Vm.Machine.CopyPage` | vm.c:323-331 | one turn of copyuvm's loop: the page copied, or no page for it or for its table |
| `Vm.Machine.CopyUvm` | vm.c:309-337 | on any address space: 0 iff the free pages do not suffice up to the first missing page, else a panic iff a page is missing, else a copy with equal contents and flags on disjoint pages; on failure everything is restored but lost pages, whose exact condition is stated |
| `Vm.Machine.ClearPteU` | vm.c:296-305 | only the user flag of that page changes; panics iff its table is missing |
| `Grep.FirstOne` | grep.c:93-94 | a word of a pattern that begins with a character or dot |
| `Grep.FirstStar` | grep.c:101-104 | a word of a pattern that begins with a starred item |
| `Grep.HereNil` | grep.c:87-88 | the empty pattern occurs everywhere |
| `Grep.HereEnd` | grep.c:91-92 | a final $ matches exactly at the end |
| `Grep.HereOne` | grep.c:93-95 | one item, then the rest |
| `Grep.HereStar` | grep.c:89-90 | a starred item: some run, then the rest |
| `Grep.Match` | grep.c:72-82 | true iff some substring, anchored by ^ and $, is in the language of the pattern |
| `Grep.MatchHere` | grep.c:84-96 | true iff the pattern occurs at this place; the mutual recursion terminates |
| `Grep.MatchStar` | grep.c:98-106 | true iff after some run of fitting characters the rest occurs |
| `Pipe.WrapEqual` | pipe.c:84-105 | the empty test on 32-bit counters is right after they wrap |
| `Pipe.RingStep` | pipe.c:92 | the next byte goes to a place that holds no unread byte |
| `Pipe.WriterTests` | pipe.c:84-92 | on counters that wrap, the full test and the place of the next byte are right, and stay so after a byte is written |
| `Pipe.ReaderTests` | pipe.c:104-114 | the same for the empty test and the next byte read |
| `Pipe.Ring.constructor` | pipe.c:22-44 | an empty pipe with both ends open |
| `Pipe.Ring.Write` | pipe.c:77-97 | one stretch of pipewrite: as much of the data as there is room for is appended to the stream; returns, fails or sleeps as specified |
| `Pipe.Ring.Read` | pipe.c:99-120 | one stretch of piperead: the next bytes of the stream, or sleep iff empty and open |
| `Pipe.Ring.Close` | pipe.c:58-74 | one end closed, the pipe freed iff both are |
| `Pipe.StepInv` | pipe.c:58-120 | every step: bytes read are the first of those written, at most PIPESIZE in between |
| `Pipe.StepRested` | pipe.c:77-97 | a step keeps every sleeper's sleep justified iff it is not a killed writer filling the pipe beside a sleeping reader |
| `Pipe.PrefixOfSent` | pipe.c:58-120 | in every interleaving what was read is a prefix of what was written, and both only grow |
| `Pipe.AllRested` | pipe.c:77-120 | without that step a sleeping reader sees an empty pipe open for writing, a sleeping writer a full one open for reading |
| `Pipe.KilledWriterForgets` | pipe.c:84-88 | a run in which that step happens: a reader sleeps beside a full pipe |
| `ShellText.WordToken` | sh.c:266-309 | gettoken at a word returns exactly the word |
| `ShellText.SimpleParses` | sh.c:416-447 | arguments and redirections printed parse to the same exec node |
| `ShellRoundTrip.ExecParses` | sh.c:401-447 | any tree printed with parentheses where needed parses back in parseexec |
| `ShellRoundTrip.PipeParses` | sh.c:362-373 | and in parsepipe |
| `ShellRoundTrip.LineParses` | sh.c:345-360 | and in parseline |
| `ShellRoundTrip.RoundTrip` | sh.c:328-343 | printing any well-formed command tree and parsing it gives the tree back |
| `ShellRoundTrip.LineOk` | sh.c:345-360 | every tree parseline builds has proper words and fewer than MAXARGS arguments |
| `ShellRoundTrip.AcceptedRoundTrip` | sh.c:328-343 | every line the parser accepts has a normal form that parses to the same tree |
| `Shell.Parser.SkipBlanks` | sh.c:272-274 | the cursor moves to the first character that is not blank |
| `Shell.Parser.NextToken` | sh.c:266-309 | the token, its span and the cursor after it |
| `Shell.Parser.Peek` | sh.c:311-321 | skips blanks and tests the next character |
| `Shell.Parser.Redirs` | sh.c:375-398 | wraps the command in the redirections that follow, or panics on a missing file |
| `Shell.Parser.Exec` | sh.c:416-447 | agrees with the grammar; terminates by remaining length and rank |
| `Shell.Parser.Args` | sh.c:427-446 | its loop over arguments |
| `Shell.Parser.Block` | sh.c:400-414 | agrees with the grammar |
| `Shell.Parser.PipeLine` | sh.c:362-373 | agrees with the grammar |
| `Shell.Parser.Line` | sh.c:345-360 | agrees with the grammar |
| `Shell.NulTerminate` | sh.c:449-494 | a NUL after every word of the tree, and nowhere else |
| `Shell.StringsKept` | sh.c:449-494 | the NULs fall on no character of a word: every argument and file name is a C string equal to its token |
| `Shell.ParseCommand` | sh.c:328-343 | the tree of the line and its words as C strings in the buffer; a panic iff the grammar rejects the line, and then the buffer is unchanged |

## Left out

Not modelled:

- Hardware: port I/O, interrupt controllers, console, keyboard, timer, boot code, the registers of ide.c; the disk is memide.c's.
- swtch, trap frames, segment and page-table registers: a context switch is one step.
- Weak memory ordering: steps are sequentially consistent. A waiting acquire is a step that is not enabled, not a spinning loop.
- Stretches of code under ptable.lock (the loops of exit, wait, wakeup, kill) and under a pipe's lock are one step each; fork's unlocked stores are separate steps.
- initlock, holding's stack trace, procdump, cprintf.
- readi and writei on devices (devsw), stati, xint and xshort. The kernel's inodes on the disk are a table beside the inode blocks (`dinodes`); mkfs's are in the blocks.
- ilock, iunlock and the inode cache's slots and I_VALID flag: an inode with references is in the cache and valid.
- namei and nameiparent, path elements, truncation of names to DIRSIZ: operations start from a directory inode and a name. Two devices (the dev test in sys_link) are not distinguished.
- Directory contents are sequences of entries in `Links`; that readi and writei store them is the file refinement of `Fs`, not connected entry by entry.
- The composition of `Fs` with `Log`: `Fs` works on the disk as the buffer cache shows it (`Cache.current`) and records which blocks it logs.
- The contents of the superblock in mkfs's image; mkfs's assertion about `/` in file names and its exits on files it cannot open.
- exec, inituvm, loaduvm, copyout, uva2ka, growproc: sequences of calls that are modelled.
- kfree's and kalloc's use by other processors between two steps of one vm.c call; kmem.lock.
- System-call argument fetching, file descriptors and file.c's reference counts, pipealloc's error paths.
- The shell's runcmd and main; grep's main and read loop; the other user programs.
- Pids and ticks are unbounded, except in `ProcessRuns.WaitxWraps`.

Contracts that ask for something, or state less than one might expect:

- BufferCache.Cache.Brelse: asks that a changed buffer was given to log_write or bwrite before, as every caller in the kernel does.
- BufferCache.Cache.Bread: other processes only read between a process's calls; writers are excluded while commit runs, which is when the log reads.
- BufferCache.Cache.OthersRun: a reader that would sleep gives up its turn.
- BufferCache.Cache.ReaderRuns: the same.
- Log.Log.LogWrite: asks for a valid buffer of the root device, outside the log region.
- Log.Log.RecoverFromLog: asks for a header that a commit wrote or mkfs left (`GoodHead`); recovery of a corrupt header is undefined in the code as well.
- Log.Log.Commit: completion is characterised only when no other process uses the cache.
- Log.Log.CommitSome: the same.
- Log.Log.EndOp: the wakeups and sleeps around it are in `LogReservation`.
- LogReservation.ReservationHolds: that operations make at most m log_write calls is a parameter; for filewrite's chunks the bound is in `FsSpec.ChunkFits`.
- Fs.FileSystem.Writei: where balloc panics it says that every block is still accounted for, not how much was written.
- Fs.FileSystem.FileWrite: begin_op and end_op only reset the set of logged blocks.
- Mkfs.Make: from the 215th file on, where an inode goes over a block of a file, it says only that this happens (`Overrun`), not what becomes of the image.
- Mkfs.Boot: only for images of up to 206 files, whose blocks can all be accounted for.
- Links.LinkInRemoved: the directory is named by the reference that a process holds, say its current directory.
- Links.FileTree.Iput: does not truncate the file's contents; that is `Fs.FileSystem.Itrunc`.
- Umalloc.Allocator.Malloc: sbrk grows upwards, as section 8.7 of The C Programming Language assumes, and `SizesRight` says for which sizes it is asked for the right number.
- Umalloc.Allocator.Free: asks for a pointer that malloc returned and that was not freed since.
- Vm.Machine.AllocUvm: asks that no user page is mapped at or above the old size, as is the case for every process; pages below it may be missing.
- Vm.Machine.MapPages: in the user half it maps one page that was just taken from kalloc, as all callers do.
- Vm.Machine.SetupKvm: the kernel's data starts between the kernel's link address and the top of memory.
- Pipe.Ring.Write: one stretch between two sleeps; whole calls are sequences of stretches in `Pipe.Next`.
- Shell.Parser.Redirs: `>>` gives the same node as `>`, as in the code.
- Shell.Parser.Args: the exec node is extended in place through a pointer in the code; here it is rebuilt under the redirections that wrap it.
- Shell.ParseCommand: execution stops at a panic, so what the code prints is not modelled.
- Sched.CpuKeeps: `Take` and `Give`, acquire and release of a lock other than ptable.lock, are enabled only if the processor does not hold the lock, or holds it. For those locks the panics of acquire and release are excluded by hypothesis, as their callers are not modelled; for ptable.lock they are proved not to occur.
- ProcessRuns.OnlyInitPanics: rests on the same hypothesis about other locks.
- ProcessRuns.InitExitReachable: from a boot that put init in the first slot, as userinit does.
- ProcTable.Table.Wait: freeing the child's stack and address space is not modelled.
