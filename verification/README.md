# Proofs about the kernel, its tools and the two shells

This project models the parts of the repository whose correctness is hardest to see, and proves
what they promise. `dafny verify dfyconfig.toml` checks all of it. Each component of the source has a
module of its own:

- **Crash-safe storage.** `RedoLog` (the redo log, crash atomicity), `LogBudget` (how much a system call
  may log), `BufferCache` (the LRU cache), `CachedLog` (the log over that cache), `Blocks`, `Inodes`,
  `Writing`, `Holes` and `FileSystem` (free map, inodes, readi, writei, filewrite), `CrashSafety` (the
  file system above the log: what a crash in a write, a dirlink, an itrunc or a group of writes leaves),
  `Directories` (entries and paths), `Mkfs` and `RootDirectory` (the boot image). A block write is one
  atomic step, and a crash may strike between any two. Ownership is exact throughout: every block number
  held by an inode is held once, and the free map marks those and the metadata blocks only. So is the
  log: what an operation changed since its transaction began was passed to log_write, which is a
  conjunct of `FileSystem.Fs.Valid`. And where no file has a hole, as on the image of mkfs unless its
  root ends at a block boundary, writei, itrunc, filewrite and dirlink leave none, also after a crash:
  readi then never allocates or logs.
- **Memory.** `PageTables` and `Vm` (the three-level Sv39 tree as partial maps, and who owns each
  frame; section 4.4 of the RISC-V Privileged Architecture, 20211203), `FreeLists` and `Umalloc` (the
  circular free list of the user allocator).
- **Blocking and waking.** `Sleeping` (sleep, wakeup and kill under semaphores and sleep-locks) and
  `Processes` (fork, exit, wait, reparent) are step systems: one step goes from one acquire or release
  of a spinlock to the next, and the theorems are about every run. `Pipes` and `Virtio` (sections 2.6
  and 5.2 of VIRTIO 1.1) are objects whose methods are the stretches under their lock, so that an
  interleaving is a sequence of calls.
- **Parsing and matching.** `ShellGrammar`, `ShellLexer` and `ShellParser` (the recursive-descent
  parser over a moving cursor, and nulterminate, which writes into its own input), `Grep` (the matcher
  and its sliding buffer), `CStrings`.
- **Pipelines.** `Pipeline` (execute_pipeline over descriptor tables; the text without comment marks
  at `kickstart/execute.c` lines 40, 54, 76 and 129 is read as remains of comments).

An object that the source updates in place is a class, an algorithm on a buffer works on an array, and
each such method is proved against a specification on values, about which the lemmas speak. A panic
of the kernel is a precondition of the method that would reach it, so that every caller in the model
is proved not to reach it, or an outcome where callers do reach it.

What the proofs found in the code:

- `log_write` tests the size of the transaction before it looks for the block, so that an operation
  within its budget can panic when it writes a block again that is already in a full transaction
  (`LogBudget.AbsorbedWriteCanPanic`). It happens only then (`LogBudget.WithinBudgetAppends`).
- `mkfs` gives the log LOGSIZE blocks, one of which is the header: the thirtieth block of a
  transaction within budget panics (`LogBudget.ShippedLogIsOneShort`). An append within budget is safe
  in every run exactly when the log has more than LOGSIZE blocks (`LogBudget.AppendsFitExactly`).
- There are as many buffers as LOGSIZE. Where the log has room for a transaction of LOGSIZE blocks, all
  buffers are pinned when commit begins, and its first bread panics (`CachedLog.CommitNeedsBuffer`).
  With the log of `mkfs` a transaction stays below that, and commit finds its buffers as long as no
  other process holds one (`CachedLog.Commit`).
- A root directory that ends at a block boundary is rounded up by a whole block that is not there, a
  hole (`RootDirectory.RootHoles`). readi of a hole allocates, and calls log_write, exactly when a
  block is free (`FileSystem.Fs.Readi`, `FileSystem.HoleIsLogged`), although fileread opens no
  transaction; when more blocks are missing than are free, dirlookup and dirlink panic
  (`Directories.DirLookup`, `Directories.DirLink`).
- `sem_down` waits exactly when the value is 0 (`Sleeping.DownWaits`), so that on a semaphore that was
  never opened, at -1, it does not (`Sleeping.DownBeforeOpen`). A semaphore is safe from going below
  zero exactly when its value is not negative (`Sleeping.NeverBelowZero`). `sem_close` leaves 0 and
  `sem_open` acts at -1 only: a closed semaphore is never opened again (`Sleeping.NeverOpenedAgain`).
- `grep` stops without a message at a line of 1023 or more bytes before its newline or with a NUL, and
  loses the matching lines from there on and no others (`Grep.SelectsAllLines`).

## Model

| member | source | states |
|---|---|---|
| `RedoLog.CrashAtomicity` | labo2/kernel/log.c:67-123 | A crash after any number of the block writes of commit, then any number of crashes in the middle of recovery, then one completed recovery: outside the log the disk is as before the transaction, or has all logged blocks replaced by their cached contents and no others changed. It is the latter exactly when the first header write was done, and the log is then empty. |
| `RedoLog.RecoveryRestarts` | labo2/kernel/log.c:116-123 | A recovery cut short after any number of writes leaves a good header, and recovering again ends with the same blocks outside the log as an undisturbed recovery. |
| `RedoLog.CrashesDuringRecovery` | labo2/kernel/log.c:116-123 | After any sequence of crashes in recovery, recovering ends with the same blocks outside the log as one undisturbed recovery. |
| `RedoLog.InstallAgain` | labo2/kernel/log.c:67-83 | Installing a transaction again after any partial install gives what one install gives. |
| `RedoLog.BeforeHeader` | labo2/kernel/log.c:177-191 | Until the header is written the log on disk reads as empty and no block outside the log has changed. |
| `RedoLog.AfterHeader` | labo2/kernel/log.c:193-203 | From the header write on, recovery puts every logged block in place and changes nothing else outside the log; after the last write the log is empty again. |
| `RedoLog.CommitEnds` | labo2/kernel/log.c:193-203 | When only blocks of the open transaction differ between cache and disk, a commit ends with cache and disk equal and with the contents that the cache had. |
| `RedoLog.ConsistentAfterWrite` | labo2/kernel/log.c:214-235 | After a change and log_write, still only blocks of the open transaction differ between cache and disk. |
| `RedoLog.Log.WriteLog` | labo2/kernel/log.c:177-191 | Block by block, the cached contents of the transaction go into the log; the disks passed through are the first n writes of the commit that crashes are taken from. |
| `RedoLog.Log.WriteHead` | labo2/kernel/log.c:102-114 | One block write stores the list of logged blocks into the header and leaves the rest of that block. |
| `RedoLog.Log.InstallTrans` | labo2/kernel/log.c:67-83 | Copies log blocks home one write at a time, and unpins each block exactly when it is not recovering: no pin is left. |
| `RedoLog.Log.ReadHead` | labo2/kernel/log.c:85-97 | The in-memory list is the one that the header on disk holds. |
| `RedoLog.Log.RecoverFromLog` | labo2/kernel/log.c:116-123 | From any disk with a good header: ends ready for use, with cache equal to disk, an empty log, and the blocks that recovery is specified to leave. |
| `RedoLog.Log.Commit` | labo2/kernel/log.c:193-203 | Makes exactly the 2n+2 block writes that crash atomicity is proved for, and none when nothing was logged; afterwards the disk holds outside the log what the cache held. |
| `RedoLog.Log.BeginOp` | labo2/kernel/log.c:125-142 | An operation is let in exactly when no commit runs and ten more blocks for it and for every running operation fit into LOGSIZE. |
| `RedoLog.Log.LogWrite` | labo2/kernel/log.c:214-235 | Absorption: a block already logged is not logged again, a new one is appended and pinned, and the list stays distinct. |
| `RedoLog.Log.FindLogged` | labo2/kernel/log.c:225-228 | The search finds the position of the block, or the end of the list when it is not there. |
| `RedoLog.Log.EndOp` | labo2/kernel/log.c:144-175 | Only the last operation commits; then all its logged blocks are on disk in their homes and nothing is pinned. Before that neither the disk, nor the cache, nor the list changes. |
| `LogBudget.RunKeepsInv` | labo2/kernel/log.c:126-175 | Over every run of any number of processes: the open transaction lists distinct blocks, each logged by an operation within its budget, and its length plus all unspent budget of running operations is at most LOGSIZE. |
| `LogBudget.StepKeepsInv` | labo2/kernel/log.c:126-175 | One step of begin_op, log_write or end_op keeps that. |
| `LogBudget.WithinBudgetAppends` | labo2/kernel/log.c:214-235 | A log_write within budget, in a log of any size: it does not panic exactly when fewer than LOGSIZE and fewer than size - 1 blocks are logged; for a new block the second alone decides, because a transaction of LOGSIZE blocks leaves no budget, and what panics there is a write of a block already in it. |
| `LogBudget.AppendsFitExactly` | labo2/kernel/log.c:214-235 | For two system calls at once or more: an append within budget finds a slot in every run if and only if the log has more than LOGSIZE blocks. |
| `LogBudget.SmallLogFails` | labo2/kernel/log.c:219-220 | For every log of LOGSIZE blocks or fewer, a run that fills it and leaves an append within budget without a slot. |
| `LogBudget.AbsorbedWriteCanPanic` | labo2/kernel/log.c:219-228 | However large the log: a run within budget that ends where log_write of an already logged block panics, since the size test comes before the search. |
| `LogBudget.ShippedLogIsOneShort` | labo2/mkfs/mkfs.c:25 | The log that mkfs ships, nlog = LOGSIZE with its header, is one of those that fail. |
| `BufferCache.BCache.Binit` | labo2/kernel/bio.c:36-53 | The links built one buffer at a time make one ring of the head and all NBUF buffers, all unused. |
| `BufferCache.BCache.LinkAfterHead` | labo2/kernel/bio.c:47-51 | Four link updates put the buffer first in the ring. |
| `BufferCache.BCache.Bget` | labo2/kernel/bio.c:58-89 | Returns the one buffer of that block with one reference more; when the block was not cached, the buffer had no reference and, of all those, was released to zero longest ago (never-used ones first), and it is not valid. |
| `BufferCache.BCache.FindCached` | labo2/kernel/bio.c:65-73 | Walking the ring finds the buffer of the block if there is one. |
| `BufferCache.BCache.FindUnused` | labo2/kernel/bio.c:75-87 | Walking the ring backwards finds, among unreferenced buffers, one least recently released to zero. |
| `BufferCache.BCache.Bread` | labo2/kernel/bio.c:91-103 | When no one holds the block: returns it locked with the contents last written to it, whatever buffers were recycled in between; the buffer had the block, or no reference. |
| `BufferCache.BCache.Fill` | labo2/kernel/bio.c:97-102 | Whoever gets the buffer sees the latest contents: an invalid buffer is filled from a disk that holds them. |
| `BufferCache.BCache.AcquireSleep` | labo2/kernel/bio.c:70-71 | A waiter becomes the holder. |
| `BufferCache.BCache.Modify` | labo2/kernel/bio.c:91-103 | A holder's change is what every later read of the block must return. |
| `BufferCache.BCache.Bwrite` | labo2/kernel/bio.c:105-112 | The disk has the data of the buffer, which is no longer ahead of it. |
| `BufferCache.BCache.ReleaseSleep` | labo2/kernel/bio.c:114-122 | The first half of brelse: a holder lets go only of data that is on disk or pinned by the log. |
| `BufferCache.BCache.DropReference` | labo2/kernel/bio.c:124-137 | The second half: one reference less, and at zero the buffer becomes the first of the ring and the most recently released. |
| `BufferCache.BCache.Unlink` | labo2/kernel/bio.c:128-129 | Two link updates take the buffer out of the ring. |
| `BufferCache.BCache.Bpin` | labo2/kernel/bio.c:139-144 | One reference more, for the log. |
| `BufferCache.BCache.Bunpin` | labo2/kernel/bio.c:146-151 | One reference less; the count does not become zero. |
| `BufferCache.MoveToFront` | labo2/kernel/bio.c:128-133 | The six link updates of brelse keep prev and next inverse and the ring one cycle of the head and all buffers, with this buffer first. |
| `BufferCache.FrontKeepsInv` | labo2/kernel/bio.c:126-134 | Moving a buffer to the front keeps the whole invariant, the order of last releases included. |
| `BufferCache.RecycleKeepsInv` | labo2/kernel/bio.c:75-83 | Recycling keeps one buffer per block, counts equal to holders and waiters plus one if pinned, and agreement with the latest contents. |
| `BufferCache.HitKeepsInv` | labo2/kernel/bio.c:65-72 | A cache hit keeps the invariant, with one waiter more. |
| `BufferCache.FillKeepsInv` | labo2/kernel/bio.c:97-101 | The disk holds the latest contents of a block that no valid buffer holds. |
| `BufferCache.ReleaseKeepsInv` | labo2/kernel/bio.c:114-122 | Releasing a buffer that is clean or pinned keeps the invariant. |
| `BufferCache.UnpinKeepsInv` | labo2/kernel/bio.c:146-151 | Unpinning a block written back keeps the invariant, and its count was at least two. |
| `BufferCache.OldestUnused` | labo2/kernel/bio.c:75-83 | The first unreferenced buffer from the tail of the ring was released longest ago. |
| `CachedLog.Commit` | labo2/kernel/log.c:193-203 | commit over the buffers, where the pinned ones are exactly those of the transaction: with fewer blocks logged than buffers it always finds one, ends with nothing pinned or held, and the device under the cache goes through the same disks, write by write, as the log that crash atomicity speaks of. |
| `CachedLog.LogWrite` | labo2/kernel/log.c:214-235 | A change to a buffer and log_write: the buffer is pinned exactly when its block is new to the transaction, and stays in the cache when it is let go; nothing is written. |
| `CachedLog.WriteLog` | labo2/kernel/log.c:177-191 | Each pass holds two buffers, a log block and a pinned home block; the device goes through the copies of the commit. |
| `CachedLog.WriteHead` | labo2/kernel/log.c:102-114 | One write of the header buffer, which must be found beside the pinned ones. |
| `CachedLog.InstallTrans` | labo2/kernel/log.c:67-83 | Each block is written home from the cache and unpinned after that write, never while its buffer is ahead of the disk. |
| `CachedLog.CommitNeedsBuffer` | labo2/kernel/bio.c:58-89 | With no buffer held, bget of a block that is not in the transaction finds a buffer if and only if the transaction has fewer than NBUF blocks; LOGSIZE is as many (labo2/kernel/param.h:9-11). |
| `CachedLog.SomeUnused` | labo2/kernel/bio.c:75-89 | While fewer buffers are pinned and held than there are, one has no reference. |
| `CachedLog.TiedAtBoot` | labo2/kernel/bio.c:36-53 | After binit the cache shows the disk, and nothing is held or pinned. |
| `Blocks.SetOneBit` | labo2/kernel/fs.c:73-75 | Setting a clear bit of a byte changes that bit only and stays within the byte. |
| `Blocks.ClearOneBit` | labo2/kernel/fs.c:99-102 | Clearing a set bit changes that bit only. |
| `Blocks.PutWordAt` | labo2/kernel/fs.c:399-409 | Storing a 4-byte word in a block changes that word only. |
| `Inodes.AllocateStep` | labo2/kernel/fs.c:64-85 | Marking and zeroing a free block: no inode held it, what inodes hold stays, and the free map is exactly the blocks held plus this one. |
| `Inodes.FreeStep` | labo2/kernel/fs.c:90-105 | The block of any slot is marked, so bfree cannot meet a free bit; afterwards the free map is exactly what the other slots hold. |
| `Inodes.AddrStep` | labo2/kernel/fs.c:387-394 | Allocating into an address of the inode keeps exact ownership, changes no byte of any file, and changes no other slot. |
| `Inodes.EntryStep` | labo2/kernel/fs.c:399-410 | Allocating into an entry of the indirect block keeps exact ownership and the bytes of every file. |
| `Inodes.SpaceAfterWrite` | labo2/kernel/fs.c:514-525 | Bytes written into one block of a file are exactly those bytes of the file. |
| `Inodes.SpaceOfOthers` | labo2/kernel/fs.c:514-525 | A write into a block of one file changes no byte of another. |
| `Inodes.FreeNext` | labo2/kernel/fs.c:430-448 | Each step of itrunc frees one held block that is marked, and the free map follows. |
| `Inodes.FreeLast` | labo2/kernel/fs.c:437-450 | The indirect block itself goes last. |
| `Inodes.TruncateEnds` | labo2/kernel/fs.c:424-455 | Itrunc frees precisely the blocks of the file: ownership is exact with those of the inode gone, and every other file keeps its blocks and bytes. |
| `FileSystem.Fs.ScanMap` | labo2/kernel/fs.c:72-78 | The inner loop finds the first clear bit of a map block, or none. |
| `FileSystem.Fs.Balloc` | labo2/kernel/fs.c:64-88 | Returns a block that was free, now marked and zeroed, with nothing else changed; 0 only when every block is marked. |
| `FileSystem.TracedAllocated` | labo2/kernel/fs.c:64-88 | balloc changes no block without log_write. |
| `FileSystem.Fs.Bfree` | labo2/kernel/fs.c:90-105 | Clears one bit of the free map; the block must be marked, as a caller has to show. |
| `FileSystem.Fs.Bmap` | labo2/kernel/fs.c:371-421 | Returns the block of the slot; what was mapped stays and nothing changes if it was there or no block is free; otherwise at most it and the indirect block are new, and exactly as many free blocks fewer; 0 only when the disk is full; logs exactly the map, data and indirect blocks it changed. |
| `FileSystem.Fs.BmapIndirect` | labo2/kernel/fs.c:396-412 | The indirect half: the indirect block may be allocated although the data block then is not. |
| `FileSystem.Fs.Addr` | labo2/kernel/fs.c:387-398 | One address of the inode, allocated on demand. |
| `FileSystem.Fs.Entry` | labo2/kernel/fs.c:400-411 | One entry of the indirect block, allocated on demand. |
| `FileSystem.Fs.Writei` | labo2/kernel/fs.c:502-539 | Content c becomes c[..off] + src[..r] + c[off+r..]; every other file keeps its blocks and bytes; -1 exactly when off is past the end or the file would be too large; otherwise r is n exactly when the free blocks are as many as the stretch lacks, and a shorter r ends at a block boundary of a full disk. Ownership stays exact; where no file has a hole, none has one afterwards; a write of at most three blocks of bytes to a file without holes logs at most MAXOPBLOCKS blocks. |
| `FileSystem.Fs.WriteLoop` | labo2/kernel/fs.c:514-528 | The loop, with the log budget it has used; it ends early exactly when the stretch lacks more blocks than are free. |
| `FileSystem.Fs.CopyIn` | labo2/kernel/fs.c:515-525 | One pass: bmap and a copy into one block. |
| `Writing.BudgetTotal` | labo2/kernel/file.c:149-157 | Data blocks, map blocks, the indirect block and the inode of one chunk, unaligned and possibly with a new indirect block, are at most MAXOPBLOCKS distinct blocks. |
| `Writing.BudgetNext` | labo2/kernel/fs.c:514-525 | How one pass adds to that count. |
| `Writing.WriteEnds` | labo2/kernel/fs.c:530-537 | The bytes in place and the new size make the spliced contents, and no other file changes. |
| `Writing.NoHolesAfter` | labo2/kernel/fs.c:530-531 | Growing a file over blocks that are all there leaves no hole. |
| `Writing.OthersHoles` | labo2/kernel/fs.c:502-539 | Any other file has a hole after the operation if and only if it had one before. |
| `Writing.StillHoleFree` | labo2/kernel/fs.c:502-539 | Where no file had a hole and the file worked on has none, no file has one. |
| `Writing.SplicedTwice` | labo2/kernel/file.c:158-174 | Consecutive chunks splice like one write. |
| `Writing.ReadPass` | labo2/kernel/fs.c:482-494 | The bytes copied out of a block are those of the file at that offset, even when a hole was filled first. |
| `Holes.NoHolesIff` | labo2/kernel/fs.c:371-421 | A file has no hole if and only if no slot is missing for the bytes below its size, the indirect block counted. |
| `Holes.HoleFreeNeeds` | labo2/kernel/fs.c:468-486 | Where no file has a hole, no stretch of any file lacks a block. |
| `Holes.NeededParts` | labo2/kernel/fs.c:482-499 | After the first part of a stretch was filled, the second lacks exactly what is left, and there is room for it if and only if there was for the whole. |
| `Holes.FillingEnds` | labo2/kernel/fs.c:482-499 | A loop over bmap that reaches the end of its stretch took exactly the slots that the stretch lacked, and as many free blocks. |
| `Holes.FillingStops` | labo2/kernel/fs.c:484-486 | A loop that bmap stops was over a stretch that lacked more blocks than were free, and ends at one of them. |
| `FileSystem.Fs.Itrunc` | labo2/kernel/fs.c:424-455 | Frees exactly the blocks of the inode: a block is freed if and only if it was one of its slots; size 0, all addresses 0; every other file keeps its blocks and bytes, so that files without holes stay so; bfree never meets a free bit. Logs at most the blocks of the free map and one of inodes, whatever the size of the file. |
| `FileSystem.Fs.FreeDirect` | labo2/kernel/fs.c:430-435 | The loop over the direct blocks frees what each address holds. |
| `FileSystem.Fs.FreeIndirect` | labo2/kernel/fs.c:437-450 | The blocks that the indirect block lists, and that block. |
| `FileSystem.ClearsCount` | labo2/kernel/fs.c:90-105 | Freeing logs blocks of the free map only: with the inode no more than the map has blocks and one. |
| `FileSystem.Fs.Readi` | labo2/kernel/fs.c:468-500 | The bytes of the file at the offset, cut at the end of the file. All of them come back exactly when the holes of that stretch are no more than the free blocks; then these slots are mapped and no others, every other file keeping its blocks, and otherwise the disk is full and the result ends at a missing block. Nothing changes and nothing is logged when the stretch has no hole or no block is free; where no file has a hole, that is so for every file, offset and length. |
| `FileSystem.Fs.ReadLoop` | labo2/kernel/fs.c:482-499 | The loop of readi: the bytes so far are those of the file, the holes before them are filled, and it stops only at a hole of a full disk. |
| `FileSystem.HoleIsLogged` | labo2/kernel/fs.c:483-486 | readi of a stretch with a hole calls log_write while a block is free; by the contract of readi it logs nothing otherwise. fileread calls it outside of any transaction. |
| `FileSystem.Fs.FileWrite` | labo2/kernel/file.c:149-175 | The file has src[..k] spliced in at the offset and the offset moved by k; n is returned exactly when all of it was written; on a file without holes every chunk logs at most MAXOPBLOCKS blocks. Every other file keeps its blocks and bytes, and where no file has a hole, none has one afterwards. |
| `CrashSafety.TransactionIsAtomic` | labo2/kernel/log.c:193-203 | A file system in whose transaction every change was passed to log_write: a crash after any write of the commit, and any crashes of the recoveries, leave a disk that stands for the file system before the transaction, or for the one after it, the inodes in their blocks included. |
| `CrashSafety.LatestStands` | labo2/kernel/log.c:205-213 | Because no block and no inode changes without log_write, the cached blocks stand for the changed file system. |
| `CrashSafety.StandsOnce` | labo2/kernel/fs.h:31-39 | A disk stands for one set of inodes and one set of map and data blocks only. |
| `CrashSafety.RecoveredGood` | labo2/kernel/log.c:116-123 | Whatever inodes and blocks are read after the recovery, ownership is exact, the free map agrees, and every file has the contents it had in that file system. |
| `CrashSafety.CommitChanges` | labo2/kernel/log.c:144-175 | The log_write calls of all that the open operations changed, and an end_op of each: nothing reaches the disk before the last; then the disk stands for the new file system, and each disk on the way recovers to the old or the new one. |
| `CrashSafety.LogChanges` | labo2/kernel/log.c:214-235 | The log_write calls put every changed block into the cache and into the list of the transaction, once, and the disk does not change. |
| `CrashSafety.WriteOp` | labo2/kernel/file.c:162-167 | begin_op, writei and end_op of a chunk: after a crash at any block write and recovery, the file system is the one before the write, or the one with all that writei wrote, which is the whole chunk exactly when the blocks it lacks are free. Where no file has a hole, none has one afterwards. |
| `CrashSafety.FileWriteOps` | labo2/kernel/file.c:149-175 | filewrite with its transactions: after a crash at any block write and recovery, the file has a prefix of what was written spliced in, every other file its blocks and bytes, ownership is exact, and no file has a hole if none had one. |
| `CrashSafety.GroupOp` | labo2/kernel/log.c:125-175 | As many writes as begin_op admits at once, in one transaction: each is done on the state the one before it left, all of it exactly when its blocks are free, and a crash at any block write leaves, after recovery, all of the writes or none. |
| `CrashSafety.LinkOp` | labo2/kernel/fs.c:579-606 | dirlink in a transaction: a crash at any block write leaves, after recovery, the directory as it was or with the one binding more; it cannot panic and fits into the log. |
| `CrashSafety.TruncOp` | labo2/kernel/fs.c:424-455 | itrunc in a transaction whose log has room for the free map: a crash at any block write leaves, after recovery, the whole file or the empty one with all of its blocks free. |
| `Directories.Strncmp` | labo2/kernel/string.c:60-68 | Zero if and only if the two strings agree up to a NUL or n bytes. |
| `Directories.Strncpy` | labo2/kernel/string.c:70-81 | The string, padded with NULs to n bytes, and nothing else of the array. |
| `Directories.ViewIs` | labo2/kernel/fs.c:550-577 | The map that a directory stands for has exactly its live entries. |
| `Directories.DirLookup` | labo2/kernel/fs.c:550-577 | Map lookup on the name cut to 14 bytes: the inode number and the offset of its entry, or missing exactly when the name is not in the map; the directory does not change. It panics if and only if the entries it reads, up to that of the name or all, lie on more missing blocks than are free: never where no file has a hole, and then it changes and logs nothing. |
| `Directories.ReadEntry` | labo2/kernel/fs.c:558-560 | All 16 bytes of the entry come back exactly when the block it lies on is there or can be allocated; where no file has a hole they do, and nothing is logged. |
| `Directories.FindSlot` | labo2/kernel/fs.c:588-596 | The first free entry, all before it being in use, or the one past the end; a short read exactly when the entries up to it lie on more missing blocks than are free, so never where no file has a hole. |
| `Directories.DirLink` | labo2/kernel/fs.c:579-606 | Adds exactly the binding of the name cut to 14 bytes and returns 0, if and only if the name is new, the directory stays within MAXFILE blocks, and the blocks that it lacks up to its new end are free; panics if and only if its lookup does, before any write; otherwise -1 with the map and the contents unchanged. Live names stay pairwise distinct. Where no file has a hole it cannot panic, leaves none, and logs at most MAXOPBLOCKS blocks. |
| `Directories.RoomForEntry` | labo2/kernel/fs.c:599-604 | After the search, the write of the entry finds its blocks if and only if there was room for all that the directory lacked up to its new end. |
| `Directories.NeverStraddles` | labo2/kernel/fs.h:53-59 | A 16-byte entry never stops at a block boundary, so dirlink writes all of it or nothing. |
| `Directories.LinkView` | labo2/kernel/fs.c:588-604 | An entry in a free slot or at the end adds one binding. |
| `Directories.MakeEntry` | labo2/kernel/fs.c:597-598 | The entry reads back as the name cut to 14 bytes and the inode number modulo 65536. |
| `Directories.SkipElem` | labo2/kernel/fs.c:622-645 | Takes the first element of the path, cut to 14 bytes, and returns where the others begin; fails exactly when there is none. |
| `Directories.Walk` | labo2/kernel/fs.c:651-683 | Iterating skipelem gives exactly the non-empty pieces between slashes, each cut to 14 bytes, in order. |
| `Directories.ElementsOfJoin` | labo2/kernel/fs.c:609-621 | Joining elements of at most 14 bytes with slashes and splitting again gives them back. |
| `Mkfs.Builder.Ialloc` | labo2/mkfs/mkfs.c:220-233 | Numbers are handed out in order and nothing else changes. |
| `Mkfs.Builder.Locate` | labo2/mkfs/mkfs.c:263-283 | The block of the file, taking the next free blocks for it and the indirect block when they are missing. |
| `Mkfs.Builder.Iappend` | labo2/mkfs/mkfs.c:252-294 | The bytes are appended to the file, no other file changes, blocks are owned once each, and exactly the blocks that the new size needs are used. |
| `Mkfs.Builder.MapBlock` | labo2/mkfs/mkfs.c:241-246 | The block has exactly the first `used` bits set. |
| `Mkfs.Builder.Finish` | labo2/mkfs/mkfs.c:163-170 | The image is a file system with exact ownership and a matching free map; every file has the appended bytes, the root zeroes after them. |
| `Mkfs.RoundedHoles` | labo2/mkfs/mkfs.c:163-168 | Rounding the root size up leaves no hole if and only if the size was not a multiple of BSIZE. |
| `Mkfs.ReadBack` | labo2/kernel/fs.c:471-500 | The kernel's readi of a file of the image returns the concatenated appends and allocates nothing. |
| `Mkfs.MapMatchesImage` | labo2/mkfs/mkfs.c:234-249 | The map written by balloc is exactly the blocks in use. |
| `RootDirectory.MakeFs` | labo2/mkfs/mkfs.c:117-170 | For any names and contents that fit: file 2+k has the concatenated pieces read, the root directory is the map with ".", ".." and each name, and no file of the image has a hole if and only if the root does not end at a block boundary. |
| `RootDirectory.MakeFile` | labo2/mkfs/mkfs.c:150-161 | One file of the loop: an entry and the contents. |
| `RootDirectory.RootHoles` | labo2/mkfs/mkfs.c:163-168 | The root has no hole, reading all of it lacks no block, and no file of the image has a hole, each if and only if the number of entries is not a multiple of 64. |
| `Vm.Machine.Kinit` | labo2/kernel/kalloc.c:26-40 | Every whole page between the end of the kernel and PHYSTOP is free, and no other. |
| `Vm.Machine.Kalloc` | labo2/kernel/kalloc.c:65-82 | Takes the first free frame, which no table or page uses; 0 only when none is free; every table maps as before. |
| `Vm.Machine.Kfree` | labo2/kernel/kalloc.c:42-63 | The frame is one of the allocator's and was not free; it becomes the first free one. |
| `Vm.Machine.Walk` | labo2/kernel/vm.c:72-103 | Returns the entry for the address; with alloc it adds only empty tables, changes no mapping and fails only when no frame is free; without alloc it changes nothing. |
| `Vm.Machine.Descend` | labo2/kernel/vm.c:91-101 | One level of walk: the table that an entry points to, made if there is none and alloc is set. |
| `Vm.Machine.Mappages` | labo2/kernel/vm.c:138-165 | Adds exactly the mappings of its range, to consecutive frames with the permissions and PTE_V; on -1 exactly those before the page that had no table. |
| `Vm.Machine.Uvmunmap` | labo2/kernel/vm.c:167-192 | Removes exactly the mappings of its range, and with do_free gives back exactly their frames. |
| `Vm.Machine.Uvmdealloc` | labo2/kernel/vm.c:251-268 | Removes and frees exactly the pages above the new size. |
| `Vm.Machine.Uvmalloc` | labo2/kernel/vm.c:223-249 | On success exactly the pages up to the new size are new, zeroed, each with a frame of its own; on failure every mapping, page and content is as before, and only empty tables may be new. |
| `Vm.Machine.AddPage` | labo2/kernel/vm.c:233-246 | One kalloc and mappages, or neither. |
| `Vm.Machine.Undo` | labo2/kernel/vm.c:251-268 | Pages added and removed again leave the map as it was. |
| `Vm.Machine.Uvmcopy` | labo2/kernel/vm.c:299-334 | On success the new table has a copy of each page with its permissions, in frames of its own; on failure its map is as before and no frame is lost. |
| `Vm.Machine.Uvmcreate` | labo2/kernel/vm.c:195-206 | An empty table, or 0 when no frame is free. |
| `Vm.Machine.Freewalk` | labo2/kernel/vm.c:270-288 | Called on a table without leaves, never reaches its panic and gives back the table and all tables below it, each once. |
| `Vm.Machine.Uvmfree` | labo2/kernel/vm.c:290-297 | When all pages below sz and no others are mapped: table and pages are gone, each frame is free exactly once, and everything else is as before. |
| `PageTables.TableAdded` | labo2/kernel/vm.c:95-101 | Linking in a zeroed frame keeps the tree and changes no mapping of any table. |
| `PageTables.LeafSet` | labo2/kernel/vm.c:155-158 | Storing a leaf entry changes the mapping of one page of one table. |
| `PageTables.PopFrame` | labo2/kernel/kalloc.c:73-77 | Taking a frame keeps free frames and frames in use disjoint and together all of memory. |
| `PageTables.PushFrame` | labo2/kernel/kalloc.c:58-62 | Giving a frame back keeps that too. |
| `PageTables.FramesAllApart` | labo2/kernel/kalloc.c:18-24 | Two uses never share a frame, and a used frame is not free. |
| `PageTables.MakePteIs` | labo2/kernel/riscv.h:338-352 | Page number and flags of an entry come apart again, and a leaf is an entry with R, W or X (section 4.4 of the RISC-V Privileged Architecture). |
| `PageTables.SameIndices` | labo2/kernel/riscv.h:354-357 | The three 9-bit indices determine the page number. |
| `PageTables.TableFreed` | labo2/kernel/vm.c:270-288 | A table without children and leaves can go: what is left is a tree. |
| `Vm.AddedUndone` | labo2/kernel/vm.c:233-248 | Adding pages and then removing them restores the map. |
| `Vm.AllGone` | labo2/kernel/vm.c:290-297 | Unmapping all pages and freeing all tables leaves nothing of the table and changes no other. |
| `Umalloc.Allocator.Malloc` | labo2/user/umalloc.c:62-90 | Returns a block of at least the bytes asked for, disjoint from every block in use; morecore is called at most once, and 0 means that sbrk failed. The list stays a ring in address order, fully coalesced, and free and used blocks together are exactly the memory from sbrk. |
| `Umalloc.Allocator.Free` | labo2/user/umalloc.c:24-44 | The block leaves the blocks in use and no other does; the list stays ordered, coalesced and a ring. |
| `Umalloc.Allocator.Morecore` | labo2/user/umalloc.c:46-60 | After a successful sbrk some free block is large enough; after a failed one nothing changed. |
| `Umalloc.Allocator.FindPlace` | labo2/user/umalloc.c:30-32 | The search loop ends, at the block before this one in address order, or at the end of the ring. |
| `Umalloc.Allocator.Take` | labo2/user/umalloc.c:74-83 | The block found, or its tail, goes into use. |
| `Umalloc.Allocator.Init` | labo2/user/umalloc.c:69-72 | The first call makes a ring of the base alone. |
| `FreeLists.LinkedHeap` | labo2/user/umalloc.c:33-37 | Linking the block in, merged with the next when they touch: ordered, and covering the same memory. |
| `FreeLists.MergedHeap` | labo2/user/umalloc.c:38-42 | Merging with the block before ends with a fully coalesced list. |
| `FreeLists.SearchEnds` | labo2/user/umalloc.c:30-32 | The loop test of free is true at one place of the ring only. |
| `FreeLists.TakeExact` | labo2/user/umalloc.c:75-76 | A block of the right size leaves the list. |
| `FreeLists.TakeTail` | labo2/user/umalloc.c:77-81 | The tail of a larger block goes into use. |
| `FreeLists.Granted` | labo2/user/umalloc.c:53-58 | New memory is, at first, a block in use next to the others. |
| `FreeLists.RingInsert` | labo2/user/umalloc.c:33-42 | The pointer updates of free keep the ring. |
| `FreeLists.RingRemove` | labo2/user/umalloc.c:75-76 | The pointer update of malloc keeps the ring. |
| `Sleeping.NoLostWakeups` | labo2/kernel/proc.c:545-592 | After any run: while the spinlock of a semaphore is free and its value is not zero, or that of a sleep-lock and it is not locked, no process is SLEEPING on it. |
| `Sleeping.SemaphoreCounts` | labo2/kernel/sysproc.c:113-208 | Every semaphore, open or closed, in every run: value = start + ups - completed downs, where start is -1 after sem_init, N after a successful sem_open and 0 after a close; not negative when start is not, and start is not negative while it is open. |
| `Sleeping.NeverBelowZero` | labo2/kernel/sysproc.c:113-208 | No continuation, whatever is opened and closed in it, has a semaphore below zero if and only if its value is not negative now. |
| `Sleeping.ValueStays` | labo2/kernel/sysproc.c:113-208 | A value that is not negative stays so over every run, with any sem_open, sem_close, sem_up and sem_down of any process. |
| `Sleeping.NeverOpenedAgain` | labo2/kernel/sysproc.c:113-161 | sem_open acts at -1 only and sem_close leaves 0: after a close, or an open with N >= 0, no sem_open in any continuation takes effect. |
| `Sleeping.DownWaits` | labo2/kernel/sysproc.c:188-207 | The loop test of sem_down sleeps exactly when the value is 0; otherwise it takes one off, and a value below zero stays below zero without anyone waiting. |
| `Sleeping.SleepLockExcludes` | labo2/kernel/sleeplock.c:21-41 | At most one process holds a sleep-lock. |
| `Sleeping.DownBeforeOpen` | labo2/kernel/sysproc.c:104-110 | The other case occurs: a down on a semaphore that was never opened takes it from -1 to -2. |
| `Sleeping.UpBeforeOpen` | labo2/kernel/sysproc.c:163-185 | Where a semaphore started from does not decide it: one sem_up before any sem_open gives 0, and from then on no continuation is below zero, although start is -1. |
| `Sleeping.StepKeepsInv` | labo2/kernel/proc.c:545-616 | Every step of every process keeps the invariant behind these. |
| `Sleeping.RunKeepsInv` | labo2/kernel/proc.c:545-616 | Every run keeps the invariant, whatever the order of turns. |
| `Sleeping.KeepsFallAsleep` | labo2/kernel/proc.c:562-568 | Setting chan and SLEEPING under p->lock: the sleeper had seen that it must wait, or a wakeup is still to come to it. |
| `Sleeping.KeepsScan` | labo2/kernel/proc.c:582-591 | The scan of wakeup leaves no sleeper on the channel behind it. |
| `Sleeping.KeepsKill` | labo2/kernel/proc.c:597-616 | kill may wake any process; it goes back to its loop. |
| `Sleeping.KeepsTake` | labo2/kernel/sysproc.c:188-207 | sem_down and acquiresleep past their loops take what no one else can. |
| `Sleeping.KeepsChange` | labo2/kernel/sysproc.c:113-185 | sem_up, sem_close, sem_open and releasesleep change the value under the lock, and a change that unblocks is followed by wakeup before the lock is released. |
| `Sleeping.BootedInv` | labo2/kernel/sysproc.c:103-110 | The state that sem_init leaves satisfies the invariant. |
| `Processes.ParentsLive` | labo2/kernel/proc.c:330-386 | After any run a parent that is not null is never UNUSED or ZOMBIE, and never the process itself. |
| `Processes.ReapedOnceByParent` | labo2/kernel/proc.c:390-435 | Whatever wait returned: by the parent of that moment, the pid and status that the child exited with, and no pid twice. |
| `Processes.NoZombieMissed` | labo2/kernel/proc.c:346-386 | Whenever wait_lock is free, no process that sleeps in wait has a ZOMBIE child. |
| `Processes.StepKeepsInv` | labo2/kernel/proc.c:279-435 | Every step of every process keeps the invariant behind these. |
| `Processes.StepFork` | labo2/kernel/proc.c:109-150 | allocproc and fork: a claimed slot is no one's child until fork links it, and the linked parent is alive. |
| `Processes.StepExit` | labo2/kernel/proc.c:346-386 | exit and reparent: all children are passed on, and initproc and the parent woken, before the process is a ZOMBIE. |
| `Processes.StepWait` | labo2/kernel/proc.c:390-435 | wait: its scan under wait_lock misses no ZOMBIE child before it sleeps, and a child is reaped once. |
| `Processes.StepRest` | labo2/kernel/proc.c:545-616 | sleep's last steps and kill. |
| `Processes.RunKeepsInv` | labo2/kernel/proc.c:279-435 | No run from a state with the invariant breaks it, whatever the order of turns. |
| `Processes.BootedInv` | labo2/kernel/proc.c:232-256 | initproc alone satisfies the invariant. |
| `Pipes.Pipe.constructor` | labo2/kernel/pipe.c:22-56 | An empty open pipe. |
| `Pipes.Pipe.Write` | labo2/kernel/pipe.c:76-103 | The bytes from where it was on are accepted in order; it sleeps only with a full ring; -1 only when the read end is closed or the process is killed; otherwise all was written or a copy failed. |
| `Pipes.Pipe.Read` | labo2/kernel/pipe.c:105-130 | The oldest bytes in order, at most n; it sleeps only when everything accepted is consumed and the write end is open; when copies succeed and n > 0, 0 is returned only when everything accepted is consumed and the write end is closed. |
| `Pipes.Pipe.Close` | labo2/kernel/pipe.c:58-74 | Each end closes; freed exactly when both are closed. |
| `Pipes.Fifo` | labo2/kernel/pipe.c:11-20 | Consumed plus ring is accepted, in order, and at most PIPESIZE bytes are between the counters modulo 2^32. |
| `Pipes.Pushed` | labo2/kernel/pipe.c:94-96 | One byte into the ring, across the wrap of the counters and of the index. |
| `Pipes.Popped` | labo2/kernel/pipe.c:120-122 | One byte out of it. |
| `Virtio.Disk.AllocDesc` | labo2/kernel/virtio_disk.c:155-166 | A free descriptor becomes no one's; -1 only when none is free. |
| `Virtio.Disk.FreeDesc` | labo2/kernel/virtio_disk.c:168-181 | The descriptor is in use, so the panics are not reached; it becomes free and nothing else changes. |
| `Virtio.Disk.Alloc3` | labo2/kernel/virtio_disk.c:199-213 | Three different descriptors if and only if three are free; otherwise as many are free afterwards as before. |
| `Virtio.Disk.FreeChain` | labo2/kernel/virtio_disk.c:183-197 | Following next from the head frees the three descriptors of the chain, each once. |
| `Virtio.Disk.Format` | labo2/kernel/virtio_disk.c:240-262 | Header, data and status descriptors with flags and links as a device expects. |
| `Virtio.Disk.Start` | labo2/kernel/virtio_disk.c:216-281 | A new request, a complete 3-chain, recorded, in the avail ring, if and only if three descriptors are free, which is when fewer than two requests have a chain; otherwise no request changes. |
| `Virtio.FreeCount` | labo2/kernel/virtio_disk.c:199-213 | The free descriptors, those allocated and not yet in a chain, and three for each chain are always NUM. |
| `Virtio.Disk.Submit` | labo2/kernel/virtio_disk.c:240-281 | The second part of it: avail ring before its 16-bit index. |
| `Virtio.Disk.Finish` | labo2/kernel/virtio_disk.c:283-292 | Once the buffer is no longer busy its request is done and answered, and its chain becomes free. |
| `Virtio.Disk.Intr` | labo2/kernel/virtio_disk.c:294-327 | Each answered request is completed exactly once, in used-ring order. |
| `Virtio.Disk.IntrOne` | labo2/kernel/virtio_disk.c:311-324 | Every completed id is the head of an in-flight chain whose buffer is recorded and whose status is 0. |
| `Virtio.Disk.DeviceTake` | labo2/kernel/virtio_disk.c:264-275 | What the device takes from the avail ring is a complete formatted chain. |
| `Virtio.Disk.DeviceAnswer` | labo2/kernel/virtio_disk.c:306-313 | The device may answer taken requests in any order; the used ring has room. |
| `Virtio.SplitLinks` | labo2/kernel/virtio_disk.c:240-262 | Three pending descriptors become a chain disjoint from all others. |
| `Virtio.SplitUnlinks` | labo2/kernel/virtio_disk.c:183-197 | A chain ends with its three descriptors pending. |
| `Virtio.TrackedDone` | labo2/kernel/virtio_disk.c:311-323 | A request is completed at most once. |
| `Virtio.HoldsPush` | labo2/kernel/virtio_disk.c:264-272 | A ring with 16-bit indices that wrap has one entry more at the end of its queue. |
| `Virtio.HoldsPop` | labo2/kernel/virtio_disk.c:311-323 | Taking one from such a ring takes the oldest entry of its queue. |
| `Grep.Match` | labo2/user/grep.c:70-80 | True if and only if the text can be split into one piece for each item of the pattern, from its beginning after a leading '^', from anywhere otherwise; terminates on all strings. |
| `Grep.MatchHere` | labo2/user/grep.c:82-94 | True if and only if the text begins with such pieces; a final '$' takes the end of the text only. |
| `Grep.MatchStar` | labo2/user/grep.c:96-105 | True if and only if some run of characters that fit, possibly empty, is followed by a match of the rest. |
| `Grep.BeginsMany` | labo2/user/grep.c:87-88 | What c* means: every length of run is allowed. |
| `Grep.BeginsOne` | labo2/user/grep.c:91-92 | A literal or '.' takes one character. |
| `Grep.BeginsEnd` | labo2/user/grep.c:89-90 | '$' at the end of the pattern means the end of the text. |
| `Grep.Grep` | labo2/user/grep.c:10-34 | However read() splits the input, the output is the matching lines up to the first that does not fit into the buffer, is cut by a NUL, or has no newline. |
| `Grep.ScanLines` | labo2/user/grep.c:21-28 | The inner loop writes exactly the matching complete lines of the buffer and stops at the unfinished one, although it leaves NULs behind. |
| `Grep.ScanLine` | labo2/user/grep.c:21-27 | One line of it, with the newline put back when it matches. |
| `Grep.FindNewline` | labo2/user/grep.c:21 | strchr: the first newline before a NUL. |
| `Grep.Read` | labo2/user/grep.c:18-20 | Any non-zero number of the bytes left, within the room there is. |
| `Grep.SelectsWhenShort` | labo2/user/grep.c:10-34 | For lines of at most 1023 bytes with their newline and no NUL: exactly the matching lines. |
| `Grep.SelectsAllLines` | labo2/user/grep.c:10-34 | For every input: exactly the matching lines if and only if no matching line comes at or after the first that fills the buffer or holds a NUL. |
| `Grep.StopsAtNul` | labo2/user/grep.c:21 | A NUL hides everything from its line on, whatever follows it. |
| `Grep.TextHasLines` | labo2/user/grep.c:10-34 | Every input is some lines and an unfinished one. |
| `ShellGrammar.ParsesGrammar` | labo2/user/sh.c:328-448 | Parsing tokens succeeds with a tree if and only if they spell a sentence of the grammar with that meaning: commands of at most nine words with redirections anywhere, blocks, pipes, lists and backgrounds. |
| `ShellGrammar.LineComplete` | labo2/user/sh.c:345-360 | Every sentence followed by ")" or the end is parsed to its meaning, and the rest is left. |
| `ShellGrammar.LineSound` | labo2/user/sh.c:345-360 | Whatever a line is parsed to, the tokens consumed spell a sentence with that meaning. |
| `ShellGrammar.PipeComplete` | labo2/user/sh.c:362-373 | Every pipe of the grammar is parsed to its meaning, up to where it ends. |
| `ShellGrammar.ExecComplete` | labo2/user/sh.c:400-448 | Every command or block of the grammar is parsed to its meaning. |
| `ShellGrammar.ArgsComplete` | labo2/user/sh.c:430-444 | The words of a command and the redirections among them are found in order. |
| `ShellLexer.ParsesPrinted` | labo2/user/sh.c:328-448 | parsecmd(print(t)) = t for every command tree with at most nine well-formed words for a command: the parenthesised text is parsed, and the words of the result read as those of the tree. |
| `ShellLexer.PrintableIffParsed` | labo2/user/sh.c:328-448 | Those trees are exactly the ones that some command line is parsed to. |
| `ShellLexer.ShownSentence` | labo2/user/sh.c:266-306 | Any sentence written with spaces between its tokens is parsed to its meaning. |
| `ShellLexer.LexShow` | labo2/user/sh.c:266-306 | The tokens written are the tokens read. |
| `ShellLexer.LexGives` | labo2/user/sh.c:266-306 | A word token is a maximal run of characters that are neither spaces nor symbols. |
| `ShellLexer.ParsedIsWhole` | labo2/user/sh.c:400-448 | Every word of a parsed tree is a whole word of the line, no command has more than nine, and redirections have the flags and descriptor of <, > or >>. |
| `ShellLexer.TextLine` | labo2/user/sh.c:345-360 | Parsing does not depend on what the words are. |
| `ShellParser.Parser.GetToken` | labo2/user/sh.c:266-306 | Returns the next token and leaves the others; a word comes with its bounds, ">>" as '+', the end as 0. |
| `ShellParser.Parser.Peek` | labo2/user/sh.c:311-320 | Consumes no token and sees whether the next begins with one of the characters; the cursor is at the end exactly when no token is left. |
| `ShellParser.Parser.ParseRedirs` | labo2/user/sh.c:375-398 | The redirections, in order, or the panic for a missing file. |
| `ShellParser.Parser.ParseArgs` | labo2/user/sh.c:430-447 | No store goes past argv[MAXARGS-1]; ten words panic; the null-terminated arrays hold the words. |
| `ShellParser.Parser.ParseExec` | labo2/user/sh.c:415-448 | A command or a block as the token parser gives it. |
| `ShellParser.Parser.ParseBlock` | labo2/user/sh.c:400-413 | A line in parentheses with its redirections. |
| `ShellParser.Parser.ParsePipe` | labo2/user/sh.c:362-373 | Commands joined to the right. |
| `ShellParser.Parser.ParseLine` | labo2/user/sh.c:345-360 | Terminates on every string, with the tree and the tokens left that the token parser gives, or its panic. |
| `ShellParser.NulTerminate` | labo2/user/sh.c:450-494 | Writes a NUL at the end of each word and file of the tree, and nowhere else. |
| `ShellParser.WordsStand` | labo2/user/sh.c:450-494 | The NUL after one word is never inside another: each C string is exactly the token scanned. |
| `ShellParser.ParseCmd` | labo2/user/sh.c:328-343 | On every C string: the panic of the parser with the line unchanged, or its tree, with each argv and file C string in the changed buffer exactly the token scanned. |
| `Pipeline.ExecutePipeline` | kickstart/execute.c:68-160 | For any pipeline, table with descriptors 0 and 1 open, and results of fork: nothing, the lone builtin or an abort without any fork; otherwise child i for each command, wired before its redirections as specified, up to the first command that cannot be started. When all are started: the starting table, n-1 pipes, and one waitpid for each child in order exactly when in the foreground. |
| `Pipeline.WiredRight` | kickstart/execute.c:112-130 | Child i has as its input the read end of pipe i-1 and as its output the write end of pipe i, and no other end of a pipe made here; its other descriptors are the shell's. |
| `Pipeline.PipeHasOneWriter` | kickstart/execute.c:112-130 | Pipe k is open for writing in child k only and for reading in child k+1 only. |
| `Pipeline.FourAreEnough` | kickstart/execute.c:96-110 | Four free descriptors are enough for a pipeline of any length. |
| `Pipeline.Launch` | kickstart/execute.c:96-150 | One iteration: fails exactly when two descriptors are not free for its pipe or fork fails; otherwise only the new pipe is left open in the shell. |
| `Pipeline.RunChild` | kickstart/execute.c:112-143 | What the forked child runs and with which descriptors. |
| `Pipeline.Wire` | kickstart/execute.c:112-130 | The close and dup2 calls of the child leave its input and output on the right pipe ends and nothing else changed. |
| `Pipeline.TakeEnd` | kickstart/execute.c:113-119 | One close, dup2 and close. |
| `Pipeline.ExecuteScommand` | kickstart/execute.c:16-65 | Input and output are the files redirected to, nothing else changes in the table, and the arguments are the words of the command; exits when a file cannot be opened. |
| `Pipeline.OpenAs` | kickstart/execute.c:30-41 | open, dup2 and close put the file at the descriptor and leave no other open. |
| `Pipeline.Start` | kickstart/execute.c:69-84 | An empty first command is dropped; an empty pipeline, a lone builtin and a lone empty command end the call. |
| `Pipeline.Descriptors.Lookup` | kickstart/tests/syscall_mock.c:51-61 | The lowest closed descriptor, or -1 when there is none. |
| `Pipeline.Descriptors.Pipe` | kickstart/tests/syscall_mock.c:226-256 | Two closed descriptors become the ends of a pipe of their own; -1, with the table unchanged, exactly when fewer than two are closed. |
| `Pipeline.Descriptors.Open` | kickstart/tests/syscall_mock.c:156-175 | The file at the lowest closed descriptor. |
| `Pipeline.Descriptors.Close` | kickstart/tests/syscall_mock.c:177-187 | Closes an open descriptor; -1 and no change otherwise. |
| `Pipeline.Descriptors.Dup2` | kickstart/tests/syscall_mock.c:207-224 | The new descriptor is a copy of the old; -1 and no change when the old is closed or a number is out of range. |

## Left out

- RedoLog.Log.LogWrite: demands room in the log even for an absorbed block, as the test of log_write does.
- BufferCache.BCache.Bget: demands an unreferenced buffer or a cached block, because readers can hold buffers outside the log budget ("bget: no buffers").
- FileSystem.Fs.Writei: copies from a kernel source, whole chunks at a time; a user copy that fails part of the way through a block is not modelled.
- FileSystem.Fs.Readi: copies to a kernel destination; blocks that it allocates for holes are in the inode in memory only until an iupdate, as in the code.
- Directories.DirLookup: the inode found is given by its number; iget and iput are not part of this model, nor is the panic for an inode that is no directory.
- CrashSafety.CommitChanges: the log_write calls come after the changes of the operations, each block once; the order of the calls of writei among them is in RedoLog and LogBudget only.
- CrashSafety.GroupOp: the operations of a group are writes, one after the other, to files without holes and of at most three blocks, as filewrite calls writei; their interleaving by block is not modelled.
- CrashSafety.TruncOp: itrunc as a transaction of its own; other writes of the same transaction are not counted with it.
- CachedLog.Commit: no other process holds a buffer while it runs, and it demands fewer logged blocks than buffers, as the "bget: no buffers" panic does; the recovery at boot is proved over a plain map only (RedoLog.Log.RecoverFromLog).
- Umalloc.Allocator.Malloc: for requests whose byte size fits the int of sbrk; a failed sbrk leaves the heap as it was.
- Sleeping.SemaphoreCounts: values are unbounded integers; overflow of the C int is not modelled.
- Processes.ReapedOnceByParent: pids are unbounded; the wrap of nextpid is not modelled.
- Processes.NoZombieMissed: RUNNABLE and RUNNING are one state and pid_lock is held within one step; memory, files and the scheduler's choice are left open.
- Pipeline.ExecutePipeline: execvp succeeds in the child, waitpid succeeds in the parent, and what a builtin does is not modelled.
- ShellParser.Parser.ParseExec: the exec node is built when its words are known; the code allocates it first and lets redirections wrap it while it is filled.
- Grep.Read: an error of read ends the input where it happens.
- Type, device numbers and link count of disk inodes: a transaction leaves those words as they are.
- The link word that kalloc keeps inside a free page: the free list is a sequence of frames.
- Reference counts of inodes and files (iget, iput, filealloc, fileclose), link counts, and ialloc of the kernel.
- Spinlock internals, memory fences and interrupt flags: a spinlock gives mutual exclusion.
- Device registers, virtio_disk_init, and the contents that a disk request moves.
- kvmmake, uvmfirst, uvmclear, copyin and copyout, walkaddr: they read or set up what the functions above maintain.
- Stripping of "user/" and "_" from names in mkfs: the names are those after it; files that cannot be opened end mkfs.
- runcmd and getcmd of the shell, malloc failures in the parser, and the other user programs.
- Console, formatted output, boot, traps and system-call argument handling, where the difficulty is in hardware or formatting.
- Parsing, command objects and builtins of kickstart: thin wrappers round library queues.
