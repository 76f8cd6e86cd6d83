# SBUnix in Dafny

A model of the parts of SBUnix, a single-hart RISC-V kernel and its C library, whose correctness rests on state that
several operations share, with proofs of what those operations keep and promise together. `dafny verify
dfyconfig.toml` checks everything.

Kernel code is never preempted and the disk driver polls, so each system call is one step, broken only where it
sleeps. Objects that the kernel changes in place are classes; what their methods promise is stated against functions
and predicates over values. Machine integers wrap where the source relies on it.

- **Storage.** `LogSpec` defines the write-ahead log's commit and recovery as sequences of block writes and proves
  crash atomicity for every cut of either. `BufferCache` and `WriteAheadLog` are the block cache and the log in place;
  their disk writes are exactly the specified sequences, and uncommitted data never reaches a home block. `Sbfs*` is
  the file system on top: inode table, bitmap, direct, indirect and double-indirect blocks, with exact block
  ownership, byte-level effects, the bound on what a transaction logs, and the crash theorem for whole files
  (`SbfsCrash`), which every operation that commits discharges. `Mkfs` makes the disk these operations start from, and
  `SbfsMount` mounts it, fresh or after any crash. `Lru` is the order both caches keep.
- **Page cache.** `PageCache` shows that caching, eviction, writeback and invalidation are invisible to readers;
  `SbfsPages` connects it to the file system.
- **Virtual memory.** `VmaList` is the list of areas with splitting, stack growth and the mmap gap search.
  `FrameAccounts` balances reference counts, free list, page tables and mappings; `CowVm` is fork, faults, stores,
  unmapping and exit over it, with isolation: outside one root slot nobody sees another process's stores.
- **Heap.** `HeapSpec` and `Heap` are malloc, free and realloc over a word-addressed arena: tiling, ordering,
  coalescing, disjoint blocks, preserved contents.
- **Pipes, tmpfs, time, signals.** `Pipe` interleaves readers and writers at their sleep points; `TmpfsSpec` and
  `Tmpfs` keep an in-memory tree and its link counts; `Calendar` is the day-number arithmetic; `SignalSpec` and
  `Signals` deliver signals and return from handlers, with every `Process` carrying its own run so that `Bracketing`
  applies to it.

## Where the code does less than one might expect

- A read stops at a hole instead of returning zeros (`SbfsBytes.HoleReadsShort`); it is complete exactly on ranges
  without holes (`SbfsBytes.ReadFull`).
- A write beyond the end that finds the disk full can still raise the file's size to its offset
  (`Sbfs.FileSystem.Writei`, through `Stamp`).
- A fork that fails leaves the parent's pages read-only while its areas are not marked copy-on-write, so stores that
  worked before are refused: `CowVm.Vm.Fork` says which for every address of every process, through
  `CowVm.StoresAfterFailure`, and `CowVm.FailedForkRun` is a run.
- Every root table is a copy of the kernel's, so the root slot from 0x8000_0000 to 0xC000_0000 leads every process to
  one table of the kernel. A page mapped there is seen and stored to by all processes, fork and exit leave it alone,
  and outside it isolation holds: `CowVm.SameKey` and `CowVm.Isolation` have the if-and-only-if, `CowVm.SharedSlotRun`
  is a run. Unmapping pages below 0x8800_0000 would clear the kernel's own map (`CowVm.Vm.UnmapRange`,
  `FrameAccounts.PutUnheld`).
- An entry without permissions looks like a pointer to a table, so fork, unmapping and exit pass over it: it outlives
  its area, a writable area that follows cannot be stored to there, and exit loses its frame. `CowVm.Vm.UnmapRange` and
  `CowVm.Vm.Exit` say exactly when, and `CowVm.BlankRun` is a run.
- Sharing that runs out of memory keeps one reference too many on the page it stopped at, and a demand-zero fault that
  cannot get a page table loses its page while reporting success (`CowVm.Vm.ShareOne`, `CowVm.Vm.DemandZero`). The
  accounts stay balanced with such a reference counted as held by kernel code. While there is none, the count of a
  mapped frame is the number of its mappings (`FrameAccounts.ExactCounts`) and every frame is free, mapped or a table
  (`FrameAccounts.EveryFrame`). Which operations keep it so is stated for each: a successful fork and unmapping always,
  exit exactly without entries that have no permissions, faults and stores exactly when no page is lost.
- The stack grows over whatever lies between it and the fault. The reserve that MAP_FIXED leaves prevents this only
  while the limit is not raised (`VmaList.GrownOk`, `VmaList.ReserveSuffices`, `VmaList.GrowsOver`).
- A write drops the cached pages of its range even if they are dirty, and with them the stores that had not been
  written back (`PageCache.Coherent`, through `SeenAfter`).
- A page writeback that stops short counts as success, and a page read stops at the first hole. On a file without holes
  neither happens (`SbfsPages.Flush`, `SbfsPages.LoadPage`).
- tmpfs does not count entries named "." and ".." when it asks whether a directory is empty, but rename can make them.
  A directory removed or replaced while somebody refers to it stays outside the tree. `Tmpfs.Volume.Unlink` and
  `Tmpfs.Volume.Rename` say exactly when everything stays in the tree; `Tmpfs.DotRun` and `Tmpfs.HeldRun` are runs.
- A comment in `libc/time.c` promises the calendar functions for every 64-bit time, but the year passes through an
  int: `Calendar.TimegmOfGmtime` has the if-and-only-if and `Calendar.LateYear` a time beyond it.
- sigreturn takes a saved a0 equal to the restart sentinel for an interrupted call; `Signals.Process.SigreturnCall`
  has the if-and-only-if. A stop taken inside sigsuspend lets the temporary mask survive;
  `Signals.Process.SuspendCall`.

## Model

| member | source | states |
|---|---|---|
| `LogSpec.EncodeHeaderFacts` | `kernel/log.c:55-63` | A log header written over any old header block reads back as exactly the count and the entries written |
| `LogSpec.CrashAtomicity` | `kernel/log.c:201-237` | For every transaction, a crash after any number of end_op's block writes, followed by any number of recoveries that themselves crash after any number of writes and a final complete one, leaves the home blocks all old or all new, all new exactly when the commit header had been written, and the header empty |
| `LogSpec.RecoveryIdempotent` | `kernel/log.c:91-146` | Recovery interrupted any number of times, at any of its writes, and rerun ends on the same disk as one uninterrupted recovery; the header may be any block, plausible or not |
| `LogSpec.OneCrashedRecovery` | `kernel/log.c:91-146` | One recovery cut off after any of its writes does not change what the next recovery produces |
| `LogSpec.CommittedRecovers` | `kernel/log.c:91-146` | From a disk holding a full log and its commit header, recovery yields the disk with the whole transaction installed |
| `LogSpec.CompletedCommit` | `kernel/log.c:201-237` | An end_op that is not interrupted installs the whole transaction and leaves an empty header |
| `LogSpec.RunRefinesFlatArray` | `kernel/log.c:91-237` | Every run of commits, crashed commits and crashed recoveries refines a flat block array on which each transaction happens entirely or not at all |
| `BufferCache.Bio.NoFreeBufferPanic` | `kernel/bio.c:63-101` | While dirty blocks and held buffers together are fewer than the cache has buffers, bread of any block finds a buffer |
| `BufferCache.Bio.constructor` | `kernel/bio.c:40-55` | binit starts with no block cached and the cache invariant |
| `BufferCache.Bio.Bget` | `kernel/bio.c:63-101` | A hit only raises the reference count; a miss takes the least recently used buffer that is unreferenced and clean; failure (the panic) exactly when there is none |
| `BufferCache.Bio.Bread` | `kernel/bio.c:107-117` | The buffer returned holds the current contents of the block: what the running transaction last wrote, else what the disk holds; no other buffer changes and no dirty one is dropped |
| `BufferCache.Bio.Bwrite` | `kernel/bio.c:123-126` | Exactly one disk block changes, to the buffer's data, and the buffer is clean |
| `BufferCache.Bio.Brelse` | `kernel/bio.c:132-145` | One reference less; the last one moves the buffer to the front of the LRU order, a permutation of the old order |
| `Lru.MoveToFrontOk` | `kernel/bio.c:132-145` | Moving an entry to the front keeps the order a permutation of all slots |
| `Lru.MoveToBackOk` | `kernel/page_cache.c:183-193` | Moving an entry to the other end keeps the order a permutation of all slots |
| `BufferCache.Bio.MarkDirty` | `kernel/log.c:186-189` | A logged buffer counts as pending and is not evicted until it is written |
| `WriteAheadLog.Log.constructor` | `kernel/log.c:80-86` | A log over a clean cache satisfies the log invariant |
| `WriteAheadLog.Log.BeginOp` | `kernel/log.c:151-165` | An empty transaction is open |
| `WriteAheadLog.Log.FindSlot` | `kernel/log.c:172-190` | The first slot of the transaction that holds the block, or the end of the list |
| `WriteAheadLog.Log.LogWrite` | `kernel/log.c:172-190` | The buffer's block joins the transaction exactly once, becomes pending, and nothing reaches the disk |
| `WriteAheadLog.FillHeader` | `kernel/log.c:55-63` | The header-filling loop produces the encoding of the block list |
| `WriteAheadLog.Log.WriteLogHeader` | `kernel/log.c:55-63` | Exactly one disk write, of the header block, encoding the current block list |
| `WriteAheadLog.Log.WriteAllLogData` | `kernel/log.c:201-237` | Step 1 writes every logged block's current contents to its log slot, in order, and no home block |
| `WriteAheadLog.Log.InstallTrans` | `kernel/log.c:65-75` | The home writes are the logged data, block by block, in order, on the commit path and on the recovery path |
| `WriteAheadLog.Log.CommitAndInstall` | `kernel/log.c:201-237` | The disk writes up to the last home block are log data, then commit header, then home blocks |
| `WriteAheadLog.Log.EndOp` | `kernel/log.c:201-237` | The disk writes are exactly the commit sequence of the specification for the pending transaction; afterwards nothing is pending, the header is empty, and the home blocks on disk are what the cache showed before |
| `WriteAheadLog.Log.RecoverFromLog` | `kernel/log.c:91-146` | The disk writes are exactly the recovery sequence of the specification; afterwards cache and disk agree and the header is empty |
| `WriteAheadLog.Log.ForgetBuffers` | `kernel/log.c:227-232` | Clearing the remembered buffers keeps the invariant |
| `SbfsSpec.DinodeRoundTrip` | `kernel/fs/sbfs.c:155-196` | An inode stored in its table slot is loaded back field by field, and the other seven inodes of the block are untouched |
| `SbfsSpec.LeafPathInjective` | `kernel/fs/sbfs.c:409-492` | Different file blocks are recorded at different places of the direct, indirect and double-indirect trees |
| `SbfsOwn.OwnedExactlyOnce` | `kernel/fs/sbfs.c:114-148` | A data block's bitmap bit is set exactly when a live inode's tree names the block, and then exactly one slot of exactly one inode names it |
| `SbfsOwn.AllocOwn` | `kernel/fs/sbfs.c:114-133` | Marking and zeroing a free block keeps ownership exact and changes no file and no pointer |
| `SbfsOwn.AllOwned` | `kernel/fs/sbfs.c:114-133` | When balloc finds no clear bit, every data block of the disk belongs to some file |
| `SbfsOwn.LinkTop` | `kernel/fs/sbfs.c:426-492` | Entering a fresh block in an inode's address array keeps ownership exact, and every byte of every file, holes read as zero, stays the same |
| `SbfsOwn.LinkEntry` | `kernel/fs/sbfs.c:426-492` | The same for an entry of a single- or double-indirect pointer block |
| `SbfsOwn.LeafWrite` | `kernel/fs/sbfs.c:494-499` | Overwriting a data block changes that block of that one file and no other byte of any file |
| `SbfsTrunc.RankInjective` | `kernel/fs/sbfs.c:529-575` | The truncation order visits every place of an inode's tree once |
| `SbfsTrunc.FreeStep` | `kernel/fs/sbfs.c:136-148` | Clearing the bit of one more block extends the set of freed blocks by exactly that block |
| `SbfsTrunc.EmptiedOwn` | `kernel/fs/sbfs.c:529-575` | When all of an inode's blocks are cleared from the bitmap and its pointers dropped, ownership is exact again and no other file changed |
| `SbfsTrunc.OwnerlessOwn` | `kernel/fs/sbfs.c:268-341` | An inode without blocks can be claimed, rewritten or freed without disturbing ownership or other files |
| `SbfsFoot.SpanBounds` | `kernel/fs/sbfs.c:803-838` | A chunk of op_write touches at most seven blocks at any offset, a page writeback at most eight |
| `SbfsFoot.ReachSize` | `kernel/fs/sbfs.c:409-523` | A run of c file blocks, anywhere in the file, needs at most c + 3 data and pointer blocks |
| `SbfsFoot.FootBound` | `kernel/fs/sbfs.c:409-523` | The blocks a write logs are bounded by the places in its reach plus the bitmap and the inode block |
| `SbfsBytes.WriteThenRead` | `kernel/fs/sbfs.c:346-523` | A read of the range a write reported written returns exactly the bytes written |
| `SbfsBytes.ReadFull` | `kernel/fs/sbfs.c:386-391` | A read returns all it was asked for, up to the size, if and only if no byte of the range lies in a hole |
| `SbfsBytes.HoleReadsShort` | `kernel/fs/sbfs.c:386-391` | A file with a size and no blocks reads as nothing: holes are not read as zeros |
| `SbfsBytes.WrittenThenWritten` | `kernel/fs/sbfs.c:813-838` | Two writes end to end are one write of the joined bytes |
| `SbfsBytes.ChunkWritten` | `kernel/fs/sbfs.c:494-499` | One loop turn extends the written range by its chunk and leaves every other byte of every file |
| `SbfsBytes.HoleBefore` | `kernel/fs/sbfs.c:427-492` | Writing takes no block away, so where a write finds no block there was a hole before it |
| `Sbfs.FirstClear` | `kernel/fs/sbfs.c:114-133` | The first clear bit, or the end when all are set |
| `Sbfs.FileSystem.constructor` | `kernel/fs/sbfs.c:1239-1260` | A file system object over an idle log whose disk holds a consistent file system is ready for operations |
| `Sbfs.FileSystem.Balloc` | `kernel/fs/sbfs.c:114-133` | Returns a free data block, marked and zeroed, changing no file; 0 only when every data block is owned |
| `Sbfs.FileSystem.Bfree` | `kernel/fs/sbfs.c:136-148` | Clears exactly the block's bit; a block outside the data area is ignored |
| `Sbfs.FileSystem.Ilock` | `kernel/fs/sbfs.c:155-175` | The in-memory inode equals the file system's inode |
| `Sbfs.FileSystem.Iupdate` | `kernel/fs/sbfs.c:178-196` | The inode table agrees with memory again; no file byte and no pointer changes |
| `Sbfs.FileSystem.OpRelease` | `kernel/fs/sbfs.c:268-294` | Releasing an unlinked inode frees all its blocks and the inode and touches no other file, in one committed transaction that survives a crash at any point; otherwise nothing changes |
| `Sbfs.FileSystem.Ialloc` | `kernel/fs/sbfs.c:299-341` | The lowest free inode is claimed blank in the running transaction; 0 exactly when none is free; no other file changes |
| `Sbfs.FileSystem.OpCreate` | `kernel/fs/sbfs.c:969-977` | One transaction that survives a crash at any point makes the lowest free inode an empty regular file with one link and changes no other file; 0 exactly when no inode is free |
| `Sbfs.FileSystem.Peek` | `kernel/fs/sbfs.c:305-314` | Reading an inode block yields the inode of the file system |
| `Sbfs.FileSystem.Lookup` | `kernel/fs/sbfs.c:360-391` | The data block of a file block through direct, indirect and double-indirect pointers, 0 at a hole or beyond the largest file |
| `Sbfs.FileSystem.Readi` | `kernel/fs/sbfs.c:346-400` | Returns the file's bytes from the offset on, stopping at the size or the first hole, and changes nothing |
| `Sbfs.FileSystem.TopAlloc` | `kernel/fs/sbfs.c:427-445` | The address slot is filled if it was empty; 0 only when the disk is full; files unchanged |
| `Sbfs.FileSystem.EntryAlloc` | `kernel/fs/sbfs.c:446-492` | The pointer-block entry is filled if it was empty; 0 only when the disk is full; files unchanged |
| `Sbfs.FileSystem.DataBlock` | `kernel/fs/sbfs.c:427-492` | The data block behind any file block, allocated with the pointer blocks on its way; what it returns is what the pointers then say, 0 only when the disk is full, and ownership is exact either way |
| `Sbfs.FileSystem.Writei` | `kernel/fs/sbfs.c:409-523` | Exactly the reported number of bytes is written, every other byte of every file is unchanged; a short count means that the disk is full and the first byte not written had no block before; size and time are as stamped, ownership stays exact on every path |
| `Sbfs.FileSystem.Capacity` | `kernel/fs/sbfs.c:409-523` | In the middle of a write the transaction never holds more than 13 blocks |
| `Sbfs.FileSystem.FreeEntries` | `kernel/fs/sbfs.c:540-548` | The loop over a pointer block frees the 128 entries below it |
| `Sbfs.FileSystem.FreeDouble` | `kernel/fs/sbfs.c:551-568` | The double-indirect tree is freed whole, inner blocks before the outer one |
| `Sbfs.FileSystem.Itrunc` | `kernel/fs/sbfs.c:529-575` | The inode ends empty, all its blocks are free, every other file is unchanged, two blocks are logged at most |
| `Sbfs.FileSystem.Commit` | `kernel/log.c:201-237` | Committing changes no file and leaves the disk holding what the cache showed |
| `Sbfs.FileSystem.WriteTxn` | `kernel/fs/sbfs.c:780-797` | One transaction around writei: at most 13 logged blocks, committed as one unit with writei's effect; a crash at any point of it leaves the files all before or all after |
| `Sbfs.FileSystem.OpWrite` | `kernel/fs/sbfs.c:813-838` | The chunks of a write of any length add up to one write of the reported length; a short count means a full disk; each chunk is one transaction that survives a crash |
| `Sbfs.FileSystem.WritePage` | `kernel/fs/sbfs.c:780-797` | The part of the page below the size is written back and the size kept, in one transaction that survives a crash; it stops short only on a full disk at a byte that had no block; an error exactly when nothing could be written |
| `Sbfs.FileSystem.OpTruncate` | `kernel/fs/sbfs.c:840-849` | A regular file ends empty with its blocks free and others unchanged, in one committed transaction that survives a crash at any point; anything else is refused without effect |
| `Sbfs.FileSystem.ReadyConsistent` | `kernel/fs/sbfs.c:1239-1260` | Between operations the disk itself, not only what the caches show, holds the consistent file system, with an empty log |
| `Sbfs.FileSystem.OpSurvives` | `kernel/log.c:201-237` | Every operation whose block writes are one commit survives a crash at any of them |
| `SbfsHome.HomeOwn` | `kernel/fs/sbfs.c:114-148` | Ownership and file contents depend on the home blocks only, not on the log area |
| `SbfsCrash.CrashKeepsFiles` | `kernel/log.c:91-237` | After a crash anywhere in a committing file system transaction and any number of crashed recoveries, the file system is consistent, with exact ownership, and its files are all as before or all as after |
| `SbfsCrash.CommitSurvives` | `kernel/log.c:91-237` | A commit between two consistent disks survives: for every cut of its writes and every sequence of interrupted recoveries |
| `SbfsCrash.CrashLeavesChunks` | `kernel/fs/sbfs.c:813-838` | A crash anywhere in a long write leaves a consistent file system in which a whole number of chunks has been written and nothing else has changed |
| `SbfsCrash.HomeConsistent` | `kernel/log.c:91-146` | Disks with the same home blocks hold the same consistent file system |
| `Mkfs.LayoutFits` | `tools/mkfs.c:24-47` | The numbers mkfs writes satisfy what every file system operation assumes of a layout, with the inode table ending exactly at the bitmap |
| `Mkfs.SuperReads` | `tools/mkfs.c:161-173` | The superblock mkfs writes reads back as its layout |
| `Mkfs.FreshOwn` | `tools/mkfs.c:175-220` | On the fresh image the bitmap marks exactly the root directory's block and nothing else is owned |
| `Mkfs.Format` | `tools/mkfs.c:141-222` | The image holds a consistent file system whose one live inode is the root directory, with an empty log |
| `SbfsMount.Init` | `kernel/fs/sbfs.c:1239-1260` | Mounting replays the log and ends ready with the file system that recovery leaves; null exactly when the magic number is wrong |
| `SbfsMount.FirstBoot` | `kernel/fs/sbfs.c:1239-1260` | A disk made by mkfs mounts, ready, with its root directory: the operations' assumptions are met by the disks this system has |
| `SbfsMount.CommitKeepsSuper` | `kernel/log.c:201-237` | No crash in a commit touches the superblock |
| `SbfsMount.CrashMounts` | `kernel/fs/sbfs.c:1239-1260` | After a crash at any point of a surviving operation, and any number of boots that crash too, the disk mounts as the file system before or after the operation |
| `SbfsPages.ReadPageIs` | `kernel/fs/sbfs.c:771-777` | readpage delivers the page the page cache model expects if and only if nothing but zeros follows the first hole of the page |
| `SbfsPages.LoadPage` | `kernel/fs/sbfs.c:771-777` | readpage over the mounted file system: the expected page under exactly that condition, always on a file without holes |
| `SbfsPages.WriteIsSplice` | `kernel/fs/sbfs.c:813-838` | A write starting at or before the end is a splice of the file's bytes and leaves no hole |
| `SbfsPages.OtherFilesSame` | `kernel/fs/sbfs.c:813-838` | No other file's bytes or hole-freeness change |
| `SbfsPages.PageWritten` | `kernel/fs/sbfs.c:780-797` | A page write of n bytes is the writeback the page cache model expects if and only if the bytes it did not reach were right already |
| `SbfsPages.Flush` | `kernel/fs/sbfs.c:780-797` | On a file without holes writepage succeeds even on a full disk and is exactly the page cache's writeback; on any file it is so if and only if the bytes it did not reach were right already |
| `SbfsPages.StillBacking` | `kernel/fs/sbfs.c:813-838` | If the files behind the cache are the file system's, a write keeps them so: a splice of one file, no other changed |
| `SbfsPages.WriteFile` | `kernel/fs/sbfs.c:813-838` | The transactions of a write and the invalidation together: the cache is again over the file system, every byte of a file without dirty pages reads through the cache as the file's, and other files read as before |
| `SbfsPages.WriteThenRead` | `kernel/fs/vfs.c:285-312` | What a write put into the file system comes back through the page cache, all of it when nothing fails |
| `PageCache.Cache.constructor` | `kernel/page_cache.c:30-50` | An empty cache over the files |
| `PageCache.Cache.Lookup` | `kernel/page_cache.c:70-76` | The one slot that caches the page, or -1 when there is none |
| `PageCache.Cache.CleanVictim` | `kernel/page_cache.c:98-113` | The least recently used slot that is clean and unpinned, or -1 when there is none |
| `PageCache.Cache.Evict` | `kernel/page_cache.c:98-124` | Fails exactly when every slot is pinned or its writeback fails; a dirty slot with a writeback operation is reused only after its page went into the file; readers see no change |
| `PageCache.Cache.Miss` | `kernel/page_cache.c:141-202` | The page is read into a reused slot with one pin; ENOMEM exactly when eviction fails, EIO only when the read fails |
| `PageCache.Cache.Get` | `kernel/page_cache.c:126-202` | The page's unique slot gains one pin, other pins are kept, and no reader sees a change |
| `PageCache.Cache.Put` | `kernel/page_cache.c:219-230` | One pin less, never below zero, invisible to readers |
| `PageCache.Cache.InvalidateRange` | `kernel/page_cache.c:257-298` | Exactly the unpinned slots of the file's pages in the range are dropped, with the range computed modulo 2^64 |
| `PageCache.Cache.Read` | `kernel/fs/vfs.c:285-312` | Every byte returned is the file's logical byte at its position, whatever is cached or evicted on the way; without errors the count is complete; pins are as before |
| `PageCache.Cache.Write` | `kernel/fs/sbfs.c:813-838` | After a write and its invalidation every byte of the file reads as stated: new inside the range, the file's own on every other page that was dropped, unchanged elsewhere; so with no dirty page, exactly the new contents; other files read as before |
| `PageCache.Coherent` | `kernel/page_cache.c:257-298` | Which byte a reader sees after any write, dirty pages and dropped pages included; with no dirty page of the file, dropping the pages of the range is enough for the cache to agree with the new file |
| `PageCache.FlushBytes` | `kernel/page_cache.c:83-124` | Writing a dirty page back and forgetting it changes no byte a reader sees |
| `PageCache.FillBytes` | `kernel/page_cache.c:126-202` | Filling a slot with the file's own page changes no byte a reader sees |
| `PageCache.DropBytes` | `kernel/page_cache.c:98-124` | Forgetting a clean page changes no byte a reader sees |
| `PageCache.UntouchedPage` | `kernel/page_cache.c:257-298` | A page outside the written range is the same page of the new file, zero fill included |
| `VmaList.Find` | `kernel/vma.c:46-51` | The area covering the address, -1 exactly when the address is unmapped |
| `VmaList.NeighboursDecide` | `kernel/vma.c:53-67` | In a sorted disjoint list, looking at the two neighbours of the insertion point decides overlap with the whole list |
| `VmaList.AddressSpace.Insert` | `kernel/vma.c:53-67` | Refused exactly when it overlaps an area; otherwise the list stays sorted and disjoint and every address outside the new area maps as before |
| `VmaList.AddressSpace.Split` | `kernel/vma.c:112-154` | Of the area, exactly the cut range becomes unmapped; every other address keeps its protection, flags and file position; -1 without effect exactly when a middle cut gets no memory |
| `VmaList.FirstOverlap` | `kernel/syscall.c:1967-1978` | The first area in the way, -1 exactly when the range is free |
| `VmaList.FindGap` | `kernel/syscall.c:1962-1982` | Terminates with the highest page-aligned free gap of the length in the mmap region; reports none exactly when there is none |
| `VmaList.AddressSpace.Mmap` | `kernel/syscall.c:1962-2009` | The new area lies in the highest gap, maps only addresses that were unmapped, and fails exactly when there is no gap or no memory |
| `VmaList.FindOrGrow` | `kernel/vma.c:158-193` | The area a fault works with: the one covering the address, else the stack grown down to it, else none |
| `VmaList.GrownOk` | `kernel/vma.c:173-193` | Stack growth keeps the list sorted and free of overlap if and only if no other area lies where it grows |
| `VmaList.GrownMapping` | `kernel/vma.c:173-193` | Growth over free addresses maps exactly the new stack addresses and changes nothing else |
| `VmaList.ReserveSuffices` | `kernel/syscall.c:1947-1954` | If, as MAP_FIXED enforces, every area below the stack ends at or under the limit's floor, every growth is safe |
| `VmaList.GrowsOver` | `kernel/vma.c:173-193` | A list in order on which, after the limit was raised, one fault makes the stack overlap an earlier mapping |
| `FrameAccounts.SharedIsReadOnly` | `kernel/vmem.c:229-260` | No frame mapped by two leaf entries is writable through either |
| `FrameAccounts.CountsMappers` | `kernel/page_ref.c:44-60` | A frame's count is exactly its leaf mappings plus the references that page tables and failed allocations hold |
| `FrameAccounts.ExactCounts` | `kernel/page_ref.c:44-60` | While no reference has been lost to a failed allocation, the count of a mapped frame is the number of entries that map it |
| `FrameAccounts.EveryFrame` | `kernel/pmem.c:50-85` | While nothing is lost every frame is free, mapped, or the one table of one address space; free exactly at count 0: no frame leaks |
| `FrameAccounts.CountsUses` | `kernel/page_ref.c:44-60` | While nothing is lost the entries and tables determine every count |
| `FrameAccounts.PutUnheld` | `kernel/vmem.c:268-281` | Giving back a reference that no entry and no table holds, as clearing an entry of the kernel's own map does, unbalances the accounts for whatever frame it is |
| `FrameAccounts.FreeCount` | `kernel/pmem.c:68-85` | States in which the same frames are held have equally many free frames |
| `FrameAccounts.FreeIsUnmapped` | `kernel/pmem.c:68-85` | A frame on the free list has count 0 and no entry maps it |
| `FrameAccounts.AllocStep` | `kernel/pmem.c:50-66` | Taking the head of the free list with one reference keeps the accounts balanced |
| `FrameAccounts.ShareStep` | `kernel/vmem.c:241-248` | Taking a reference and dropping write permission together keep the accounts balanced |
| `FrameAccounts.DropLeaf` | `kernel/page_ref.c:52-60` | Clearing an entry and giving back its reference keeps the accounts balanced; the frame is freed with its last holder |
| `FrameAccounts.LoseLeaf` | `kernel/vmem.c:157-190` | An entry that goes with its table while its reference stays leaves the accounts balanced, with one reference that nobody can give back |
| `FrameAccounts.RemapStep` | `kernel/vma.c:310-319` | Moving an entry from a shared frame to its own copy keeps the accounts balanced |
| `FrameAccounts.UpgradeStep` | `kernel/vma.c:303-309` | Making the only mapping of a frame writable keeps the accounts balanced |
| `CowVm.StoredViews` | `kernel/vma.c:300-322` | A store through a writable entry is seen at that byte of that process and nowhere else |
| `CowVm.SameKey` | `kernel/vmem.c:129-152` | Two processes reach the same entry if and only if it is for the same page and they are the same process or the page lies in the root slot that every root copies from the kernel's |
| `CowVm.Isolation` | `kernel/vmem.c:129-152` | A store is seen by that process at that byte, and by another process if and only if the page lies in the shared slot |
| `CowVm.RemappedViews` | `kernel/vma.c:310-319` | Moving an entry to a copy changes no byte any process reads |
| `CowVm.SharedViews` | `kernel/vmem.c:209-266` | After sharing, everybody reads as before, the child reads exactly what its parent reads, and no page of either is writable |
| `CowVm.StoresAfterFailure` | `kernel/vma.c:300-340` | After a failed fork a store goes through if and only if it would have before and its entry did not lose its write permission in an area not marked copy-on-write, or its entry is unreadable and fork's lost reference makes the fault copy the page |
| `CowVm.CrowdedThen` | `kernel/vmem.c:241-248` | The count limit is reached only if some frame already had half as many references when fork began |
| `CowVm.NeedCost` | `kernel/vmem.c:23-40` | What sharing one more entry costs in tables; if that is more than is free, the whole child needs more than there was |
| `CowVm.FailedForkRun` | `kernel/proc.c:312-433` | A run from boot in which fork needs three tables and finds two frames: a store succeeds, the fork fails, the same store is refused |
| `CowVm.SharedSlotRun` | `kernel/vmem.c:129-152` | A run from boot in which isolation fails: process 1 stores at 0x9000_0000, process 2, which has no area, sees the byte and stores another, and the page outlives process 1 |
| `CowVm.BlankRun` | `kernel/vmem.c:268-281` | A run from boot: a load fault in an area without permissions maps a page, unmapping passes over it, a store to the writable area that follows is refused, and exit loses the frame |
| `CowVm.Vm.constructor` | `kernel/vmem.c:338-365` | At boot every frame is free with count 0 except the kernel's root and its table for the shared slot |
| `CowVm.Vm.NewSpace` | `kernel/vmem.c:129-152` | A new address space with one table and no pages of its own; fails exactly when memory is out; no page of anyone changes |
| `CowVm.Vm.PageAlloc` | `kernel/pmem.c:50-66` | A zeroed frame with one reference; fails exactly when the free list is empty |
| `CowVm.Vm.Walk` | `kernel/vmem.c:23-40` | The tables down to the last level exist afterwards, the kernel's own in the shared slot; fails exactly when too few frames are free; no mapped page changes |
| `CowVm.Vm.ShareOne` | `kernel/vmem.c:229-260` | One entry is shared read-only, or the walk runs out of memory after taking its reference, or the count is at its limit; exactly the missing tables are made |
| `CowVm.Vm.Share` | `kernel/vmem.c:209-266` | The tree is shared read-only with the child, except blank entries, which it gets nothing of, and the shared slot, which it has already; it runs out of memory exactly when the tables the child needs are more than the free frames, and then leaves no child, protects exactly the parent's entries up to where it stopped and gives the memory back |
| `CowVm.Vm.Abandon` | `kernel/vmem.c:255-259` | The half-built child is torn down; exactly the parent's entries up to the failure lost their write permission, and the same frames are held as before |
| `CowVm.Vm.LoseKey` | `kernel/vmem.c:166-190` | A blank entry is passed over while its table is freed: the entry is gone, the frame keeps the reference |
| `CowVm.Vm.FreePgtable` | `kernel/vmem.c:157-196` | All entries and tables of the address space go, with every reference they held, except exactly those of blank entries, which are lost; no other address space and no entry of the shared slot changes |
| `CowVm.Vm.UnmapRange` | `kernel/vmem.c:268-281` | Exactly the entries of the range that are not blank go, with their references, for everybody if they are in the shared slot; counts stay exact; the walk ends early exactly at the first page of the kernel's own map |
| `CowVm.Vm.CowFault` | `kernel/vma.c:300-322` | The entry becomes writable, on its own copy if the frame is shared, with the same contents for every process; readable too if it was or was copied; fails exactly when a copy is needed and memory is out |
| `CowVm.Vm.DemandZero` | `kernel/vma.c:324-340` | A zero page appears where none was mapped, which no reader can tell; nothing else changes; without memory for a table nothing is mapped and the page is lost |
| `CowVm.Vm.Fault` | `kernel/vma.c:165-340` | Grows the stack as stated and is refused exactly under the stated condition; otherwise it changes no byte any process reads and a store fault ends with a writable page, unless a page table could not be had; exact counts stay exact if and only if the fault was refused or mapped its page |
| `CowVm.Vm.StoreByte` | `kernel/vma.c:165-340` | A store by one process, through whatever faults it takes, succeeds exactly under a condition on the state before it, and changes that byte of that process, and outside the shared slot nothing that any other process reads; when exact counts stay exact is stated from the state before |
| `CowVm.Vm.Exit` | `kernel/proc.c:76-110` | The address space is gone, no other process reads anything different, and exact counts stay exact if and only if it had no blank entry |
| `CowVm.Vm.Fork` | `kernel/proc.c:312-433` | It succeeds if and only if areas can be duplicated and the free frames cover the child's tables; then the child reads exactly its parent's memory, the parent and all others read as before, nothing writable stays shared outside the shared slot, both area lists are marked copy-on-write and exact counts stay exact; on failure no child and no lost memory remain, and which stores still succeed is stated for every address of every process |
| `CowVm.Vm.StaysExact` | `kernel/page_ref.c:44-60` | An operation that loses no reference leaves every mapped frame with a count equal to its mappings |
| `Heap.AlignUp` | `libc/malloc.c:36-39` | The next multiple of 16, and 0 exactly for 0 and for sizes whose rounding would wrap |
| `HeapSpec.Rebuild` | `libc/malloc.c:54-210` | Replacing a run of chunks by another over the same addresses, with headers and links to match, gives a well-formed heap again: exact tiling, address-ordered free list holding exactly the free chunks, no two adjacent |
| `HeapSpec.TakeWhole` | `libc/malloc.c:62-77` | Taking a whole free chunk off the list keeps the heap well formed |
| `HeapSpec.TakeSplit` | `libc/malloc.c:62-77` | Taking the front of a free chunk and listing the rest keeps the heap well formed |
| `HeapSpec.Bump` | `libc/malloc.c:78-84` | Extending the arena keeps the heap well formed |
| `HeapSpec.FreeRun` | `libc/malloc.c:111-141` | Freeing a chunk joined with whichever neighbours are free keeps the heap well formed |
| `HeapSpec.GrowTop` | `libc/malloc.c:171-178` | Growing the topmost chunk keeps the heap well formed |
| `HeapSpec.AbsorbSplit` | `libc/malloc.c:180-202` | Absorbing part of the next free chunk keeps the heap well formed and the block's bytes |
| `HeapSpec.AbsorbWhole` | `libc/malloc.c:180-202` | Absorbing all of the next free chunk keeps the heap well formed and the block's bytes |
| `Heap.BlocksDisjoint` | `libc/malloc.c:54-96` | Blocks are 16-aligned and pairwise disjoint, headers included, whether in the arena or mapped directly |
| `Heap.NextTest` | `libc/malloc.c:126-131` | The address test on the chunk above is true exactly when the neighbour is free |
| `Heap.PrevTest` | `libc/malloc.c:133-140` | The address test on the chunk below is true exactly when the neighbour is free |
| `Heap.Allocator.BestFit` | `libc/malloc.c:54-61` | The smallest free chunk that fits, the lowest of equals; 0 exactly when none fits |
| `Heap.Allocator.WalkTo` | `libc/malloc.c:123-124` | The list walk stops at the last free chunk below and the first at or above the address |
| `Heap.Allocator.ArenaAlloc` | `libc/malloc.c:54-85` | A new block from a fitting free chunk or the top of the arena, other blocks kept; 0 if and only if no free chunk fits and the rest of the arena is too small, and then nothing changes |
| `Heap.Allocator.ArenaFree` | `libc/malloc.c:111-141` | The block is gone and no other block changes |
| `Heap.Allocator.DirectAlloc` | `libc/malloc.c:87-96` | A block of exactly the size in its own mapping, or nothing |
| `Heap.Allocator.Malloc` | `libc/malloc.c:98-109` | A 16-aligned block of at least the size where there was none, every other block intact; 0 without change if and only if the size is 0 or too large, or there is no memory for it as stated |
| `Heap.Allocator.Free` | `libc/malloc.c:111-141` | The block is gone, every other block is intact, free(0) does nothing |
| `Heap.Allocator.GrowInPlace` | `libc/malloc.c:168-203` | The block grows where it is and keeps its words, or nothing changes |
| `Heap.Allocator.Resize` | `libc/malloc.c:156-210` | Fitting, growing and moving all keep the words common to both sizes and every other block |
| `Heap.Allocator.Realloc` | `libc/malloc.c:152-210` | On every path the result holds the old contents and no other block changes; on failure the old block is intact; size 0 frees; no block means malloc |
| `Pipe.CountersAgree` | `kernel/pipe.c:56-98` | The wrapped 32-bit counters compare exactly as the true byte totals do |
| `Pipe.Channel.constructor` | `kernel/pipe.c:22-54` | A new pipe is empty, open at both ends, with nobody waiting |
| `Pipe.Channel.Drain` | `kernel/pipe.c:64-70` | The bytes taken are the next ones written, in order, as many as asked for or available |
| `Pipe.Channel.Pour` | `kernel/pipe.c:81-92` | The bytes go in order until the buffer is full or all are in |
| `Pipe.Channel.RunReader` | `kernel/pipe.c:56-73` | Sleeps only while the pipe is empty and has a writer; otherwise gets the next bytes in order; all it ever receives is a prefix of what was written; sleepers are woken |
| `Pipe.Channel.RunWriter` | `kernel/pipe.c:75-98` | Sleeps only on a full pipe with a reader, having written exactly the bytes before its position; EPIPE without a reader; interrupted after some bytes it reports them |
| `Pipe.Channel.Enter` | `kernel/pipe.c:56-98` | Entering strands nobody |
| `Pipe.Channel.Interrupt` | `kernel/signal.c:83-88` | A signal makes the sleeper runnable and strands nobody |
| `Pipe.Channel.Close` | `kernel/pipe.c:100-106` | Closing an end wakes everybody, so no sleeper misses it |
| `Calendar.YearOfEra` | `libc/time.c:80-91` | The year-of-era formula finds the year of every day of the 400-year era |
| `Calendar.CountsDays` | `libc/time.c:93-100` | days_from_civil counts days: the next date of the Gregorian calendar has the next number, and 1 January 1970 has number 0 |
| `Calendar.CivilOfDays` | `libc/time.c:80-100` | civil_from_days undoes days_from_civil on every valid date of every year, negative ones included |
| `Calendar.DaysOfCivil` | `libc/time.c:80-100` | Every day number has a valid date that days_from_civil takes back to it |
| `Calendar.NextCivil` | `libc/time.c:80-91` | Consecutive day numbers have consecutive dates |
| `Calendar.DayOfYearIs` | `libc/time.c:102-108` | The month-table day of year is the difference in day numbers from 1 January, below the length of the year |
| `Calendar.GmtimeFields` | `libc/time.c:110-133` | All fields are in range and name the day, second and weekday of the time, negative times too; year and day of year are right for every time whose year is an int |
| `Calendar.Timegm` | `libc/time.c:149-169` | The month loop carries months outside 1 to 12 into the year, and the fields are refreshed to those of the result |
| `Calendar.TimegmOfGmtime` | `libc/time.c:110-169` | timegm undoes gmtime_r if and only if the year of the time is an int |
| `Calendar.TimeFits` | `libc/time.c:149-169` | With int fields and an int year the sum fits the 64 bits of a time |
| `Calendar.LateYear` | `libc/time.c:80-91` | The first time past the last int year comes out in the lowest int year |
| `TmpfsSpec.AllUnderRoot` | `kernel/fs/tmpfs.c:638-642` | From every directory the parent pointers lead to the root, so rename's walk ends |
| `TmpfsSpec.AddName` | `kernel/fs/tmpfs.c:510-530` | A new file, or another name for one, keeps the tree invariant: acyclic parents, file counts equal to their names, directory counts 2 plus their subdirectories |
| `TmpfsSpec.RemoveName` | `kernel/fs/tmpfs.c:560-602` | Removing a name keeps the invariant; the inode is freed exactly with its last name and reference |
| `TmpfsSpec.AddDir` | `kernel/fs/tmpfs.c:532-558` | mkdir keeps the invariant |
| `TmpfsSpec.RemoveDir` | `kernel/fs/tmpfs.c:560-602` | Removing a directory without entries keeps the invariant |
| `TmpfsSpec.DropKeeps` | `kernel/fs/tmpfs.c:560-602` | Dropping a name keeps the tree if it names a file, or a directory without entries that nobody refers to |
| `TmpfsSpec.DropBreaks` | `kernel/fs/tmpfs.c:560-602` | In every other case no parents and depths make the result a tree |
| `TmpfsSpec.EmptyDir` | `kernel/fs/tmpfs.c:293-301` | A directory without entries has link count 2 and nobody's parent pointer |
| `TmpfsSpec.MoveName` | `kernel/fs/tmpfs.c:620-684` | Moving a file's name keeps the invariant |
| `TmpfsSpec.MoveDir` | `kernel/fs/tmpfs.c:620-684` | Moving a directory to a place not below it keeps the invariant, with its whole subtree still reaching the root |
| `TmpfsSpec.ReplaceBreaks` | `kernel/fs/tmpfs.c:644-684` | Moving a directory over one that has entries or references leaves no tree |
| `TmpfsSpec.SetRefs` | `kernel/fs/tmpfs.c:499-508` | Changing references of any inode keeps the invariant; an unlinked file goes with its last |
| `Tmpfs.Volume.constructor` | `kernel/fs/tmpfs.c:757-776` | The root alone is a valid tree |
| `Tmpfs.Volume.FindFree` | `kernel/fs/tmpfs.c:155-176` | The first free inode after the root, or 0 when all are used |
| `Tmpfs.Volume.Create` | `kernel/fs/tmpfs.c:510-530` | Exactly one new name and inode, or the stated error and no change |
| `Tmpfs.Volume.Mkdir` | `kernel/fs/tmpfs.c:532-558` | Exactly one new directory below its parent and one more link of the parent, every other node the same; or the stated error and no change |
| `Tmpfs.Volume.Link` | `kernel/fs/tmpfs.c:604-618` | Exactly one more name and count, or the stated error and no change |
| `Tmpfs.Volume.LinkCall` | `kernel/syscall.c:473-539` | link for any target, parent and name: EPERM, EINVAL, ENOTDIR, EEXIST, ENAMETOOLONG and ENOSPC exactly as stated and without effect, otherwise one more name and count |
| `Tmpfs.Volume.HasEntries` | `kernel/fs/tmpfs.c:293-301` | True exactly when the directory has an entry other than "." and ".." |
| `Tmpfs.Volume.Drop` | `kernel/fs/tmpfs.c:574-599` | The whole effect of losing a name, inode and link counts included |
| `Tmpfs.Volume.Unlink` | `kernel/fs/tmpfs.c:560-602` | Exactly the name goes, with its whole effect stated, or the stated error and no change; the tree stays one if and only if the name was a file's or that of a directory without entries and references, which holds whenever no entry has a dot name and nobody refers to the directory |
| `Tmpfs.Volume.SetRef` | `kernel/fs/tmpfs.c:499-508` | The reference count of a file or directory is set, and the inode freed exactly when it has neither names nor references |
| `Tmpfs.Volume.IsAncestor` | `kernel/fs/tmpfs.c:638-642` | The walk ends and finds the directory exactly when it is the start or an ancestor of it |
| `Tmpfs.Volume.Rename` | `kernel/fs/tmpfs.c:620-684` | One entry moved over what was there with its whole effect stated, or no change at all with exactly the stated error; EINVAL exactly when a directory would move into its own subtree; the tree stays one if and only if no directory with entries or references was replaced |
| `Tmpfs.Volume.Relink` | `kernel/fs/tmpfs.c:664-684` | The whole effect of moving a name, link counts of both parents included |
| `Tmpfs.RelinkKeeps` | `kernel/fs/tmpfs.c:620-684` | Moving a name to a free place not below it keeps the tree |
| `Tmpfs.ReplaceKeeps` | `kernel/fs/tmpfs.c:620-684` | Moving a name over a file, or over a directory without entries and references, keeps the tree |
| `Tmpfs.DotRun` | `kernel/fs/tmpfs.c:293-301` | A run from an empty volume: a file renamed to "." in a directory, which then counts as empty and is removed, leaving the file without a name |
| `Tmpfs.HeldRun` | `kernel/fs/tmpfs.c:560-602` | A run from an empty volume: a directory is removed while somebody refers to it and stays outside the tree |
| `SignalSpec.MaskRoundTrip` | `kernel/signal.c:193-200` | A mask stored in a frame word is read back bit for bit |
| `SignalSpec.StoredFrame` | `kernel/signal.c:203-206` | A frame copied out is read back word for word |
| `SignalSpec.StoredApart` | `kernel/signal.c:203-206` | Writing a frame leaves every frame it does not overlap intact |
| `SignalSpec.FrameBelow` | `kernel/signal.c:182-188` | The frame is 16-aligned and lies entirely below the stack it is pushed on, so frames at or above that address are not overlapped |
| `SignalSpec.Bracketing` | `kernel/signal.c:500-542` | In every run, the return that matches a delivery, with any nesting of deliveries and returns and any user code between them, gives back all registers, sepc, sp and the mask the delivery interrupted (the status word sanitised) |
| `Signals.Process.constructor` | `kernel/proc.c:209-221` | A fresh process blocks nothing and has default actions |
| `Signals.Process.PickActionable` | `kernel/signal.c:130-142` | The lowest-numbered signal that has an effect, 0 when there is none; exactly the deliverable signals without effect are dropped, so asking again gives the same answer |
| `Signals.Process.HasActionable` | `kernel/signal.c:144-155` | True exactly when some pending unblocked signal has an effect |
| `Signals.Process.Deliver` | `kernel/signal.c:161-221` | The interrupted registers and mask, the one from before sigsuspend if inside it, are in an intact frame; other frames are intact unless overlapped; SIGKILL and SIGSTOP stay unblocked; the process dies exactly when the frame does not fit |
| `Signals.Process.CheckSignals` | `kernel/signal.c:227-291` | Acts on the next signal only; unless the process dies, what was interrupted is kept in the trap frame or in the new frame; outside a stop sigsuspend's mask does not survive |
| `Signals.Process.AfterSyscall` | `kernel/signal.c:293-331` | The restart sentinel never reaches the user: the interrupted context shows EINTR or is rewound, the latter exactly when the signal then delivered has a restarting handler |
| `Signals.Process.Ecall` | `kernel/trap.c:107-119` | An interrupted call with a restarting handler leaves the caller exactly as before the call, at the same ecall with all arguments; otherwise it continues after the ecall with the result or EINTR |
| `Signals.Process.Sigreturn` | `kernel/signal.c:500-542` | Through the intact frame of the last delivery it is a return of the run model; through any frame the restored context is in user space, in user mode, without supervisor access bits and with SIGKILL and SIGSTOP unblocked |
| `Signals.Process.SigreturnCall` | `kernel/signal.c:500-542` | Through an intact frame the interrupted registers come back if and only if the saved a0 is not the restart sentinel; the mask comes back unless a stop left sigsuspend unfinished |
| `Signals.Process.Arrive` | `kernel/signal.c:30-89` | Which signals become pending and which states change: SIGCONT clears stops, a stopped process is moved only by SIGKILL and SIGCONT, a sleeper wakes exactly when something is deliverable; masks and actions stay |
| `Signals.Process.Sigsuspend` | `kernel/signal.c:570-583` | The mask the caller will get back is the one it had, also for a process that a stop left inside an earlier sigsuspend; it wakes exactly when an actionable signal is pending |
| `Signals.Process.SuspendCall` | `kernel/signal.c:570-583` | After sigsuspend the caller has EINTR and its own mask, at once or when the handler returns; the temporary mask outlives the call exactly when a stop was taken |
| `Signals.Process.Sigprocmask` | `kernel/signal.c:420-444` | The mask as POSIX defines for each operation, without SIGKILL and SIGSTOP; errors change nothing |
| `Signals.Process.Sigaction` | `kernel/signal.c:394-415` | Exactly one action changes; SIGKILL and SIGSTOP are refused and never in a handler mask; errors change nothing |
| `Signals.Process.Sigaltstack` | `kernel/signal.c:618-663` | Refused on the alternate stack itself; an accepted stack lies in user space and is large enough; errors change nothing |
| `Signals.Process.UserReturn` | `kernel/trap.c:18-34` | A return outside user space ends the process |

## Left out

- sbfs names: directory entries, link, unlink and rename in sbfs, and the name that create adds; the model starts from
  inodes, and a live inode is one whose type is not 0, reachable by name or not.
- Inode-cache capacity, modes, owners and real timestamps; each operation takes one value for the current time.
- File-backed and shared mappings, msync, sbrk, ELF loading, and copying to and from user memory page by page.
- Writing back all of a file's dirty pages on request, and page-cache slots being filled by a second process
  meanwhile, which cannot happen on one hart with a polling driver.
- tmpfs file contents, listing, lookup, and the order of its entries; what a volume does once its tree has been broken.
- Path resolution, mount points and permissions.
- Process states beyond what signals and pipes need; notifying the parent of stops; kill and process groups.
- calloc, strftime and the rest of libc; the remaining system calls, devices, procfs, devfs, tarfs, the shell and
  tools other than mkfs.
- Linked lists are sequences or maps, page tables are maps from page to entry, and the links inside free pages are not
  modelled; the heap's own list, by contrast, is modelled in memory words.
- Sbfs.FileSystem.Writei: a caller must leave room in the log, as the chunking of the two callers does; a longer
  single call is not modelled.
- Sbfs.FileSystem.WritePage: nothing is claimed for a file larger than the file system can address.
- SbfsMount.Init: nothing is claimed for a disk with the right magic number that holds no consistent file system.
- Sbfs.FileSystem.OpCreate: for a regular file, without its name and without the rollback when the inode cache is full.
- PageCache.Cache.Write: for a write that starts at or before the end of the file and meets no pinned page.
- PageCache.Cache.Evict: a writeback either fails or is complete; `SbfsPages.Flush` says when it is. A dirty page of a
  file without a writeback operation is dropped; transparency is stated for caches in which every dirty page has one.
- CowVm.Vm.Fault: the faulting address is in the user half and not in a file mapping.
- CowVm.Vm.StoreByte: the address is in the user half and not in a file mapping.
- CowVm.Vm.UnmapRange: the walk ends at the first page of the kernel's own map of physical memory, whose entry the
  source would put and clear; what happens after that is not modelled.
- CowVm.Vm.Fork: an empty area list is taken for failed duplication, as in the source, so such a process cannot fork;
  the count limit of a frame ends the model with `Halt` where the kernel panics.
- VmaList.AddressSpace.Split: for a range that overlaps the area; reference counts of the mapped file are not modelled.
- Heap.Allocator.Malloc: memory is words of eight bytes, and what mmap returns is a parameter.
- Calendar.Timegm: year and month are unbounded while months carry; where the source's int would overflow nothing is
  claimed about the source.
- Calendar.TimegmOfGmtime: the subtraction of 1900 is unbounded; for the lowest 1900 int years nothing is claimed
  about the source.
- Tmpfs.Volume.Link: for a file and a name not in use, as the source asks of the caller; `Tmpfs.Volume.LinkCall` has
  the checks that make it so.
- Signals.Process.Deliver: whether the copy to the user's stack succeeds inside user space is a parameter.
- Signals.Process.SigreturnCall: what a misaligned stack pointer reads is a parameter; an aligned one reads memory.
