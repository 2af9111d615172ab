# Proofs about the xv6 kernel, its port and its user programs

This project models the parts of the system whose correctness rests on an invariant, and proves it: the write-ahead
log and buffer cache, the file system with its image builder, page tables and fork, exit and wait, pipes, the virtio
disk driver, the user-level allocator, the shell's parser and the regular expression matcher.

One module per file:

- `LogLayout`, `Log`: the log on disk, and commit and recovery as code with a crash point at every block write.
- `BufferCache`: the cache with its doubly linked list.
- `LogSystem`, `LogInvariant`, `LogTheorems`: any number of processes, the committer, the cache and crashes as one
  state machine; its invariant; what holds in every run.
- `FsLayout`, `FsOwnership`, `FsFiles`, `Fs`: block ownership, files as byte sequences, and the file system operations.
- `Mkfs`: the program that makes the first image.
- `PageTable`, `Vm`, `Fork`: three-level page tables (section 4.4 of the RISC-V Privileged Architecture), the page
  allocator, and the memory part of fork with its error paths.
- `ExitWait`, `ExitWaitInv`, `ExitWaitTheorems`: processes over all interleavings.
- `Pipe`, `PipeTheorems`: pipes over sleep and wakeup.
- `Umalloc`: the K&R allocator.
- `Virtio`: the driver and a device that completes requests in any order (sections 2.6 and 5.2 of VIRTIO 1.1).
- `Shell`, `ShellParser`: the grammar on tokens with the round trip, and the parser that reads characters.
- `Grep`: the matcher.

Code that updates state in place is a class with methods; where processes interleave, each step between two lock
operations is a step of a state machine, and theorems are about all finite runs.

Where code and comments of the repository differ, the model follows the code. Points worth knowing:

- The comments of `kernel/bio.c` speak of least recently used buffers. `brelse` puts a released buffer where eviction
  starts, so the buffer released last is evicted first (`BufferCache.LastReleasedIsEvictedFirst`). The victim is the
  buffer released longest ago exactly if there is no choice (`BufferCache.EvictsOldestIff`).
- `platform/visionfive2/mkfs/mkfs.c` rounds the size of the root directory up even if it is a multiple of the block
  size. With 64, 128 or 192 root entries the directory then ends in a hole, and no image made from such inputs meets
  the invariant of the file system (`Mkfs.MakeImage`, `Mkfs.FullRoot`). Reading that directory makes `readi` allocate
  and log a block, outside any transaction (`Mkfs.ReadFullRoot`).
- `read_head` bounds the count of a header by the size of the log on disk, not by its own array. A log of more than
  LOGSIZE data blocks lets a header pass that does not fit (`LogLayout.HeadersFit`, `LogLayout.HeaderOverflows`); no run
  writes such a header (`LogTheorems.ReadHeadAccepts`).
- A chunk of `filewrite` logs at most 6 blocks and those of the bitmap, at most 4. The bound is below MAXOPBLOCKS
  exactly if the bitmap has at most three blocks (`Fs.ChunkFits`, `Fs.BoundFitsIff`).
- `readi` returns nothing if `off + n` wraps around 32 bits.

`dafny verify dfyconfig.toml` verifies everything.

## Model

| member | source | states |
|---|---|---|
| LogLayout.HeaderRoundTrip | kernel/log.c:94-136 | a header that write_head has written is accepted by read_head and reads back as the same entries, whatever the block held before |
| LogLayout.HeadersFit | kernel/log.c:112-136 | the range test of read_head on the count keeps it within the array of the in-memory header exactly if the log has at most LOGSIZE data blocks, or the device no home block at all |
| LogLayout.HeaderOverflows | kernel/log.c:112-136 | a log of one block more, and a header on it that passes both tests and does not fit the array |
| LogLayout.InstallFrame | kernel/log.c:157-172 | the first k copies of install_trans touch neither the log region nor any home block that is not among the first k entries |
| LogLayout.InstallSlots | kernel/log.c:157-172 | after k copies the home block of an entry that no later one of the first k repeats holds the contents of its slot |
| LogLayout.RecoveredForgets | kernel/log.c:177-184 | recovery depends only on the log region and on the home blocks that the header does not name |
| LogLayout.RecoveryIdempotent | kernel/log.c:177-184 | recovering a recovered disk changes nothing |
| LogLayout.RecoveredHome | kernel/log.c:177-184 | what a completed recovery leaves in each home block: the logged contents if the header names it, else what was there |
| Log.InstallCrashes | kernel/log.c:157-172 | a crash after any number of copies is recovered to the home blocks that the uninterrupted copies lead to |
| Log.RecoveryCrashes | kernel/log.c:177-184 | a crash at any block write of recovery is recovered to the home blocks of an uninterrupted recovery |
| Log.AnyNumberOfCrashes | kernel/log.c:177-184 | the same for any number of crashes, each inside the recovery from the one before |
| Log.WriteLogCrashes | kernel/log.c:140-153 | a crash at any block write of write_log is recovered to exactly the old home blocks |
| Log.CommitPoint | kernel/log.c:188-198 | the write of the header makes the whole transaction recoverable |
| Log.CommitAtomic | kernel/log.c:188-198 | all or nothing: every crash point of commit before the header write is recovered to exactly the old home blocks, every one from it on to exactly the new ones, and commit ends with the new ones and a cleared header |
| Log.Log.WriteHead | kernel/log.c:94-106 | writes the entries and their count into the header block, as one more crash point |
| Log.Log.ReadHead | kernel/log.c:112-136 | reads exactly the headers whose count and entries are in range; of those, exactly the ones that fit the array of the in-memory header are held afterwards, the others overflow it; otherwise changes nothing |
| Log.Log.WriteLog | kernel/log.c:140-153 | slot t holds the cached contents of entry t, nothing else changed, and each block write is recorded as a crash point in order |
| Log.Log.InstallTrans | kernel/log.c:157-172 | every slot is copied home in order, with a crash point at each write; outside recovery each logged buffer is unpinned |
| Log.Log.RecoverFromLog | kernel/log.c:177-184 | succeeds exactly on headers that read_head takes in, and then leaves the recovered disk; otherwise writes nothing |
| Log.Log.Commit | kernel/log.c:188-198 | the home blocks become those seen through the cache, the header is cleared, and the crash points are those of CommitAtomic |
| BufferCache.MoveToTailPermutes | kernel/bio.c:136-164 | moving a released buffer keeps the list a permutation of all buffers |
| BufferCache.LookupIsComplete | kernel/bio.c:65-100 | the two scans of bget find a cached block, and a buffer that may be recycled, exactly if there is one |
| BufferCache.LastReleasedIsEvictedFirst | kernel/bio.c:136-164 | the buffer that brelse has just put at the tail is the next victim |
| BufferCache.ReleasedLaterIsBehind | kernel/bio.c:136-164 | after any sequence of releases, a buffer released after the last release of another is behind it in the list |
| BufferCache.EvictsOldestIff | kernel/bio.c:65-100 | the victim is the evictable buffer that was released longest ago if and only if no two buffers are evictable |
| BufferCache.EvictsNewest | kernel/bio.c:65-100 | with two evictable buffers the one behind goes and the one in front stays |
| BufferCache.FreshCacheEvictsTail | kernel/bio.c:40-58 | in the cache as binit leaves it, the victim is at the tail and the oldest buffer at the head |
| BufferCache.Relinked | kernel/bio.c:136-164 | the pointer updates of brelse splice the buffer out of the doubly linked list and back in before the head |
| BufferCache.Cache.constructor | kernel/bio.c:40-58 | binit links all buffers; the list starts in descending order |
| BufferCache.Cache.Bget | kernel/bio.c:65-100 | a cached block gets one more reference, otherwise the last buffer that nobody references or pins is recycled for it, otherwise none changes |
| BufferCache.Cache.Brelse | kernel/bio.c:136-164 | one reference less, and with the last one the buffer goes to the tail; the links stay a list of all buffers in that order |
| LogInvariant.StepKeepsInv | kernel/log.c:203-310 | every step of every process and of the committer, and a crash at any point, keeps the invariant of log, cache and disk |
| LogTheorems.RunInv | kernel/log.c:203-310 | the invariant holds in every state of every run |
| LogTheorems.CrashAtomic | kernel/log.c:188-198 | whenever the machine stops, recovery accepts the header and leaves exactly the home blocks of the last committed transaction |
| LogTheorems.QuiescentDisk | kernel/log.c:284-310 | between commits the home blocks on disk are those of the last transaction, and the header is clear |
| LogTheorems.OpInOneCommit | kernel/log.c:234-310 | an operation is in at most one transaction, whose header names every block the operation ever logs |
| LogTheorems.OpIsCommitted | kernel/log.c:234-310 | from its begin_op on, unless the machine crashes, an operation waits for its commit or is in exactly one; once no operation is open and no commit runs, it is in exactly one if it logged anything |
| LogTheorems.OpenIsUncommitted | kernel/log.c:284-310 | an operation that is still open has nothing committed |
| LogTheorems.QuiescentIsDurable | kernel/log.c:284-310 | with no operation open and no commit running, each home block on disk holds what log_write published last |
| LogTheorems.CommitsAreQuiescent | kernel/log.c:284-310 | every committed transaction is the logical disk of an earlier state without open operations, so recovery never shows part of one |
| LogTheorems.CrashKeeps | kernel/log.c:177-198 | a property of the home blocks that holds at first, and that every group of operations from one state without open ones to the next keeps, holds of what recovery leaves after a crash at any point, earlier crashes included |
| LogTheorems.CommitIsExclusive | kernel/log.c:284-310 | there is at most one committer, only while no operation is open, and the header is frozen meanwhile; end_op never meets a commit |
| LogTheorems.ReadHeadAccepts | kernel/log.c:112-136 | read_head takes in every header that a run can leave on disk, and its entries are distinct |
| LogTheorems.BunpinFindsPin | kernel/log.c:157-172 | install_trans always finds the one pin that log_write placed, so bunpin never panics |
| LogTheorems.PinsBalance | kernel/log.c:256-279 | exactly the blocks still to be installed are pinned, once each; none when no operation is open and no commit runs |
| LogTheorems.OneBufferPerBlock | kernel/bio.c:65-100 | no block of the device is in two buffers |
| LogTheorems.InUseKeepsIdentity | kernel/bio.c:65-100 | a referenced or pinned buffer is never given to another block |
| LogTheorems.BgetIsStep | kernel/bio.c:65-100 | bget over the linked list is a step of the machine: a hit if the block is cached, a miss if a buffer may be recycled, and none exactly if there is neither |
| LogTheorems.BreadReturnsLatest | kernel/bio.c:105-118 | whoever has read a home block sees the contents published last, unless changing it at the moment, although eviction never writes back |
| LogTheorems.RunCapacity | platform/visionfive2/kernel/log.c:127-143 | if every operation adds fewer than MAXOPBLOCKS blocks, the header and the reservations together stay within the log in every state |
| LogTheorems.LogNeverOverflows | platform/visionfive2/kernel/log.c:215-236 | so an open operation never meets the too-big panic of log_write, and the header has at most 28 entries, on any log of at least 29 data blocks |
| FsOwnership.MarkUsedBits | platform/visionfive2/kernel/fs.c:67-90 | setting a bit in the bitmap block sets the bit of that block and no other |
| FsOwnership.MarkFreeBits | platform/visionfive2/kernel/fs.c:93-107 | clearing it clears the bit of that block and no other |
| FsOwnership.LinkAddr | platform/visionfive2/kernel/fs.c:406-445 | putting a fresh block into a direct slot, or a fresh zeroed one into the indirect pointer, keeps every block referenced at most once |
| FsOwnership.LinkEntry | platform/visionfive2/kernel/fs.c:406-445 | the same for an entry of an indirect block |
| FsOwnership.UnlinkAddr | platform/visionfive2/kernel/fs.c:449-477 | the same for clearing a slot once all indirect entries are given up |
| FsOwnership.CutEntry | platform/visionfive2/kernel/fs.c:449-477 | the same for giving up one more indirect entry |
| FsFiles.WriteChunk | platform/visionfive2/kernel/fs.c:529-563 | writing a chunk into its block splices exactly its bytes into the file |
| FsFiles.CopyPass | platform/visionfive2/kernel/fs.c:529-563 | and leaves the contents of all other files, and the ownership of all blocks, as they were |
| FsFiles.AllocEntry | platform/visionfive2/kernel/fs.c:406-445 | allocating an indirect entry keeps the contents of every file |
| FsFiles.FreeStores | platform/visionfive2/kernel/fs.c:449-477 | freeing a block of one file keeps the contents of the others |
| Fs.ChunkFits | platform/visionfive2/kernel/file.c:158-178 | a chunk of filewrite logs at most 7 blocks if the bitmap fits one block, and fewer than MAXOPBLOCKS if it fits three |
| Fs.BoundFitsIff | platform/visionfive2/kernel/file.c:158-178 | the bound on what a chunk logs is below MAXOPBLOCKS for all chunks if and only if the bitmap has at most three blocks |
| Fs.FileSystem.Balloc | platform/visionfive2/kernel/fs.c:67-90 | the lowest free data block, marked used and zeroed, with every other bit unchanged; none exactly if all bits are set |
| Fs.FileSystem.Bfree | platform/visionfive2/kernel/fs.c:93-107 | clears that bit only; panics exactly if it is clear already |
| Fs.FileSystem.Bmap | platform/visionfive2/kernel/fs.c:406-445 | the block of the file, allocated zeroed if absent, with ownership, bitmap and all files kept; out of range exactly from MAXFILE on; 0 only if the disk is full |
| Fs.FileSystem.Writei | platform/visionfive2/kernel/fs.c:529-563 | replaces exactly the bytes from off on by the ones taken, sets the size to the maximum, changes no other file, refuses exactly offsets past the end and files too large, stops short only on a full disk, and bounds the blocks logged |
| Fs.FileSystem.Readi | platform/visionfive2/kernel/fs.c:495-520 | for every inode, holes or not: gives the bytes of the file, zeros for missing blocks, up to its end and nothing if off is past it or the sum wraps; fewer only at a missing block on a full disk; fails exactly where the destination ends too early; logs something if and only if a block that is looked up is missing and the disk is not full, and otherwise changes nothing |
| Fs.FileSystem.Fileread | platform/visionfive2/kernel/file.c:102-130 | in a consistent file system a read of a file gives exactly its bytes, moves the offset by as many, and logs nothing |
| Fs.FileSystem.constructor | platform/visionfive2/kernel/fs.c:28-49 | the kernel starts on an image with nothing logged, in a valid state exactly if the image is consistent |
| Fs.FileSystem.Itrunc | platform/visionfive2/kernel/fs.c:449-477 | the file is empty, exactly its blocks are free again, each freed once, and all other files are kept |
| Fs.FileSystem.IputLast | platform/visionfive2/kernel/fs.c:338-364 | the last reference to an unlinked inode frees its blocks and the inode |
| Fs.FileSystem.Ialloc | platform/visionfive2/kernel/fs.c:200-221 | the first free inode, with an empty file; none exactly if all are taken |
| Fs.FileSystem.Filewrite | platform/visionfive2/kernel/file.c:134-184 | writes a prefix of the data at the old offset, all of it unless the disk is full, the offset is past the end or the file gets too large; each chunk of three blocks' worth that was started is one transaction, in order, which logs no more blocks than writing the bytes of that chunk may, nor than the chunk bound |
| Mkfs.AppendPass | platform/visionfive2/mkfs/mkfs.c:260-302 | one pass of iappend appends its bytes, and keeps ownership and the exact end of every file |
| Mkfs.NeedStep | platform/visionfive2/mkfs/mkfs.c:260-302 | how many blocks the bytes appended in one pass take: none inside a block, one at its start, two where the indirect block begins |
| Mkfs.LeanFresh | platform/visionfive2/mkfs/mkfs.c:260-302 | that is how many blocks iappend finds missing |
| Mkfs.RoundedHoles | platform/visionfive2/mkfs/mkfs.c:172-176 | rounding the size of a file leaves no hole exactly if its size is not a multiple of the block size, and then it ends in zeros |
| Mkfs.BitmapWritten | platform/visionfive2/mkfs/mkfs.c:242-256 | the bitmap block written at the end marks exactly the metadata and the blocks handed out |
| Mkfs.Image.constructor | platform/visionfive2/mkfs/mkfs.c:95-119 | the empty image: all blocks zero, no inode used, the first data block next |
| Mkfs.Image.Iappend | platform/visionfive2/mkfs/mkfs.c:260-302 | the bytes are appended to that file only; fails exactly if the file gets too large or the image is full |
| Mkfs.Image.Balloc | platform/visionfive2/mkfs/mkfs.c:242-256 | sets exactly the first bits of the bitmap block, and fails exactly if they do not fit |
| Mkfs.Image.AddFile | platform/visionfive2/mkfs/mkfs.c:134-169 | one argument becomes a directory entry and a file with its contents |
| Mkfs.Image.Populate | platform/visionfive2/mkfs/mkfs.c:121-169 | the image holds the root directory with all entries and one file per argument |
| Mkfs.Image.Finish | platform/visionfive2/mkfs/mkfs.c:171-178 | the finished image: ownership and bitmap agree, and it meets the invariant of the running system if and only if the root directory does not end on a block boundary |
| Mkfs.FilesTotal | platform/visionfive2/mkfs/mkfs.c:72-181 | the blocks handed out are those that the directory and the files need |
| Mkfs.MakeImage | platform/visionfive2/mkfs/mkfs.c:72-181 | a run succeeds exactly if names and files fit and there are blocks enough; the image then satisfies the invariant of the file system if and only if the number of root entries is not a multiple of 64 |
| Mkfs.FullRoot | platform/visionfive2/mkfs/mkfs.c:171-178 | with 62, 126 or 190 empty files mkfs succeeds on an image of 2000 blocks, and nothing makes the result meet the invariant |
| Mkfs.ReadFullRoot | platform/visionfive2/kernel/file.c:120-124 | on such an image, reading the root directory logs something, although fileread begins no transaction |
| Mkfs.Boot | platform/visionfive2/mkfs/mkfs.c:72-181 | the kernel starts in a valid state on what mkfs made of the arguments, if the number of root entries is not a multiple of 64 |
| PageTable.SplitIndices | platform/visionfive2/kernel/vm.c:95-113 | the three indices that PX cuts out of the address give the page number back, and are in range below MAXVA |
| PageTable.ValueInjective | platform/visionfive2/kernel/vm.c:95-113 | different virtual pages have different indices |
| PageTable.WalkEntries | platform/visionfive2/kernel/vm.c:95-113 | what the hardware finds on the way to a page of a tree that stands for a flat map |
| PageTable.AddMidRefines | platform/visionfive2/kernel/vm.c:95-113 | hooking a fresh zeroed table into the root keeps the flat map |
| PageTable.AddLowRefines | platform/visionfive2/kernel/vm.c:95-113 | hooking in a fresh leaf table keeps the flat map |
| PageTable.SetLeaf | platform/visionfive2/kernel/vm.c:143-215 | writing or clearing one leaf entry changes the flat map at that page only |
| Vm.GrowOne | platform/visionfive2/kernel/vm.c:219-244 | mapping one more fresh frame keeps new frames distinct, taken from the free pages, and no page lost |
| Vm.Shrink | platform/visionfive2/kernel/vm.c:219-244 | taking the new pages away again gives the old map, with all pages accounted for |
| Vm.Machine.constructor | platform/visionfive2/kernel/kalloc.c:27-41 | exactly the whole pages between the end of the kernel and the end of memory are free |
| Vm.Machine.Kalloc | platform/visionfive2/kernel/kalloc.c:70-84 | takes one page off the free list, filled with junk; none exactly if the list is empty |
| Vm.Machine.Kfree | platform/visionfive2/kernel/kalloc.c:47-65 | puts the page on the list and touches no other |
| Vm.Machine.Walk | platform/visionfive2/kernel/vm.c:95-113 | finds the leaf table of the page, made if asked for; the flat map is unchanged, tables come from the free pages, and it fails only if those run out |
| Vm.Machine.Mappages | platform/visionfive2/kernel/vm.c:143-177 | the pages of the range, none of which was mapped, are mapped to the frames in order with the given permissions, and nothing else changes; a partial result is exactly a prefix, because no page is left, the next page is mapped already, or it is beyond MAXVA; no pages are refused |
| Vm.Machine.Uvmunmap | platform/visionfive2/kernel/vm.c:195-215 | removes exactly the range, and frees exactly its frames if asked to, each once |
| Vm.Machine.Freewalk | platform/visionfive2/kernel/vm.c:266-282 | frees each table page of the subtree exactly once and never meets a leaf |
| Vm.Machine.AddPage | platform/visionfive2/kernel/vm.c:219-244 | one fresh page with given contents is mapped, or, exactly if a kalloc fails, nothing is and the page goes back |
| Fork.Uvmcreate | platform/visionfive2/kernel/vm.c:181-190 | an empty table of one page; none exactly if no page is free |
| Fork.Uvmfree | platform/visionfive2/kernel/vm.c:286-292 | all frames and all tables are free again |
| Fork.Uvmdealloc | platform/visionfive2/kernel/vm.c:250-262 | exactly the pages between the two sizes go, with their frames |
| Fork.Uvmalloc | platform/visionfive2/kernel/vm.c:219-244 | the new pages are zeroed frames of their own with the given permissions; if a kalloc fails, and only then, the old map is back and all pages are accounted for |
| Fork.Uvmcopy | platform/visionfive2/kernel/vm.c:300-328 | the copy maps exactly the pages that the parent maps, with equal bytes and permissions on frames disjoint from the parent; if a kalloc fails, and only then, the new table maps what it did before |
| Fork.ProcPagetable | platform/visionfive2/kernel/proc.c:178-208 | maps exactly trampoline and trapframe; fails exactly if a kalloc fails, with all pages back |
| Fork.ProcFreepagetable | platform/visionfive2/kernel/proc.c:212-218 | frees the user frames and all tables, but neither trampoline nor trapframe |
| Fork.FreeprocEmpty | platform/visionfive2/kernel/proc.c:157-174 | the trapframe and all tables are free again |
| Fork.Kfork | platform/visionfive2/kernel/proc.c:261-308 | a fork that succeeds gives the child a copy of the memory of the parent besides trampoline and trapframe, on frames, tables and a trapframe page of its own: pages that were free, are free no more and are all different, with every page taken accounted for; it fails exactly if a kalloc fails, at whatever point, and then the set of free pages is as before; memory of the parent is never written |
| ExitWaitInv.StepKeepsInv | platform/visionfive2/kernel/proc.c:261-417 | every step of fork, failing or not, exit, wait, sleep, wakeup, kill and the scheduler, by any process on any hart, keeps the invariant |
| ExitWaitTheorems.RunInv | platform/visionfive2/kernel/proc.c:261-417 | the invariant holds in every state of every interleaving |
| ExitWaitTheorems.NoSleeperWithZombie | platform/visionfive2/kernel/proc.c:372-417 | whenever wait_lock is free, no process sleeps in kwait while it has a child that has exited |
| ExitWaitTheorems.ReapsOnce | platform/visionfive2/kernel/proc.c:372-417 | kwait returns a process that has exited and has not been returned before, with the status it exited with |
| ExitWaitTheorems.NeverReapedTwice | platform/visionfive2/kernel/proc.c:372-417 | no two calls return the same process |
| ExitWaitTheorems.ReapedByOne | platform/visionfive2/kernel/proc.c:372-417 | each process recorded as reaped was returned by exactly one call |
| ExitWaitTheorems.ZombieIsKept | platform/visionfive2/kernel/proc.c:328-368 | a process that has exited and is not reaped keeps its slot and its status |
| ExitWaitTheorems.ForestAt | platform/visionfive2/kernel/proc.c:312-323 | where the invariant holds, the parent links of every process that is alive or not yet reaped lead to init |
| ExitWaitTheorems.Forest | platform/visionfive2/kernel/proc.c:312-323 | so in every state of every run they form a forest rooted at init |
| ExitWaitTheorems.GivesUpWithoutChildren | platform/visionfive2/kernel/proc.c:372-417 | kwait gives up only if the caller was killed or has no child |
| PipeTheorems.EmptyFull | kernel/pipe.c:128-198 | the comparisons of the wrapped 32-bit positions mean an empty and a full ring |
| PipeTheorems.PutKeepsRing | kernel/pipe.c:128-163 | storing a byte overwrites no byte that is still to be read, across wrap-around |
| PipeTheorems.GetKeepsRing | kernel/pipe.c:169-198 | reading takes the oldest byte |
| PipeTheorems.StepKeepsInv | kernel/pipe.c:100-198 | every step of any number of readers and writers, closing, killing and waking keeps the invariant |
| PipeTheorems.NoLostWakeup | kernel/pipe.c:128-198 | whenever the lock is free, one asleep on the read channel means an empty ring and a live write end, one asleep on the write channel a full ring and a live read end |
| PipeTheorems.NeverBothAsleep | kernel/proc.c:379-410 | so a reader and a writer never sleep both |
| PipeTheorems.Fifo | kernel/pipe.c:128-198 | in every state of every run, bytes delivered followed by bytes in the ring are the bytes accepted, and the ring never holds more than 512 |
| PipeTheorems.OccupancyOf | kernel/pipe.c:128-198 | the difference of the positions modulo 2 to the 32 is the number of bytes accepted and not yet delivered |
| PipeTheorems.EndOfFile | kernel/pipe.c:169-198 | a read of a nonzero length that ends without a byte has found all accepted bytes delivered and the write end closed |
| PipeTheorems.ClosedForGood | kernel/pipe.c:100-121 | a closed write end stays closed, and nothing is accepted after |
| PipeTheorems.FreedUnused | kernel/pipe.c:100-121 | with both ends closed and the lock free nobody is inside the pipe, so freeing it is safe |
| Umalloc.RingInsert | platform/visionfive2/user/umalloc.c:24-44 | linking a block in after another inserts it into the circle |
| Umalloc.RingRemove | platform/visionfive2/user/umalloc.c:63-90 | unlinking removes it |
| Umalloc.TileJoin | platform/visionfive2/user/umalloc.c:24-44 | joining two blocks that touch keeps the heap partitioned into blocks |
| Umalloc.TileSplit | platform/visionfive2/user/umalloc.c:63-90 | so does cutting off the upper end of a block |
| Umalloc.TileAdd | platform/visionfive2/user/umalloc.c:46-61 | so does adding memory from sbrk as a block |
| Umalloc.BlocksDisjoint | platform/visionfive2/user/umalloc.c:24-90 | blocks of a partitioned heap never overlap |
| Umalloc.Allocator.FindPlace | platform/visionfive2/user/umalloc.c:24-44 | the scan of free ends at the free block after which the address belongs, after fewer moves than there are blocks on the list |
| Umalloc.Allocator.Free | platform/visionfive2/user/umalloc.c:24-44 | the block is free, the list stays circular, in address order and without adjacent blocks, all other blocks in use keep place and size, and no unit is lost |
| Umalloc.Allocator.Morecore | platform/visionfive2/user/umalloc.c:46-61 | at least 4096 units join the free list, or nothing changes if sbrk fails |
| Umalloc.Allocator.Take | platform/visionfive2/user/umalloc.c:63-90 | exactly the units asked for become a block in use, and no unit is lost |
| Umalloc.Allocator.Malloc | platform/visionfive2/user/umalloc.c:63-90 | a block of exactly the units needed, disjoint from all others; 0 only if sbrk fails and no free block is large enough; at most one lap of the list is looked at before morecore and one after it |
| Virtio.AtMostTwo | platform/visionfive2/kernel/virtio_disk.c:201-213 | eight descriptors make at most two chains of three |
| Virtio.PushAvail | platform/visionfive2/kernel/virtio_disk.c:271-277 | publishing a request overwrites no entry that the device has not taken, across the 16-bit wrap |
| Virtio.PushUsed | platform/visionfive2/kernel/virtio_disk.c:312-324 | a completion overwrites no entry that the driver has not handled |
| Virtio.NewChain | platform/visionfive2/kernel/virtio_disk.c:215-292 | three fresh descriptors keep free ones and chains a partition |
| Virtio.EndChain | platform/visionfive2/kernel/virtio_disk.c:185-197 | so does freeing a chain |
| Virtio.Driver.constructor | platform/visionfive2/kernel/virtio_disk.c:143-146 | all descriptors start free and cleared |
| Virtio.Driver.AllocDesc | platform/visionfive2/kernel/virtio_disk.c:156-166 | takes the lowest free descriptor; none exactly if all are taken |
| Virtio.Driver.FreeDesc | platform/visionfive2/kernel/virtio_disk.c:169-182 | clears and frees that descriptor and wakes those waiting for one; panics exactly if it is out of range or free |
| Virtio.Driver.FreeChain | platform/visionfive2/kernel/virtio_disk.c:185-197 | frees exactly the chain that starts there, and never meets the panics of free_desc |
| Virtio.Driver.Alloc3Desc | platform/visionfive2/kernel/virtio_disk.c:201-213 | three descriptors exactly if three are free, otherwise everything as before |
| Virtio.Driver.Submit | platform/visionfive2/kernel/virtio_disk.c:215-281 | the request is published with its chain as the device expects it, for the sector of its block, or the caller has to wait, exactly if fewer than three descriptors are free |
| Virtio.Driver.Fetch | platform/visionfive2/kernel/virtio_disk.c:271-281 | the device gets the requests in order, each with its chain in place |
| Virtio.Driver.Complete | platform/visionfive2/kernel/virtio_disk.c:312-324 | the device may complete the requests it has taken in any order |
| Virtio.Driver.IntrOne | platform/visionfive2/kernel/virtio_disk.c:312-324 | each completion is handled once, its status is 0, and exactly the buffer of that request stops being busy and its waiter wakes |
| Virtio.Driver.Intr | platform/visionfive2/kernel/virtio_disk.c:294-327 | all completions are handled, in the order of the used ring |
| Virtio.Driver.Resume | platform/visionfive2/kernel/virtio_disk.c:283-292 | a waiter goes on exactly when its own request has been handled, and then frees exactly its chain; nobody sleeps on a finished request or for descriptors that are there |
| Shell.ArgsRoundTrip | platform/visionfive2/user/sh.c:421-452 | the argument loop reads back up to nine printed words |
| Shell.LineRoundTrip | platform/visionfive2/user/sh.c:350-452 | parsing the tokens of a printed command, up to a closing parenthesis or the end, gives the command back |
| Shell.TokensOf | platform/visionfive2/user/sh.c:271-314 | the tokens of a printed command are its words and symbols |
| Shell.RoundTrip | platform/visionfive2/user/sh.c:333-348 | for every tree with legal words and at most nine arguments per command, parsing its fully parenthesised printing gives the same tree |
| ShellParser.TokensLexed | platform/visionfive2/user/sh.c:271-314 | the tokens of a line are what gettoken returns from one cursor position to the next |
| ShellParser.Peek | platform/visionfive2/user/sh.c:316-326 | moves the cursor over white space only, and tells what the next token begins with |
| ShellParser.GetToken | platform/visionfive2/user/sh.c:271-314 | returns the next token and leaves the cursor at the one after it |
| ShellParser.ParseRedirs | platform/visionfive2/user/sh.c:380-403 | the loop returns what the grammar defines on the tokens, including the error for a missing file |
| ShellParser.ParseExec | platform/visionfive2/user/sh.c:421-452 | so does parseexec, although it fills in the exec node after redirections point at it |
| ShellParser.ParseArgs | platform/visionfive2/user/sh.c:437-448 | so does its loop, with the limit of nine arguments |
| ShellParser.ParseBlock | platform/visionfive2/user/sh.c:405-419 | so does parseblock |
| ShellParser.ParsePipe | platform/visionfive2/user/sh.c:367-378 | so does parsepipe |
| ShellParser.ParseLine | platform/visionfive2/user/sh.c:350-365 | so does parseline; the mutual recursion terminates |
| ShellParser.NulTerminate | platform/visionfive2/user/sh.c:455-499 | writes a NUL at the end of every recorded word and nowhere else |
| ShellParser.EndsOutside | platform/visionfive2/user/sh.c:455-499 | no place where a NUL is written lies inside a word |
| ShellParser.WordsKept | platform/visionfive2/user/sh.c:455-499 | so every recorded word is a C string of its own afterwards, with none of its bytes changed |
| ShellParser.ParseCmd | platform/visionfive2/user/sh.c:333-348 | parses the buffer up to its first NUL; the words found in the buffer afterwards are those of the parsed tree, and a printed command comes back as it was |
| Grep.OneHere | platform/visionfive2/user/grep.c:85-97 | a pattern that starts with an ordinary character or a dot takes one character |
| Grep.StarHere | platform/visionfive2/user/grep.c:100-108 | a starred character takes any number of characters that it accepts |
| Grep.EndHere | platform/visionfive2/user/grep.c:85-97 | a final dollar matches at the end of the text only |
| Grep.MatchHere | platform/visionfive2/user/grep.c:85-97 | true exactly if some prefix, all of the text if the pattern ends in a dollar, splits into pieces that match the items of the pattern |
| Grep.MatchStar | platform/visionfive2/user/grep.c:100-108 | the same for a starred character followed by a pattern, whatever the order of the search |
| Grep.Match | platform/visionfive2/user/grep.c:72-82 | true exactly if some substring does, a prefix if the pattern starts with a caret |

## Left out

- Liveness: that a waiting process is scheduled again. The theorems say that nobody waits without a reason.
- Weak memory ordering and interrupt nesting: taking a lock is one atomic step.
- Running out of buffers in `bget` or of in-memory inodes stops the run, as the panic does.
- Directories, path names and the inode cache of `platform/visionfive2/kernel/fs.c`: they would add search loops of the
  kind that `Balloc` and `Bget` show.
- Concurrency inside the file system: each operation of `Fs` runs alone. That two inodes are locked at once in one
  transaction, as in `create` and `unlink`, is not modelled.
- Crash consistency of the file system as one theorem: `LogTheorems.CrashKeeps` holds for every property of the home
  blocks, but that the operations of `Fs` change them as they do is not connected to the steps of `LogSystem`. Its
  blocks are words and its operations interleave, those of `Fs` are bytes and run alone.
- `Fs.FileSystem.constructor`: reading the superblock and reclaiming inodes without links at boot are not modelled.
- `Log.Log.ReadHead`: for a count of 256 or more, possible only with a log of that many blocks, only the entries that
  lie in the header block are tested.
- `Fs.FileSystem.Writei`: a fault while copying from user memory is not modelled; the copy of a block is one step.
- `Fs.FileSystem.Readi`: a size beyond the largest file, where bmap panics, is excluded by a precondition.
- `Fs.FileSystem.Iupdate`: inodes are a table beside the blocks; how they are packed into blocks is not modelled, only
  which block is logged.
- `Fork.Kfork`: registers, open files, names and the contents of the trapframe are not modelled; the process table part
  is in `ExitWait`.
- `Vm.Machine.Walk`: the model walks by page number, so addresses are aligned; that they lie below MAXVA is a
  precondition, which only `Mappages` tests.
- `Vm.Machine.Mappages`: alignment of address and size, as pages are numbered.
- `Vm.Machine.Uvmunmap`: a range beyond MAXVA, where the code panics, is excluded by a precondition.
- `Vm.Machine.Kfree`: a page outside the managed range, where the code panics, is excluded by a precondition.
- Lazy allocation in `vmfault` and the copy functions of `platform/visionfive2/kernel/vm.c`.
- `Mkfs.MakeImage`: the program does not check the number of inodes; that the arguments fit the 200 inodes is a
  precondition. Cutting directory names off the arguments, and reading the host files, come before the model.
- `PipeTheorems.EndOfFile`: files that refer to an end are counted elsewhere; an end is closed only when no process uses
  it, and `n` bytes come from user memory as one sequence, with a fault as a possible step at each byte.
- `Umalloc.Allocator.Malloc`: sizes do not wrap around 32 bits, and memory from `sbrk` does not overlap earlier memory
  and lies above the static header.
- `Virtio.Driver.Complete`: the device succeeds; a status other than 0 stops the driver in a panic. Initialisation of
  the device registers is not modelled.
- `Virtio.Driver.Submit`: the caller holds the sleep lock of the buffer, so no other request in flight uses it.
- `ShellParser.ParseExec`: nodes are values. That parseexec updates the exec node in place, below the redirection nodes
  that already point at it, is modelled by descending to it.
- Running commands, reading lines and the `cd` command of the shell; the line buffering of `grep`.
- `nextpid`, reference counts and other counters do not wrap around.
- Trap handling, system call dispatch, `exec`, devices other than the virtio disk, and assembly.
