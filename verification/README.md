# xv6 with multi-queue scheduling, verified

A Dafny model of the parts of this xv6 kernel where the invariants are: the write-ahead log and the
buffer cache, block allocation and files, link counts, the user-level allocator, page tables, the
scheduler with aging, pipes, the priority lock, and two user programs, the shell's parser and the
matcher of grep. `dafny verify dfyconfig.toml` checks everything.

Code that updates state in place is modelled as classes and loops over arrays, sequences and maps;
each method is tied to a function or relation on values, and the results are lemmas about those.
Concurrency is modelled as state machines whose steps are critical sections.

## How the modules fit together

- `Machine`: bytes and 32-bit arithmetic.
- `BlockDisk`, `LogFormat`, `Log`: the disk as a sequence of blocks with atomic block writes; what the
  log looks like on disk; `log.c` as a class that records every disk write in order.
- `GroupCommit`, `LogReservation`: any number of system calls, commits, crashes and recoveries as one
  transition system, and how much a call may log.
- `Rings`, `BufferRing`, `BufferState`, `Bio`: the doubly linked LRU ring and the coherence of the
  cache, then `bio.c` as a class.
- `BufferLimit`, `LogBuffers`: runs of requests to the cache, then one run of the cache and the log, and
  how many buffers the log and its callers may keep busy.
- `FsLayout`, `FsOwnership`, `FsSpace`, `FsChange`, `FsStep`, `Fs`, `FsRoot`, `FileIo`: how an inode names
  blocks, who owns which block, how many blocks a range needs, what the operations do to a volume, when
  the inodes on disk are those in memory, then `fs.c`, the root directory of `mkfs.c`, and `file.c`.
- `LinkCount`, `Links`: counting directory entries, then `create`, `link` and `unlink`.
- `Sums`, `FreeList`, `Umalloc`: the circular free list over values, then `umalloc.c` as a class.
- `PageTables`, `VmSpace`, `VmGrow`, `VmCopy`, `VmNeed`, `Vm`: one use per physical frame, what growing,
  shrinking and copying do to address spaces and how many frames they take, then `vm.c` and `kalloc.c`
  as a class.
- `Scheduler`, `Aging`: the three searches and the choice, then runs of any number of CPUs.
- `Pipe`, `PipeRuns`: the ring with wrapping counters, then any number of readers and writers.
- `PriorityLock`, `PriorityRuns`: the ring of pids, then any number of processes and exits.
- `Grep`, `ShellTokens`, `ShellGrammar`, `ShellSyntax`, `Shell`: the matcher against the language of a
  pattern; the shell's tokens, its parser over tokens and a printer, the syntax of its command lines as
  written and what they mean, and its parser over characters.

## Where the code does less than it seems

- A call that keeps to MAXOPBLOCKS logged blocks can make the kernel panic, because mkfs makes a log of
  LOGSIZE blocks and `log_write` stops one short of it; the exact bound is MAXOPBLOCKS - 1
  (`LogReservation.PanicFreeIff`).
- The cache has NBUF = 30 buffers and the log can pin 28 of them while calls add at most 9 blocks each,
  so "bget: no buffers" is unreachable only as long as at most 2 others are in use at a time
  (`LogBuffers.TwoToSpare`).
- `writei` copies the inode to disk only if the file grows. If a write fills a hole whose block number
  stands in the inode itself and does not grow the file, the disk never learns of the block: it is taken
  and nobody's (`Fs.FileSystem.Writei`, `FsStep.WriteSoundIff`). This happens to the root directory of
  this repository's own image: its 32 entries fill one block, mkfs rounds its size up to two, and the
  first `open` and `mknod` of init fill the hole (`FsRoot.RootHoleIff`, `FsRoot.OpenThenMknod`).
- From tick 2^31 on `arrival_time` is negative, so LCFS, the queue of every process but the first two,
  overlooks new processes: a CPU idles over them until they age into round robin (`Aging.IdleExactly`,
  `Aging.LateForkIdles`). Up to then a CPU idles only if there is nothing to run (`Aging.IdleIff`).
- Reading a hole of a file allocates a block, but `fileread` opens no transaction: without one opened
  by another call the read panics (`Fs.FileSystem.Readi`, `FileIo.Fileread`). The hole that mkfs leaves
  is an example (`FsRoot.RootReadPanics`); the kernel itself makes none.
- A file created or linked in a directory that has been removed but is still in use gets a link count
  that no live directory accounts for (`LinkCount.CreateKeepsIff`, `LinkCount.LinkKeepsIff`).
- A writer that has been killed can fill a pipe and leave without waking the reader
  (`PipeRuns.StepKeepsIff`).
- The queue of the priority lock reads left of its first slot when it wraps
  (`PriorityLock.PriorityQueue.Add`), which three processes bring about after 63 grants
  (`PriorityRuns.LateWaiterLeaves`).
- The shell has the token `>>` but parses it to the same command as `>` (`ShellSyntax.LineSwap`).
- `malloc` of more than 2^32 - 8 bytes rounds to too few units (`Umalloc.UnitsSuffice`).

## Model

| member | source | states |
|---|---|---|
| LogFormat.HeaderRoundTrip | xv6-public/log.c:84-113 | the header that `write_head` stores is the header that `read_head` loads, whatever stale words the block held |
| LogFormat.CommitDone | xv6-public/log.c:177-202 | after the last write of a commit the on-disk log is empty and every home block is the new one |
| LogFormat.CommitCrash | xv6-public/log.c:177-202 | crash after any number of the block writes of a commit: recovery gives all old home blocks while the header is not written, all new ones from then on |
| LogFormat.RecoverHome | xv6-public/log.c:69-122 | what recovery leaves at each home address: the logged copy if the header lists it, otherwise what was there |
| LogFormat.RecoverEmpty | xv6-public/log.c:115-122 | recovering an image with an empty log changes no home block |
| LogFormat.RecoveryCrash | xv6-public/log.c:115-122 | crash after any number of the writes of a recovery: recovering again gives the same home blocks |
| LogFormat.RecoveryRestarts | xv6-public/log.c:115-122 | the same for any finite chain of interrupted recoveries |
| LogFormat.CrashAtomicity | xv6-public/log.c:69-122 | crash anywhere in a commit, then in any number of recoveries: a completed recovery leaves an empty log and all home blocks old or all new, new exactly when the header had been written |
| Log.Log.BeginOp | xv6-public/log.c:124-141 | a call is admitted exactly if no commit is going on and the log can take MAXOPBLOCKS more blocks for it and for each open call |
| Log.Log.LogWrite | xv6-public/log.c:213-233 | records the block once (absorption), pins its contents, and panics exactly on a full log or outside a transaction, before looking for absorption |
| Log.Log.WriteLog | xv6-public/log.c:177-190 | its disk writes, in order, are the first part of the commit sequence |
| Log.Log.WriteHead | xv6-public/log.c:101-113 | one disk write that puts the list into the header block and keeps its stale words |
| Log.Log.InstallTrans | xv6-public/log.c:69-82 | its disk writes, in order, copy each log block to its home; installed blocks are unpinned |
| Log.Log.Commit | xv6-public/log.c:192-202 | the trace of disk writes is exactly the commit sequence whose every prefix is crash-safe; afterwards the log is empty and home blocks are new |
| Log.Log.EndOp | xv6-public/log.c:145-174 | the last open call commits the whole group; an earlier one writes nothing; the panic happens exactly if a commit is going on |
| Log.Log.ReadHead | xv6-public/log.c:85-96 | the in-memory list becomes the one on disk |
| Log.Log.RecoverFromLog | xv6-public/log.c:115-122 | the trace is exactly the recovery sequence and the disk its result |
| GroupCommit.GroupCommitSafety | xv6-public/log.c:124-174 | after any interleaving of calls, commit steps, crashes and recovery steps, crashing now and recovering gives a whole prefix of the committed groups; calls are open only while nothing commits, and then no home block shows an unfinished group; logged blocks are distinct |
| GroupCommit.OnlyTooBigPanics | xv6-public/log.c:145-153 | in a run only the full log panics: "log.committing" is unreachable |
| GroupCommit.DurableForever | xv6-public/log.c:145-174 | a group that is durable stays so and unchanged through any later events and crashes |
| GroupCommit.NextKeeps | xv6-public/log.c:124-233 | every step keeps the invariant behind these results |
| GroupCommit.CommitStepIsPlanned | xv6-public/log.c:177-202 | each disk write of the running system during commit is the next write of the crash-safe sequence |
| GroupCommit.RecoveryStepIsPlanned | xv6-public/log.c:115-122 | the same during recovery |
| GroupCommit.Settles | xv6-public/log.c:115-202 | from every state in the middle of a commit or a recovery the disk writes alone finish it: the log is empty, every home block shows the last closed group, and calls run again |
| LogReservation.ReservationHolds | xv6-public/log.c:124-141 | in every run logged blocks and unused budgets of open calls never exceed LOGSIZE, if no call adds more than MAXOPBLOCKS |
| LogReservation.NoPanic | xv6-public/log.c:213-219 | calls that add at most MAXOPBLOCKS - 1 blocks never see "too big a transaction", even with the log that mkfs makes |
| LogReservation.FullBudgetCanPanic | xv6-public/mkfs.c:25 | with nlog = LOGSIZE a run within the documented budget of MAXOPBLOCKS panics |
| LogReservation.PanicFreeIff | xv6-public/log.c:213-219 | the exact bound: no run panics if and only if each call may add at most MAXOPBLOCKS - 1 blocks |
| LogReservation.LogPeak | xv6-public/log.c:124-141 | in every run of calls that add at most MAXOPBLOCKS - 1 blocks the log holds at most LOGSIZE - 2, also while it commits |
| LogReservation.PeakReached | xv6-public/log.c:124-141 | and a run of such calls gets it there |
| BufferRing.UnlinkKeeps | xv6-public/bio.c:132-133 | taking a buffer out of the doubly linked ring leaves a ring of the others, forwards and backwards |
| BufferRing.LinkAfterHead | xv6-public/bio.c:134-137 | putting it behind the head gives a ring again |
| Bio.MoveToFront | xv6-public/bio.c:129-138 | a release keeps the ring a permutation of all buffers in order of release |
| BufferState.RecycleKeeps | xv6-public/bio.c:78-89 | reusing a clean unreferenced buffer changes what no reader sees and keeps keys unique |
| BufferState.WriteBackSets | xv6-public/bio.c:108-116 | writing a buffer back makes readers see what it holds, and nobody sees a change if it was valid |
| BufferState.EditSets | xv6-public/bio.c:95-106 | changing a locked buffer changes what readers of that block see, and of no other |
| Bio.Bcache.constructor | xv6-public/bio.c:38-56 | `binit` makes a whole ring of NBUF buffers, all with key (0, 0) |
| Bio.Bcache.FindCached | xv6-public/bio.c:67-76 | the forward search finds the buffer of a block if there is one |
| Bio.Bcache.FindVictim | xv6-public/bio.c:78-90 | the backward search finds the clean unreferenced buffer released longest ago |
| Bio.Bcache.Bget | xv6-public/bio.c:61-93 | a hit changes one reference count; a miss reuses the least recently released clean unreferenced buffer, never a dirty one; "no buffers" exactly if there is neither; readers see no change |
| Bio.Bcache.Fill | xv6-public/bio.c:95-106 | `bread` returns what the cache presents for the block, reading the disk only if the buffer is not valid |
| Bio.Bcache.Pin | xv6-public/log.c:231 | `log_write` makes the buffer dirty; readers see no change |
| Bio.Bcache.Bwrite | xv6-public/bio.c:108-116 | writes exactly that block; readers of it see what the buffer holds, which they did before if it was valid; panics exactly if the buffer is not locked or names no block of the disk |
| Bio.Bcache.Brelse | xv6-public/bio.c:118-141 | the last release makes the buffer the most recently released one; others keep their order; panics exactly if it is not locked; the cache stays coherent if and only if the holder has not left the buffer changed and unlogged, and then readers see no change |
| BufferLimit.NoBuffersIff | xv6-public/bio.c:67-92 | `bget` panics exactly if the block is not busy and NBUF others are, that is, exactly if the request fails in the run model |
| BufferLimit.CacheSteps | xv6-public/bio.c:61-141 | what `bget`, `brelse`, `log_write` and `bwrite` do to the chosen buffer is one step of that model |
| BufferLimit.GetTracked | xv6-public/bio.c:61-93 | `bget` is the step Get of the run model, also when it panics: one more reference to the block |
| BufferLimit.DropTracked | xv6-public/bio.c:115-141 | `brelse` is the step Drop: one reference less; the buffer stays busy exactly if others refer to it or it is dirty |
| BufferLimit.LogTracked | xv6-public/log.c:212-233 | `log_write` pins the buffer |
| BufferLimit.CleanTracked | xv6-public/bio.c:105-112 | `bwrite` unpins it |
| BufferLimit.RunWithin | xv6-public/bio.c:61-141 | steps that keep to given numbers of pinned and of other used buffers do so over any run |
| BufferLimit.EnoughBuffers | xv6-public/bio.c:61-93 | if the two numbers fit into the cache together no run meets "no buffers" |
| BufferLimit.TooFew | xv6-public/bio.c:92 | if they do not, a run does |
| BufferLimit.BuffersSufficeIff | xv6-public/bio.c:61-93 | the exact bound: "no buffers" is unreachable if and only if pinned and used buffers together are at most NBUF |
| LogBuffers.PinnedIsLogged | xv6-public/log.c:177-233 | in every run of log and cache together the log follows its own transition system, and a block is pinned exactly if the log lists it and the commit has not written it home |
| LogBuffers.FewPinned | xv6-public/log.c:124-141 | so at most LOGSIZE - 2 blocks are pinned while calls add at most 9 blocks each |
| LogBuffers.Replay | xv6-public/log.c:213-233 | every run of calls can be had with one buffer referred to at a time |
| LogBuffers.ThreeTooMany | xv6-public/bio.c:92 | a run in which the log fills and three other buffers are asked for ends in "no buffers" |
| LogBuffers.TwoToSpare | xv6-public/bio.c:61-93 | with the log of mkfs and calls of at most 9 blocks "no buffers" is unreachable if and only if at most 2 buffers outside the log are in use at a time |
| FsLayout.WordPut | xv6-public/fs.c:391-397 | an entry stored in the indirect block is read back, and the other entries are as before |
| FsOwnership.AllocDirect | xv6-public/fs.c:377-381 | allocating into a direct slot keeps every block owned by exactly one inode and slot, and the bitmap in step |
| FsOwnership.AllocEntry | xv6-public/fs.c:385-397 | the same for an entry of the indirect block |
| FsOwnership.WriteKeepsSound | xv6-public/fs.c:498-504 | so does writing the bytes of a data block |
| FsSpace.CostIsNeed | xv6-public/fs.c:372-400 | filling the next block of a range takes as many blocks as the need of the range grows by: its holes, and the indirect block once |
| FsSpace.CannotMap | xv6-public/fs.c:372-400 | if one block on the way cannot be filled, the range needs more blocks than are free or goes beyond the largest file |
| FsSpace.MapsAll | xv6-public/fs.c:372-400 | a range that has been filled needed no more than was free |
| FsStep.MapNextIff | xv6-public/fs.c:372-400 | after a range has been filled the range behind it can be filled if and only if both could be to begin with |
| FsStep.AddrsKeptIff | xv6-public/fs.c:372-400 | filling a range changes the inode if and only if a direct block of it is missing, or it passes the direct blocks and the indirect block is |
| FsStep.StepIff | xv6-public/fs.c:506-509 | a write to a file in step with its inode on disk keeps step if and only if the file grows or nothing is filled in the inode itself |
| FsStep.BlockLost | xv6-public/fs.c:506-509 | if the inode on disk lacks a block number of the one in memory, the disk is sound for no assignment of owners |
| FsStep.WriteSoundIff | xv6-public/fs.c:498-509 | after a write the disk, with the inodes on it, is sound for some owners if and only if the write keeps step |
| FsStep.ReadSoundIff | xv6-public/fs.c:468-473 | the same after a read, which never copies the inode to disk |
| Fs.FileSystem.constructor | xv6-public/mkfs.c:97-111 | a volume of zeroed blocks whose metadata blocks are taken and whose inodes are unused meets the ownership invariant |
| Fs.FileSystem.Balloc | xv6-public/fs.c:56-78 | takes the first clear bit, sets it and zeroes the block; fails exactly if all bits are set |
| Fs.FileSystem.Bfree | xv6-public/fs.c:81-95 | clears the bit; panics exactly if it was clear |
| Fs.FileSystem.Bmap | xv6-public/fs.c:372-400 | the block for any block number, allocated if need be: all bytes of all files, all other slots and the ownership invariant are kept; an allocated slot is found without change; panics exactly beyond the largest file or if the blocks it takes exceed the free ones, and otherwise fills that hole alone |
| Fs.FileSystem.FreeSlot | xv6-public/fs.c:412-427 | "freeing free block" cannot happen: the bit of every block still named is set |
| Fs.FileSystem.Itrunc | xv6-public/fs.c:402-435 | gives back exactly the blocks the inode owned, leaves every other inode and block alone, and keeps ownership; at most two blocks are logged |
| Fs.FileSystem.Readi | xv6-public/fs.c:450-476 | reads a slice of the flat byte sequence of the file, short at its end, holes as zeroes; panics exactly if the holes of the range cannot be filled, for want of blocks or of an open transaction; fails exactly beyond the end or if the sum wraps; the inode in memory changes, and the one on disk does not, exactly if a hole is filled in the inode itself; on a file without holes nothing is allocated |
| Fs.FileSystem.CopyOut | xv6-public/fs.c:468-473 | the bytes are collected block by block, exactly if every block of the range can be had |
| Fs.FileSystem.CopyIn | xv6-public/fs.c:498-504 | the bytes are put in place block by block, exactly if every block of the range can be had; no hole is left, and the number of blocks logged is bounded |
| Fs.FileSystem.Writei | xv6-public/fs.c:478-511 | the file becomes the old one with the bytes spliced in and size max(size, off + n), no other file changes, no hole appears; the inode is copied to disk exactly if the file grows, so inodes in step stay so if and only if it grows or no hole is filled in the inode itself; fails exactly beyond the end of the file or the largest file, and panics exactly if the range needs more blocks than are free |
| FsRoot.RootHoleIff | xv6-public/mkfs.c:158-163 | the block that rounding adds to the root directory is a hole if and only if the entries fill whole blocks, as the 32 of this repository's image do |
| FsRoot.RootVolume | xv6-public/mkfs.c:97-163 | there is a sound volume with that directory and free blocks |
| FsRoot.RootReadPanics | xv6-public/fs.c:468-473 | a read of that hole with no transaction open panics |
| FsRoot.OpenThenMknod | xv6-public/init.c:15-19 | a scan of the directory in a transaction and an entry at its first free place leave the inode on disk behind, and the disk sound for no owners |
| FileIo.Filewrite | xv6-public/file.c:115-156 | the pieces together are one write of everything, or of the whole pieces before the one that does not fit, and then the offset shows how many; a negative count is refused; panics exactly if the pieces that fit need more blocks than are free; inodes in step stay so exactly as for one write; each piece logs at most 7 blocks when the bitmap is one block |
| FileIo.WriteChunks | xv6-public/file.c:127-153 | the same for the loop over the pieces |
| FileIo.WriteChunk | xv6-public/file.c:140-145 | one transaction of a write advances the offset by what was written |
| FileIo.WroteTwice | xv6-public/file.c:135-152 | a write followed by a write right behind it is one write |
| FileIo.ChunkBlocks | xv6-public/file.c:127-133 | a piece at any offset touches at most 4 blocks, so with bitmap, indirect block and inode it stays 3 below MAXOPBLOCKS |
| FileIo.Fileread | xv6-public/file.c:94-113 | answers as `readi` does in every case (holes, devices, the end of the file, a sum that wraps); returns the bytes at the offset and advances it past them, and on failure leaves it; inodes on disk are not changed, and a file without holes is not at all |
| FileIo.WriteThenRead | xv6-public/fs.c:450-511 | what was written is what is read back |
| LinkCount.CreateKeepsIff | xv6-public/sysfile.c:241-283 | `create` and `mkdir` keep every link count equal to the number of entries naming the inode in live directories without ".", if and only if the directory has not been unlinked |
| LinkCount.LinkKeepsIff | xv6-public/sysfile.c:118-165 | the same for `link` |
| LinkCount.UnlinkKeeps | xv6-public/sysfile.c:184-239 | `unlink` of a file or an empty directory keeps the link counts right |
| LinkCount.UnlinkReady | xv6-public/sysfile.c:211-224 | "unlink: nlink < 1" is unreachable; an empty directory has exactly one link and its parent at least two |
| LinkCount.FreeKeeps | xv6-public/fs.c:331-352 | freeing an inode without links changes no count |
| LinkCount.FreshLinked | xv6-public/mkfs.c:117-128 | a new file system with its root directory meets the invariant |
| LinkCount.OrphanedLinked | xv6-public/sysfile.c:184-239 | making a directory and a file and removing the directory while it is in use leave right counts |
| LinkCount.OrphanedCreateBreaks | xv6-public/sysfile.c:241-283 | but creating a file in that directory then breaks them |
| LinkCount.OrphanedLinkBreaks | xv6-public/sysfile.c:118-165 | and so does linking the file there |
| Links.Tree.constructor | xv6-public/mkfs.c:117-128 | a new file system is a valid state |
| Links.Tree.Iput | xv6-public/fs.c:331-352 | an inode is freed exactly when its last reference goes and it has no links |
| Links.Tree.Dirlookup | xv6-public/fs.c:524-548 | finds the first entry of that name |
| Links.Tree.Dirlink | xv6-public/fs.c:551-578 | enters the name into the first empty place, or at the end, exactly if it is not there |
| Links.Tree.Ialloc | xv6-public/fs.c:194-215 | finds the first free inode; fails exactly if there is none |
| Links.Tree.IsDirEmpty | xv6-public/sysfile.c:168-182 | tells whether every entry but the first two is empty |
| Links.Tree.Create | xv6-public/sysfile.c:241-283 | exactly four outcomes: the name is there and both it and the request are files, so that file with one more reference; the name is there otherwise, so a refusal; the name is new and no inode is free, so the panic; else the lowest free inode is made with that type and link count 1 and stands under that name in the directory; counts and references stay right |
| Links.Tree.MakeLink | xv6-public/sysfile.c:118-165 | adds a link exactly if the inode is no directory and the name is new; otherwise the count is as before |
| Links.Tree.Unlink | xv6-public/sysfile.c:184-239 | succeeds exactly for an ordinary name of a file or an empty directory; removes that entry and one link, and frees the inode exactly if that was the last link and nobody refers to it |
| Links.Tree.Remove | xv6-public/sysfile.c:218-229 | the updates of `unlink` in their order keep counts and references right |
| Links.CreateThenUnlink | xv6-public/sysfile.c:184-283 | unlinking what was just created is allowed and, once nobody refers to it, gives back the directory and the inode as they were |
| Umalloc.UnitsSuffice | xv6-public/umalloc.c:69 | the rounding to units gives enough memory if and only if the request is at most 2^32 - 8 bytes, and then one unit less would not do |
| FreeList.StopsIff | xv6-public/umalloc.c:30-32 | the search of `free` stops at the one place where the block belongs, and nowhere else |
| FreeList.UpperStep | xv6-public/umalloc.c:33-37 | linking or merging with the block above keeps the list circular, ordered and disjoint and adds exactly the units of the block |
| FreeList.LowerStep | xv6-public/umalloc.c:38-42 | the same with the block below; afterwards no two blocks touch |
| FreeList.ExactFit | xv6-public/umalloc.c:76-77 | taking a whole block off the list takes exactly its units |
| FreeList.TailFit | xv6-public/umalloc.c:78-82 | taking the tail of a block takes exactly the last units and keeps the list ordered and coalesced |
| FreeList.FitsIff | xv6-public/umalloc.c:74-75 | some block is large enough if and only if there is a run of free units of that length: nothing is lost to fragmentation between touching blocks |
| Umalloc.Heap.FindPlace | xv6-public/umalloc.c:30-32 | the search terminates at that place from any starting point |
| Umalloc.Heap.Free | xv6-public/umalloc.c:24-44 | the block leaves the live ones and its units join the free ones; list and live blocks stay disjoint and units are conserved; freep is the free block next below the freed one, cyclically |
| Umalloc.Heap.MoreCore | xv6-public/umalloc.c:46-61 | one call of sbrk; new memory becomes free units; a refusal changes nothing |
| Umalloc.Heap.Carve | xv6-public/umalloc.c:75-85 | the units taken are exactly those of the new live block |
| Umalloc.Heap.Malloc | xv6-public/umalloc.c:63-90 | at most one call of sbrk, made exactly if nothing fits; refused exactly if nothing fits and sbrk refuses; otherwise served, without sbrk from the first block behind freep that is large enough, and exactly the units of the new block leave the free ones; the new block is disjoint from all live ones; units are conserved |
| PageTables.NoSharing | xv6-public/vm.c:35-80 | no frame is mapped twice, in one address space or two |
| PageTables.TableKeeps | xv6-public/vm.c:45-53 | a zeroed table in an empty directory entry changes no mapping |
| PageTables.UserKeeps | xv6-public/vm.c:73 | mapping a held frame changes that one page and keeps one use per frame |
| PageTables.ClearKeeps | xv6-public/vm.c:275 | clearing an entry removes that one page |
| PageTables.TornDown | xv6-public/vm.c:284-298 | with tables and directory on the free list, all other address spaces are intact |
| Vm.Memory.constructor | xv6-public/kalloc.c:26-53 | all frames above the kernel start free |
| Vm.Memory.Freerange | xv6-public/kalloc.c:46-53 | frees exactly the frames of the range |
| Vm.Memory.Kalloc | xv6-public/kalloc.c:79-95 | takes the first free frame and leaves the others; 0 exactly if there is none |
| Vm.Memory.Kfree | xv6-public/kalloc.c:59-77 | fills the page and puts it in front of the list; panics exactly out of range |
| Vm.Memory.Walkpgdir | xv6-public/vm.c:32-55 | finds or makes the table of an address, a new one present, writable and open to the user; no mapping changes; fails exactly if there is none and none may be made |
| Vm.Memory.MapPage | xv6-public/vm.c:68-78 | one page is mapped and nothing else changes; "remap" exactly if it was mapped; memory runs out exactly if the table is missing and no frame is free, and then nothing changes |
| Vm.Memory.Mappages | xv6-public/vm.c:57-80 | the range maps consecutive frames and nothing else changes, up to where it stopped; memory runs out exactly if the range lacks more tables, up to the first page that is mapped already, than there are free frames; "remap" exactly if it does not and there is such a page |
| Vm.Memory.UnmapPage | xv6-public/vm.c:269-276 | frees the frame of the page and clears its entry; the kfree panics are unreachable |
| Vm.Memory.Deallocuvm | xv6-public/vm.c:251-279 | every page of the range is gone and its frame free, nothing else changes, and skipping absent tables misses no page |
| Vm.Memory.Allocuvm | xv6-public/vm.c:219-249 | adds exactly the new pages on distinct zeroed frames that were free; if memory runs out the user map is as before and only tables were added; memory runs out exactly if the pages and the tables they lack are more than the free frames, up to the first page that was mapped, and "remap" happens exactly if it does not and there is such a page |
| Vm.Memory.Freevm | xv6-public/vm.c:281-298 | every frame of the address space, and no other, becomes free, once; other address spaces see no change |
| Vm.Memory.Setupkvm | xv6-public/vm.c:117-136 | maps exactly the kernel map; memory runs out exactly if fewer than 65 frames are free, and then every frame is back where it was |
| Vm.Memory.Copyuvm | xv6-public/vm.c:313-345 | the child has the same flags and contents page by page on frames that were free, and the kernel map; the parent and all others see no change; memory runs out exactly if the kernel's 65 frames, the pages up to the first that is missing and their tables are more than the free ones, and then every frame is back where it was; panics exactly if it does not and a page is missing |
| VmSpace.DropSkip | xv6-public/vm.c:264-268 | a missing table means that none of its pages is there |
| VmGrow.Restored | xv6-public/vm.c:234-245 | taking the range away after a failed growth restores the user map |
| VmCopy.KernelMore | xv6-public/vm.c:103-115 | the four regions of the kernel map cover what they should and do not overlap |
| VmCopy.ReleasedBack | xv6-public/vm.c:341-344 | tearing a new address space down gives back exactly the frames it took |
| VmNeed.TookMore | xv6-public/vm.c:32-55 | mapping pages in order takes one frame for every directory entry that was empty, and for nothing else |
| VmNeed.RegionTables | xv6-public/vm.c:103-115 | each region of the kernel map lacks exactly the tables that the regions before it do not bring |
| Scheduler.FindNextRoundRobin | xv6-public/proc.c:344-359 | the first ready round-robin process cyclically after the last one chosen; none exactly if there is none |
| Scheduler.FindNextLcfs | xv6-public/proc.c:386-401 | the first of the latest arrivals among the ready processes of queue 2 whose arrival is not negative |
| Scheduler.FindNextBjf | xv6-public/proc.c:411-427 | the first ready process of least rank in queue 3 |
| Scheduler.Choose | xv6-public/proc.c:448-466 | a ready round-robin process if there is one, the next behind the position; else the LCFS one; else the BJF one; idle exactly if no queue has a candidate; only a round-robin choice moves the position, to itself |
| Scheduler.NextIsUnique | xv6-public/proc.c:448-466 | the choice is determined by the table and the position |
| Aging.Round | xv6-public/proc.c:450-472 | one round of the scheduler on a CPU is one step of the runs below, or nothing exactly if the CPU idles |
| Aging.Ptable.AgeProcesses | xv6-public/proc.c:371-384 | for every process: it moves to round robin, and its last_run to now, if and only if it is runnable, not in round robin and ticks - last_run modulo 2^32 is above AGING_THRESHOLD; otherwise it stays as it is |
| Aging.AgesAll | xv6-public/trap.c:50-57 | along any run a waiting process is left alone or aged; it is left alone as long as no tick more than AGING_THRESHOLD after its last run has been handled, and in round robin once one has, however the 32-bit counter turns |
| Aging.LastRunIs | xv6-public/proc.c:514-519 | over any run last_run is the tick at which the process last yielded, was made, was moved between queues or was aged |
| Aging.AlwaysAges | xv6-public/proc.c:371-384 | whatever last_run holds, a process that waits through AGING_THRESHOLD + 2 ticks is in round robin |
| Aging.TurnBound | xv6-public/proc.c:344-359 | while a process waits in round robin, a CPU makes fewer choices than there are entries between its position and the process |
| Aging.BoundedWaiting | xv6-public/proc.c:437-485 | both together: in round robin within AGING_THRESHOLD + 1 ticks of its last run, or 2 of any start, then chosen within NPROC choices of any one CPU |
| Aging.IdleExactly | xv6-public/proc.c:386-463 | in every state of every run a CPU idles exactly if every runnable process of queues 1 to 3 is in LCFS and was made in the second half of a turn of the tick counter, at a tick of 2^31 or more modulo 2^32 |
| Aging.IdleIff | xv6-public/proc.c:448-463 | hence before tick 2^31 exactly if queues 1 to 3 hold no runnable process |
| Aging.LateForkIdles | xv6-public/proc.c:132 | a run from boot: init starts the shell, which forks a command at tick 2^31 and waits for it; the command is runnable and the CPU idles |
| Pipe.WritePlace | xv6-public/pipe.c:93 | the write counter points behind the bytes held even after it has wrapped, because 512 divides 2^32 |
| Pipe.Tests | xv6-public/pipe.c:85 | the counter tests tell full and empty, also after wrapping |
| Pipe.PipeRing.constructor | xv6-public/pipe.c:22-46 | a new pipe is empty and open |
| Pipe.PipeRing.WriteSection | xv6-public/pipe.c:78-98 | appends as many bytes as fit; done if and only if all of them fit, failed if and only if not and there is no reader or the writer is killed, asleep otherwise; wakes readers except on failure |
| Pipe.PipeRing.ReadSection | xv6-public/pipe.c:100-121 | takes the oldest bytes, up to the number asked for; on an empty pipe with a writer it fails if killed and sleeps if not, and in no other case |
| PipeRuns.WriteStepIs | xv6-public/pipe.c:78-98 | one step of a writer in a run: the bytes put in are the next ones of its call, and it stops short of the end only at a full pipe; then it sleeps if there is a reader and it is not killed; if it ends or sleeps no reader stays asleep, if it fails nobody is woken |
| PipeRuns.ReadStepIs | xv6-public/pipe.c:100-121 | one step of a reader: it takes the oldest bytes, fewer than asked for only if that empties the pipe; it sleeps exactly on an empty pipe with a writer, unless killed; otherwise no writer stays asleep |
| PipeRuns.KillWakes | xv6-public/proc.c:609-628 | a kill changes only that process, which is then not asleep |
| PipeRuns.BytesInOrder | xv6-public/pipe.c:78-121 | over any run of any number of processes the bytes read are a prefix of the bytes written and the ring holds the difference |
| PipeRuns.WriteAccounted | xv6-public/pipe.c:78-98 | over any run, among any other readers and writers, the bytes that a call of `pipewrite` has put into the pipe are its first ones in order; when it has returned they are all of them, or it returned at a full pipe with no reader or killed |
| PipeRuns.StepKeepsIff | xv6-public/pipe.c:59-121 | a step keeps the sleepers in order if and only if it is not a killed writer filling the pipe in front of a sleeping reader |
| PipeRuns.NoLostWakeups | xv6-public/pipe.c:59-121 | without killed writers a sleeping reader implies an empty pipe with a writer, a sleeping writer a full pipe with a reader, so both never sleep together |
| PipeRuns.InitialHolds | xv6-public/pipe.c:22-46 | a new pipe is a state from which these runs can start |
| PipeRuns.KilledWriterForgets | xv6-public/pipe.c:85-91 | a run in which a killed writer leaves a reader asleep in front of a full pipe |
| PriorityLock.InsertSorts | xv6-public/prioritylock.c:21-38 | insertion keeps the queue strictly descending |
| PriorityLock.InsertHas | xv6-public/prioritylock.c:21-38 | insertion adds that pid and loses none |
| PriorityLock.PriorityQueue.constructor | xv6-public/prioritylock.c:11-19 | the queue starts empty |
| PriorityLock.PriorityQueue.Add | xv6-public/prioritylock.c:21-38 | puts the pid in its place by swapping in the ring, if and only if the queue does not wrap or a larger pid lies on this side of the wrap; otherwise the search leaves the array |
| PriorityLock.PriorityQueue.Pop | xv6-public/prioritylock.c:40-44 | removes the front pid |
| PriorityRuns.LockSafety | xv6-public/prioritylock.c:46-76 | in every state of every run there is at most one owner, which has not exited; the queue holds exactly the waiting pids in descending order; if the lock is free the front waiter is not asleep |
| PriorityRuns.StepKeeps | xv6-public/prioritylock.c:46-76 | every acquire, retry, release, kill and exit keeps this |
| PriorityRuns.GrantedIff | xv6-public/prioritylock.c:46-62 | a process that asks or looks again gets the lock if and only if it is free and no waiting pid is larger; otherwise it sleeps, and no other process changes |
| PriorityRuns.RefusedIs | xv6-public/prioritylock.c:49-70 | asking for the lock one holds and releasing one that one does not hold change nothing |
| PriorityRuns.ReleaseIs | xv6-public/prioritylock.c:64-76 | release, or exit of the owner, frees the lock, wakes every waiter and leaves the queue alone |
| PriorityRuns.KillIs | xv6-public/proc.c:609-628 | a kill wakes that waiter and does nothing else; an exit of another process than the owner changes only that process |
| PriorityRuns.LargestFirst | xv6-public/prioritylock.c:53-58 | whoever gets the lock has the largest pid of all that wait |
| PriorityRuns.FreeLockIsTaken | xv6-public/prioritylock.c:54-58 | in every reachable state with a free lock and a waiter, the waiter of largest pid is awake and gets the lock at its next step |
| PriorityRuns.FreedKeeps | xv6-public/proc.c:262-264 | release, also by the exit of the owner, keeps the invariant |
| PriorityRuns.LateWaiterLeaves | xv6-public/prioritylock.c:27-30 | a run of three processes after which the search for a waiter reads left of slot 0 |
| Grep.HereOne | xv6-public/grep.c:93-95 | a one-character item matches as its language says |
| Grep.HereStar | xv6-public/grep.c:89-90 | a starred item matches as its language says |
| Grep.MatchHere | xv6-public/grep.c:84-96 | true if and only if some prefix of the text is in the language |
| Grep.MatchStar | xv6-public/grep.c:99-106 | true if and only if the rest matches behind some run of accepted characters |
| Grep.Match | xv6-public/grep.c:72-82 | true if and only if some substring of the text is in the language of the pattern, placed as `^` and `$` demand |
| ShellTokens.LexRender | xv6-public/sh.c:265-308 | the tokens of a rendered token list are that list |
| ShellTokens.LexSpell | xv6-public/sh.c:265-308 | any spelling of a token list, with any white space between the tokens where two would not run together, is read as that list |
| ShellTokens.SpellLex | xv6-public/sh.c:265-308 | every line is such a spelling of its tokens: no character but white space is skipped |
| ShellTokens.LexIff | xv6-public/sh.c:265-308 | both: the tokens of a line are a given list if and only if the line spells it |
| ShellGrammar.RoundTrip | xv6-public/sh.c:327-447 | parsing the printed form of any well-formed command tree yields that tree |
| ShellGrammar.ParsesIff | xv6-public/sh.c:327-447 | the trees that lines parse to are exactly the trees with proper words and at most 9 arguments per command |
| ShellSyntax.LineReads | xv6-public/sh.c:327-447 | every line of the syntax, with redirections before, among and behind the arguments, is parsed to the tree it means: `<` takes input from the file, `>` and `>>` alike send output to it, and later ones wrap earlier ones |
| ShellSyntax.LineFound | xv6-public/sh.c:327-447 | whatever the parser accepts is a line of the syntax with that meaning |
| ShellSyntax.ParsesAs | xv6-public/sh.c:327-447 | both: a token list parses to a tree if and only if it is a line of the syntax that means this tree |
| ShellSyntax.LineSwap | xv6-public/sh.c:387-393 | exchanging `>` and `>>` anywhere in a line changes nothing in what it parses to |
| Shell.Gettoken | xv6-public/sh.c:265-308 | returns the next token of the line with its span and moves past it |
| Shell.Peek | xv6-public/sh.c:310-320 | tells whether the next token begins with one of the given symbols |
| Shell.Parseredirs | xv6-public/sh.c:374-397 | reads the redirections the grammar reads, file and direction each, or fails with it |
| Shell.Parseargs | xv6-public/sh.c:425-446 | reads the arguments and redirections of a command as the grammar does, with its limit on arguments |
| Shell.Parseexec | xv6-public/sh.c:415-447 | agrees with the grammar |
| Shell.Parseblock | xv6-public/sh.c:399-413 | agrees with the grammar |
| Shell.Parsepipe | xv6-public/sh.c:361-372 | agrees with the grammar |
| Shell.Parseline | xv6-public/sh.c:344-359 | agrees with the grammar; the mutual recursion terminates because each nested call has consumed input |
| Shell.ParseAll | xv6-public/sh.c:327-339 | succeeds exactly if the grammar accepts the whole line, with the same tree; a printed tree comes back |
| Shell.Nulterminate | xv6-public/sh.c:449-493 | puts a NUL behind every recorded word and overwrites no word character |
| Shell.CommandReads | xv6-public/sh.c:449-493 | afterwards every recorded word reads as the word on the line |
| Shell.Parsecmd | xv6-public/sh.c:327-342 | on the buffer of the line: succeeds if and only if the line is of the syntax, and then the command, read as NUL-terminated strings from the changed buffer, says the tree that the line means; a printed tree comes back; a panic leaves the buffer alone |

## Left out

- Hardware and boot code, interrupts, spin locks and context switches: critical sections are steps, the disk is atomic per block.
- The bits of the bitmap: `Fs` keeps one boolean per block and only counts which bitmap block holds it.
- Device inodes in `readi` and `writei`: the call is recognised and reported as such, what the device does is not modelled.
- Path names: operations on directories get their parent directory resolved; DIRSIZ truncation, `skipelem` and `namex` are not modelled.
- Directory contents are sequences of records, not bytes written by `writei`; running out of data blocks while entering a name, and 16-bit overflow of nlink, are not modelled.
- The inode cache: `iget` is a reference count per inode, without the limit of NINODE entries; the choice of a cache slot is not modelled.
- The free list of `kalloc` is a sequence; the link that the kernel keeps in the first word of each free page is not modelled.
- Frames shared between address spaces by `shared_mem.c`, `exec`, `loaduvm`, `inituvm`, `clearpteu` and `copyout`.
- `sys_copy_file`, which logs a whole file in one transaction.
- The floating-point arithmetic of the BJF rank: a rank is a real number set from outside.
- `runcmd`, reading of command lines, and the read loop of grep.
- In the shell's parser the argument array is collected first and put into the tree at the end, instead of being filled behind the redirections; the two output redirections give the same tree, as in the source.
- Umalloc.Heap.Malloc: only for requests whose units fit into a signed 32-bit number of bytes, as sbrk takes them; memory from sbrk arrives at or above the old end of the heap, which lies above the static header.
- Vm.Memory.Deallocuvm: only for sizes up to KERNBASE, which all callers keep to.
- Vm.Memory.Mappages: only over the kernel half, with whole pages; in the user half the kernel maps one page at a time, which is Vm.Memory.MapPage.
- FileIo.Filewrite: only on inodes; pipes are PipeRuns.
- FileIo.Fileread: the same.
- Links.Tree.Create: only in a directory that has not been unlinked; LinkCount.CreateKeepsIff says what happens otherwise.
- Links.Tree.MakeLink: the same, with LinkCount.LinkKeepsIff.
- Links.Tree.Unlink: the same; an unlinked directory holds no ordinary entries.
- Aging.BoundedWaiting: for a process that is not moved between queues by hand meanwhile.
- PriorityRuns.LockSafety: waiters are queued only where the queue's search stays inside its array; what a write outside of it destroys is not modelled.
- PriorityRuns.StepKeeps: the same.
- Vm.Memory.Copyuvm: only for sizes up to KERNBASE, which all callers keep to.
- Links.Tree.Dirlink: does not model running out of data blocks when the directory grows.
- LogBuffers.TwoToSpare: counts buffers; which system call holds how many is not modelled.
- Fs.FileSystem.Readi: leaves out the panic "too big a transaction"; a read is not reserved for in the log, so filling holes can meet a full log.
- Fs.FileSystem.Writei: the same; callers that keep to the reservation do not meet it (LogReservation.NoPanic, FileIo.ChunkBlocks).
- FsRoot.OpenThenMknod: the scan is the one read that reaches the hole, and the entry is any 16 bytes.
