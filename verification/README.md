# Verified models of an xv6 kernel, two of its programs and a bounded buffer

Dafny models of the parts of the repository that are hard to get right, with proofs of what they
promise. `dafny verify dfyconfig.toml` checks everything.

| files | what they model |
|---|---|
| `Common.dfy` | a few definitions that several models share |
| `LruList.dfy`, `BufferCache.dfy` | the buffer cache of bio.c over the memory disk of memide.c: the linked list, the search loops, pinned dirty buffers |
| `LogSpec.dfy`, `Log.dfy` | the redo log of log.c running on that cache, and what every single block write does to the disk |
| `LogHistory.dfy` | crashes anywhere in a history of many transactions |
| `LogProtocol.dfy`, `LogLimits.dfy` | begin_op, log_write and end_op by any number of processes, one step per critical section; for which log areas, processes and buffers the protocol stays within its limits |
| `FsSpec.dfy`, `FileSystem.dfy`, `FileWrite.dfy` | block allocation, inodes with an indirect block, readi, writei, itrunc (fs.c) and filewrite (file.c) |
| `FileCalls.dfy`, `WriteBound.dfy` | any sequence of writei, itrunc and readi calls on any files; a disk on which a transaction of filewrite needs all the blocks reserved for it |
| `CrashWrite.dfy` | the file system on the log's disk: a crash at any disk write during filewrite |
| `MallocSpec.dfy`, `Malloc.dfy` | the allocator of umalloc.c |
| `VmSpec.dfy`, `VmGrowth.dfy`, `Vm.dfy` | the page allocator of kalloc.c and the address spaces of vm.c |
| `AddressSpaces.dfy` | any sequence of calls that make, resize, copy and free address spaces |
| `Scheduler.dfy` | the hand-off of CPUs in proc.c, as steps of any number of CPUs and processes |
| `SleepLock.dfy` | sleeplock.c over sleep and wakeup, stepping at single lock operations |
| `Pipe.dfy`, `PipeCalls.dfy` | pipe.c, as steps of any number of readers and writers; what single calls do over a run |
| `Grep.dfy` | the matcher of grep.c |
| `ShellSpec.dfy`, `ShellGrammar.dfy`, `Shell.dfy` | the parser of sh.c; its grammar as trees, with precedence and spacing |
| `BoundedBuffer.dfy` | client.c and server.c of Practical HW5, any number of clients |

Code that changes structures in place is a class with the source's fields and loops, tied by its
contracts to specification functions about which the lemmas are. C pointers are indices or page
numbers. Code that processes run against each other is a state machine: `Enabled` and `Next` give
the steps, `Inv` is kept by each of them, and the theorems are about every run from `Init`.
A panic is an outcome (`None`, `false`, an error value or a state), and the contracts say exactly
when it happens; where a caller must rule it out, it is a precondition.

The functional results about calls in sequence rest on these ideas:

* Disk: `Disk.history` records every image of the disk, so `Commit` and `RecoverFromLog` are proved
  to produce the traces over which `LogSpec.CrashAtomicity` quantifies the crash.
* Transactions: `FileSystems.Recorded` says that every block that changed was logged, and that only
  data, bitmap and inode blocks were. So a filewrite is a list of images of the file system, one
  between each two of its transactions, and `CrashWrites` puts these on the log's disk.
* Files: a file's block pointers are one list of slots in the order in which bmap fills them, and
  a ghost map says which slot owns a block. This gives conservation and separation of files.
* Heap: ghost maps say which block every unit from sbrk belongs to and which blocks are live.
* Pages: a ghost map says what every physical page is used for, and `VmSpec.Translate` what the
  hardware makes of a virtual page: the rights are those of directory entry and table entry together.
* Buffers: a ghost list says which block each process asleep on a buffer has asked for, and the
  reference count is that of holder and sleepers.
* Runs: what a call of a state machine does is stated by functions of the run (`PipeCalls.StoredBy`,
  `BoundedBuffer.SentBy`), not by fields that the steps themselves keep up.

## Where the code does less than one might expect

* log_write makes its tests before it takes log.lock, and tests for room before it knows whether the
  block is already logged. For every number of processes and every size of the log area,
  `LogLimits.AppendSafeIff` and `LogLimits.AbsorbPanicsIff` say when the panic "too big a transaction"
  can hit an operation within its limits, `LogLimits.StaysInAreaIff` says when the header can outgrow
  the log area, and `LogLimits.HeaderIff` how long it can get. mkfs gives the log LOGSIZE blocks, one
  of them the header: then two processes can make an appending log_write panic, and two that pass the
  test together can log one block more than the area holds (`LogLimits.Overrun`). An area larger than
  LOGSIZE rules out all of this but the panic on an absorbed block.
* Each logged block pins a buffer, and commit needs one more. So with nobody holding a buffer commit
  can panic "no buffers" if and only if the header can hold as many blocks as there are buffers
  (`LogLimits.CommitStarvesIff`, `Logs.StarvesIff`). param.h makes NBUF equal to LOGSIZE, which the
  header can reach in mkfs's area and in any larger one.
* What happens to a header that outgrew the log area therefore depends on NBUF. With no more buffers
  than the area has blocks, as in param.h and mkfs, commit panics before it writes anything
  (`Logs.FitsOrPanics`), and the crash theorems, which are about transactions of fewer blocks than
  the area (`LogSpec.WfBlocks`), cover every transaction that gets as far as a write of the disk.
  With more buffers, write_log would put the last log copy over the first inode block.
  `LogLimits.WrittenFitsIff` is the exact condition for every number of processes, size and NBUF.
* malloc adds the header size in 32 bits, so a request within seven bytes of 2^32 gets a tiny block
  (`Mallocs.UnitsSuffice`).
* A pipewrite that returns -1 skips the wakeup for the bytes it has stored, and can leave a reader
  asleep on a full buffer (`Pipes.LostReaderRun`). Over whole runs that is the only way a reader's
  wakeup is lost (`Pipes.AlwaysFineIff`).
* The redirection `>>` does not append: it means the same as `>` (`ShellGrammar.RedirForms`).
* filewrite gives up at the first chunk that does not fit the largest file, so it may write less than
  the file has room for (`FileWrites.Accepted`).

## Model

| member | source | states |
|---|---|---|
| LruLists.InsertLinked | Project2/xv6-public/bio.c:50-54 | the four pointer assignments of an insertion behind the sentinel keep one circle through the sentinel, with the new element first |
| LruLists.UnlinkLinked | Project2/xv6-public/bio.c:132-133 | the two pointer assignments that unlink an element leave a circle of all the others in the same order |
| LruLists.LruList.constructor | Project2/xv6-public/bio.c:46-55 | binit's list holds every buffer once, in reverse order of insertion |
| LruLists.LruList.PushFront | Project2/xv6-public/bio.c:50-54 | the buffer becomes the most recently used one; order and time stamps of the others stay |
| LruLists.LruList.MoveToFront | Project2/xv6-public/bio.c:132-137 | the buffer at any position moves to the front, the others keep their order |
| BufferCaches.Disk.Write | Project2/xv6-public/memide.c:51-56 | one block of the image changes, atomically; every image is recorded in the history |
| BufferCaches.BufferCache.constructor | Project2/xv6-public/bio.c:38-56 | a cache of unused buffers, each on the list once, nothing pending |
| BufferCaches.BufferCache.FindCached | Project2/xv6-public/bio.c:68-76 | the walk along next finds the buffer of a cached block, and nothing otherwise |
| BufferCaches.BufferCache.FindVictim | Project2/xv6-public/bio.c:78-91 | the walk along prev finds, among the clean buffers nobody uses, the one whose last release to zero is oldest; it fails only if there is none |
| BufferCaches.BufferCache.Bget | Project2/xv6-public/bio.c:60-93 | a cached block keeps its buffer; otherwise the least recently released clean buffer gets the block's key and no other buffer has that key; the caller sleeps exactly if the cached buffer is locked, and then its reference count is one more; a buffer that a process waits for keeps its block and is not recycled; the panic exactly if no buffer is cached or reusable |
| BufferCaches.BufferCache.Iderw | Project2/xv6-public/memide.c:38-60 | a dirty buffer goes to the disk and becomes clean, an invalid one is filled from the disk; the four panics, exactly if the buffer is not locked, has nothing to do, is for another disk or out of range, change nothing |
| BufferCaches.BufferCache.Bread | Project2/xv6-public/bio.c:96-106 | the buffer returned holds the pending contents of the block if it is dirty in the cache, else the disk's; neither disk nor pending contents change, also if the caller sleeps or the cache panics |
| BufferCaches.BufferCache.Resume | Project2/xv6-public/bio.c:70-106 | a process that slept on a buffer's lock gets the buffer of the block it asked for, with the contents that bread promises, and no reference is counted twice |
| BufferCaches.BufferCache.Bwrite | Project2/xv6-public/bio.c:109-116 | exactly one disk write, of the buffer's data to its block; the block is pending no more |
| BufferCaches.BufferCache.Pin | Project2/xv6-public/log.c:231 | the buffer is pinned and its data become the pending contents of its block |
| BufferCaches.BufferCache.Brelse | Project2/xv6-public/bio.c:120-141 | only the reference is dropped; a buffer that a process waits for is not reusable after that and still has the block the process asked for; a buffer released to zero gets the latest time stamp, and no other stamp changes |
| BufferCaches.RecycleOk | Project2/xv6-public/bio.c:81-88 | recycling a clean unreferenced buffer keeps cache and disk in agreement and keys unique |
| BufferCaches.WaitedFor | Project2/xv6-public/bio.c:70-136 | in every state the reference count is the number of processes that wait for the buffer, and one more if the lock is held |
| BufferCaches.PendingAfterBget | Project2/xv6-public/bio.c:66-91 | bget recycles no dirty buffer and loses no pending contents |
| BufferCaches.CachedContents | Project2/xv6-public/bio.c:96-106 | a cached valid block nobody holds has its pending contents, else the disk's |
| LogSpec.CommittedRecovers | Project2/xv6-public/log.c:98-122 | once the header is written, recovery leaves every home block as the whole transaction wants it |
| LogSpec.InstallResumes | Project2/xv6-public/log.c:69-82 | installing again over a partial installation gives the full one, and the log area is untouched |
| LogSpec.RecoveryResumes | Project2/xv6-public/log.c:115-122 | a recovery stopped after any of its writes leaves a disk that recovers to the same home blocks |
| LogSpec.CommitAtomic | Project2/xv6-public/log.c:177-202 | a crash after any single write of commit recovers to all old home blocks before the header write and to all new ones from it on |
| LogSpec.RepeatedRecovery | Project2/xv6-public/log.c:115-122 | any number of interrupted recoveries change nothing for the one that completes |
| LogSpec.CrashAtomicity | Project2/xv6-public/log.c:69-122 | stop commit after any write, then any number of recoveries after any of theirs: the completed recovery leaves every home block all old or all new, for the whole transaction |
| LogSpec.CommitMeans | Project2/xv6-public/log.c:192-202 | the disk after commit has the transaction's home blocks, also when there was nothing to write |
| LogSpec.RoomForIff | Project2/xv6-public/log.c:132-134 | begin_op's sum is exact: the log holds whatever the operations counted may log, in any order and with any repetition, if and only if the sum is at most LOGSIZE |
| LogHistory.HistoryAtomic | Project2/xv6-public/log.c:69-202 | a crash after any write in a history of any number of commits recovers to the home blocks after a whole number of them: those whose header was written |
| LogHistory.CrashView | Project2/xv6-public/log.c:69-202 | so anything computed from the home blocks, such as the contents of files, is after the crash and any crashed recoveries what it was between two transactions |
| Logs.Log.InstallTrans | Project2/xv6-public/log.c:69-82 | the disk goes through the images of InstallTrace, write by write, and nothing stays pending; buffers that others hold, of other blocks, stay as they are |
| Logs.Log.ReadHead | Project2/xv6-public/log.c:85-96 | the in-memory list becomes the one in the on-disk header; the disk is not written |
| Logs.Log.WriteHead | Project2/xv6-public/log.c:101-113 | exactly one disk write, which replaces count and entries of the header block by the in-memory list; what is pending and the buffers that others hold stay |
| Logs.Log.EncodeHeader | Project2/xv6-public/log.c:105-110 | the loop writes the count as the first word, the entries behind it and keeps the other words |
| Logs.Log.DecodeHeader | Project2/xv6-public/log.c:89-94 | the loop reads back exactly the list a header holds, count first |
| Logs.Log.RecoverFromLog | Project2/xv6-public/log.c:115-122 | the disk goes through RecoveryTrace and ends as Recovered with an empty header |
| Logs.Log.WriteLog | Project2/xv6-public/log.c:177-190 | the log blocks receive the pending contents in order, one write each; what is pending and the buffers that others hold stay; the panic for want of buffers exactly if there is a block to write and no buffer to recycle, and then nothing was written |
| Logs.Log.Commit | Project2/xv6-public/log.c:192-202 | the disk goes through CommitTrace and at the end the home blocks are those of the whole transaction, nothing is pending and the header is empty; the panic for want of buffers exactly if there is something to commit and no buffer to recycle, and then nothing was written; others may hold buffers of other blocks |
| Logs.Log.LogWrite | Project2/xv6-public/log.c:213-233 | the two panics happen exactly when the log is full or no operation is open; otherwise the block is listed once and pinned with its contents pending |
| Logs.Log.Append | Project2/xv6-public/log.c:223-232 | the part under the lock does so whatever others have logged since the test, also when the list outgrows the log area |
| Logs.Log.Record | Project2/xv6-public/log.c:224-230 | a block already listed is absorbed, another one is appended |
| Logs.Log.TryBeginOp | Project2/xv6-public/log.c:129-140 | an operation is admitted exactly when no commit runs and the log has room for whatever all open operations and this one may log |
| Logs.Log.EndOp | Project2/xv6-public/log.c:145-174 | the panic log.committing exactly if a commit runs, the panic of bget exactly if the last operation has something to commit and there is no buffer to recycle; otherwise the last operation commits everything and any other writes nothing |
| Logs.PendingCount | Project2/xv6-public/log.c:224-231 | as many buffers are pinned as blocks are logged |
| Logs.SpareIff | Project2/xv6-public/bio.c:78-92 | a buffer to recycle means more buffers than pending blocks, and if nobody holds a buffer that is all it takes |
| Logs.StarvesIff | Project2/xv6-public/log.c:177-182 | if nobody holds a buffer, commit finds one to recycle if and only if there are more buffers than blocks to commit |
| Logs.FitsOrPanics | Project2/xv6-public/log.c:177-190 | with no more buffers than the log area has blocks, a list that outgrew the area leaves no buffer to recycle, so commit panics before it writes |
| LogProtocol.NextInv | Project2/xv6-public/log.c:125-174 | every step of begin_op, log_write and end_op by any process keeps: logged plus reserved blocks fit the log, entries are distinct, nobody is in an operation during a commit |
| LogProtocol.LogNeverOverflows | Project2/xv6-public/log.c:125-233 | over all interleavings the header never exceeds LOGSIZE or repeats a block, no log_write runs during a commit, and the panics log.committing and outside-of-trans are unreachable |
| LogProtocol.AppendHasRoom | Project2/xv6-public/log.c:213-233 | with a log area larger than LOGSIZE no appending log_write panics |
| LogLimits.AppendSafeIff | Project2/xv6-public/log.c:213-219 | for every number of processes: an appending log_write can never panic if and only if the log area is larger than the most the header can hold, which is LOGSIZE for two processes or more and MAXOPBLOCKS for one |
| LogLimits.AbsorbPanicsIff | Project2/xv6-public/log.c:218-227 | for every number of processes and every area: log_write can panic on a block it would only absorb if and only if anything can be logged and the header can grow to where the test fails |
| LogLimits.StaysInAreaIff | Project2/xv6-public/log.c:218-230 | the header stays within the log area in every reachable state if and only if the area is larger than LOGSIZE, or has only the header block, or there is at most one process |
| LogLimits.Overrun | Project2/xv6-public/log.c:218-230 | for any smaller area and two processes or more, a reachable state has one block more in the header than the area holds |
| LogLimits.OverrunTwice | Project2/xv6-public/log.c:218-230 | with three processes or more and an area smaller than LOGSIZE, a reachable state has two more |
| LogLimits.HeaderIff | Project2/xv6-public/log.c:218-230 | for every number of processes and every area: a header of k blocks is reachable if and only if k is at most `Largest`, which is 0 in an area of at most one block, and otherwise what admission allows or what racing tests allow, whichever is less |
| LogLimits.CommitStarvesIff | Project2/xv6-public/param.h:10-12 | for every number of processes, every area and every number of buffers: a commit with as many blocks as there are buffers is reachable if and only if there are no more buffers than the header can hold blocks |
| LogLimits.WrittenFitsIff | Project2/xv6-public/log.c:177-190 | so every commit that has a buffer to recycle fits the log area if and only if no header outgrows the area or there are no more buffers than the area has blocks |
| FsSpec.PutGet | Project2/xv6-public/fs.c:389-393 | a word written into an indirect block reads back, and no other entry changes |
| FsSpec.WordBytes | Project2/xv6-public/fs.c:389-393 | a block pointer is stored with its least significant byte first, and no other byte changes |
| FsSpec.Placement | Project2/xv6-public/fs.h:38-48 | the block named for an inode or a bit of the free map is the one that its 64 bytes, or the bit, lie in |
| FsSpec.AllocKeeps | Project2/xv6-public/fs.c:373-400 | giving the next slot of a file a free block keeps the invariant of the whole file system |
| FsSpec.AllocBytes | Project2/xv6-public/fs.c:43-51 | allocation changes no byte of any file |
| FsSpec.PatchKeeps | Project2/xv6-public/fs.c:498-504 | overwriting one file block changes those bytes of that file and no other byte of any file |
| FsSpec.PatchedByte | Project2/xv6-public/fs.c:499-502 | one copy of writei changes exactly the bytes of its range, in one file |
| FsSpec.WrittenStep | Project2/xv6-public/fs.c:498-504 | one round of writei extends the written range and preserves all other bytes |
| FsSpec.WrittenContent | Project2/xv6-public/fs.c:481-511 | after all rounds the file is the old one with the source spliced in at the offset |
| FsSpec.SpliceReads | Project2/xv6-public/fs.c:498-504 | in the file written, the range reads as the bytes given and every other byte as before |
| FsSpec.SetSize | Project2/xv6-public/fs.c:506-509 | growing the size to cover the written blocks restores the invariant between operations |
| FsSpec.TruncKeeps | Project2/xv6-public/fs.c:407-435 | freeing every block of a file restores the invariant and keeps every other file's contents |
| FsSpec.BlockConservation | Project2/xv6-public/fs.c:56-95 | between operations a data-area bitmap bit is set exactly if one slot of one inode refers to the block, and the blocks of a file are exactly those its size needs |
| FileSystems.FileSystem.Balloc | Project2/xv6-public/fs.c:56-78 | the first free block, now marked and zeroed; the panic exactly if there is none |
| FileSystems.FileSystem.Bzero | Project2/xv6-public/fs.c:42-51 | the block is all zeros and logged |
| FileSystems.FileSystem.Bfree | Project2/xv6-public/fs.c:81-95 | the bit is cleared; the panic "freeing free block" exactly if it was clear |
| FileSystems.FileSystem.Iupdate | Project2/xv6-public/fs.c:220-236 | the disk inode becomes the in-memory one and no other changes |
| FileSystems.FileSystem.Bmap | Project2/xv6-public/fs.c:372-400 | the block of the slot, allocated if it was the next one; the panic exactly if free blocks are too few; no byte of any file changes; every block changed is logged, only blocks of the file system's layout are, and a bound on how many |
| FileSystems.FileSystem.IndirectBlock | Project2/xv6-public/fs.c:387-389 | the indirect block, allocated and zeroed when it is the next slot |
| FileSystems.FileSystem.IndirectEntry | Project2/xv6-public/fs.c:389-396 | the entry of the indirect block, allocated when it is the next slot |
| FileSystems.FileSystem.Writei | Project2/xv6-public/fs.c:481-511 | the file becomes the old one with the bytes from off on replaced, its size max(size, off+n); on disk only its own inode changes, and every other file's bytes are the same; -1 and no change exactly outside the limits; the panic exactly if free blocks are too few; free blocks fall by exactly those the size needs; every block changed is logged, and a bound on how many |
| FileSystems.FileSystem.WriteLoop | Project2/xv6-public/fs.c:498-504 | the block-splitting loop across the direct/indirect boundary writes the whole range, and counts and logs what it changes |
| FileSystems.FileSystem.Readi | Project2/xv6-public/fs.c:452-476 | the slice of the file's bytes that exists from off on; nothing is allocated or changed |
| FileSystems.FileSystem.Itrunc | Project2/xv6-public/fs.c:407-435 | the file is empty, its blocks are free, every other file is the same; bfree never panics; every bitmap and inode block changed is logged |
| FileSystems.WriteAllowedIff | Project2/xv6-public/fs.c:493-496 | the tests in 32-bit arithmetic decide exactly whether the write starts within the file and ends within MAXFILE blocks |
| FileSystems.ChunkFits | Project2/xv6-public/file.c:127-133 | a chunk of at most 3*512 bytes at any offset logs at most MAXOPBLOCKS distinct blocks, even if every allocation hits another bitmap block |
| FileWrites.WriteChunk | Project2/xv6-public/file.c:140-151 | one transaction logs every block it changes, at most MAXOPBLOCKS of them, and writes the whole chunk, or nothing if the file cannot take it; only the file's own inode changes on disk; the panic exactly if free blocks are too few |
| FileWrites.FileRound | Project2/xv6-public/file.c:135-152 | a round writes the next chunk after those written, or stops because no further whole chunk fits; a chunk written is the next image of the trail |
| FileWrites.Filewrite | Project2/xv6-public/file.c:117-156 | the bytes accepted are spliced into the file at the offset, the offset moves by as many, other files and inodes are the same, free blocks fall by exactly those the new size needs; the result is n exactly if all were written; the panic exactly if free blocks are too few; between its transactions the disk goes through a trail of images, the j-th with exactly the first j chunks written |
| FileWrites.AcceptedMost | Project2/xv6-public/file.c:128-156 | filewrite accepts everything exactly if it fits the largest file, and otherwise as many whole chunks as fit |
| CrashWrites.CommitRepresents | Project2/xv6-public/log.c:192-202 | if the home blocks hold one image of the file system, then committing what was logged leaves them holding the next |
| CrashWrites.CrashDuringTrail | Project2/xv6-public/log.c:69-202 | a crash at any disk write while a list of transactions commits, then any number of crashed recoveries: the completed one leaves the image after a whole number of transactions |
| CrashWrites.CrashDuringFilewrite | Project2/xv6-public/file.c:125-156 | each transaction of a filewrite fits the log; after a crash at any of their disk writes and any crashed recoveries the file has a whole number of chunks written, in order, and every other file is as it was |
| CrashWrites.OneImage | Project2/xv6-public/fs.h:38-48 | with an encoding that can be undone, the home blocks determine the bitmap, the inodes and the data blocks |
| FileCalls.StaysAtRest | Project2/xv6-public/fs.c:407-511 | work on one file leaves every other inode in memory in agreement with the disk and the invariant |
| FileCalls.Perform | Project2/xv6-public/fs.c:407-511 | one writei or itrunc on any file does to the files, as strings of bytes, just what the model of byte strings says, and panics exactly if that runs out of blocks |
| FileCalls.Calls | Project2/xv6-public/fs.c:407-511 | so does any sequence of calls on any files, in any order: the file system refines an array of byte strings and a count of free blocks |
| FileCalls.BlocksAddUp | Project2/xv6-public/fs.c:56-95 | over any sequence of calls, free blocks and the blocks the files need, with their indirect blocks, add up to the same number |
| FileCalls.Read | Project2/xv6-public/fs.c:450-475 | readi on any file returns the bytes that the byte-string model has there, -1 exactly beyond its limits, and changes nothing |
| FileCalls.ReadsWritten | Project2/xv6-public/fs.c:450-511 | bytes written by one writei are read back after any calls on other files, and the bytes outside its range are the old ones |
| WriteBounds.TenLogged | Project2/xv6-public/file.c:127-133 | where the four free blocks lie under four bitmap blocks and the file is about to need its indirect block, any write that meets WriteChunk's contract has logged ten different blocks |
| WriteBounds.FullTransaction | Project2/xv6-public/file.c:127-151 | so one chunk appended to such a file is a transaction of exactly MAXOPBLOCKS blocks: the bound of ChunkFits is attained |
| WriteBounds.SpreadDisk | Project2/xv6-public/mkfs.c:94-103 | there is such a disk, in mkfs's layout, with every block in use but four |
| MallocSpec.InsertShape | Project2/xv6-public/umalloc.c:73-86 | a live block put at its place in the list keeps order and tiling |
| MallocSpec.JoinUpShape | Project2/xv6-public/umalloc.c:76-80 | joining with the block above keeps order and tiling |
| MallocSpec.JoinDownShape | Project2/xv6-public/umalloc.c:81-85 | joining with the block below keeps order and tiling |
| MallocSpec.SplitShape | Project2/xv6-public/umalloc.c:121-125 | handing out the upper part of a block keeps order and tiling |
| MallocSpec.TakeShape | Project2/xv6-public/umalloc.c:119-120 | taking an exact fit off the list keeps order and tiling |
| MallocSpec.LinksInsert | Project2/xv6-public/umalloc.c:79-86 | the assignments of an insertion keep the list circular |
| MallocSpec.LinksDrop | Project2/xv6-public/umalloc.c:120 | unlinking keeps the list circular |
| MallocSpec.Conservation | Project2/xv6-public/umalloc.c:67-133 | free and live units add up to the units obtained from sbrk |
| MallocSpec.OneBlockEach | Project2/xv6-public/umalloc.c:67-133 | a unit came from sbrk exactly if it is in a block, free or live, and then in one only |
| MallocSpec.NeverAdjacent | Project2/xv6-public/umalloc.c:76-85 | no two blocks on the free list touch |
| Mallocs.UnitsSuffice | Project2/xv6-public/umalloc.c:112 | the unit count covers the request, with less than a unit to spare, if and only if the 32-bit sum does not wrap; if it wraps the block is one header |
| Mallocs.Malloc.Free | Project2/xv6-public/umalloc.c:67-87 | the search ends at the one right place, which freep is set to; the block is live no more and the heap's units are the same |
| Mallocs.Malloc.JoinAbove | Project2/xv6-public/umalloc.c:76-80 | the first case split of free |
| Mallocs.Malloc.JoinBelow | Project2/xv6-public/umalloc.c:81-86 | the second case split of free |
| Mallocs.Malloc.Morecore | Project2/xv6-public/umalloc.c:89-104 | the heap grows by max(nu, 4096) units and a large enough free block is on the list; None exactly if sbrk refuses |
| Mallocs.Malloc.Alloc | Project2/xv6-public/umalloc.c:106-133 | the search ends; a block of exactly the units asked for, disjoint from every live one: the upper units of the first free block large enough from freep on, if there is one; it fails exactly if no free block is large enough and sbrk refuses |
| Mallocs.Malloc.HandOut | Project2/xv6-public/umalloc.c:118-128 | the upper units of the block found, or all of it, become live, and freep is the block before it |
| Mallocs.Malloc.Unlink | Project2/xv6-public/umalloc.c:119-127 | an exact fit leaves the list whole |
| Mallocs.Malloc.Split | Project2/xv6-public/umalloc.c:121-127 | the upper part is handed out, the rest stays on the list |
| VmSpec.OthersKept | Project2/xv6-public/vm.c:35-80 | work on one directory leaves the tables, the translations and the contents of the pages of every other address space alone |
| VmSpec.Pop | Project2/xv6-public/kalloc.c:82-95 | taking the head off the free list leaves the list of all other free pages |
| VmSpec.Push | Project2/xv6-public/kalloc.c:59-77 | freeing a page puts it, and nothing else, on the free list |
| VmSpec.AddTable | Project2/xv6-public/vm.c:47-52 | a new zeroed page table changes no translation |
| VmSpec.SetPte | Project2/xv6-public/vm.c:73 | one page table entry changes one translation |
| VmSpec.ShrunkSkip | Project2/xv6-public/vm.c:264-267 | absent page tables hold nothing that deallocuvm would have to free |
| VmSpec.LastPage | Project2/xv6-public/vm.c:290-297 | after freevm's loop only the directory page is left |
| VmSpec.BuiltAndGone | Project2/xv6-public/vm.c:283-345 | building an address space and freeing it restores the use of every page and the contents of every page in use |
| VmSpec.KmapMeaning | Project2/xv6-public/vm.c:105-115 | the rows of kmap together map physical memory at KERNBASE, text read-only, and the devices at their own addresses, without overlap |
| VmSpec.TranslateIs | Project2/xv6-public/vm.c:46-54 | directory entries restrict nothing: the page and the rights that an access finds are those of the page table entry |
| VmSpec.KernelAccessIs | Project2/xv6-public/vm.c:103-113 | in every address space the kernel can write all of its memory but its text, and user code can access none of it |
| VmGrowth.NeedOpen | Project2/xv6-public/vm.c:40-53 | how many page tables a stretch of virtual pages takes |
| VmGrowth.KernelRow | Project2/xv6-public/vm.c:128-134 | the page tables each row of kmap adds; 64 in all, wherever the data section begins |
| VmGrowth.GrownShrunk | Project2/xv6-public/vm.c:235-246 | undoing a partial allocuvm restores every translation and gives back every data page |
| VmGrowth.GrownTouches | Project2/xv6-public/vm.c:221-249 | allocuvm, whether it succeeds or not, concerns no other address space |
| VmGrowth.GrownAccess | Project2/xv6-public/vm.c:232-246 | user code can read and write every page that allocuvm added, and all other rights are as before |
| VmGrowth.CopiedAccess | Project2/xv6-public/vm.c:324-339 | every page copyuvm copied has the parent's rights |
| VmGrowth.CalledTouches | Project2/xv6-public/vm.c:35-345 | what each of walkpgdir, mappages, allocuvm, deallocuvm, freevm, setupkvm and copyuvm may do concerns free pages and pages of its own directory only |
| VmGrowth.Isolation | Project2/xv6-public/vm.c:35-345 | an address space keeps its tables, translations and page contents over any sequence of such calls on other directories |
| VmGrowth.CopyMap | Project2/xv6-public/vm.c:324-339 | a round of copyuvm adds one faithful copy and disturbs none |
| VmGrowth.UserNeedIs | Project2/xv6-public/vm.c:324-339 | n user pages of a new address space take n pages and ceil(n/1024) page tables |
| Vms.Machine.Kalloc | Project2/xv6-public/kalloc.c:82-95 | the head of the free list; None exactly if the list is empty |
| Vms.Machine.Kfree | Project2/xv6-public/kalloc.c:59-77 | the page, every byte 1 but for the link, heads the free list; no other page changes |
| Vms.Machine.Freerange | Project2/xv6-public/kalloc.c:46-53 | exactly the whole pages between the addresses become free |
| Vms.Machine.Walkpgdir | Project2/xv6-public/vm.c:35-55 | the page table of the address, made if asked for, under a directory entry that allows user writes; no translation and no rights change; it fails exactly for want of a free page or of permission |
| Vms.Machine.MapEntry | Project2/xv6-public/vm.c:67-73 | one round of mappages changes one translation, or fails for want of a page, or panics exactly if the page is mapped already, and then changes nothing |
| Vms.Machine.Mappages | Project2/xv6-public/vm.c:60-80 | the pages of the range map to consecutive physical pages, with exactly the rights asked for, as far as the first that is mapped already, where it panics; it fails exactly if free pages do not suffice for the missing page tables up to there |
| Vms.Machine.MapRange | Project2/xv6-public/vm.c:66-79 | the loop of mappages, in page numbers |
| Vms.Machine.Setupkvm | Project2/xv6-public/vm.c:118-136 | a directory of fresh pages with exactly the kernel's mappings and rights; it fails exactly if fewer than 65 pages are free, and then the free-page set is as before |
| Vms.Machine.MapZeroed | Project2/xv6-public/vm.c:232-246 | one round of allocuvm |
| Vms.Machine.Allocuvm | Project2/xv6-public/vm.c:221-249 | success maps exactly the pages of [PGROUNDUP(oldsz), newsz) to fresh zeroed pages, for user code to read and write, and changes no other translation or right; failure, exactly if free pages do not suffice, restores every translation and gives back every data page |
| Vms.Machine.Deallocuvm | Project2/xv6-public/vm.c:255-279 | the user pages from PGROUNDUP(newsz) up to oldsz are unmapped and free, and an access to them faults, nothing else; the 4 MB skip leaves out nothing |
| Vms.Machine.Freevm | Project2/xv6-public/vm.c:283-298 | everything the directory owned is free, nothing else changed |
| Vms.Machine.CopyPage | Project2/xv6-public/vm.c:330-338 | one round of copyuvm, with its own rollback |
| Vms.Machine.PresentEntry | Project2/xv6-public/vm.c:326-331 | the parent's entry, if the page is present; otherwise one of copyuvm's panics |
| Vms.Machine.Copyuvm | Project2/xv6-public/vm.c:315-345 | success gives the same user pages, flags, rights and contents on pages that were all free, the parent unchanged; failure, exactly if there are fewer than 65 + k + ceil(k/1024) free pages for the k pages before the first absent one, leaves the free-page set as it was; the panic exactly if those suffice and a page below sz is absent, and then the pages of a partial new address space are in use |
| AddressSpaces.OtherStays | Project2/xv6-public/vm.c:118-345 | a call on one directory leaves size and pages of any other address space as they were |
| AddressSpaces.GrownView | Project2/xv6-public/vm.c:221-249 | a successful allocuvm is the old pages followed by zeroed ones with the right to write for the user |
| AddressSpaces.ShrunkView | Project2/xv6-public/vm.c:255-281 | a deallocuvm is the pages that are left |
| AddressSpaces.RestoredView | Project2/xv6-public/vm.c:232-247 | a failed allocuvm is the old pages |
| AddressSpaces.CopiedView | Project2/xv6-public/vm.c:315-345 | a successful copyuvm has the parent's size, flags, rights and contents |
| AddressSpaces.Serve | Project2/xv6-public/vm.c:118-345 | each call does to the address spaces what the abstract request says and nothing to the others; it fails exactly for want of free pages (for each call the exact number), for a size that reaches the kernel or for a directory that does not exist, and then no address space changes |
| AddressSpaces.ServeAll | Project2/xv6-public/vm.c:118-345 | any sequence of setupkvm, allocuvm, deallocuvm, copyuvm and freevm refines a map of sizes and of the rights to and contents of every page |
| Scheduler.NextInv | Project2/xv6-public/proc.c:675-745 | every step of schedulers, yield, sleep, exit, wait, wakeup and fork keeps the hand-off invariant, on any number of CPUs |
| Scheduler.HandOff | Project2/xv6-public/proc.c:687-706 | whenever ptable.lock is free a process is RUNNING exactly if it is current on a CPU, on one only, which executes it |
| Scheduler.ReapSafe | Project2/xv6-public/proc.c:637-650 | the kernel stack wait or join frees belongs to a process no CPU executes, and no CPU runs on that page |
| Scheduler.StacksApart | Project2/xv6-public/proc.c:689-704 | CPUs that execute kernel threads do so on different kernel stacks |
| Scheduler.SwitchSafe | Project2/xv6-public/proc.c:718-735 | at swtch in sched the CPU holds ptable.lock and the state is not RUNNING (the checks of ncli and FL_IF are not modelled); no exited thread is ever resumed |
| Scheduler.OneCpu | Project2/xv6-public/proc.c:688-699 | a CPU takes on only a process that no CPU has |
| Scheduler.HolderMoves | Project2/xv6-public/proc.c:687-706 | the holder of ptable.lock can always step on, and is at most three steps from releasing it |
| Scheduler.LifeCycle | Project2/xv6-public/proc.c:75-820 | a process changes its state only along the edges of the life cycle, each by the one event meant for it, and to just the state asked for |
| Scheduler.GivesUp | Project2/xv6-public/proc.c:719-745 | yield, sleep and exit leave the process with just the state set, its CPU in the scheduler's loop, and every other process as it was |
| Scheduler.TakenByAny | Project2/xv6-public/proc.c:685-699 | any scheduler that waits for the lock can choose any RUNNABLE process, and its CPU then executes it, RUNNING and with the lock |
| Scheduler.YieldRunsOn | Project2/xv6-public/proc.c:739-745 | a process that yields can be chosen by its own or any other waiting scheduler, and that CPU executes it |
| Scheduler.WokenRunsOn | Project2/xv6-public/proc.c:814-821 | so can a process that was woken |
| Scheduler.ChildRunsOn | Project2/xv6-public/proc.c:182-227 | so can the child of fork or clone, which begins at forkret on its own kernel stack |
| Scheduler.SleepsUntilWoken | Project2/xv6-public/proc.c:772-821 | in any run a SLEEPING process stays so, executed by no CPU, until it is woken |
| Scheduler.ExitedUntilReaped | Project2/xv6-public/proc.c:498-650 | in any run a ZOMBIE stays so, executed by no CPU, until it is reaped |
| Scheduler.RunnableUntilChosen | Project2/xv6-public/proc.c:687-697 | in any run a RUNNABLE process stays so until a scheduler chooses it |
| Scheduler.SlotFree | Project2/xv6-public/proc.c:85-98 | a slot given back by a failed fork or by wait can be a new process again |
| Scheduler.EveryCpuMoves | Project2/xv6-public/proc.c:687 | while ptable.lock is free every CPU can take it |
| Scheduler.ForkRun | Project2/xv6-public/proc.c:182-227 | with a free slot and a page for the stack fork leaves a RUNNABLE child at forkret on that stack, and everything else as it was |
| Scheduler.ReapRun | Project2/xv6-public/proc.c:637-655 | wait and join free the slot and the stack of any process that has exited, and change no other process |
| Scheduler.WakeRun | Project2/xv6-public/proc.c:814-821 | a thread with the lock can wake any sleeper, which is then RUNNABLE, and changes nothing else |
| SleepLock.NextInv | Project2/xv6-public/sleeplock.c:22-42 | every single lock operation of acquiresleep, releasesleep, sleep and wakeup keeps the invariant |
| SleepLock.MutualExclusion | Project2/xv6-public/sleeplock.c:22-42 | at most one process holds the lock, and locked says whether one does |
| SleepLock.NoLostWakeup | Project2/xv6-public/proc.c:771-830 | while the lock is free and a process is asleep or about to sleep on it, another has cleared locked and its scan has not passed the sleeper |
| SleepLock.CallStep | Project2/xv6-public/sleeplock.c:22-42 | a process goes through acquiresleep and releasesleep in order, and only its own assignment to locked ends its holding the lock |
| SleepLock.AcquireGetsLock | Project2/xv6-public/sleeplock.c:22-32 | in any run acquiresleep returns only to a process that holds the lock |
| SleepLock.TakesFree | Project2/xv6-public/sleeplock.c:25-31 | a process that finds the lock free has it two steps later |
| SleepLock.StepsEnd | Project2/xv6-public/sleeplock.c:22-42 | each step brings a call closer to its return or to sleep |
| SleepLock.NoneStuck | Project2/xv6-public/proc.c:786-808 | if a process is in a call and not asleep, some process in a call can step |
| SleepLock.ScanWakesAll | Project2/xv6-public/proc.c:813-821 | the single steps of a scan add up to wakeup1 |
| SleepLock.Wakeup1 | Project2/xv6-public/proc.c:813-821 | the loop makes exactly the sleepers on the channel RUNNABLE |
| Pipes.FullEmpty | Project2/xv6-public/pipe.c:84-106 | the full and empty tests mean what they say although the counters wrap at 2^32 |
| Pipes.StoreOk | Project2/xv6-public/pipe.c:93 | a store into a buffer that is not full keeps the ring |
| Pipes.FetchOk | Project2/xv6-public/pipe.c:116 | a fetch from a buffer that is not empty yields the oldest byte |
| Pipes.NextInv | Project2/xv6-public/pipe.c:59-121 | every step of any number of readers, writers and closers keeps the invariant |
| Pipes.Fifo | Project2/xv6-public/pipe.c:78-121 | in every run the bytes written are the bytes read followed by the at most 512 buffered ones |
| Pipes.ReadReturns | Project2/xv6-public/pipe.c:112-120 | what a piperead returns is consecutive bytes of what was written, ending with the last byte any read has taken; it stops exactly when it has as many as asked for or the buffer is empty |
| Pipes.SleepersBlocked | Project2/xv6-public/pipe.c:84-112 | whenever the pipe lock is free a sleeping writer means a full buffer with readopen set, and a sleeping reader an empty one with writeopen set unless a failing pipewrite left it asleep and the readers were not woken since |
| Pipes.LostReaders | Project2/xv6-public/pipe.c:85-89 | exactly one kind of step breaks what holds for readers: a pipewrite that returns -1 while a reader waits |
| Pipes.LostReaderRun | Project2/xv6-public/pipe.c:78-98 | a run in which a reader sleeps on a full buffer with the lock free, after a killed writer returned -1 |
| Pipes.AlwaysFineIff | Project2/xv6-public/pipe.c:78-98 | over every run: in all its states every waiting reader has reason to wait, or will be woken, if and only if no pipewrite of the run returns -1 while a reader waits |
| Pipes.ReadersBlocked | Project2/xv6-public/pipe.c:100-121 | in such a run, whenever the pipe lock is free a sleeping reader means an empty buffer with writeopen set; readers may be killed and either end closed |
| Pipes.SafeReadersBlocked | Project2/xv6-public/pipe.c:84-121 | so it does if at every round of a pipewrite the writer is not killed and the read end is open |
| PipeCalls.WriteStores | Project2/xv6-public/pipe.c:83-97 | over any run: what a pipewrite has stored, followed by what it has left, is its argument; if it returns n it has stored just that, in order, and it returns -1 only on a full buffer, killed or with the read end closed |
| PipeCalls.Interleaved | Project2/xv6-public/pipe.c:93 | the writes of all processes interleave to the bytes written, those of each process in its order |
| PipeCalls.OneWriter | Project2/xv6-public/pipe.c:78-121 | with one writer, none of whose writes fails, the bytes read are the first of the bytes it was given |
| PipeCalls.ReadTakes | Project2/xv6-public/pipe.c:101-121 | what a piperead returns is just what its steps took out; fewer bytes than asked for only from an empty buffer, none only after the write end was closed, -1 only if killed |
| PipeCalls.CloseShuts | Project2/xv6-public/pipe.c:60-70 | when pipeclose returns its end is closed |
| PipeCalls.StaysClosed | Project2/xv6-public/pipe.c:60-70 | a closed end stays closed |
| PipeCalls.StepsEnd | Project2/xv6-public/pipe.c:59-121 | each step brings a call closer to its return or to sleep |
| PipeCalls.NoneStuck | Project2/xv6-public/pipe.c:59-121 | unless every process is outside its calls or asleep, some process in a call can step |
| Grep.ShowParse | Project2/xv6-public/grep.c:84-96 | the reading of a pattern loses nothing: the pattern can be written back from it |
| Grep.ParseShow | Project2/xv6-public/grep.c:84-96 | a regex can be written as a pattern if and only if no lone item is followed by a literal '*' and it does not end in a literal '$' |
| Grep.FirstItem | Project2/xv6-public/grep.c:89-95 | a list of items occurs where its first item takes some characters and the rest occurs behind them |
| Grep.Match | Project2/xv6-public/grep.c:72-82 | true exactly if a string of the pattern's language occurs in the text, at its start under '^', at its end under '$' |
| Grep.MatchHere | Project2/xv6-public/grep.c:84-96 | true exactly if the pattern occurs at the beginning of the text; the recursion ends |
| Grep.MatchStar | Project2/xv6-public/grep.c:98-106 | true exactly if c* and then the pattern occur at the beginning |
| ShellSpec.TokensSpell | Project2/xv6-public/sh.c:265-308 | tokens written with spaces are read back |
| ShellSpec.LineForm | Project2/xv6-public/sh.c:344-446 | the parenthesised tokens of a well-formed tree parse to that tree, whatever ')' follows |
| ShellSpec.RoundTrip | Project2/xv6-public/sh.c:327-342 | parsecmd of a fully parenthesised rendering, however spaced, is the tree, for every tree with non-empty words, fewer than MAXARGS arguments and the two forms of redirection |
| ShellSpec.Normalised | Project2/xv6-public/sh.c:327-342 | every accepted line means a well-formed tree, whose rendering means the same |
| ShellGrammar.MeaningIff | Project2/xv6-public/sh.c:327-446 | exactly the lines whose tokens are those of a tree of the grammar are accepted, each with the meaning of its tree: "|" before "&" and ";", both "|" and ";" to the right, "&" of a whole pipeline |
| ShellGrammar.FlatMeans | Project2/xv6-public/sh.c:344-446 | every well-formed command, written with parentheses only where precedence demands them and however spaced, means itself |
| ShellGrammar.SimpleParse | Project2/xv6-public/sh.c:415-446 | words and redirections of a simple command may come in any order: the words in theirs, under the redirections from left to right |
| ShellGrammar.RedirForms | Project2/xv6-public/sh.c:384-394 | "<" opens for reading as descriptor 0; ">" and ">>", which mean the same, open for writing and creation as descriptor 1 |
| ShellGrammar.TokensIff | Project2/xv6-public/sh.c:265-320 | a text is read as a list of tokens if and only if it is these with blanks around them, and some where two would be read as one |
| Shell.Parser.Peek | Project2/xv6-public/sh.c:310-320 | whether the next token begins with one of the symbols; only blanks are consumed |
| Shell.Parser.GetToken | Project2/xv6-public/sh.c:265-308 | the next token is taken, with the exact span of a word |
| Shell.Parser.TakeToken | Project2/xv6-public/sh.c:277-303 | the switch of gettoken takes exactly the first token's characters and returns its code |
| Shell.Parser.ParseRedirs | Project2/xv6-public/sh.c:374-397 | the redirections in front, wrapped around the command |
| Shell.Parser.ParseExec | Project2/xv6-public/sh.c:415-446 | the words and redirections of a simple command, or a block; errors exactly as in the grammar |
| Shell.Parser.ParseBlock | Project2/xv6-public/sh.c:399-413 | a parenthesised line with its redirections |
| Shell.Parser.ParsePipe | Project2/xv6-public/sh.c:361-372 | commands joined by the pipe symbol, nested to the right, as in the grammar |
| Shell.Parser.ParseLine | Project2/xv6-public/sh.c:344-359 | pipelines with '&' and ';'; parsing ends on every input |
| Shell.Parser.ParseCmd | Project2/xv6-public/sh.c:327-342 | the meaning of the line, its words now C strings in the buffer, or the same error |
| Shell.Parser.Nulterminate | Project2/xv6-public/sh.c:448-493 | NUL exactly where a word of the tree ends |
| Shell.StringsAreWords | Project2/xv6-public/sh.c:448-493 | after nulterminate every word of the tree is a C string equal to its token: no NUL falls inside another word |
| BoundedBuffer.NextInv | Practical HW5/client.c:71-93 | every step of any number of clients and the server keeps the invariant |
| BoundedBuffer.Delivery | Practical HW5/server.c:82-95 | both counting semaphores and the slots in transit add up to ten; what is printed is a prefix of the messages in critical-section order and the rest is in its slots |
| BoundedBuffer.NoOverwrite | Practical HW5/client.c:80-83 | a client writes inside the buffer, alone, and over no unprinted message |
| BoundedBuffer.PrintsWritten | Practical HW5/server.c:84-90 | the server prints a written, unprinted slot, which no client changes meanwhile |
| BoundedBuffer.NoDeadlock | Practical HW5/server.c:57-73 | unless all is printed and every client waits for input, some process can step |
| BoundedBuffer.SendsTyped | Practical HW5/client.c:69-83 | over any run each client puts into the buffer just the messages typed to it, in order |
| BoundedBuffer.Interleaved | Practical HW5/client.c:80-83 | the messages of all clients interleave in the buffer |
| BoundedBuffer.TwelveSteps | Practical HW5/server.c:80-95 | each message takes twelve steps of clients and server, no run takes more, and none are left exactly if everything is printed and everybody waits |

## Left out

- Writei, Readi: the T_DEV branches, which call device drivers.
- Bget: where the caller goes to sleep on the buffer's lock the call ends, and Resume goes on when the lock is free; what happens in between is in SleepLock.dfy.
- Bwrite: like Brelse, called by the holder of the buffer, whose panics for others are preconditions; a changed buffer is written or pinned before it is released.
- LogWrite: the test and the append are one step here; Append is the part under the lock on its own, and LogProtocol.dfy and LogLimits.dfy have the gap between the two, with other processes in it.
- Commit, WriteLog: no process holds a buffer of the log or of a block of the transaction, for which commit would wait; and with more buffers than the log area has blocks, a list that outgrew the area is excluded.
- EndOp: the same for the last operation, which commits.
- CrashDuringFilewrite: bitmap, inodes and blocks are encoded into disk blocks by any function, not byte for byte as in fs.h; each chunk is a commit of its own, so operations of other processes that join its commit are not in it.
- Balloc, Bmap: which blocks an operation logs is kept in a set `logged`.
- Balloc: bitmap and inode blocks are records and booleans, not bytes.
- Kfree: the panic for an address that is no page of the allocator is a precondition, and so is that the page is not free already.
- Allocuvm: its callers pass the size of the process, above which no user page is present.
- Mappages: page table words are integers of page number times 4096 plus flags; physical addresses are not bounded to 32 bits.
- Alloc, Morecore: sbrk is a parameter that answers with memory above the whole heap; its own byte count, which could wrap in 32 bits, is not modelled.
- Free: only for blocks that are live; freeing anything else is undefined in the source.
- NextInv: the steps of Scheduler.dfy let any holder of ptable.lock wake any sleeper and reap any ZOMBIE, which covers wakeup, kill, wait, join and the thread variants; parents, pids, channels and killed flags do not matter to what is proved there.
- SwitchSafe: the checks of ncli and of the interrupt flag in sched, since interrupt disabling is not modelled.
- ReapSafe: kfree(p->kstack) and p->kstack = 0 are one step; which address space a CPU has loaded is not modelled.
- NoLostWakeup: processes sleeping on other channels, and the pid in the lock, are not part of it; only the holder releases.
- SleepersBlocked: wakeup1 is one step in Pipe.dfy; its scan is broken up in SleepLock.dfy. The memory of a pipe closed at both ends is not freed.
- ParseExec: command nodes are values; the argument slots that the source fills through a pointer under redirections are filled by `AddArg`. Memory for the nodes does not run out.
- Match: text and pattern are strings without NUL; the buffering loop around the matcher has no specification independent of its chunks.
- Delivery: semaphore operations and the set-up in server.c succeed, and clients start after it.
- Interrupt disabling, memory fences and the debugging fields of spinlocks: a lock operation is one atomic step.
- The superblock, inode allocation and caching, directories and path names: less branching over the same block layer.
- clone, join, tkill as claims about sharing, runcmd, device drivers, boot code, and the other homework programs.
- copyuvm_clone: it maps the parent's own pages into a second directory (vm.c:349-379), so that a page has two owners; that breaks what the address spaces of Vm.dfy keep, one owner for every page, and is not modelled.
- inituvm, loaduvm, clearpteu, copyout, switchuvm: they work on one page, or copy bytes, over the operations proved here.
