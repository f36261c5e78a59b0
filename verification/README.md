# xv6 for RISC-V, in Dafny

A model of the kernel's data structures and protocols, of the image builder and of two user programs,
with proofs of what they promise. Disk blocks, page-table pages, free lists, rings and directory blocks
are modelled as the code lays them out; code that works in place is a class whose methods keep the
loops of the source and are proved against specification functions. Concurrent code is a step system
whose steps are the critical sections of the source, its single block writes and the tests it makes
outside a lock, and the theorems are about every run.

- Log and buffer cache: `LogDisk` (commit and recovery as lists of block writes), `LogDevice` (the code
  of log.c against those lists), `LogSystem`, `LogSafety`, `LogTheorems`, `LogProgress`,
  `LogSpace`, `LogBuffers` (all interleavings of calls, with crashes), `Bcache` (the linked list of buffers).
- Memory: `PageTable` (the three-level tree as a flat map), `Vm`, `UserVm`, `FreeWalk`, `ProcVm` (the
  allocator and vm.c), `LazyMemory`, `LazyMachine`, `LazyRun` (many processes with lazy memory against
  eager zero-filled memory).
- File system: `FsBits`, `FsMap`, `FsCost`, `FsTrunc`, `Fs`; image builder: `MkfsTable`, `MkfsFiles`, `Mkfs`;
  directories: `DirNames`, `DirPath`, `DirLinks`, `DirTree`, `DirRun`.
- Processes: `Proc`, `ProcSafety`, `ProcTheorems`, `ProcLife`, `ProcInit`. Pipes: `Pipe`. Disk driver: `Virtio`, `VirtioDisk`.
- User code: `HeapList`, `HeapRing`, `Umalloc`; `ShellGrammar`, `ShellLex`, `ShellRoundTrip`,
  `ShellText`, `ShellParser`, `ShellNul`.

`dafny verify dfyconfig.toml` checks everything.

Where the code does less than its comments say, the model follows the code:

- `log_write` makes its panic tests before it looks for the block. So a call within its budget can
  panic whatever nlog is (`LogSpace.SomeRunPanics`). If nlog > LOGSIZE this happens iff the log is
  full and the block is in it already (`LogSpace.PanicsIffLogFull`). A new block can run into it iff
  nlog <= LOGSIZE (`LogSpace.PanicsIffLogTooSmall`), which is so in the image of mkfs.
- These tests are made before the log's lock is taken, so two calls can pass them when there is room for
  one block. Some run then starts to commit a list that has outgrown the log area, iff 2 <= nlog <= LOGSIZE
  (`LogSpace.OverfullIff`). If nlog < LOGSIZE, write_log overwrites the block behind the area
  (`LogSpace.WritesBeyond`). With nlog = LOGSIZE, as mkfs sets it, the list pins all NBUF = LOGSIZE buffers
  and nothing is written. So every run is crash safe iff nlog >= LOGSIZE or nlog = 1
  (`LogSpace.CrashSafeIff`, `LogSpace.MkfsLogIsSafe`).
- Three calls within their budgets can log NBUF blocks. Their commit finds no buffer for the log and panics
  in bget before its first write (`LogBuffers.StuckForever`). Some run does this iff nlog >= LOGSIZE - 1
  (`LogBuffers.StuckIff`).
- Recovery unpins blocks that were never pinned, so it leaves wrapped reference counts iff the header
  names a block, and runs out of buffers iff it names NBUF (`Bcache.Cache.RecoverReferences`). Reference
  counts are therefore proved from a boot that finds an empty log, and recovery at disk level.
- In `writei` n is unsigned, so the size update runs after a failed copy as well, and the part of a
  block that was copied stays in a buffer that is not logged (`Fs.FileSystem.Writei`, `Fs.UnloggedIff`).
- mkfs rounds the root size up by a whole block when the entries fill their last one. The image has a
  hole iff that is so (`Mkfs.HoleIff`), and reading it allocates (`Mkfs.ReadPastEntries`).
- mkfs does not bound the number of files. Inodes that the inode blocks have no room for are written over
  the bitmap and the data; the image holds the files iff there is none (`Mkfs.Build`, `Mkfs.TooManyFiles`).
- morecore passes a size_t to sbrk(int). Above 0x7fffffe0 bytes a malloc that survives writing the header
  returns a block of memory it did not get (`Umalloc.Heap.Malloc`, `Umalloc.HugeRequest`).
- `walkaddr` rounds sp up where the fault handler rounds it down (`LazyRun.SameLazyPages`).
- A shrink by more than sz is silently ignored (`LazyMachine.Machine.Growproc`).
- A writer killed on a full pipe returns without waking readers (`Pipe.LosesIff`, `Pipe.NeverLostIff`).
- init may sleep in `wait` beside a ZOMBIE it has adopted, and it is the only process that may
  (`ProcInit.MissesIffInit`).
- nlink is a short and wraps around (`DirTree.Tree.LinkBegin`, `DirTree.Tree.Create`).

## Model

| member | source | states |
|---|---|---|
| `LogTheorems.CrashAtAnyPoint` | kernel/log.c:126-234 | after any interleaving of calls, of the tests and the locked part of log_write, of getting and recycling the NBUF buffers and of commit writes, from a clean boot: a crash, any number of crashed recoveries and one finished recovery leave exactly the changes of a set of finished calls, no call in part and none missing that a finished commit covered. This is for nlog >= LOGSIZE, as in the image of mkfs, and for smaller nlog in runs whose appends find the tests still true; LogSpace.CrashSafeIff shows that the condition on nlog is exact |
| `LogTheorems.CommittedIsDurable` | kernel/log.c:192-202 | under the same condition, everything logged before a commit finished is in the recovered disk after every later run and crash; that commits finish is LogProgress.CommitFinishes |
| `LogProgress.CommitFinishes` | kernel/log.c:144-202 | every commit finishes: in a reachable state with a commit of a list that fits under way, no buffer held and one to spare, the rest of its block writes, twice the list and twice the header in all, and the section after them happen; then no commit runs, the list is empty, the header on disk is clear, every home block on disk holds what all changes of the run make of it, and a call can begin |
| `LogProgress.CommitGoesOn` | kernel/log.c:177-202 | each of these writes is possible and leaves the commit ready for the next one |
| `LogProgress.FinishedIsDurable` | kernel/log.c:144-202 | so the changes of a run up to a commit survive every later run and crash |
| `LogTheorems.ReachableStates` | kernel/log.c:125-174 | under the same condition, in every reachable state: while a commit runs no call is in progress; a logged block that is not yet installed is cached and cannot be recycled; logged blocks plus unspent budgets never exceed LOGSIZE |
| `LogTheorems.BreadIsCurrent` | kernel/bio.c:92-103 | under the same condition, in every reachable state bread gives the last change made to the block, whether that is on disk, in the log or only in the cache |
| `LogTheorems.PairedIsSerial` | kernel/log.c:213-234 | the condition for smaller nlog holds in runs in which each log_write gets the lock right after its tests |
| `LogSpace.CrashSafeIff` | kernel/log.c:213-234 | every run from a clean boot is crash safe iff the log area is the header alone, where every log_write panics, or nlog >= LOGSIZE, where a list that does not fit pins all NBUF buffers |
| `LogSpace.OverfullIff` | kernel/log.c:213-234 | some run starts to commit a list that does not fit the log area iff 2 <= nlog <= LOGSIZE: two calls can pass the unlocked tests when there is room for one block |
| `LogSpace.WritesBeyond` | kernel/log.c:177-190 | for 2 <= nlog < LOGSIZE a run is constructed in which write_log changes the block behind the log area, which no call changed |
| `LogSpace.MkfsLogIsSafe` | mkfs/mkfs.c:21-29 | the image of mkfs, with nlog = LOGSIZE, is crash safe in every run |
| `LogBuffers.StuckForever` | kernel/log.c:177-190 | a commit of NBUF blocks never writes: its first bread panics in bget, because every buffer is referenced, and whatever other processes do the disk and that fact stay |
| `LogBuffers.StuckRun` | kernel/log.c:125-202 | a run from boot that reaches such a commit is constructed for every nlog >= LOGSIZE - 1, by calls within their budgets |
| `LogBuffers.StuckIff` | kernel/log.c:213-234 | some run reaches such a commit iff nlog >= LOGSIZE - 1 |
| `LogBuffers.AtMostOneMore` | kernel/log.c:213-234 | the tests can be overtaken by at most two other calls: the list never exceeds nlog + 1 blocks |
| `LogSpace.ReservationSuffices` | kernel/log.c:125-141 | with nlog > LOGSIZE no call within MAXOPBLOCKS distinct blocks panics in log_write on a block that is not in the log yet, in any reachable state |
| `LogSpace.PanicsIffLogFull` | kernel/log.c:213-234 | with nlog > LOGSIZE, in every reachable state, a call within its budget panics iff the log holds LOGSIZE blocks, and then it is logging a block again that the log has |
| `LogSpace.SomeRunPanics` | kernel/log.c:213-221 | whatever nlog is, some run makes log_write panic for a call within its budget; the run is constructed |
| `LogSpace.PanicsIffLogTooSmall` | kernel/log.c:213-221 | the part that depends on nlog: some run makes log_write panic on a new block of a call within its budget iff nlog <= LOGSIZE (the image of mkfs has nlog = LOGSIZE) |
| `LogSafety.StepKeeps` | kernel/log.c:125-234 | with nlog >= LOGSIZE, or as long as the list fits the log area, every step keeps the invariant: reference counts are users plus pins, cached data is current, unpinned clean blocks are current on disk, and the disk is the last committed one plus the writes the running commit has made |
| `LogSafety.CommitFits` | kernel/log.c:177-202 | a commit writes only if its list fits the log area: a list of nlog = NBUF blocks leaves no buffer for the log |
| `LogSafety.AppendFits` | kernel/log.c:213-234 | with nlog > LOGSIZE no append overfills the log, although its tests may be stale: the reservation of begin_op is enough |
| `LogDisk.CommitAtomic` | kernel/log.c:177-202 | a crash after any prefix of the block writes of commit, then any crashes inside recovery and one recovery, gives all home blocks old or all new; old exactly before the header write |
| `LogDisk.CrashesDuringRecovery` | kernel/log.c:115-122 | any number of recoveries cut off at any block write change nothing about what a finished recovery gives |
| `LogDisk.RecoveryRestartable` | kernel/log.c:115-122 | a recovery cut off after any number of block writes leaves a disk with a valid header that recovers to the same disk |
| `LogDisk.CommitCompletes` | kernel/log.c:192-202 | the last disk of a commit is the recovery of its committed disk |
| `LogDisk.CommitTraceAt` | kernel/log.c:177-202 | element i of the list of disks a commit writes is the disk that the crash theorems use for a crash after i + 1 writes |
| `LogDevice.Log.Commit` | kernel/log.c:192-202 | the block writes of commit are exactly those of the crash theorems, in that order, and they leave an empty log and the installed disk; with nothing logged it writes nothing |
| `LogDevice.Log.RecoverFromLog` | kernel/log.c:115-122 | the writes of recovery are exactly those of the crash theorems and end in the recovered disk |
| `LogDevice.Log.WriteLog` | kernel/log.c:177-190 | copies every logged block to its log slot without changing the cached blocks |
| `LogDevice.Log.WriteHead` | kernel/log.c:101-113 | rewrites the header block in place, stale entries included, and touches no other block |
| `LogDevice.Log.ReadHead` | kernel/log.c:85-96 | the list in memory is the one the header on disk names |
| `LogDevice.Log.InstallTrans` | kernel/log.c:68-82 | the loop over log slots equals the recursive install, and every installed block is in the cache as it is on disk |
| `LogDevice.Log.LogTest` | kernel/log.c:218-221 | the tests before the lock: panics iff the log is full or no call is outstanding, even for a block that would be absorbed |
| `LogDevice.Log.LogAppend` | kernel/log.c:223-233 | the part under the lock absorbs the block or appends it, without a test |
| `LogDevice.Log.LogWrite` | kernel/log.c:213-234 | with any blocks appended by other CPUs between the two parts: the panic depends on the list before, the append is to the list after |
| `LogDevice.AbsorbedOnce` | kernel/log.c:223-233 | whatever is appended in whatever order, each block is in the list once and no entry moves |
| `Bcache.Cache.constructor` | kernel/bio.c:36-53 | binit makes a doubly linked ring of all NBUF buffers |
| `Bcache.Cache.PushFront` | kernel/bio.c:130-133 | the four pointer writes insert at the front of the ring and nowhere else |
| `Bcache.Cache.Unlink` | kernel/bio.c:128-129 | the two pointer writes remove exactly that buffer from the ring |
| `Bcache.Cache.Find` | kernel/bio.c:66-73 | walking next from the head finds the buffer of the block iff there is one |
| `Bcache.Cache.FindVictim` | kernel/bio.c:77-88 | walking prev from the head gives, among the unused buffers, the one released to zero longest ago, and the head iff every buffer is in use |
| `Bcache.Cache.Bget` | kernel/bio.c:58-89 | at most one buffer per block is kept; panics iff the block is not cached and every buffer is in use; a recycled buffer is the least recently released unused one |
| `Bcache.Cache.Brelse` | kernel/bio.c:116-137 | the ring stays a permutation of all buffers; the last release makes the buffer the most recent one |
| `Bcache.MovedToFront` | kernel/bio.c:126-134 | moving a buffer to the front loses no buffer |
| `Bcache.Cache.GetBlock` | kernel/bio.c:58-89 | in terms of counts by block: panics iff NBUF other blocks are in use; else the count of the block goes up by one and no other changes |
| `Bcache.Cache.InstallRound` | kernel/log.c:73-81 | one round of install_trans, with the log block held at the same time: it panics iff too few buffers are unused, and else the count of the home block ends one lower, wrapping below zero, and all others are as before |
| `Bcache.Cache.PinAndInstall` | kernel/log.c:225-231 | installing a block undoes exactly the pin of log_write |
| `Bcache.Cache.RecoverReferences` | kernel/log.c:115-122 | recovery of n distinct home blocks with a cache that nobody references: it reaches "bget: no buffers" iff n >= NBUF; else exactly those n blocks are left with count 2^32 - 1 and all others with 0, so the counts are right iff n = 0 |
| `Bcache.RecoveredBlockUnprotected` | kernel/log.c:115-122 | after that, the next user of any recovered block holds a buffer whose count is zero |
| `PageTable.MakePteInverse` | kernel/riscv.h:334-339 | PTE2PA inverts PA2PTE under any flag bits, and the flags come back with the valid bit |
| `PageTable.DistinctSlots` | kernel/vm.c:73-91 | two pages below MAXVA with the same entry address are the same page |
| `PageTable.TreeFrame` | kernel/vm.c:73-91 | a page table depends on the contents of its own table pages only |
| `PageTable.SetLeaf` | kernel/vm.c:73-91 | writing one leaf entry in its table page changes the flat map at that page and nowhere else |
| `PageTable.AddTable1` | kernel/vm.c:80-88 | a zeroed page hung into the root is an empty level-1 table; no mapping changes |
| `PageTable.AddTable0` | kernel/vm.c:80-88 | a zeroed page hung into a level-1 table is an empty level-0 table; no mapping changes |
| `Vm.Kernel.Kalloc` | kernel/kalloc.c:68-82 | pops the head of the list threaded through the pages, or fails iff the list is empty |
| `Vm.Kernel.Kfree` | kernel/kalloc.c:46-63 | pushes the page; only that page changes |
| `Vm.Kernel.KfreeAddress` | kernel/kalloc.c:46-63 | panics iff the address is not page-aligned or not between end and PHYSTOP |
| `Vm.Kernel.FreeRange` | kernel/kalloc.c:33-40 | exactly the pages that lie in the byte range whole become free; it panics iff one of them is not a page of the allocator |
| `Vm.Kernel.Walk` | kernel/vm.c:73-91 | returns the table page that holds the entry; without alloc it changes nothing and is 0 iff there is no table; with alloc it takes at most two pages, for tables only, and fails only when no page is free and at most one was |
| `Vm.Kernel.Mappages` | kernel/vm.c:165-185 | maps exactly the named pages; on failure or remap exactly the first k of them, and tells which; it takes at most two pages for each, and fails for want of memory only if there was less |
| `Vm.Kernel.Uvmunmap` | kernel/vm.c:190-212 | unmaps exactly the named range, skips unmapped pages, and frees exactly its frames if asked |
| `Vm.Kernel.Uvmdealloc` | kernel/vm.c:275-287 | shrinking unmaps and frees exactly the pages between the rounded sizes |
| `Vm.Kernel.MapZeroPage` | kernel/trap.c:78-89 | either the page gets its own zeroed frame, or no mapping changes and the frame is back on the list; it takes at most three pages and never fails if three are free |
| `UserVm.Uvmalloc` | kernel/vm.c:245-269 | grows by zeroed pages the process alone owns, or changes no mapping and gives every frame back; it never fails if three pages are free for each new one |
| `UserVm.Uvmcopy` | kernel/vm.c:325-353 | the copy has the same mapped pages, contents and flags on frames of its own; after a failure at any page no mapping of the child is left and every frame is back; the parent is untouched; it never fails if three pages are free for each mapped one |
| `UserVm.CopyPage` | kernel/vm.c:333-346 | one page of the copy, or nothing |
| `FreeWalk.Freewalk` | kernel/vm.c:291-307 | frees exactly the table pages below an entry, each once, and never meets a leaf |
| `ProcVm.Uvmcreate` | kernel/vm.c:216-225 | a zeroed root page is a tree with no mapping |
| `ProcVm.Uvmfree` | kernel/vm.c:311-317 | every table page and every frame below sz is free again; freewalk does not panic |
| `ProcVm.ProcPagetable` | kernel/proc.c:157-186 | maps the trampoline and the trapframe, or gives every page back, which it does only if less than five were free |
| `ProcVm.ProcFreepagetable` | kernel/proc.c:190-196 | gives back exactly the tables and user frames of the process; the leaf panic of freewalk is not reached |
| `ProcVm.AllocProc` | kernel/proc.c:92-131 | a trapframe page and a page table, or no page at all, and that only if less than six were free |
| `LazyRun.Run` | kernel/sysproc.c:41-60 | every sequence of spawn, sbrk, loads, stores, copyin, copyout, fork and free has outcomes that eager zero-filled memory allows: every word read is the one last stored there; a page that was touched and not given up is never refused; a load or store of any other is refused if its address is not below sz or its page is below that of sp, and else only if less than three pages are free; a copy stops only at a page that does not start in [sp, sz), or with less than three free pages for each of its pages; fork and spawn are refused only below a bound on the free pages; afterwards every word below sz is the one last stored there, and every page has exactly one owner |
| `LazyRun.Step` | kernel/sysproc.c:41-60 | one command has such an outcome, histories, touched pages and free pages change as that says, and an outcome for want of memory leaves at most one page free |
| `LazyRun.StoredIsServed` | kernel/trap.c:70-92 | after a store to a page no load or store of it is refused, over any commands that do not free or shrink the process |
| `LazyRun.UntouchedAccess` | kernel/trap.c:70-92 | in every outcome, a load or store of an untouched page is served with three free pages if its address is below sz and its page is not below that of sp, and always refused otherwise |
| `LazyRun.SamePageSameFate` | kernel/trap.c:70-92 | two addresses below sz in the same page have the same fate |
| `LazyRun.AmpleMemory` | kernel/trap.c:70-92 | over a whole run of loads, stores, sbrk and free, none is refused for want of memory if three pages are free for each command |
| `LazyRun.TouchedStays` | kernel/sysproc.c:41-60 | a touched page stays touched until the process is freed or shrinks |
| `LazyMachine.ReplayIsLastStored` | kernel/sysproc.c:41-60 | the eager zero-filled memory, replayed from stores and resizes, is at every word the last store since the page left the address space, else zero |
| `LazyMachine.OneOwner` | kernel/kalloc.c:33-82 | a page is on the free list iff no process has it, and no two processes have it |
| `LazyRun.SameLazyPages` | kernel/vm.c:96-129 | system calls are refused the same untouched pages as user code if and only if sp is page-aligned, the stack page is not below sz, or it is touched |
| `LazyMachine.Machine.Sbrk` | kernel/sysproc.c:41-60 | growing takes no page and shows zeroes; shrinking frees exactly the pages above the new size and keeps every word below |
| `LazyMachine.Machine.Growproc` | kernel/proc.c:238-254 | a shrink by more than sz changes nothing (unsigned arithmetic) |
| `LazyMachine.Machine.PageFault` | kernel/trap.c:70-92 | kills the process if the address is not below sz or its page is below that of sp; else only with less than three free pages, and then at most one is left; reaches the remap panic iff the page is mapped and a page was free; otherwise no process sees a change of memory |
| `LazyMachine.Machine.Load` | kernel/trap.c:70-92 | an access that does not kill gives the word last stored there; a page with a frame never kills; one without kills if the address is not below sz or the page is below that of sp, and else never with three free pages |
| `LazyMachine.Machine.Store` | kernel/trap.c:70-92 | a store that does not kill changes that word of that process only; it kills for the same reasons as a load |
| `LazyMachine.Machine.Walkaddr` | kernel/vm.c:96-129 | the frame of the page, with a new zeroed one exactly where its test allows; 0 only for its reasons; no process sees a change |
| `LazyMachine.Machine.Copyout` | kernel/vm.c:371-391 | stores the words in order: all of them if it succeeds, else exactly those before the first page it cannot reach; for want of memory only with less than three free pages for each page up to there |
| `LazyMachine.Machine.Copyin` | kernel/vm.c:396-416 | each word read is the one last stored there, across page boundaries; it stops for the same reasons |
| `LazyMachine.Machine.Fork` | kernel/proc.c:258-301 | the child starts with the view of the parent on pages of its own; a failure anywhere gives every page back, and needs less than six free pages plus three for each page of the parent that has a frame |
| `LazyMachine.Machine.Free` | kernel/proc.c:136-153 | exactly the pages of the process return to the free list |
| `LazyMachine.Machine.Spawn` | kernel/proc.c:92-131 | a process with no memory, or nothing taken, and that only if less than six pages were free |
| `FsMap.OwnedOnce` | kernel/fs.c:377-405 | no block is in two slots, of one inode or of two, direct or indirect |
| `FsMap.AllocKeeps` | kernel/fs.c:64-86 | an allocated block was owned by nobody, is zeroed, and no file changes |
| `FsMap.DirectGain` | kernel/fs.c:383-387 | a fresh block in an empty inode slot keeps single ownership and every byte of every file |
| `FsMap.IndirectGain` | kernel/fs.c:390-402 | a fresh block in an empty entry of the indirect block does the same |
| `FsMap.DataWrite` | kernel/fs.c:494-504 | writing a data block changes the bytes of that block of that file and no other byte of any file |
| `FsCost.ChunkFitsTransaction` | kernel/file.c:149-167 | one chunk of filewrite logs at most MAXOPBLOCKS blocks on a file system of any size, if the file has no holes |
| `FsCost.ChunkLogsSeven` | kernel/file.c:149-167 | with one bitmap block a chunk logs at most seven blocks, holes or not |
| `FsTrunc.FreedMore` | kernel/fs.c:416-433 | the block of the next slot is still marked when itrunc reaches it, and clearing its bit frees it alone |
| `FsTrunc.Truncated` | kernel/fs.c:409-437 | after truncation single ownership holds and every other file has its bytes |
| `Fs.FileSystem.Balloc` | kernel/fs.c:64-86 | the lowest free block, marked and zeroed; the panic iff every bit is set |
| `Fs.FileSystem.Bfree` | kernel/fs.c:89-103 | clears one bit; the panic iff it was clear |
| `Fs.FileSystem.Bmap` | kernel/fs.c:377-405 | the direct address, or the word of the indirect block, allocated only if it was empty; no byte of any file changes; fails only on a full disk |
| `Fs.FileSystem.Itrunc` | kernel/fs.c:409-437 | never reaches the panic of bfree; afterwards a block is marked iff it was and no slot of this file held it, size and all addresses are 0, other files have their bytes; logs every block it changes and only bitmap blocks and the inode block |
| `Fs.FileSystem.FreeIndirect` | kernel/fs.c:423-433 | the blocks named in the indirect block, then the block itself, each freed once |
| `Fs.FileSystem.Readi` | kernel/fs.c:455-477 | returns the bytes at the offset, as many as asked and as are left before the end of the file, and none beyond it or if offset plus count wraps around; fails only if they do not fit the buffer; a read that succeeds leaves disk, inodes and log alone iff every block it touches has an address |
| `Fs.FileSystem.WriteThenRead` | kernel/fs.c:455-516 | what a write has put at an offset, a read there gives back: exactly, if as many bytes are read, and else as the first bytes; the read does not fail |
| `Fs.FileSystem.Writei` | kernel/fs.c:483-516 | rejects iff the offset or the wrapped end is out of range; splices the data at the offset and sets size to the larger of old size and end; every block it changes is logged, except the one at which a copy fails; a failed copy still updates the size, and how many bytes reached the file and how many of them are in logged blocks is exact; other files are unchanged |
| `Fs.FileSystem.WriteBlocks` | kernel/fs.c:494-504 | the loop of writei, with the same facts |
| `Fs.UnloggedIff` | kernel/fs.c:497-501 | a failed copy leaves bytes in an unlogged buffer iff it copied something of a block it did not finish |
| `Fs.SomeBytesUnlogged` | kernel/fs.c:497-501 | such a copy: five of ten bytes at the start of a file reach the buffer, and none is logged |
| `Fs.FileSystem.WriteChunk` | kernel/fs.c:494-504 | one block of a write, direct or indirect, allocated on demand |
| `Fs.FileSystem.WriteOp` | kernel/file.c:162-167 | one transaction of filewrite logs every block it changes, unless the copy fails, and stays within the log budget |
| `Fs.FileSystem.Filewrite` | kernel/file.c:148-175 | the write is cut into exactly the transactions its length needs, which follow one another, each within its budget and with every changed block logged; together they are one write of n bytes at the old offset; returns n iff the whole range is readable and fits; "short filewrite" is not reached |
| `Mkfs.Build` | mkfs/mkfs.c:67-176 | if all inodes fit the inode blocks: building succeeds iff no file is too long and there are blocks enough, by an exact count, and then the image satisfies the file-system invariant and holds exactly the given files and root entries. In any case, when it succeeds, the image holds the files in the inodes as they are on disk iff the number of files plus one is below 16 times the number of inode blocks |
| `Mkfs.BitmapIsNoInode` | mkfs/mkfs.c:245-259 | the first inode behind the inode blocks lies in the bitmap block, which is written last and makes its type that of no file |
| `Mkfs.TooManyFiles` | mkfs/mkfs.c:231-243 | with 207 empty files, whatever the rest of the disk, the image of FSSIZE blocks does not hold them |
| `Mkfs.Builder.Iappend` | mkfs/mkfs.c:263-305 | appends the bytes across direct and indirect blocks, stores the inode and changes no other file; it fails iff the file gets too long or too few blocks are left, and takes exactly the blocks the new size needs more |
| `MkfsFiles.MissingCount` | mkfs/mkfs.c:275-293 | the blocks that the next piece of a file is missing are those its new size needs more, the indirect block included |
| `Mkfs.Builder.WriteBitmap` | mkfs/mkfs.c:245-259 | the bitmap written at the end marks exactly the blocks handed out |
| `Mkfs.Builder.Ialloc` | mkfs/mkfs.c:231-243 | the next inode, empty, goes to its place in the table, and no other inode or file changes |
| `MkfsTable.WithInodeAt` | mkfs/mkfs.c:191-216 | winode changes the inode it writes and no other, and rinode reads it back |
| `Mkfs.Builder.Finish` | mkfs/mkfs.c:166-173 | rounding up the root size keeps every entry, and leaves a hole, at the block after the entries, iff they fill whole blocks |
| `Mkfs.HoleIff` | mkfs/mkfs.c:166-173 | the image has a hole iff the number of its files plus two is a multiple of 64 |
| `Mkfs.RootReads` | kernel/fs.c:455-477 | a read of the root directory of the image finds all its blocks iff the entries do not fill whole blocks or it ends with them |
| `Mkfs.ReadPastEntries` | kernel/fs.c:455-477 | so reading the entry after entries that fill whole blocks allocates a block outside any transaction, or panics |
| `Mkfs.SixtyTwoFiles` | mkfs/mkfs.c:67-176 | such an image exists with the layout of mkfs: 62 empty files |
| `MkfsFiles.NextBlock` | mkfs/mkfs.c:279-294 | taking the block counter is an allocation in the sense of the kernel |
| `DirRun.Run` | kernel/sysfile.c:119-284 | over any interleaving of the stretches of any number of link, unlink, create, mkdir and iput calls: bindings, link counts, references and numbers of slots are what the same steps make of directories that are finite maps; every name but "." and ".." is that of an allocated inode with at least as many links as names; "." is the directory, ".." of a directory named in d is d, and the root stays its own parent; the only panic is that of dirlink, exactly when a new name goes into a directory whose MAXFILE blocks are full of names |
| `DirRun.Step` | kernel/sysfile.c:119-284 | each stretch of the code is the step on finite maps, and panics exactly where that says so |
| `DirRun.EmptyIffFewer` | kernel/fs.c:566-573 | dirlink finds an empty slot iff the directory has fewer names than slots |
| `DirRun.RefusesIff` | kernel/sysfile.c:203-216 | unlink refuses exactly ".", "..", unbound names and directories with a name besides those two |
| `DirLinks.EmptyIff` | kernel/sysfile.c:169-182 | no entry after the first two is the same as no name besides "." and ".." |
| `DirLinks.DotsByNames` | kernel/sysfile.c:270-276 | "." of a directory is the directory, ".." of a directory that is named in d is d, and ".." of the root is the root |
| `DirLinks.DotsAfterEnter` | kernel/sysfile.c:270-279 | entering a name keeps that, if the ".." of a new directory holds the directory it is entered into |
| `DirTree.NlinkCoversNames` | kernel/fs.c:332-358 | nlink is at least the number of names, so nlink = 0 means no name is left |
| `DirTree.Tree.Iput` | kernel/fs.c:332-358 | frees the inode iff it is the last reference, valid and without links, and then no entry names it |
| `DirTree.Tree.Iget` | kernel/fs.c:242-273 | one reference more |
| `DirTree.Tree.LinkBegin` | kernel/sysfile.c:134-143 | refuses directories, else raises nlink before the name exists; the counts stay right iff the short does not wrap around |
| `DirTree.Tree.LinkEnd` | kernel/sysfile.c:145-165 | binds exactly the new name, or takes the link back iff the name was bound; panics in dirlink iff it was not and the directory is full |
| `DirTree.Tree.Create` | kernel/sysfile.c:241-284 | gives the existing inode iff the name is bound; else a new one under exactly that name, with exactly "." and ".." in a directory; the counts stay right iff the link count of the parent does not wrap around; it panics iff the name is not bound and the directory is full |
| `DirTree.Tree.Isdirempty` | kernel/sysfile.c:169-182 | true iff no entry after the first two is in use |
| `DirTree.Tree.UnlinkEntry` | kernel/sysfile.c:201-225 | refuses exactly ".", "..", unbound names and directories that are not empty; else removes exactly that binding; "unlink: nlink < 1" is not reached |
| `DirTree.Tree.UnlinkEnd` | kernel/sysfile.c:227-229 | the link of the removed name goes, after the name |
| `DirTree.RootAlone` | mkfs/mkfs.c:118-129 | a root directory with its two entries has right link counts, and right entries if both hold the root |
| `DirLinks.NamedIsAllocated` | kernel/fs.c:332-358 | an ordinary entry names an allocated inode with a link |
| `DirLinks.FreeOk` | kernel/fs.c:337-354 | freeing an inode without links leaves every count right |
| `DirLinks.EnterOk` | kernel/sysfile.c:147-153 | a link counted ahead of its name becomes a name |
| `DirLinks.LeaveOk` | kernel/sysfile.c:218-225 | a removed name leaves its link to be taken back |
| `DirNames.SameName` | kernel/fs.c:520-524 | namecmp finds two fields equal iff they hold the same name, whatever follows the NUL |
| `DirNames.CopiedName` | kernel/fs.c:576-577 | the field dirlink stores holds the name it was given |
| `DirNames.PutBinds` | kernel/fs.c:555-582 | a new entry for an unbound name adds that binding, keeps names unique and changes no other binding |
| `DirNames.ClearBinds` | kernel/sysfile.c:218-220 | a cleared entry removes its binding and no other |
| `DirNames.Dirlookup` | kernel/fs.c:528-552 | finds the slot of the name iff the name is bound |
| `DirNames.Dirlink` | kernel/fs.c:555-582 | fails iff the name is bound, panics iff it is not and all of MAXFILE blocks hold entries; else as a finite map it gains exactly that binding, in the first empty slot or behind the last |
| `DirPath.ElementsArePieces` | kernel/fs.c:584-621 | what repeated skipelem yields is the non-empty pieces between slashes, cut to DIRSIZ |
| `DirPath.Skipelem` | kernel/fs.c:598-621 | the next element and the rest of the path; old contents of the name field do not matter |
| `DirPath.Namex` | kernel/fs.c:627-660 | gives inode n iff there is a chain of inodes from the root or the current directory to n, each but the last an allocated directory in which the next non-empty piece of the path is bound to the next one; panics iff such a chain for fewer pieces ends in an inode that is not allocated; with nameiparent the chain is for all pieces but the last and ends in a directory, and the last piece is given |
| `DirPath.FollowIsReach` | kernel/fs.c:627-660 | following the pieces one by one gives n iff there is such a chain to n |
| `ProcTheorems.NoMissedExit` | kernel/proc.c:305-447 | in no reachable state does a process other than init sleep in wait while a child of it is a ZOMBIE, over all interleavings of fork, exit, reparent, wait, kill, sleep, wakeup and yield on any number of CPUs, with preemption wherever a thread holds no lock |
| `ProcInit.MissesIffInit` | kernel/proc.c:305-447 | from every boot with at least four process slots and a CPU, a run that ends with process p asleep in wait beside a ZOMBIE of its own exists iff p is init |
| `ProcInit.InitMissesZombie` | kernel/proc.c:349-361 | the run for init, which ends with no thread in exit left to wake it |
| `ProcInit.WideRun` | kernel/proc.c:305-447 | a run of a small machine is one of every machine with more processes and CPUs, up to the length of its scans |
| `ProcTheorems.OneCpu` | kernel/proc.c:456-519 | in every reachable state a process is current on at most one CPU, and is RUNNING or its lock is held by that CPU |
| `ProcTheorems.FreedIsStopped` | kernel/proc.c:418-432 | when wait frees a child, no CPU runs it and its thread is in its last swtch; then the slot is UNUSED, without a parent, not killed and unlocked, the parent is back in user space without its lock, and no other process has changed |
| `ProcLife.ReapedOnce` | kernel/proc.c:305-447 | each death is reaped at most once: between two times in a run that wait finds slot q a ZOMBIE, allocproc takes q and then its process exits |
| `ProcLife.DeadUntilReaped` | kernel/proc.c:305-447 | between two exits of slot q wait frees it |
| `ProcLife.RunExecutes` | kernel/proc.c:258-637 | the runs of these theorems, with their states, are executions from the boot as in the others |
| `ProcLife.StepLife` | kernel/proc.c:258-637 | only exit makes a ZOMBIE, only wait ends one, and only a fork under way fills a slot |
| `ProcLife.WaitGivesUpIff` | kernel/proc.c:438-445 | in every reachable state, at the end of a scan that freed nothing, wait in a process other than init gives up iff the process is killed or has no children, and else sleeps |
| `ProcLife.ParentLives` | kernel/proc.c:305-320 | in every reachable state the parent of a process is neither UNUSED nor a ZOMBIE |
| `ProcLife.ForkMakesChild` | kernel/proc.c:258-301 | in every reachable state with a free slot, the steps of fork follow one another and leave a RUNNABLE child of the caller, unlocked, and every other process as it was |
| `ProcLife.KilledStays` | kernel/proc.c:618-637 | kill leaves its victim awake, and killed until its slot is emptied |
| `ProcTheorems.SchedChecks` | kernel/proc.c:501-519 | whenever sched is entered the CPU holds the lock of its process and no other, and the process is not RUNNING |
| `ProcTheorems.NoDoubleAcquire` | kernel/spinlock.c:21-82 | no process step acquires a lock its own CPU holds |
| `ProcTheorems.StepKeeps` | kernel/proc.c:258-637 | every step keeps the invariant on CPUs, locks, parents, waiting parents and exiting children |
| `Pipe.Run` | kernel/pipe.c:58-127 | the code does, for any sequence of commands, exactly the steps of the pipe as two byte sequences and two sets of sleepers; over the run, what was stored is the slices the writes stored, in command order, and what was taken is what the reads gave, as long as no copy out fails, and a prefix of it |
| `Pipe.NextOk` | kernel/pipe.c:58-127 | every step keeps: what came out is a prefix of what went in; a sleeping writer means a full pipe with a read end |
| `Pipe.LosesIff` | kernel/pipe.c:84-92 | a step leaves a sleeping reader beside bytes iff it is a write by a killed process that has more bytes than fit and can read those that do |
| `Pipe.NeverLostIff` | kernel/pipe.c:76-127 | over a whole run a sleeping reader always sees an empty pipe iff no command is such a write when its turn comes |
| `Pipe.NoneKilled` | kernel/pipe.c:76-127 | so it does, with the write end open, if no killed process writes |
| `Pipe.Wrapped` | kernel/pipe.c:76-127 | full and empty are told apart by the 32-bit counters through wrap-around |
| `Pipe.Pipe.constructor` | kernel/pipe.c:22-56 | an empty pipe open at both ends |
| `Pipe.Pipe.Pipewrite` | kernel/pipe.c:76-100 | the bytes stored are exactly those of the source from where the call starts or resumes to the index in the result; it returns them all, or those that can be read, or stops on a full pipe, asleep iff there is a read end and the process is not killed; a sleeping reader is left beside new bytes iff one slept, the caller is killed, and more bytes are left than fit while those that fit can be read |
| `Pipe.Pipe.Piperead` | kernel/pipe.c:102-127 | gives exactly the next stored bytes, as many as asked, stored and copied out, and takes one more if the copy fails; sleeps or gives up iff the pipe is empty with a write end |
| `Pipe.Pipe.Pipeclose` | kernel/pipe.c:58-74 | wakes the other side; frees the pipe iff both ends are closed, and then nobody sleeps on it |
| `Pipe.Pipe.Kill` | kernel/proc.c:618-637 | a killed sleeper wakes and the sleep conditions of the others still hold |
| `Pipe.ReaderLeftAsleep` | kernel/pipe.c:84-92 | the smallest case of that, as a run |
| `VirtioDisk.Run` | kernel/virtio_disk.c:116-270 | over every interleaving of driver, device and single steps of the interrupt loop: the requests, posts and completions are what the commands make of them, at most two requests are in the table, a descriptor is free iff it is in no chain, and no panic of free_desc is reached |
| `VirtioDisk.Step` | kernel/virtio_disk.c:116-270 | one command; the index tests of driver and device are right through wrap-around |
| `VirtioDisk.RequestServed` | kernel/virtio_disk.c:168-270 | when driver and device have nothing left to do, a request that is posted goes through the steps of device, interrupt and waiter, and the table is then what it was |
| `Virtio.TwoAtMost` | kernel/virtio_disk.c:154-166 | three disjoint chains of three do not fit into NUM descriptors |
| `Virtio.FreeIffUnused` | kernel/virtio_disk.c:116-152 | the free flags are the complement of the chains |
| `Virtio.PendingTest` | kernel/virtio_disk.c:256-257 | the comparison modulo NUM is true iff a completion is pending, through 16-bit wrap-around |
| `Virtio.RingPush` | kernel/virtio_disk.c:234-236 | a new ring entry overwrites no entry that still waits |
| `VirtioDisk.Disk.constructor` | kernel/virtio_disk.c:49-113 | all descriptors free, rings empty |
| `VirtioDisk.Disk.AllocDesc` | kernel/virtio_disk.c:116-126 | the first free descriptor, or -1 iff there is none |
| `VirtioDisk.Disk.FreeDesc` | kernel/virtio_disk.c:129-139 | panics iff out of range or free already |
| `VirtioDisk.Disk.Alloc3Desc` | kernel/virtio_disk.c:154-166 | three different free descriptors, or all flags as they were |
| `VirtioDisk.Disk.Post` | kernel/virtio_disk.c:168-238 | succeeds iff fewer than two requests are in the table; then the request has a chain of its own and is in the avail ring once; otherwise nothing changed |
| `VirtioDisk.Disk.DeviceTake` | kernel/virtio_disk.c:230-238 | the device reads the oldest posted chain, in posting order |
| `VirtioDisk.Disk.DeviceComplete` | kernel/virtio_disk.c:251-257 | completions in any order never overwrite one not yet seen |
| `VirtioDisk.Disk.Intr` | kernel/virtio_disk.c:251-270 | finishes exactly the requests on the used ring, once each, and no other |
| `VirtioDisk.Disk.Finish` | kernel/virtio_disk.c:240-249 | a waiter whose buffer is done frees its chain; free_desc does not panic |
| `VirtioDisk.Disk.FreeChain` | kernel/virtio_disk.c:142-152 | frees exactly the three linked descriptors |
| `Umalloc.Run` | user/umalloc.c:24-90 | over every sequence of calls, with sbrk failing or not, up to one whose request or break is beyond the ints: the blocks in use are those returned and not freed since, each met no other when it was returned, malloc succeeds whenever sbrk would, and every unit that sbrk gave is in exactly one block; if no request is above 0x7fffffe0 bytes and the heap stays below 2^31, all calls are made |
| `Umalloc.OneHome` | user/umalloc.c:24-90 | a unit obtained from sbrk is in exactly one free block or one block in use |
| `Umalloc.Heap.FindPlace` | user/umalloc.c:29-32 | the search loop ends, at the one place in the ring where the block belongs |
| `Umalloc.Heap.Free` | user/umalloc.c:24-44 | the list stays circular, address-ordered and coalesced, and the free units grow by exactly the block |
| `Umalloc.Heap.Morecore` | user/umalloc.c:46-61 | the free list gains the units of the request, while sbrk gives what its argument, cut to an int, asks for; the process is killed iff that is not positive and the header falls into a page without a frame |
| `Umalloc.Heap.Malloc` | user/umalloc.c:63-90 | null iff every free block is smaller than the units needed, which are the least that hold the request and a header, and sbrk fails; else a block of that size that was not in use. When it had to ask for more and returns, the blocks are made of exactly the units that sbrk gave iff the request is at most 0x7fffffe0 bytes; only a larger one can kill the process, iff the argument of sbrk is cut to zero or less and the header falls into a page without a frame. A break of 2^31 or more, which sbrk returns as a different address, ends the model of the call |
| `Umalloc.HugeRequest` | user/umalloc.c:46-61 | malloc(0xffffffff) on a fresh heap: sbrk gives one unit, the block has 2^28 + 1, and the break is left inside it |
| `Umalloc.Heap.Search` | user/umalloc.c:74-89 | one round of the ring finds a fitting block or shows there is none |
| `Umalloc.Heap.Take` | user/umalloc.c:75-85 | cuts the block from the tail of a free one, or unlinks it |
| `HeapList.FreedOk` | user/umalloc.c:30-42 | insertion with both joins keeps order and leaves no two adjacent blocks |
| `HeapList.CutOk` | user/umalloc.c:76-82 | cutting keeps order and coalescing, and the cut block meets no free block |
| `HeapRing.UpRing` | user/umalloc.c:33-37 | the join with the next block writes the ring of the merged list |
| `HeapRing.DownRing` | user/umalloc.c:38-42 | the join with the previous block does too |
| `ShellText.TextRoundTrip` | user/sh.c:265-446 | printing any tree the parser can build and parsing the text gives the tree back |
| `ShellText.ParsePrintParse` | user/sh.c:327-342 | every line that parses gives a tree whose printed form parses to the same tree |
| `ShellRoundTrip.TokenRoundTrip` | user/sh.c:344-446 | the same at token level, for every tree with fewer than MAXARGS words in a command |
| `ShellLex.LexText` | user/sh.c:265-308 | reading the text of a token list gives the list |
| `ShellLex.LineKeepsText` | user/sh.c:265-308 | the tokens of any line are words and symbols, and their texts in order are the characters of the line that are no blanks |
| `ShellParser.Parser.Gettoken` | user/sh.c:265-308 | returns the next token with its exact span and leaves the rest; 0 iff none is left |
| `ShellParser.Parser.Peek` | user/sh.c:310-320 | tests the next character after blanks and consumes no token |
| `ShellParser.Parser.ParseRedirs` | user/sh.c:374-397 | agrees with the grammar on redirections, panic included |
| `ShellParser.Parser.ParseExec` | user/sh.c:399-446 | agrees with the grammar on blocks and simple commands, "too many args" and syntax panics included |
| `ShellParser.Parser.ParsePipe` | user/sh.c:361-372 | agrees with the grammar on pipes |
| `ShellParser.Parser.ParseLine` | user/sh.c:344-359 | agrees with the grammar on background commands and lists |
| `ShellParser.Parser.ParseCmd` | user/sh.c:327-342 | ends on every line, either in a panic exactly when the grammar rejects it, or having consumed all of it with the tree of its tokens |
| `ShellNul.Line.Nulterminate` | user/sh.c:449-493 | writes NUL at the ends of the words of the tree and nowhere else |
| `ShellNul.WordIsToken` | user/sh.c:449-493 | after that every argument and file name is, as a C string, exactly its token |
| `ShellNul.Parsecmd` | user/sh.c:327-342 | both together, for every line |

## Left out

- Assembly, boot, traps other than page faults, CSRs, interrupt controllers: hardware.
- uart, console, printf, ramdisk: registers and formatting; the console ring repeats the pipe argument.
- exec, system-call argument fetching, the file-descriptor and file tables, file types other than inodes and pipes: marshalling and plain counters.
- Sleep locks, ilock and the slots of the inode cache: an operation on an inode is one stretch under its lock, and `ref` is kept per inode number.
- Deadlock, fairness, and liveness other than that of a commit; weak memory: locks are sequentially consistent and single-block disk writes atomic.
- copyinstr, uvmclear, uvminit, the kernel page table, TLB flushes, pids, exit status and trapframe contents.
- Running of parsed commands by the shell.
- The bytes of the superblock and of directory entries in the image, and of inode blocks outside mkfs; `DirTree` works on entry lists, `Fs` on inodes as records.
- LogSpace.CrashSafeIff: once a list has outgrown the log area a commit is followed to the end of write_log; the block behind the area exists on the disk.
- LogTheorems.CrashAtAnyPoint: runs start from a boot that finds an empty log; one that finds a committed transaction is covered at disk level by LogDisk.CrashesDuringRecovery, because recovery's unpinning breaks the counts.
- LogProgress.CommitFinishes: the steps of the commit follow one another; a process that takes a buffer meanwhile may make it wait.
- LogTheorems.BreadIsCurrent: callers change only buffers they hold and log a change before they release the buffer, as the comments of bio.c and log.c demand.
- LazyRun.Run: sizes are below 2^31, because growproc keeps sz in a uint, and user memory is accessed in aligned 8-byte words; commands outside that are skipped. How many tables a command takes is bounded, not computed.
- LazyMachine.Machine.Walkaddr: the page table is that of the current process, the only one the code maps into.
- LazyMachine.Machine.Copyout: whole aligned words, not single bytes.
- LazyMachine.Machine.Copyin: whole aligned words, not single bytes.
- Fs.FileSystem.Filewrite: no other write to the file between two chunks of one call.
- FsCost.ChunkFitsTransaction: files without holes; mkfs and the write path make none, except for a root directory whose entries fill whole blocks.
- Mkfs.Builder.Ialloc: the inode fits the inode blocks; what happens to the image otherwise is in Mkfs.Build.
- Mkfs.Build: a root directory of exactly MAXFILE blocks counts as a stop, where the source sets a size beyond it. The files whose inodes do not fit the inode blocks are not followed: the disk and the counter they leave are arbitrary.
- DirRun.Run: steps that would wrap nlink around are skipped; "." and ".." are not counted as names, because a removed directory still in use keeps a ".." that may name a freed inode.
- DirTree.Tree.Create: the inode number is any free one, because others may free lower ones while ialloc scans; running out of inodes, or of blocks for entries, is not modelled.
- Pipe.Pipe.Pipeclose: the read end is closed only when no process sleeps in a read of it, which holds because the sleeper has the file open.
- Umalloc.Heap.Malloc: the break is a multiple of the header size and never below what malloc was given; a call that finds it at 2^31 or more is not followed further.
- Umalloc.Heap.Free: the argument was returned by malloc and not freed since.
- VirtioDisk.Disk.Post: no other request for the same buffer is under way, which the buffer's sleep lock ensures; addresses, lengths and data directions of descriptors are not modelled.
- VirtioDisk.Disk.Intr: the device reports success for every request; a failed one would panic.
