# xv6 (64-bit port): a Dafny model and its proofs

This project models the hard core of a 64-bit xv6 kernel and two of its user-space programs, and proves what
they are for:

- **Storage.** A write-back buffer cache with an LRU ring (`LruRing`, `BufferCache`), a redo log that survives a
  crash after any single block write (`CrashSafety`, `Log`), admission of concurrent transactions to that log
  (`LogAdmission`), a bitmap allocator and inodes with direct and indirect blocks (`FsState`, `FsContent`, `Fs`),
  open files that write in transaction-sized chunks (`File`), and the directory tree with its link counts
  (`DirTree`, `Directory`, `DirWitness`).
- **Memory.** The page free list threaded through the free pages (`Memory`), four-level page tables as a flat map
  from page to entry (`PageTable`, `Vm`), boundary-skipping range frees (`VmFree`), teardown (`VmTeardown`), the
  free pages that growth needs (`VmNeed`), growth with undo (`VmAlloc`), and kernel mappings and address-space copies
  (`VmSetup`).
- **Blocking protocols.** Sleep locks over sleep, wakeup and kill (`SleepLock`), pipes (`Pipe`), and fork, exit, wait
  and the scheduler (`ProcTable`, `ProcRuns`), as interleaved steps of any number of processes.
- **User space.** The Kernighan and Ritchie allocator (`Umalloc`) and the shell's parser, against a grammar of its
  command language (`ShellGrammar`, `ShellParser`, `Shell`).

`Params` and `SetSizes` hold constants and facts about the sizes of sets that several modules share.

Code that updates memory in place is a class, or a method on a `Machine`, with loops and invariants; each such method
is proved against a function or predicate on values, and the properties are proved about those. Protocols are state
machines: a `State`, an `Action`, when it is `Enabled`, what `Apply` makes of it, an invariant that every step keeps,
and theorems about every state of every run (`IsRun`). `panic` is a precondition or a separate result (`panicked`, 0,
`Err`), never a normal return. A disk is a sequence of blocks, one block write is atomic, and a crash keeps the disk
and nothing else.

Where the code differs from what its comments or callers suggest, the model follows the code:

- `log_write` refuses at `log.size - 1` blocks while mkfs makes a log of `LOGSIZE` blocks in all, header included, so a
  transaction within its budget can be turned away. `LogAdmission.LongEnoughIff` gives the exact bound.
- `log_write` tests for room before it looks for the block, so a full log also refuses a block it already holds.
  `LogAdmission.FullLogRefusesRewrite` is such a run for every size of log that takes a block at all,
  `AcceptsRewritesIff` says that no size avoids it, and `RefusedIffFull` says exactly when it happens.
- A writer that is killed while the pipe is full returns without waking readers. `Pipe.LostWakeup` is a run after which
  a reader sleeps beside a full pipe. `Pipe.ReaderSleeps` says exactly when a sleeping reader has bytes to read: when
  such a writer has left since readers were last woken and the pipe was last empty.
- Nothing checks that the parent directory of a new name is still linked. `DirTree.LinkKeepsIff` and
  `DirTree.CreateKeepsIff`: in a directory that has been removed, and only there, `link` and `create` leave inodes whose
  counts and parents no tree explains; `DirWitness.LostLink` and `DirWitness.LostCreate` are such trees. There too, ".."
  can name an inode that has been freed (`DirWitness.FreedParent`), on which `create` panics: `Directory.Dirs.Create`
  says exactly when.
- `log_write` tests for room before it takes the log's lock, so operations that pass the test together all go on.
  `LogAdmission.ReachesIff` gives the most blocks that a log of each length comes to name: two more than fit, up to
  `LOGSIZE`. By `NeverOverflowsIff` the slots never run over exactly if there are `LOGSIZE` of them, or none; mkfs makes
  one fewer.
- The cache has as many buffers as `LOGSIZE`, and every logged block pins one, so a commit needs a buffer that is not.
  `Log.SpareBufferIff`: with none in use there is one exactly when the log names fewer blocks than there are buffers;
  `Log.FullCache` is a cache with none. By `LogAdmission.LeavesBufferIff` every run leaves one exactly if the log has at
  least three slots fewer than the cache has buffers. So a log that is long enough never to refuse an operation within
  its budget (`LongEnoughIff`) has a run whose commit finds no buffer, and so does the log that mkfs makes.
- `>>` opens its file exactly as `>` does (`ShellGrammar.RedirectOf`).

The hypotheses carried are: home blocks lie outside the log; files start without holes; buffers of device 0 are not
claimed unique; kernel mapping ranges are aligned and disjoint and user sizes are below 2^31; an end of a pipe is
closed only when no call on it is under way.

## Model

| member | source | states |
|---|---|---|
| LruRing.UnlinkKeepsRing | kernel/bio.c:119-120 | taking a buffer out of the doubly linked list leaves a circular list of the others, both ways round, in order |
| LruRing.PushKeepsRing | kernel/bio.c:121-124 | putting it back at the head gives a circular list with it first |
| LruRing.RemoveKeepsOthers | kernel/bio.c:109-128 | taking one buffer out loses no other |
| BufferCache.LogicalIsBuffer | kernel/bio.c:89-97 | a valid cached buffer holds the block's logical content |
| BufferCache.EvictionIsInvisible | kernel/bio.c:74-84 | recycling an unreferenced clean buffer changes no block's logical content |
| BufferCache.BookkeepingIsInvisible | kernel/bio.c:56-86 | reference counts and locks do not affect logical contents |
| BufferCache.SyncIsInvisible | kernel/ide/memide.c:26-46 | bringing a buffer and the disk into step changes no block's logical content |
| BufferCache.Bcache.constructor | kernel/bio.c:36-51 | the initial cache is consistent and its list is a ring of all buffers |
| BufferCache.Bcache.FindCached | kernel/bio.c:61-69 | finds the buffer of a block exactly when one is cached |
| BufferCache.Bcache.FindVictim | kernel/bio.c:71-84 | finds the least recently used unreferenced, clean buffer |
| BufferCache.Bcache.Bget | kernel/bio.c:56-86 | a locked buffer for the block; logical contents and the ring are unchanged |
| BufferCache.Bcache.Iderw | kernel/ide/memide.c:26-46 | a dirty buffer goes to disk, an invalid one comes from it, and the flags say so |
| BufferCache.Bcache.Bread | kernel/bio.c:89-97 | returns the block's logical content, and changes no block's |
| BufferCache.Bcache.Bwrite | kernel/bio.c:100-105 | one disk write, after which disk and buffer agree |
| BufferCache.Bcache.Pin | kernel/log.c:212-212 | a dirty buffer stays cached, with no change of contents |
| BufferCache.Bcache.MoveToFront | kernel/bio.c:107-128 | the most recently used buffer leads the ring of all buffers |
| BufferCache.Bcache.Brelse | kernel/bio.c:109-128 | releases the buffer, keeps every content and the ring, with the last release first |
| CrashSafety.LoggingPrefix | kernel/log.c:164-175 | part of the log copied: home blocks untouched and the header still empty |
| CrashSafety.HeaderWrite | kernel/log.c:96-106 | the header write turns an invisible transaction into a pending one |
| CrashSafety.InstallPrefix | kernel/log.c:68-79 | part of the installation done: the transaction is still pending |
| CrashSafety.EraseWrite | kernel/log.c:177-185 | clearing the header after installation leaves the whole transaction installed |
| CrashSafety.CommitPrefix | kernel/log.c:164-185 | after any prefix of a commit's writes the disk is untouched, pending or done, by where the prefix ends |
| CrashSafety.CommitInstalls | kernel/log.c:177-185 | a whole commit installs exactly the transaction's blocks |
| CrashSafety.RecoverClean | kernel/log.c:108-113 | recovery of an empty log, cut anywhere, changes no home block |
| CrashSafety.RecoverPending | kernel/log.c:108-113 | recovery of a pending transaction, cut anywhere, leaves it pending or installed |
| CrashSafety.RecoverFromClean | kernel/log.c:108-113 | any number of interrupted recoveries from an empty log change no home block |
| CrashSafety.RecoverFromPending | kernel/log.c:108-113 | any number of interrupted recoveries end with the transaction installed |
| CrashSafety.CrashAtomicity | kernel/log.c:68-185 | a crash after any write of a commit, and any crashes during recovery: all home blocks as before, or all as after, and after exactly when the non-empty header was written |
| CrashSafety.EventIsAtomic | kernel/log.c:68-185 | a commit or a crash-and-recovery acts on home blocks as the whole transaction or as nothing |
| CrashSafety.StillIdle | kernel/log.c:108-185 | a commit, or a crash and its recovery, leaves the log empty for the next |
| CrashSafety.HistoryIsAtomic | kernel/log.c:68-185 | over any history of commits and crashes that starts with an empty log, the home blocks are those of the committed transactions, in order, and the log is empty again |
| Log.SpareBufferIff | include/xv6/param.h:12-14 | with no buffer in use, one can be recycled exactly when the log names fewer blocks than there are buffers |
| Log.FullCache | include/xv6/param.h:12-14 | a cache of any size, all of whose buffers the log pins |
| Log.Log.WriteLog | kernel/log.c:164-175 | the writes are the log slots with the cached, latest contents of the logged blocks |
| Log.Log.InstallTrans | kernel/log.c:68-79 | the writes are the home blocks with the contents of the log slots |
| Log.Log.WriteHead | kernel/log.c:96-106 | one write of a header that names exactly the logged blocks |
| Log.Log.FillHead | kernel/log.c:96-106 | the header block holds the count and the block numbers |
| Log.Log.ScanHead | kernel/log.c:82-91 | the block numbers that a header block holds |
| Log.Log.ReadHead | kernel/log.c:82-91 | the in-memory header is what the disk header names |
| Log.Log.LatestIsPinned | kernel/log.c:196-214 | every logged block is cached and dirty, so its logical content is its buffer |
| Log.Log.Commit | kernel/log.c:177-185 | the disk writes are those of the crash model for the latest contents; home blocks then equal the logical view, which is unchanged; it needs only that fewer blocks are logged than there are buffers |
| Log.Log.RecoverFromLog | kernel/log.c:108-113 | the disk writes are those of the crash model's recovery, and the log is then empty |
| Log.Log.LogWrite | kernel/log.c:196-214 | the block is in the log once, its buffer is pinned, no content changes |
| Log.Log.Update | kernel/log.c:187-214 | a logged update changes exactly that block's logical content and no disk block; a block that is not logged yet needs fewer logged blocks than buffers |
| LogAdmission.StepInv | kernel/log.c:116-161 | every step of begin_op, log_write and end_op keeps the admission invariant |
| LogAdmission.Admission | kernel/log.c:116-161 | in every run: logged blocks plus unused budgets fit LOGSIZE, no operation during a commit, an idle log is empty, a sleeper in begin_op is rightly blocked |
| LogAdmission.NeverRefused | kernel/log.c:196-200 | with LOGSIZE blocks besides the header, no operation within its budget is refused in any run |
| LogAdmission.ShortLog | kernel/log.c:199-200 | with any shorter log some run has an operation refused within its budget |
| LogAdmission.LongEnoughIff | kernel/log.c:196-214 | no run refuses within budget if and only if log.size - 1 >= LOGSIZE |
| LogAdmission.RefusedIffFull | kernel/log.c:196-200 | in every run log_write refuses an operation exactly when the log is full; with LOGSIZE blocks besides the header that is at LOGSIZE blocks, with every budget under way spent |
| LogAdmission.FullLogRefusesRewrite | kernel/log.c:199-206 | for every log that takes a block, a run in which a full log refuses a block that the operation has already logged |
| LogAdmission.NothingLogged | kernel/log.c:199-200 | a log with no block besides its header takes none in any run |
| LogAdmission.AcceptsRewritesIff | kernel/log.c:199-206 | no run refuses a block already logged if and only if the log takes no block at all |
| LogAdmission.AtMost | kernel/log.c:196-212 | in every run the log names at most the blocks that pass the test together with those already there |
| LogAdmission.ReachesIff | kernel/log.c:196-212 | some run of a log of a given length names n blocks at once if and only if n is at most that bound |
| LogAdmission.NeverOverflowsIff | kernel/log.c:196-212 | no run names more blocks than the log has slots if and only if there are LOGSIZE slots or none |
| LogAdmission.LeavesBufferIff | include/xv6/param.h:12-14 | every run leaves a buffer unpinned if and only if the log has at least three slots fewer than the cache has buffers; a log long enough never to refuse does not |
| FsState.WordOfSetWord | kernel/fs.c:353-365 | an entry written to an indirect block reads back, and the other entries stay |
| FsState.OneOwner | kernel/fs.c:342-368 | two slots that name the same block are the same slot, and the block is marked |
| FsState.FreeIsUnnamed | kernel/fs.c:50-70 | a block that the bitmap has free is named by no inode |
| FsState.AllocKeeps | kernel/fs.c:50-70 | allocating a free block keeps ownership and every file block |
| FsState.SetDirectKeeps | kernel/fs.c:346-350 | a direct slot takes a blank block: ownership holds and only that file block changes |
| FsState.SetIndirectKeeps | kernel/fs.c:353-356 | a new indirect block keeps ownership and changes no file block |
| FsState.SetEntryKeeps | kernel/fs.c:357-364 | a listed block likewise, with every other inode's indirect block untouched |
| FsState.SetDataKeeps | kernel/fs.c:456-462 | new contents of a file block change that file block, no other file's, and no indirect block |
| FsState.ClearStep | kernel/fs.c:380-396 | a slot's block is still marked when its turn to be freed comes |
| FsState.TruncKeeps | kernel/fs.c:375-401 | after truncation ownership holds and exactly the inode's own blocks were cleared |
| FsContent.SpliceIs | kernel/fs.c:441-469 | the pointwise and the cut-and-paste description of overwriting a run of bytes agree |
| FsContent.SpliceTwice | kernel/file.c:110-137 | writing two adjoining runs is writing the joined run |
| FsContent.WrittenStep | kernel/fs.c:456-462 | one turn of the block loop extends the bytes written, across partial blocks |
| FsContent.WrittenContent | kernel/fs.c:441-469 | a finished write splices the bytes into the file and leaves no hole |
| FsContent.WrittenReads | kernel/fs.c:415-469 | bytes written are the bytes read back, and the rest of the file is as it was |
| FsContent.ReadStep | kernel/fs.c:430-435 | one turn of the read loop extends the slice read |
| FsContent.ChunkCharge | kernel/file.c:110-127 | a chunk of at most three blocks' length, at any offset, touches few enough blocks |
| Fs.Fs.Balloc | kernel/fs.c:50-70 | the lowest free block, marked and zeroed; it fails only when every bit is set |
| Fs.Fs.Bfree | kernel/fs.c:73-85 | clears exactly that bit |
| Fs.Fs.Iupdate | kernel/fs.c:205-219 | the on-disk inode equals the in-memory one |
| Fs.Fs.Bmap | kernel/fs.c:342-368 | the block of a file block; a mapped one changes nothing and logs nothing, a hole becomes zeros and nothing else changes |
| Fs.Fs.WriteRun | kernel/fs.c:456-462 | the block loop writes exactly the bytes, allocates only beyond the old size, and logs within its charge |
| Fs.Fs.Writei | kernel/fs.c:441-469 | refused exactly past the end or too long; otherwise the bytes are spliced in, other files are unchanged, no holes, and on-disk inodes equal in-memory ones; for a device its driver's answer, with nothing changed |
| Fs.Fs.Readi | kernel/fs.c:415-437 | refused exactly past the end or on 32-bit overflow; otherwise the slice clipped to the size; nothing is allocated or logged, in or out of a transaction; for a device its driver's answer |
| Fs.Fs.Itrunc | kernel/fs.c:375-401 | clears exactly the bits of the inode's blocks, empties it, keeps every other file, and never frees a free block |
| Fs.NoneListed | kernel/fs.c:387-396 | without an indirect block there is nothing more to free |
| File.WrittenTwice | kernel/file.c:110-137 | consecutive chunk writes compose to one write |
| File.PrefixStep | kernel/file.c:110-137 | a chunk extends the written prefix |
| File.File.Read | kernel/file.c:84-97 | reads at the offset and moves it, with no transaction open; a pipe or a device answers for itself, and only the device moves the offset |
| File.File.WriteChunk | kernel/file.c:119-133 | a chunk is one transaction that logs at most MAXOPBLOCKS distinct blocks |
| File.File.WriteDevice | kernel/file.c:117-135 | a device is written in one turn, whose answer decides between success, failure and the short-write panic |
| File.File.Write | kernel/file.c:102-137 | a prefix is written, all of it exactly when it fits; the result and the offset say which; a pipe or a device answers for itself |
| DirTree.RootOnlyWellFormed | mkfs.c:115-126 | a new file system's root is a well-formed tree |
| DirTree.ReachesRoot | kernel/sysfile.c:222-260 | following ".." from any live directory leads to the root |
| DirTree.OneParent | kernel/sysfile.c:222-260 | a directory has one entry besides dots, in the directory its ".." names |
| DirTree.NamedIsLinked | kernel/sysfile.c:186-190 | an inode that a live directory names has a link, so unlink's panic is unreachable |
| DirTree.EmptyDirLinks | kernel/sysfile.c:154-165 | an empty directory has exactly one link, and it is not the root |
| DirTree.AddLinkKeeps | kernel/sysfile.c:106-151 | adding an entry and a link keeps the tree, unique names and link counts |
| DirTree.DropLinkKeeps | kernel/sysfile.c:197-208 | removing a file's entry and link keeps them |
| DirTree.MakeDirKeeps | kernel/sysfile.c:238-257 | a new directory with its dots keeps them, one level deeper |
| DirTree.RemoveDirKeeps | kernel/sysfile.c:192-208 | removing an empty directory keeps them, its parent losing the link of ".." |
| DirTree.ResetKeeps | kernel/fs.c:306-319 | an inode without links can be freed or given a type: nothing names it |
| DirTree.LinkKeepsIff | kernel/sysfile.c:126-140 | after a new link the inodes are those of some well-formed tree exactly when the directory is still linked |
| DirTree.CreateKeepsIff | kernel/sysfile.c:238-257 | likewise after create has made a file or a directory |
| Directory.Dirs.constructor | mkfs.c:115-126 | a new file system is a valid tree, so every run of the operations starts from one |
| Directory.Dirs.Dirlookup | kernel/fs.c:477-499 | the first entry with the name, or that there is none |
| Directory.Dirs.Dirlink | kernel/fs.c:502-527 | refused exactly when the name is taken; otherwise one entry in the first empty slot or at the end |
| Directory.Dirs.Isdirempty | kernel/sysfile.c:154-165 | whether anything follows the two dots |
| Directory.Dirs.Link | kernel/sysfile.c:106-151 | the link is made exactly when allowed, and undone completely otherwise; the tree stays well-formed if the directory is still linked, and no tree fits if it is not |
| Directory.Dirs.Unlink | kernel/sysfile.c:167-217 | exactly the stated names are removed, with the right counts; the tree stays well-formed; a removed directory has no name to remove |
| Directory.Dirs.Ialloc | kernel/fs.c:181-199 | the lowest free inode |
| Directory.Dirs.Create | kernel/sysfile.c:222-260 | opens exactly an existing file when a file is wanted, panics exactly on a name whose inode has been freed, which is ".." of a removed directory, refuses other names, and else makes the name with the lowest free inode; the other panics are unreachable; the tree stays well-formed if the directory is still linked, and no tree fits if it is not |
| Directory.Dirs.Free | kernel/fs.c:306-319 | freeing an unlinked inode keeps the tree |
| DirWitness.LostCreate | kernel/sysfile.c:238-257 | after mkdir a and rmdir a, with "a" in use, what is created in "a" fits no tree, whatever its type |
| DirWitness.LostLink | kernel/sysfile.c:126-140 | likewise for a link made in "a" |
| DirWitness.FreedParent | kernel/sysfile.c:229-232 | after mkdir a, mkdir a/b, rmdir a/b and rmdir a, with a/b in use, ".." of a/b names a free inode |
| Memory.Machine.Kalloc | kernel/kalloc.c:84-95 | the head of the free list, which loses exactly that page |
| Memory.Machine.Kfree | kernel/kalloc.c:61-79 | the page is filled with junk and heads the free list |
| Memory.Machine.FreeRange | kernel/kalloc.c:50-55 | every page of the range joins the free list once |
| PageTable.Descend | kernel/vm.c:49-92 | a present entry on a page's path leads to the next table of the path |
| PageTable.NoTable | kernel/vm.c:49-105 | where an entry is absent no page below is mapped |
| PageTable.AddTable | kernel/vm.c:55-61 | linking a zeroed table keeps the tree and every mapping |
| PageTable.SetLeaf | kernel/vm.c:118-124 | writing a leaf entry changes exactly one page's mapping |
| Vm.GetTable | kernel/vm.c:49-92 | the child table, created if asked for; no mapping changes, and no table but that one is new |
| Vm.Walk | kernel/vm.c:97-105 | the level-1 table of a page; with alloc no mapping changes, only tables on its path are new, and failure means memory is exhausted |
| Vm.MapPages | kernel/vm.c:110-127 | success adds exactly the range's pages, failure a proper prefix with memory exhausted and no table for the next page; only tables on the range's paths are new |
| VmFree.BoundaryShares | kernel/vm.c:258-313 | up to a boundary all pages share one table entry, so skipping to it loses none |
| VmFree.BoundaryInside | kernel/vm.c:258-313 | a boundary inside a range stays under the same table |
| VmFree.NaiveSplit | kernel/vm.c:246-313 | freeing page by page composes over adjoining ranges |
| VmFree.NaiveMembers | kernel/vm.c:246-256 | what a page-by-page loop frees: exactly the frames of present pages |
| VmFree.FreeRange1 | kernel/vm.c:246-256 | frees and unmaps exactly the present pages |
| VmFree.FreeRange | kernel/vm.c:258-313 | the boundary-skipping free ends, and frees and unmaps exactly what a page-by-page loop would, in the same order |
| VmFree.DeallocUvm | kernel/vm.c:319-326 | shrinking frees exactly the pages past the new size |
| VmTeardown.FreeTables | kernel/vm.c:328-353 | frees every table below and then the table, each once and never read after |
| VmTeardown.FreeVm | kernel/vm.c:357-360 | exactly the root, every table and every user frame are freed, each once; no kernel frame; no freed table is read |
| VmNeed.TablesAdded | kernel/vm.c:49-105 | new tables are no more than those missing on the paths, and as many exactly when none is missing |
| VmNeed.SameCount | kernel/kalloc.c:61-95 | free pages and tables that are conserved as sets are conserved in number |
| VmNeed.Enough | kernel/vm.c:218-244 | pages that all have frames and tables were paid for by enough free pages |
| VmNeed.NotEnough | kernel/vm.c:228-240 | running out with a frame or a table still to be had means there were too few |
| VmAlloc.AddPage | kernel/vm.c:228-240 | one more page: mapped, zeroed and owned; or no free page is left for it or for its tables |
| VmAlloc.GrewEnough | kernel/vm.c:218-244 | a loop that has added every page had enough free pages for them and for the tables they lacked |
| VmAlloc.StuckTooFew | kernel/vm.c:228-240 | a loop that got stuck had too few |
| VmAlloc.AllocUvm | kernel/vm.c:218-244 | growth succeeds exactly when there are free pages for the new pages and for the tables they lack; it maps fresh zeroed distinct frames; otherwise user mappings and leaf frames are as before |
| VmSetup.KernelBuilt | kernel/vm.c:130-143 | a finished kernel half has its root, the tables on the paths of its ranges, and no other |
| VmSetup.KernelShort | kernel/vm.c:130-143 | a kernel half that ran out of memory had fewer free pages than those |
| VmSetup.SetupKvm | kernel/vm.c:130-143 | succeeds exactly when there are free pages for the root and the kernel's tables, and then maps exactly the kernel ranges; otherwise the free pages are those there were |
| VmSetup.CloneNeeds | kernel/vm.c:375-404 | what is left to copy after the kernel half is built, in terms of what the whole clone needs |
| VmSetup.CopyUvm | kernel/vm.c:375-404 | succeeds exactly when there are free pages for the clone's tables and frames; the child then has the parent's bytes and flags on fresh distinct frames; otherwise the free pages are those there were; the parent is unchanged |
| SleepLock.StepInv | kernel/sleeplock.c:15-40 | every step of acquiresleep, releasesleep, holdingsleep, sleep, wakeup and kill keeps the lock's invariant |
| SleepLock.MutualExclusion | kernel/sleeplock.c:15-31 | in every run at most one process owns the lock, from the setting of `locked` to its clearing, and the lock names it from the next assignment on |
| SleepLock.LockedIsOwned | kernel/sleeplock.c:15-31 | in every run the lock is locked exactly while some process owns it |
| SleepLock.NoLostWakeup | kernel/proc.c:388-440 | in every run, with the lock and its spinlock free nobody is asleep on it |
| SleepLock.HoldingIsExact | kernel/sleeplock.c:33-40 | holdingsleep answers whether its caller holds the lock |
| Pipe.TestsExact | kernel/pipe.c:63-90 | the 32-bit full and empty tests are exact across wraparound |
| Pipe.PutKeepsRing | kernel/pipe.c:71-71 | storing a byte overwrites no byte still to be read |
| Pipe.TakeKeepsRing | kernel/pipe.c:92-92 | the byte taken is the oldest one stored and not delivered |
| Pipe.StepInv | kernel/pipe.c:42-97 | every step of readers, writers, closers and killers keeps the pipe's invariant |
| Pipe.Fifo | kernel/pipe.c:58-97 | in every run the delivered bytes are a prefix of the stored ones and occupancy is within 0 and PIPESIZE |
| Pipe.WriterSleeps | kernel/pipe.c:63-70 | in every run a sleeping writer means a full pipe with the read end open |
| Pipe.ReaderSleeps | kernel/pipe.c:64-88 | in every run a sleeping reader means the write end is open, and the pipe is empty exactly if no killed writer has left since readers were last woken and the pipe was last empty |
| Pipe.ReaderGets | kernel/pipe.c:89-93 | a reader's bytes are the last ones delivered |
| Pipe.LostWakeup | kernel/pipe.c:64-67 | a run after which a reader sleeps beside a full pipe: a writer killed in its call woke nobody |
| ProcTable.PTable.Wakeup1 | kernel/proc.c:425-431 | exactly the processes asleep on the channel become runnable |
| ProcTable.PTable.Allocproc | kernel/proc.c:67-83 | the first unused slot becomes an embryo with the next pid |
| ProcTable.PTable.ExitSection | kernel/proc.c:233-249 | the table after exit: parent woken, children handed to init, init woken if one is a zombie |
| ProcTable.PTable.WaitScan | kernel/proc.c:262-282 | the first zombie child is reaped, or whether there are children is reported |
| ProcTable.PTable.NextRunnable | kernel/proc.c:313-315 | the scheduler's scan finds the next runnable slot, or that there is none |
| ProcTable.PTable.KillScan | kernel/proc.c:443-459 | the first process with the pid is marked and woken |
| ProcRuns.StepInv | kernel/proc.c:167-333 | every step of fork, exit, wait, sleep, kill and the scheduler keeps the table's invariant |
| ProcRuns.NoZombieMissed | kernel/proc.c:212-297 | in every run no process asleep in wait has a zombie child |
| ProcRuns.ParentsAlive | kernel/proc.c:212-297 | in every run a parent pointer names a process that is alive |
| ProcRuns.ZombiesHaveParents | kernel/proc.c:212-250 | in every run every zombie has a parent and is not init |
| ProcRuns.ReapedOnce | kernel/proc.c:255-297 | in every run wait returns no pid twice |
| ProcRuns.RunningIffOnCpu | kernel/proc.c:302-357 | in every run a process is running exactly when it is the process of exactly one CPU |
| Umalloc.InsertHeap | user/ulib/umalloc.c:28-37 | linking a block in keeps the ring in address order and disjoint from live blocks |
| Umalloc.MergeHeap | user/ulib/umalloc.c:31-40 | joining adjacent blocks keeps the ring and the unit count |
| Umalloc.TakeHeap | user/ulib/umalloc.c:69-71 | an exact fit leaves the ring and becomes live |
| Umalloc.SplitHeap | user/ulib/umalloc.c:72-76 | the tail of a larger block becomes live, disjoint from everything |
| Umalloc.FreeKeeps | user/ulib/umalloc.c:24-42 | after both tests the ring is in order, fully coalesced, and has room for the freed block |
| Umalloc.WalkedAll | user/ulib/umalloc.c:68-83 | a walk that comes back to its start has met every free block |
| Umalloc.Heap.FindSlot | user/ulib/umalloc.c:28-30 | the search ends at the block's place, the wrap point included |
| Umalloc.Heap.Free | user/ulib/umalloc.c:24-42 | the block leaves the live blocks and joins the ring; units are conserved |
| Umalloc.Heap.Morecore | user/ulib/umalloc.c:44-57 | new memory joins the ring and the total grows by it |
| Umalloc.Heap.Malloc | user/ulib/umalloc.c:59-84 | ends; the block is new, disjoint and holds nbytes; it fails exactly when no free block is big enough and sbrk fails; sbrk is used only when none is; units are conserved |
| ShellGrammar.LexedOnce | user/sh.c:245-286 | a line has only one sequence of tokens |
| ShellGrammar.LineWords | user/sh.c:318-411 | a tree holds exactly the words among the tokens it stands for |
| ShellParser.LineSound | user/sh.c:318-411 | whatever the parser returns, the grammar derives from the tokens it passed |
| ShellParser.LineComplete | user/sh.c:318-411 | whatever the grammar derives, the parser returns, unless a command has MAXARGS words |
| ShellParser.ParsesIff | user/sh.c:303-411 | the parser takes a whole line as a tree if and only if the grammar derives the line from it with fewer than MAXARGS words to a command |
| ShellParser.OneTree | user/sh.c:318-411 | the grammar gives a line at most one such tree |
| Shell.GetToken | user/sh.c:245-286 | the next token's kind and exact extent |
| Shell.Peek | user/sh.c:288-296 | skips blanks and tests the next character |
| Shell.GotToken | user/sh.c:245-286 | gettoken passes exactly the next of the line's tokens |
| Shell.ParseRedirs | user/sh.c:344-365 | the redirections at the cursor, in order; it fails exactly when one has no file |
| Shell.ParseSimple | user/sh.c:389-410 | the words and redirections of a command; it agrees with the parsing function, failures included |
| Shell.ParseBlock | user/sh.c:367-379 | likewise for a bracketed line and its redirections |
| Shell.ParseExec | user/sh.c:381-411 | likewise for a bracketed line or a simple command |
| Shell.ParsePipe | user/sh.c:333-342 | likewise for a pipeline |
| Shell.ParseLine | user/sh.c:318-331 | likewise for a command line |
| Shell.NulTerminate | user/sh.c:413-455 | a NUL at the end of every word and nowhere else |
| Shell.WordReads | user/sh.c:413-455 | no word's NUL falls inside another word |
| Shell.ParseCmd | user/sh.c:303-316 | ends on every line, and succeeds exactly when the grammar derives the line with few enough words to a command; the tree is the one derived, it holds exactly the line's words, and each word read as a C string from the buffer is the word that was delimited |

## Left out

- Fs.Fs.Balloc: the packing of bits into bytes; a bitmap block is BPB booleans.
- Fs.Fs.Readi: what a device's driver does; its answer is a parameter.
- Fs.Fs.Writei: likewise.
- File.File.Read: likewise for the pipe's answer, which `Pipe` models as interleaved steps.
- File.File.Write: likewise.
- BufferCache.Bcache.Bget: a block that another process has locked, for which the source waits; `SleepLock` models the wait.
- BufferCache.Bcache.Bread: likewise.
- Log.Log.WriteLog: buffers that readers hold while a commit runs; here nobody holds one.
- Log.Log.InstallTrans: likewise.
- Log.Log.WriteHead: likewise.
- Log.Log.Commit: likewise.
- Log.Log.Update: a caller that holds another buffer as well.
- Pipe.StepInv: going to sleep and waking a channel are single steps here; `SleepLock` takes them apart.
- LogAdmission.StepInv: a section with log.lock held is one step, its sleep included; `SleepLock` takes that apart.
- ProcRuns.StepInv: a section with ptable.lock held is one step, and kill may hit any slot; pids do not wrap.
- Directory.Dirs.Link: a single device; path resolution supplies the inode and the parent directory.
- Directory.Dirs.Create: inode numbers and link counts are unbounded; a directory's size is not bounded by MAXFILE.
- Umalloc.Heap.Malloc: sizes are unbounded integers; sbrk's answer is a parameter.
- Shell.ParseSimple: the source wraps the command while its argument list is still being filled in; here it is wrapped once it is complete.
- VmFree.FreeRange: a skip past the end of the range is cut off at the end, which visits the same pages.
- The inode cache (iget, ilock, iput's reference count) and the file table.
- Concurrent use of the cache, the file system and directories: their operations are whole calls, each under its locks.
- Path names, exec, system call arguments, interrupts, devices, booting, spinlock internals and context switches.
- The other user programs and library routines.
