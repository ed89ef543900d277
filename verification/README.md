# xv6-riscv: a Dafny model

The project models the parts of xv6 in which one piece of state is passed through many hands:
the crash-safe log and the buffer cache under it, the file system's blocks, bytes and names, page
tables and the memory of processes, exec(), the scheduler with sleep, exit and wait, the disk
driver's rings, pipes, and three user programs (the memory allocator, the shell, grep).
Loops and objects of the C code are methods and classes here; what each promises is stated over
an independent description of the state, and the protocols are transition systems whose
invariants hold in every state of every run.

| module | models |
|---|---|
| `DiskLog`, `LogProtocol`, `LogAdmission`, `LogLayer` | the redo log: its disk format and recovery, its concurrent admission, its code over the cache |
| `BufferCache`, `CacheRuns` | the LRU ring of buffers, with what a block reads as while a transaction is pending; runs of users of the cache |
| `Blocks`, `Bitmap`, `FsBlocks`, `FreeBlocks`, `Fs`, `Files`, `Mkfs` | blocks and their owners, the count of free ones, file contents, the image mkfs builds |
| `Links`, `Namespace` | directories, path lookup and link counts; what every call does to every path |
| `Kalloc`, `PageTable`, `Uvm`, `UvmCopy`, `FreeWalk`, `AddressSpace` | physical pages, Sv39 trees, address spaces |
| `Processes`, `Elf`, `ElfFormat`, `Exec`, `ExecArgs`, `Registers`, `UserCopy`, `PageBytes` | which process owns which page; fork, exec with the ELF format, and copies to and from user memory |
| `Scheduler`, `SleepLocks`, `Families` | CPUs, context switches, sleep locks, exit, wait, kill |
| `Virtio`, `Pipe` | the disk driver with its device, and pipes |
| `Umalloc`, `Shell`, `ShellRun`, `Grep` | user programs |
| `Common` | shared constants and datatypes |

Panics, failures of memory and failures of copies to and from user space are results of the
methods, not preconditions. Integers are unbounded; wrap-around of 16-, 32- and 64-bit counters is
written out where the code relies on it or trips over it.

## Model

| member | source | states |
|---|---|---|
| `DiskLog.RecoveryKeepsMeaning` | kernel/log.c:68-122 | Recovery cut after any number of its block writes leaves a disk that still reads as a log and stands for the same home blocks as before. |
| `DiskLog.RecoveryCompletes` | kernel/log.c:115-122 | A recovery that ends leaves an empty header, and every home block as the disk stood for. |
| `DiskLog.RecoveryIdempotent` | kernel/log.c:115-122 | A second recovery changes nothing. |
| `DiskLog.CommitPoint` | kernel/log.c:177-202 | A commit cut after any number of writes stands for the old homes up to the header write and for all of the new ones from it on. |
| `DiskLog.CrashAtomicity` | kernel/log.c:68-202 | A commit cut anywhere, then any number of recoveries each cut anywhere, then one that ends: all new blocks are in place or none, decided by the header write. |
| `DiskLog.CommitCompletes` | kernel/log.c:192-202 | A commit that ends leaves the new blocks home and the log empty. |
| `LogProtocol.RunInvariant` | kernel/log.c:125-234 | In every state of every interleaving of begin_op, log_write, end_op and the block writes of commit, the reservation, log and disk invariant holds. |
| `LogProtocol.CrashConsistency` | kernel/log.c:115-234 | Stopped anywhere and recovered through any number of interrupted recoveries, the disk holds a prefix of the writes of all operations, and no operation is split by the end of the prefix. |
| `LogProtocol.Durability` | kernel/log.c:145-174 | Once the process that commits has returned from end_op, everything logged until then is in that prefix in every later state of every run, crashes and recoveries included. |
| `LogProtocol.EndOpNeverPanics` | kernel/log.c:145-152 | end_op never finds a commit under way. |
| `LogProtocol.BudgetHasRoom` | kernel/log.c:125-141 | While an admitted operation has written fewer than its budget of blocks, the in-memory header has room for another. |
| `LogProtocol.AmpleLogIsSafe` | kernel/log.c:213-234 | With LOGSIZE data blocks beside the header, no step writes past the log area and none panics an operation within its budget. |
| `LogProtocol.OverrunsExactly` | mkfs/mkfs.c:25 | From any initial state on a large enough disk, some interleaving writes past the log area if and only if there are at least two processes and the area, header included, has between two and LOGSIZE blocks; mkfs makes it LOGSIZE. |
| `LogProtocol.RefusesExactly` | kernel/log.c:213-220 | Some interleaving panics an operation that has budget left if and only if the area is no larger than one budget, or there are two processes and it has at most LOGSIZE blocks. |
| `LogAdmission.AdmitsExactly` | kernel/log.c:125-141 | In every state of every run begin_op lets a process in if and only if no one is committing and the blocks logged, ten for each running operation and ten for it come to at most 30; else it sleeps. |
| `LogAdmission.ConcurrencyExactly` | kernel/log.c:125-141 | From any initial state some run has k operations open at once if and only if k is at most three and at most the number of processes. |
| `LogLayer.Log.WriteLog` | kernel/log.c:177-190 | The blocks of the transaction, as logged, go to the log area in header order; nothing else is written, and the cache stays coherent with the disk. |
| `LogLayer.Log.InstallCommitted` | kernel/log.c:68-82 | In a commit, the installed writes are exactly those of the header's blocks; no block is pending or pinned afterwards. |
| `LogLayer.Log.WriteTransaction` | kernel/log.c:192-197 | Up to the header write, the disk is that of a commit cut right after it. |
| `LogLayer.Log.FinishTransaction` | kernel/log.c:198-200 | From there the writes are the rest of that commit. |
| `LogLayer.Log.Commit` | kernel/log.c:192-202 | While readers may hold buffers: the writes commit sends to the disk through the cache are, in order, exactly the ones `DiskLog` reasons about; the invariant holds again with an empty log, and no holder loses its buffer. |
| `LogLayer.Log.LogWrite` | kernel/log.c:213-234 | Succeeds if and only if the header and the area have room and an operation is open; a block already logged is absorbed, a new one is appended and pinned, and either reads as its buffer from now on. A panic changes nothing. |
| `LogLayer.Log.FindLogged` | kernel/log.c:223-226 | The first place of the block in the header, or its length. |
| `LogLayer.Log.ReadHead` | kernel/log.c:85-96 | The in-memory header becomes the one on disk. |
| `LogLayer.Log.WriteHead` | kernel/log.c:101-113 | The header on disk becomes the in-memory one, word by word; no other block changes. |
| `LogLayer.Log.Recover` | kernel/log.c:115-122 | The writes are those of `DiskLog`'s recovery. Each replayed block leaves one buffer with a reference count of minus one; the log's invariant holds afterwards if and only if nothing was replayed, and on a disk larger than the cache some run of reads and releases then recycles a buffer in use if and only if something was. |
| `LogLayer.Log.RoomExactly` | kernel/param.h:10-11 | A buffer that commit could use is left if and only if fewer than LOGSIZE blocks are logged. |
| `LogLayer.FullLogPinsAll` | kernel/param.h:10-11 | A log of NBUF distinct pending blocks pins every buffer. |
| `BufferCache.BCache.constructor` | kernel/bio.c:36-53 | One ring through all buffers, no two of the same block, none in use. |
| `BufferCache.FrontLinks` | kernel/bio.c:122-133 | Unlinking a buffer and pushing it at the front leaves one complete doubly linked ring with that buffer first and the others in order, and no payload changed. |
| `BufferCache.BCache.Bget` | kernel/bio.c:58-89 | Fails if and only if the block is not cached and every buffer is in use; gives the one buffer of the block, else recycles the least recently used free one. |
| `BufferCache.BCache.Bread` | kernel/bio.c:92-103 | The buffer's data is what the block logically holds: its pending contents, else the disk's. A pinned buffer is never recycled. |
| `BufferCache.BCache.SetData` | kernel/log.c:76 | Only the buffer's data changes, and it counts as changed until logged or written. |
| `BufferCache.BCache.Bwrite` | kernel/bio.c:106-112 | The block on disk becomes the buffer's data, no other does, and cache and disk stay coherent. |
| `BufferCache.BCache.Brelse` | kernel/bio.c:116-137 | One reference less; at zero the buffer moves to the front and the order of the others stays. |
| `BufferCache.BCache.Bpin` | kernel/bio.c:139-144 | One reference more, with the count's wrap-around. |
| `BufferCache.BCache.Bunpin` | kernel/bio.c:146-151 | One reference less, with the count's wrap-around. |
| `CacheRuns.StealsExactly` | kernel/bio.c:58-151 | From a cache at rest some run of bget and brelse recycles a buffer that someone holds if and only if some buffer was unpinned once too often. |
| `CacheRuns.NeverSteals` | kernel/bio.c:58-151 | Where pins are sound, no run does. |
| `Blocks.WordOfSetWord` | kernel/fs.c:389-398 | A 32-bit word stored in a block's bytes reads back, and no other word changes. |
| `Bitmap.BitOfSetBit` | kernel/fs.c:74-76 | Setting one bit of a block's bytes sets that bit and no other. |
| `FreeBlocks.ClearIs` | kernel/fs.c:64-103 | The clear bits and the owned blocks together count the data blocks of the disk. |
| `FreeBlocks.SpentNeeds` | kernel/fs.c:377-405 | What a block takes now, itself and perhaps the indirect block, is what it adds to the count of what the file lacked at first. |
| `FreeBlocks.EnoughUnion` | kernel/fs.c:377-405 | After some blocks came in, the clear ones suffice for more if and only if they sufficed for both at first. |
| `Fs.FileSystem.ScanBlock` | kernel/fs.c:72-82 | The first clear bit of one bitmap block within the disk. |
| `Fs.FileSystem.Balloc` | kernel/fs.c:64-86 | The lowest unmarked block, marked and zeroed, with exactly those two blocks logged; 0 if and only if every block is marked. |
| `Fs.FileSystem.Bfree` | kernel/fs.c:89-103 | Panics if and only if the bit is clear; else clears that bit. |
| `Fs.FileSystem.Bmap` | kernel/fs.c:377-405 | The block behind a file's block number: the one there, unlogged, or a fresh zeroed one that nobody owned; every other slot of every file keeps its block, and the bitmap stays the set of owned blocks. It fails if and only if the number is too large or fewer bits are clear than the one or two blocks it takes. |
| `Fs.FileSystem.Itrunc` | kernel/fs.c:409-437 | The file owns nothing and has size 0, every other owner keeps its blocks, no data block is written, and freeing a free block cannot happen. |
| `Files.ChunkBlocks` | kernel/file.c:145-155 | A chunk of filewrite touches at most four blocks, and three if it starts at a block boundary. |
| `Files.Writei` | kernel/fs.c:482-514 | Refused, nothing changes; else the contents, holes reading as zeros, are the old ones with the bytes that could be copied spliced in, and every other file is as before. It panics if and only if it is not refused and the file lacks more blocks in the range written than there are clear bits, the indirect block counted once; else exactly those come in. A write of at most three blocks that starts at a block boundary or in a block that is there logs no more than MAXOPBLOCKS. The result is the length asked for, whatever was copied. |
| `Files.Readi` | kernel/fs.c:455-476 | Exactly the part of the contents asked for, clipped at the end of the file and at the last block boundary before a byte that cannot be delivered. Contents stay; only a read over a hole gives the file blocks, and it panics if and only if it lacks more of them than are clear; without holes nothing changes. |
| `Files.FileChunk` | kernel/file.c:155-167 | One transaction of a write, which panics under the same exact condition; in a file without holes it stays within MAXOPBLOCKS logged blocks and leaves none. |
| `Files.FileWrite` | kernel/file.c:134-181 | For every length, alignment and copy fault: it panics if and only if the blocks that the accepted chunks go through and the file lacks are more than the clear ones; else the result is the length or -1, exactly by whether every chunk is accepted, and the contents are the old ones with what each chunk could copy spliced in. In a file without holes each transaction stays within MAXOPBLOCKS. |
| `Files.ReadBack` | kernel/fs.c:455-514 | What was written is what is read back there, and reads beside it find what they found. |
| `Mkfs.Image.constructor` | mkfs/mkfs.c:67-116 | A blank image owns no blocks. |
| `Mkfs.Image.Ialloc` | mkfs/mkfs.c:231-243 | The next inode, empty; the others stay. |
| `Mkfs.Image.Iappend` | mkfs/mkfs.c:263-305 | Succeeds if and only if the file stays within its largest size and the disk has the blocks it takes; then the file grows by exactly the bytes given and no other file's contents change. |
| `Mkfs.Image.RoundUpSize` | mkfs/mkfs.c:166-171 | Rounding up the root's size pads its contents with zeros; it leaves a hole if and only if the size was a multiple of the block size. |
| `Mkfs.FullRoot` | mkfs/mkfs.c:133-171 | The image with 62 files: its root has a hole. |
| `Mkfs.Image.WriteBitmap` | mkfs/mkfs.c:245-259 | The image is a file system in the kernel's sense: set bits are exactly the metadata and the blocks in some slot. Fails if and only if one bitmap block is too small. |
| `Links.MkfsInv` | mkfs/mkfs.c:117-171 | The directory mkfs makes, with distinct names and padded to the block, satisfies the link-count invariant. |
| `Links.ReapedUnnamed` | kernel/fs.c:332-358 | An inode is freed only when no entry of a linked directory names it. |
| `Links.CreateKeeps` | kernel/sysfile.c:241-284 | create keeps link counts equal to the number of names if and only if the parent is itself linked and, for a directory, its count can go up. |
| `Links.CreateOrphans` | kernel/sysfile.c:241-284 | In a parent without links it breaks them. |
| `Links.LinkKeeps` | kernel/sysfile.c:119-166 | link keeps them if and only if the new name's directory is linked and the file's count is below the largest short. |
| `Links.UnlinkKeeps` | kernel/sysfile.c:184-239 | unlink keeps them from any directory, freeing the target exactly when it lost its last name and is not open. |
| `Links.CutFacts` | kernel/sysfile.c:209-212 | The target of an unlink has a link to lose: its panic cannot happen. |
| `Links.EmptyNamedOnce` | kernel/sysfile.c:214-229 | A directory with no entries but its dots is named by one entry only. |
| `Links.ResolveLinked` | kernel/fs.c:625-658 | From a linked inode every path leads only to linked inodes. |
| `Links.PanicsExactly` | kernel/fs.c:288-313 | From an inode some path runs into a freed one, and so the panic of ilock, if and only if the chain of ".." through unlinked directories above it ends at a freed inode. |
| `Links.LinkedIsSafe` | kernel/fs.c:625-658 | A linked start never does. |
| `Links.ApplyExact` | kernel/sysfile.c:119-413 | A call that is carried out keeps every link count if and only if it meets its guard, and panics only from a start whose ".." chain dangles. |
| `Links.RunKeeps` | kernel/sysfile.c:119-413 | In every run of create, link, unlink, open, chdir and close whose calls meet their guards, every allocated inode's count is the number of its names, and calls from safe starts never panic. |
| `Links.RemovedParent` | kernel/sysfile.c:390-413 | A run from the table mkfs makes (two directories made, one entered, both removed) after which opening ".." from the held directory panics. |
| `Links.Inodes.constructor` | mkfs/mkfs.c:117-171 | The table starts as mkfs leaves it, and satisfies the invariant. |
| `Links.Inodes.DirLookup` | kernel/fs.c:526-550 | The first live entry of that name, or none. |
| `Links.Inodes.DirLink` | kernel/fs.c:553-580 | A name already there is refused; else the entry goes into the first free one or to the end, and only a full directory panics. |
| `Links.Inodes.IsDirEmpty` | kernel/sysfile.c:169-182 | No live entry after the dots. |
| `Links.Inodes.FindFree` | kernel/fs.c:195-215 | The first free inode after inode 0. |
| `Links.ReapKeeps` | kernel/fs.c:332-358 | iput restores the invariant for an inode that lost its last name or reference: it is freed exactly when it has no links and no other holder. |
| `Links.Inodes.Namex` | kernel/fs.c:625-658 | The loop over path elements computes the recursive lookup. |
| `Links.Inodes.Create` | kernel/sysfile.c:241-284 | Result and table are those of the specification `CreateIn`, including the order in which entries are made and what a panic leaves. |
| `Links.Inodes.Link` | kernel/sysfile.c:135-166 | Likewise for link, whose count goes up first and back down on failure. |
| `Links.Inodes.Unlink` | kernel/sysfile.c:197-239 | Likewise for unlink. |
| `Namespace.FindIs` | kernel/fs.c:526-550 | A name is found exactly as some entry gives it; no entry, no inode. |
| `Namespace.UnlinkExactly` | kernel/sysfile.c:184-239 | unlink goes through if and only if the name is no dot and some entry gives it to an inode that is not a directory with entries beside its dots; else it is refused. |
| `Namespace.UnlinkNames` | kernel/sysfile.c:214-239 | Afterwards that name of the directory is gone and every other name of every directory stands for what it did; the target has one link less and is freed if and only if that was the last and no one holds it; a directory's parent loses a link. |
| `Namespace.UnlinkPaths` | kernel/sysfile.c:184-239 | Of all paths from any inode that stays linked, those that look the name up lead nowhere, and every other leads where it led. |
| `Namespace.CreateExactly` | kernel/sysfile.c:241-284 | A name that is there is opened, with one more reference and no other change, if and only if a file is asked for and it is a file or device, and else refused; a new name goes through if and only if an inode and an entry are free. |
| `Namespace.CreateNames` | kernel/sysfile.c:258-283 | The new name stands for an inode that was free, of the kind asked for; a new directory has its dots and nothing else; every other name of every directory stands for what it did. |
| `Namespace.CreatePaths` | kernel/sysfile.c:241-284 | Every path from a linked inode that led anywhere leads there still, and one that does not look the new name up is unchanged. |
| `Namespace.LinkExactly` | kernel/sysfile.c:119-166 | link goes through if and only if the file is no directory and the new name's directory is there, lacks the name and has room for an entry; the other outcomes by exact conditions. |
| `Namespace.LinkNames` | kernel/sysfile.c:119-166 | The new name stands for the inode, which has one link more; nothing else changes. |
| `Namespace.LinkPaths` | kernel/sysfile.c:119-166 | Every path that led anywhere leads there still, and the new name leads to the inode. |
| `Namespace.UnlinkGone` | kernel/sysfile.c:184-239 | A path that was unlinked leads nowhere. |
| `Namespace.CreateFound` | kernel/sysfile.c:241-284 | A path that was created leads to the inode asked for, or to the file that was there. |
| `Namespace.LinkBoth` | kernel/sysfile.c:119-166 | After link both paths lead to the same inode. |
| `Kalloc.Memory.constructor` | kernel/kalloc.c:26-31 | Every whole page of RAM after the kernel is on the list once. |
| `Kalloc.Memory.FreeRange` | kernel/kalloc.c:33-40 | Exactly the whole pages of the range join the list. |
| `Kalloc.Memory.Kfree` | kernel/kalloc.c:46-63 | Panics if and only if the address is no page of RAM after the kernel; else the page heads the list threaded through the pages, and is junk but for its link. |
| `Kalloc.Memory.Kalloc` | kernel/kalloc.c:68-82 | The page freed last, filled with junk, or 0 if and only if none is free. |
| `PageTable.PxSplit` | kernel/riscv.h:342-345 | The three table indices are the base-512 digits of the page number. |
| `PageTable.PteRound` | kernel/riscv.h:335-340 | An entry gives back the page address and the flags it was made of. |
| `PageTable.StoreLeaf` | kernel/vm.c:161 | Storing one word of a lowest table changes the map at one page number and nowhere else. |
| `PageTable.Walk` | kernel/vm.c:71-89 | Finds the word of the address's page in the tree that the map is read off; with alloc it adds zeroed tables, exactly those lacking, which leaves the map as it was. It fails if and only if there are too few free pages for them. |
| `PageTable.MapPages` | kernel/vm.c:148-168 | On success every page from the one of the first byte to the one of the last maps to consecutive frames and nothing else changes; on failure or panic exactly a prefix of them is mapped, and the reason is stated. |
| `Uvm.UvmUnmap` | kernel/vm.c:173-195 | Avoids its panics if and only if the address is aligned and every page is mapped by a leaf; then exactly those entries are cleared, and their frames freed if asked. |
| `Uvm.CanGrow` | kernel/vm.c:228-252 | However far a space has grown the next page is unmapped and below the trapframe: memory runs out first. |
| `Uvm.UvmAlloc` | kernel/vm.c:228-252 | Fresh zeroed pages up to the new size, each from the free list and mapped once, valid, readable, writable, executable and for the user. Fails if and only if there are fewer free pages than new pages and lacking tables; then every frame it mapped is free again and no entry is left. |
| `Uvm.UvmDealloc` | kernel/vm.c:258-270 | The pages above the new size are unmapped and free, no others. |
| `Uvm.GrownUndone` | kernel/vm.c:236-248 | Adding pages and taking them out again restores the map and the frames. |
| `UvmCopy.Copy` | kernel/vm.c:308-336 | The new space has a copy of every page with the same flags in a frame of its own, the old map is untouched, and it takes exactly the pages and lacking tables. With too few free pages, and only then, it fails and every frame taken is free again. |
| `FreeWalk.Free` | kernel/vm.c:274-290 | On a leafless tree never panics, and frees exactly the pages of the subtree, each once. |
| `FreeWalk.UvmFree` | kernel/vm.c:294-300 | The free list gains exactly the tables and the user frames. |
| `AddressSpace.ProcPagetable` | kernel/proc.c:157-186 | A space with only the trampoline, valid, readable and executable, and the trapframe, valid, readable and writable, both out of the user's reach, for three pages; 0 and every page where it was if and only if there are fewer. |
| `AddressSpace.ProcFlags` | kernel/proc.c:168-184 | In every process space these two entries have exactly those bits. |
| `AddressSpace.ProcFreePagetable` | kernel/proc.c:190-196 | Never panics; the space's pages are free again, but for the trapframe and the trampoline. |
| `AddressSpace.UvmClear` | kernel/vm.c:340-349 | One page loses its user bit and nothing else changes; no panic on a mapped page. |
| `Processes.InvStep` | kernel/proc.c:92-301 | A process may trade pages with the free list, and every page of RAM still has exactly one owner: one process, the kernel or the list. |
| `Processes.OthersKept` | kernel/proc.c:92-301 | Such a trade changes no page, table or mapping of any other process. |
| `Processes.Kernel.constructor` | kernel/proc.c:25-45 | No process, and the ownership invariant. |
| `Processes.Kernel.GrowProc` | kernel/proc.c:238-254 | 0 and the size moved by n; or -1 with the size as it was, if and only if growing takes more pages and tables than are free. Pages kept are unchanged with their entries, new ones are zero and usable by the user, given-up ones are free, no other process is touched. |
| `Processes.Kernel.AllocProc` | kernel/proc.c:92-131 | A slot that was unused with an empty space; or -1 and every page where it was, if and only if no slot is unused or fewer than four pages are free. |
| `Processes.Kernel.FreeProc` | kernel/proc.c:136-153 | The slot is blank and all its pages are free. |
| `Processes.Kernel.Fork` | kernel/proc.c:258-301 | A child in an unused slot whose every page equals the parent's in a frame of its own, with the parent's registers but for the result; or -1, nothing changed and no page lost, if and only if no slot is unused or fewer pages are free than the child and its tables take. |
| `Registers.ForkRegisters` | kernel/proc.h:44-81 | Field by field of the trapframe, the child's registers are the parent's but for a0, which is 0. |
| `Processes.FreshCost` | kernel/vm.c:71-89 | What n pages of a new process take: themselves, a table for each 512, and one table above those. |
| `Exec.WalkAddr` | kernel/vm.c:94-112 | The frame of a mapped user page, else 0. |
| `Exec.LoadSeg` | kernel/exec.c:135-157 | Never panics on the image's own pages; succeeds if and only if the file goes as far as the segment, and then its bytes stand at their addresses and no other byte changes. |
| `Exec.LoadSegment` | kernel/exec.c:41-58 | Zeroed memory up to the segment's end with the file's bytes in place; the image never shrinks. Fails if and only if the header is bad, the file too short or free pages too few. |
| `Exec.LoadAll` | kernel/exec.c:41-58 | After all headers the image is byte by byte the one they describe; fails if and only if one of them is bad or there are fewer free pages than they take together. |
| `Elf.ImageBytes` | kernel/exec.c:41-58 | Each byte of that image is the file's byte of the last segment that covers the address, or zero. |
| `ElfFormat.FileReads` | kernel/elf.h:6-34 | For every pair of header records laid out field by field as the format says: the magic number is accepted if and only if it is the ELF one, and the entry, the number of program headers and every field of each are read back, the file offset modulo 2^32. |
| `ElfFormat.HeaderMissing` | kernel/exec.c:42-43 | A program header is unreadable if and only if it does not lie in the file whole. |
| `ElfFormat.LinkedRuns` | kernel/exec.c:33-98 | Every program as a linker lays it out is runnable, with arguments that fit and free pages for it by an exact count. |
| `ElfFormat.SegmentStands` | kernel/exec.c:41-58 | A segment's bytes stand at their addresses where no later segment overlaps. |
| `Exec.ProgramByte` | kernel/exec.c:135-157 | So is each byte of the process's memory below the guard page. |
| `ExecArgs.Push` | kernel/exec.c:78-98 | Succeeds if and only if the strings and pointers fit below the top of the page with the alignment the code keeps and within MAXARG; then every pointer leads to its string and a null pointer ends them. |
| `ExecArgs.ArgsRoundTrip` | kernel/exec.c:78-98 | Each argument, read through its pointer as a C string, is the one passed. |
| `ExecArgs.FitsExactly` | kernel/exec.c:78-98 | The arguments fit if and only if there are at most 32 and the strings with their NULs, each rounded up to 16 bytes, and the pointers, rounded up likewise, come to at most a page. |
| `Exec.PushArgs` | kernel/exec.c:74-98 | The same for the stack page at the top of an image, whatever its size. |
| `Exec.AddStack` | kernel/exec.c:64-98 | Two more pages at the next page boundary, the lower one out of the user's reach, the upper one holding the arguments; fails if and only if the pages or the room for the arguments are lacking. |
| `Exec.Build` | kernel/exec.c:34-98 | The new image complete if and only if the file is runnable with those arguments in the free pages there are; else every page taken for it is free again. |
| `Exec.Run` | kernel/exec.c:12-129 | -1 with the process and its memory as before and no page lost, if and only if the file's magic or a header is bad, the file is short, the arguments do not fit or there are too few free pages by an exact count. Else the argument count, with the program's image and stack in place of the old one, its old pages free, every page but the guard usable by the user and the guard not, the registers set to start, and no other process touched. |
| `Registers.ExecRegisters` | kernel/exec.c:104-116 | Field by field of the trapframe, the program counter is the entry, the stack pointer and a1 the arguments, and every other register as it was. |
| `UserCopy.ProcIsUserSpace` | kernel/proc.c:157-186 | Every process's address space is one the three copies work on. |
| `UserCopy.TreeMaps` | kernel/vm.c:94-112 | The page-table tree, seen as a map from user pages to byte frames, sends different pages to different frames in RAM. |
| `UserCopy.TreeStore` | kernel/vm.c:367 | Bytes stored in one user frame change that frame of the view, not the table. |
| `UserCopy.User.CopyOut` | kernel/vm.c:354-374 | Succeeds if and only if every page of the range is there; the bytes before the first missing page are written, and no other byte of memory changes. |
| `UserCopy.User.CopyIn` | kernel/vm.c:379-399 | Succeeds under the same condition, with exactly the bytes shown there. |
| `UserCopy.User.CopyInStr` | kernel/vm.c:405-442 | Succeeds if and only if a NUL lies within the limit with every byte before it mapped; then the string up to it. |
| `UserCopy.RoundTrip` | kernel/vm.c:354-399 | What copyout wrote is what copyin reads. |
| `UserCopy.NulMeaning` | kernel/vm.c:405-442 | Where the string ends: the first NUL, all before it mapped and not NUL. |
| `Scheduler.OneCpu` | kernel/proc.c:456-491 | A process is current on at most one CPU. |
| `Scheduler.LoadsSaved` | kernel/proc.c:456-518 | No CPU loads a context that is not saved whole, or while another CPU is on its stack. |
| `Scheduler.IdleWhenFree` | kernel/proc.c:397-447 | A process that is not RUNNING and whose lock is free is on no CPU: what wait frees and fork reuses is at rest. |
| `Scheduler.StepKeepsHandOff` | kernel/proc.c:456-584 | Every step of every CPU keeps the lock hand-off across swtch. |
| `Scheduler.StepKeepsSleep` | kernel/sleeplock.c:21-41 | Every step keeps the invariant that whoever sleeps on a free sleep lock is about to be woken. |
| `Scheduler.NoLostWakeup` | kernel/proc.c:554-600 | A process asleep on a sleep lock whose spinlock is free: the lock is held by someone. |
| `SleepLocks.MutualExclusion` | kernel/sleeplock.c:21-52 | In every state of every run from boot, for every sleep lock: at most one process is between its acquiresleep and its releasesleep, the lock is marked locked if and only if there is one, and its recorded owner is that one. |
| `SleepLocks.AcquiresExactly` | kernel/sleeplock.c:21-31 | acquiresleep lets a process in if and only if nobody holds the lock, and else sends it to sleep. |
| `SleepLocks.ReleasesExactly` | kernel/sleeplock.c:33-41 | Only the holder gives a sleep lock back, and then nobody holds it. |
| `Scheduler.StepKeepsWait` | kernel/proc.c:332-447 | Every step keeps the invariant between scanning and sleeping parents and dying children. |
| `Scheduler.NoZombieMissed` | kernel/proc.c:397-447 | A parent asleep in wait has no zombie child, unless it is init and the dying child noted another parent before it was given to init. |
| `Scheduler.RunInv` | kernel/proc.c:258-636 | All three invariants hold in every state of every interleaving of any number of CPUs and processes from boot, with processes preempted at any point of the kernel where they hold no lock (kernel/trap.c:152-154). |
| `Families.RunFamilies` | kernel/proc.c:305-447 | In every state of every run from boot, children have live parents and whoever sleeps in wait has looked over the table. |
| `Families.FamilyLaw` | kernel/proc.c:397-447 | So a process asleep in wait has a child and is not killed, and a parent is neither unused nor a zombie. |
| `Families.KillWakes` | kernel/proc.c:617-636 | kill marks exactly its target and makes it runnable if and only if it slept. |
| `Scheduler.InitMissesExactly` | kernel/proc.c:332-393 | From boot some run leads to init asleep in wait while a zombie has it as its parent and neither's lock is held, if and only if there are at least three processes and a CPU. |
| `Virtio.AtMostTwo` | kernel/virtio_disk.c:154-166 | Eight descriptors hold at most two requests. |
| `Virtio.ComparisonExact` | kernel/virtio_disk.c:256 | The comparison of ring indices modulo the ring size is right: unequal if and only if completions wait. |
| `Virtio.Disk.AllocDesc` | kernel/virtio_disk.c:116-126 | The lowest free descriptor, or none. |
| `Virtio.Disk.Alloc3Desc` | kernel/virtio_disk.c:154-166 | Three different free descriptors, or none taken and fewer than three free. |
| `Virtio.Disk.Submit` | kernel/virtio_disk.c:168-238 | A new request with its own descriptors is on the available ring, or the driver must sleep and nothing changed; requests already out are untouched. |
| `Virtio.Disk.Fetch` | kernel/virtio_disk.c:230-236 | The device takes the heads in the order they were put. |
| `Virtio.Disk.Complete` | kernel/virtio_disk.c:179-206 | Following the chain, the device moves the block between the buffer and the disk block of that very request, in either order of requests. |
| `Virtio.Disk.Intr` | kernel/virtio_disk.c:251-270 | Every waiting completion is seen once, and its buffer handed back. |
| `Virtio.Disk.FreeChain` | kernel/virtio_disk.c:142-152 | Exactly the three descriptors of a chain are freed. |
| `Virtio.Disk.Finish` | kernel/virtio_disk.c:239-249 | When the buffer is handed back, buffer and block both hold the data the request was for, and its descriptors are free. |
| `Pipe.PipeBuf.constructor` | kernel/pipe.c:22-56 | Empty, open at both ends, no sleepers. |
| `Pipe.PipeBuf.Write` | kernel/pipe.c:76-100 | The bytes sent grow by exactly the next part of the buffer that fits; it returns, fails or sleeps by exact conditions. No reader is left asleep beside data, if and only if it is not a killed or readerless write that filled the pipe. |
| `Pipe.LostReader` | kernel/pipe.c:76-127 | A run from a new pipe to that state: a read sleeps, a killed process writes 513 bytes, and the reader is left asleep before a full ring. |
| `Pipe.PipeBuf.Read` | kernel/pipe.c:102-127 | The bytes come out in the order sent; one that cannot be delivered is lost. |
| `Pipe.PipeBuf.Close` | kernel/pipe.c:58-74 | The other side's sleepers are woken; the memory goes with the second end, when no one sleeps on it. |
| `Pipe.PipeBuf.KillWriter` | kernel/pipe.c:82-89 | A writer killed in its sleep fails at once, sends nothing more, and leaves every sleeper with a reason to sleep. |
| `Umalloc.UnitsEnough` | user/umalloc.c:69 | A block holds its header and the bytes asked for, with less than a unit to spare. |
| `Umalloc.SbrkArgExact` | user/umalloc.c:52-54 | sbrk, whose argument is an int, grows memory by what morecore counts on if and only if the count is below 2^27 units. |
| `Umalloc.Allocator.Search` | user/umalloc.c:29-32 | The walk stops at the one neighbour in address order, from any starting point of the ring. |
| `Umalloc.Allocator.Free` | user/umalloc.c:24-44 | The ring stays sorted, disjoint and fully joined; exactly the block leaves those handed out, its bytes lie inside one free block, and the bytes covered by all blocks are the same. |
| `Umalloc.Allocator.Morecore` | user/umalloc.c:46-61 | A refusal changes nothing; else the ring gains the new memory and a block large enough. |
| `Umalloc.Allocator.Take` | user/umalloc.c:75-85 | All of a fitting block or its tail becomes a new live block; no byte is lost. |
| `Umalloc.Allocator.Malloc` | user/umalloc.c:63-90 | 0 if and only if nothing fits and sbrk refuses; else a block disjoint from all live ones, which keep place and size. All blocks lie in the process's memory, if and only if no request of 2^27 units or more went to sbrk. |
| `Shell.RoundTrip` | user/sh.c:354-456 | Printing a command and parsing it gives it back if and only if no exec in it has ten arguments or more. |
| `Shell.TextRoundTrip` | user/sh.c:275-456 | The same for text, through the tokenizer, with any blanks before and between the tokens and none where two tokens do not run together. |
| `Shell.Parser.Gettoken` | user/sh.c:275-318 | One token of the line is consumed, with the span of a word. |
| `Shell.Parser.Peek` | user/sh.c:320-330 | Whether the next token starts with one of the characters; the tokens left are the same. |
| `Shell.Parser.ParseRedirs` | user/sh.c:384-407 | The redirections in their order, or the error of a missing file name. |
| `Shell.Parser.ParseExec` | user/sh.c:425-456 | Words and redirections as the grammar reads them, or its error. |
| `Shell.Parser.ParseBlock` | user/sh.c:409-423 | A parenthesised line with the redirections after it. |
| `Shell.Parser.ParsePipe` | user/sh.c:371-382 | A pipe associates to the right. |
| `Shell.Parser.ParseLine` | user/sh.c:354-369 | Background marks and lists as the grammar reads them. |
| `Shell.Parser.ParseCmd` | user/sh.c:337-352 | A command if and only if the grammar reads the whole line; its spans show the words. |
| `Shell.NulTerminate` | user/sh.c:459-503 | A NUL is written after each word of the command, and no other byte changes. |
| `Shell.WordsSurvive` | user/sh.c:459-503 | Afterwards every argument and file name, read as a C string, is the word that stood in the line. |
| `ShellRun.RunMeans` | user/sh.c:57-131 | Over descriptor tables in which open, dup and pipe take the lowest free descriptors, and with any opens failing: every program of every command runs with the input and output the command gives it, and beside those with exactly the shell's own descriptors, so with no stray end of a pipe. It takes open input and output and two free descriptors. |
| `ShellRun.LineRuns` | user/sh.c:384-456 | A line of words and redirections, typed, parsed and run: its program gets the files of the leftmost input and the leftmost output redirection, opened with the flags of their signs. |
| `ShellRun.StartupReady` | user/sh.c:154-160 | After the shell's first loop descriptors 0 to 2 are open, and what was open stays. |
| `Grep.MatchHere` | user/grep.c:83-94 | Matches at the start of the text exactly by the meaning of the pattern. |
| `Grep.MatchStar` | user/grep.c:97-104 | Some number of repetitions and then the rest. |
| `Grep.Match` | user/grep.c:70-80 | Somewhere in the text, or at its start for an anchored pattern. |
| `Grep.Run` | user/grep.c:10-34 | The output through a fixed buffer, whatever sizes read() hands back, is a function of pattern and input only. |
| `Grep.ExactWhenLinesFit` | user/grep.c:10-34 | It is what an unbounded filter would print, for every pattern, if and only if each complete line is shorter than the buffer by at least one. |

## Findings

Properties one would expect that the code does not have, each with its exact condition or a run.

- The log area mkfs makes has LOGSIZE blocks including the header (mkfs/mkfs.c:25), while
  kernel/param.h:10 counts data blocks only. Two processes that pass the test in log_write before
  either stores its number write past it: `LogProtocol.OverrunsExactly`; and an operation within
  its budget can be panicked: `LogProtocol.RefusesExactly`.
- Recovery unpins buffers that were never pinned. Each replayed block leaves a buffer whose
  reference count has wrapped around; the next bget of that block brings it to zero, and the buffer
  can be recycled under its holder: `LogLayer.Log.Recover`, `CacheRuns.StealsExactly`.
- mkfs rounds up the root's size even from a block boundary, so with 62 files (64 entries) the root
  has a hole, which readi() fills by allocating a block: `Mkfs.Image.RoundUpSize`,
  `Mkfs.FullRoot`, `Files.Readi`.
- LOGSIZE equals NBUF, so a full header would leave commit no buffer: `LogLayer.Log.RoomExactly`.
- A killed writer, or one without a reader, can fill the pipe and fail without waking a sleeping
  reader: `Pipe.PipeBuf.Write`, `Pipe.LostReader`. A byte that piperead cannot deliver is lost: `Pipe.PipeBuf.Read`.
- sbrk takes an int, so a request of 2^27 units or more moves the end of memory elsewhere than
  morecore believes: `Umalloc.SbrkArgExact`, `Umalloc.Allocator.Malloc`. Where the end moved down,
  the program usually faults at the header it stores there.
- A process in a directory that was removed, and whose parent was removed after it, panics the
  kernel by looking up "..": `Links.RemovedParent`, with the exact condition in
  `Links.PanicsExactly`. Files made in a removed directory keep a link count without a name:
  `Links.CreateKeeps`, `Links.LinkKeeps`.
- exit() notes the parent to wake and gives up its own lock before it takes the parent's. A parent
  that exits in between gives the child to init, which is then not woken and can sleep in wait()
  beside a zombie; three processes and one CPU are enough: `Scheduler.InitMissesExactly`.
- Of several redirections of one kind the leftmost counts, though all files are opened, because the
  one parsed last is opened first: `ShellRun.LineRuns`.
- writei() returns the length asked for when the copy from user memory fails: `Files.Writei`.
- grep stops at the first line that does not fit its buffer and drops everything after it:
  `Grep.ExactWhenLinesFit`.
- exec() keeps the low 32 bits of a segment's file offset, and of the place of the program headers:
  `ElfFormat.FileReads`. A first segment of no size is refused: `Elf.Good`.

## Left out

- Trap entry and return, the trampoline, the PLIC, the UART and console, timer interrupts, and the
  assembly of swtch: a context switch is two steps, and interrupts are choices of the running
  process.
- Spinlocks as code: taking and giving back a lock is an atomic step of `Scheduler` and
  `LogProtocol`; elsewhere a method is one critical section and its callers are not interleaved.
- The memory model of the machine and of the device: the fences in the driver and the locks are
  taken to work.
- The file table (filealloc, filedup, fileclose), device files and what sys_open makes of its
  flags; `Links` has open and close as holding and dropping an inode, `ShellRun` descriptors.
- The inode cache (iget, idup, ilock as locks) and the splitting of a path into elements: a path is
  a sequence of names.
- The kernel's own page table, kvmpa and the kernel stacks.
- The path lookup of exec(): the file is there, as the sequence of its bytes.
- The order in which programs that the shell started run, and what they do: `ShellRun` has their arguments and descriptors.
- Liveness: that a sleeper is scheduled again, that a commit ends, that malloc's caller gets memory.
- The other user programs: they would add only easy members.
- MutualExclusion: kernel code is taken to release a sleep lock only where it holds it and to exit with none
  held, which its callers check by holdingsleep or by their structure.
- Recover: a header that names NBUF blocks or more, or one block twice, which no commit writes.
- Commit: like every result over `LogLayer.Log.Inv`, it says nothing about a boot that replayed a
  block, after which the invariant does not hold.
- Morecore: memory above the break is taken to be writable, where the program usually faults.
- Kfree: freeing a page that is on the free list already, which the code does not detect.
- Complete: the device reports success; a failed request panics the driver and is not modelled.
- Wake: kill() of a process asleep elsewhere than in this pipe is part of `Scheduler` only.
