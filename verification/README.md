# JOS in Dafny

A model of the hard parts of JOS, a small multiprocessor exokernel with a user-level file
server, and proofs about it. `dafny verify dfyconfig.toml` takes the whole project.

**Virtual memory and fork.** `PageTables` reads and writes two-level page tables stored in
physical frames. `Kernel` is the physical page allocator with its linked free list and 16-bit
reference counts, and the page-table operations; `Syscalls` and `Environments` are the system
calls and the life cycle of environments on top. `Cow` states copy-on-write fork as a machine
over the page tables and proves that every run of it looks like the run of an eager machine in
which every environment has its own copies. `Fork` is the library code, `Sharing` the system
calls that map a page at a second place, `Dumbfork` the eager copy of a whole program; both are
proved to take the steps of these machines. `EnvIds` is the arithmetic of environment ids.

**File system.** `Blocks` has the on-disk structures and the ownership invariant, `BlockCache`
the write-back cache, `Space` the count of free and needed blocks, `FileSystem` block
allocation, block maps, reads, writes, truncation and flushing, `DirSpace` what a search through
a directory answers and costs, `Directories` lookup, creation and path names, `Format` the
program that makes the first image.

**Heap.** `Heap` is the lwIP heap: an in-place list of blocks that split and coalesce.

**Processors.** `Scheduler` is the round-robin choice, `Machine` the CPUs, the big kernel lock
and the status of environments as one step system, `Fairness` how long an environment waits over
whole runs of it, `Smp` the kernel code that makes these steps on state updated in place,
`Unguarded` the runs from boot that go wrong where a permitted call is not guarded, `Ipc` the
message logs over whole runs, `Mail` message passing with pages.

**Pipes and symbols.** `PipeRing` is the shared ring, `PipeClose` the detection of a closed end
by reference counts, `Stabs` the binary search over debugging symbols.

Each invariant is a conjunction of quantifiers over small predicates (`...At`), one fact each;
proofs name the instances they use. A page's references are kept as a set of places (`refs`),
and a block's owner as a map (`own`); both are ghost state tied to the real structures by the
invariants. A panic of the original is a false result, or is proved unreachable.

Where code and documentation differ the model follows the code:

- `sys_env_set_status` and `env_destroy` do not check what the scheduler relies on. The safety
  theorem is about guarded calls, the guards are proved to be exact, and runs from boot show
  what happens without them.
- `fork` maps a descriptor before its pipe, though `_pipeisclosed` relies on the other order: a
  reader can be told "closed" while a child is being copied. The exact condition is proved.
- `sched_yield` goes round robin from the current environment, but starts from slot 0 whenever
  that has just gone. The bound on the wait and a run on which it never ends are both proved.
- A lookup fills the holes of the directories it goes through, so that it can fail for lack of
  space. The answers of the walk and of `file_create` count these blocks.
- `fsformat` without files leaves an image that is not in order.
- `stab_binsearch` is documented to leave left > right when no entry contains the address. It
  does so only when there is no entry of the type at all.
- `stab_binsearch` goes on for addr + 1 after a hit and can return a later entry.

## Model

| member | source | states |
|---|---|---|
| `Cow.CowRefinesEager` | lab/lib/fork.c:14-154 | For every run of stores, page copies by fork, faults, allocations, second mappings, unmaps, creations and exits by any number of environments, what each environment sees equals the run of the eager machine with the same steps, and a writable page that is not shared stays mapped once |
| `Cow.StepSimulates` | lab/lib/fork.c:14-95 | One step of the copy-on-write machine is the same step of the eager machine, and keeps the separation of private writable pages |
| `Cow.StoreStaysPrivate` | lab/lib/fork.c:65-95 | A store into a page without PTE_SHARE shows nowhere but at the page stored to |
| `Cow.StoreReachesSharers` | lab/lib/fork.c:72-77 | A store into a PTE_SHARE page shows at every place that maps it |
| `Cow.FaultUnseen` | lab/lib/fork.c:27-51 | A fault on a page that is not shared shows nowhere, except that PFTEMP is unmapped |
| `Cow.MapExact` | lab/kern/syscall.c:246-280 | Mapping a page at a second place keeps private writable pages apart if and only if both mappings share the page or neither can write it |
| `Sharing.MapPage` | lab/kern/syscall.c:246-280 | A successful sys_page_map to another place changes that mapping only, and ends the separation of private writable pages exactly by the permissions of the two mappings |
| `Sharing.SendPage` | lab/kern/syscall.c:345-387 | The same for a page sent with sys_ipc_try_send; where none goes over, nobody sees a difference |
| `Fork.PgFault` | lab/lib/fork.c:14-52 | The handler succeeds exactly for a write to a copy-on-write page with memory left, then takes the Fault step of the machine, also for a page marked shared, which is shared no longer; on failure no mapping and no visible byte changed; the calls after the copy never fail |
| `Fork.DupPage` | lab/lib/fork.c:65-95 | Succeeds exactly when the child has, or can get, a page table and the permissions are legal; then takes the Dup step and at most one free page, for that table; on failure nothing changed |
| `Fork.ForkChild` | lab/lib/fork.c:113-154 | fork succeeds exactly if a slot is free, no mapped page below the exception stack is marked shared without PTE_U, and the free pages cover the directory, one page table for each 4 MB with a mapped page or the exception stack, and the stack page. Then the child sees the parent's pages below the exception stack, private unless shared, and a zeroed exception stack; every other environment sees what it saw; after a failed one everyone but the unfinished child sees what it saw |
| `Fork.DupAll` | lab/lib/fork.c:131-138 | The loop copies exactly the mapped pages below the exception stack, at the price of their page tables; where it fails the whole copy could not be paid for or a shared page has no PTE_U |
| `Fork.Exofork` | lab/kern/syscall.c:78-98 | Fails exactly without a free environment or without memory, changing nothing; else the child is a fresh environment of the caller, reachable by its id, with no page and no page table below UTOP, for one free page; nobody's view changes |
| `Fork.UnmapPage` | lab/kern/syscall.c:289-305 | The call takes the Unmap step of the machine |
| `Fork.Leave` | lab/kern/env.c:422-470 | env_free takes the Exit step of the machine |
| `Fork.ExitSteps` | lab/kern/env.c:422-470 | Losing every mapping of one environment, with all other contents kept, is the Exit step |
| `Dumbfork.EagerDupPage` | lab/user/dumbfork.c:25-38 | Succeeds exactly when the free pages cover the copy and the page tables needed, counting a page that is given back on the way; then the child has a private writable page with the parent's bytes and nothing else that anyone sees changed, except that UTEMP is unmapped; on failure nobody but the child, and the parent at UTEMP, sees a difference |
| `Dumbfork.CopyIsEagerDup` | lab/user/dumbfork.c:25-38 | For a page the parent may write and does not share this is the Dup step of the eager machine |
| `Dumbfork.DumbFork` | lab/user/dumbfork.c:40-79 | Succeeds exactly if a slot is free and the free pages cover the directory, one page for each page of the program and for the stack, their page tables and the one for UTEMP, counting a page at UTEMP that the first copy gives back. Then the child has a private copy of every page of the program and of the stack page; on failure nobody but the unfinished child and the caller at UTEMP is affected |
| `Dumbfork.DumbViewAt` | lab/user/dumbfork.c:64-68 | The loop gives the child exactly the pages from UTEXT to the end, with the bytes of the parent |
| `Dumbfork.ForkMatchesDumbfork` | lab/lib/fork.c:131-138 | Where the parent has only private writable pages, fork and dumbfork show the same at every page both copy and at every other environment |
| `Kernel.CountsAtBoundary` | lab/kern/pmap.c:310-637 | At every boundary pp_ref of a page is the number of entries, page tables and page directories that refer to it; the free list holds exactly the pages nothing refers to, once each |
| `Kernel.Kernel.constructor` | lab/kern/pmap.c:310-368 | Boot establishes the accounting, with exactly the documented pages free |
| `Kernel.Kernel.PageAlloc` | lab/kern/pmap.c:382-397 | Takes the head of the free list, null exactly if it is empty, and keeps the accounting |
| `Kernel.Kernel.PageFree` | lab/kern/pmap.c:403-414 | Puts the page back; its pp_ref and pp_link are proved to be zero, so the panic is never reached |
| `Kernel.Kernel.PageDecref` | lab/kern/pmap.c:420-425 | Drops one reference and frees the page exactly when it was the last |
| `Kernel.Kernel.PgdirWalk` | lab/kern/pmap.c:449-481 | Finds the page table, or makes one from a free page; fails exactly without one and without memory; changes no mapping and no data page |
| `Kernel.Kernel.PageInsert` | lab/kern/pmap.c:547-572 | Maps the page at that place only, with the counts of old and new page adjusted, also for a remap of the same page; takes a free page exactly for a missing page table and gives one back exactly for the last reference to the page mapped before; fails exactly for lack of a page table, changing nothing |
| `Kernel.Kernel.PageRemove` | lab/kern/pmap.c:585-637 | Unmaps that place only and frees the page exactly if this was its last reference |
| `Syscalls.SysPageAlloc` | lab/kern/syscall.c:198-228 | E_BAD_ENV exactly for an id that is neither 0 nor that of the caller or of a child of it; then E_INVAL exactly for an address at or above UTOP or not page-aligned or permissions without PTE_U or PTE_P or with others than allowed, and E_NO_MEM exactly if the free pages do not cover the page and a missing page table. Success maps one zeroed page that was free, failure changes no mapping; the boundary invariant holds again |
| `Syscalls.SysPageMap` | lab/kern/syscall.c:246-280 | E_BAD_ENV exactly if one of the two ids stands for nobody that the caller may manipulate; then each error exactly for the addresses, permissions, missing or read-only source page or missing page table that the source names. Success maps the source page at the destination only, failure changes nothing |
| `Syscalls.SysPageUnmap` | lab/kern/syscall.c:289-305 | E_BAD_ENV exactly if the id stands for nobody that the caller may manipulate, E_INVAL exactly for a bad address; success clears that mapping only, and frees the page exactly if this was its last reference |
| `Environments.EnvSetupVm` | lab/kern/env.c:168-204 | Gives the environment a page directory made of the kernel's entries and the self map; fails exactly without memory |
| `Environments.EnvAlloc` | lab/kern/env.c:214-278 | Takes the head of the free list of slots, gives it the next id and a directory with nothing below UTOP, also at boot when no environment is current; each error exactly in its case, with nothing changed |
| `Environments.EnvRun` | lab/kern/env.c:525-558 | From accounting in order, switching to an environment with a directory gives a boundary |
| `Environments.Boot` | lab/kern/init.c:61-95 | From the first instruction of the page allocator to the first environment: a boundary is reached exactly if any page is free |
| `Environments.EnvFree` | lab/kern/env.c:422-470 | The environment loses every mapping, page table and its directory; nothing of any other environment changes, contents included |
| `Environments.FreedCounts` | lab/kern/env.c:422-470 | Each page's count falls by exactly that environment's references, and it is free afterwards exactly if no other reference is left |
| `Environments.StripAll` | lab/kern/env.c:437-458 | The nested loops remove every entry and page table below UTOP of this environment and no other |
| `EnvIds.StaleIdRejected` | lab/kern/env.c:75-109 | After a slot was reused up to 2^19 - 2 times, an id it had before is rejected |
| `EnvIds.IdsRepeat` | lab/kern/env.c:228-232 | One reuse more and the id comes back, with 32-bit wrap-around |
| `EnvIds.IdsNameSlots` | lab/kern/env.c:228-232 | Ids are positive, their low bits are the slot, and different slots never share one |
| `EnvIds.IdFormula` | lab/kern/env.c:228-232 | The id after any number of reuses in closed form |
| `EnvIds.LookupExact` | lab/kern/env.c:75-109 | envid2env finds a slot exactly if the slot is what the id stands for: the caller's own for 0, else the one that is taken and has that id, and with the permission check only if it is the caller or a child of it; it fails exactly if there is none |
| `EnvIds.WhoFinds` | lab/kern/env.c:75-109 | The caller is found by 0 and by its own id, a child by its id; any other environment, and an id that nobody has, is refused |
| `Heap.Heap.constructor` | lab/net/lwip/core/mem.c:259-286 | One free block; the heap invariant holds and nothing is allocated |
| `Heap.Heap.Malloc` | lab/net/lwip/core/mem.c:479-605 | In terms of the live allocations alone: null exactly for size 0 or when no gap between them has room for a header and the aligned size, changing nothing; else the lowest place that has room, aligned. The allocation ends right behind the asked size if the gap has room there for another header and the least block, and else where the gap ends |
| `Heap.MallocDetermined` | lab/net/lwip/core/mem.c:479-605 | What mem_malloc does depends on nothing but the live allocations: not on the hint, on stale headers or on the history |
| `Heap.FreeUndoesMalloc` | lab/net/lwip/core/mem.c:294-340 | mem_free undoes mem_malloc, and the next request of that size gets the same place again |
| `Heap.MallocTwice` | lab/net/lwip/core/mem.c:532-573 | What mem_malloc leaves of the gap it found can be allocated: a second request succeeds whenever the gap had room for both |
| `Heap.FitsOpen` | lab/net/lwip/core/mem.c:515-595 | First fit over the blocks is the lowest open place between the live allocations |
| `Heap.Heap.Scan` | lab/net/lwip/core/mem.c:515-595 | The scan from lfree stops at the block that first fit from the heap start would pick |
| `Heap.Heap.AdvanceHint` | lab/net/lwip/core/mem.c:574-583 | lfree ends at the lowest free block |
| `Heap.Heap.Take` | lab/net/lwip/core/mem.c:532-583 | The block ends right behind the asked size if the rest can hold a block of its own, and else where it ended before; all other allocations are unchanged |
| `Heap.Heap.Free` | lab/net/lwip/core/mem.c:294-340 | Removes exactly that allocation and coalesces; pointers outside the heap change nothing |
| `Heap.Heap.PlugHoles` | lab/net/lwip/core/mem.c:221-254 | Merging with free neighbours restores the invariant without touching live allocations |
| `Heap.Heap.Realloc` | lab/net/lwip/core/mem.c:354-468 | Null exactly if the block would have to grow; else the same block, ending where the asked size ends exactly if there is open space behind it or the rest can hold a block of its own, all other allocations unchanged |
| `Heap.Tiles` | lab/net/lwip/core/mem.c:221-254 | Every byte of the heap lies in exactly one block |
| `Heap.LiveDisjoint` | lab/net/lwip/core/mem.c:479-605 | Live allocations never overlap, headers included, and stay inside the heap |
| `Heap.EndPrevFree` | lab/net/lwip/core/mem.c:431-433 | No part of the invariant depends on the prev field of the end marker |
| `Heap.BlockSizeLeast` | lab/net/lwip/core/mem.c:493-500 | The aligned size is the least legal block size for a request |
| `BlockCache.Cache.FaultIn` | lab/fs/bc.c:36-76 | Reading a block in changes nothing that the file server sees |
| `BlockCache.Cache.Get` | lab/fs/bc.c:5-11 | A read through the cache returns the block the file server sees |
| `BlockCache.Cache.Put` | lab/fs/bc.c:5-11 | A write changes the view of that block only and marks it dirty |
| `BlockCache.Cache.Flush` | lab/fs/bc.c:85-106 | Afterwards the disk holds the block as seen; the view and every other disk block are unchanged |
| `BlockCache.Cache.Sync` | lab/fs/fs.c:497-503 | Afterwards the whole disk equals the view and nothing is dirty |
| `Blocks.DistinctBlocks` | lab/fs/fs.c:142-202 | Under the invariant no block number is stored at two places |
| `FileSystem.FileServer.constructor` | lab/fs/fs.c:104-124 | A file server on a disk in order sees that disk and starts with the invariant |
| `FileSystem.FileServer.BlockIsFree` | lab/fs/fs.c:29-37 | Answers what the bitmap says; nothing beyond the disk is free |
| `FileSystem.FileServer.FreeBlock` | lab/fs/fs.c:40-47 | Sets that bit only |
| `FileSystem.FileServer.AllocBlock` | lab/fs/fs.c:57-75 | Takes the lowest free block, or fails exactly on a full disk; the bitmap is on disk afterwards; no file changes |
| `FileSystem.FileServer.FileBlockWalk` | lab/fs/fs.c:142-172 | The error is exactly the specified one; at most the indirect block is added, no block number is overwritten, no byte and no size changes |
| `FileSystem.FileServer.FileGetBlock` | lab/fs/fs.c:182-202 | Returns the block of the file, filling a hole if need be; fails for lack of space exactly if the free blocks do not cover the hole and a missing indirect block, and takes exactly as many as needed; reads of every file are unchanged, on errors too |
| `FileSystem.FileServer.FileRead` | lab/fs/fs.c:366-388 | Returns exactly the slice of the file's bytes, cut at its end, and changes no file's contents even when holes are filled; fails exactly if the free blocks do not cover the holes of the range, or the range goes beyond the largest file; reading a directory gives the length; the invariant is kept on errors |
| `FileSystem.FileServer.FileWrite` | lab/fs/fs.c:395-417 | On success the bytes [offset, offset + count) are the given ones and no other byte of any file changed; it succeeds exactly if the range stays within the largest file and the free blocks cover its holes and a missing indirect block, and each error is given exactly in its case; on an error a prefix was written; the size grows as needed |
| `FileSystem.FileServer.WriteLoop` | lab/fs/fs.c:407-414 | The loop writes the buffer block by block without gap or overlap, and stops exactly where the blocks of the whole range do not suffice |
| `Space.NeededNext` | lab/fs/fs.c:182-202 | Once a block is there, what the rest of the range needs is what was needed less what the block took |
| `FileSystem.WriteSplices` | lab/fs/fs.c:395-417 | As byte sequences: the file is the old one with the range replaced, or the old one, the gap and the data for a write past the end; every other file is as before |
| `FileSystem.GapZero` | lab/fs/fs.c:395-417 | The part of the gap behind the last block of the file reads as zero |
| `FileSystem.ReadBack` | lab/fs/fs.c:366-417 | Reading what was written gives it back |
| `FileSystem.FileServer.FileFreeBlock` | lab/fs/fs.c:421-434 | Clears the slot and returns the block to the bitmap; no other file changes |
| `FileSystem.FileServer.FileTruncateBlocks` | lab/fs/fs.c:445-461 | All slots beyond the new size are cleared, and the indirect block if it is not needed; nothing leaks |
| `FileSystem.FileServer.FileSetSize` | lab/fs/fs.c:464-472 | The size is set, bytes of the blocks that stay are kept, the blocks behind are free |
| `FileSystem.FileServer.FileFlush` | lab/fs/fs.c:478-493 | Afterwards the file's blocks, its inode block and its indirect block are on disk; blocks that were on disk stay so; the view is unchanged |
| `Directories.DirLookup` | lab/fs/fs.c:208-232 | Finds a file of that name, or the directory has none; fails exactly if the holes up to the block with the name, or up to the end, can not be filled, or if the directory without the name is larger than a file can be; takes exactly the blocks of these holes; no name, size or byte changes |
| `DirSpace.ScanMore` | lab/fs/fs.c:219-231 | Each turn of the search goes on, or ends it with the answer that the whole search has from the state before it |
| `Directories.SearchBlock` | lab/fs/fs.c:224-229 | The first entry of the block with that name, or none |
| `Directories.DirAllocFile` | lab/fs/fs.c:236-262 | An unused entry of the directory, grown by at most one block; it fails exactly if the holes up to the first unused entry can not be filled, or if there is none and the directory can not get one more block; no name and no byte of any file changes |
| `Directories.SkipSlash` | lab/fs/fs.c:265-271 | Skipping slashes changes no component of the path |
| `Directories.NameEnd` | lab/fs/fs.c:299-305 | The name cut off is the first component of what is left |
| `Directories.FirstPiece` | lab/fs/fs.c:299-305 | Splitting a string at its slashes: the first piece is what stands before the first slash |
| `Directories.WalkPath` | lab/fs/fs.c:279-327 | How far the path leads along its components from the root and why it stops; the answer is exactly the reason that the longest way along the names ends: the file at its end, a name of 128 or more characters, a name behind a file, a name that its directory lacks; or no space, exactly if the holes met on the way outnumber the free blocks, or an error, exactly if the last directory is larger than a file can be. The parent is reported exactly when only the last component is missing |
| `Directories.SearchStops` | lab/fs/fs.c:279-327 | A search that fails in the state the walk has reached is what the walk from the state before it answers, with the blocks of all searches on the way added up |
| `Directories.LongestUnique` | lab/fs/fs.c:279-327 | Where names are unique there is exactly one longest way along the names of a path |
| `Directories.NoRepeat` | lab/fs/fs.c:279-327 | No directory is on a path twice, so that filling the holes of one leaves those ahead as they were |
| `Directories.WalkExact` | lab/fs/fs.c:279-327 | Where names are unique, the walk succeeds with the one file at the end of the path if every name has less than 128 characters, and else is refused; "not found" means that no path exists |
| `Directories.PathUnique` | lab/fs/fs.c:279-327 | A path leads to at most one file |
| `Directories.FileCreate` | lab/fs/fs.c:335-353 | The answer is exactly that of the longest way along the names, in the state before: file exists, bad path and not found where the walk ends so; else success exactly if the directory has an unused entry or can get one more block; no space and an invalid size exactly in the remaining cases. On success exactly one name was added, the path leads to the new empty file, names stay unique; on any error no name changed; no byte, no directory bit and no size changes, except that the parent directory may grow by a block |
| `Directories.CreateDetermined` | lab/fs/fs.c:335-353 | Where names are unique the answer of file_create is a function of the state before and the path |
| `Directories.CreatePlain` | lab/fs/fs.c:335-353 | Where the directories on the way have no holes: file exists if and only if a path of short names leads to a file, bad path if and only if the way meets a name of 128 or more characters, not found if and only if a name before the last is missing or stands behind a file; and else success, no space or an invalid size by the unused entries, the free blocks and the largest size |
| `Directories.AddedUnique` | lab/fs/fs.c:335-353 | Adding a name that a directory lacks keeps names unique |
| `Format.MakeImage` | lab/fs/fsformat.c:218-243 | Succeeds exactly when the files fit; with at least one file the image satisfies the file-system invariant and every file is at the end of the path that is its name, with its bytes; names are unique exactly if the given names are distinct; with no file no ownership makes it satisfy the invariant |
| `Format.ImageExact` | lab/fs/fsformat.c:81-178 | The finished image is in order exactly when there is at least one file |
| `Format.ImageInv` | lab/fs/fsformat.c:81-178 | Slots are distinct, the bitmap marks exactly the used blocks, tails are empty |
| `Format.ImageBytes` | lab/fs/fsformat.c:180-209 | Reading a file of the image gives its source |
| `Format.ImageUnique` | lab/fs/fsformat.c:159-167 | Names on the image are unique exactly if the given names are |
| `Format.OneComponent` | lab/fs/fsformat.c:159-167 | A name that fits in an entry is a path of one component |
| `Format.NoFilesBreaks` | lab/fs/fsformat.c:169-178 | Without files the root directory gets a block that the bitmap calls free |
| `Format.RoundExact` | lab/fs/fsformat.c:34 | The unsigned ROUNDUP rounds up to blocks; the signed one does so exactly for sizes above 0 |
| `Format.AddFile` | lab/fs/fsformat.c:134-148 | Adding a file with its contiguous blocks and its table keeps the layout |
| `Format.Image.Alloc` | lab/fs/fsformat.c:81-89 | Hands out the next blocks; fails exactly when the last block would be reached |
| `Format.Image.OpenDisk` | lab/fs/fsformat.c:91-120 | Leaves an image without files, exactly if there are more than three blocks |
| `Format.Image.FinishFile` | lab/fs/fsformat.c:134-148 | The inode and table name the blocks in order; a table is made as soon as all direct slots are used |
| `Format.Image.WriteFile` | lab/fs/fsformat.c:180-209 | Succeeds exactly if there is an entry, the size is legal and the blocks are there; then the layout holds with one more file |
| `Format.Image.FinishDir` | lab/fs/fsformat.c:169-178 | The entries fill the last blocks and the root inode names them |
| `Format.Image.FinishDisk` | lab/fs/fsformat.c:122-132 | The bitmap marks exactly the blocks handed out |
| `Machine.RunSafe` | lab/kern/trap.c:323-381 | In every run of guarded steps on any number of CPUs: at most one CPU is past the lock, none panics (no double acquire, no foreign release, curenv present), no environment is current on two CPUs |
| `Machine.StepKeeps` | lab/kern/trap.c:323-381 | Every guarded step of every CPU keeps the machine invariant |
| `Machine.DyingFreedAtHome` | lab/kern/env.c:477-494 | A dying environment is freed only by the CPU it is current on, on entry to the kernel |
| `Machine.OthersRunOn` | lab/kern/env.c:477-494 | A step does nothing to the environment another CPU runs, except to mark it dying |
| `Machine.SetStatusExact` | lab/kern/syscall.c:107-129 | sys_env_set_status keeps the invariant if and only if the caller may not change the target, or the target is the caller, or is not running or dying and, when made runnable, does not wait for a message |
| `Machine.DestroyExact` | lab/kern/env.c:477-494 | env_destroy keeps the invariant if and only if the caller may not destroy the target or the target is not dying already; else it frees an environment that another CPU runs |
| `Machine.BootedInv` | lab/kern/init.c:61-145 | The state after boot satisfies the invariant |
| `Machine.EntersOnce` | lab/kern/trap.c:334-349 | In a machine in order a CPU that traps from user mode or wakes from a halt goes for the lock exactly once and does not hold it yet |
| `Machine.SpinsExactly` | lab/kern/spinlock.c:60-79 | A spinning CPU gets the lock exactly if no CPU is past it; else nothing changes |
| `Machine.AcquiresAlone` | lab/kern/spinlock.c:60-79 | After the acquire the CPU holds the lock and every other CPU is outside it |
| `Machine.ReleaseFrees` | lab/kern/spinlock.c:82-120 | After the release the lock has no owner and no CPU is past it |
| `Machine.RunsAlone` | lab/kern/env.c:525-558 | The environment that env_run switches to is running and current on this CPU alone; the one left is runnable again if it was running; no other changes |
| `Machine.ChecksOwn` | lab/kern/trap.c:350-357 | On entry curenv is there and runs or is dying; a dying one, and it alone, is freed and is current on no CPU afterwards |
| `Machine.ResumesOwn` | lab/kern/trap.c:372-380 | The CPU resumes its environment only if that still runs and no other CPU has it; else it goes to the scheduler with the lock held |
| `Machine.DestroysOrMarks` | lab/kern/env.c:477-494 | Destroying an environment that another CPU runs marks it dying and leaves that CPU alone; any other is free at once and current nowhere; of an environment that is neither the caller nor a child of it nothing changes |
| `Machine.SchedulesInOrder` | lab/kern/sched.c:72-91 | On a machine in order, a CPU that schedules switches to the runnable environment nearest after its current one, from slot 0 if it has none; if none is runnable it goes on with the current one if that was running; else it halts without a current environment, or enters the monitor exactly if no user environment is left; the one it leaves is runnable again and no other changes |
| `Unguarded.RunnableRunsTwice` | lab/kern/syscall.c:107-129 | A run from boot on two CPUs: an environment forks a child, which comes to run on the other CPU, makes it runnable while it runs, and both CPUs come to run it |
| `Unguarded.StoppedRunsTwice` | lab/kern/syscall.c:107-129 | The same from boot when the parent first stops the running child and then makes it runnable |
| `Unguarded.ReceiverRunsTwice` | lab/kern/syscall.c:107-129 | A run from boot in which a child that waits for a message is made runnable by its parent and runs, a send makes it runnable again, and both CPUs run it |
| `Unguarded.DestroyedWhileRunning` | lab/kern/env.c:477-494 | A run from boot in which the second env_destroy of a child by its parent frees it while the other CPU is running it |
| `Smp.Smp.SchedHalt` | lab/kern/sched.c:97-141 | Halts, or enters the monitor exactly if no user environment exists |
| `Smp.Smp.SchedYield` | lab/kern/sched.c:72-91 | With the lock held: the runnable environment nearest after the current one runs, from slot 0 if there is no current one; if none is runnable the current one goes on if it was running; else the CPU halts, or enters the monitor exactly if no user environment is left |
| `Smp.Smp.Step` | lab/kern/trap.c:323-381 | On a machine in order, the code of a guarded step does what the machine does and leaves it in order |
| `Scheduler.FindRunnable` | lab/kern/sched.c:73-85 | The loop finds the runnable environment nearest after the current one, or none exactly if none is runnable |
| `Scheduler.NextEnvSound` | lab/kern/sched.c:73-85 | The pick is a runnable environment, the nearest after the current one; none is picked only if none is runnable |
| `Scheduler.CloserNext` | lab/kern/sched.c:73-88 | Passing over an environment strictly shortens its circular distance |
| `Fairness.ServedInTime` | lab/kern/sched.c:72-91 | On every guarded run of the machine, an environment that is runnable whenever a CPU schedules, until that CPU runs it, is run by it within NENV of its scheduling steps; each time the CPU loses its current environment meanwhile the bound grows by NENV |
| `Fairness.WaitBounded` | lab/kern/sched.c:72-91 | Each scheduling step that passes the environment over uses up a place of the round that leads to it |
| `Fairness.KeepsOrDrops` | lab/kern/sched.c:72-91 | Between its scheduling steps a CPU keeps its current environment or loses it |
| `Fairness.CanStarve` | lab/kern/sched.c:73-76 | That condition is needed: on one CPU, a chain of programs each of which forks the next and exits keeps a runnable environment waiting for any number of scheduling steps, since the search starts again from slot 0 |
| `Ipc.ReceivedIsSent` | lab/kern/syscall.c:345-412 | In every run the messages received are, in order, those successfully sent, save at most one not read yet; each receive is answered by exactly one send |
| `Ipc.FailedSendsVanish` | lab/kern/syscall.c:345-387 | Without its failing sends every run goes through the same states, and every environment has sent and received the same messages |
| `Ipc.SendExact` | lab/kern/syscall.c:345-387 | In every guarded run a send succeeds exactly if the target exists and has made one receive more than was sent to it |
| `Ipc.FieldsStay` | lab/kern/syscall.c:379-383 | Over any stretch of any guarded run in which the environment starts no receive, the delivered fields and the receiving flag stay as they are |
| `Mail.SysIpcTrySend` | lab/kern/syscall.c:345-387 | Each answer exactly in its case, with the target named by its id without a permission check; a failed send changes neither mailboxes nor memory; a page is mapped exactly where both sides agree on one |
| `Mail.SysIpcRecv` | lab/kern/syscall.c:400-412 | Fails exactly on a misaligned address below UTOP, else waits at that address |
| `PipeRing.ReadIsPrefix` | lab/lib/pipe.c:104-172 | In every interleaving of reader and writer between check, copy and increment, the bytes read are a prefix of those written and 0 <= wpos - rpos <= size |
| `PipeRing.Pipe.Read` | lab/lib/pipe.c:104-137 | Takes the oldest bytes, as many as are wanted and there |
| `PipeRing.Pipe.Write` | lab/lib/pipe.c:139-172 | Appends as many bytes as fit |
| `PipeClose.ClosedIsTrue` | lab/lib/pipe.c:75-89 | As long as no fork is under way or was given up, the answer is "closed" if and only if no descriptor of the other end is left and no slot has its pipe page alone |
| `PipeClose.GoneForever` | lab/lib/fd.c:174-202 | An end that is gone never comes back |
| `PipeClose.AnswerExact` | lab/lib/pipe.c:75-89 | In every one-CPU interleaving of dup, close, fork, env_destroy and _pipeisclosed the answer is "closed" exactly when the descriptors of the other end and the pipe pages without descriptor together equal the descriptors without pipe page |
| `PipeClose.WrongExact` | lab/lib/pipe.c:75-89 | "Closed" is answered while the other end is open if and only if its descriptors, at least one, equal in number the surplus of half-mapped slots |
| `PipeClose.ForkFoolsReader` | lab/lib/fork.c:131-138 | Three environments share a pipe: one forks, and between its two page copies another reader is told that the writer is gone |
| `PipeClose.CountsRelate` | lab/lib/pageref.c:3-14 | How the three reference counts of a pipe are related, whatever is mapped |
| `PipeClose.NoForkNoEmbryo` | lab/lib/fork.c:113-138 | Runs without fork have no half-made environments |
| `PipeClose.QuietExact` | lab/lib/pageref.c:3-14 | Between operations the two counts are equal exactly when the other end is gone |
| `PipeClose.PipeCovers` | lab/lib/pipe.c:185-190 | Where every mapped descriptor has its pipe page, the pipe page has at least as many references as the two descriptor pages together |
| `PipeClose.StepKeeps` | lab/lib/fd.c:100-119 | Every step of close, dup, fork, env_destroy and the check keeps the order of mappings, which holds outside children still being copied |
| `Stabs.StabBinsearch` | lab/kern/kdebug.c:59-103 | With no entry of the type the range is empty; with all entries above the address it is the range before the first; else the result brackets the address if and only if the search does not overrun, or overruns past the last address and meets the right entry again |
| `Stabs.BracketsUnique` | lab/kern/kdebug.c:38-57 | There is one bracketing pair, so the result is that of a linear scan |
| `Stabs.NoSuccessor` | lab/kern/kdebug.c:59-103 | The search does not overrun where no entry of the type has the next address |
| `Stabs.SuccessorOverruns` | lab/kern/kdebug.c:84-91 | It overruns for the first of two entries one byte apart |
| `Stabs.LuckyExample` | lab/kern/kdebug.c:84-91 | With entries at the last two addresses the search overruns and still ends right |
| `Stabs.FindMatch` | lab/kern/kdebug.c:68-70 | The inner loop finds the last entry of the type up to the middle |
| `Stabs.FindRight` | lab/kern/kdebug.c:95-101 | The last loop finds the last entry of the type in the range |

## Left out

- Sizes of the file system, page tables and environment table are those of the source (10 direct and 1024 indirect slots, 4096-byte blocks, 1024 environments), not parameters; the heap, the pipe ring, the number of CPUs, of scheduled environments, of pages and of environments that share a pipe are arbitrary; each has 32 descriptors.
- Heap.Heap.Malloc: aligning the requested size is taken not to wrap around, and no other context frees memory during the call.
- Fork.ForkChild: starts from a state where every writable page that is not shared is mapped once and each page has room below the 16-bit limit of its count for the places at which the parent maps it; the calls that set the parent's and the child's fault handler and make the child runnable are not part of it.
- Dumbfork.DumbFork: the program is contiguous from UTEXT to its end and the stack page is mapped, as the source assumes; the call that makes the child runnable is not part of it.
- Fork.PgFault: the fault is not at PFTEMP, and nothing of the program is kept mapped there.
- Sharing.MapPage: a page mapped over itself with other permissions is no step of the machine.
- Cow.CowRefinesEager: a fault-handler run and a page copy are single steps; the TLB and the accessed and dirty bits are not modelled, the page tables are the truth.
- FileSystem.FileServer.FileWrite: the offset is not negative and the target is a regular file; 32-bit wrap-around of the sum is not modelled.
- FileSystem.FileServer.FileRead: for a directory only the length is stated; the bytes of an entry behind the end of its name are not modelled.
- FileSystem.FileServer.FileSetSize: says nothing about the bytes between the new size and the end of its last block, which the code does not clear.
- Directories.WalkPath: a path is the characters before the terminating zero.
- Format.MakeImage: the array of entries is taken to be zeroed when allocated, and file names are last path components of 1 to 127 characters. A longer one runs over the fields behind it in the entry, which is not modelled; `Directories.WalkExact` says that no path of such a name is ever followed.
- Machine.RunSafe: the direct status write of the network interrupt is not a step; the id that env_alloc gives is a parameter of the step.
- PipeClose.ClosedIsTrue: holds for one CPU, where every switch counts in env_runs; the counter does not wrap; spawn is not a step.
- The calls of pipe() that make the first two descriptors; `PipeClose` starts from what they leave.
- PipeRing.ReadIsPrefix: positions stay below 2^31.
- The environment free list is a sequence of slots, not linked through the slots.
- Pages reserved by the kernel at boot are not tracked; boot_alloc, boot_map_region and 4 MB pages are not modelled.
- Crash consistency of the disk between flushes.
- The bc_clean eviction, which is compiled out, and the priority scheduler, which is compiled out.
- Devices, boot code, traps other than the kernel entry path, the ELF loader and user programs.
- The request loops of the file and network servers and the lwIP stack above its heap.
