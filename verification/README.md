# A verified model of a teaching kernel

This project models the parts of a small multi-core x86 kernel in which the hard invariants live, and proves what
those parts are for. Everything is ordinary Dafny: `dafny verify dfyconfig.toml` checks the whole project.

Five areas are modelled, each in the form its source has: code that changes things in place is a class or a loop proved
equal to a function, and the theorems are about that function; concurrent code is a transition system with one step per
atomic access or spin-protected section.

1. **Heap** (`HeapModel`, `HeapSteps`, `HeapRuns`, `Heap`): the boundary-tag heap of the kernel and its user-space twin.
   One array holds tags, payloads and a doubly linked free list.
2. **Virtual memory** (`Frames`, `Paging`, `Ownership`, `OwnershipSteps`, `VmOps`, `VmFork`, `VmmClass`, `VmeModel`,
   `VmeProofs`, `VmeClass`, `AddressSpaces`, `AddressSpaceRuns`, `AddressSpaceEffects`, `PageFill`, `FaultFill`, `Bytes`):
   the frame allocator whose list lives in the free frames, two-level page tables in the format of section 4.3, "32-Bit
   Paging", of the Intel SDM Volume 3A, fork's deep copy, the page-fault handler, the range allocator, and all runs of them
   together.
3. **Scheduler and synchronisation** (`Queues`, `Semaphores`, `Scheduler`, `SchedulerProofs`, `SchedulerEffects`,
   `SchedulerRuns`, `Counting`, `BoundedBuffer`, `Barriers`, `Promises`, `BlockingQueues`, `SpinLocks`).
4. **File reads** (`BlockLists`, `BufferCaches`, `Ext2Files`, `FileReads`, `Directories`, `Paths`, `Lookups`,
   `DiskLookups`, `DiskLayout`): a 512-byte-sector cache under the indirection tree of the second extended file system,
   byte reads through both, directories, and path lookup. The layout is that of "Inode Table" and "Locating an Inode" in *The Second Extended
   File System: Internal Layout*.
5. **Reference counts** (`RefCounts`): strong and weak handles.

`Basics` holds what several modules share.

## Conventions

Addresses, sizes and counts that the source keeps in 32 bits are natural numbers below 2^32, and sums the code does not
check are taken modulo 2^32 (`Wrap`, `Sub32`, `Ints`). Physical memory is a map from frame number to 1024 words. The disk
is a fixed sequence of bytes whose length is a multiple of 512; clocks, the disk contents and thread identities are
parameters. A panic is a result (`Panic`, `Stopped`, `false`), never a precondition. Some states carry records no step looks
at (the role of each frame, the place of each thread, the tally of each semaphore, who holds a spin lock, logs of values
put, items added, objects destroyed); they exist so that the invariants can be stated. A run is a sequence of steps; a step
that is not possible when its turn comes does not happen.

Invariants alone do not say what a step does, so each transition system also has lemmas that tell the effect of every step
from the state before it, without the functions the step is made of (`SchedulerEffects`, `AddressSpaceEffects`, the
`StepDoes` lemmas, `SpinLocks.GoAdvances`, `RefCounts.HandlesAfter`), and accounts of whole runs counted from the steps
taken (`SchedulerRuns.TallyIsHistory`, `BoundedBuffer.LogsAreHistory`, `SpinLocks.InterruptsComeBack`).

## What turned out not to hold

- `malloc` computes `bytes + 3` in 32 bits: for the three largest sizes it grants a block of four words
  (`Heap.RequestFitsIff` says exactly when the request fits).
- `add_entry` computes `avail + size` in 32 bits: a request that wraps is accepted and moves `avail` backwards
  (`VmeProofs.AddEntryKeepsIff` is the exact condition, `VmeProofs.HalfOfMemoryOverruns` a concrete request). For whole
  address spaces the condition is the same (`AddressSpaceRuns.MmapKeepsIff`), and three requests suffice to put one address
  into two entries (`AddressSpaceRuns.TwoEntriesAfterWrap`).
- `add_entry` also computes `size + 4095` in 32 bits: a request above 2^32 - 4096 bytes is granted with no page at all, in an
  entry that is never removed (`VmeProofs.AcceptedHoldsIff`, `VmeProofs.EmptyEntryStays`,
  `VmeProofs.LargestRequestGetsNothing`).
- The page-fault handler computes `file_offset + page_offset` in 32 bits: past the wrap it shows the start of the file
  instead of zeros (`PageFill.FaultIsRightIff`, `PageFill.WrongWhenWrapped`).
- `read_all` with a count of 0 returns 0 past the end of the file, where its comment promises -1
  (`FileReads.PromiseKeptIff`).
- The user-space `realloc` takes the tags for payload. Its copy leaves the old payload exactly when the new size exceeds it
  (`Heap.OverReadIff`), and what it then delivers are a footer and a header (`Heap.OverReadTags`,
  `Heap.ReallocReadsFooter`). For the three largest sizes it may copy past the new payload (`Heap.StaysInsideIff`,
  `Heap.ReallocStrays`). It frees the old block also when there is no room for a new one, and reads before the array for the
  pointer of `malloc(0)` (both in `Heap.Heap.Realloc`).
- The disk driver reports a size of 0xFFFFFFFF bytes, so the tests in `BlockIO::read` never see the end of the disk, and a
  read past it asks for a sector that does not exist (`FileReads.DiskEndUnseen`). Reads of the disk therefore carry the
  caller's obligation that `kernel/block_io.h` names.

## Model

| member | source | states |
|---|---|---|
| `HeapModel.WalkFindsHeads` | kernel/heap.cc:20-34 | walking the tags from word 0 visits exactly the block headers: the header set used in the invariant is implied by the array |
| `HeapModel.EveryWordInOneBlock` | kernel/heap.cc:24-66 | every word of the array lies in exactly one block |
| `HeapModel.RetagTiled` | kernel/heap.cc:100-114 | writing one tag over whole blocks fuses exactly those blocks and keeps the tiling |
| `HeapModel.SplitTiled` | kernel/heap.cc:175-185 | two tags inside one block cut it in two and keep the tiling |
| `HeapModel.UnlinkWork` | kernel/heap.cc:84-98 | remove takes exactly one block off the doubly linked list, keeps all tags and the links of all other blocks |
| `HeapModel.PushWork` | kernel/heap.cc:100-109 | the list half of makeAvail puts a block at the front, keeps all tags and all other links |
| `HeapSteps.TakeInv` | kernel/heap.cc:175-185 | taking from any listed block that is large enough keeps the whole invariant (tiling, sentinels, list of exactly the free blocks, no two free blocks adjacent) and every word of every other live block; the granted block has at least the words asked for and fewer than four more |
| `HeapSteps.LeftIsBlock` | kernel/heap.cc:60-62 | the footer before a header leads to the header of the block that ends there |
| `HeapSteps.ReleaseInv` | kernel/heap.cc:204-221 | free with coalescing on both sides keeps the whole invariant and every word of every other live block |
| `HeapSteps.TakeThenRelease` | kernel/heap.cc:139-221 | free after malloc of the same block restores exactly the former division into blocks |
| `HeapRuns.RunKeeps` | kernel/heap.cc:139-221 | the invariant holds after every sequence of malloc, free and payload writes |
| `HeapRuns.RunSpares` | kernel/heap.cc:139-221 | over every such sequence a live block that is neither freed nor written keeps all its words |
| `Heap.RequestFitsIff` | kernel/heap.cc:144-145 | the rounded request has room for the bytes asked for exactly when `bytes + 3` does not wrap in 32 bits; the last three sizes get a block that is too small |
| `Heap.RequestIsSmallest` | kernel/heap.cc:144-145 | for all other sizes the request is the smallest block of at least four words with room for the bytes beside its two tags |
| `Heap.SmallestStep` | kernel/heap.cc:161-170 | one step of the search keeps the earliest of the smallest candidates |
| `Heap.SmallestIsBest` | kernel/heap.cc:151-173 | what the search keeps is, in terms of list positions alone: a block with room and fewer than twenty such blocks before it, no larger than any other of those, and smaller than any before it |
| `Heap.FittingAll` | kernel/heap.cc:154-173 | the candidates are empty exactly when no available block anywhere in the heap is large enough |
| `Heap.Heap.MakeTaken` | kernel/heap.cc:111-114 | writes the negative tag at both ends |
| `Heap.Heap.MakeAvail` | kernel/heap.cc:100-109 | writes the tag at both ends and pushes the block on the list |
| `Heap.Heap.Remove` | kernel/heap.cc:84-98 | the array and avail after unlinking, in place |
| `Heap.Heap.constructor` | kernel/heap.cc:125-137 | heapInit establishes the invariant with one available block between the sentinels |
| `Heap.Heap.Search` | kernel/heap.cc:151-173 | the loop returns the best fit (`BestFit`, by list positions): of the blocks with room that have fewer than twenty such blocks before them the smallest, and of equals the earliest; 0 if there is none |
| `Heap.Heap.TakeFrom` | kernel/heap.cc:175-185 | the taking step in place is the function the invariant is proved for |
| `Heap.Heap.Malloc` | kernel/heap.cc:139-188 | null exactly when no available block is large enough; otherwise the block granted has room and fewer than twenty such blocks before it, is no larger than any other of those and strictly smaller than those before it; it is live, outside all live blocks, and no live word changed |
| `Heap.Heap.Free` | kernel/heap.cc:190-221 | null and the array itself are ignored; freeing a block that is not taken is refused; otherwise the block is coalesced and the invariant kept |
| `Heap.Heap.FreeBlock` | kernel/heap.cc:204-221 | the coalescing step in place is the function the invariant is proved for |
| `Heap.Heap.Store` | kernel/heap.cc:84-221 | a write inside a live payload keeps the invariant and all other live blocks |
| `Heap.Heap.UserMalloc` | my-test.dir/sbin/heap.c:125-161 | the user heap returns the first fitting block: it has room and no block before it in the list has; null exactly when none fits |
| `Heap.Heap.Realloc` | my-test.dir/sbin/heap.c:193-218 | for every size and every pointer malloc gives out: null exactly when no block fits; byte i of the new payload is byte i of the old one for every i below the new size and inside the old payload (`Preserved`); byte i is copied exactly when i is below the new size and below the size of the whole old block, tags included; the old block is freed either way and all other live blocks keep their words; and exactly when the call leaves its blocks (the pointer of malloc(0), or a copy longer than the granted payload) |
| `Heap.OverReadIff` | my-test.dir/sbin/heap.c:208-214 | some byte past the old payload is copied exactly when the new size exceeds the old payload |
| `Heap.OverReadTags` | my-test.dir/sbin/heap.c:208-214 | the two words past a payload are the footer of the block and the header of its right neighbour |
| `Heap.SmallHeapInv` | my-test.dir/sbin/heap.c:101-123 | the small concrete heap of the next two rows satisfies the invariant, with one live block of four words |
| `Heap.ReallocReadsFooter` | my-test.dir/sbin/heap.c:208-214 | a concrete heap where realloc from 8 to 12 bytes delivers the footer tag as data |
| `Heap.StaysInsideIff` | my-test.dir/sbin/heap.c:129-130 | the copy stays inside the granted payload exactly when the rounding did not wrap or the granted block is two words longer than the old one |
| `Heap.ReallocStrays` | my-test.dir/sbin/heap.c:208-214 | a concrete heap where realloc to 2^32 - 1 bytes is granted 8 bytes and sets out to copy 16 |
| `Heap.FreedNotLive` | my-test.dir/sbin/heap.c:216-216 | the old block is no longer live |
| `Heap.Heap.CopyBytes` | my-test.dir/sbin/heap.c:211-214 | the copy loop: whole words, then the low bytes of one more, nothing else |
| `Heap.CopiedByte` | my-test.dir/sbin/heap.c:211-214 | byte i of the target is the source byte exactly below the count, and its old value above |
| `Heap.MergeBytes` | my-test.dir/sbin/heap.c:211-214 | merging k bytes into a word takes those from the source and keeps the others |
| `Heap.LiveStays` | my-test.dir/sbin/heap.c:208-217 | freeing the old block leaves the new one live with all its words |
| `VmeModel.CoalesceOk` | kernel/vme.cc:65-76 | one pass over sorted disjoint ranges leaves no two ranges touching and keeps the set of pages |
| `VmeModel.InsertEntryOk` | kernel/vme.cc:42-62 | sorted insertion keeps entries sorted and disjoint |
| `VmeModel.InsertRangeLoose` | kernel/vme.cc:79-95 | sorted insertion of a free range keeps ranges sorted and disjoint and adds exactly its pages |
| `VmeModel.WithoutEntry` | kernel/vme.cc:161-171 | taking an entry out keeps the rest sorted and disjoint and removes exactly its pages |
| `VmeModel.InEntryPages` | kernel/vme.cc:102-112 | a page is in the entries exactly when some entry has it |
| `VmeProofs.CutOk` | kernel/vme.cc:126-144 | first fit cuts exactly the requested pages from the front of a range, or removes it |
| `VmeProofs.NoFit` | kernel/vme.cc:126-144 | the search fails exactly when every free range is too small |
| `VmeProofs.AddressIs` | kernel/vme.cc:126-153 | the address add_entry returns: the start of the first range with enough pages; without one the end of the used range, or 0 when the sum is above the limit |
| `VmeProofs.AddEntryKeepsIff` | kernel/vme.cc:115-155 | add_entry keeps the invariant (entries and free ranges sorted, disjoint, not touching, together exactly the pages from start to avail, avail at most limit) exactly when the bump path is not taken with `avail + size` wrapping in 32 bits |
| `VmeProofs.HalfOfMemoryOverruns` | kernel/vme.cc:146-150 | a concrete request that breaks a fresh allocator: 0x80000000 bytes bring avail to 0 |
| `VmeProofs.AddEntryResult` | kernel/vme.cc:115-155 | refused exactly when the rounded request is positive and neither a free range nor the top has room, and then nothing changes; otherwise one new entry of the rounded number of pages, on pages that were available, which are then exactly the pages no longer available |
| `VmeProofs.AcceptedHoldsIff` | kernel/vme.cc:123-124 | an accepted positive request gets pages that hold it exactly when it is at most 2^32 - 4096 bytes |
| `VmeProofs.EmptyEntryStays` | kernel/vme.cc:158-182 | an entry of no pages is never removed |
| `VmeProofs.LargestRequestGetsNothing` | kernel/vme.cc:123-124 | on a fresh allocator 0xFFFFFFFF bytes are granted at 0x80000000 with no page, in an entry nothing removes |
| `VmeProofs.RemoveEntryResult` | kernel/vme.cc:158-182 | the pages of the removed entry become available, nothing else changes, and the invariant holds |
| `VmeProofs.AddThenRemove` | kernel/vme.cc:115-182 | remove_entry at the address add_entry returned restores the available pages and the entry pages |
| `VmeProofs.FindIsExact` | kernel/vme.cc:102-112 | an entry is found exactly for the pages of the entries, and it is the only one that covers the address |
| `VmeProofs.CoversExact` | kernel/vme.cc:106-108 | the 32-bit range test of an entry is exactly membership of the page |
| `VmeProofs.OneEntryPerPage` | kernel/vme.cc:102-112 | no page is in two entries |
| `VmeClass.VME.InsertEntrySorted` | kernel/vme.cc:42-62 | the insertion loop |
| `VmeClass.VME.Coalescing` | kernel/vme.cc:65-76 | the merging loop in place is one coalescing pass |
| `VmeClass.VME.InsertFreeSpace` | kernel/vme.cc:79-98 | sorted insertion followed by coalescing |
| `VmeClass.VME.Get` | kernel/vme.cc:102-112 | finds the one entry that covers the address, none exactly when the page is in no entry |
| `VmeClass.VME.TakeFree` | kernel/vme.cc:117-144 | the first-fit loop with the cut in place |
| `VmeClass.VME.AddEntry` | kernel/vme.cc:115-155 | the state and address after add_entry |
| `VmeClass.VME.RemoveEntry` | kernel/vme.cc:158-182 | the state after remove_entry |
| `Frames.AllocResult` | kernel/physmem.cc:20-41 | panics exactly when the list is empty and the bump pointer is at the limit; otherwise hands out a zeroed frame that was not in use, and no other frame changes |
| `Frames.DeallocResult` | kernel/physmem.cc:43-51 | the frame goes on the list once, the list stays well linked and distinct, no other frame changes |
| `Frames.WriteKeepsInv` | kernel/physmem.cc:12-16 | a write to a frame in use does not disturb the list inside the free frames |
| `Paging.AddMappingRefines` | kernel/vmm.cc:56-88 | add_mapping is an update of the map from page to (frame, flags) at one page and changes no other translation, also when the new table is built in a recycled frame; the directory words stay, but the word of a missing table, which gets the old low bits and the requested flags; it panics exactly when a table is needed and no frame is left |
| `Paging.RemoveMappingRefines` | kernel/vmm.cc:91-113 | remove_mapping deletes one page from the map, changes no other translation and returns the frame to the list |
| `Paging.WithTableKeeps` | kernel/vmm.cc:56-78 | building the missing table changes no translation and sets exactly that directory word's flags |
| `Paging.TableBits` | kernel/vmm.cc:72-77 | of the directory word's flags present is set, and write, user and global are each set exactly when requested or set before |
| `Paging.WalkIs` | kernel/vmm.cc:18-33 | bits 22 to 31 of an address choose the directory word, bits 12 to 21 the word of the table it names |
| `Ownership.ExactlyOneOwner` | kernel/vmm.cc:56-145 | a frame found in two places through page tables is one place, and it is not on the free list |
| `Ownership.NoFrameLost` | kernel/vmm.cc:56-145 | a frame in use is where its owner says, or held or the kernel's |
| `OwnershipSteps.LinkLeaf` | kernel/vmm.cc:79-88 | a held frame becomes the leaf of an unmapped page: one page appears, nothing else changes |
| `OwnershipSteps.UnlinkLeaf` | kernel/vmm.cc:105-110 | the leaf of a mapped page is given up: one page goes, nothing else changes |
| `OwnershipSteps.LinkTable` | kernel/vmm.cc:64-78 | a zeroed frame becomes a missing table without changing any page |
| `OwnershipSteps.UnlinkTable` | kernel/vmm.cc:48-54 | an empty table is given up without changing any page |
| `VmOps.UnmapIsRemoveMapping` | kernel/vmm.cc:91-113 | the step on owned frames is remove_mapping on the memory |
| `VmOps.UnmapStep` | kernel/vmm.cc:91-113 | exactly one page of one process goes, its frame is returned, every frame keeps one owner |
| `VmOps.UnmapRangeStep` | kernel/vme.cc:27-31 | the destructor of an entry unmaps exactly its pages and gives up only frames of that process |
| `VmOps.DropTableStep` | kernel/vmm.cc:48-54 | dropping an empty table returns its frame and changes no page |
| `VmOps.DropTablesStep` | kernel/sys.cc:176-178 | the loop of exec removes every private table and changes no page of any process |
| `VmOps.AllReturned` | kernel/sys.cc:174-180 | a frame of a cleared space is on the free list |
| `VmOps.MapPageStep` | kernel/vmm.cc:56-88 | mapping a held frame at an unmapped page of a process adds that page, with the requested flags in the table word and in the word of a new table, and nothing else |
| `VmFork.NewDirectoryStep` | kernel/vmm.cc:117-123 | a new process has a directory of its own and nothing private mapped |
| `VmFork.CopyPageStep` | kernel/vmm.cc:133-140 | one page copied: the child sees the flags of both levels and the words the parent sees, in a frame of its own, and nothing else changes; it fails exactly when the page is mapped and no frame is left |
| `VmFork.CopyTableStep` | kernel/vmm.cc:127-131 | the child gets an empty table with the flags of the parent's directory word, and no page changes |
| `VmFork.CopyRangeStep` | kernel/vmm.cc:132-141 | the inner loop copies all pages of a table and fails exactly when there are fewer frames than mapped pages |
| `VmFork.CopyTablesStep` | kernel/vmm.cc:125-145 | from any table on, the child sees exactly the parent's pages and tables, flags of both levels and words alike; every other page and directory word of every process is as before; it fails exactly when the frames do not suffice |
| `VmFork.ForkCopies` | kernel/sys.cc:106-122 | fork fails exactly when fewer frames are left than one directory, the parent's tables and its mapped pages need; otherwise every private page maps in the child exactly if it maps in the parent, with the same flags in directory and table and the same words |
| `VmFork.StoreIsIsolated` | kernel/vmm.cc:125-145 | in every state that keeps the invariant a store through one page is seen at that page of that process and nowhere else |
| `VmFork.ForkedFramesDiffer` | kernel/vmm.cc:125-145 | pages of two processes lie in different frames |
| `VmmClass.Memory.AllocFrame` | kernel/physmem.cc:20-41 | alloc_frame in place |
| `VmmClass.Memory.DeallocFrame` | kernel/physmem.cc:43-51 | dealloc_frame in place |
| `VmmClass.Memory.CheckVPN` | kernel/vmm.cc:18-33 | the two-level lookup |
| `VmmClass.Memory.AddMapping` | kernel/vmm.cc:56-88 | add_mapping in place is the function the map refinement is proved for |
| `VmmClass.Memory.RemoveMapping` | kernel/vmm.cc:91-113 | remove_mapping in place is the function the map refinement is proved for |
| `VmmClass.Memory.DropEntry` | kernel/vme.cc:27-31 | the destructor loop in place |
| `VmmClass.Memory.RemoveTable` | kernel/vmm.cc:48-54 | remove_PT_mapping in place |
| `VmmClass.Memory.ClearTables` | kernel/sys.cc:176-178 | exec's loop over the directory in place |
| `VmmClass.Memory.NewPageDirectory` | kernel/vmm.cc:117-123 | new_page_directory in place |
| `VmmClass.Memory.CopyPageFrame` | kernel/vmm.cc:133-140 | the body of the inner copy loop in place |
| `VmmClass.Memory.CopyTablePages` | kernel/vmm.cc:132-141 | the inner copy loop in place |
| `VmmClass.Memory.CopyTableFrame` | kernel/vmm.cc:127-131 | the new table of the outer copy loop in place |
| `VmmClass.Memory.CopyPageDirectory` | kernel/vmm.cc:125-145 | the nested copy loops in place are the copy the fork theorems speak of |
| `AddressSpaces.MappedPageHasOneEntry` | kernel/vme.cc:102-112 | a mapped private page lies in exactly one live entry of its process |
| `AddressSpaces.UserWritable` | kernel/vmm.cc:234-234 | a mapped private page is present, writable and user in its directory word and in its table word |
| `AddressSpaces.UnmapAllStep` | kernel/vme.cc:27-31 | dropping the entry list unmaps exactly the pages of the entries |
| `AddressSpaces.ExecReturnsEverything` | kernel/sys.cc:174-180 | exec's clear returns every table and leaf frame of the old space to the list, once, keeps every other frame's owner and every page of every other process |
| `PageFill.ChunkInRange` | kernel/vmm.cc:239-242 | for every address an entry covers the length never underflows: it is between 1 and 4096 and stays in the entry |
| `PageFill.EntryIsSound` | kernel/vme.cc:123-152 | every entry that covers an address has pages that hold its size at an address that does not wrap |
| `PageFill.FilledIsPromised` | kernel/vmm.cc:230-246 | byte j of the new page is the file byte at file_offset + page offset + j, clipped to entry and file, zero elsewhere |
| `PageFill.FaultIsRightIff` | kernel/vmm.cc:246-246 | the page is right for every file exactly when file_offset + page offset does not wrap in 32 bits |
| `PageFill.WrongWhenWrapped` | kernel/vmm.cc:246-246 | with wrap there is a file whose start shows up where zeros belong |
| `PageFill.FaultLoads` | kernel/vmm.cc:230-246 | what a process loads from the page afterwards |
| `FaultFill.FillPage` | kernel/vmm.cc:230-246 | the handler's read_all through inode, indirection tree and cache into a zeroed page leaves exactly the page the statements above speak of |
| `AddressSpaceRuns.FaultAdds` | kernel/vmm.cc:208-259 | a fault adds exactly one page, user-writable in directory and table word, with the prescribed words, and changes at most that one directory word |
| `AddressSpaceRuns.FaultShowsFile` | kernel/vmm.cc:208-259 | what the faulting process then reads is the promised byte of the file that the inode's block tree stands for |
| `AddressSpaceRuns.MmapKeeps` | kernel/vmm.cc:197-204 | mmap keeps the combined invariant when its sum does not wrap |
| `AddressSpaceRuns.MmapKeepsIff` | kernel/vme.cc:146-150 | for every request: mmap keeps the combined invariant exactly when its sum does not wrap on the bump path |
| `AddressSpaceRuns.TwoEntriesAfterWrap` | kernel/vme.cc:146-150 | three requests of a fresh process, the first of which wraps, after which one address lies in two live entries |
| `AddressSpaceRuns.MunmapKeeps` | kernel/vmm.cc:188-195 | munmap keeps the combined invariant |
| `AddressSpaceRuns.FaultKeeps` | kernel/vmm.cc:208-259 | a page fault keeps the combined invariant |
| `AddressSpaceRuns.ForkKeeps` | kernel/sys.cc:106-122 | fork keeps the combined invariant |
| `AddressSpaceRuns.StepKeeps` | kernel/vmm.cc:56-259 | every step keeps the combined invariant of frames, page tables and range allocators, unless it stops the kernel for want of frames or is an mmap that wraps, which always breaks it |
| `AddressSpaceRuns.RunKeeps` | kernel/vmm.cc:56-259 | so does every run, up to the first such step |
| `AddressSpaceRuns.RunIsSafe` | kernel/vmm.cc:56-259 | after every run each mapped private page has exactly one entry and is user-writable at both levels, and each directory, table and leaf frame has one owner off the free list |
| `AddressSpaceRuns.BootInv` | kernel/vmm.cc:147-179 | the state before the first process satisfies the invariant |
| `AddressSpaceEffects.ExecStartsOver` | kernel/sys.cc:174-180 | after exec the process has no entry, no free range, no page and no table; its range is 0x80000000 to 0xF0000000 and exactly the pages in between are available; every frame of its old pages and tables is on the free list; every other process keeps its allocator and pages |
| `AddressSpaceEffects.FirstAfterExec` | kernel/sys.cc:180-185 | the first mapping of the new program starts at 0x80000000 |
| `AddressSpaceEffects.SpawnStartsFree` | kernel/vmm.cc:117-123 | a new process starts with that same empty allocator; the kernel stops exactly when no frame is left |
| `AddressSpaceEffects.MmapAdds` | kernel/vmm.cc:197-204 | mmap changes no memory and no other process; it is refused, changing nothing, exactly when neither a free range nor the top has room; otherwise the process has one more entry, on pages that were available |
| `AddressSpaceEffects.MunmapRemoves` | kernel/vmm.cc:188-195 | munmap of an address in no removable entry changes nothing; otherwise exactly that entry goes from the list, its pages are unmapped and available again, and nothing else changes |
| `AddressSpaceEffects.FaultNeeds` | kernel/vmm.cc:208-259 | a fault outside the entries changes nothing; inside, the kernel stops exactly when there is no frame for the page, or for its missing table beside it |
| `AddressSpaceEffects.ForkDuplicates` | kernel/vme.cc:184-206 | the child has the parent's entries with their files and offsets, its free ranges and its pages; the kernel stops exactly when there are fewer frames than the copy needs; no other process changes |
| `AddressSpaceEffects.StoreWrites` | kernel/vmm.cc:125-145 | a store changes one word of one page of one process |
| `AddressSpaceEffects.StepSpares` | kernel/vmm.cc:56-259 | no step of one process changes the allocator or a private page of another |
| `AddressSpaceEffects.RunSpares` | kernel/vmm.cc:56-259 | over every run a process that takes no step itself keeps its allocator and every private page with its flags, whatever the other processes and its own children do |
| `Queues.Queue.AddFront` | kernel/queue.h:28-36 | the chain grows at the front |
| `Queues.Queue.Add` | kernel/queue.h:38-48 | the chain grows at the end, whatever link the block still carries |
| `Queues.Queue.Remove` | kernel/queue.h:50-61 | the first block leaves; null exactly for an empty queue |
| `Queues.Queue.RemoveAll` | kernel/queue.h:63-69 | the whole chain is handed over and the queue is empty |
| `Queues.SleepQueue.Find` | kernel/threads.cc:57-65 | the loop stops at the place after every block that wakes no later |
| `Queues.SleepQueue.Add` | kernel/threads.cc:53-69 | insertion keeps the chain sorted by time, equal times in order of arrival |
| `Queues.SleepQueue.Remove` | kernel/threads.cc:71-82 | the earliest block if its time has come; null exactly when nobody is due |
| `Semaphores.Conserved` | kernel/semaphore.h:17-64 | every section conserves tokens and keeps "threads wait only at zero" |
| `Semaphores.SectionsDo` | kernel/semaphore.h:17-64 | the sections in full: down takes a token where there is one and otherwise waits at the end; up hands its token to the thread that has waited longest, and only without one raises the count |
| `Semaphores.Semaphore.TryDown` | kernel/semaphore.h:20-31 | the first section of down |
| `Semaphores.Semaphore.Recheck` | kernel/semaphore.h:41-49 | the second section of down, in the helper |
| `Semaphores.Semaphore.Up` | kernel/semaphore.h:53-64 | up with direct hand-off to the first waiter |
| `Scheduler.ExactlyOnePlace` | kernel/threads.h:31-31 | every thread ever created is in exactly one place: running, in hand, requested, ready, waiting at one semaphore, asleep, in the reaper queue, collected or dead |
| `SchedulerProofs.TryDownKeeps` | kernel/semaphore.h:17-35 | the first half of down keeps the invariant |
| `SchedulerProofs.PostKeeps` | kernel/threads.h:181-199 | posting the help request keeps the invariant |
| `SchedulerProofs.ServeKeeps` | kernel/threads.cc:116-120 | carrying out a request (down, yield, sleep, stop) keeps the invariant |
| `SchedulerProofs.InsertOk` | kernel/threads.cc:53-69 | sorted insertion into a sleep queue keeps it sorted and duplicate-free |
| `SchedulerProofs.StepKeeps` | kernel/threads.cc:95-136 | every atomic step of every core keeps the invariant |
| `SchedulerEffects.UpGives` | kernel/semaphore.h:53-64 | every up: with nobody waiting the count is one more; otherwise the same count, the first waiter leaves the queue and is in the hand of the core; every other semaphore is unchanged |
| `SchedulerEffects.TokensMove` | kernel/semaphore.h:17-64 | every step: an up adds one token, a grant (to the first waiter, or to a down that finds a token) takes one, a thread joins the queue exactly when its second check is in vain; all else leaves the semaphore alone |
| `SchedulerEffects.StepMoves` | kernel/threads.cc:95-136 | every step moves exactly the thread it is about to exactly one place, and nobody else |
| `SchedulerEffects.ReadyMoves` | kernel/threads.cc:122-127 | the ready queue grows at the end by the thread the step makes ready and shrinks at the front by the thread chosen |
| `SchedulerEffects.ReaperMoves` | kernel/threads.cc:40-51 | the reaper queue likewise; remove_all empties it |
| `SchedulerEffects.RequestsKept` | kernel/threads.h:181-199 | a request reaches the helper as it was made, from want or from a down that finds no token, until it is served |
| `SchedulerEffects.ControlAfter` | kernel/threads.cc:95-136 | only the step of a core changes what it does, and what it does next; only a tick moves the clock |
| `SchedulerEffects.SleepersMove` | kernel/threads.cc:53-82 | a served sleep(after) adds one sleeper due at now + after, behind all that are due by then; a wakeup takes the earliest, and only when its time has come; nothing else changes a sleep queue |
| `SchedulerRuns.RunKeeps` | kernel/threads.cc:95-136 | so does every interleaving of any number of cores |
| `SchedulerRuns.TallyIsHistory` | kernel/semaphore.h:17-64 | over every run the tally of a semaphore grows by the ups and the grants among the steps taken |
| `SchedulerRuns.NoLostWakeup` | kernel/semaphore.h:53-64 | a thread that waits after a run does so because every token there was at its start, and every one an up has added since, has been given out |
| `SchedulerRuns.WokenInOrder` | kernel/semaphore.h:53-64 | over every run the waiters of a semaphore are given its tokens in the order in which they came: those waiting at the start and those who joined are those woken and those still waiting |
| `SchedulerRuns.NotWokenEarly` | kernel/threads.cc:71-82 | over every run a sleeper stays on its queue until its time has come |
| `SchedulerRuns.SleepsLongEnough` | kernel/threads.cc:53-82 | a thread whose sleep(after) is served is asleep as long as less time than that has passed |
| `SchedulerRuns.RunIsSafe` | kernel/threads.cc:95-136 | after every interleaving each thread is in exactly one place; each semaphore has the tokens it had plus one for each up in the run less one for each grant in it, both counted from the steps and the states before them; and nobody waits at a semaphore with a token |
| `SchedulerRuns.BootInv` | kernel/threads.cc:22-36 | the initial state satisfies the invariant |
| `SchedulerRuns.NobodyForgotten` | kernel/threads.cc:122-127 | when all cores spin, each unfinished thread waits at a semaphore without tokens or sleeps until later |
| `SchedulerRuns.NeverStuck` | kernel/threads.cc:108-135 | every core that is not idle has a step of its own that is possible: no core waits for another |
| `BoundedBuffer.StoreRing` | kernel/bb.h:21-24 | storing touches no unread slot |
| `BoundedBuffer.TakeRing` | kernel/bb.h:30-33 | the value taken is the oldest unread one |
| `BoundedBuffer.OldestUnread` | kernel/bb.h:30-33 | a thread that has a full slot finds there the oldest value put and not taken |
| `BoundedBuffer.StepDoes` | kernel/bb.h:19-36 | every step: what its thread does next, with the value put was called with or the oldest unread one in the hands of the taker; a woken waiter owns its slot with the value it came with; nobody else is touched; tokens and queues move by one |
| `BoundedBuffer.LogsAreHistory` | kernel/bb.h:19-36 | over every run the logs grow by the values stored and the values gets came away with |
| `BoundedBuffer.StepKeeps` | kernel/bb.h:19-36 | every section of every producer and consumer keeps: two semaphores plus operations in flight account for exactly n slots, unread values sit where the indices say |
| `BoundedBuffer.RunKeeps` | kernel/bb.h:19-36 | so does every interleaving |
| `BoundedBuffer.FirstInFirstOut` | kernel/bb.h:19-36 | after every interleaving the values that gets come away with are the first values that puts stored, both taken from the steps of the run, in order, and at most n are unread |
| `BoundedBuffer.NotAllWait` | kernel/bb.h:19-36 | when a producer and a consumer both wait, some thread is between its semaphores |
| `BoundedBuffer.Buffer.Put` | kernel/bb.h:21-24 | the put section on the array |
| `BoundedBuffer.Buffer.Get` | kernel/bb.h:30-33 | the get section on the array |
| `Barriers.StepKeeps` | kernel/barrier.h:15-23 | every step of every participant keeps: the counter counts those still to arrive; no token before all have arrived and exactly one from then on |
| `Barriers.StepDoes` | kernel/barrier.h:15-23 | every step: what its thread does next, who is woken, that nobody else is touched, the counter, the tokens and the queue |
| `Barriers.NobodyLeavesEarly` | kernel/barrier.h:15-23 | after every interleaving of exactly n threads: whoever has left proves that all have arrived, at most one token exists, and once all have arrived a waiter has a thread about to raise it |
| `Promises.StepKeeps` | kernel/promise.h:11-19 | every step keeps: before the value is written nobody is past down; afterwards one token and the right value |
| `Promises.StepDoes` | kernel/promise.h:11-19 | the same for the steps of set and get; only set writes the value |
| `Promises.GetsTheValue` | kernel/promise.h:11-19 | after every interleaving each get that returned has the value of the single set, and a waiting get has a set or a raise still to come |
| `BlockingQueues.StepKeeps` | kernel/blocking_queue.h:16-37 | every step keeps: items never exceed tokens plus adds in flight plus removers with a token |
| `BlockingQueues.StepDoes` | kernel/blocking_queue.h:16-37 | the same for add, remove and remove_all; items come in at the end and go out at the front |
| `BlockingQueues.NothingStranded` | kernel/blocking_queue.h:16-37 | after every mix of add, remove and remove_all items have left in the order they came, each once, and while a remover waits every queued item has an add or a granted remover in flight |
| `BlockingQueues.OneInside` | kernel/blocking_lock.h:6-18 | mutual exclusion under every interleaving, and somebody is inside whenever somebody sleeps at the lock |
| `BlockingQueues.LockStepDoes` | kernel/blocking_lock.h:6-18 | only a free lock is entered; unlock lets in the thread that has slept longest, or frees the lock |
| `SpinLocks.StepKeeps` | kernel/atomic.h:161-178 | every atomic access of lock and unlock on every core keeps the lock invariant |
| `SpinLocks.OneHolder` | kernel/atomic.h:161-178 | at most one core holds a lock, and it runs with interrupts disabled |
| `SpinLocks.InterruptsComeBack` | kernel/atomic.h:161-178 | a core that is back in its code with nothing held has its interrupts as they were before its outermost lock(), or as it set them since, however often lock() had to try again; that state is computed from the calls alone |
| `SpinLocks.CallsNest` | kernel/atomic.h:161-178 | lock(l) comes to one more lock held, unlock() to one fewer, and nothing but the calls of the core changes that |
| `SpinLocks.GoAdvances` | kernel/atomic.h:161-178 | each atomic access in full: an exchange succeeds exactly on a free lock, a lost one restores the interrupts and tries again, unlock frees the lock |
| `SpinLocks.RunIsSafe` | kernel/atomic.h:126-178 | after every interleaving that nests locks: mutual exclusion, interrupts off while holding, and interrupts as before the outermost lock() once nothing is held |
| `BlockLists.BlockList.Remove` | kernel/buffer_cache.h:58-69 | drops the last block and keeps a well-formed doubly linked list |
| `BlockLists.BlockList.Find` | kernel/buffer_cache.h:73-98 | the loop of extract |
| `BlockLists.BlockList.Extract` | kernel/buffer_cache.h:71-100 | takes out the block with the id, null exactly when there is none, keeps the rest well linked |
| `BlockLists.BlockList.Add` | kernel/buffer_cache.h:102-111 | puts the block in front and keeps the list well linked |
| `BufferCaches.BufferCache.constructor` | kernel/buffer_cache.h:128-134 | 997 empty buckets |
| `BufferCaches.BufferCache.Fetch` | kernel/buffer_cache.h:152-183 | hit, miss or miss with eviction from any bucket: the block in hand equals its sector and every bucket stays well formed |
| `BufferCaches.BufferCache.ReadBlock` | kernel/buffer_cache.h:147-188 | whatever the history, the buffer gets the disk block; buckets stay lists of distinct ids congruent to their index |
| `Ext2Files.PhysicalIsListed` | kernel/ext2.cc:218-257 | for every logical block the branch arithmetic finds the block the indirection tree lists there |
| `Ext2Files.LeavesAt` | kernel/ext2.cc:222-229 | how the leaves under a table are numbered |
| `Ext2Files.BlocksAre` | kernel/ext2.cc:231-257 | the list of blocks place by place: twelve direct ones, then the entries of the tables one, two and three deep, in order |
| `Ext2Files.HoleBelow` | kernel/ext2.cc:222-229 | a table numbered 0 lists nothing but holes, however many levels deep |
| `Ext2Files.FileByteIs` | kernel/ext2.cc:259-265 | byte m of logical block q is 0 where the tree lists block 0, and otherwise byte m of the listed block on the disk |
| `Ext2Files.Digits` | kernel/ext2.cc:246-254 | the two assertions in the triple-indirect branch hold |
| `Ext2Files.FileFits` | kernel/ext2.cc:252-252 | a file below 4 GB never needs more blocks than an inode reaches |
| `FileReads.BlockIsData` | kernel/block_io.cc:13-31 | part of a block is the data at that position |
| `FileReads.PromiseKeptIff` | kernel/block_io.h:47-54 | read_all returns what its comment promises except for empty reads past the end |
| `FileReads.DiskEndUnseen` | kernel/ide.h:32-38 | for the disk neither early return of read is ever taken below 0xFFFFFFFF, and the sector asked for exists exactly when the offset is on the disk |
| `FileReads.Reader.Read` | kernel/block_io.cc:6-33 | -1 past the end, 0 at the end, otherwise bytes up to the end of the block, stored in the buffer and nowhere else |
| `FileReads.Reader.ReadPart` | kernel/block_io.cc:24-31 | the temporary buffer for a partial block |
| `FileReads.Reader.ReadAll` | kernel/block_io.cc:35-47 | for a file: exactly the bytes from offset to min(offset + n, size) of the logical file (whose bytes are those of `Ext2Files.FileByteIs`), through two layers with different block sizes; the count; the rest of the buffer unchanged |
| `FileReads.Reader.FollowRef` | kernel/ext2.cc:222-229 | one level of indirection through the cache |
| `FileReads.Reader.Locate` | kernel/ext2.cc:231-257 | the branches of read_block compute the physical block |
| `FileReads.Reader.ReadNodeBlock` | kernel/ext2.cc:218-266 | a block of the file: every byte 0 for a hole, otherwise the bytes of the physical block on the disk |
| `Directories.InodesApart` | kernel/ext2.cc:87-105 | different inode numbers have disjoint records |
| `Directories.OffsetOnDisk` | kernel/ext2.cc:87-105 | the record of a valid inode number is on the disk |
| `Directories.FileAreBytes` | kernel/ext2.cc:218-266 | every element of a file is a byte |
| `Directories.NextEntry` | kernel/ext2.cc:109-135 | one turn of the directory loop: the record lies in the data and the lookup goes on after it |
| `Directories.Finder.GetNode` | kernel/ext2.cc:87-105 | null for number 0, the assertion for a number past the last, otherwise the inode parsed from the table of its group |
| `Directories.Finder.SameName` | kernel/ext2.cc:119-134 | the character loop decides equality of the stored and the given name |
| `Directories.Finder.FindOne` | kernel/ext2.cc:107-138 | the first entry with the name, null when there is none or its inode is 0 |
| `Lookups.LookupFirst` | kernel/ext2.cc:107-138 | a node is found exactly when the first entry with the name has one |
| `Paths.SplitJoins` | kernel/path.h:101-129 | splitting gives slash-free parts that join back to the path |
| `Paths.ComponentsAre` | kernel/path.h:101-129 | components are non-empty and slash-free; the first is the root token exactly for an absolute path |
| `Paths.NonEmptyAppend` | kernel/path.h:113-121 | the empty parts go, all others stay in order |
| `Paths.ComponentsOfJoin` | kernel/path.h:101-129 | round trip: the components of names joined by slashes are those names, after the root token if a slash comes first |
| `Paths.PathString.AddChar` | kernel/path.h:25-36 | appends within the buffer, growing it in time |
| `Paths.PathString.Get` | kernel/path.h:38-45 | the text collected |
| `Paths.SkipSlashes` | kernel/path.h:113-121 | runs of slashes add no component |
| `Paths.Tokenize` | kernel/path.h:101-129 | the loop yields exactly the non-empty slash-separated components, with a root token for an absolute path |
| `Lookups.WalkAppend` | kernel/ext2.cc:168-175 | walking two paths one after the other is walking their concatenation |
| `Lookups.FindIsResolve` | kernel/ext2.cc:140-191 | from every state of its variables the splicing loop agrees with the recursive resolution of links |
| `Lookups.Find` | kernel/ext2.cc:140-191 | the loop ends, by (100 - links seen, tokens left), and returns what recursive resolution gives, for any file system given by its nodes |
| `Lookups.WalkIsFree` | kernel/ext2.cc:149-166 | the bounded walk stops only where a walk without a bound does, and does stop there when fewer than a hundred links are followed |
| `Lookups.FewerThanHundredLinks` | kernel/ext2.cc:149-166 | find gives what unbounded resolution gives exactly as long as fewer than a hundred links are followed before the last name, and null from the hundredth on |
| `Lookups.LinkFollowed` | kernel/ext2.cc:168-175 | a link before the last name: a relative target goes on from the directory of the link, an absolute one from the root, then the rest of the path |
| `Lookups.LastNotFollowed` | kernel/ext2.cc:168-181 | the last name is looked up and not followed |
| `DiskLookups.FsOfOk` | kernel/ext2.cc:87-105 | the bytes of a well-formed disk stand for a file system whose entries all name nodes |
| `DiskLookups.GetSymbol` | kernel/ext2.cc:207-216 | the text of a link, from the inode below 60 bytes and from the file above |
| `DiskLookups.FindChild` | kernel/ext2.cc:158-162 | one name looked up in one directory on the disk |
| `DiskLookups.FindPath` | kernel/ext2.cc:140-191 | find over the bytes of the disk returns what recursive resolution gives in the file system those bytes stand for |
| `DiskLayout.WordIs` | kernel/ext2.cc:222-229 | four bytes are read as the number whose digits they are, lowest first |
| `DiskLayout.TableEntry` | kernel/ext2.cc:222-229 | entry i of the table in block b is the word at byte 4 * i of the block |
| `DiskLayout.InodeIsHeld` | kernel/ext2.h:56-88 | a record is read as the inode it holds, field by field at its offset, and as no other |
| `DiskLayout.RecordIs` | kernel/ext2.cc:87-105 | inode number q * perGroup + k + 1 is record k of table q |
| `DiskLayout.KindIs` | kernel/ext2.h:90-96 | mode 0x4000 to 0x4FFF makes a directory with the entries of its file, 0xA000 to 0xAFFF a link with its text, anything else neither |
| `DiskLayout.ShortText` | kernel/ext2.cc:207-212 | the text of a link of fewer than 60 bytes is the bytes of its record from 40 on |
| `DiskLayout.DirectoryRoundTrip` | kernel/ext2.cc:109-137 | a directory file made of any records, padding included, is well formed and has those records as its entries, in order |
| `RefCounts.StrongIsLive` | kernel/shared.h:37-38 | no strong handle dangles: the assertions of drop_strong hold |
| `RefCounts.WeakIsLive` | kernel/shared.h:87-105 | no weak handle dangles: the assertions of drop_weak and promote hold |
| `RefCounts.UnpointStrong` | kernel/shared.h:34-68 | giving up a strong handle keeps the invariant; the object goes with the last one |
| `RefCounts.UnpointWeak` | kernel/shared.h:84-98 | giving up a weak handle keeps the invariant |
| `RefCounts.AssignKeeps` | kernel/shared.h:168-177 | assignment, which adds before it drops, keeps the invariant |
| `RefCounts.HandlesAfter` | kernel/shared.h:122-283 | every operation: a copy or an assignment points where its source does, a promoted handle where the weak one does while a strong one does too, a raw pointer becomes the object of a new block unless it is already the own one; every other handle points where it did |
| `RefCounts.OwnIsHome` | kernel/shared.h:34-68 | a handle to an object is a handle to its block |
| `RefCounts.StepKeeps` | kernel/shared.h:21-116 | every handle operation keeps the invariant |
| `RefCounts.CountsAreHandles` | kernel/shared.h:21-200 | after every sequence of operations the counts are the numbers of handles; an object is destroyed exactly when it has no strong handle left, once; a block is freed exactly when no handle is left, once |
| `RefCounts.PromoteIff` | kernel/shared.h:100-116 | promote gives a handle exactly when a strong handle exists |
| `RefCounts.Intermediate.AddStrong` | kernel/shared.h:21-30 | the count goes up while the object exists |
| `RefCounts.Intermediate.DropStrong` | kernel/shared.h:34-68 | which deletions the drop decides |
| `RefCounts.Intermediate.DropWeak` | kernel/shared.h:84-98 | when the block goes |
| `RefCounts.Intermediate.Promote` | kernel/shared.h:100-116 | succeeds exactly while the strong count is positive |

## Left out

- Hardware and boot (`ide.cc`, `pit.cc`, `smp.cc`, `idt.cc`, `config.cc`, `u8250.cc`, `init.cc`, assembly): device access without invariants of its own; `memcpy`, `bzero` and the context switch are single steps.
- VGA drawing, formatted printing, `utils.h`, `random.h`, `elf.cc`: they would only add easy members.
- The recency list of buckets and the capacity of the cache: the bucket that loses a block is any bucket, and no bound on the number of cached blocks is claimed; re-reading the front bucket links it to itself in the source.
- Concurrent use of one cache bucket: reads are one at a time.
- Frames of dying threads: reclamation is claimed for munmap and exec only, since the destructor of a thread unmaps through the directory of whoever runs it.
- The shared region above 0xF0000000, its range allocator with an unaligned limit, and the TLB.
- Interleaving inside `drop_strong` after its unlock, and objects whose destructor drops the last weak handle to themselves: handle operations are atomic, and the handles inside a destroyed object are dropped by later operations.
- Timer wrap-around, `mwait`, panics with their forced unlock, and preemption, which the timer code has switched off.
- The process table, descriptor tables, remaining system calls, and mounting (the superblock and the group table are given).
- The terminator of the symbolic-link buffer: a link's target is a string of its recorded length.
- Fairness: the statements on waiting say who must still act, not that the hardware schedules it.
- Heap.Heap.Realloc: when the call leaves its blocks the contract gives the state just before and nothing after; a pointer is null, the array itself or the payload of a block.
- Heap.Heap.Free: a pointer is null, the array itself or the payload of a block, as callers of `free` owe; the kernel's `sanity` tests are switched off and the user heap's report nothing.
- HeapRuns.RunKeeps: malloc may take any block with room; that the search takes the smallest of the first twenty is `Heap.Heap.Malloc`.
- AddressSpaceRuns.RunKeeps: nothing is said of the steps after an mmap that wraps.
- FileReads.Reader.ReadAll: block numbers on the way to a block of the file are on the disk, which is below 4 GB; block sizes are multiples of 512 from 1024 to 65536.
- Directories.Finder.FindOne: records have a positive length, end inside the directory and carry names without a zero byte; on other directories the source loops or reads past its buffers.
- DiskLookups.FindPath: inodes are well formed: blocks on the disk, directories as above with inode numbers in range, link texts without a zero byte.
- Scheduler.ExactlyOnePlace: a thread inside `reap` collects finished threads in one set for all cores.
- SpinLocks.RunIsSafe: code between lock and unlock does not switch interrupts itself, and locks are released innermost first.
