# Verified models of osv

osv is a small x86-64 teaching kernel. This project models the parts of it that keep hard
invariants, in Dafny 4.11, and proves what they promise. `dafny verify dfyconfig.toml` checks
all of it.

Code that works in place is a class whose methods change its fields: each method is proved
against a specification function or predicate on values, and the properties are lemmas about
those values. Protocols between threads, interrupt handlers and devices are step systems: a
state, a function for each step, and theorems over every legal run.

| files | models |
|---|---|
| `CowModel`, `CowInvariant`, `CowProofs`, `CowTheorems` | copy-on-write memory: fork, page fault, exit and the reference counts, interleaved statement by statement, refine a machine that copies all memory at fork |
| `CowSupply`, `CowKernel` | the code of fault, fork and exit performs such steps, and exactly what memory each call needs |
| `Regions` | the list of regions of an address space, its overlap test and the search for a free range |
| `PageTable`, `PageTableTeardown` | the four-level page table, with the kernel's part shared, and its walks refine one flat table per address space |
| `BuddyModel`, `Buddy` | the binary buddy allocator of physical pages |
| `Journal` | the write-ahead journal, with a crash after any block write |
| `SfsBitmap`, `SfsModel`, `Sfs`, `SfsBehind`, `SfsDelete`, `SfsLeak`, `SfsImages` | the data path of the file system, from bitmap bits to file contents, and what deletion loses |
| `KrHeap`, `KrMalloc` | the user-level allocator of section 8.7 of The C Programming Language, 2nd edition |
| `RadixModel`, `Radix` | the radix tree |
| `Slab` | the slab allocator |
| `Ide` | the request queue between block layer and disk driver |
| `Sleeplock` | sleeplocks, condition variables and journal transactions |
| `SchedModel`, `Sched` | the scheduler on one processor |
| `Console`, `ConsoleSession` | the console input ring, and readers that sleep on it |
| `Arithmetic`, `Lists`, `Common` | shared lemmas and types |

Words are integers; 32- and 64-bit wrap-around is written out where the code depends on it.
Page table paging follows section 4.5 of volume 3A of the Intel 64 and IA-32 Architectures
Software Developer's Manual. A block write of the disk is atomic. What comes from outside is a
parameter or a field: pages and nodes the allocators still have (`spare`, `records`), the address `sbrk`
returns, the pages a slab gets, the boot bitmap. Assertions of the source (`kassert`) and its
panics are proved not to fail, or are preconditions where they constrain the caller.

Where code and comments disagree the model follows the code:

- Regions are kept "in order by their addresses" (`kernel/mm/vm.c:30`), but a region is linked
  before its bounds are stored (`kernel/mm/vm.c:394-400`), so it is compared by the bytes 0x2b
  the slab allocator leaves. `Regions.LinkSorted` says exactly when the list stays in order,
  `Regions.LinkUnsorted` names two regions after which it is not.
- The search for a free range relies on that order (`kernel/mm/vm.c:333`).
  `Regions.FoundFreeIff` says exactly when it is right, and `Regions.FoundNotFree` gives a list
  with which it is not. No caller asks for a free range yet.
- The overlap test (`kernel/mm/vm.c:385-388`) is passed the end of the new range as its size;
  `Regions.OverlapTest` says exactly when it is right about two regions, and
  `Regions.SameRangeTwice` when a range can be mapped twice.
- A page is freed before the entry that names it is zeroed
  (`arch/x86_64/kernel/mm/vpmap.c:107-110`); `CowTheorems.StaleReached` gives a run, and
  `CowTheorems.Refcounts` states the counts with such entries.
- A transaction may log 128 blocks (`kernel/fs/jbd.c:255`), but the commit asserts fewer than
  128 (`kernel/fs/jbd.c:92`); `Journal.Journal.EndTxn` has the second bound.
- Removing an index above the height of a radix tree acts on the index modulo the size of the
  tree; `Radix.RemoveMeant` says exactly when that is what the caller meant.
- Deleting a file forgets an indirect block that a write cut short by a full disk has left
  beyond the end of the file (`SfsLeak.WriteThenDelete`), and the second indirect block
  (`SfsDelete.SecondLeaks`). Of a file of more than 140 blocks it goes on behind the first
  indirect block and can take blocks of another file along (`SfsLeak.DeleteNextTo`).
  `SfsDelete.DeleteInode` says exactly when the bitmap and the other files stay right, and
  `SfsImages` has a volume for each failure.

## Model

| member | source | states |
|---|---|---|
| `CowTheorems.IsolationFromBoot` | arch/x86_64/kernel/mm/vpmap.c:361-394 | Over every run from boot of fork, user store, page fault, exit and kernel allocation, interleaved statement by statement, each process's memory is what a machine that copies all memory at fork would show. |
| `CowProofs.Isolation` | arch/x86_64/kernel/mm/vpmap.c:361-394 | The same from any state that satisfies the invariant: the abstraction of a run is the run of the eagerly copying machine. |
| `CowTheorems.Undisturbed` | kernel/pgfault.c:26-44 | While a process takes no step, no run of the others changes a byte of its memory. |
| `CowProofs.StepRefines` | kernel/pgfault.c:26-71 | Each kernel step is invisible to the eager machine, or is its step: a store, a completed fork, an end of process. |
| `CowProofs.StepKeeps` | arch/x86_64/kernel/mm/vpmap.c:361-394 | Every step keeps the invariant: counts, typing, exclusiveness of writable entries, and where each process is inside the kernel. |
| `CowProofs.RunKeeps` | arch/x86_64/kernel/mm/vpmap.c:361-394 | Every run keeps the invariant. |
| `CowTheorems.Refcounts` | kernel/mm/pmem.c:696-729 | In every reachable state count plus stale entries (dropped at vpmap.c:107, not yet zeroed at :110) equals entries plus references on the move plus those held outside tables; so the count is below the number of entries exactly while stale entries outnumber the others. It is 1 where a live entry is writable, and 0 exactly when nothing but stale entries refers to the frame. |
| `CowTheorems.RefcountsExact` | arch/x86_64/kernel/mm/vpmap.c:379-391 | On runs without failing faults or forks the count of a frame with a live entry is exactly its entries, less the stale ones, plus the references being moved; between such statements it is the number of entries. |
| `CowTheorems.CountsPositive` | kernel/mm/pmem.c:720-724 | The count assertions hold wherever faults, forks, exits and failed forks drop or raise a reference. |
| `CowTheorems.StaleReached` | arch/x86_64/kernel/mm/vpmap.c:103-111 | A legal run from boot to a state in which a frame is free while a page table still has an entry for it: the count does not bound the entries in every state. |
| `CowTheorems.DroppedLast` | arch/x86_64/kernel/mm/vpmap.c:107-110 | Whenever the last reference is dropped, the frames a fault of another process can be given are those that were free and this one, which its entry still names: it may be the only one. |
| `CowTheorems.NeverBlocked` | kernel/pgfault.c:26-71 | In every state a process reaches inside the kernel the next statement of its code is enabled; a fork is stopped only by a region the child's list refuses, a page the child already has, or records or table pages that run out, and at each of its points it can fail. |
| `CowTheorems.OthersKeepOut` | arch/x86_64/kernel/mm/vpmap.c:361-394 | Between two statements of a process no step of another changes its record, nor, while it forks, its child's. |
| `CowTheorems.RunNoLeak` | arch/x86_64/kernel/mm/vpmap.c:382-391 | Runs without failing faults or forks never leave a frame counted without an owner. |
| `CowTheorems.StepNoLeak` | arch/x86_64/kernel/mm/vpmap.c:382-391 | The same for one step. |
| `CowTheorems.ForkFailInvisible` | kernel/mm/vm.c:416-421 | A fork that fails half way leaves every process's memory as it was. |
| `Regions.FindRegion` | kernel/mm/vm.c:427-438 | The region found covers the address, and none is found only if none covers it. |
| `Regions.LinkPlace` | kernel/mm/vm.c:394-400 | The new region goes before the first region that starts at or above 0x2b2b2b2b2b2b2b2b, or at the end; the others keep their places. |
| `Regions.LinkSorted` | kernel/mm/vm.c:394-400 | A list in order of addresses stays in order exactly if the new region starts at or above every region that starts below 0x2b2b2b2b2b2b2b2b, and at or below every other. |
| `Regions.LinkUnsorted` | kernel/mm/vm.c:394-400 | Two regions the kernel accepts, 0x2000 and then 0x1000, that leave the list out of order. |
| `Regions.OverlapTest` | kernel/mm/vm.c:385-388 | For any two regions: when the overlap test agrees with the documented condition that no address is in both. A region it refuses overlaps unless the sum of the bounds wraps; an overlapping region passes if it starts below the other, or ends so high that the sum exceeds the other's end. |
| `Regions.SameRangeTwice` | kernel/mm/vm.c:385-388 | The overlap test accepts a region that is already mapped if and only if it starts above 0 and the sum of its bounds does not wrap to a value at or below its end. |
| `Regions.FindFreeVaddr` | kernel/mm/vm.c:320-350 | The search for a free range, with the loop of the source, computes the recursive search. |
| `Regions.FoundFreeIff` | kernel/mm/vm.c:320-350 | Every request up to a bound is given a free range if and only if each gap of the list that is wider than all gaps before it holds no other region, as far as the sizes put there reach. |
| `Regions.TakesFirst` | kernel/mm/vm.c:334-341 | The search takes the first gap of the list that is wide enough, or finds that none is. |
| `Regions.AscendingClear` | kernel/mm/vm.c:320-350 | A list in order without shared pages meets that condition for every bound. |
| `Regions.FoundNotFree` | kernel/mm/vm.c:320-350 | After two mappings the kernel accepts, the range found overlaps a region. |
| `CowModel.ForkWork` | kernel/mm/vm.c:124-136 | The work of a fork names exactly the regions of the parent and the pages of those regions. |
| `CowKernel.Kernel.HandlePageFault` | kernel/pgfault.c:13-74 | The handler's statements are a legal run: the page is copied or zero-filled, mapped with the region's permission, and the old reference dropped. It succeeds if and only if a region allows the access and the free frames suffice for the page and the page tables it lacks; otherwise the process exits. |
| `CowKernel.Kernel.VpmapCowCopy` | arch/x86_64/kernel/mm/vpmap.c:361-394 | The loop shares page by page, skipping unmapped ones, as a legal run. It succeeds if and only if the child has none of the mapped pages and the free frames suffice for the tables they need. |
| `CowKernel.Kernel.CowCopyPage` | arch/x86_64/kernel/mm/vpmap.c:371-392 | One page: the parent's entry becomes read-only, the count goes up, the child gets the same entry. It fails if and only if the page is mapped and the child already has it or lacks frames for its tables. |
| `CowKernel.Kernel.MemregionCopy` | kernel/mm/vm.c:408-425 | A region's record and then its pages are copied, as a legal run; if and only if a record is left, the child's list accepts the region, and its pages can be shared. |
| `CowKernel.Kernel.AsCopyAs` | kernel/mm/vm.c:110-140 | A whole fork is a legal run: on success the child sees exactly the memory of the parent, on failure nothing visible has changed. It succeeds if and only if there is a record for each region, each region is accepted after those before it, no mapped page lies in two regions, and there is a free frame for each page table page the mapped pages need. |
| `CowKernel.Kernel.VpmapDestroy` | arch/x86_64/kernel/mm/vpmap.c:317-329 | Clearing all entries of a process, in ascending order and each with its two statements, is a legal run that leaves it without mappings. |
| `CowKernel.Kernel.PmemAlloc` | kernel/mm/pmem.c:650-654 | A free frame gets count 1; it fails only if no frame is free. |
| `CowKernel.Kernel.FindPte` | arch/x86_64/kernel/mm/vpmap.c:57-101 | The tables on the way to a page are there afterwards, each new one a frame less; it fails if and only if the free frames do not suffice. |
| `CowSupply.ForkFitsIff` | kernel/mm/vm.c:110-140 | Copying region by region and page by page gets to the end if and only if records, order, pages and frames suffice for the whole. |
| `CowSupply.CanCopyIff` | kernel/mm/vm.c:122-136 | The same for each number of regions copied. |
| `CowSupply.TakeTwo` | arch/x86_64/kernel/mm/vpmap.c:361-394 | Pages can be taken in two parts if and only if the parts are apart and all can be taken at once, with the same tables and frames left. |
| `PageTable.MapThenLookup` | arch/x86_64/kernel/mm/vpmap.c:410-431 | After mapping n pages, page i of the range translates to paddr + i pages plus the offset, in the address space and in those that share the page; every other address of every address space translates as before. |
| `PageTable.Vpmaps.VpmapMap` | arch/x86_64/kernel/mm/vpmap.c:295-303 | Maps n pages (their size in bytes wraps at 64 bits); it stops early only when page table pages run out, with the pages so far mapped. |
| `PageTable.Vpmaps.MapPages` | arch/x86_64/kernel/mm/vpmap.c:113-134 | The loop ends even when the range runs through address 0, and writes exactly the entries of its range. |
| `PageTable.Vpmaps.FindPte` | arch/x86_64/kernel/mm/vpmap.c:57-101 | The walk returns the slot that decides the flat entry; creating tables changes no translation of any address space. |
| `PageTable.Vpmaps.LookupVaddr` | arch/x86_64/kernel/mm/vpmap.c:410-431 | The lookup is the flat translation. |
| `PageTable.IndexMacros` | arch/x86_64/include/arch/mmu.h:142-154 | The index macros select the digits of the page number. |
| `PageTable.WriteEntry` | arch/x86_64/kernel/mm/vpmap.c:131-131 | A store through the slot found changes the flat entry of one page, in this address space and in exactly those that share the page. |
| `PageTable.SameLeaf` | arch/x86_64/kernel/mm/vpmap.c:396-407 | Two address spaces use the same table for a page if and only if the page is shared: it lies in the kernel's part and both have the kernel's tables. |
| `PageTable.Vpmaps.VpmapCopyKernelMapping` | arch/x86_64/kernel/mm/vpmap.c:396-407 | The kernel's part becomes the kernel's own, entry for entry and for all later mappings; nothing else changes. |
| `PageTable.Vpmaps.VpmapCreate` | arch/x86_64/kernel/mm/vpmap.c:260-284 | A new root without entries; no translation of any address space changes; it fails if and only if no page is left. |
| `PageTable.LinkBelow` | arch/x86_64/kernel/mm/vpmap.c:69-97 | A new empty table changes no flat entry. |
| `PageTableTeardown.DestroyDrops` | arch/x86_64/kernel/mm/vpmap.c:318-329 | Destroying an address space drops one reference for each present user entry, and no other. |
| `PageTableTeardown.DestroyFrees` | arch/x86_64/kernel/mm/vpmap.c:145-189 | It frees every page table page of the user part, and no other page. |
| `PageTableTeardown.DestroyOrder` | arch/x86_64/kernel/mm/vpmap.c:145-189 | It makes no call twice, and frees a table only after everything below it. |
| `PageTableTeardown.VpmapDestroy` | arch/x86_64/kernel/mm/vpmap.c:317-329 | The nested loops, with limits computed from the bounds of the call, make exactly the calls of the recursive walk. |
| `PageTableTeardown.UnmapPd` | arch/x86_64/kernel/mm/vpmap.c:172-190 | The page directory loop, with the limit computed from its bounds, makes the calls of the walk below a directory. |
| `PageTableTeardown.UnmapPdpt` | arch/x86_64/kernel/mm/vpmap.c:156-170 | The loop above it, with its computed limit, makes the calls of the walk below its table. |
| `BuddyModel.Canonical` | kernel/mm/pmem.c:469-503 | With no two free buddies left, the free blocks are exactly the maximal aligned power-of-two blocks of the free pages. |
| `BuddyModel.FreeBlocksDetermined` | kernel/mm/pmem.c:588-617 | Equal free pages mean equal free lists as sets, whatever the order of allocations and frees. |
| `BuddyModel.BuddyIsHead` | kernel/mm/pmem.c:448-467 | The page that find_buddy returns is the head of a block, so its order and count are current. |
| `BuddyModel.Nest` | kernel/mm/pmem.c:448-467 | Two aligned blocks that share a page are nested. |
| `BuddyModel.BuddyBasics` | kernel/mm/pmem.c:457-462 | The buddy of a buddy is the block itself, on the other side of the same pair. |
| `BuddyModel.BuddyArithmetic` | kernel/mm/pmem.c:457-462 | Remainder, quotient and low bit compute alignment and side. |
| `BuddyModel.FreeRunIsCovered` | kernel/mm/pmem.c:469-503 | An aligned run of free pages lies inside one free block. |
| `BuddyModel.SplitPartition` | kernel/mm/pmem.c:436-443 | Splitting keeps the partition and the free pages. |
| `BuddyModel.JoinPartition` | kernel/mm/pmem.c:490-498 | Merging keeps the partition and the free pages. |
| `Buddy.Pmem.ListsCanonical` | kernel/mm/pmem.c:417-513 | After any sequence of allocations and frees the list of each order holds exactly the maximal aligned blocks of that order of the free pages. |
| `Buddy.GetMaxPageOrder` | kernel/mm/pmem.c:387-402 | The largest order aligned at the start that does not pass the end. |
| `Buddy.GetMinPageOrder` | kernel/mm/pmem.c:404-415 | The smallest sufficient order; none exactly above 1024 pages. |
| `Buddy.Pmem.FindBuddy` | kernel/mm/pmem.c:448-467 | The buddy, or none past the end; its alignment assertion holds. |
| `Buddy.Pmem.FindFreeblock` | kernel/mm/pmem.c:417-446 | A block of the order asked for leaves the lists, larger ones being split on the way; or none that large is free. The panic on a missing buddy is unreachable. |
| `Buddy.Pmem.SplitBlock` | kernel/mm/pmem.c:436-443 | The lower half is kept, the upper half listed with its own order. |
| `Buddy.Pmem.Nalloc` | kernel/mm/pmem.c:542-586 | A block of the smallest sufficient order; exactly its pages stop being free and no other allocation changes. It fails only if no free block is large enough. The address is not 0, as asserted, as long as page 0 has not been freed. |
| `Buddy.Pmem.MergeBlock` | kernel/mm/pmem.c:469-503 | Merging goes on until the block can be listed without a free buddy. |
| `Buddy.Pmem.Nfree` | kernel/mm/pmem.c:588-617 | Exactly the block's pages become free, every other allocation stays, and the lists are canonical again. |
| `Buddy.Pmem.IncRefcnt` | kernel/mm/pmem.c:696-710 | The count of an allocated page goes up; nothing else changes. |
| `Buddy.Pmem.DecRefcnt` | kernel/mm/pmem.c:712-729 | The last reference frees the page, and only the last. |
| `Buddy.Pmem.FreeblocksInsertRange` | kernel/mm/pmem.c:515-530 | A range of free pages is tiled greedily, leaving no two free buddies. |
| `Buddy.Pmem.constructor` | kernel/mm/pmem.c:317-369 | From any boot bitmap the free pages are those it left free, in canonical lists; page 0 is not free if the managed pages start above it. |
| `Journal.CommitAtomic` | kernel/fs/jbd.c:56-172 | After any number of the block writes of a commit, recovery finds exactly the old state up to the header write, and exactly the new state from then on. |
| `Journal.RunAtomic` | kernel/fs/jbd.c:220-238 | A crash anywhere in a run of transactions recovers to the state after some whole number of them: all completed ones and at most one more. |
| `Journal.CommitDone` | kernel/fs/jbd.c:56-81 | A complete commit leaves the new state at home and the journal empty. |
| `Journal.WhileApplying` | kernel/fs/jbd.c:147-165 | While blocks are written home the journal still holds the log, and replaying it over any part of it gives the new state. |
| `Journal.BeforeHeader` | kernel/fs/jbd.c:83-124 | Writing the log without the header changes nothing that recovery sees. |
| `Journal.AfterHeader` | kernel/fs/jbd.c:126-145 | Once the header is written the journal holds the whole log. |
| `Journal.LogEffect` | kernel/fs/jbd.c:147-165 | Applying a log brings exactly the logged blocks up to date. |
| `Journal.Journal.WriteBlk` | kernel/fs/jbd.c:240-264 | A block is logged once, in order of first logging. |
| `Journal.Journal.WriteJournalBlks` | kernel/fs/jbd.c:83-124 | The data blocks in order and then the block map, which keeps the words it does not use. |
| `Journal.Journal.ApplyJournal` | kernel/fs/jbd.c:147-165 | The logged blocks are written home in order with their cached contents. |
| `Journal.Journal.CommitJournal` | kernel/fs/jbd.c:56-81 | The writes of a commit, in the order that makes it atomic. |
| `Journal.Journal.EndTxn` | kernel/fs/jbd.c:220-238 | Exactly the logged blocks take their cached contents; the journal is empty; the writes are those of one transaction. |
| `SfsBitmap.AllocElement` | kernel/fs/sfs/sfs.c:302-322 | The first clear bit of the searched bytes is set and no other; none is found exactly if all are set. |
| `SfsBitmap.FreeElement` | kernel/fs/sfs/sfs.c:324-335 | One bit is cleared and no other. |
| `SfsBitmap.MarkFree` | kernel/fs/sfs/sfs.c:504-530 | Across bitmap blocks the first clear bit is set and no other, or all searched bits are set. |
| `SfsBitmap.ClearUsed` | kernel/fs/sfs/sfs.c:532-547 | The bit of one block is cleared and no other. |
| `SfsModel.GetPut` | kernel/fs/sfs/sfs.c:772-785 | A little-endian word written to an indirect block is read back, and no other word changes. |
| `SfsModel.BindInv` | kernel/fs/sfs/sfs.c:733-786 | Naming a free block for the first time keeps each block named in one place. |
| `SfsModel.UnbindInv` | kernel/fs/sfs/sfs.c:1080-1095 | Emptying a slot frees the one name of its block. |
| `SfsModel.GrownBytes` | kernel/fs/sfs/sfs.c:707-811 | Allocating a block changes no byte of any file, but for the zeros of the new block. |
| `SfsModel.StoreBytes` | kernel/fs/sfs/sfs.c:850-852 | A store into one block of a file changes those bytes of that file, and no other byte of any file. |
| `Sfs.Volume.AllocDataBlock` | kernel/fs/sfs/sfs.c:495-530 | The first free block is marked and zero-filled; it fails only if no searched bit is clear. |
| `Sfs.Volume.GetDataBlock` | kernel/fs/sfs/sfs.c:707-811 | The block that holds an offset, through direct and indirect slots; missing blocks are allocated on request, and nothing already named changes. |
| `Sfs.Volume.ReadData` | kernel/fs/sfs/sfs.c:813-832 | Reads the bytes of the file from the offset on, and changes nothing; it stops at the count, at the end of the file or at a hole. |
| `Sfs.Volume.WriteData` | kernel/fs/sfs/sfs.c:834-863 | At any offset, also beyond the end: each byte of the file is the one written, the old one, or the 0 of a new block; holes stay holes; the size becomes the maximum; every other file is unchanged; a write is short only if no block is free; a failing first block leaves at most an indirect block. |
| `Sfs.WrittenTwice` | kernel/fs/sfs/sfs.c:845-856 | Writing block by block is writing once, also where blocks are new. |
| `Sfs.WroteContent` | kernel/fs/sfs/sfs.c:834-863 | A file without holes written inside or at its end has no holes, and its contents are spliced. |
| `Sfs.ReadContent` | kernel/fs/sfs/sfs.c:813-832 | What is read of a file without holes is a slice of its contents. |
| `SfsDelete.DeleteInode` | kernel/fs/sfs/sfs.c:1046-1108 | For every size: exactly the bits of the blocks walked through, of the first indirect block and of the words behind it are cleared. The other files are as if those words had been emptied, and keep all their bytes if and only if the words were 0 or in no block of theirs. The bitmap agrees with the remaining references if and only if the words named every block the walk did not reach and no block still in use; up to 140 blocks, if and only if the file named no block beyond its end. |
| `SfsDelete.LeakedIff` | kernel/fs/sfs/sfs.c:1059-1096 | Nothing is lost exactly if the file names no block beyond what the walk covers. |
| `SfsDelete.SecondLeaks` | kernel/fs/sfs/sfs.c:1074-1090 | A file that needs the second indirect block loses it, unless the words behind the first one name it: the inner loop has no bound of 128 entries, so the walk never gets there. |
| `SfsBehind.BlankKept` | kernel/fs/sfs/sfs.c:1074-1084 | Emptying the first words of a block changes some byte of a file other than i if and only if a word is not 0 and the block belongs to such a file. |
| `SfsBehind.BlankByte` | kernel/bdev.c:61-84 | Which bytes change: a byte becomes a hole if the block was the indirect block that names its block, and is overwritten if it lies in the block. |
| `SfsBehind.BlankInv` | kernel/fs/sfs/sfs.c:1074-1084 | References stay sound: each block in use is still named in one place, without those whose names are gone. |
| `SfsLeak.DeleteNextTo` | kernel/fs/sfs/sfs.c:1074-1084 | Deleting a file of more than 140 blocks, behind whose first indirect block lies that of another file, makes block 12 of the other file a hole. |
| `SfsImages.HarmIsReal` | tools/mkfs.c:18-31 | A volume of the builder's layout with two such files, of 141 and of 13 blocks. |
| `SfsLeak.WriteThenDelete` | kernel/fs/sfs/sfs.c:834-863 | One byte written at the end of a file of twelve blocks while one block is free, and then the file deleted: the bitmap has a block that nothing names. |
| `SfsLeak.CutShort` | kernel/fs/sfs/sfs.c:753-763 | After that write the file is as before, but for the last free block as its empty indirect block. |
| `SfsImages.LeakIsReal` | tools/mkfs.c:18-31 | A volume of the builder's layout with 24 files and 288 data blocks on which this happens. |
| `SfsDelete.NewInode` | kernel/fs/sfs/sfs.c:337-376 | A new inode names nothing and keeps all other files. |
| `KrMalloc.UnitsFit` | lib/malloc.c:78-81 | The overflow check rejects exactly the sizes above 2^64 - 32, and what passes has room for all bytes without wrapping. |
| `KrMalloc.Heap.Malloc` | lib/malloc.c:73-103 | A block of enough units that overlaps no live block; other live blocks stay; memory grows by at most one chunk, only if no free block fits; it fails exactly for oversize requests or when memory is needed and refused. |
| `KrMalloc.Heap.Free` | lib/malloc.c:25-52 | The block stops being live, every other live block and the memory obtained stay, and the ring stays ordered, circular and without touching neighbours. |
| `KrMalloc.Heap.MoreCore` | lib/malloc.c:54-71 | At least 4096 units of new memory join the ring; no live block changes. |
| `KrMalloc.Heap.FindPrev` | lib/malloc.c:31-35 | The search of free ends at the node before the block, from any starting node. |
| `KrMalloc.Heap.FindFit` | lib/malloc.c:86-102 | One turn round the ring finds the first node with enough units after freep, or proves there is none. |
| `KrMalloc.Heap.Search` | lib/malloc.c:86-102 | The search asks for memory at most once, and then succeeds. |
| `KrMalloc.Heap.Take` | lib/malloc.c:87-97 | The units taken were free, and are the only ones to become live. |
| `KrHeap.Released` | lib/malloc.c:37-51 | The header updates of free give an ordered ring over a tiling in which exactly that block became free, merged on both sides. |
| `KrHeap.Disjoint` | lib/malloc.c:25-52 | Blocks do not overlap. |
| `KrHeap.TakeTail` | lib/malloc.c:92-94 | Cutting the tail keeps the ring and the tiling. |
| `KrHeap.TakeWhole` | lib/malloc.c:88-89 | Unlinking a whole block keeps the ring and the tiling. |
| `KrHeap.GrowLive` | lib/malloc.c:63-68 | New memory adds exactly its units. |
| `Radix.RadixTree.Lookup` | kernel/radix_tree.c:165-177 | Lookup is the finite map, for every index. |
| `Radix.RadixTree.Insert` | kernel/radix_tree.c:179-200 | An absent key is added and no other changes; a present key is reported; on allocation failure the map is unchanged. |
| `Radix.RadixTree.AddLevel` | kernel/radix_tree.c:105-122 | A level more leaves the map as it was. |
| `Radix.RadixTree.FindParent` | kernel/radix_tree.c:86-103 | The lowest node on the way to an index; creating nodes changes no entry. |
| `Radix.RadixTree.Remove` | kernel/radix_tree.c:202-238 | Takes out the entry at the index modulo the tree's size and no other; counts and parent links stay exact; its assertions hold; nodes go only when nothing is left below them. |
| `Radix.RadixTree.ClearSlot` | kernel/radix_tree.c:218-231 | Emptying a slot leaves a well-formed tree without the key; or the node is empty and freed, and only the slot above it is left to empty. |
| `Radix.RemoveMeant` | kernel/radix_tree.c:202-216 | Removing an index removes exactly that key if and only if it is within the height or its alias is absent. |
| `Radix.RemoveAliases` | kernel/radix_tree.c:202-216 | A tree with only key 0, from which removing 64 takes key 0. |
| `RadixModel.RootGet` | kernel/radix_tree.c:105-122 | A new root over the old one preserves every lookup. |
| `RadixModel.ChildGet` | kernel/radix_tree.c:95-100 | An empty node preserves every lookup. |
| `RadixModel.LeafGet` | kernel/radix_tree.c:124-140 | A leaf slot decides the lookup of one index. |
| `RadixModel.PruneGet` | kernel/radix_tree.c:225-228 | Freeing an empty node and its slot preserves every lookup. |
| `RadixModel.Reaches` | kernel/radix_tree.c:86-103 | The path of an index reaches every node whose digits it has. |
| `Slab.LayoutFits` | kernel/mm/kmalloc.c:74-84 | A slab holds at least 128 objects, and header, indices and objects fit its pages. |
| `Slab.IndexInverts` | kernel/mm/kmalloc.c:205-244 | The index computed on free is the one used on allocation. |
| `Slab.ObjectsApart` | kernel/mm/kmalloc.c:183-254 | Objects in use never overlap, within or across slabs. |
| `Slab.SlotInside` | kernel/mm/kmalloc.c:86-90 | An object lies in its slab after the index array. |
| `Slab.PopChain` | kernel/mm/kmalloc.c:205-206 | Taking the head leaves a chain that visits each free slot once and ends at -1. |
| `Slab.PushChain` | kernel/mm/kmalloc.c:244-246 | So does giving a slot back. |
| `Slab.Cache.SlabCreate` | kernel/mm/kmalloc.c:63-111 | A new slab has every slot free. |
| `Slab.Cache.Alloc` | kernel/mm/kmalloc.c:183-220 | The object is a slot not in use before, the only one added; full slabs change lists; it fails only without free slot and pages. |
| `Slab.Cache.Free` | kernel/mm/kmalloc.c:222-254 | The slab and slot are found from the address, and exactly that slot is freed. |
| `Slab.SizeClass` | kernel/mm/kmalloc.c:256-278 | The smallest class that is large enough; none exactly for 0 and above 4096. |
| `Ide.InOrder` | kernel/drivers/ide.c:109-149 | Over all interleavings requests are issued and completed in submission order, each at most once. |
| `Ide.BusyMeansIssued` | kernel/drivers/ide.c:85-107 | Between critical sections the device is busy exactly if the queue head has been issued, and the head is pending. |
| `Ide.NeverStuck` | kernel/bdev.c:198-210 | An idle device with a non-empty queue has submitters that are still to call the handler. |
| `Ide.AssertionsHold` | kernel/drivers/ide.c:126-140 | An interrupt finds its request at the front; what is issued or completed is pending. |
| `Ide.Progress` | kernel/drivers/ide.c:85-149 | A request that is not complete always has an enabled step. |
| `Ide.WorkBounded` | kernel/bdev.c:198-217 | n requests take at most 15 n further steps, however they interleave. |
| `Ide.QuietMeansDone` | kernel/bdev.c:211-216 | When only new submissions are possible, every request is complete. |
| `Ide.StepKeeps` | kernel/drivers/ide.c:85-149 | Every step keeps the protocol's invariant. |
| `Sleeplock.MutualExclusion` | kernel/synch.c:141-167 | At most one holder of a sleeplock, or one journal transaction, in every reachable state. |
| `Sleeplock.NoLostWakeup` | kernel/synch.c:204-241 | A free sleeplock with waiters has a woken thread that has not looked again. |
| `Sleeplock.WaitOnlyWhileBusy` | kernel/fs/jbd.c:205-238 | Threads wait for the journal only while a transaction is in progress. |
| `Sleeplock.NoDeadlock` | kernel/synch.c:124-167 | While the lock is free, whoever wants it can move, or the spinlock's holder can. |
| `Sleeplock.StepKeeps` | kernel/synch.c:124-255 | Every step keeps the invariant. |
| `SchedModel.RoundRobin` | kernel/sched.c:109-138 | With only timer ticks, threads tied at the top run one after the other in queue order. |
| `SchedModel.EveryoneRuns` | kernel/timer.c:18-27 | Each of k tied threads runs within k ticks. |
| `SchedModel.RoundRobinFromAny` | kernel/sched.c:109-138 | From any state, from the first tick on, the threads of the highest priority run one after the other in queue order. |
| `SchedModel.TickStarts` | kernel/sched.c:84-107 | From any state a tick picks the most urgent thread and puts its equals behind it in queue order. |
| `SchedModel.TickRotates` | kernel/sched.c:84-107 | A tick passes the turn to the next of the lane. |
| `Sched.Scheduler.GetMaxPriorityThread` | kernel/sched.c:184-197 | The longest-queued thread of maximal priority. |
| `Sched.Scheduler.Dispatch` | kernel/sched.c:109-138 | That thread runs, or the idle one if the queue is empty; no queued thread is more urgent. |
| `Sched.Scheduler.SchedSched` | kernel/sched.c:84-107 | Every thread stays in exactly one place; a thread that stays ready makes it a tick. |
| `Sched.Scheduler.SchedReady` | kernel/sched.c:58-82 | A more urgent thread runs at once, another queues; if no queued thread was more urgent than the running one, none is. |
| `Sched.Scheduler.YieldReady` | kernel/sched.c:141-182 | The last queued thread more urgent than the running one takes over, if any; every thread stays in one place. |
| `Console.Input.Storec` | kernel/console.c:128-159 | The ring refines the line discipline on sequences, across 32-bit wrap-around; nothing committed is lost. |
| `Console.Input.ReadOn` | kernel/console.c:161-189 | A read, or one that goes on after sleeping, takes the next committed characters up to a newline, end of file or its size, or must wait; across 32-bit wrap-around. |
| `Console.StoreOk` | kernel/console.c:147-156 | Never more than 256 characters; the edited line holds no newline or end of file; committed characters stay. |
| `Console.EditOnly` | kernel/console.c:134-146 | Erase and kill touch only uncommitted characters. |
| `Console.ReadInOrder` | kernel/console.c:168-186 | What a reader takes and what is left are the committed characters in order. |
| `Console.AddLast` | kernel/console.c:148-150 | A character stored at the edit index joins the line and touches nothing else. |
| `Console.TakeFirst` | kernel/console.c:172-172 | The read index takes the first committed character. |
| `ConsoleSession.EachOnce` | kernel/console.c:161-189 | With any number of readers that sleep and go on, interleaved with the keyboard, each committed character is taken once, in order, or still there; each call returns what it took, at most its size, ending at its newline or end of file. |
| `ConsoleSession.StepKeeps` | kernel/console.c:128-189 | Every step of keyboard or reader keeps that account. |
| `ConsoleSession.SleepUnseen` | kernel/console.c:166-171 | A read that sleeps and goes on reads what it would have read if everything had been there at once. |
| `Lists.WithoutFacts` | kernel/list.c:55-62 | Removing an element keeps the others, each once. |

## Left out

- CowKernel.Kernel.PmemAlloc: picks any free frame; which one the buddy allocator picks is in `Buddy`, and the two models are not joined.
- CowKernel.Kernel.VpmapDestroy: the freeing of table pages is in `PageTableTeardown`, whose tables this model does not share; table pages are counted frames here.
- CowKernel.Kernel.AsCopyAs: runs without interruption, as every method of `CowKernel`; what other processes do between its statements is in the step system.
- Copy-on-write: translation caches and their flushes, the kernel's direct map and the permission change at `kernel/pgfault.c:37`, several threads in one address space, and growing a heap region; the copying of a page is one step, and so is a store. The assertion on the order of a page at `kernel/mm/pmem.c:720-724` is a precondition in `Buddy`, where blocks have orders.
- Regions.FindFreeVaddr: sizes with which the sums at `kernel/mm/vm.c:336-345` wrap at 64 bits are not modelled, nor by `Regions.FoundFreeIff`.
- PageTable.Vpmaps.VpmapMap: the partial unmap (`arch/x86_64/kernel/mm/vpmap.c:305-315`), whose limits run past the end of the range, is not part of this model.
- PageTableTeardown.VpmapDestroy: lists the calls of the walk; the zeroing of entries in tables that are freed right after is not modelled.
- Buddy.Pmem.constructor: starts from any bitmap whose last allocated page precedes the contiguous free area, as `kernel/mm/pmem.c:237-277` maintains it; the boot allocator's own search is not part of this model.
- Buddy.Pmem.Nalloc: requests of more than 1024 pages, on which the source panics, are excluded.
- Journal.Journal.CommitJournal: allocation and device failures inside a commit, and the retry loop around them, are not modelled; nor is `jbd_recover`, which is empty: recovery is the specification `Recover`.
- Sfs.Volume.WriteData: memory exhaustion, the encoding of inodes on disk, the inode bitmap, directories and link counts are not part of this model; writes that end above the largest file are excluded, as an assertion of the source asks.
- SfsDelete.DeleteInode: files with holes are excluded, because the loop at `kernel/fs/sfs/sfs.c:1059` passes a hole without counting it, and so goes on past the blocks of the file and in general past the address array; no data block is named beyond the end, which `WriteData` keeps. A file of more than 140 blocks whose first indirect block is the last of its cache page, or of the data blocks, is excluded: what then follows in memory is not part of this model. The words there name data blocks or nothing, as the assertion at `kernel/fs/sfs/sfs.c:1079` asks, and no other thread uses the block.
- SfsModel: every bit of the bitmap blocks stands for a block of the device. The file system builder writes `s_size` data blocks (`tools/mkfs.c:275`), which is how far allocation searches.
- KrMalloc.Heap.Malloc: regions from `sbrk` are new memory above the static header, as an argument of the call.
- Radix.RadixTree.Insert: indices below 2^30, where the shift of the source does not overflow; freed nodes do not return to the supply; `radix_tree_destroy` and `radix_tree_empty` are left out.
- Slab.Cache.Alloc: the filling of objects with 0x2b, destruction of caches and the cache of caches.
- Ide: the registers and data transfer of the controller, disk errors, and waking the submitter, which is the condition variable of `Sleeplock`; an interrupt comes only for an issued command.
- Sleeplock: priority donation of spinlocks, which does not restore priorities beyond one donor; spinning is a step that waits to be enabled.
- Sched.Scheduler.SchedReady: priority changes, several processors, and the reaping of dead threads.
- Sched.Scheduler.YieldReady: does not pick the most urgent thread, and neither does the source.
- Console.Input.ReadOn: echo to the screen is left out; sleeping between two calls of it is in `ConsoleSession`, whose steps are whole critical sections.
- Assembly, boot, interrupt controllers, keyboard, screen and serial port; process exit and wait, pipes, path lookup, the inode cache, system call arguments, program loading, user programs and the file system builder would add easy members, or have no invariant the code keeps.
