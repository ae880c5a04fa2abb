# Cyanos in Dafny

A model of the Cyanos microkernel's memory core and of five protocols around it, with
proofs about every input and every run. Physical memory is one byte map; a ghost map
tags every physical byte with its owner (a free list, a table, the frame of a page, the
block of an area), so that "nothing is used twice" is a consequence of the invariants
instead of an assumption.

How the modules stack up:

- `Words`, `Tables`: little-endian words, bitwise or and exclusive or, word tables in memory.
- `Buddy`: the frame allocator (class `Ram`), with its one block per order.
- `Paging`: the four-level x86-64 table as a tree in physical memory, and the
  processor's walk (section 4.5 of the Intel SDM, volume 3A) as an independent function.
- `Areas`, `Space`, `Steps`, `Faults`, `Unmaps`, `Protects`, `Rights`, `Strays`, `Vmm`: address
  spaces (class `AddressSpace`): the invariant that ties areas, tables and owners together,
  one module per kind of change, what the processor permits, memory that no area accounts
  for, and the operations.
- `Runs`, `Requests`, `Lifetimes`: whole runs of an address space, the access that a process
  asked for in them, and runs that end with its drop.
  `UserMemory`: ownership of bytes, and what a process reads. `Drops`, `Fork`: giving a
  space up, and cloning it. `Costs`: what areas and their tables cost in pages. `Ledger`:
  what an unmap gives back and what it wastes.
- `Images`, `Elf`, `Mmap`, `ExecStack`, `Exec`: filling mapped memory: executables,
  file-backed mmap, the initial process stack and its readers.
- `Slab`, `Objects`: the kernel heap on top of `Ram`, and whole runs of its clients.
- `Signals`: signal frames. `Rings`, `Sockets`, `Streams`: the socket server, and what the
  transcript of a run says about its byte streams. `Ports`, `Sched`, `Ipc`, `Transcripts`:
  message passing, the run queue, and the same for messages.
  `Paths`: path normalisation.

Conventions. Areas are kept as page ranges `[first, past)`: the source stores only page
multiples. Each address space has a ghost number `id`. `own(0) == Kernel` says that
physical page 0 is not managed: address 0 is the source's mark for "not faulted in" and
"no block". It holds after `InitFromMap` exactly for the boot maps that do not seed page 0.
The number of reachable pages, `Total`, decides every allocation: with one block per
order the free lists are its binary digits (`NoFragmentation`). The higher-half direct
map is a constant offset: zero everywhere except in `Slab`, where it is a parameter.
Locks are atomic steps on one processor.

## What the proofs found

Where the code does less than its comments promise, the model follows the code.

- `buddy::free` keeps one block per order. Freeing a block whose order is occupied drops
  the old head: its pages stay in the `FREE_PAGES` count but can never be allocated.
  `Ram.Valid` accounts for them exactly (`lost`), and each call drops at most one block.
- `init_from_map` says it skips the first 2 MiB; it only rounds each region up to 4 MiB.
  Page 0 is handed over exactly when an available region starts at 0 and holds a page (`PageZeroSeeded`).
- An eager area whose front is unmapped is later freed with a recomputed order. That is
  right exactly when the number of removed pages is a multiple of the new block size
  (`FrontCutExact`); one page off an eight-page block is not (`FrontCutOverruns`).
- Cutting an eager area short releases nothing. A cut at the front always leaves pages
  that no area accounts for, a cut at the back exactly when the rest needs a smaller
  order. Unmapping keeps a space free of such strays if and only if it makes no such cut
  (`UnmapRange`, `LeakStays`), and loses exactly the difference of the two block sizes
  (`WasteLeaks`); with none, free pages, pages behind areas and tables add up to the same
  number throughout, and a space can be run and dropped without a trace but its inner page
  tables (`Run`, `Lifetime`).
- `mprotect` gives every area it touches the new flags as a whole. Pages in range get the
  access asked for, but so does, once it is faulted in, every page of such an area that has
  no frame yet. What a process last asked for, page by page, is what it gets if and only if
  all such pages outside the range had that access already (`Ask`); two reserved pages of
  which one is protected have not (`ProtectSpills`). For the same reason a heap that was
  made read-only grows by read-only pages (`GrowsReadOnly`). Read access cannot be taken
  away at all: a page protected against everything stays mapped for the user (`Mprotect`).
- `clone_as` ignores failed page-table allocations. The clone is complete, tables
  included, exactly when the reachable pages pay for the parent's data and the missing
  tables. Otherwise it fails, or succeeds with exhausted lists and some pages unmapped;
  no page leads anywhere else in any case (`CloneAs`).
- When `clone_as` fails, dropping the half-built child has already released the child's
  root table (`CloneAs` ensures it); `fork_current` releases that page once more.
- `port::close` frees a bucket in the middle of probe paths. `CloseKeeps` and `CloseHides`
  say which ports can still be found afterwards.
- A port number is issued while a port with it is live exactly when the next number with
  room on its probe path is that of a live port (`Create`). It takes a close, and a run of
  65537 openings does it (`ReissueRun`). Without that, no wake-up is ever lost (`System.Run`).
- Ignored signals widen the signal mask like handled ones. The mask is as before the
  signals arrived exactly when the ignored ones had SA_NODEFER (`MaskKept`, `RunInterrupt`);
  `IgnoredWidens` is a case where it is not.
- mmap ignores that `sys_mprotect` refuses address 0. An executable file mapping there
  stays writable, and no other request leaves anything writable and executable
  (`MmapCall`). Failing requests alone lead the bump allocator there (`WasteAddresses`,
  `BumpWraps`, `PageZeroUnsafe`).
- The ELF loader copies the file's part of a segment whatever the segment's memory size is.
  It stays inside the block allocated exactly when offset in page and file size fit the
  block (`CopyContained`), which they do when the file size is at most the memory size
  (`UsualFits`); a page and a byte of file for one byte of memory do not (`Overgrows`).
- The initial stack pointer is the highest aligned one for a frame whose words and strings
  are rounded up separately; that wastes sixteen bytes exactly for an odd number of words
  and strings that end in the first half of sixteen bytes (`TopmostExact`).
- The address that mmap falls back to when a hint is taken is not checked. The space stays
  well-formed exactly unless it lies beyond the user half (`MmapCall`).
- `socketpair` without room for its sockets, and `connect` to a full backlog, leave a
  connection slot claimed that nobody refers to; `accept` without a free descriptor has
  already taken the oldest connection off its queue (`SocketPair`, `Connect`, `Accept`).
- A path that outgrows the 256-byte buffer is cut off, and what is left of a name may be
  ".." (`CutToDots`). Without ".." in it, a path resolves as it should exactly when the
  result fits (`ResolvedExact`).
- A file-backed mmap at an unaligned address puts the file's first byte at the start of
  the page (`FileMapped`).

## Model

| member | source | states |
|---|---|---|
| Buddy.Ram.Alloc | mm/src/buddy.rs:69-85 | fails exactly when fewer pages than the block are reachable, that is, no list at or above the order is occupied; otherwise hands out a block aligned to its size that was free, every other free byte stays free, and count and reachable pages drop by exactly the block: with `Valid`, lists stay pairwise disjoint and exact, so no frame is handed out twice |
| Buddy.NoFragmentation | mm/src/buddy.rs:69-85 | a block of an order can be had if and only if that many pages are reachable in all |
| Buddy.SplitDown | mm/src/buddy.rs:73-83 | splitting stores each upper half on a list that is empty, never over an occupied one, and what is left has the asked order |
| Buddy.Ram.Release | mm/src/buddy.rs:88-106 | the block and its merged buddies are free again, nobody else's byte changes owner, the count rises by exactly the block, and at most one block, the displaced head, becomes unreachable and is accounted as lost; which lists result is determined |
| Buddy.BuddyPair | mm/src/buddy.rs:95-100 | exclusive or with the block size finds the neighbour with which an aligned block forms the next larger aligned block |
| Buddy.SeedOrderFits | mm/src/buddy.rs:54-59 | the order computed from leading and trailing zeros is the largest whose block is aligned there and still fits |
| Buddy.Ram.SeedSpan | mm/src/buddy.rs:51-62 | the released blocks tile the span exactly, each the largest that fits, and the count rises by exactly its pages |
| Buddy.Ram.InitFromMap | mm/src/buddy.rs:37-66 | for every boot map whose available regions do not overlap, the blocks passed to free exactly tile the aligned part of each available region, the total is the sum of the regions, every byte of them is free or accounted as lost and no other byte changes; page 0 stays out of the allocator if and only if the map does not seed it |
| Buddy.PageZeroSeeded | mm/src/buddy.rs:40-49 | page 0 is handed to the allocator exactly when an available region starts at 0 with at least a page |
| Buddy.ZeroSeeded | mm/src/buddy.rs:40-49 | physical address 0 is seeded exactly when the map does not skip it, by a test on the regions alone |
| Buddy.ListsDisjoint | mm/src/buddy.rs:22-30 | blocks on different free lists never overlap |
| Paging.LeafEntryFields | arch/x86_64/src/paging.rs:43-44 | the stored leaf decodes to exactly the frame and access bits it was made from |
| Paging.Widened | arch/x86_64/src/paging.rs:90-105 | or-ing flags into an intermediate entry adds the requested access and changes neither its target nor its other bits |
| Paging.WalkIsLeaf | arch/x86_64/src/paging.rs:77-109 | the tree refines a flat map: for every user page the processor's walk gives the leaf entry, and the access bits combined over all four levels equal the leaf's own |
| Paging.EnsureTable | arch/x86_64/src/paging.rs:90-119 | a missing table is created empty and linked, an existing one is kept and widened; no page translates differently and the tree stays a tree |
| Paging.Map4k | arch/x86_64/src/paging.rs:32-45 | succeeds exactly when the reachable pages pay for the missing tables of the path; success changes exactly one leaf, to exactly the frame and flags; failure changes none and means memory ran out; only tables of this space are written |
| Paging.Unmap4k | arch/x86_64/src/paging.rs:51-75 | removes exactly one leaf, or nothing when there is no last-level table |
| Paging.MapIsExact | arch/x86_64/src/paging.rs:32-45 | after a map, the processor's walk of every user and kernel page is as before except at the mapped page, where access is exactly as asked |
| Paging.AllocRoot | arch/x86_64/src/paging.rs:246-270 | fails exactly when no page is reachable, changing nothing; otherwise takes one page, and the new root maps no user page and translates every kernel page as the current root does |
| Paging.KernelHalfFixed | arch/x86_64/src/paging.rs:246-270 | an operation that leaves kernel bytes and the upper half of the root alone leaves every kernel translation alone |
| Areas.PagesToOrder | mm/src/vmm.rs:609-614 | the least order whose block covers the pages |
| Areas.Find | mm/src/vmm.rs:390-401 | the first area covering a page |
| Areas.FindUnique | mm/src/vmm.rs:390-401 | with disjoint areas, whichever area covers a page is the one found |
| Space.MapPages | mm/src/vmm.rs:147-167 | succeeds exactly when the reachable pages pay for the missing tables of all pages; otherwise unmaps what it mapped: no translation has changed |
| Vmm.AddressSpace.constructor | mm/src/vmm.rs:103-110 | a space over an empty root satisfies the invariant |
| Vmm.AddressSpace.Map | mm/src/vmm.rs:116-184 | succeeds exactly when the size is not zero, a slot is free, the range is vacant and the reachable pages pay for the block and the missing tables; then one area of zeroed consecutive frames is added, exactly its pages translate, the processor permits on them exactly the access asked for, and exactly those pages were paid; any failure, also half way, leaves areas and translations as they were; free pages, pages behind areas and tables add up as before |
| Vmm.AddressSpace.MapLazy | mm/src/vmm.rs:194-228 | succeeds exactly when the size is not zero, a slot is free and the range is vacant; no page is translated; the books stay balanced |
| Vmm.AddressSpace.HandlePageFault | mm/src/vmm.rs:238-287 | succeeds exactly when the page is an unbacked page of a lazy area and the reachable pages pay for a frame and the missing tables; then the page gets a zeroed frame of its own, on which the processor permits exactly what the flags of the area name; otherwise nothing changes; the books stay balanced |
| Vmm.AddressSpace.UnmapRange | mm/src/vmm.rs:310-380 | afterwards exactly the pages of the range are uncovered and untranslated and every other page keeps area, frame and leaf; the frames of removed lazy pages and the blocks of wholly removed eager areas are released, the block of a cut eager area stays held; the free lists are exactly those after these releases; a space without stray memory stays so, and the books balanced, if and only if no eager area is cut wastefully |
| Strays.LeakStays | mm/src/vmm.rs:350-371 | after a wasteful cut of an eager area some byte is held for the area and lies in none of its pages |
| Strays.UnmapTight | mm/src/vmm.rs:310-380 | unmapping leaves no stray memory if and only if it cuts no eager area wastefully |
| Ledger.WasteLeaks | mm/src/vmm.rs:310-380 | an unmap never gains pages, and loses none if and only if it cuts no eager area wastefully |
| Unmaps.FrontCutExact | mm/src/vmm.rs:350-371 | the remainder of an eager area cut at the front is aligned to its recomputed order if and only if the cut is a multiple of that block |
| Unmaps.FrontCutOverruns | mm/src/vmm.rs:350-371 | a concrete cut for which the recomputed block reaches past the end of the allocation |
| Vmm.AddressSpace.Mprotect | mm/src/vmm.rs:473-521 | write with execute is refused; otherwise the processor lets user code read each backed page in range, write it if and only if PROT_WRITE and execute it if and only if PROT_EXEC was given, at its old frame; the walk of every other page is as before, and remapping cannot fail; the books stay balanced |
| Vmm.AddressSpace.Brk | mm/src/vmm.rs:539-606 | the answer, the heap area and the end follow the case analysis; the answer of a refused request is the break in force; growing reserves unbacked pages, shrinking removes exactly the pages given up and releases their frames, also down to an empty heap and back; the books stay balanced |
| Runs.Step | mm/src/vmm.rs:116-606 | every operation keeps the invariant, write-xor-execute, every other owner's memory and the kernel half; absence of stray memory, and the sum of free pages, pages behind areas and tables, are kept if and only if the operation is not a wasteful unmap |
| Runs.Run | mm/src/vmm.rs:116-606 | after every sequence of map, map_lazy, faults, unmap_range, mprotect and brk: the processor's walk of every user page finds frame p exactly when the areas say p, areas stay disjoint and counted, no page or area is writable and executable, other spaces and all kernel translations are untouched; free pages, pages behind areas and tables never add up to more than before, and without wasteful unmaps to exactly as many, with no memory astray |
| Rights.WalkAgrees | mm/src/vmm.rs:404-416 | the areas' translation of any user page equals the hardware walk |
| Rights.WalkPermits | mm/src/vmm.rs:473-521 | the access the processor grants to a page, over all four levels, is exactly that of the flags its leaf was made from |
| Requests.Ask | mm/src/vmm.rs:116-606 | every operation leaves every page with the access last asked for it, mapped pages in the processor's walk and reserved ones in their area, if and only if it touches no area beyond the pages it names whose waiting pages stand for another access |
| Requests.Run | mm/src/vmm.rs:116-606 | after every run, the processor grants each mapped page exactly the access of the last request that named it, whenever it was faulted in, and each reserved page will get it; requests that reach beyond their pages are skipped |
| Requests.EmptyHonoured | mm/src/vmm.rs:103-110 | in a space without areas every wish is met: what `Run` starts from |
| Requests.ProtectKept | mm/src/vmm.rs:487-516 | a protection change keeps what was asked for the reserved pages if and only if those of the touched areas outside its range stand for the same access |
| Requests.GrownKept | mm/src/vmm.rs:539-606 | growing the heap keeps what was asked for if and only if the heap area still stands for readable and writable data |
| Requests.ProtectSpills | mm/src/vmm.rs:487-495 | two reserved pages, of which protecting one takes the write access of the other |
| Requests.GrowsReadOnly | mm/src/vmm.rs:539-606 | a read-only heap whose growth is not writable |
| UserMemory.OneClaim | mm/src/vmm.rs:116-380 | any byte of physical memory has at most one claim among free blocks, table nodes and page frames, across any two spaces |
| UserMemory.FramesApart | mm/src/vmm.rs:404-416 | different pages of a space never share a frame |
| UserMemory.WriteUserBuf | mm/src/vmm.rs:443-463 | the longest backed prefix is written at exactly the user addresses asked for, no other user byte and no other space changes; true exactly when everything was written |
| UserMemory.ReadUserBuf | mm/src/vmm.rs:419-440 | succeeds exactly when every byte is backed and returns what the process itself would read |
| Drops.DropSpace | mm/src/vmm.rs:79-99 | every frame behind a page, every eager block and the root are back with the allocator; nobody else's byte changes owner and no memory is written; the count of free pages rises by exactly the pages behind the areas and the root |
| Drops.NothingLeft | mm/src/vmm.rs:79-99 | after dropping a space without stray memory, every byte it still holds is in a page table |
| Lifetimes.Lifetime | mm/src/vmm.rs:79-606 | any run without wasteful unmaps, followed by the drop, returns every frame and block the space ever held and its root; only inner page tables remain, the free pages are all pages that were on the books but for those tables, and nobody else's memory has changed |
| Fork.CloneLazy | mm/src/cow.rs:55-81 | every faulted-in page of a lazy area is copied to a frame of its own; fails only when no frame is left |
| Fork.CloneEager | mm/src/cow.rs:82-104 | an eager area is copied in one block of the same order; fails only when no block is large enough |
| Fork.CloneAs | mm/src/cow.rs:27-109 | success: parent unchanged, child reads every user byte as the parent does and is backed at exactly the same addresses, on disjoint frames; whatever the processor finds for the child is the frame its area records, with exactly the access of the area, and not writable and executable unless an area of the parent is; complete and well-formed if and only if the reachable pages pay for the parent's data and the missing tables, and incomplete only with all lists empty; failure: the child holds nothing but inner tables, its root is released, the parent is unchanged; the pages taken from the allocator are exactly those behind the child's areas and its tables |
| Costs.PaidInFull | mm/src/cow.rs:51-104 | once every data page of a clone is there, all its tables are too if and only if the reachable pages could pay for the data and the missing tables |
| Fork.ForkEqual | mm/src/cow.rs:27-109 | cloned areas translate exactly the same addresses and give equal bytes |
| Fork.SpacesApart | mm/src/cow.rs:58-103 | two spaces never share a frame |
| Fork.WritesUnseen | mm/src/vmm.rs:443-463 | whatever one space writes to its pages, every other space reads as before |
| Elf.ReadStores | elf/src/lib.rs:73-90 | a field reads back value v exactly when the file stores v there in little-endian |
| Elf.EhdrExact | elf/src/lib.rs:104-120 | parsing accepts exactly the files laid out as an x86-64 ELF executable, and yields exactly the header they store |
| Elf.PhdrExact | elf/src/lib.rs:133-142 | a program header parses exactly when its fields lie in the file, to exactly what they store |
| Elf.SegmentFlags | elf/src/lib.rs:191-199 | segment flags are never both writable and executable; what they mean for the processor is stated by `SegmentOpens` |
| Elf.SegmentOpens | elf/src/lib.rs:191-246 | on every page that a byte of a loaded segment lies in, user code may execute if and only if bit 0 of the header flags is set, and write if and only if bit 1 is and bit 0 is not; every page that was mapped keeps its translation |
| Images.ImageExact | elf/src/lib.rs:211-246 | mapping and copying makes the area's bytes the file's inside the copied range and zero elsewhere, and no other user byte changes |
| Elf.LoadSegment | elf/src/lib.rs:179-279 | one segment: loaded exactly and open in the processor's walk as its header says, if and only if its bytes lie in the file and there is room for it; otherwise the error is determined and areas and translations are unchanged; pages mapped before keep their translation |
| Elf.CopyContained | elf/src/lib.rs:231-240 | the copy of a segment's file part stays inside the block if and only if offset and file size fit it |
| Elf.UsualFits | elf/src/lib.rs:211-240 | they fit whenever the file size is at most the memory size |
| Elf.Overgrows | elf/src/lib.rs:231-240 | a segment with a page and a byte of file for one byte of memory overwrites memory that is not the space's |
| Elf.SegmentKept | elf/src/lib.rs:172-279 | a later segment disturbs no earlier one |
| Elf.ImageStaysOpen | elf/src/lib.rs:172-279 | nor the access of its pages |
| Elf.LoadImage | elf/src/lib.rs:160-292 | on success every byte of every loadable segment reads as the file prescribes or zero, user code may execute and write its pages exactly as the program headers say, the heap is placed by the highest segment; success and every error are determined by the file, the areas and the reachable pages; on every outcome the space stays well-formed and write-xor-execute |
| Elf.LoadsWhen | elf/src/lib.rs:160-292 | a file loads if and only if it has an x86-64 ELF header, the header table and all segment bytes lie in it, and all segments fit together: no two share a page, none touches an area, slots suffice, and the reachable pages pay for all blocks and tables at once |
| Costs.FillExact | mm/src/vmm.rs:116-184 | mapping areas one after the other succeeds if and only if they all fit together |
| Elf.HighestIsEnd | elf/src/lib.rs:276-282 | the highest end is the end of one of the segments, or 0 if there is none above 0 |
| Elf.HeapAboveImage | elf/src/lib.rs:283-289 | the heap start is page aligned and at least one full page above every loaded byte |
| Elf.HeapIsLeast | elf/src/lib.rs:283-289 | and no lower page address is |
| Mmap.MmapFile | kernel/src/syscall.rs:958-1016 | succeeds exactly when a slot is free, the range is vacant, memory suffices and the file could be read, and every error is determined; then the mapping has the file's bytes followed by zeroes, and the processor lets user code execute it if and only if PROT_EXEC and write it if and only if PROT_WRITE was given or it stands at address 0; otherwise it is undone; nothing is writable and executable on return if and only if this was not an executable mapping at address 0 |
| Mmap.MmapCall | kernel/src/syscall.rs:884-1016 | every answer is determined by the request, the old areas, tables and free lists; MAP_FIXED first unmaps exactly its range, every other user byte reads as before, and what comes back is on the lists; success adds exactly one area at the returned address, on whose pages the processor permits exactly the access asked for, but for writing at address 0, at once for a file and when they are touched otherwise; failure leaves the areas alone, refused requests change nothing, the bump counter advances exactly when it is used; write-xor-execute holds on return if and only if no executable file mapping was made at address 0, the invariant if and only if the fallback address does not escape from the user half; isolation always |
| Mmap.Touch | mm/src/vmm.rs:238-287 | the first touch of a page of an anonymous mapping opens it to exactly the access that was asked for, exactly when memory suffices, and the other pages still wait for theirs |
| Mmap.PageZeroUnsafe | kernel/src/syscall.rs:904-1016 | from the counter's start, a run of failing requests followed by a readable and executable page of a file leaves page 0 writable and executable |
| Mmap.BumpWraps | kernel/src/syscall.rs:904-956 | after 2^42 - 64 requests of 4 MiB the counter stands at 0 |
| Mmap.WasteAddresses | kernel/src/syscall.rs:904-976 | any number of requests that fail at their file offset move the counter by their length each, and change nothing else |
| Mmap.LeftUnsafe | kernel/src/syscall.rs:1007-1013 | an area that keeps its temporary flags breaks write-xor-execute |
| Mmap.SafeAgain | kernel/src/syscall.rs:1007-1013 | once the range has safe flags, no page and no area is writable and executable |
| ExecStack.ExecStrBuf.PushCstr | kernel/src/syscall.rs:1642-1660 | succeeds exactly when a slot is left, the pointer is not null and the terminator comes while the buffer lasts; then exactly that string is appended, otherwise none |
| ExecStack.FrameFits | kernel/src/syscall.rs:1843-1867 | whenever the frame size is accepted, the stack pointer is the highest 16-byte aligned address with that much stack above it, and the size exceeds the bytes written by less than sixteen |
| ExecStack.TopmostExact | kernel/src/syscall.rs:1843-1867 | it is the highest possible for the bytes written if and only if not an odd number of words meets strings that end in the first half of sixteen bytes |
| ExecStack.PutTable | kernel/src/syscall.rs:1884-1919 | the pointer table and auxiliary vector are written word for word, and nothing else |
| ExecStack.BuildFrame | kernel/src/syscall.rs:1870-1931 | the frame is complete and only its own bytes change |
| ExecStack.FrameSeen | kernel/src/syscall.rs:1816-1931 | whoever sees those bytes from the stack pointer on sees the initial stack of the System V AMD64 ABI, section 3.4, for the collected strings |
| ExecStack.AuxEntries | kernel/src/syscall.rs:1905-1919 | the auxiliary vector entry by entry: random bytes, page size 4096, user and group numbers 0, VFS port, end |
| ExecStack.FrameUnique | servers/libc-shim/src/lib.rs:116-155 | the frame determines argument strings, environment strings, random bytes and port: it cannot be read as anything else |
| ExecStack.ShimInit | servers/libc-shim/src/lib.rs:116-131 | the cached values are those of the vector up to its null entry, later entries winning |
| ExecStack.ShimInitFromSp | servers/libc-shim/src/lib.rs:143-155 | from any frame the shim recovers page size, random pointer and VFS port |
| ExecStack.LibcStart | userland/libc/src/start.rs:61-103 | main gets the count and tables of exactly the collected arguments and environment |
| Exec.SetUpStack | kernel/src/syscall.rs:1807-1931 | the process sees its frame at the highest 16-byte aligned address from which it fits below the top; all of the stack is mapped, writable and not executable, and every byte of it outside the frame is zero, at least the stack size less the frame and fifteen bytes below the stack pointer; every user byte outside the stack and every translation that was there is as before; -12 exactly when there is no room for the stack, -22 exactly when there is but the frame is too large, and otherwise the stack pointer |
| Exec.NewImage | kernel/src/syscall.rs:1796-1931 | after loading and stack set-up the whole image, open as its headers say, and the whole frame on a zeroed, writable stack are there together; the answer is determined in every case |
| Exec.StartsWhen | kernel/src/syscall.rs:1796-1931 | a program starts if and only if its file is sound, its segments and the stack fit into the space together, and its strings fit on the stack |
| Signals.WriteFrame | sched/src/signal.rs:293-327 | the frame stores the signal number, the mask and all registers, and is zero elsewhere within its 4672 bytes |
| Signals.ReadFrame | sched/src/signal.rs:371-387 | reads back exactly the context the frame holds |
| Signals.Process.Prepare | sched/src/signal.rs:259-347 | succeeds exactly when the aligned frame fits the mapped stack; then the interrupted context is saved at the highest aligned place below everything that was there, and the handler finds through its own registers and the user's view of memory: the signal number in x0 and in the siginfo that x1 points to, the saved mask and registers at their offsets in the ucontext that x2 points to and zero in its other fields, its return address in x30, and x3 to x29 and PSTATE as they were |
| Signals.FrameSeen | sched/src/signal.rs:218-245 | whoever sees the bytes of the frame from the entry stack pointer on sees the siginfo and ucontext of the AArch64 signal ABI of Linux |
| Signals.Process.Restore | sched/src/signal.rs:353-396 | all 31 registers, SP, PC, PSTATE and the mask are those saved by the matching delivery |
| Signals.Process.Deliver | sched/src/signal.rs:53-131 | drops ignored signals up to the lowest pending unmasked one that is not ignored, and delivers that as `Prepare` says: pc is its action's handler, and x30 its restorer if and only if SA_RESTORER is set; reports nothing exactly when there is none; exits exactly for a default action, or with 139 for a stack without room; the saved mask is the old one widened by the dropped signals |
| Signals.MaskKept | sched/src/signal.rs:53-131 | dropping ignored signals leaves the mask as it was if and only if each of them has SA_NODEFER |
| Signals.MaskGains | sched/src/signal.rs:53-131 | exactly which bits the dropped signals add to the mask |
| Signals.IgnoredWidens | sched/src/signal.rs:53-131 | an ignored signal 1 before a handled signal 2 stays masked after the handler returns |
| Signals.FramesApart | sched/src/signal.rs:259-347 | frames of different depths never overlap |
| Signals.RunInterrupt | sched/src/signal.rs:53-396 | for any nesting of handlers that leave bytes from their entry SP up alone and return at it: registers, SP, PC and PSTATE are as before the signal, the stack from the old SP up is untouched, the mask is as before if and only if the dropped signals had SA_NODEFER; the process is ended exactly when the abstract machine says so |
| Signals.RunScript | sched/src/signal.rs:53-396 | for any script of actions and interrupts, by recursion over its nesting: context, pending signals and actions end up exactly as on an abstract machine that keeps saved contexts out of reach, and the process is ended exactly when it is there |
| Rings.Ring.Write | servers/net/src/lib.rs:99-108 | appends as many bytes as fit, in order |
| Rings.Ring.Read | servers/net/src/lib.rs:110-118 | takes out up to the asked number, oldest first |
| Sockets.OneEachSide | servers/net/src/lib.rs:196-214 | at most one socket is side A and at most one is side B of a connection |
| Sockets.FreeIsUnreferenced | servers/net/src/lib.rs:540-549 | a connection slot that may be handed out is referred to by no socket and no queue |
| Sockets.SockShut | servers/net/src/lib.rs:748-765 | shutting down a side keeps the pairing; when the slot is freed nobody refers to it |
| Sockets.Server.Socket | servers/net/src/lib.rs:317-334 | the answer is determined; a new unbound socket in the first free slot of the process's table, or of the first unused one, and nothing else changes |
| Sockets.Server.Bind | servers/net/src/lib.rs:336-396 | the answer is determined: a path already bound or a port already listened on is refused, so is a full table; otherwise exactly that is registered |
| Sockets.Server.Listen | servers/net/src/lib.rs:398-422 | the answer is determined; a bound port gets a listener with an empty queue, exactly if one is free |
| Sockets.Server.Accept | servers/net/src/lib.rs:424-514 | the answer is determined; the new socket, in the first free slot, becomes side B, the state of the waiting connector becomes side A of the same connection, and every other field of every socket and table is as it was; without a free descriptor the head of the queue is gone |
| Sockets.Server.Connect | servers/net/src/lib.rs:516-623 | the answer is determined; a fresh connection with empty streams, waited for by the connecting socket; on refusal nothing changes, except that a full backlog leaves a claimed slot that nobody refers to |
| Sockets.Server.SocketPair | servers/net/src/lib.rs:625-662 | the answer is determined; two sockets, opened one after the other as `Socket` opens them, that are the two sides of one fresh connection, and nothing else changes; or, without room, no socket is opened, closed or changed and a claimed slot is left that nobody refers to |
| Sockets.Server.Send | servers/net/src/lib.rs:664-686 | as many bytes as fit are added to what this side has under way to the other, and nothing else changes; refusals are determined |
| Sockets.Server.Recv | servers/net/src/lib.rs:688-712 | the oldest of what the other side has under way, as many as there are and were asked for, and nothing else changes; refusals are determined |
| Sockets.Server.Shutdown | servers/net/src/lib.rs:748-765 | refuses exactly what is no socket descriptor; otherwise the socket is gone, its side is closed, and the slot is free exactly when both sides are |
| Sockets.Server.Run | servers/net/src/lib.rs:278-765 | after every sequence of requests, of which `snaps` records every state and `outs` every answer, each step exactly as its request prescribes: one socket per end, and no slot reusable while referred to |
| Streams.InOrder | servers/net/src/lib.rs:664-712 | for every connection, read off the transcript and the socket states alone: what side B was given since it was set up is a prefix of what side A had accepted, what side A was given is a prefix of what side B had accepted, and the rest is under way; so nothing comes back to its sender or crosses to another connection |
| Streams.BothShut | servers/net/src/lib.rs:748-765 | once both sides are shut down, and not before, the slot can be taken again |
| Slab.Heap.Refill | mm/src/slab.rs:38-52 | a free page becomes 4096 / size slots in front of the list, in order; nobody else's tag changes, one page less is counted and reachable, and only the page's bytes are written; fails, changing nothing, exactly when no page is reachable |
| Slab.Heap.CacheAlloc | mm/src/slab.rs:54-62 | the head of the list, aligned to its class, becomes live and nothing else changes; with an empty list, the last slot of a fresh page as in `Refill`; none exactly when the list is empty and no page is reachable |
| Slab.Heap.CacheFree | mm/src/slab.rs:64-67 | the object goes back to the front of its list; only its first word is written, no tag and no count changes |
| Slab.Heap.Alloc | mm/src/slab.rs:113-126 | a slot of the smallest class that fits, as `CacheAlloc` takes it, or a block of the least order that covers the pages, none exactly when fewer pages are reachable, none above 1024 pages; in every case whatever was not free keeps its owner and its bytes |
| Slab.Heap.Free | mm/src/slab.rs:132-143 | the object returns to the front of the list of its class, or every byte of the large block is free or lost and counted again; every object still live, and everything held by others, keeps owner and bytes |
| Slab.Heap.AllocThenFree | mm/src/slab.rs:113-143 | freeing what was just allocated restores everything to the last byte if the list was not empty; a large block leaves memory, lists, page count and all that was not free as they were; with an empty list a page stays with the class, cut into slots |
| Slab.Heap.WriteObjects | mm/src/slab.rs:31-68 | writing anything that is neither free nor an unused slot, objects of all sizes above all, keeps every free list of every class intact |
| Objects.Run | mm/src/slab.rs:31-143 | after every run of allocations, frees and writes by any clients, the objects read exactly as independent byte arrays to which the same operations were applied, in disjoint memory; allocations fail exactly when neither a slot nor the pages are there; every byte that was in use before, by objects, blocks or others, has kept owner and value |
| Slab.Heap.Separate | mm/src/slab.rs:31-68 | free slots and live objects of all classes are pairwise disjoint and aligned |
| Slab.LiveWrite | mm/src/slab.rs:54-67 | writing to live objects never touches a link: every list stays linked, finite and acyclic |
| Slab.SizeClass | mm/src/slab.rs:85-87 | the smallest class that fits |
| Sched.RunQueue.Enqueue | sched/src/runqueue.rs:28-37 | the task takes the first free slot; refused exactly when there is none |
| Sched.RunQueue.PickNext | sched/src/runqueue.rs:44-68 | the ready slot closest ahead of the cursor, or none is ready |
| Sched.PickedAhead | sched/src/runqueue.rs:44-68 | in any run in which a slot stays ready and is not picked, the picks made are bounded by its cyclic distance from the cursor |
| Sched.BoundedWaiting | sched/src/runqueue.rs:28-151 | in every run of picks, enqueues, removals, blocks, wake-ups and signals, a slot that is ready at every pick is among the slots picked once 256 picks were made |
| Sched.RunQueue.Run | sched/src/runqueue.rs:28-151 | the slots picked in any run of the queue are those of the log that bounded waiting speaks about |
| Sched.RunQueue.BlockOnPort | sched/src/runqueue.rs:107-117 | exactly the first task with the pid goes to sleep on the port |
| Sched.RunQueue.UnblockPort | sched/src/runqueue.rs:120-129 | exactly those blocked on the port become ready |
| Sched.RunQueue.DeliverSignal | sched/src/lib.rs:112-124 | -3 exactly without the pid, -22 exactly for a number outside 1 to 64; otherwise the pending set of the first task with the pid gains exactly that signal's bit, the task becomes ready if it was blocked, and nothing else changes |
| Sched.RunQueue.Remove | sched/src/runqueue.rs:145-151 | empties the slot and keeps the count exact |
| Ports.EnqueueAppends | ipc/src/port.rs:56-62 | the ring is a queue: sending appends, and is refused exactly at fifteen messages |
| Ports.DequeueTakesFirst | ipc/src/port.rs:64-69 | receiving takes the oldest message, and fails exactly when there is none |
| Ports.FindExact | ipc/src/port.rs:115-135 | with distinct numbers, lookup finds a port exactly when every earlier bucket of its probe path is occupied |
| Ports.ProbePath | ipc/src/port.rs:115-135 | a probe path starts at the bucket of the number and goes through different buckets, one after the other |
| Ports.FillKeeps | ipc/src/port.rs:138-157 | issuing a number keeps every port that could be found findable |
| Ports.CloseKeeps | ipc/src/port.rs:191-196 | closing keeps every port whose path up to its own bucket avoids the freed one |
| Ports.CloseHides | ipc/src/port.rs:191-196 | closing hides every port whose path crosses the freed bucket |
| Ipc.Alloc | ipc/src/port.rs:138-157 | issues the next number, cyclically, with a free bucket on its path, puts it in the first free bucket and makes it findable; fails only when every bucket is taken |
| Ipc.IssuedFirst | ipc/src/port.rs:138-157 | every number that comes up before the one issued has no free bucket on its path |
| Ipc.DenseIssues | ipc/src/port.rs:138-157 | while nothing was closed, the number issued is new and gets the bucket of the same index |
| Ipc.System.Create | ipc/src/port.rs:199-202 | the number issued is the next with room; the new port belongs to its creator, is empty and can be found, and so can every port that could before; only its own history starts afresh; the number is that of a live port exactly when that next number is |
| Ipc.LiveNumberIssued | ipc/src/port.rs:138-157 | a table and counter for which the number issued is that of a live port |
| Ipc.ReissueRun | ipc/src/port.rs:138-202 | a run from the start in which a live number is issued |
| Ipc.System.Close | ipc/src/port.rs:191-196 | frees exactly the bucket that is found and forgets exactly its history |
| Ipc.System.Send | ipc/src/port.rs:205-220 | -9 exactly when the port is not found, -11 exactly when its queue is full, and then nothing changes; otherwise the message is appended and nobody is left asleep on the port |
| Ipc.System.Recv | kernel/src/syscall.rs:809-836 | -13 exactly when the port is not found or not the caller's; otherwise the oldest message, or, exactly when the queue is empty, the caller goes to sleep on it |
| Ipc.System.Stats | ipc/src/port.rs:223-229 | reports the number of queued messages and the capacity fifteen |
| Ipc.System.Run | kernel/src/syscall.rs:792-836 | after every run of port and task operations, of which `snaps` records every state and `outs` every answer, each step exactly as its operation prescribes: unless a live number was reissued, exactly when some create did so, which takes a close, nobody sleeps on a findable port where a message waits; per bucket received messages are a prefix of accepted ones, with at most fifteen queued |
| Transcripts.InOrder | ipc/src/port.rs:56-220 | for every port that is open at the end of a run without reissues, read off the transcript alone: what was received since it was opened is a prefix of what was accepted, in order, and the rest is what is queued |
| Paths.ResolvePath | kernel/src/syscall.rs:2625-2698 | for every path and working directory, the in-place buffer ends up with the bytes that stepping through the components prescribes |
| Paths.StepIsWalk | kernel/src/syscall.rs:2657-2684 | one component moves the buffer from the path of a stack to the path of the walked stack if and only if that fits |
| Paths.ResolvedIsWalk | kernel/src/syscall.rs:2625-2698 | as long as the intermediate paths fit, the answer is the path of the component stack that walking reaches |
| Paths.ResolvedExact | kernel/src/syscall.rs:2625-2698 | without ".." the answer is that path if and only if that path fits the buffer |
| Paths.CutToDots | kernel/src/syscall.rs:2680-2682 | a path whose last name is cut off to "..", so that the answer is not canonical and resolving it again leads elsewhere |
| Paths.ResolvedCanonical | kernel/src/syscall.rs:2625-2698 | the stack reached has no empty, "." or ".." component and never leaves the root |
| Paths.ResolveTwice | kernel/src/syscall.rs:2625-2698 | resolving the path of a result again, from any directory, gives it back |
| Paths.RelativeIsJoined | kernel/src/syscall.rs:2625-2698 | a non-empty relative path resolves from a directory as the path of the directory, a slash and the relative path resolve from anywhere, when it fits |
| Paths.RenderInjective | kernel/src/syscall.rs:2625-2698 | different component stacks have different paths |

## Left out

Preconditions that the code leaves to its callers, stated in the contracts:

- Buddy.Ram.InitFromMap: available regions do not overlap and lie below 2^52; the source frees the common part of overlapping regions twice.
- Vmm.AddressSpace.UnmapRange: no unmap strictly inside an area (the source documents that it leaves the right part mapped), and front cuts of eager areas only where `FrontCutExact` allows them.
- Vmm.AddressSpace.Map: ranges lie in the user half, and at most 1024 pages are asked for: above that the allocator's assertion on the order panics.
- Vmm.AddressSpace.Brk: the heap area is lazy and the request is not below the heap start.
- Runs.Run: operations outside these conditions are skipped.
- Requests.Run: the same, and operations that are not exact are skipped; `Ask` says what these do.
- Elf.LoadSegment: the file's part of a segment stays inside its block, the condition of `CopyContained`; the segment lies in the user half; at most 1024 pages, for the allocator's assertion.
- Elf.LoadImage: the same for every segment of the file.
- Mmap.MmapFile: at most 1024 pages, for the allocator's assertion.
- Mmap.MmapCall: the same for file mappings; MAP_FIXED meets the conditions of an unmap; the bump counter is a page multiple, as its start and every advance are.
- Fork.CloneAs: the new root is empty and its number unused.
- Signals.Process.Deliver: signals 1 to 4 only, because the action table has four entries; none of these is ignored by default, so that branch of the source is absent.
- Signals.Process.Prepare: what lies below the mapped stack is not mapped where a frame could be written by mistake.
- Paths.ResolvedIsWalk: with ".." in the path, fitting all the way is sufficient and not necessary: a name that was cut off may be walked away from later.
- Slab.Heap.Free: the pointer and size are those of a matching allocation, as the source demands.

Not modelled:

- Region fields `prot`, `map_flags`, `file_cap`, `file_off` and `cow`: recorded but not used by the modelled operations.
- Agreement of an area's flags with its pages' flags after a partial mprotect: the source changes the flags of the whole area but remaps only the pages in range.
- TLB shootdowns, cache maintenance, context switches, locks and other processors.
- AArch64 page tables, and the flags user, no-cache and global of intermediate entries beyond what the walk uses.
- `prefault_range`, `mremap`, `munmap` wrappers, and the reading of the argv and envp pointer arrays: they add no new invariant.
- The pseudo-random bytes of AT_RANDOM are a parameter; so are the answers of the file server.
- Sockets are reached by decoded requests: reading socket addresses from user memory is not modelled, nor are sendmsg, recvmsg and the option calls.
- Closing sockets (`NET_CLOSE`, `NET_CLOSE_ALL`): they free a connection while its other side still refers to it.
- Port buckets and socket tables are values in a sequence field, updated as a whole; aliasing between entries is not an issue in the source either.
- `release_by_owner`, reply ports of `sys_call`, futexes, timers, capabilities and the process server.
- Boot parsing, initial ram disk, shell, drivers and the file server.
