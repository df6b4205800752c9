# The memory manager of the wolffia kernel, in Dafny

This project models the kernel's memory manager as one machine and proves what it promises over
every input and every run: physical memory as frames of 512 entries, a CR3 register, the hardware's
page walk, the frame allocator, the kernel heap, and several address spaces.

| file | what it holds |
|---|---|
| `Util.dfy`, `Words.dfy` | 64-bit sums and rounding division; nine-bit digits of words and their values |
| `Entries.dfy` | page-table entries as records, and as the 64-bit words that are stored |
| `Pages.dfy` | page numbers, table indices, and the addresses computed through P4 slot 510 |
| `Mmu.dfy` | physical memory, the hardware walk, the kernel's own walk through slot 510 |
| `Spaces.dfy` | the state behind all address spaces, its elementary changes, the invariant they keep |
| `Views.dfy` | what the elementary changes mean for translations; safety of every run |
| `Boot.dfy` | the tables the boot code builds, as the state runs start from |
| `Changes.dfy` | what a mapper operation amounts to, as a relation between two states |
| `Mapper.dfy` | `class Machine`: `next_table_create`, `map_to`, `map`, `unmap`, word by word |
| `Ranges.dfy` | range operations: `map_range`, `try_map_user_range`, `set_flags`, the higher half |
| `AddressSpaces.dfy` | inactive spaces, redirection of slot 510, process tables, switching |
| `Remap.dfy` | `remap_range` and `remap_kernel` |
| `SystemCalls.dfy` | the system call that maps pages, and requests that end badly |
| `Spawn.dfy` | loading a program's segments into a new address space |
| `Processes.dfy` | a process's tables and `spawn_from_elf` on top of the heap |
| `Startup.dfy` | boot, remap and heap together, and states that the rest asks for |
| `Buffers.dfy` | `BorrowedKernelBuffer::try_from_user` for bytes |
| `Buddy.dfy` | the contract of the buddy tree |
| `HeapSpec.dfy`, `Heap.dfy`, `HeapObjects.dfy` | the heap: orders, page residency, `class Heap` |
| `PhysicalMapping.dfy`, `TemporaryPage.dfy` | the two users of heap addresses for other frames |
| `MemoryMap.dfy` | `range_sub` and the usable memory |
| `PhysicalAllocator.dfy` | the search over 256 trees, addresses, setting up the trees |
| `BootstrapHeap.dfy` | the bitmap allocator, with other callers in between |

## How it fits together

*Translations.* `MmuWalk` is long-mode translation (section 5.3 of the AMD64 Architecture
Programmer's Manual, Volume 2). A VPage is the tuple of a page's four indices. "Ordinary" pages are
those outside P4 slot 510. Mapper code never sees physical memory: `Machine.Read` and
`Machine.Write` translate a computed pointer through CR3 first, so every table access in the model
is the access the hardware would make.

*The invariant.* Every frame in use has one role, which names the one entry that may point at it
(`Spaces.Role`). With that, "no table is reachable twice" is a local condition, and `Inv` also says
that every frame the allocator ever managed is free, held, or in use exactly once, that entries
above the leaves were made by `next_table_create`, and that all address spaces have the same entry
511. The roles, the held frames and the set of spaces are ghost state of `class Machine`.

*Operations.* Each mapper operation is a method proved against a relation on states (`LeafChanged`,
`MappedFresh`, `PageUnmapped`, ...) whose core is a plain map update: in the spaces that share the
page's tables this page translates so, and every other page of every space is as before.

*Rights.* `Allows` says what the hardware grants on a page: to ring 3, to write, and to fetch
instructions. The remap, the heap, the map system call and spawning state it of the pages they map,
in terms of what was asked for.

*Frames.* Every operation that takes frames says which: one for each page it maps on a frame of its
own and one for each distinct table missing (`Spent`, `HeapSpent`, `OnlyTablesTaken`, `TakesPage`),
or that no frame is left over but one displaced from a page that owned it (`OnlyHandedOver`).

*Arithmetic.* Numbers are unbounded. Where the source's 64-bit sums can overflow they are cut to 64
bits, as in the release build that the makefile makes by default (`Util.WORD`).

*From request to machine.* The parts compose: `Processes.Spawn` runs the heap, a temporary page on
a heap block, new tables, a switch, user mappings and the switch back, and states what is left of
all that. `SystemCalls.MapPages` does the same for one system call.

*Findings.* Where the code does not do what one would expect, the model follows the code:

- A request to map read-only pages maps the first page and then the kernel faults zeroing it,
  because write protection is on. In general a page just mapped can be written if and only if it is
  writable (`FreshWritable`). `Answer` says what every request is answered, and `ReadOnlyRequest` is
  such a request.
- The last page of a request is a 64-bit sum. If it overflows to a page that passes the checks, the
  request is granted without mapping anything: exactly the requests of `WrapsAround`, such as
  `OverflowingRequest`.
- The map system call reports lack of memory as an invalid page (`Answer`, `NoMemoryRequest`).
- `map` loses the frame it took exactly when frames are free, but not more of them than tables are
  missing (`Machine.Map`, `Leaked`); `MapLosesFrame` is an instance.
- Two segments that share a page: a page shows what a segment had loaded into it if and only if no
  later segment has the page (`ContentsKeptIff`); `SharedPageExample` is an instance.
- When the heap runs out of memory, `alloc` does not return null: its rollback unmaps a page that
  never was mapped, and panics (`Rollback`).
- `alloc_specific` for no bytes, which `map_physical_region` asks for exactly if the size is 0 or above
  2^64 - 4096 (`FrameCounts`), maps a heap page that other blocks may use to the given frame. The pages
  of the heap stay in order if and only if the page showed that frame already (`OverKeepsIff`).
- `range_sub` returns addresses outside the range when the hole ends below it, so the usable memory
  can contain addresses that no area has, or that an earlier hole took out
  (`HoleBelowExample`, `HoleBackExample`); `StageExactIff` says exactly when a stage is right,
  `ChainExactIff` when a chain is, and `UsableExactIff` when the kernel's is, by its holes alone.
- The number of trees is cut to a byte: memory is covered exactly when it fits (`CoveredIff`).
- `remap_range` copies the base frame of a 2 MiB page for every page in it (`RemapKeepsFrame`,
  `RemapLosesFrame`).
- `PageTableEntry::set` tests bit 48, so it accepts exactly aligned addresses below 2^48
  (`SetAcceptsExactly`).
- `STACK_BOTTOM` is 16 bytes, not 16 pages, below `STACK_TOP`; user ranges may reach up to and
  including its page (`AcceptedRanges`).
- GLOBAL added to the absent entry 511 of new tables is overwritten when the entry is linked
  (`AddedGlobalLost`), which the remap always does (`RemapKernel`).
- Heap pages that were in use before the remap are lost unless the remap copies them
  (`LiveBlockLostIff`).

## Model

| member | source | states |
|---|---|---|
| `EntryWords.SetAcceptsExactly` | kernel/src/memory/paging.rs:167-191 | for a physical address the two assertions pass exactly when it is page aligned and below 2^48 |
| `EntryWords.SetRoundTrip` | kernel/src/memory/paging.rs:151-194 | flags and address read back from a stored word are the ones it was set with |
| `EntryWords.AddFlagsIsUnion` | kernel/src/memory/paging.rs:163-165 | adding flags is their union and leaves the address alone |
| `EntryWords.SetDecodes` | kernel/src/memory/paging.rs:167-194 | the stored word is the entry record the machine uses, with the frame number below 2^36 |
| `EntryWords.AddFlagsDecodes` | kernel/src/memory/paging.rs:163-165 | and `add_flags` on a word is the union on its record |
| `EntryWords.FlagSetWords` | kernel/src/memory/paging.rs:198-223 | the flag sets of links, of recursive slots and of kernel data are these words |
| `Pages.NumberIndices` | kernel/src/memory/paging.rs:47-83 | every tuple of indices belongs to a page with a canonical address, whose indices they are |
| `Pages.IndicesNumber` | kernel/src/memory/paging.rs:47-83 | a canonical page's indices determine its number |
| `Pages.IndicesInjective` | kernel/src/memory/paging.rs:47-66 | different canonical pages have different indices |
| `Pointers.PageOfIndices` | kernel/src/memory/paging.rs:47-83 | the indices cut from any 64-bit address by shifts and masks are those of its page number |
| `Pointers.NextTableAddrShifts` | kernel/src/memory/paging.rs:272-288 | the address expression shifts one more index into the pointer and stays canonical and aligned |
| `Pointers.FirstPointer` | kernel/src/memory/paging/page_map.rs:64-75 | the mapper's first pointer is the page behind four steps through slot 510 |
| `Pointers.WalkPointersShiftable` | kernel/src/memory/paging.rs:272-288 | every pointer a walk derives another pointer from stays in the half the mask assumes |
| `Mmu.PointerReachesTable` | kernel/src/memory/paging.rs:272-305 | the hardware translates a computed table pointer to exactly the table at that path |
| `Mmu.SoftWalkIsMmuWalk` | kernel/src/memory/paging/page_map.rs:86-133 | on every page the kernel's walk reports the leaf the hardware uses, and never dereferences an unmapped pointer |
| `Mmu.RedirectedWindow` | kernel/src/memory/paging/page_map.rs:575-590 | with slot 510 redirected, the recursive window translates as if CR3 held the other P4 |
| `Spaces.StepKeeps` | kernel/src/memory/paging/page_map.rs:135-351 | every elementary change of tables, frames, spaces and CR3 keeps the invariant |
| `Views.Unaliased` | kernel/src/memory/paging.rs:307-339 | two paths of any two spaces lead to one table only if they are the same path, through the shared kernel entry or the same P4 |
| `Views.SetLeafWalk` | kernel/src/memory/paging/page_map.rs:135-174 | writing one P1 word changes the walk of one page, in the spaces that share its tables |
| `Views.LeafGrants` | kernel/src/memory/paging.rs:321-335 | in tables the kernel built, the leaf alone decides what the hardware allows: to ring 3, to write, and to fetch instructions |
| `Views.InvMeaning` | kernel/src/process.rs:161-188 | in every state with the invariant the kernel half agrees in all spaces and no free frame is a reachable table or an owned page |
| `Views.RunSafety` | kernel/src/process.rs:161-188 | over any run the kernel half agrees in all spaces, no free frame is in use, frames are neither made nor lost, and unless it publishes new kernel tables no space goes and no entry 511 is rewritten |
| `Views.RunKeepsKernel` | kernel/src/process.rs:175-181 | only the remap's own step rewrites an entry 511: over any other run spaces stay and theirs stay word for word |
| `Views.AddedGlobalLost` | kernel/src/memory/paging/remap.rs:30-30 | over any run, GLOBAL added to an absent entry 511 is gone if and only if the entry was linked |
| `Changes.FramedKeepsKernel` | kernel/src/memory/paging/page_map.rs:135-351 | every mapper operation of the machine keeps all spaces and their entries 511 |
| `AddressSpaces.PersistKeepsKernel` | kernel/src/memory/paging/page_map.rs:561-730 | and so do editing any space and creating spaces |
| `Boot.BootInv` | kernel/src/asm/boot.asm:109-142 | the boot tables meet the invariant, wherever they lie and whatever memory is free |
| `Boot.ReachableSafe` | kernel/src/asm/boot.asm:326-374 | so every state reached from them is safe |
| `Boot.ReachableStays` | kernel/src/memory/paging/remap.rs:80-105 | from any reachable state on, whatever the kernel does but publish tables, spaces and their entries 511 stay |
| `Boot.ExampleBoot` | kernel/src/asm/boot.asm:326-374 | 1024 frames with the boot tables in frames 1 to 517 meet the invariant |
| `Mapper.Machine.Zero` | kernel/src/memory/paging.rs:266-270 | zeroing through the recursive pointer clears exactly the frame behind it |
| `Mapper.Machine.NextTableCreate` | kernel/src/memory/paging.rs:307-339 | afterwards the next table exists, at most one table was linked and it is this one, no translation changed, and the tree is unaliased; on failure nothing changed and no frame is free; what its links grant is `LeafGrants` |
| `Mapper.Machine.MapTo` | kernel/src/memory/paging/page_map.rs:135-174 | the plain map update, with a frame the page owned handed over; it succeeds if and only if as many frames are free as tables are missing on the way, takes exactly those, and every new table is on the way; else no translation changed |
| `Mapper.Machine.Map` | kernel/src/memory/paging/page_map.rs:179-206 | the page maps a frame that was free and now is its own, zeroed if asked for; it fails if and only if no more frames are free than tables are missing, and then one frame is lost; it faults exactly at zeroing a page that is not writable |
| `Changes.FreshWritable` | kernel/src/memory/paging/page_map.rs:195-203 | a page just mapped can be written if and only if it was mapped writable |
| `SystemCalls.MapLosesFrame` | kernel/src/memory/paging/page_map.rs:194-195 | with one frame free and three tables missing nothing is mapped and the frame is lost |
| `Mapper.Machine.Unmap` | kernel/src/memory/paging/page_map.rs:304-351 | the page, or the 2 MiB page around it, is unmapped and nothing else; an owned frame goes back to the allocator once |
| `Changes.BuiltSmallPages` | kernel/src/memory/paging.rs:321-335 | tables made by the kernel never have a huge entry |
| `Changes.LeafChangedKeeps` | kernel/src/memory/paging/page_map.rs:135-174 | changing one page leaves all other owned frames with their owners, and all data |
| `RangeMapping.MapRange` | kernel/src/memory/paging/page_map.rs:209-228 | exactly a prefix of the range is mapped, each page on a frame of its own that was free, zeroed if asked for; all of it on success, the first page where zeroing faults, and no free frame left otherwise; unless memory runs out it takes exactly one frame for each page and one for each table they lacked |
| `RangeMapping.OwnedFramesDistinct` | kernel/src/memory/paging/page_map.rs:179-206 | an owned frame has one use: pages of any two spaces that own it are one page of shared tables |
| `RangeMapping.AcceptedRanges` | kernel/src/memory/paging/page_map.rs:247-272 | the checks accept exactly the ranges up to the stack-bottom page, all in P4 slots 0 to 255 |
| `RangeMapping.RejectedPageNamed` | kernel/src/memory/paging/page_map.rs:247-272 | which page an error names: the end past the last usable page, else the start outside the lower half, else the end past the stack bottom |
| `RangeMapping.TryMapUserRange` | kernel/src/memory/paging/page_map.rs:231-285 | on every outcome the pages mapped are a prefix of the request on fresh frames, zeroed if asked for, none of which was mapped before unless that is ignored; each error names its page; it succeeds if and only if no page is in the way and as many frames are free as there are pages and missing tables; zeroing faults exactly if the pages are not writable and the first can be mapped; unless memory runs out it takes exactly one frame for each page it mapped and one for each table they lacked, and if no mapped page is touched none is left over |
| `RangeMapping.MissingPathsMean` | kernel/src/memory/paging/page_map.rs:274-282 | the tables counted are the distinct ones that some page of the range lacks |
| `RangeMapping.MissingNow` | kernel/src/memory/paging/page_map.rs:274-282 | in the loop, each page finds missing just the tables that neither it had nor an earlier page brought |
| `RangeMapping.UserRangeConfined` | kernel/src/memory/paging/page_map.rs:231-285 | a user request changes nothing at or above slot 256 and nothing in other spaces |
| `RangeMapping.FreshAllows` | kernel/src/memory/paging/page_map.rs:274-282 | outside the boot tables, pages mapped afresh allow in hardware exactly what their flags say |
| `SystemCalls.MapPages` | kernel/src/syscall.rs:141-169 | the pages mapped were unmapped and are zeroed; the answer is exactly the one the request, the pages it names and the free frames determine; it is granted without all its pages if and only if its last page overflows, and then nothing is mapped; ring 3 can read the pages, and write and execute them exactly as asked for; and they cost one frame each and one for each table they lacked |
| `SystemCalls.RequestsAccepted` | kernel/src/syscall.rs:142-153 | which requests pass all checks, which of them by overflow, and that those name no page |
| `SystemCalls.OverflowingRequest` | kernel/src/syscall.rs:152-153 | 2^64 - 1 pages from address 0x2000 are granted, read-only or not |
| `SystemCalls.NoMemoryRequest` | kernel/src/syscall.rs:168-168 | one writable page, at any accepted place, with no frame free: an invalid page |
| `SystemCalls.ReadOnlyRequest` | kernel/src/syscall.rs:141-169 | one read-only page, unmapped, with four frames free: the kernel faults |
| `RangeMapping.SetFlags` | kernel/src/memory/paging/page_map.rs:287-302 | every page of the range keeps its frame and owner and gets the flags; it never runs out of memory and takes no frame |
| `RangeMapping.MapHigherHalf` | kernel/src/memory/paging/page_map.rs:385-403 | exactly the pages of the range map their address minus the kernel base; it fails only when no frame is left |
| `AddressSpaces.RunOps` | kernel/src/memory/paging/page_map.rs:589-590 | a closure of `map_to`, `map`, `set_flags`, `unmap` and higher-half operations acts on the space slot 510 names, as their composed effect, and nowhere else, with owners as the operations say; it stops only without memory, or at an operation its page does not allow; a closure that only maps given frames leaves no frame behind |
| `AddressSpaces.RedirectRoundTrip` | kernel/src/memory/paging/page_map.rs:561-611 | redirect, edit, restore and unmap together are the edit of the other space |
| `AddressSpaces.WithInactiveP4` | kernel/src/memory/paging/page_map.rs:561-611 | the inactive space shows the closure's effect, the active one is as before, slot 510 names it again and the temporary page is unmapped; it fails only without memory, or where the closure itself must; with a closure that only maps given frames, no frame is held afterwards but those held before or displaced from pages that owned them |
| `AddressSpaces.WithInactive` | kernel/src/memory/paging/page_map.rs:643-655 | switching there and back has the very same effect, and fails in the same cases |
| `AddressSpaces.SwitchTo` | kernel/src/memory/paging/page_map.rs:657-666 | CR3 holds the new P4, whose slot 510 names it, and nothing else changed |
| `AddressSpaces.NewInactive` | kernel/src/memory/paging/page_map.rs:698-730 | a new P4 exists that translates nothing; every other space is as before, with its owners; it fails only when no frame is left; it takes one frame for the P4 and one for each table the temporary page lacked, and holds none |
| `AddressSpaces.NewProcessPageTables` | kernel/src/process.rs:161-188 | the new space translates the kernel half like the active one and nothing else; every other space is as before; it fails only when no frame is left; it takes one frame for the P4 and one for each table the temporary page lacked |
| `AddressSpaces.TemporaryCycle` | kernel/src/memory/paging/page_map.rs:702-730 | mapping the unmapped temporary page, editing what no translation shows, and unmapping it changes no translation |
| `Processes.NewProcessTables` | kernel/src/process.rs:161-188 | the same with the temporary page it makes and drops: the heap, its tree and every translation are as before, and it fails only without a heap block or memory; it costs one frame for the P4 and one for each table the temporary page lacked |
| `Spawning.LoadSegments` | kernel/src/process.rs:83-140 | for any list of segments: exactly the union of their pages is mapped, each on a fresh frame of its own with the rights of the last segment that has it; it stops at the first segment that cannot be loaded, and every segment fares as its header and the free frames determine; nothing else changed in any space; each costs one frame for each of its pages and one for each table they lacked |
| `Spawning.LastDecides` | kernel/src/process.rs:84-136 | those rights are the last segment's among those that have the page, and a page in none is not covered |
| `Spawning.SpaceRights` | kernel/src/process.rs:89-108 | in hardware, ring 3 reads every page of the segments, and writes and executes it exactly if the last segment that has it says so |
| `Spawning.SegmentBytes` | kernel/src/process.rs:90-101 | the pages of a segment are those of its bytes, if it has any and its end does not overflow |
| `Spawning.AcceptedSegments` | kernel/src/process.rs:90-119 | accepted are exactly the headers that have no bytes at address zero, begin in the lower half and have no page after the stack bottom's |
| `Spawning.AcceptedBytes` | kernel/src/process.rs:90-119 | for a header with bytes whose end does not overflow: exactly if it begins above zero and ends at or before 0x7FFFFFFFE000 |
| `Spawning.FrameKeptIff` | kernel/src/memory/paging/page_map.rs:274-282 | mapping a range afresh changes the frame of a page that owns one if and only if the page is in the range |
| `Spawning.ContentsKeptIff` | kernel/src/process.rs:84-136 | a page shows the frame a segment was loaded on if and only if no later segment has the page |
| `Spawning.SharedPageExample` | kernel/src/process.rs:84-136 | code and data in two halves of a page: once both are loaded the page shows another frame than the code's |
| `Spawning.CopyAllowed` | kernel/src/process.rs:110-133 | while the file is copied in, every page of the segment is writable |
| `Processes.Spawn` | kernel/src/process.rs:65-140 | one more space exists, with the kernel half, the segments' pages and nothing else; every other space and the heap are as before, also after any error it returns; errors are those the segments deserve, and it panics only without a heap block or memory for the tables; ring 3 reads the segments' pages and writes and executes them as the last segment of each says; every segment, and the tables, cost exactly their frames |
| `Processes.HeapOutlivesSwitch` | kernel/src/memory/paging/page_map.rs:657-666 | the heap is in order in every process if it is in one |
| `Processes.HeapOutlivesUser` | kernel/src/memory/paging/page_map.rs:231-285 | no change of a process's own half touches the heap |
| `Remap.SectionRights` | kernel/src/memory/paging/remap.rs:32-64 | the last section to reach a page, the page past its end included, gives it its flags, at its address minus the kernel base |
| `Remap.OwnSectionLast` | kernel/src/memory/paging/remap.rs:32-64 | if the sections ascend, that is a page's own section, although every range maps one page too many |
| `Remap.SectionGaps` | kernel/src/memory/paging/remap.rs:32-64 | a page in no section is unmapped, or is the page past some section's end, with that section's flags |
| `Remap.FillSections` | kernel/src/memory/paging/remap.rs:24-78 | the closure of the remap has exactly the effect of its sections and the VGA page, and fails only when no frame is left |
| `Remap.ReadFrames` | kernel/src/memory/paging/page_map.rs:613-627 | the frames read are those of the kernel's walk, for every page of the range |
| `Remap.RemapEffect` | kernel/src/memory/paging/page_map.rs:629-640 | each page of the range gets the frame of its own entry and the given flags; others nothing |
| `Remap.RemapRange` | kernel/src/memory/paging/page_map.rs:613-641 | the new tables show that effect and the active ones are as before; it fails only when no frame is left |
| `Remap.RemapKeepsFrame` | kernel/src/memory/paging/page_map.rs:613-641 | a page keeps its frame if and only if it is a 4 KiB page, or the first of a 2 MiB page |
| `Remap.RemapLosesFrame` | kernel/src/memory/paging/page_map.rs:613-641 | the second page of memory, as the boot code maps it, is given frame 0 |
| `Remap.KernelPageRights` | kernel/src/memory/paging/remap.rs:32-103 | in hardware the copied ranges are writable, not executable and not for ring 3, the VGA page is writable by all, and a section page is writable and executable exactly as the last section that reaches it says, global, and not for ring 3; pages that none reaches are unmapped |
| `Remap.OwnPageRights` | kernel/src/memory/paging/remap.rs:45-53 | so if the sections ascend, every page of each is as that section says |
| `Remap.RemapKernel` | kernel/src/memory/paging/remap.rs:10-105 | the new tables are the only address space: they map the two copied ranges, the VGA page and otherwise what `SectionRights` and `SectionGaps` say of the sections, with the rights of `KernelPageRights`, and their entry 511 has the flags of a link, without GLOBAL; no frame is held but those held before or displaced from pages that owned them; it fails only when no frame is left |
| `Startup.HeapEmptyIff` | kernel/src/memory.rs:77-90 | the remap leaves the heap unmapped if and only if it copies no heap page |
| `Startup.LiveBlockLostIff` | kernel/src/memory.rs:77-90 | a page of a block that was live before the remap is lost if and only if it was not copied |
| `Startup.StartFromBoot` | kernel/src/memory.rs:80-90 | from the boot tables through the remap to an empty heap in order, in the only address space; none only when no frame is left |
| `Startup.EmptyKernelReachable` | kernel/src/memory/paging/remap.rs:10-105 | from any state with two free frames a run leads to one as the rest of the kernel asks for |
| `Startup.ExampleKernel` | kernel/src/asm/boot.asm:326-374 | such a run from concrete boot tables, with four frames left |
| `Startup.FirstRequests` | kernel/src/syscall.rs:141-169 | there a read-only request makes the kernel fault and a writable one is granted |
| `Buffers.LeafDecides` | kernel/src/memory/buffer.rs:57-63 | in a process's tables the leaf's user flag decides hardware access at all levels |
| `Buffers.AcceptedBuffers` | kernel/src/memory/buffer.rs:32-76 | accepted are exactly the buffers of which ring 3 can read every byte and that end at or before the end of the last user page |
| `Buffers.RejectedBuffers` | kernel/src/memory/buffer.rs:32-76 | each of the four errors is returned for exactly the buffers it names |
| `Buddy.WhollyFree` | kernel/src/memory/heap.rs:247-252 | `order_free` is the page order plus one exactly when all of the page's block is free |
| `HeapSpec.Log2Floor` | kernel/src/memory/heap.rs:300-307 | the loop ends with the exponent of the highest power of two not above the value |
| `HeapSpec.Log2Ceil` | kernel/src/memory/heap.rs:291-298 | the least exponent whose power is not below the value |
| `HeapSpec.Order` | kernel/src/memory/heap.rs:277-289 | the smallest order whose block is at least twice the size |
| `HeapSpec.OrderUnique` | kernel/src/memory/heap.rs:216-221 | so `dealloc` finds the order that `alloc` used |
| `HeapSpec.AllocAccounts` | kernel/src/memory/heap.rs:176-185 | a block from the tree overlaps no live one, and live blocks stay exactly what is not free |
| `HeapSpec.DeallocAccounts` | kernel/src/memory/heap.rs:229-236 | a live block is not free, and giving it back keeps the account |
| `HeapSpec.DeallocLarge` | kernel/src/memory/heap.rs:261-272 | freeing a block of at least a page leaves exactly its own mapped pages without need |
| `HeapSpec.DeallocSmall` | kernel/src/memory/heap.rs:242-260 | freeing a small block leaves its page without need exactly when the page's block is wholly free |
| `KernelHeap.MapMissing` | kernel/src/memory/heap.rs:187-212 | exactly the missing pages are mapped, on frames of their own from the allocator, with the heap's flags; on success it took exactly one frame for each of them and one for each distinct table they lacked, and holds none; it fails only when no frame is left |
| `KernelHeap.UnmapPages` | kernel/src/memory/heap.rs:261-272 | exactly those pages are unmapped, and exactly their frames are freed, if asked for, one for each page |
| `KernelHeap.MapGiven` | kernel/src/memory/heap.rs:95-117 | the pages map consecutive given frames, and nothing else changed; it takes exactly the frames of the tables they lacked; it fails only when no frame is left |
| `KernelHeap.AllocKeepsPages` | kernel/src/memory/heap.rs:187-212 | mapping what is missing keeps: a heap page is mapped exactly when a live block needs it |
| `KernelHeap.SmallDeallocKeepsPages` | kernel/src/memory/heap.rs:242-260 | so does unmapping a page only when its block came out wholly free |
| `KernelHeap.DeallocKeepsPages` | kernel/src/memory/heap.rs:261-272 | and so does unmapping the pages of a larger block |
| `KernelHeap.GivenKeepsPages` | kernel/src/memory/heap.rs:79-120 | and so does mapping given frames |
| `HeapObjects.Heap.constructor` | kernel/src/memory/heap.rs:53-59 | an empty heap with nothing mapped is in order |
| `HeapObjects.Heap.Alloc` | kernel/src/memory/heap.rs:173-214 | a block of the right order, its mapped prefix resident, the heap in order; it takes exactly one frame for each page of the prefix that was not mapped and one for each distinct table missing, and holds none; null only when nothing fits, and then nothing changed; if memory runs out no frame is left, the pages before the one it ran out at are mapped, and `Rollback` follows |
| `HeapObjects.Rollback` | kernel/src/memory/heap.rs:203-210 | what `alloc` does then always panics, with every translation and the heap's pages as before the call |
| `HeapObjects.Heap.Dealloc` | kernel/src/memory/heap.rs:216-273 | the block is free again, its pages unmapped and their frames freed exactly when no live block needs them |
| `HeapObjects.OnlyTablesGone` | kernel/src/memory/heap.rs:173-273 | over an allocation and its deallocation every translation is as before, and the only frames that left the allocator are the tables that the block's pages lacked |
| `HeapObjects.NewPagesAreData` | kernel/src/memory/heap.rs:95-200 | in hardware every page that `alloc` or `alloc_specific` maps is writable, never executable and never for ring 3 |
| `HeapObjects.Heap.AllocSpecific` | kernel/src/memory/heap.rs:79-120 | a block whose pages all map the given frames in order, for any number of frames; for no bytes at all, the page around the smallest block is mapped over; out of memory only when no frame is left, and then a prefix is mapped; it takes no frame but the tables these pages lacked |
| `HeapObjects.OverKeepsIff` | kernel/src/memory/heap.rs:82-117 | for no bytes, the heap's pages stay in order if and only if the page showed the given frame already, and the block is lost |
| `HeapObjects.Heap.DeallocSpecific` | kernel/src/memory/heap.rs:133-165 | exactly the block's pages are unmapped and no frame is freed; null or zero frames change nothing |
| `HeapObjects.RequestedBytesInPrefix` | kernel/src/memory/heap.rs:187-191 | every byte asked for lies in the half of the block that is mapped |
| `HeapObjects.LiveBytesMapped` | kernel/src/memory/heap.rs:173-273 | in every address space every requested byte of every live object is mapped |
| `PhysicalMappings.GivenShows` | kernel/src/memory/physical_mapping.rs:10-19 | an unaligned region shows whole, even over one page more than its frames |
| `PhysicalMappings.MapPhysicalRegion` | kernel/src/memory/physical_mapping.rs:5-28 | each byte of the object translates to the same offset of the region; the mapping names the physical address its first page shows, and as many whole pages as the region takes; it takes no frame but missing tables; a region that comes to no frames maps a page of the heap over; none only without a block or without a free frame |
| `PhysicalMappings.FrameCounts` | kernel/src/memory/physical_mapping.rs:10-10 | the frames hold the region, except that there are none exactly if the size is 0 or its sum overflows |
| `PhysicalMappings.DropMapping` | kernel/src/memory/physical_mapping.rs:64-75 | block and page count are recovered from the mapping; exactly those pages are unmapped |
| `PhysicalMappings.DropUndoesMap` | kernel/src/memory/physical_mapping.rs:5-75 | mapping and dropping together change no translation and free no frame |
| `TemporaryPages.New` | kernel/src/memory/paging/page_map.rs:463-484 | the page is unmapped as before, its own frame is held, and its heap block is live; none only if the heap has no such block or no frame is left; it costs one frame for the page, which is held, and one for each table it lacked |
| `TemporaryPages.Map` | kernel/src/memory/paging/page_map.rs:488-513 | the page shows the frame, writable, and no other translation changed; it cannot run out of memory and takes no frame |
| `TemporaryPages.Unmap` | kernel/src/memory/paging/page_map.rs:516-518 | the page is unmapped and no frame is freed or held |
| `TemporaryPages.Drop` | kernel/src/memory/paging/page_map.rs:529-548 | the block is back with the heap and the page's own frame is the one frame freed; it cannot run out of memory |
| `TemporaryPages.TemporaryPageLife` | kernel/src/memory/paging/page_map.rs:457-548 | through any number of uses that read frames or write held ones: every translation, the heap and its tree end as they began, the own frame is free again and no borrowed frame is; it fails only at its beginning; the only frames that left the allocator are the tables the page lacked |
| `MemoryMap.PiecesMean` | kernel/src/memory.rs:315-341 | the addresses of the pieces, for every range and hole |
| `MemoryMap.PiecesMissHole` | kernel/src/memory.rs:315-341 | no piece has an address of the hole |
| `MemoryMap.ExactIff` | kernel/src/memory.rs:315-341 | the pieces are the range without the hole if and only if the hole does not end below the range |
| `MemoryMap.TakeOutMeans` | kernel/src/memory.rs:246-254 | the addresses one stage leaves of any list of areas |
| `MemoryMap.StageExactIff` | kernel/src/memory.rs:246-254 | a stage is exact if and only if whatever lies between the hole and an area above it is in some area |
| `MemoryMap.ChainMeans` | kernel/src/memory.rs:244-256 | the addresses the whole chain leaves: those in no hole, and what its stages add |
| `MemoryMap.ChainExactIff` | kernel/src/memory.rs:244-256 | the chain is exact if and only if whatever its stages add is in the memory map and in no hole |
| `MemoryMap.UsableMeans` | kernel/src/memory.rs:236-256 | which addresses are usable, by the memory map and the three areas in use alone |
| `MemoryMap.UsableExactIff` | kernel/src/memory.rs:236-256 | they are those in the map and in no area in use, if and only if there are none above the kernel, or the map has no gaps there and no hole brings anything back |
| `MemoryMap.ChainExact` | kernel/src/memory.rs:244-256 | if no hole ends below an area it is taken from, the chain leaves exactly the addresses in no hole |
| `MemoryMap.RisingHoles` | kernel/src/memory.rs:244-256 | which holds if the holes' ends rise and no area starts above the first |
| `MemoryMap.UsableExactly` | kernel/src/memory.rs:236-256 | then usable is exactly what is above the kernel and in neither inclusive range |
| `MemoryMap.HoleBelowExample` | kernel/src/memory.rs:319-323 | a hole below an area puts an address on the list that is in no area |
| `MemoryMap.HoleBackExample` | kernel/src/memory.rs:244-256 | a later, lower hole puts an address of an earlier one back |
| `PhysicalAllocators.Search` | kernel/src/memory/physical_allocator.rs:121-155 | for all interleavings with finitely many failed locks it ends, with the block of the first attempt that finds one, or none when all attempts miss; a tree that has a block when its turn of the first round comes is not passed over |
| `PhysicalAllocators.TriesInOrder` | kernel/src/memory/physical_allocator.rs:121-137 | the first 256 attempts go to the trees in order, whatever is locked |
| `PhysicalAllocators.TriedAgain` | kernel/src/memory/physical_allocator.rs:121-137 | a tree is tried again only after all were tried, and only if it was locked before |
| `PhysicalAllocators.TriesFirstLeft` | kernel/src/memory/physical_allocator.rs:121-137 | after that, every tree before the one tried next was seen absent or without such a block |
| `PhysicalAllocators.NotPassedOver` | kernel/src/memory/physical_allocator.rs:121-155 | if attempt i meets tree i unlocked with a block of the order, a block is found at attempt i or before |
| `PhysicalAllocators.GivingUpIsComplete` | kernel/src/memory/physical_allocator.rs:121-155 | giving up means every tree was seen absent or without such a block, in exactly 256 attempts plus the failed locks |
| `PhysicalAllocators.FindingIsPrompt` | kernel/src/memory/physical_allocator.rs:121-155 | a block is found before that many attempts |
| `PhysicalAllocators.ComposeInverse` | kernel/src/memory/physical_allocator.rs:139-161 | shift and modulus give back tree and offset |
| `PhysicalAllocators.TakeGive` | kernel/src/memory/physical_allocator.rs:137-168 | deallocating what was allocated restores every tree |
| `PhysicalAllocators.RunKeepsLive` | kernel/src/memory/physical_allocator.rs:113-168 | over any interleaving of locked sections live blocks of all trees stay disjoint and off the free lists |
| `PhysicalAllocators.PhysicalAllocator.Allocate` | kernel/src/memory/physical_allocator.rs:113-155 | whatever other cores do between the attempts, the block's frames, and no others, leave the free frames of the attempt that finds it, and live blocks stay in order; none after every tree was seen without such a block, and with no interference only if there is none; a tree that has a block when its turn of the first round comes is not passed over |
| `PhysicalAllocators.PhysicalAllocator.AllocateFrame` | kernel/src/memory/physical_allocator.rs:113-155 | for single frames; without interference, what `Machine.AllocateFrame` takes the allocator to do |
| `PhysicalAllocators.PhysicalAllocator.Deallocate` | kernel/src/memory/physical_allocator.rs:159-168 | exactly the block's frames become free, in the tree it came from |
| `PhysicalAllocators.PhysicalAllocator.InitPrelim` | kernel/src/memory/physical_allocator.rs:37-63 | trees 0 to 7 hold the usable frames of their gibibytes, the others are absent |
| `PhysicalAllocators.PhysicalAllocator.InitRest` | kernel/src/memory/physical_allocator.rs:66-86 | trees 8 up to the count are added and live blocks stay in order |
| `PhysicalAllocators.LocalizeExact` | kernel/src/memory/physical_allocator.rs:89-110 | within its gibibyte the localized ranges hold exactly the usable addresses |
| `PhysicalAllocators.FreeAfterInit` | kernel/src/memory/physical_allocator.rs:37-110 | a frame is free after both stages exactly when all its bytes are usable and its gibibyte has a tree |
| `PhysicalAllocators.HighestIs` | kernel/src/memory.rs:225-229 | the highest address is in the memory map, and none is above it |
| `PhysicalAllocators.CoveredIff` | kernel/src/memory.rs:225-232 | every address of the memory map gets a tree if and only if the count fits in a byte |
| `PhysicalAllocators.WrappedCountExample` | kernel/src/memory.rs:231-232 | with 256 GiB the count wraps to zero and memory past 8 GiB has no tree |
| `BootstrapHeap.BootstrapAllocator.constructor` | kernel/src/memory/bootstrap_heap.rs:73-79 | no bit is set and no box is live |
| `BootstrapHeap.BootstrapAllocator.TryBit` | kernel/src/memory/bootstrap_heap.rs:91-101 | one locked section takes its slot exactly if the bit is clear, and keeps: a bit is set exactly when one live box is at its slot |
| `BootstrapHeap.BootstrapAllocator.Allocate` | kernel/src/memory/bootstrap_heap.rs:89-105 | whatever others do in between, it takes the first slot whose bit is clear when it comes to it, and fails only if every bit is set then |
| `BootstrapHeap.BootstrapAllocator.Deallocate` | kernel/src/memory/bootstrap_heap.rs:108-113 | the bit found by division is the box's, and it alone is cleared |
| `BootstrapHeap.BootstrapAllocator.RunOthers` | kernel/src/memory/bootstrap_heap.rs:62-114 | any sequence of other callers' locked sections keeps bits and boxes in step |
| `BootstrapHeap.BootstrapAllocator.BoxesDisjoint` | kernel/src/memory/bootstrap_heap.rs:62-114 | live boxes lie in the reserved space and no two overlap |

## Left out

- The buddy tree (`friendly::Tree`) is an external crate: `Buddy.Tree` and
  `PhysicalAllocators.TreeAllocate` give its contract over sets of free base blocks, and
  `PhysicalAllocators.NewTree` takes it that a base block is free when all its bytes are usable.
- HeapObjects.Heap.AllocSpecific: its own rollback is not modelled; it gives frames to the allocator
  that were never taken from it, which the allocator does not allow.
- HeapObjects.Heap.Dealloc: pointers are block numbers counted from the start of the heap; the null
  pointer is a result without a block.
- Mapper.Machine.Unmap: frees only frames of 4 KiB pages that own them, as the allocator's
  `deallocate` demands; freeing a 2 MiB page as a block of order 9 is not modelled, nor is mapping
  one with `map`.
- Mapper.Machine.Map: zeroes in the active space only, as the code's own note demands; write
  protection is taken to be on, as it is after the remap.
- Mapper.Machine.MapTo: does not cover pages below a huge entry, for which the code panics.
- AddressSpaces.RunOps: `map` in a closure does not zero, which the code forbids there; a closure
  may free only pages that own their frames.
- Spawning.LoadSegments: the bytes copied into a segment's pages are not modelled.
- PhysicalMappings.DropMapping: dropping a mapping of no frames does nothing in the code and is left out.
- Processes.Spawn: the ELF header checks before and the entry point check after it, and the process
  table.
- TemporaryPages.TemporaryPageLife: one address space throughout; the temporary page of
  `remap_kernel`, made under the boot tables and dropped under the new ones, is not covered.
- PhysicalAllocators.PhysicalAllocator.AllocateFrame: `class Machine` takes frames as this method does
  without interference.
- `map_page_range`, `id_map_range`, `unmap_range`: single-page operations in a loop, which would
  only add members like the range operations here.
- TLB contents and flushes, Accessed and Dirty bits, the caching flags, CR0, CR4 and EFER.
- Races of several cores on the page tables and between the heap's tree and its pages.
- `StackAllocator`, the guard page, the TSS bitmap, process identifiers and ELF parsing.
- `kernel_area`, multiboot parsing and the mapping of the bootstrap heap at boot.
- Interrupts, devices, the other system calls and the user library.
