# hootux: verified models of its state machines

hootux is a kernel for x86-64 with drivers for AHCI disks and EHCI USB controllers.  This
project models the parts of it that are state machines rather than plumbing, and proves what
they keep over every run.  `dafny verify dfyconfig.toml` checks all of it.

**TLB shootdown** (`TlbMachine`, `TlbHandshake`, `TlbCoherence`, `TlbProgress`, `TlbTheorems`,
`TlbLists`, `TlbRaces`, `TlbClearing`, `TlbTable`).
Any number of CPUs run any lists of `unmap_page`, `set_flags`, `unmap_range` and `map_page`.  A
step is one atomic access: a compare-exchange, a fetch-add, one entry written, one address
invalidated, one turn of the interrupt handler.  Between any two steps a TLB may load a present
entry or drop one.  The invariant ties `guest` to the visitors, `count` to the CPUs that have
not shot yet, and every stale cached entry to an operation that still owes that CPU a flush.
From it follow coherence when an operation returns, that `visit().unwrap()` never fails, and
that every run ends: no state is stuck and the number of accesses is bounded from the start.
`TlbLists`, `TlbRaces` and `TlbClearing` say which work lists let an old translation survive the
return of an operation, and `TlbTable` what each operation leaves in the table.

**Page tables** (`PageWalk`, `PageRanges`, `PageTable`, `AddressTranslation`, `PageSamples`).  A memory of 512-entry tables is
edited in place.  The meaning of the tree is the translation function that the processor's walk
computes (section 4.5 of the Intel SDM, volume 3A).  `map_to` and `unmap` change it at one page,
attaching tables does not change it and writes only links with the parent flags, and `translate`
is compared with the processor.

**EHCI asynchronous schedule** (`AsyncSchedule`).  The driver edits a ring of queue heads while
the controller follows links, any number of them before each write.

**Boot memory** (`Blocks`, `PowersOfTwo`, `Dissolve`, `HighOrder`, `BootMemory`,
`BootAllocator`).  Cursors over the memory map hand out frames, then the rest is cut into
aligned blocks and given to the zones' allocators.  `Cover(x, blocks)` counts the blocks that hold
byte `x`; equal counts at every address mean that no byte was lost or given out twice.  Machine
arithmetic wraps here, because the kernel is built without overflow checks.

**AHCI command slots** (`CommandSlots`), **the interrupt buffer** (`ChunkQueue`) and **the vector
registry** (`VectorRegistry`).

## Where the code does not keep its promise

Each of these is a lemma or a contract below; the code was modelled as it is.

- `set_flags` on an entry that is not present writes it without a shootdown.  If no other CPU is
  to run an `unmap_range` over the page, no old translation is in use when it returns
  (`QuickAlone`).  If one is, then from every table that has the page present with other flags
  there is a run in which one is (`QuickPathRace`); for two CPUs with one operation each this is
  an exact condition (`QuickPathIff`).
- `unmap_range` gives the mutex back during its shootdown.  No old translation of a page of the
  range is in use when it returns if no other CPU is to run an `unmap_range` over that page
  (`RangeAlone`), nor if no CPU is to make it present (`RangeStaysUnmapped`).  If another CPU sets
  flags on the page, which makes it present again, and then unmaps a range that holds it too, one
  can be (`UnmapRangeRace`); for such lists this is exact (`UnmapRangeIff`).
- `unmap_range(..).clear()` zeroes the entries after the shootdown without another one.  If no CPU
  is to make a page of the range present, no CPU can use it afterwards (`ClearSafe`).  If another
  CPU does so with `set_flags`, a translation of it can stay cached that no operation will flush
  (`ClearRace`); for such lists this is exact (`ClearIff`).
- `unmap_range` is described as skipping unmapped pages; its loop stops at the first page without
  a level 1 table.  All pages are unmapped afterwards if and only if each had no translation or
  comes before the first without a table (`RangeUnmapped`, `DistinctRangeUnmapped`;
  `RangeStopsEarly` is a tree on which it fails).
- `unmap_range` panics on an empty range, for pages in ascending order if and only if the first
  page has no level 1 table and is not page 0 (`UnmapRange`, `EmptyRangeIff`; `RangePanics` is a
  tree on which it does).
- `unmap_range` is described as always flushing its pages.  The range that is sent goes from the
  first page asked for to the last one reached, so a page that was cleared is left out if and only
  if it lies below the first or above the last (`ClearedIsSentIff`; `PageNotSent` is a list).  For
  pages in ascending order none is left out (`ClearedIsSent`).
- `translate` adds bit 12 of a large page's entry, which is its PAT bit, to the address.  It agrees
  with the processor if and only if the entry gives a frame and is aligned to its page
  (`TranslateExact`; `PatBitAdded` is a tree on which it does not).
- A page that `unmap_range` cleared keeps its frame in the entry, if it had one, and then
  `translate` and `map_to` panic on it, and only then (`ClearedPanics`, `ClearThenMap`;
  `ClearedPagePanics` is a tree).
- The upper limits of the two low memory zones are the last address, used as an exclusive bound.
  A page-aligned region that holds page 0xf000 or 0xfffff000 is cut one byte short of whole pages,
  and the remaining length wraps.  Then, and only then, does `allocate_frame` hand out a byte that
  is not usable, or one that it handed out before (`FramesInsideIff`; `OverrunSample` is a map).
- The first region of the memory map is never used (`SegmentsExact`).
- `HighOrderAlloc::free` merges with one neighbour at most.  Two neighbouring elements touch after
  it if and only if two touched before or the block filled the gap between two (`TouchingIff`;
  `MiddleFreedLast` is a list).  The coverage is right all the same (`Free`).
- `peek` is described as completing a chunk that was read to its end; it does nothing then and
  reports nothing, although the next `pop` may return an element (`Peek`).
- `reserve_contiguous` for one vector looks at the last run of free vectors only.  It keeps its
  promise if and only if the free vectors are one run up to the last vector, or there are none
  (`SinglePromiseIff`, `SingleRequestFails`).
- `get_free` counts in a byte and answers 0 when all 256 vectors are free (`GetFree`).
- `reserve_irq` leaves the registry locked if and only if there is no run of that many free
  vectors, for a single one if and only if the last vector is taken (`ReserveIrq`).
- `set` is described as refusing a vector that has a handler; it overwrites the two
  high-performance kinds (`Set`).

## Model

| member | source | states |
|---|---|---|
| `TlbTheorems.ReachableInv` | kernel/src/mem/tlb.rs:58-75 | the handshake and coherence invariants hold in every state that any run of any CPUs reaches |
| `TlbTheorems.VisitFindsContent` | kernel/src/mem/tlb.rs:191-197 | a CPU with a pending interrupt or inside its handler finds the list owned and filled, so the `unwrap` never fails, `count` never goes below zero and a visitor's leaving never empties `guest` |
| `TlbTheorems.HandshakeExact` | kernel/src/mem/tlb.rs:137-303 | one master at a time; `count` is the number of CPUs that have not shot, `guest` one plus the visitors; there is a visitor only while the master collects, so none while the content is written or wiped |
| `TlbTheorems.UnmapPageCoherent` | kernel/src/mem/mem_map.rs:168-185 | when `unmap_page` returns, the entry is not present and no CPU has the page cached |
| `TlbTheorems.SetFlagsCoherent` | kernel/src/mem/mem_map.rs:299-352 | when `set_flags` returns after its shootdown, every cached copy equals the live entry, which by `SetFlagsWritten` is the one asked for |
| `TlbTheorems.RangeFlushed` | kernel/src/mem/mem_map.rs:105-107 | once the shootdown of `unmap_range` is over, a stale copy of a page of the range exists only if another operation on that page still owes that CPU its flush |
| `TlbTheorems.UnmapRangeCoherent` | kernel/src/mem/mem_map.rs:64-116 | when `unmap_range` returns, that other operation is a second `unmap_range` that cleared the page |
| `TlbTheorems.QuickPathCoherent` | kernel/src/mem/mem_map.rs:347-349 | on the path without shootdown, a stale copy exists only while an `unmap_range` of another CPU that cleared the page has not reached that CPU |
| `TlbLists.LeadsLists` | kernel/src/mem/mem_map.rs:64-352 | every operation a CPU ever runs stood on the work list it started with |
| `TlbLists.RangeAlone` | kernel/src/mem/mem_map.rs:64-116 | if no other CPU's list has an `unmap_range` over the page, no CPU disagrees with the table on it when `unmap_range` returns |
| `TlbLists.QuickAlone` | kernel/src/mem/mem_map.rs:347-349 | the same for the path of `set_flags` without shootdown |
| `TlbLists.RangeStaysUnmapped` | kernel/src/mem/mem_map.rs:64-116 | if no CPU's list has an operation that makes the page present, it is not present and cached nowhere when `unmap_range` returns, whatever else unmaps it |
| `TlbRaces.QuickPathRace` | kernel/src/mem/mem_map.rs:347-349 | from every start in which one CPU is to unmap a range that holds a present page and another to set other flags on it, a run leads to the return of `set_flags` with the old translation in use |
| `TlbRaces.QuickPathIff` | kernel/src/mem/mem_map.rs:347-349 | for two CPUs with one such operation each, a run of that kind exists if and only if the range holds the page |
| `TlbRaces.FinishShootdown` | kernel/src/mem/tlb.rs:58-75 | from every reachable state in which a CPU owns the list, a run ends its shootdown while no other thread moves and the table stays as it is |
| `TlbRaces.UnmapRangeRace` | kernel/src/mem/mem_map.rs:104-115 | from every start in which one CPU is to unmap a range and another to set flags on one of its pages and unmap it again, a run leads to the return of the first `unmap_range` with an old translation in use |
| `TlbRaces.UnmapRangeIff` | kernel/src/mem/mem_map.rs:104-115 | for such lists a run of that kind exists if and only if the flags make the page present and the second range holds it |
| `TlbClearing.ClearSafe` | kernel/src/mem/mem_map.rs:518-522 | if no CPU is to make a page of the range present, then after `clear` it is not present and cached nowhere, whatever other CPUs did between the writes |
| `TlbClearing.ClearRace` | kernel/src/mem/mem_map.rs:518-522 | from every start in which another CPU is to make a page of the range present, a run ends with a translation cached that the table does not have and that no operation owes a flush |
| `TlbClearing.ClearIff` | kernel/src/mem/mem_map.rs:518-522 | for one `set_flags` on a page of the range, such a run exists if and only if its flags make the page present |
| `TlbTable.SetFlagsWritten` | kernel/src/mem/mem_map.rs:326-349 | when `set_flags` returns, with or without a shootdown, the entry has the flags asked for; it is absent only when frame and flags are all zero |
| `TlbTable.UnmapPageEmpties` | kernel/src/mem/mem_map.rs:168-185 | when `unmap_page` returns, the whole entry is empty |
| `TlbTable.MapPageWritten` | kernel/src/mem/mem_map.rs:128-155 | before `map_page` returns, the entry is the one asked for |
| `TlbTable.UnmapRangeClears` | kernel/src/mem/mem_map.rs:79-95 | when `unmap_range` gives the mutex back for its shootdown, no page of the range has a flag left |
| `TlbTable.FrameKept` | kernel/src/mem/mem_map.rs:64-352 | if no CPU is to map or unmap a page, its entry has the frame of the start in every state of every run |
| `TlbTable.ReachableWrote` | kernel/src/mem/mem_map.rs:64-352 | in every reachable state the table holds what each thread that owns the mutex has written so far |
| `TlbTable.SentPages` | kernel/src/mem/tlb.rs:618-628 | a handler flushes the one page, or all pages of the range and the one behind it |
| `TlbTable.LocalFlush` | kernel/src/mem/mem_map.rs:85-92 | the local flush removes the page just written from the CPU's own TLB and nothing else |
| `TlbTable.TailOrder` | kernel/src/mem/tlb.rs:58-75 | every shootdown makes its accesses in this order: master, content, guest, lock, count, interrupts, own handler, wait, unlock, drain, leave, wipe, release |
| `TlbTable.EditOrder` | kernel/src/mem/mem_map.rs:79-106 | each entry is written and then flushed locally, and the shootdown comes after the last |
| `TlbTable.DrainNeverWaits` | kernel/src/mem/tlb.rs:239-303 | the wait for visitors when the list is dropped is never needed |
| `TlbTable.SyncNeverWaits` | kernel/src/mem/tlb.rs:137-163 | the wait for the counter's lock is never needed: only the owner of the list takes it |
| `TlbTable.VisitorNeverSpins` | kernel/src/mem/tlb.rs:274-303 | the two loads of a visitor find the list owned and published, so its loop is left at once |
| `TlbTable.PanicsExactly` | kernel/src/mem/mem_map.rs:128-185 | a step panics if and only if `unmap_page` finds an empty entry or `map_page` one in use; no handler step does |
| `TlbTheorems.AccessesBounded` | kernel/src/mem/tlb.rs:58-75 | no run makes more accesses than a rank of its first state, so every shootdown ends whatever the interleaving |
| `TlbTheorems.StuckIsFinished` | kernel/src/mem/tlb.rs:137-163 | a reachable state in which every CPU only spins is one in which every operation has returned |
| `TlbHandshake.KeepHandshake` | kernel/src/mem/tlb.rs:239-303 | every step of every CPU keeps the invariant of the two shootdown locks, and says who owns the list next |
| `TlbHandshake.KeepHandler` | kernel/src/mem/tlb.rs:274-303 | a step of the interrupt handler keeps the handshake |
| `TlbHandshake.SendSets` | kernel/src/mem/tlb.rs:63-74 | once the interrupts are out every CPU owes one `shoot`, the sender included |
| `TlbHandshake.NobodyOwes` | kernel/src/mem/tlb.rs:150-152 | a count of zero means that no interrupt is pending and no handler runs |
| `TlbCoherence.KeepInv` | kernel/src/mem/mem_map.rs:64-352 | every step keeps both invariants |
| `TlbCoherence.CoverKept` | kernel/src/mem/tlb.rs:574-585 | a flush that an operation owes a CPU stays owed until the entry leaves that TLB |
| `TlbCoherence.MutexProtects` | kernel/src/mem/mem_map.rs:311-350 | no other CPU writes an entry while a CPU owns the memory map's mutex |
| `TlbProgress.NoDeadlock` | kernel/src/mem/tlb.rs:137-163 | in every state that satisfies the invariant and is not finished some CPU has an access that is not a spin |
| `TlbProgress.RankFalls` | kernel/src/mem/tlb.rs:58-75 | each such access lowers a rank over the CPUs still to shoot and the phases of the initiators |
| `PageWalk.IndexDigits` | kernel/src/mem.rs:390-403 | a page number is its four indices as digits in base 512, the level 4 index the highest |
| `PageWalk.TraverseStep` | kernel/src/mem/offset_page_table.rs:232-262 | a traversal to a level is the traversal to the level above followed by one entry, with the error of the first entry that stops it |
| `PageWalk.TraverseLabel` | kernel/src/mem/offset_page_table.rs:188-218 | a table that is reached carries the indices that lead to it as its label |
| `PageWalk.OnePath` | kernel/src/mem/offset_page_table.rs:188-218 | each table frame is reached by one path only |
| `PageWalk.WalkTraverse` | kernel/src/mem/offset_page_table.rs:220-262 | the processor's walk goes through the tables the kernel finds, faults where the kernel finds none and ends in the large page the kernel stops at |
| `PageWalk.WriteLeaf` | kernel/src/mem/offset_page_table.rs:387-390 | writing a level 1 entry keeps the tree and changes the translation of that page and of no other |
| `PageTable.WithWritable` | kernel/src/mem/offset_page_table.rs:375 | the writable bit is set and all other bits stay |
| `PageTable.WayLinked` | kernel/src/mem/offset_page_table.rs:301-319 | after an attachment each entry on the way to the page that was unused links the next table with exactly the flags asked for, each entry that was in use is as it was, and so is every entry elsewhere |
| `PageTable.LinkWalk` | kernel/src/mem/offset_page_table.rs:317-319 | linking an empty table where nothing was linked changes no translation |
| `PageRanges.ClearOneFacts` | kernel/src/mem/mem_map.rs:85-92 | clearing the flags of one page removes its translation, keeps its frame, and changes no other page |
| `PageRanges.ClearedFacts` | kernel/src/mem/mem_map.rs:79-95 | the loop does so for exactly the pages before the first without a level 1 table |
| `PageRanges.LeadingReached` | kernel/src/mem/mem_map.rs:85-87 | the loop reaches a page if and only if it and all pages before it have a level 1 table |
| `PageRanges.RangeUnmapped` | kernel/src/mem/mem_map.rs:57-95 | all pages are unmapped afterwards if and only if each had no translation before or is reached |
| `PageRanges.DistinctRangeUnmapped` | kernel/src/mem/mem_map.rs:57-95 | for different pages: if and only if no page at or behind one without a level 1 table was mapped |
| `PageRanges.EmptyRangeIff` | kernel/src/mem/mem_map.rs:97-106 | for ascending pages the range that is sent is empty if and only if the first page has no level 1 table and is not page 0 |
| `PageRanges.ClearedIsSentIff` | kernel/src/mem/mem_map.rs:97-106 | every page that was cleared is in the range that is sent if and only if, of the pages reached, none lies below the first or above the last |
| `PageRanges.ClearedIsSent` | kernel/src/mem/mem_map.rs:97-106 | so it is for pages in ascending order |
| `PageTable.MissingStep` | kernel/src/mem/offset_page_table.rs:301-315 | a missing table is one more than what is missing above it, nothing above it is a large page and its place is unused |
| `PageTable.OffsetPageTable.NewTable` | kernel/src/mem/offset_page_table.rs:265-279 | a fresh zeroed table, and no walk or traversal changes; nothing when no frame is left |
| `PageTable.OffsetPageTable.Attach` | kernel/src/mem/offset_page_table.rs:288-323 | ends; keeps the tree and every translation; each outcome is decided by the old tree and the frames left; on success the table is found where it was asked for, exactly the missing tables were allocated, and the entries written are unused ones on the way to the page, linked with the flags asked for; without a frame no entry changes |
| `PageTable.OffsetPageTable.MakeTable` | kernel/src/mem/offset_page_table.rs:304-309 | a missing table is made with all those above it, without an error, if the frames suffice; the entries written are unused ones on the way to it, linked with the flags asked for |
| `PageTable.OffsetPageTable.TableAt` | kernel/src/mem/offset_page_table.rs:301-315 | the table of a level, as it is if it exists, otherwise made; its entry for the page is the old one |
| `PageTable.OffsetPageTable.Link` | kernel/src/mem/offset_page_table.rs:317-319 | exactly the one entry is written, with the new table, present and the flags asked for; no translation changes, the new table is found |
| `PageTable.OffsetPageTable.MapTo` | kernel/src/mem/offset_page_table.rs:353-395 | success changes the translation of that page and no other, every other outcome, the panic on an entry in use that gives no frame included, changes none, and the outcome is decided by the old tree and the frames left; apart from the entry of the page only links on the way to it are written, with the parent flags and `WRITABLE`, and nothing without success |
| `PageTable.OffsetPageTable.PutLeaf` | kernel/src/mem/offset_page_table.rs:387-390 | exactly that entry is written, every traversal is as before, one translation changes |
| `PageTable.OffsetPageTable.Unmap` | kernel/src/mem/offset_page_table.rs:397-423 | gives back the mapped frame, empties its entry and nothing else, and removes that translation alone; otherwise nothing is written |
| `PageTable.OffsetPageTable.ClearFlags` | kernel/src/mem/mem_map.rs:85-92 | the flags are cleared and the frame kept, if the page has a level 1 table; nothing else is written |
| `PageTable.OffsetPageTable.ClearRange` | kernel/src/mem/mem_map.rs:79-95 | the pages before the first one without a level 1 table lose their translation and keep their frame, no other page changes; all are unmapped if and only if each had no translation or is reached |
| `PageTable.OffsetPageTable.UnmapRange` | kernel/src/mem/mem_map.rs:64-106 | panics on an empty range under the exact condition; otherwise sends the range from the first page asked for to the last one reached, which for ascending pages holds every page cleared |
| `PageTable.OffsetPageTable.ClearThenMap` | kernel/src/mem/offset_page_table.rs:387-393 | mapping a page that `unmap_range` cleared panics if and only if its entry had a frame, and succeeds otherwise |
| `PageTable.OffsetPageTable.MapThenUnmap` | kernel/src/mem/offset_page_table.rs:353-423 | unmapping what was just mapped gives back its frame and restores the whole translation function; in memory only links on the way to the page are left |
| `AddressTranslation.LadderFindsLeaf` | kernel/src/mem/mem_map.rs:253-287 | the 4K, 2M, 1G ladder ends at the entry in which the processor's walk ends, with a panic if and only if that entry gives no frame, whether or not the library's `frame` accepts large entries |
| `AddressTranslation.RungExact` | kernel/src/mem/offset_page_table.rs:489-504 | a rung reports a larger page if and only if the processor's walk ends in one, and reports no page only where the processor faults |
| `AddressTranslation.FramesExact` | kernel/src/mem/mem_map.rs:253-287 | two page numbers lie in the same page of a level if and only if they have the same indices down to that level |
| `AddressTranslation.OffsetKept` | kernel/src/mem/mem_map.rs:253-287 | for two addresses with the same indices down to the leaf, the results of `translate` and of the processor differ by exactly what the addresses differ by |
| `AddressTranslation.LadderFindsFault` | kernel/src/mem/mem_map.rs:253-287 | where the processor faults nothing is found, or the kernel panics on an entry in use but not present |
| `AddressTranslation.TranslateExact` | kernel/src/mem/mem_map.rs:253-287 | the address is the processor's if and only if the leaf gives a frame and its address field is aligned to its page |
| `AddressTranslation.ClearedPanics` | kernel/src/mem/offset_page_table.rs:489-504 | `translate` panics on a page that `unmap_range` cleared if and only if its entry had a frame |
| `PageSamples.PatBitAdded` | kernel/src/mem/offset_page_table.rs:649-667 | a tree with a 2 MiB page on which `translate` and the processor differ |
| `PageSamples.ClearedPagePanics` | kernel/src/mem/offset_page_table.rs:489-504 | a tree on which `translate` panics after a mapped page was cleared |
| `PageSamples.RangeStopsEarly` | kernel/src/mem/mem_map.rs:85-87 | a tree and a range of consecutive pages of which one stays mapped |
| `PageSamples.RangePanics` | kernel/src/mem/mem_map.rs:97-106 | a tree and a range on which `unmap_range` panics |
| `PageSamples.PageNotSent` | kernel/src/mem/mem_map.rs:97-106 | a tree and a list of pages of which one is cleared and not in the range that is sent |
| `AsyncSchedule.LinkedClosed` | drivers/usb/src/ehci.rs:417-463 | in the middle of removals, from every queue head of the list, removed or not, the links lead to the list head within the list's length |
| `AsyncSchedule.AdvanceStays` | drivers/usb/src/ehci.rs:417-463 | a controller on a closed list never leaves it |
| `AsyncSchedule.Unlink` | drivers/usb/src/ehci.rs:428-461 | marking a queue head and pointing its live predecessor at its live successor keeps every link going forward or to the head, and every live link to the next live queue head |
| `AsyncSchedule.LiveRing` | drivers/usb/src/ehci.rs:464-469 | the links of what `retain` keeps are the cyclic order of what it keeps |
| `AsyncSchedule.RingInsert` | drivers/usb/src/ehci.rs:365-371 | after the first write of an insertion the ring is the old list, after the second it is the longer one |
| `AsyncSchedule.Ehci.constructor` | drivers/usb/src/ehci.rs:739-759 | the head alone is a ring |
| `AsyncSchedule.Ehci.Insert` | drivers/usb/src/ehci.rs:365-371 | the controller sees a closed cycle through the head after each write, and at the end the ring is the longer list |
| `AsyncSchedule.Ehci.UnlinkOne` | drivers/usb/src/ehci.rs:419-462 | one turn of the removal loop keeps the list closed and the controller on it |
| `AsyncSchedule.Ehci.Unlinking` | drivers/usb/src/ehci.rs:419-463 | the list is closed after every write; the loop panics if and only if an endpoint is not on the list or is its head |
| `AsyncSchedule.Ehci.AwaitDoorbell` | drivers/usb/src/ehci.rs:599-638 | a controller that runs on always comes to a live queue head, where it acknowledges the doorbell |
| `AsyncSchedule.Ehci.DropEndpoints` | drivers/usb/src/ehci.rs:417-469 | the ring is the list without the dropped endpoints, in order; no link leads to a dropped one and the controller never visits one again |
| `Dissolve.BlockLargest` | kernel/src/mem/buddy_frame_alloc.rs:182-191 | no larger aligned power-of-two block starts there and fits |
| `Dissolve.CutTiles` | kernel/src/mem/buddy_frame_alloc.rs:168-197 | the blocks tile the range and each is aligned to its size |
| `Dissolve.CutCovers` | kernel/src/mem/buddy_frame_alloc.rs:168-197 | the blocks hold each byte of the range once and no other |
| `Dissolve.FewestBlocks` | kernel/src/mem/buddy_frame_alloc.rs:168-197 | no tiling by aligned power-of-two blocks has fewer blocks |
| `Dissolve.CutUnimodal` | kernel/src/mem/buddy_frame_alloc.rs:168-197 | the sizes strictly rise and then strictly fall |
| `Dissolve.AtMostTwice` | kernel/src/mem/buddy_frame_alloc.rs:168-197 | no three blocks of a range have the same size |
| `Dissolve.BlockCount` | kernel/src/mem/buddy_frame_alloc.rs:168-197 | a range shorter than the n-th power of two has at most 2n blocks |
| `Dissolve.AtMost104` | kernel/src/mem/buddy_frame_alloc.rs:168-197 | at most 104 blocks for any range of physical memory |
| `Dissolve.DissolveOne` | kernel/src/mem/buddy_frame_alloc.rs:178-197 | nothing if the range is empty, otherwise its largest aligned first block; the rest of the range dissolves into the rest of the blocks |
| `HighOrder.Merge` | kernel/src/mem/high_order_alloc.rs:177-188 | two blocks merge if and only if they touch, and the result holds exactly the bytes of both |
| `HighOrder.HighOrderAlloc.Search` | kernel/src/mem/high_order_alloc.rs:46-47 | the element with that start, or the place that keeps the order |
| `HighOrder.FreeAtCover` | kernel/src/mem/high_order_alloc.rs:49-71 | wherever the block goes, exactly its bytes are added, even those the list already had |
| `HighOrder.FreeAtSorted` | kernel/src/mem/high_order_alloc.rs:49-71 | a block that was not in the list leaves it sorted and disjoint, with one element more if and only if nothing touches it |
| `HighOrder.TouchingIff` | kernel/src/mem/high_order_alloc.rs:49-71 | neighbours touch afterwards if and only if some touched before or the block filled the gap between two |
| `HighOrder.MiddleFreedLast` | kernel/src/mem/high_order_alloc.rs:49-55 | three units freed, the middle one last, stay two elements that touch |
| `HighOrder.HighOrderAlloc.Free` | kernel/src/mem/high_order_alloc.rs:37-75 | panics if and only if an element has the same start; otherwise all of this holds of the new list |
| `BootMemory.FramesConserve` | kernel/src/mem/buddy_frame_alloc.rs:109-131 | with whole-page segments, the frames of any number of calls and what is left are together the segments, byte for byte |
| `BootMemory.Overruns` | kernel/src/mem/buddy_frame_alloc.rs:109-131 | a segment that is not whole pages is overrun after some number of calls |
| `BootMemory.RunsOver` | kernel/src/mem/buddy_frame_alloc.rs:109-131 | if the first segment that is not whole pages is one byte short, some number of calls hands out all segments before it and then, the length having wrapped, the page behind that byte |
| `BootMemory.WholePagesIff` | kernel/src/mem/buddy_frame_alloc.rs:415-431 | the segments of a page-aligned map are whole pages if and only if no usable region behind the first holds the last page of a low zone |
| `BootMemory.FramesInSegmentsIff` | kernel/src/mem/buddy_frame_alloc.rs:109-154 | the frames stay inside the clipped segments if and only if no usable region behind the first holds the last page of a low zone |
| `BootMemory.FrameOutside` | kernel/src/mem/buddy_frame_alloc.rs:109-154 | if there is such a region, some number of calls hands out a byte that is not usable, or one twice |
| `BootMemory.FramesInsideIff` | kernel/src/mem/buddy_frame_alloc.rs:109-154 | of a page-aligned disjoint map, usable memory alone is handed out, and each byte once, if and only if there is no such region |
| `BootMemory.OverrunSample` | kernel/src/mem/buddy_frame_alloc.rs:109-154 | a map with one usable page of which the second call hands out the page behind it |
| `BootMemory.SegmentsExact` | kernel/src/mem/buddy_frame_alloc.rs:133-154 | of a disjoint map the three cursors meet every usable byte of their zones once, the first region excepted, and nothing else |
| `BootMemory.TakenAndLeft` | kernel/src/mem/buddy_frame_alloc.rs:76-92 | frames taken and segments left are together the usable memory, each byte once |
| `BootAllocator.LargePasses` | kernel/src/mem/buddy_frame_alloc.rs:365-368 | an aligned block above the largest buddy block passes the size and alignment checks |
| `BootAllocator.IterSegment.Advance` | kernel/src/mem/buddy_frame_alloc.rs:133-154 | moving to the next segment changes nothing of what is left, and finds one if there is one |
| `BootAllocator.IterSegment.Alloc` | kernel/src/mem/buddy_frame_alloc.rs:109-131 | the first frame of what is left, page-aligned, or nothing when nothing is left |
| `BootAllocator.IterSegment.Pop` | kernel/src/mem/buddy_frame_alloc.rs:156-166 | the first segment of what is left, whole |
| `BootAllocator.IterSegment.Drain` | kernel/src/mem/buddy_frame_alloc.rs:168-176 | nothing is left, and the zone's allocator holds exactly those bytes in addition |
| `BootAllocator.Region.Deallocate` | kernel/src/mem/buddy_frame_alloc.rs:357-381 | nothing for an empty block; otherwise the rounded block goes to the sorted list or to the buddy allocator by its size, a block that the buddy allocator gives back goes to the sorted list, and exactly the new bytes are held in addition; it panics if and only if a large block is not aligned to the unit or its start is in the list; an aligned block not held before never panics |
| `BootAllocator.Region.FreeRange` | kernel/src/mem/buddy_frame_alloc.rs:171-174 | the range goes in as the blocks of its dissolution, in that order |
| `BootAllocator.PreInitFrameAlloc.AllocateFrame` | kernel/src/mem/buddy_frame_alloc.rs:76-92 | the first frame left in the order 64-bit, 32-bit, 16-bit zone; nothing exactly when all three are used up |
| `BootAllocator.PreInitFrameAlloc.TakeFrames` | kernel/src/mem/buddy_frame_alloc.rs:76-92 | any number of calls hand out the frames in order |
| `BootAllocator.PreInitFrameAlloc.DrainMap` | kernel/src/mem/buddy_frame_alloc.rs:40-55 | what each cursor has left is held by its zone's allocator, nothing can be handed out afterwards |
| `BootAllocator.PreInitFrameAlloc.HandOver` | kernel/src/mem/buddy_frame_alloc.rs:40-176 | for a disjoint map with whole-page segments, after any number of frames and the drain every usable byte is in exactly one frame or free block, no other byte is in any, all of them are pairwise disjoint, and no later frame is handed out |
| `CommandSlots.ExactlyOnePlace` | drivers/ahci/src/driver.rs:437-475 | every command is in exactly one of queue, slot and finished list, and there once |
| `CommandSlots.SlotsApart` | drivers/ahci/src/driver.rs:404 | no two slots hold the same command |
| `CommandSlots.ConservedFinish` | drivers/ahci/src/driver.rs:459-461 | finishing a slot's command keeps that count, and the command was not finished before |
| `CommandSlots.Port.GetCmd` | drivers/ahci/src/driver.rs:974-994 | locks the lowest free slot, or finds all taken |
| `CommandSlots.Port.ExecCmd` | drivers/ahci/src/driver.rs:378-425 | starts the command in the lowest free slot or changes nothing; the issue bit is not yet set and the slot still in set-up, so neither panic is reached, however the device interferes |
| `CommandSlots.Port.ChkComplete` | drivers/ahci/src/driver.rs:537-544 | true exactly for a running slot whose bit the device cleared |
| `CommandSlots.Port.Finish` | drivers/ahci/src/driver.rs:459-461 | the slot holds a future, so the "Race" panic is not reached; that command is finished, for the first time |
| `CommandSlots.Port.RefreshSlot` | drivers/ahci/src/driver.rs:456-468 | one slot at most changes; the dropped result of `exec_cmd` is never a failure |
| `CommandSlots.Port.RefreshExec` | drivers/ahci/src/driver.rs:437-475 | every command whose bit was clear on entry is finished; commands wait only while all slots run; commands start in the order of submission |
| `CommandSlots.Port.IssueCmd` | drivers/ahci/src/driver.rs:349-370 | the new command is last in the order, and all of the port's invariants are kept; with a free slot it is started and nothing is queued; with none, every command whose bit was clear on entry is finished first |
| `CommandSlots.Port.PollFuture` | drivers/ahci/src/driver.rs:1093-1107 | ready if and only if finished; then the device has cleared the command's bit and neither queue nor slot holds it; the buffer is returned once |
| `ChunkQueue.ChunkBuffer.Fifo` | kernel/src/interrupts/buff.rs:75-147 | everything appended is what was popped followed by what is still to be read |
| `ChunkQueue.ChunkBuffer.ReadyMeansRead` | kernel/src/interrupts/buff.rs:190-200 | a push is ready if and only if its chunk is no longer pending, and then all its elements are among those popped, at their place |
| `ChunkQueue.ChunkBuffer.Free` | kernel/src/interrupts/buff.rs:57-73 | only the accounting of completed chunks changes |
| `ChunkQueue.ChunkBuffer.CompleteFront` | kernel/src/interrupts/buff.rs:128-140 | completing a chunk leaves the flat queue as it is |
| `ChunkQueue.ChunkBuffer.Pop` | kernel/src/interrupts/buff.rs:115-147 | the first element of the flat queue, nothing if and only if that is empty; it is read from a chunk that is not completed |
| `ChunkQueue.ChunkBuffer.Peek` | kernel/src/interrupts/buff.rs:152-170 | changes nothing; the element the next pop returns, missed if and only if the first chunk was read to its end and another follows |
| `ChunkQueue.ChunkBuffer.Interrupt` | kernel/src/interrupts/buff.rs:115-147 | any number of pops take that many elements from the front |
| `ChunkQueue.ChunkBuffer.Push` | kernel/src/interrupts/buff.rs:75-113 | the slice is appended, whatever pops interrupt in between; an empty slice is completed at once and not queued; exactly the chunks that were complete when it began are freed |
| `ChunkQueue.ChunkBuffer.Len` | kernel/src/interrupts/buff.rs:175-177 | the total length of pending and completed chunks |
| `ChunkQueue.ChunkBuffer.ValidLen` | kernel/src/interrupts/buff.rs:180-182 | the length of the pending chunks, never below zero, even when pops interrupt between the two loads |
| `VectorRegistry.SinglePromiseIff` | kernel/src/interrupts/vector_tables.rs:163-167 | for one vector the result is the promised one if and only if the free vectors are one run up to the last vector, or there are none |
| `VectorRegistry.LastRunUnique` | kernel/src/interrupts/vector_tables.rs:179-205 | for one vector the registry determines the answer |
| `VectorRegistry.SingleRequestFails` | kernel/src/interrupts/vector_tables.rs:181-202 | a registry with one taken vector in which whatever the search answers for one vector is an error |
| `VectorRegistry.FirstFitFails` | kernel/src/interrupts/vector_tables.rs:200-203 | a request for several vectors fails if and only if there is no such run |
| `VectorRegistry.HandleRegistry.Reserve` | kernel/src/interrupts/vector_tables.rs:95-103 | an empty vector becomes reserved, any other is refused |
| `VectorRegistry.HandleRegistry.Set` | kernel/src/interrupts/vector_tables.rs:112-121 | refused exactly for special and generic handlers |
| `VectorRegistry.HandleRegistry.FreeIrq` | kernel/src/interrupts/vector_tables.rs:128-135 | the vector becomes empty; an error exactly when it was |
| `VectorRegistry.HandleRegistry.GetFree` | kernel/src/interrupts/vector_tables.rs:153-161 | the number of empty vectors if and only if not all are empty |
| `VectorRegistry.EmptiesCounts` | kernel/src/interrupts/vector_tables.rs:153-161 | the count is the size of the set of empty vectors |
| `VectorRegistry.HandleRegistry.Search` | kernel/src/interrupts/vector_tables.rs:173-198 | for two or more vectors the lowest run or the length of the longest; for fewer the run that reaches the last vector |
| `VectorRegistry.HandleRegistry.ReserveContiguous` | kernel/src/interrupts/vector_tables.rs:172-212 | that run becomes reserved and nothing else changes; nothing at all changes on failure |
| `VectorRegistry.HandleRegistry.ReserveIrq` | kernel/src/interrupts.rs:302-315 | exactly the run that is returned becomes reserved, and nothing changes on an error; the registry stays locked if and only if there is no run of that many free vectors; for a single one, if and only if the last vector is taken |

## Left out

- Weak memory ordering: the shootdown steps are sequentially consistent.  The set of CPUs is fixed, `MASK_SHOOTDOWN` is false and interrupts are enabled on waiting CPUs.
- The table in the shootdown model is flat: one entry for each page, and each page of a range has a table.  The tree and the early stop of `unmap_range` are in `PageTable`.
- `target_shootdown`, `ShootdownContent::Long` and `FullContext`, and the compressed encoding of drop entries.
- Callers' panics in the shootdown model: unmapping a page that is not mapped or mapping over one stops the machine, and nothing is claimed of it afterwards.
- Mapping and unmapping of 2 MiB and 1 GiB pages; existing large leaves are opaque entries.
- The flags of an entry, beside present and large, are a number; a caller that passes `HUGE_PAGE` as a parent flag is not modelled.
- The semaphore and wakers around `drop_endpoints`, the periodic schedule and the contents of queue heads.  That a controller acknowledges the doorbell only on a live queue head is taken from section 4.8.2 of the EHCI specification 1.0.
- The buddy allocator behind `Region` is an external library: it is a parameter, assumed only to conserve bytes and to give back aligned blocks of one unit.
- Sizes above 2^63, which `next_power_of_two` would wrap.
- The address type of `dissolve` is taken to hold 2^52 itself, which it computes as the end of a range that reaches the top of physical memory; an address type that refuses it would panic on such a range.
- `PageTableEntry::frame` belongs to an external library: whether it refuses large entries is a parameter, and only that it refuses entries that are not present is assumed.
- `HighOrderAlloc::allocate`, splitting, `Region::allocate` and `extend_from_high`.
- AHCI error handling, `abandon_cmd`, identity fetching, native command queuing (`PxSACT`), the contents of command tables, fewer than 32 slots, and calls that overlap on several CPUs.
- Wakers of all futures: that a woken task polls again is not modelled.
- The length counters of the interrupt buffer are unbounded; their wrap-around is not modelled.
- The tmpfs and VFS layers, ACPI, PS/2, graphics, the shell, the proc macros and the build tools.
