# V8 heap spaces: allocation core

This project models the allocation core of V8's heap spaces, as written in
`src/heap/spaces-inl.h`, and proves properties of the model. It covers:

- **The bump-pointer allocation window `[top, limit)`.** Paged spaces (old,
  code and map space), the young space and local allocation buffers (LABs)
  all allocate from one.
- **The paged spaces' allocation cascade.** The linear window comes first,
  then the free list, then the slow path, and finally a retry tagged with the
  space. While incremental marking runs, memory obtained past the linear
  window is registered as black.
- **The undo of the most recent allocation.**
- **The young space's to-space allocation**, with its fallback to the
  `EnsureAllocation` hook.
- **The LAB lifecycle:** invalid buffer, creation from an allocation result,
  allocation, merge and undo.
- **Chunk addressing and the containment tests** of paged and young spaces.
- **The free-list bookkeeping done on a page's categories:** unlink, relink,
  reset, and the evacuation-candidate toggles that evict or reset them.
- **The three iterators:**
  - the object walker of a paged space, which skips fillers and jumps over
    the unused window;
  - the semispace walker, which hops from page to page;
  - the heap-wide chunk iterator, which visits old, map and code pages, then
    large-object chunks.

## How it is modelled

Most of the code changes objects in place, so most of the model is
imperative:

- `AllocationInfo`, `PagedSpace`, `Page`, `NewSpace`,
  `LocalAllocationBuffer`, `FreeList`, `FreeListCategory` and the three
  iterators are classes. Their methods update fields under `modifies` clauses.
- The window arithmetic is stated once, as pure functions on a `Window`
  value: `AlignedBump`, `FreeLast` and `MergeWindows`. Every allocating
  method, whichever class it belongs to, is proved to agree with these
  functions. The lemmas about window behaviour (undo restores top, only the
  last object can be undone, successive objects are disjoint) are proved
  about the functions.
- Addresses are unbounded naturals, and 0 is the null pointer. The heap's
  object layout is a map from address to (size, is-filler).
- The iterators are specified by ghost functions giving the sequence of
  objects or chunks a complete walk reports. Each `Next` is proved to hand out
  the head of that sequence and leave its tail. Lemmas about the ghost
  functions prove the iterator guarantees: no fillers, strictly increasing
  addresses, nothing inside the unused window, and only objects in to-space
  pages.
- The free list keeps one top per size class, and its categories are linked
  through `prev` and `next`. Ghost state abstracts it:
  - `lists`, for each size class, the categories met going from its top along
    `next`;
  - `Links()`, a snapshot of every category's `prev`, `next` and size class;
  - `Linked()`, the categories on the list of their own size class;
  - `Sizes()`, each category's size class and available bytes.

  The invariant `Threaded` ties the links to the lists. Each class's list
  starts at its top. Each listed category is linked to exactly its neighbours
  in the list. A category on no list has no links, so a detached chain or
  cycle cannot exist. Every free-list operation states its effect on the lists,
  the tops, `Linked()` and `Sizes()`.

### Behaviour worth noting

- **Black areas.** Only objects obtained from the free list or the slow path
  are registered black (`src/heap/spaces-inl.h:342-346`, `384-389`).
  Linear-window allocations are not. The aligned path registers the whole
  block, including the worst-case filler.
- **Retry from a LAB.** An exhausted LAB returns `AllocationResult::Retry()`,
  whose default space is `NEW_SPACE` (`src/heap/spaces-inl.h:301`). The model
  returns `Retry(NewSpaceId)`.
- **Undo after an aligned allocation.** The undo rewinds top to the object's
  address and no further. A filler written before an aligned object stays
  (`AlignedBumpThenFreeLastKeepsFiller`).
- **Containment lookup may fail.** `PagedSpace::Contains(Address)` dereferences
  the chunk that `FromAnyPointerAddress` finds (`src/heap/spaces-inl.h:145-147`).
  The model therefore requires the lookup to succeed.
- **Chunk iterator order.** The chunk iterator visits map-space pages before
  code-space pages (`src/heap/spaces-inl.h:231-260`), although its constructor
  lists the code-space iterator first.
- **Host word size.** The filler rule depends on the host's pointer size: 4
  bytes on a 32-bit host, 8 on a 64-bit one. Each space and each LAB carries
  the host as a constant. A paged space and the young space choose their
  aligned path only on a 32-bit host. A LAB always allocates through its
  aligned path, and on a 64-bit host a pointer-aligned top needs no filler.

## Model

| member | source | states |
|---|---|---|
| Globals.HostPointerSize | src/heap/spaces-inl.h:411 | the host's pointer size divides a double, and is 4 bytes exactly on a 32-bit host |
| Globals.FillToAlign | src/heap/spaces-inl.h:298 | the filler is none for word alignment; on a 32-bit host it is at most the worst case and brings a word-aligned address to the requested double alignment or misalignment; on a 64-bit host a pointer-aligned address needs none |
| Globals.MaximumFillToAlign | src/heap/spaces-inl.h:378 | the worst-case filler is less than a double, and is 0 exactly for word alignment or a 64-bit host |
| Globals.AlignWithFiller | src/heap/spaces-inl.h:390-392 | the aligned object lies inside the block reserved with the worst-case filler, and is double aligned when a 32-bit host asks double alignment of a word-aligned block |
| AllocationArea.AlignedBump | src/heap/spaces-inl.h:313-329 | a bump succeeds exactly when filler plus object fit below limit; the object follows exactly the filler and ends at the new top; it is placed at top for word alignment and, on a 64-bit host, for a pointer-aligned top |
| AllocationArea.FreeLast | src/heap/spaces-inl.h:175-184 | an undo succeeds exactly when top is not null and the object ends at top; the new top is the object's address |
| AllocationArea.MergeWindows | src/heap/spaces-inl.h:524-531 | a merge succeeds exactly when the window starts at the other's limit; the result runs from the other's top to this window's limit, and the capacities add up |
| AllocationArea.BumpThenFreeLastRestoresTop | src/heap/spaces-inl.h:175-184 | undoing an unaligned allocation restores the top it started from |
| AllocationArea.AlignedBumpThenFreeLastKeepsFiller | src/heap/spaces-inl.h:175-184 | undoing an aligned allocation rewinds top only to the object, leaving the filler in place |
| AllocationArea.FreeLastRefusesEarlierObject | src/heap/spaces-inl.h:533-542 | after a second non-empty allocation the first can no longer be undone |
| AllocationArea.SuccessiveBumpsAreDisjoint | src/heap/spaces-inl.h:285-292 | two successive allocations from one window do not overlap, and both stay below limit |
| Chunks.FromAddress | src/heap/spaces-inl.h:96-100 | the chunk base of an address is aligned and the address lies in the alignment unit starting there |
| Chunks.IsAlignedToPageSize | src/heap/spaces-inl.h:43 | an address is aligned exactly when it is its own chunk base |
| Chunks.FromAllocationAreaAddress | src/heap/spaces-inl.h:44 | the page of an allocation-area address is aligned; an aligned address belongs to the page ending at it; an address a word or more past a page base belongs to that page |
| Chunks.FindPageThreadSafe | src/heap/spaces-inl.h:190 | the large chunk found for an address contains it |
| Chunks.FindPageFindsLargeChunk | src/heap/spaces-inl.h:190 | with every alignment unit of a large chunk registered, any address inside the chunk finds it |
| Chunks.FromAnyPointerAddress | src/heap/spaces-inl.h:186-193 | an address past the header of a page with a header maps to its masked page; any other answer is a chunk that contains the address |
| Chunks.FromAnyPointerAddressContains | src/heap/spaces-inl.h:186-193 | whatever chunk the lookup returns is recorded and contains the address |
| Chunks.FromAnyPointerAddressFindsLargeChunk | src/heap/spaces-inl.h:186-193 | an address past the header of a large chunk, covered by no other chunk, is found in that chunk |
| FreeLists.FreeListCategory.Initialize | src/heap/spaces-inl.h:141 | an unlinked category gets the size class and no bytes; the list stays consistent and no other category changes |
| FreeLists.FreeListCategory.Relink | src/heap/spaces-inl.h:167-170 | an unlinked category is linked back exactly when it holds bytes; no sizes change |
| FreeLists.FreeListCategory.IsLinked | src/heap/spaces-inl.h:277-279 | in a threaded free list, a category has a neighbour or heads its size class exactly when it is on the list of its size class |
| FreeLists.LinksShowListing | src/heap/spaces-inl.h:277-279 | under the threading invariant, having a neighbour or heading the class is equivalent to being listed, in both directions |
| FreeLists.PlacedDistinct | src/heap/spaces-inl.h:277-279 | a list whose categories are linked to exactly their neighbours holds no category twice |
| FreeLists.FreeListCategory.Reset | src/heap/spaces-inl.h:211 | the eviction's per-category reset: no bytes and no links, with the size class kept |
| FreeLists.FreeList.AddCategory | src/heap/spaces-inl.h:169 | a category is added exactly when it holds bytes and does not already head its class; when added it becomes the top of its class with the old top after it and the old top's `prev` pointing back to it, its class's list becomes it followed by the old list, and the other classes and tops are unchanged; when refused nothing changes; the list stays threaded and no sizes change |
| FreeLists.PushKeepsThreaded | src/heap/spaces-inl.h:169 | pushing an unlisted category at the top of its class keeps the lists threaded, with that class's list grown at its head and the linked set grown by the category |
| FreeLists.FreeList.RemoveCategory | src/heap/spaces-inl.h:160 | the list of the category's class loses the category with the order of the rest kept, and the other classes are unchanged; its neighbours are joined to each other; the top of the class moves to its successor when it headed the class; its own links are cleared; it leaves the linked set; the list stays threaded and no sizes change |
| FreeLists.UnlinkKeepsThreaded | src/heap/spaces-inl.h:160 | unlinking a category keeps the lists threaded, with it deleted from its class's list and from the linked set |
| FreeLists.RemoveAt | src/heap/spaces-inl.h:160 | deleting a category from a list without repeats removes exactly its position, and the rest has no repeats |
| FreeLists.FreeList.EvictCategory | src/heap/spaces-inl.h:211 | one category leaves the list and is emptied with its size class kept; the bytes it held are returned |
| FreeLists.FreeList.EvictFreeListItems | src/heap/spaces-inl.h:211 | every category of the page leaves the list and is emptied with its size class kept; the forfeited bytes are returned |
| FreeLists.InitializedSizes | src/heap/spaces-inl.h:139-143 | after the reset, category k of the page has size class k and no bytes, and every other category keeps its size |
| PagedSpaces.PagedSpace.AllocateLinearly | src/heap/spaces-inl.h:285-292 | succeeds exactly when the object fits below limit, returning the old top and advancing top by the size; on failure nothing changes |
| PagedSpaces.PagedSpace.AllocateLinearlyAligned | src/heap/spaces-inl.h:313-329 | agrees with AlignedBump; on success the reported size includes the filler, on failure top stays |
| PagedSpaces.PagedSpace.CreateBlackArea | src/heap/spaces-inl.h:345 | the range is appended to the registered black areas with its page, and nothing else is registered |
| PagedSpaces.PagedSpace.AllocateRawUnaligned | src/heap/spaces-inl.h:333-358 | the linear tier serves exactly the requests that fit, keeping limit, pages, black areas and collaborators untouched; otherwise the free list is tried, then the slow path, then a retry tagged with the space; only objects from the later tiers are registered black, with the page that holds them |
| PagedSpaces.PagedSpace.AllocateRawAligned | src/heap/spaces-inl.h:369-406 | the linear tier agrees with AlignedBump and keeps limit and everything else; later tiers ask for size plus the worst-case filler, register the whole block black, and align the object inside it; failure is a retry tagged with the space |
| PagedSpaces.PagedSpace.AllocateRaw | src/heap/spaces-inl.h:409-424 | a double-aligned request on a 32-bit host takes the aligned cascade, any other the unaligned one, and each keeps its guarantees: the linear tier per AlignedBump with limit kept; past it, the collaborators asked in order with `size` (or `size` plus the worst-case filler), the block inside the space, the object aligned inside the block, and the black area registered; a retry carries the space's identity |
| PagedSpaces.PagedSpace.TryFreeLast | src/heap/spaces-inl.h:175-184 | the undo succeeds exactly as FreeLast says and then sets top to the object; limit never changes |
| PagedSpaces.PagedSpace.Contains | src/heap/spaces-inl.h:145-147 | for an address past the header of a page with a header, containment is exactly that page being owned by the space; in a valid layout a contained address lies inside the chunk found for it |
| PagedSpaces.PagedSpace.ContainsObject | src/heap/spaces-inl.h:149-154 | only a heap-object pointer whose masked page is non-null and has a header can be contained |
| PagedSpaces.PagedSpace.ContainsOwnPageAddress | src/heap/spaces-inl.h:145-147 | an address past the header of one of the space's pages is contained |
| PagedSpaces.PagedSpace.LargeObjectNotContained | src/heap/spaces-inl.h:186-193 | an address inside a large-object chunk is found and is never contained in a paged space |
| PagedSpaces.PagedSpace.ContainsObjectAgreesOnPages | src/heap/spaces-inl.h:149-154 | for a pointer past the header of a page, the object test and the address test agree |
| PagedSpaces.PagedSpace.UnlinkFreeListCategories | src/heap/spaces-inl.h:156-162 | every category of the page leaves the free list; no sizes change |
| PagedSpaces.PagedSpace.RelinkFreeListCategories | src/heap/spaces-inl.h:164-173 | exactly the page's non-empty categories are linked back; the returned total is the bytes the page's categories hold |
| PagedSpaces.Page.InitializeFreeListCategories | src/heap/spaces-inl.h:139-143 | each of the page's unlinked categories is reset to its size class with no bytes; the linked set is unchanged |
| PagedSpaces.Page.MarkEvacuationCandidate | src/heap/spaces-inl.h:206-212 | a page never flagged never-evacuate gains the candidate flag, and its categories are evicted and emptied |
| PagedSpaces.Page.ClearEvacuationCandidate | src/heap/spaces-inl.h:214-221 | the candidate flag is cleared and the page's categories are reset |
| NewSpaces.SemiSpaceContainsSlow | src/heap/spaces-inl.h:106-111 | answers exactly whether the address's chunk is one of the semispace's pages |
| NewSpaces.ContainsAgreesWithSlow | src/heap/spaces-inl.h:96-111 | when the chunk flags match the page list, the flag test of a semispace agrees with the page walk |
| NewSpaces.NewSpace.EnsureAllocation | src/heap/spaces-inl.h:437-441 | when the hook succeeds the request fits at the new top with its filler; when it fails the window is unchanged |
| NewSpaces.NewSpace.AllocateRawAligned | src/heap/spaces-inl.h:431-459 | a request that fits is served from the current window; any object is bumped from its window per AlignedBump; a retry carries NEW_SPACE, leaves the window and happens only when the request did not fit |
| NewSpaces.NewSpace.AllocateRawUnaligned | src/heap/spaces-inl.h:462-480 | a request that fits returns the old top; any object sits at its window's top, which advances by the size; a retry carries NEW_SPACE and leaves the window |
| NewSpaces.NewSpace.AllocateRaw | src/heap/spaces-inl.h:483-492 | the 32-bit double-aligned request takes the aligned path, every other request the unaligned one, with the same guarantees |
| NewSpaces.SemiSpace.ContainsHeapObject | src/heap/spaces-inl.h:96-100 | an object in a semispace has a recorded chunk flagged as young generation |
| NewSpaces.SemiSpace.Contains | src/heap/spaces-inl.h:102-104 | only a heap-object pointer with a recorded chunk is in a semispace |
| NewSpaces.NewSpace.Contains | src/heap/spaces-inl.h:116-122 | the young space contains a value exactly when to-space or from-space does |
| NewSpaces.NewSpace.ToSpaceContains | src/heap/spaces-inl.h:136 | a value in to-space is in the young space |
| NewSpaces.NewSpace.FromSpaceContains | src/heap/spaces-inl.h:137 | a value in from-space is in the young space |
| NewSpaces.NewSpace.ContainsSlow | src/heap/spaces-inl.h:124-126 | answers exactly whether the chunk is a page of either semispace |
| NewSpaces.NewSpace.ToSpaceContainsSlow | src/heap/spaces-inl.h:128-130 | answers exactly whether the chunk is a to-space page |
| NewSpaces.NewSpace.FromSpaceContainsSlow | src/heap/spaces-inl.h:132-134 | answers exactly whether the chunk is a from-space page |
| NewSpaces.NewSpace.ContainsAgreesWithSlowTests | src/heap/spaces-inl.h:116-126 | with flags matching both page lists, the fast and slow young-space tests agree |
| LocalAllocationBuffers.LocalAllocationBuffer.InvalidBuffer | src/heap/spaces-inl.h:506-508 | the sentinel buffer has the null window and is not valid |
| LocalAllocationBuffers.LocalAllocationBuffer.FromResult | src/heap/spaces-inl.h:511-521 | a retry gives the null window; an allocation gives the window of `size` bytes starting at the object |
| LocalAllocationBuffers.LocalAllocationBuffer.AllocateRawAligned | src/heap/spaces-inl.h:295-310 | agrees with AlignedBump under the buffer's host word size; an exhausted buffer answers Retry(NEW_SPACE) and keeps its top; limit never changes |
| AllocationArea.AllocationInfo.Reset | src/heap/spaces-inl.h:527 | the window becomes exactly the given top and limit |
| LocalAllocationBuffers.LocalAllocationBuffer.TryMerge | src/heap/spaces-inl.h:524-531 | merges exactly when MergeWindows succeeds, taking the merged window; the absorbed buffer becomes null; nothing changes otherwise |
| LocalAllocationBuffers.LocalAllocationBuffer.TryFreeLast | src/heap/spaces-inl.h:533-542 | the undo succeeds exactly as FreeLast says, setting top to the object; limit never changes |
| LocalAllocationBuffers.ExhaustBuffer | src/heap/spaces-inl.h:295-310 | a 64-byte buffer serves two 24-byte objects, refuses the third with Retry(NEW_SPACE), and keeps its last 16 bytes |
| LocalAllocationBuffers.MergeAdjacent | src/heap/spaces-inl.h:524-531 | of two buffers carved back to back, the later absorbs the earlier, covers both, and leaves it invalid |
| HeapObjectIterators.JumpStep | src/heap/spaces-inl.h:72-75 | step lemma of the ghost walk: one unfolding at the top of a non-empty window, which resumes at limit and reports nothing in between |
| HeapObjectIterators.ObjectStep | src/heap/spaces-inl.h:76-88 | step lemma of the ghost walk: one unfolding over an object of positive size, reported unless it is a filler |
| HeapObjectIterators.ObjectsAreLive | src/heap/spaces-inl.h:70-91 | every reported object is a non-filler object starting inside the walked range |
| HeapObjectIterators.ObjectsIncrease | src/heap/spaces-inl.h:70-91 | objects are reported in strictly increasing address order |
| HeapObjectIterators.ObjectsAvoidWindow | src/heap/spaces-inl.h:72-75 | a walk not starting inside the unused window never reports an address in [top, limit) |
| HeapObjectIterators.AreasObjectsAreLive | src/heap/spaces-inl.h:62-68 | over a run of pages, every reported object is a non-filler object |
| HeapObjectIterators.HeapObjectIterator.FromCurrentPage | src/heap/spaces-inl.h:70-91 | returns the next object the page walk reports and removes it; returns none, with the page exhausted, when nothing is left |
| HeapObjectIterators.HeapObjectIterator.AdvanceToNextPage | src/heap/spaces-inl.h:66 | enters the next page's object area exactly when a page is left, keeping the remaining objects |
| HeapObjectIterators.HeapObjectIterator.Next | src/heap/spaces-inl.h:62-68 | returns the head of the remaining objects over all pages and leaves the tail; returns none when nothing is left |
| SemiSpaceIterators.HopStep | src/heap/spaces-inl.h:43-48 | step lemma of the ghost walk: an aligned address is the end of its page, whose page lookup gives that page, and the walk goes on at the next page's object area |
| SemiSpaceIterators.ObjectStep | src/heap/spaces-inl.h:50-54 | step lemma of the ghost walk: one unfolding over an object inside a page, reported unless it is a filler |
| SemiSpaceIterators.SemiObjectsAreLive | src/heap/spaces-inl.h:41-57 | every reported object is a non-filler object inside the object area of a to-space page |
| SemiSpaceIterators.SemiSpaceIterator.HopToNextPage | src/heap/spaces-inl.h:43-48 | following the page's link lands in the next page's object area, with the remaining objects unchanged |
| SemiSpaceIterators.SemiSpaceIterator.StepOverObject | src/heap/spaces-inl.h:50-51 | steps over one object, which heads the remaining objects unless it is a filler |
| SemiSpaceIterators.SemiSpaceIterator.Next | src/heap/spaces-inl.h:41-57 | returns the head of the remaining objects below the limit and leaves the tail; returns none when nothing is left |
| MemoryChunkIterators.MemoryChunkIterator.constructor | src/heap/spaces-inl.h:223-229 | the chunks to visit are old, then map, then code pages, then large chunks |
| MemoryChunkIterators.MemoryChunkIterator.Next | src/heap/spaces-inl.h:231-260 | returns the next chunk in visiting order and removes it; once nothing is left it returns none and is finished; the state never moves backwards |
| MemoryChunkIterators.MemoryChunkIterator.FromOldSpace | src/heap/spaces-inl.h:233-237 | an old-space page if one is left, otherwise the map-space case |
| MemoryChunkIterators.MemoryChunkIterator.FromMapSpace | src/heap/spaces-inl.h:238-242 | a map-space page if one is left, otherwise the code-space case |
| MemoryChunkIterators.MemoryChunkIterator.FromCodeSpace | src/heap/spaces-inl.h:243-248 | a code-space page if one is left, otherwise the large-object case |
| MemoryChunkIterators.MemoryChunkIterator.FromLargeObjectSpace | src/heap/spaces-inl.h:249-253 | a large chunk if one is left, otherwise none and finished |
| MemoryChunkIterators.Drain | src/heap/spaces-inl.h:231-260 | calling Next until none yields every remaining chunk in order and ends finished |

## Left out

- `PageIteratorImpl` and `PageRange` (`src/heap/spaces-inl.h:15-36`): a page
  list is a sequence in the model, and iterating it is taking its head.
- `FreeListCategory::page`, `owner` and `GetPageForCategoryType`
  (`src/heap/spaces-inl.h:262-275`): these are pointer navigation. A category
  holds its free list as a constant field, and a page holds its categories.
- The definitions of `FreeListCategory::Initialize`, `Reset` and `Relink`, and
  of `FreeList::AddCategory`, `RemoveCategory` and `EvictFreeListItems`:
  - `src/heap/spaces.cc` is not part of this model.
  - These are written from their use in `src/heap/spaces-inl.h`, as
    intrusive doubly linked lists per size class.
  - Free blocks inside a category are not modelled. A category holds only its
    byte count.
- The bodies of the collaborators are not part of this model:
  - `FreeList::Allocate`, `PagedSpace::SlowAllocateRaw` and
    `NewSpace::EnsureAllocation` are stand-ins that state only what the
    callers rely on. The stand-ins for the free list and the slow path return
    a block inside a page of the space and may install a new window.
    `EnsureAllocation` either makes the request fit or leaves the window alone.
  - `HeapObjectIterator::AdvanceToNextPage` is a stand-in that enters the next
    page. Waiting for the concurrent sweeper is not modelled.
- The synchronized variants (`src/heap/spaces-inl.h:361-365`, `495-499`): the
  mutex is concurrency.
- The allocation observers (`AllocationStep`), memory-sanitizer annotations
  and skip-list updates in the allocation paths: these are bookkeeping
  outside the allocation result.
- `LargeObjectSpace::Available` (`src/heap/spaces-inl.h:501-503`): it depends
  on the memory allocator, which is not part of this model.
- `Page::MarkNeverAllocateForTesting` (`src/heap/spaces-inl.h:199-204`): a
  testing hook.
- `DCHECK` assertions appear only where a requires states the caller's
  obligation. For example, `MarkEvacuationCandidate` requires that the page is
  not flagged never-evacuate.
- Black allocation is an input flag. The marker's state is not modelled.
- The host architecture is the constant `host32Bit` of each space and LAB.
- `Chunks.FromAllocationAreaAddress` subtracts the 32-bit pointer size (4
  bytes) before masking. A 64-bit host subtracts 8 bytes. The two agree on
  every address at least 8 bytes past a page base, and object-area addresses
  are all past the page header.
- `Globals.PrecedeWithFiller` computes only where the object starts after the
  filler. Writing the filler object into the heap
  (`src/heap/spaces-inl.h:303-306`) is not modelled, because the allocators
  report only addresses.
- `Chunks.HeapLayout.HasPageHeaderAt` reads a masked base with no recorded
  chunk as a region without a page header. The source reads the header flag
  from memory at that base (`src/heap/spaces-inl.h:186-193`). The model then
  falls back to the large-object lookup there, as the source does for a
  chunk without a page header.
- `PagedSpaces.Page.ClearEvacuationCandidate` requires that none of the page's
  categories is linked. The source does not check this. It holds there
  because `MarkEvacuationCandidate` evicted them when the flag was set
  (`src/heap/spaces-inl.h:206-221`), and `MarkEvacuationCandidate` ensures it.
- The categories the free list owns (its `Repr`) are a fixed set. Adding a
  page's categories to a free list is done outside this core.
- Addresses are unbounded: pointer overflow past the address space is not
  modelled.
- Fillers are not written into the object map by the allocation paths. The
  walkers take the object map as given, and the allocators report only
  addresses.
- The chunk header size is a parameter of the layout (`headerSize`), and a
  page's object area starts at a fixed offset (`areaOffset`).
- The semispace flip after a scavenge, and the to-space page list growing,
  are done by the collector and are outside this core.
- `NewSpaces.NewSpace.AllocateRawAligned`, `AllocateRawUnaligned` and
  `AllocateRaw` describe the window that served an object through a ghost
  out-parameter `from`, because the hook may replace the window. What the
  hook installs is not specified beyond the fit.
