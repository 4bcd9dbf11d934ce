/**
 * Paged spaces (old, code and map space): bump allocation in the linear
 * window, the allocation cascade behind it, the undo of the last
 * allocation, containment, and the free-list bookkeeping of their pages.
 */
module PagedSpaces {
  import opened Globals
  import opened Chunks
  import opened AllocationArea
  import opened FreeLists

  /** A byte range that incremental marking treats as already marked, registered with its page. */
  datatype BlackArea = BlackArea(page: Address, start: Address, end: Address)

  /** The tier of the allocation cascade that produced an object (NoTier: all of them failed). */
  datatype Tier = LinearTier | FreeListTier | SlowPathTier | NoTier

  /** A request the cascade made of a collaborator, with the size it asked for. */
  datatype Call = FreeListAllocateCall(size: nat) | SlowAllocateRawCall(size: nat)

  datatype PageFlag = NeverEvacuate | EvacuationCandidate | CompactionWasAborted

  class PagedSpace {
    const identity: AllocationSpace
    /** Whether the host is a 32-bit one, which the build fixes. */
    const host32Bit: bool
    const allocationInfo: AllocationInfo
    const freeList: FreeList
    /** The bases of the space's pages. */
    var pages: set<Address>
    /** The black areas registered with the space's pages, oldest first. */
    var blackAreas: seq<BlackArea>
    /** The collaborators the cascade consulted, oldest first. */
    ghost var calls: seq<Call>

    constructor (identity: AllocationSpace, host32Bit: bool)
      ensures this.identity == identity && this.host32Bit == host32Bit
      ensures fresh(allocationInfo) && fresh(freeList)
      ensures allocationInfo.top == Null && allocationInfo.limit == Null
      ensures freeList.Valid() && freeList.Repr == {}
      ensures pages == {} && blackAreas == [] && calls == []
    {
      this.identity := identity;
      this.host32Bit := host32Bit;
      allocationInfo := new AllocationInfo(Null, Null);
      freeList := new FreeList();
      pages := {};
      blackAreas := [];
      calls := [];
    }

    /** A block of `size` bytes inside the object area of one of the space's pages. */
    predicate BlockInSpace(start: Address, size: nat)
      reads this
    {
      start % PageSize >= PointerSize && start % PageSize + size <= PageSize &&
      FromAddress(start) in pages
    }

    /**
     * Stand-in for the free list's allocation, which is defined elsewhere: it
     * either fails or returns a block of the requested size in the space,
     * and may install a new linear window.
     */
    method FreeListAllocate(size: nat) returns (r: Option<Address>)
      requires allocationInfo.Valid()
      modifies this`calls, allocationInfo
      ensures allocationInfo.Valid()
      ensures calls == old(calls) + [FreeListAllocateCall(size)]
      ensures r.Some? ==> BlockInSpace(r.value, size)
    {
      calls := calls + [FreeListAllocateCall(size)];
      var found: bool := *;
      var start: Address := *;
      if found && BlockInSpace(start, size) {
        r := Some(start);
      } else {
        r := None;
      }
      var top: Address, limit: Address := *, *;
      if top <= limit {
        allocationInfo.Reset(top, limit);
      }
    }

    /**
     * Stand-in for the slow path, which is defined elsewhere: it may add pages
     * to the space, and either fails or returns a block of the requested size
     * in the space.
     */
    method SlowAllocateRaw(size: nat) returns (r: Option<Address>)
      requires allocationInfo.Valid()
      modifies this`calls, this`pages, allocationInfo
      ensures allocationInfo.Valid() && old(pages) <= pages
      ensures calls == old(calls) + [SlowAllocateRawCall(size)]
      ensures r.Some? ==> BlockInSpace(r.value, size)
    {
      calls := calls + [SlowAllocateRawCall(size)];
      var grow: bool := *;
      var page: Address := *;
      if grow && page % PageSize == 0 && page != Null {
        pages := pages + {page};
      }
      var found: bool := *;
      var start: Address := *;
      if found && BlockInSpace(start, size) {
        r := Some(start);
      } else {
        r := None;
      }
      var top: Address, limit: Address := *, *;
      if top <= limit {
        allocationInfo.Reset(top, limit);
      }
    }

    /** Registers [start, end) as black with the page at `page`. */
    method CreateBlackArea(page: Address, start: Address, end: Address)
      modifies this`blackAreas
      ensures blackAreas == old(blackAreas) + [BlackArea(page, start, end)]
    {
      blackAreas := blackAreas + [BlackArea(page, start, end)];
    }

    /** Bump allocation in the linear window, without filler. */
    method AllocateLinearly(size: nat) returns (r: Option<Address>)
      modifies allocationInfo
      ensures r.Some? <==> old(allocationInfo.top) + size <= old(allocationInfo.limit)
      ensures var b := AlignedBump(old(allocationInfo.Current()), size, WordAligned, host32Bit);
              if b.Some?
              then r == Some(old(allocationInfo.top)) && allocationInfo.top == b.value.newTop
              else r.None? && allocationInfo.top == old(allocationInfo.top)
      ensures allocationInfo.limit == old(allocationInfo.limit)
    {
      var currentTop := allocationInfo.top;
      var newTop := currentTop + size;
      if newTop > allocationInfo.limit {
        return None;
      }
      allocationInfo.SetTop(newTop);
      return Some(currentTop);
    }

    /**
     * Bump allocation with the filler the alignment needs; on success the
     * reported allocation size includes the filler.
     */
    method AllocateLinearlyAligned(size: nat, alignment: AllocationAlignment)
      returns (r: Option<Address>, allocationSize: nat)
      modifies allocationInfo
      ensures var b := AlignedBump(old(allocationInfo.Current()), size, alignment, host32Bit);
              if b.Some?
              then r == Some(b.value.start) && allocationInfo.top == b.value.newTop &&
                   allocationSize == size + FillToAlign(old(allocationInfo.top), alignment, host32Bit)
              else r.None? && allocationInfo.top == old(allocationInfo.top) && allocationSize == size
      ensures allocationInfo.limit == old(allocationInfo.limit)
    {
      allocationSize := size;
      var currentTop := allocationInfo.top;
      var fillerSize := FillToAlign(currentTop, alignment, host32Bit);
      var newTop := currentTop + fillerSize + size;
      if newTop > allocationInfo.limit {
        return None, allocationSize;
      }
      allocationInfo.SetTop(newTop);
      if fillerSize > 0 {
        allocationSize := allocationSize + fillerSize;
        return Some(PrecedeWithFiller(currentTop, fillerSize)), allocationSize;
      }
      return Some(currentTop), allocationSize;
    }

    /**
     * The unaligned allocation cascade: the linear window, then the free
     * list, then the slow path, then a retry tagged with the space. Only an
     * object obtained past the linear window is registered as black, and only
     * while black allocation is on.
     */
    method AllocateRawUnaligned(size: nat, blackAllocation: bool) returns (r: AllocationResult, ghost tier: Tier)
      requires allocationInfo.Valid()
      modifies allocationInfo, this`calls, this`pages, this`blackAreas
      ensures allocationInfo.Valid() && old(pages) <= pages
      ensures tier == LinearTier <==> old(allocationInfo.top) + size <= old(allocationInfo.limit)
      ensures r.Allocated? <==> tier != NoTier
      ensures tier == NoTier ==> r == Retry(identity)
      ensures tier == LinearTier ==>
                r == Allocated(old(allocationInfo.top)) &&
                allocationInfo.top == old(allocationInfo.top) + size &&
                allocationInfo.limit == old(allocationInfo.limit) &&
                calls == old(calls) && blackAreas == old(blackAreas) && pages == old(pages)
      ensures tier == FreeListTier ==> calls == old(calls) + [FreeListAllocateCall(size)]
      ensures tier == SlowPathTier || tier == NoTier ==>
                calls == old(calls) + [FreeListAllocateCall(size), SlowAllocateRawCall(size)]
      ensures tier == FreeListTier || tier == SlowPathTier ==> BlockInSpace(r.address, size)
      ensures tier != LinearTier ==>
                blackAreas == old(blackAreas) +
                  if blackAllocation && r.Allocated?
                  then [BlackArea(FromAllocationAreaAddress(r.address), r.address, r.address + size)]
                  else []
      ensures forall k :: |old(blackAreas)| <= k < |blackAreas| ==> blackAreas[k].page in pages
    {
      var found := AllocateLinearly(size);
      tier := LinearTier;
      if found.None? {
        found := FreeListAllocate(size);
        tier := FreeListTier;
        if found.None? {
          found := SlowAllocateRaw(size);
          tier := SlowPathTier;
        }
        if found.Some? && blackAllocation {
          var start := found.value;
          var end := start + size;
          CreateBlackArea(FromAllocationAreaAddress(start), start, end);
        }
      }
      if found.Some? {
        return Allocated(found.value), tier;
      }
      tier := NoTier;
      return Retry(identity), tier;
    }

    /**
     * The aligned allocation cascade of old space. Past the linear window the
     * block is requested with the worst-case filler, registered as black whole
     * while black allocation is on, and the object is aligned inside it.
     */
    method AllocateRawAligned(size: nat, alignment: AllocationAlignment, blackAllocation: bool)
      returns (r: AllocationResult, ghost tier: Tier, ghost block: Address)
      requires identity == OldSpaceId
      requires allocationInfo.Valid()
      modifies allocationInfo, this`calls, this`pages, this`blackAreas
      ensures allocationInfo.Valid() && old(pages) <= pages
      ensures var b := AlignedBump(old(allocationInfo.Current()), size, alignment, host32Bit);
              (tier == LinearTier <==> b.Some?) &&
              (tier == LinearTier ==>
                 r == Allocated(b.value.start) && allocationInfo.top == b.value.newTop &&
                 allocationInfo.limit == old(allocationInfo.limit) &&
                 calls == old(calls) && blackAreas == old(blackAreas) && pages == old(pages))
      ensures r.Allocated? <==> tier != NoTier
      ensures tier == NoTier ==> r == Retry(identity)
      ensures var n := size + MaximumFillToAlign(alignment, host32Bit);
              (tier == FreeListTier ==> calls == old(calls) + [FreeListAllocateCall(n)]) &&
              (tier == SlowPathTier || tier == NoTier ==>
                 calls == old(calls) + [FreeListAllocateCall(n), SlowAllocateRawCall(n)])
      ensures tier == FreeListTier || tier == SlowPathTier ==>
                BlockInSpace(block, size + MaximumFillToAlign(alignment, host32Bit)) &&
                r == Allocated(if MaximumFillToAlign(alignment, host32Bit) != 0
                               then AlignWithFiller(block, size, size + MaximumFillToAlign(alignment, host32Bit), alignment, host32Bit)
                               else block) &&
                block <= r.address && r.address + size <= block + size + MaximumFillToAlign(alignment, host32Bit)
      ensures tier != LinearTier ==>
                blackAreas == old(blackAreas) +
                  if blackAllocation && r.Allocated?
                  then [BlackArea(FromAllocationAreaAddress(block), block, block + size + MaximumFillToAlign(alignment, host32Bit))]
                  else []
      ensures forall k :: |old(blackAreas)| <= k < |blackAreas| ==> blackAreas[k].page in pages
    {
      block := Null;
      var allocationSize := size;
      var found: Option<Address>;
      found, allocationSize := AllocateLinearlyAligned(allocationSize, alignment);
      tier := LinearTier;
      if found.None? {
        var fillerSize := MaximumFillToAlign(alignment, host32Bit);
        allocationSize := allocationSize + fillerSize;
        found := FreeListAllocate(allocationSize);
        tier := FreeListTier;
        if found.None? {
          found := SlowAllocateRaw(allocationSize);
          tier := SlowPathTier;
        }
        if found.Some? {
          block := found.value;
          if blackAllocation {
            var start := found.value;
            var end := found.value + allocationSize;
            CreateBlackArea(FromAllocationAreaAddress(start), start, end);
          }
          if fillerSize != 0 {
            found := Some(AlignWithFiller(found.value, size, allocationSize, alignment, host32Bit));
          }
        }
      }
      if found.Some? {
        return Allocated(found.value), tier, block;
      }
      tier := NoTier;
      return Retry(identity), tier, block;
    }

    /**
     * Allocation of `size` bytes: on a 32-bit host a double-aligned request
     * takes the aligned cascade, every other request the unaligned one.
     * `block` is the block the aligned cascade obtained past the linear window.
     */
    method AllocateRaw(size: nat, alignment: AllocationAlignment, blackAllocation: bool)
      returns (r: AllocationResult, ghost tier: Tier, ghost block: Address)
      requires host32Bit && alignment == DoubleAligned ==> identity == OldSpaceId
      requires allocationInfo.Valid()
      modifies allocationInfo, this`calls, this`pages, this`blackAreas
      ensures allocationInfo.Valid() && old(pages) <= pages
      ensures r.Allocated? <==> tier != NoTier
      ensures tier == NoTier ==> r == Retry(identity)
      ensures var used := if host32Bit && alignment == DoubleAligned then DoubleAligned else WordAligned;
              var b := AlignedBump(old(allocationInfo.Current()), size, used, host32Bit);
              (tier == LinearTier <==> b.Some?) &&
              (tier == LinearTier ==>
                 r == Allocated(b.value.start) && allocationInfo.top == b.value.newTop &&
                 allocationInfo.limit == old(allocationInfo.limit) &&
                 calls == old(calls) && blackAreas == old(blackAreas) && pages == old(pages))
      // The unaligned cascade: free list and slow path asked for `size` bytes.
      ensures !(host32Bit && alignment == DoubleAligned) ==>
                (tier == FreeListTier ==> calls == old(calls) + [FreeListAllocateCall(size)]) &&
                (tier == SlowPathTier || tier == NoTier ==>
                   calls == old(calls) + [FreeListAllocateCall(size), SlowAllocateRawCall(size)]) &&
                (tier == FreeListTier || tier == SlowPathTier ==> BlockInSpace(r.address, size)) &&
                (tier != LinearTier ==>
                   blackAreas == old(blackAreas) +
                     if blackAllocation && r.Allocated?
                     then [BlackArea(FromAllocationAreaAddress(r.address), r.address, r.address + size)]
                     else [])
      // The aligned cascade: a block with the worst-case filler, black as a whole, the object aligned inside.
      ensures host32Bit && alignment == DoubleAligned ==>
                var n := size + MaximumFillToAlign(DoubleAligned, host32Bit);
                (tier == FreeListTier ==> calls == old(calls) + [FreeListAllocateCall(n)]) &&
                (tier == SlowPathTier || tier == NoTier ==>
                   calls == old(calls) + [FreeListAllocateCall(n), SlowAllocateRawCall(n)]) &&
                (tier == FreeListTier || tier == SlowPathTier ==>
                   BlockInSpace(block, n) &&
                   r == Allocated(AlignWithFiller(block, size, n, DoubleAligned, host32Bit)) &&
                   block <= r.address && r.address + size <= block + n) &&
                (tier != LinearTier ==>
                   blackAreas == old(blackAreas) +
                     if blackAllocation && r.Allocated?
                     then [BlackArea(FromAllocationAreaAddress(block), block, block + n)]
                     else [])
      ensures forall k :: |old(blackAreas)| <= k < |blackAreas| ==> blackAreas[k].page in pages
    {
      block := Null;
      if host32Bit && alignment == DoubleAligned {
        r, tier, block := AllocateRawAligned(size, DoubleAligned, blackAllocation);
      } else {
        r, tier := AllocateRawUnaligned(size, blackAllocation);
      }
    }

    /** Gives back the most recent allocation of the linear window. */
    method TryFreeLast(address: Address, objectSize: nat) returns (freed: bool)
      modifies allocationInfo
      ensures freed == FreeLast(old(allocationInfo.Current()), address, objectSize).Some?
      ensures allocationInfo.top == if freed then address else old(allocationInfo.top)
      ensures allocationInfo.limit == old(allocationInfo.limit)
    {
      if allocationInfo.top != Null {
        var objectAddress := address;
        if allocationInfo.top - objectSize == objectAddress {
          allocationInfo.SetTop(objectAddress);
          return true;
        }
      }
      return false;
    }

    /**
     * Whether the chunk that the lookup finds for `addr` belongs to this
     * space. The lookup must find a chunk: the result is dereferenced.
     */
    function Contains(layout: HeapLayout, addr: Address): (r: bool)
      requires FromAnyPointerAddress(layout, addr).Some?
      ensures layout.HasPageHeaderAt(FromAddress(addr)) && addr - FromAddress(addr) >= layout.headerSize ==>
                (r <==> layout.chunks[FromAddress(addr)].owner == Some(identity))
      ensures r && layout.Valid() ==> layout.ChunkContains(FromAnyPointerAddress(layout, addr).value, addr)
    {
      var chunk := FromAnyPointerAddress(layout, addr).value;
      chunk in layout.chunks && layout.chunks[chunk].owner == Some(identity)
    }

    /**
     * Whether a tagged value points into this space: small integers do not,
     * nor do pointers whose masked chunk is null; a masked base without a
     * recorded header has no owner.
     */
    function ContainsObject(layout: HeapLayout, o: Object): (r: bool)
      ensures r ==> o.IsHeapObject() && FromAddress(o.address) != Null &&
                    layout.HasPageHeaderAt(FromAddress(o.address))
    {
      if !o.IsHeapObject() then false
      else
        var p := FromAddress(o.address);
        if p == Null then false
        else p in layout.chunks && layout.chunks[p].owner == Some(identity)
    }

    /** An address past the header of one of this space's pages is contained. */
    lemma ContainsOwnPageAddress(layout: HeapLayout, addr: Address)
      requires layout.HasPageHeaderAt(FromAddress(addr))
      requires layout.chunks[FromAddress(addr)].owner == Some(identity)
      requires addr - FromAddress(addr) >= layout.headerSize
      ensures FromAnyPointerAddress(layout, addr).Some? && Contains(layout, addr)
    {
    }

    /** An address inside a large object is never contained in a paged space. */
    lemma LargeObjectNotContained(layout: HeapLayout, base: Address, addr: Address)
      requires identity != LoSpaceId
      requires layout.Valid() && layout.LargePagesRegistered()
      requires layout.ChunkContains(base, addr) && layout.chunks[base].owner == Some(LoSpaceId)
      requires addr - base >= layout.headerSize
      requires forall other :: other in layout.chunks && other != base ==> !layout.ChunkContains(other, addr)
      ensures FromAnyPointerAddress(layout, addr).Some? && !Contains(layout, addr)
    {
      FromAnyPointerAddressFindsLargeChunk(layout, base, addr);
    }

    /** For a pointer past the header of a regular page the two containment tests agree. */
    lemma ContainsObjectAgreesOnPages(layout: HeapLayout, addr: Address)
      requires layout.Valid()
      requires layout.HasPageHeaderAt(FromAddress(addr))
      requires addr - FromAddress(addr) >= layout.headerSize
      ensures FromAnyPointerAddress(layout, addr).Some?
      ensures ContainsObject(layout, HeapObjectPointer(addr)) == Contains(layout, addr)
    {
    }

    /** Unlinks every category of the page from the free list. */
    method UnlinkFreeListCategories(page: Page)
      requires page.owner == this && page.Valid()
      modifies freeList, freeList.Repr
      ensures page.Valid() && freeList.Repr == old(freeList.Repr)
      ensures freeList.Linked() == old(freeList.Linked()) - Elements(page.categories)
      ensures freeList.Sizes() == old(freeList.Sizes())
    {
      var categories := page.categories;
      var i := 0;
      while i < |categories|
        invariant 0 <= i <= |categories|
        invariant freeList.Valid() && freeList.Repr == old(freeList.Repr)
        invariant freeList.Linked() == old(freeList.Linked()) - Elements(categories[..i])
        invariant freeList.Sizes() == old(freeList.Sizes())
      {
        PrefixStep(freeList.Sizes(), categories, i);
        freeList.RemoveCategory(categories[i]);
        i := i + 1;
      }
      assert categories[..i] == categories;
    }

    /**
     * Links every category of the page back into the free list and returns
     * the bytes they hold; empty categories stay unlinked.
     */
    method RelinkFreeListCategories(page: Page) returns (added: nat)
      requires page.owner == this && page.Valid()
      requires Elements(page.categories) !! freeList.Linked()
      modifies freeList, freeList.Repr
      ensures page.Valid() && freeList.Repr == old(freeList.Repr)
      ensures added == SumAvailable(old(freeList.Sizes()), page.categories)
      ensures freeList.Linked() == old(freeList.Linked()) + NonEmpty(old(freeList.Sizes()), page.categories)
      ensures freeList.Sizes() == old(freeList.Sizes())
    {
      var categories := page.categories;
      ghost var sizes := freeList.Sizes();
      added := 0;
      var i := 0;
      while i < |categories|
        invariant 0 <= i <= |categories|
        invariant freeList.Valid() && freeList.Repr == old(freeList.Repr)
        invariant freeList.Sizes() == sizes
        invariant added == SumAvailable(sizes, categories[..i])
        invariant freeList.Linked() == old(freeList.Linked()) + NonEmpty(sizes, categories[..i])
      {
        var c := categories[i];
        PrefixStep(sizes, categories, i);
        assert c.available == sizes[c].available;
        added := added + c.available;
        c.Relink();
        i := i + 1;
      }
      assert categories[..i] == categories;
    }
  }

  /** A page of a paged space, with its slice of the space's free list. */
  class Page {
    const base: Address
    const owner: PagedSpace
    /** One category per size class, in size-class order. */
    const categories: seq<FreeListCategory>
    var flags: set<PageFlag>

    constructor (base: Address, owner: PagedSpace, categories: seq<FreeListCategory>)
      ensures this.base == base && this.owner == owner && this.categories == categories
      ensures flags == {}
    {
      this.base := base;
      this.owner := owner;
      this.categories := categories;
      flags := {};
    }

    ghost predicate Valid()
      reads owner.freeList, owner.freeList.Repr
    {
      owner.freeList.Valid() &&
      |categories| == NumberOfCategories && Distinct(categories) &&
      forall i :: 0 <= i < |categories| ==> categories[i] in owner.freeList.Repr
    }

    /**
     * Resets every category to its size class with no bytes. The categories
     * must be unlinked: resetting a linked one would leave its neighbours
     * pointing at it.
     */
    method InitializeFreeListCategories()
      requires Valid() && Elements(categories) !! owner.freeList.Linked()
      modifies owner.freeList.Repr
      ensures Valid() && owner.freeList.Linked() == old(owner.freeList.Linked())
      ensures owner.freeList.Sizes() == Initialized(old(owner.freeList.Sizes()), categories, NumberOfCategories)
    {
      var i := FirstCategory;
      while i < NumberOfCategories
        invariant FirstCategory <= i <= NumberOfCategories
        invariant Valid() && owner.freeList.Linked() == old(owner.freeList.Linked())
        invariant owner.freeList.Sizes() == Initialized(old(owner.freeList.Sizes()), categories, i)
      {
        PrefixStep(owner.freeList.Sizes(), categories, i);
        categories[i].Initialize(i);
        i := i + 1;
      }
    }

    /** Flags the page for evacuation and evicts its categories from the free list. */
    method MarkEvacuationCandidate()
      requires Valid() && NeverEvacuate !in flags
      modifies this`flags, owner.freeList, owner.freeList.Repr
      ensures Valid() && flags == old(flags) + {EvacuationCandidate}
      ensures owner.freeList.Repr == old(owner.freeList.Repr)
      ensures owner.freeList.Linked() == old(owner.freeList.Linked()) - Elements(categories)
      ensures owner.freeList.Sizes() == Emptied(old(owner.freeList.Sizes()), Elements(categories))
    {
      flags := flags + {EvacuationCandidate};
      var _ := owner.freeList.EvictFreeListItems(categories);
    }

    /** Clears the evacuation flag and resets the page's categories. */
    method ClearEvacuationCandidate()
      requires Valid() && Elements(categories) !! owner.freeList.Linked()
      modifies this`flags, owner.freeList.Repr
      ensures Valid() && flags == old(flags) - {EvacuationCandidate}
      ensures owner.freeList.Linked() == old(owner.freeList.Linked())
      ensures owner.freeList.Sizes() == Initialized(old(owner.freeList.Sizes()), categories, NumberOfCategories)
    {
      flags := flags - {EvacuationCandidate};
      InitializeFreeListCategories();
    }
  }
}
