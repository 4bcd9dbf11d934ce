/**
 * The young generation: a pair of semispaces with bump allocation in the
 * to-space and the containment tests that tell the two semispaces apart.
 */
module NewSpaces {
  import opened Globals
  import opened Chunks
  import opened AllocationArea

  datatype SemiSpaceId = FromSpace | ToSpace

  /** One semispace: its role and the bases of its pages, in list order. */
  datatype SemiSpace = SemiSpace(id: SemiSpaceId, pages: seq<Address>)
  {
    /**
     * Whether the object at `address` is in this semispace, read from the
     * flags of its chunk; a chunk without a recorded header has no flags.
     */
    predicate ContainsHeapObject(layout: HeapLayout, address: Address): (r: bool)
      ensures r ==>
                FromAddress(address) in layout.chunks && layout.chunks[FromAddress(address)].InNewSpace()
    {
      var chunk := FromAddress(address);
      chunk in layout.chunks &&
      if id == ToSpace then layout.chunks[chunk].InToSpace() else layout.chunks[chunk].InFromSpace()
    }

    /** Small integers are in no semispace. */
    predicate Contains(layout: HeapLayout, o: Object): (r: bool)
      ensures r ==> o.IsHeapObject() && FromAddress(o.address) in layout.chunks
    {
      o.IsHeapObject() && ContainsHeapObject(layout, o.address)
    }

    /**
     * The chunk flags agree with the page list: every page of the semispace
     * has a header that carries the semispace's flag, and no other chunk does.
     */
    ghost predicate FlagsMatchPages(layout: HeapLayout)
    {
      var flag := if id == ToSpace then InToSpaceFlag else InFromSpaceFlag;
      (forall p :: p in pages ==> p in layout.chunks && flag in layout.chunks[p].flags) &&
      (forall base :: base in layout.chunks && flag in layout.chunks[base].flags ==> base in pages)
    }
  }

  /** Looks for the chunk of `a` among the pages of the semispace, one page at a time. */
  method SemiSpaceContainsSlow(space: SemiSpace, a: Address) returns (r: bool)
    ensures r <==> FromAddress(a) in space.pages
  {
    var chunk := FromAddress(a);
    var i := 0;
    while i < |space.pages|
      invariant 0 <= i <= |space.pages|
      invariant chunk !in space.pages[..i]
    {
      if space.pages[i] == chunk {
        return true;
      }
      assert space.pages[..i + 1] == space.pages[..i] + [space.pages[i]];
      i := i + 1;
    }
    assert space.pages[..i] == space.pages;
    return false;
  }

  /** When the flags match the page list, the flag test and the page walk agree. */
  lemma ContainsAgreesWithSlow(layout: HeapLayout, space: SemiSpace, a: Address)
    requires space.FlagsMatchPages(layout)
    ensures space.ContainsHeapObject(layout, a) <==> FromAddress(a) in space.pages
  {
  }

  class NewSpace {
    /** Whether the host is a 32-bit one, which the build fixes. */
    const host32Bit: bool
    const allocationInfo: AllocationInfo
    const toSpace: SemiSpace
    const fromSpace: SemiSpace

    ghost predicate Valid()
      reads allocationInfo
    {
      allocationInfo.Valid() && toSpace.id == ToSpace && fromSpace.id == FromSpace
    }

    constructor (host32Bit: bool, toPages: seq<Address>, fromPages: seq<Address>, top: Address, limit: Address)
      requires top <= limit
      ensures Valid() && this.host32Bit == host32Bit && fresh(allocationInfo)
      ensures allocationInfo.Current() == Window(top, limit)
      ensures toSpace.pages == toPages && fromSpace.pages == fromPages
    {
      this.host32Bit := host32Bit;
      allocationInfo := new AllocationInfo(top, limit);
      toSpace := SemiSpace(ToSpace, toPages);
      fromSpace := SemiSpace(FromSpace, fromPages);
    }

    /**
     * Stand-in for the generational policy's hook, which is defined
     * elsewhere: it either makes room, so that the request fits at the new top
     * with its filler, or fails and leaves the window alone.
     */
    method EnsureAllocation(size: nat, alignment: AllocationAlignment) returns (ok: bool)
      requires Valid()
      modifies allocationInfo
      ensures Valid()
      ensures ok ==> AlignedBump(allocationInfo.Current(), size, alignment, host32Bit).Some?
      ensures !ok ==> allocationInfo.Current() == old(allocationInfo.Current())
    {
      var grow: bool := *;
      var top: Address, limit: Address := *, *;
      if grow && top + FillToAlign(top, alignment, host32Bit) + size <= limit {
        allocationInfo.Reset(top, limit);
        return true;
      }
      return false;
    }

    /**
     * Aligned bump allocation in to-space. When the request does not fit, the
     * hook is asked for room; if it fails the result is a retry, otherwise the
     * object is placed at the refreshed top. `from` is the window the object
     * was carved from.
     */
    method AllocateRawAligned(size: nat, alignment: AllocationAlignment)
      returns (r: AllocationResult, ghost from: Window)
      requires Valid()
      modifies allocationInfo
      ensures Valid()
      ensures AlignedBump(old(allocationInfo.Current()), size, alignment, host32Bit).Some? ==>
                r.Allocated? && from == old(allocationInfo.Current())
      ensures r.Allocated? ==>
                var b := AlignedBump(from, size, alignment, host32Bit);
                b.Some? && r.address == b.value.start &&
                allocationInfo.Current() == Window(b.value.newTop, from.limit)
      ensures r.Retry? ==>
                r == Retry(NewSpaceId) && allocationInfo.Current() == old(allocationInfo.Current()) &&
                AlignedBump(old(allocationInfo.Current()), size, alignment, host32Bit).None?
    {
      var top := allocationInfo.top;
      var fillerSize := FillToAlign(top, alignment, host32Bit);
      var alignedSize := size + fillerSize;
      if allocationInfo.limit - top < alignedSize {
        var ok := EnsureAllocation(size, alignment);
        if !ok {
          return Retry(NewSpaceId), allocationInfo.Current();
        }
        top := allocationInfo.top;
        fillerSize := FillToAlign(top, alignment, host32Bit);
        alignedSize := size + fillerSize;
      }
      from := allocationInfo.Current();
      var obj := top;
      allocationInfo.SetTop(top + alignedSize);
      if fillerSize > 0 {
        obj := PrecedeWithFiller(obj, fillerSize);
      }
      return Allocated(obj), from;
    }

    /** Unaligned bump allocation in to-space, with the same fallback to the hook. */
    method AllocateRawUnaligned(size: nat) returns (r: AllocationResult, ghost from: Window)
      requires Valid()
      modifies allocationInfo
      ensures Valid()
      ensures old(allocationInfo.top) + size <= old(allocationInfo.limit) ==>
                r == Allocated(old(allocationInfo.top)) && from == old(allocationInfo.Current())
      ensures r.Allocated? ==>
                from.top + size <= from.limit && r.address == from.top &&
                allocationInfo.Current() == Window(from.top + size, from.limit)
      ensures r.Retry? ==>
                r == Retry(NewSpaceId) && allocationInfo.Current() == old(allocationInfo.Current()) &&
                old(allocationInfo.top) + size > old(allocationInfo.limit)
    {
      var top := allocationInfo.top;
      if allocationInfo.limit < top + size {
        var ok := EnsureAllocation(size, WordAligned);
        if !ok {
          return Retry(NewSpaceId), allocationInfo.Current();
        }
        top := allocationInfo.top;
      }
      from := allocationInfo.Current();
      var obj := top;
      allocationInfo.SetTop(top + size);
      return Allocated(obj), from;
    }

    /** On a 32-bit host a double-aligned request takes the aligned path, every other the unaligned one. */
    method AllocateRaw(size: nat, alignment: AllocationAlignment)
      returns (r: AllocationResult, ghost from: Window)
      requires Valid()
      modifies allocationInfo
      ensures Valid()
      ensures var used := if host32Bit && alignment == DoubleAligned then DoubleAligned else WordAligned;
              (AlignedBump(old(allocationInfo.Current()), size, used, host32Bit).Some? ==>
                 r.Allocated? && from == old(allocationInfo.Current())) &&
              (r.Allocated? ==>
                 var b := AlignedBump(from, size, used, host32Bit);
                 b.Some? && r.address == b.value.start &&
                 allocationInfo.Current() == Window(b.value.newTop, from.limit))
      ensures r.Retry? ==> r == Retry(NewSpaceId) && allocationInfo.Current() == old(allocationInfo.Current())
    {
      if host32Bit && alignment == DoubleAligned {
        r, from := AllocateRawAligned(size, DoubleAligned);
      } else {
        r, from := AllocateRawUnaligned(size);
      }
    }

    /**
     * Whether a tagged value points into the young generation, read from its
     * chunk's flags: exactly when it is in one of the two semispaces.
     */
    predicate Contains(layout: HeapLayout, o: Object): (r: bool)
      ensures toSpace.id == ToSpace && fromSpace.id == FromSpace ==>
                (r <==> toSpace.Contains(layout, o) || fromSpace.Contains(layout, o))
    {
      o.IsHeapObject() &&
      var chunk := FromAddress(o.address);
      chunk in layout.chunks && layout.chunks[chunk].InNewSpace()
    }

    /** A value in to-space is in the young generation. */
    predicate ToSpaceContains(layout: HeapLayout, o: Object): (r: bool)
      ensures r ==> Contains(layout, o)
    {
      toSpace.Contains(layout, o)
    }

    /** A value in from-space is in the young generation. */
    predicate FromSpaceContains(layout: HeapLayout, o: Object): (r: bool)
      ensures r ==> Contains(layout, o)
    {
      fromSpace.Contains(layout, o)
    }

    method ContainsSlow(a: Address) returns (r: bool)
      ensures r <==> FromAddress(a) in fromSpace.pages || FromAddress(a) in toSpace.pages
    {
      r := SemiSpaceContainsSlow(fromSpace, a);
      if !r {
        r := SemiSpaceContainsSlow(toSpace, a);
      }
    }

    method ToSpaceContainsSlow(a: Address) returns (r: bool)
      ensures r <==> FromAddress(a) in toSpace.pages
    {
      r := SemiSpaceContainsSlow(toSpace, a);
    }

    method FromSpaceContainsSlow(a: Address) returns (r: bool)
      ensures r <==> FromAddress(a) in fromSpace.pages
    {
      r := SemiSpaceContainsSlow(fromSpace, a);
    }

    /** With flags that match the page lists, the fast and the slow young-space tests agree. */
    lemma ContainsAgreesWithSlowTests(layout: HeapLayout, a: Address)
      requires toSpace.id == ToSpace && fromSpace.id == FromSpace
      requires toSpace.FlagsMatchPages(layout) && fromSpace.FlagsMatchPages(layout)
      ensures Contains(layout, HeapObjectPointer(a)) <==>
              FromAddress(a) in fromSpace.pages || FromAddress(a) in toSpace.pages
    {
      ContainsAgreesWithSlow(layout, toSpace, a);
      ContainsAgreesWithSlow(layout, fromSpace, a);
    }
  }
}
