/**
 * Local allocation buffers: private bump windows carved out of a space's
 * allocation, with merging of adjacent buffers and undo of the last object.
 */
module LocalAllocationBuffers {
  import opened Globals
  import opened AllocationArea

  class LocalAllocationBuffer {
    /**
     * Whether the host is a 32-bit one, which the build fixes. A buffer
     * allocates with fillers on every host, so the word size decides them.
     */
    const host32Bit: bool
    const allocationInfo: AllocationInfo

    /** The sentinel buffer: a null window, from which nothing can be allocated. */
    constructor InvalidBuffer(host32Bit: bool)
      ensures this.host32Bit == host32Bit
      ensures fresh(allocationInfo) && allocationInfo.Current() == Window(Null, Null)
      ensures !IsValid()
    {
      this.host32Bit := host32Bit;
      allocationInfo := new AllocationInfo(Null, Null);
    }

    /**
     * A buffer over the `size` bytes that a space handed out at the start of
     * `result`; a retry gives the invalid buffer.
     */
    constructor FromResult(host32Bit: bool, result: AllocationResult, size: nat)
      ensures this.host32Bit == host32Bit && fresh(allocationInfo)
      ensures result.Retry? ==> allocationInfo.Current() == Window(Null, Null)
      ensures result.Allocated? ==>
                allocationInfo.Current() == Window(result.address, result.address + size)
      ensures allocationInfo.Valid()
    {
      this.host32Bit := host32Bit;
      if result.IsRetry() {
        allocationInfo := new AllocationInfo(Null, Null);
      } else {
        var top := result.address;
        allocationInfo := new AllocationInfo(top, top + size);
      }
    }

    predicate IsValid()
      reads allocationInfo
    {
      allocationInfo.top != Null
    }

    /**
     * Aligned bump allocation inside the buffer. An exhausted buffer answers
     * with a retry for the young space and its window stays as it was.
     */
    method AllocateRawAligned(size: nat, alignment: AllocationAlignment) returns (r: AllocationResult)
      modifies allocationInfo
      ensures var b := AlignedBump(old(allocationInfo.Current()), size, alignment, host32Bit);
              if b.Some? then
                r == Allocated(b.value.start) && allocationInfo.top == b.value.newTop
              else
                r == Retry(NewSpaceId) && allocationInfo.top == old(allocationInfo.top)
      ensures allocationInfo.limit == old(allocationInfo.limit)
    {
      var currentTop := allocationInfo.top;
      var fillerSize := FillToAlign(currentTop, alignment, host32Bit);
      var newTop := currentTop + fillerSize + size;
      if newTop > allocationInfo.limit {
        return Retry(NewSpaceId);
      }
      allocationInfo.SetTop(newTop);
      if fillerSize > 0 {
        return Allocated(PrecedeWithFiller(currentTop, fillerSize));
      }
      return Allocated(currentTop);
    }

    /**
     * Absorbs `other` when this buffer starts where `other` ends: this buffer
     * then starts at other's top and `other` becomes the null window. A buffer
     * merged with itself ends up null.
     */
    method TryMerge(other: LocalAllocationBuffer) returns (merged: bool)
      modifies allocationInfo, other.allocationInfo
      ensures var m := MergeWindows(old(allocationInfo.Current()), old(other.allocationInfo.Current()));
              merged == m.Some? &&
              (merged && other.allocationInfo != allocationInfo ==>
                 allocationInfo.Current() == m.value) &&
              (merged ==> other.allocationInfo.Current() == Window(Null, Null))
      ensures !merged ==>
                allocationInfo.Current() == old(allocationInfo.Current()) &&
                other.allocationInfo.Current() == old(other.allocationInfo.Current())
    {
      if allocationInfo.top == other.allocationInfo.limit {
        allocationInfo.SetTop(other.allocationInfo.top);
        other.allocationInfo.Reset(Null, Null);
        return true;
      }
      return false;
    }

    /** Gives back the object that ends at top, only in a valid buffer. */
    method TryFreeLast(address: Address, objectSize: nat) returns (freed: bool)
      modifies allocationInfo
      ensures var f := FreeLast(old(allocationInfo.Current()), address, objectSize);
              freed == f.Some? &&
              allocationInfo.top == (if freed then f.value else old(allocationInfo.top))
      ensures allocationInfo.limit == old(allocationInfo.limit)
    {
      if IsValid() {
        var objectAddress := address;
        if allocationInfo.top - objectSize == objectAddress {
          allocationInfo.SetTop(objectAddress);
          return true;
        }
      }
      return false;
    }
  }

  /**
   * A 64-byte buffer holds two 24-byte objects; the third request fails in
   * the buffer itself, which stays usable up to its limit.
   */
  method ExhaustBuffer(host32Bit: bool, start: Address) returns (lab: LocalAllocationBuffer, third: AllocationResult)
    requires start != Null
    ensures fresh(lab.allocationInfo)
    ensures third == Retry(NewSpaceId)
    ensures lab.allocationInfo.Current() == Window(start + 48, start + 64)
  {
    lab := new LocalAllocationBuffer.FromResult(host32Bit, Allocated(start), 64);
    var first := lab.AllocateRawAligned(24, WordAligned);
    assert first == Allocated(start);
    var second := lab.AllocateRawAligned(24, WordAligned);
    assert second == Allocated(start + 24);
    third := lab.AllocateRawAligned(24, WordAligned);
  }

  /**
   * Two buffers carved one after the other merge when the later one absorbs
   * the earlier: it then starts at the earlier one's top and the earlier one
   * is invalid.
   */
  method MergeAdjacent(host32Bit: bool, start: Address, size1: nat, size2: nat)
    returns (x: LocalAllocationBuffer, y: LocalAllocationBuffer, merged: bool)
    requires start != Null
    ensures merged && !y.IsValid()
    ensures x.allocationInfo.Current() == Window(start, start + size1 + size2)
  {
    y := new LocalAllocationBuffer.FromResult(host32Bit, Allocated(start), size1);
    x := new LocalAllocationBuffer.FromResult(host32Bit, Allocated(start + size1), size2);
    merged := x.TryMerge(y);
  }
}
