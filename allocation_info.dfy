/**
 * The bump-pointer allocation window shared by paged spaces, the young
 * space and local allocation buffers, and the pure rules by which the
 * window hands out and takes back memory.
 */
module AllocationArea {
  import opened Globals

  /** The value of a window: [top, limit). */
  datatype Window = Window(top: Address, limit: Address)
  {
    /** The bytes still available in the window (none for an inverted window). */
    function Capacity(): nat { if top <= limit then limit - top else 0 }
  }

  /** A successful bump: where the object starts and where top lands after it. */
  datatype Bump = Bump(start: Address, newTop: Address)

  /**
   * Bump allocation of `size` bytes: a filler of FillToAlign(top) bytes
   * comes first, then the object; the request fails when the object would
   * end past the limit.
   */
  function AlignedBump(w: Window, size: nat, alignment: AllocationAlignment, host32Bit: bool): (r: Option<Bump>)
    ensures r.Some? <==> w.top + FillToAlign(w.top, alignment, host32Bit) + size <= w.limit
    ensures r.Some? ==> w.top <= r.value.start && r.value.start + size == r.value.newTop <= w.limit
    ensures r.Some? ==> r.value.start - w.top == FillToAlign(w.top, alignment, host32Bit)
    ensures r.Some? && alignment == WordAligned ==> r.value.start == w.top
    ensures r.Some? && host32Bit && w.top % PointerSize == 0 && alignment == DoubleAligned ==>
              r.value.start % DoubleSize == 0
    ensures r.Some? && !host32Bit && w.top % DoubleSize == 0 ==> r.value.start == w.top
  {
    var fill := FillToAlign(w.top, alignment, host32Bit);
    if w.top + fill + size > w.limit then None
    else Some(Bump(PrecedeWithFiller(w.top, fill), w.top + fill + size))
  }

  /**
   * Undo of the most recent allocation: only an object that ends exactly at
   * top can be given back, and only in a window with a non-null top; the new
   * top is the object's address.
   */
  function FreeLast(w: Window, address: Address, objectSize: nat): (r: Option<Address>)
    ensures r.Some? <==> w.top != Null && address + objectSize == w.top
    ensures r.Some? ==> r.value == address && r.value <= w.top
  {
    if w.top != Null && w.top - objectSize == address then Some(address) else None
  }

  /**
   * Merge of `other` into `w`: possible when `w` starts where `other` ends;
   * the merged window starts at other's top and keeps w's limit.
   */
  function MergeWindows(w: Window, other: Window): (r: Option<Window>)
    ensures r.Some? <==> w.top == other.limit
    ensures r.Some? ==> r.value.top == other.top && r.value.limit == w.limit
    ensures r.Some? && other.top <= other.limit && w.top <= w.limit ==>
              r.value.Capacity() == w.Capacity() + other.Capacity()
  {
    if w.top == other.limit then Some(Window(other.top, w.limit)) else None
  }

  /** An unaligned allocation followed by its undo gives back the window it started from. */
  lemma BumpThenFreeLastRestoresTop(w: Window, size: nat, host32Bit: bool)
    requires w.top != Null && AlignedBump(w, size, WordAligned, host32Bit).Some?
    ensures var b := AlignedBump(w, size, WordAligned, host32Bit).value;
            FreeLast(Window(b.newTop, w.limit), b.start, size) == Some(w.top)
  {
  }

  /**
   * After an aligned allocation that needed a filler, the undo stops at the
   * object: the filler stays in the window.
   */
  lemma AlignedBumpThenFreeLastKeepsFiller(w: Window, size: nat, alignment: AllocationAlignment, host32Bit: bool)
    requires w.top != Null && AlignedBump(w, size, alignment, host32Bit).Some?
    ensures var b := AlignedBump(w, size, alignment, host32Bit).value;
            FreeLast(Window(b.newTop, w.limit), b.start, size) ==
            Some(w.top + FillToAlign(w.top, alignment, host32Bit))
  {
  }

  /** Only the most recent of two allocations can be undone. */
  lemma FreeLastRefusesEarlierObject(w: Window, s1: nat, s2: nat, a1: AllocationAlignment, a2: AllocationAlignment,
                                     host32Bit: bool)
    requires s2 > 0 && AlignedBump(w, s1, a1, host32Bit).Some?
    requires AlignedBump(Window(AlignedBump(w, s1, a1, host32Bit).value.newTop, w.limit), s2, a2, host32Bit).Some?
    ensures var b1 := AlignedBump(w, s1, a1, host32Bit).value;
            var b2 := AlignedBump(Window(b1.newTop, w.limit), s2, a2, host32Bit).value;
            FreeLast(Window(b2.newTop, w.limit), b1.start, s1).None?
  {
  }

  /** Two successive allocations from one window never overlap, and top only grows. */
  lemma SuccessiveBumpsAreDisjoint(w: Window, s1: nat, s2: nat, a1: AllocationAlignment, a2: AllocationAlignment,
                                   host32Bit: bool)
    requires AlignedBump(w, s1, a1, host32Bit).Some?
    requires AlignedBump(Window(AlignedBump(w, s1, a1, host32Bit).value.newTop, w.limit), s2, a2, host32Bit).Some?
    ensures var b1 := AlignedBump(w, s1, a1, host32Bit).value;
            var b2 := AlignedBump(Window(b1.newTop, w.limit), s2, a2, host32Bit).value;
            w.top <= b1.start && b1.start + s1 <= b2.start && b2.newTop <= w.limit
  {
  }

  /**
   * The window [top, limit): allocation hands out the bytes at top and
   * advances it; the bytes in [top, limit) are reserved but not yet objects.
   * A window whose top is null is the null window.
   */
  class AllocationInfo {
    var top: Address
    var limit: Address

    ghost predicate Valid()
      reads this
    {
      top <= limit
    }

    /** The window as a value, for the window functions. */
    function Current(): Window
      reads this
    {
      Window(top, limit)
    }

    constructor (top: Address, limit: Address)
      ensures this.top == top && this.limit == limit
    {
      this.top := top;
      this.limit := limit;
    }

    method SetTop(top: Address)
      modifies this
      ensures this.top == top && limit == old(limit)
    {
      this.top := top;
    }

    method Reset(top: Address, limit: Address)
      modifies this
      ensures this.top == top && this.limit == limit
    {
      this.top := top;
      this.limit := limit;
    }
  }
}
