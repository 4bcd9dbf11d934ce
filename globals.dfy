/**
 * Vocabulary shared by the allocation core: addresses, space identities,
 * alignments, allocation results, the heap's object layout and the
 * alignment-filler rule used by every bump allocator.
 */
module Globals {

  /** Addresses are unbounded naturals; address 0 is the null pointer. */
  type Address = nat

  const Null: Address := 0

  datatype Option<T> = None | Some(value: T)

  /** The identity of a space, as carried by a retry signal. */
  datatype AllocationSpace = NewSpaceId | OldSpaceId | CodeSpaceId | MapSpaceId | LoSpaceId

  datatype AllocationAlignment = WordAligned | DoubleAligned | DoubleUnaligned

  /**
   * The outcome of an allocation request: the address of the new object, or a
   * retry signal tagged with the space that could not satisfy the request.
   */
  datatype AllocationResult = Allocated(address: Address) | Retry(space: AllocationSpace)
  {
    predicate IsRetry() { Retry? }
  }

  /** A tagged value: a small integer or a pointer to a heap object. */
  datatype Object = Smi(value: int) | HeapObjectPointer(address: Address)
  {
    predicate IsHeapObject() { HeapObjectPointer? }
  }

  /** What the heap walkers may learn about an object: its size and whether it is a filler. */
  datatype HeapObjectInfo = HeapObjectInfo(size: nat, isFiller: bool)

  /** The object layout of the heap: the object that starts at each address. */
  type ObjectMap = map<Address, HeapObjectInfo>

  /** The size of a pointer on a 32-bit host and the size of a double. */
  const PointerSize: nat := 4
  const DoubleSize: nat := 8

  /** The size of a pointer on the host: 4 bytes on a 32-bit host, 8 on a 64-bit one. */
  function HostPointerSize(host32Bit: bool): (s: nat)
    ensures 0 < s <= DoubleSize && DoubleSize % s == 0
    ensures host32Bit <==> s == PointerSize
  {
    if host32Bit then PointerSize else DoubleSize
  }

  /**
   * The largest filler any pointer-aligned address can need for the
   * alignment: a double less a pointer, which is nothing on a 64-bit host.
   */
  function MaximumFillToAlign(alignment: AllocationAlignment, host32Bit: bool): (m: nat)
    ensures m < DoubleSize
    ensures m == 0 <==> alignment == WordAligned || !host32Bit
  {
    match alignment
    case WordAligned => 0
    case DoubleAligned => DoubleSize - HostPointerSize(host32Bit)
    case DoubleUnaligned => DoubleSize - HostPointerSize(host32Bit)
  }

  /**
   * The filler that must precede an object placed at `address` so that it
   * gets the requested alignment: a pointer to reach a double boundary, or a
   * double less a pointer to step off one.
   */
  function FillToAlign(address: Address, alignment: AllocationAlignment, host32Bit: bool): (fill: nat)
    ensures alignment == WordAligned ==> fill == 0
    ensures host32Bit ==> fill <= MaximumFillToAlign(alignment, host32Bit)
    ensures host32Bit && address % PointerSize == 0 && alignment == DoubleAligned ==>
              (address + fill) % DoubleSize == 0
    ensures host32Bit && address % PointerSize == 0 && alignment == DoubleUnaligned ==>
              (address + fill) % DoubleSize == PointerSize
    ensures !host32Bit && address % DoubleSize == 0 ==> fill == 0
  {
    if alignment == DoubleAligned && address % DoubleSize != 0 then HostPointerSize(host32Bit)
    else if alignment == DoubleUnaligned && address % DoubleSize == 0 then DoubleSize - HostPointerSize(host32Bit)
    else 0
  }

  /** The object that follows a filler of `fillerSize` bytes written at `address`. */
  function PrecedeWithFiller(address: Address, fillerSize: nat): Address
  {
    address + fillerSize
  }

  /**
   * The aligned object carved out of a block of `allocationSize` bytes that
   * was reserved with the worst-case filler; the fillers written before and
   * after the object keep the block walkable.
   */
  function AlignWithFiller(address: Address, objectSize: nat, allocationSize: nat,
                           alignment: AllocationAlignment, host32Bit: bool): (r: Address)
    requires allocationSize == objectSize + MaximumFillToAlign(alignment, host32Bit)
    requires host32Bit || address % DoubleSize == 0
    ensures address <= r && r + objectSize <= address + allocationSize
    ensures host32Bit && address % PointerSize == 0 && alignment == DoubleAligned ==> r % DoubleSize == 0
  {
    PrecedeWithFiller(address, FillToAlign(address, alignment, host32Bit))
  }
}
