/**
 * Chunk addressing: every chunk starts on an alignment boundary and begins
 * with its header, so the chunk of an interior address is found by masking;
 * large-object chunks are found through the large-object space's page map.
 */
module Chunks {
  import opened Globals

  /** The alignment unit of chunks and the size of a regular page (2^19 bytes). */
  const PageSize: nat := 0x80000

  /** The chunk base of an address: the address rounded down to the alignment unit. */
  function FromAddress(a: Address): (base: Address)
    ensures base % PageSize == 0
    ensures base <= a < base + PageSize
  {
    a - a % PageSize
  }

  /** An address is aligned exactly when it is its own chunk base. */
  predicate IsAlignedToPageSize(a: Address): (r: bool)
    ensures r <==> FromAddress(a) == a
  {
    a % PageSize == 0
  }

  /**
   * The page of an allocation-area address. An area may end exactly on the
   * next alignment boundary, so the address one word lower is masked: an
   * aligned address belongs to the page that ends there.
   */
  function FromAllocationAreaAddress(a: Address): (base: Address)
    requires a >= PointerSize
    ensures base % PageSize == 0
    ensures IsAlignedToPageSize(a) ==> base + PageSize == a
    ensures a % PageSize >= PointerSize ==> base == FromAddress(a)
  {
    FromAddress(a - PointerSize)
  }

  /** The chunk flags that tell the two semispaces apart. */
  datatype ChunkFlag = InFromSpaceFlag | InToSpaceFlag

  /**
   * A chunk header: the owning space (none for a region without a page
   * header), the reserved size and the semispace flags.
   */
  datatype ChunkHeader = ChunkHeader(owner: Option<AllocationSpace>, size: nat, flags: set<ChunkFlag>)
  {
    predicate HasPageHeader() { owner.Some? }

    predicate InToSpace() { InToSpaceFlag in flags }

    predicate InFromSpace() { InFromSpaceFlag in flags }

    predicate InNewSpace() { InFromSpaceFlag in flags || InToSpaceFlag in flags }
  }

  /**
   * What addressing can see of the heap: the headers found at chunk bases,
   * the large-object space's map from alignment-unit index to large chunk,
   * and the size of a chunk header.
   */
  datatype HeapLayout = HeapLayout(chunks: map<Address, ChunkHeader>,
                                   largePages: map<nat, Address>,
                                   headerSize: nat)
  {
    /** A base without a recorded header reads as a region without a page header. */
    predicate HasPageHeaderAt(base: Address)
    {
      base in chunks && chunks[base].HasPageHeader()
    }

    predicate ChunkContains(base: Address, a: Address)
    {
      base in chunks && base <= a < base + chunks[base].size
    }

    /** Every chunk lies on an alignment boundary and spans at least one alignment unit. */
    ghost predicate Valid()
    {
      0 < headerSize < PageSize &&
      forall base :: base in chunks ==>
        base % PageSize == 0 && base != Null && PageSize <= chunks[base].size
    }

    /** Every alignment unit covered by a large chunk is registered in the page map. */
    ghost predicate LargePagesRegistered()
    {
      forall base, key :: base in chunks && chunks[base].owner == Some(LoSpaceId) &&
                          base / PageSize <= key <= (base + chunks[base].size - 1) / PageSize ==>
                          key in largePages && largePages[key] == base
    }
  }

  /** The large chunk that contains `a`, looked up through the page map. */
  function FindPageThreadSafe(layout: HeapLayout, a: Address): (r: Option<Address>)
    ensures r.Some? ==> layout.ChunkContains(r.value, a)
  {
    var key := a / PageSize;
    if key in layout.largePages && layout.ChunkContains(layout.largePages[key], a)
    then Some(layout.largePages[key])
    else None
  }

  lemma FindPageFindsLargeChunk(layout: HeapLayout, base: Address, a: Address)
    requires layout.Valid() && layout.LargePagesRegistered()
    requires layout.ChunkContains(base, a) && layout.chunks[base].owner == Some(LoSpaceId)
    ensures FindPageThreadSafe(layout, a) == Some(base)
  {
    var last := base + layout.chunks[base].size - 1;
    DivMonotone(base, a);
    DivMonotone(a, last);
  }

  lemma DivMonotone(x: nat, y: nat)
    requires x <= y
    ensures x / PageSize <= y / PageSize
  {
  }

  /**
   * The chunk of any address inside the heap: masking, unless the address
   * falls inside the header area or the masked base carries no page header,
   * in which case the large-object space is asked.
   */
  function FromAnyPointerAddress(layout: HeapLayout, addr: Address): (r: Option<Address>)
    ensures layout.HasPageHeaderAt(FromAddress(addr)) && addr - FromAddress(addr) >= layout.headerSize
            ==> r == Some(FromAddress(addr))
    ensures r.Some? && r.value != FromAddress(addr) ==> layout.ChunkContains(r.value, addr)
  {
    var chunk := FromAddress(addr);
    var offset := addr - chunk;
    if offset < layout.headerSize || !layout.HasPageHeaderAt(chunk)
    then FindPageThreadSafe(layout, addr)
    else Some(chunk)
  }

  /** Whatever chunk the lookup returns holds a header and contains the address. */
  lemma FromAnyPointerAddressContains(layout: HeapLayout, addr: Address)
    requires layout.Valid()
    ensures var r := FromAnyPointerAddress(layout, addr);
            r.Some? ==> r.value in layout.chunks && layout.ChunkContains(r.value, addr)
  {
  }

  /** An address inside a large chunk, past its header, is found in that chunk. */
  lemma FromAnyPointerAddressFindsLargeChunk(layout: HeapLayout, base: Address, addr: Address)
    requires layout.Valid() && layout.LargePagesRegistered()
    requires layout.ChunkContains(base, addr) && layout.chunks[base].owner == Some(LoSpaceId)
    requires addr - base >= layout.headerSize
    requires forall other :: other in layout.chunks && other != base ==> !layout.ChunkContains(other, addr)
    ensures FromAnyPointerAddress(layout, addr) == Some(base)
  {
    FindPageFindsLargeChunk(layout, base, addr);
    var chunk := FromAddress(addr);
    if layout.HasPageHeaderAt(chunk) && addr - chunk >= layout.headerSize {
      assert layout.ChunkContains(chunk, addr);
    }
  }
}
