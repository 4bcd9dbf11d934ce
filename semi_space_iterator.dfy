/**
 * The object walker of the young space: it visits the objects of the
 * to-space from its bottom up to a limit, hopping from the end of each page
 * to the object area of the next one.
 */
module SemiSpaceIterators {
  import opened Globals
  import opened Chunks

  function PagesLeft(pages: seq<Address>, k: nat): nat
  {
    if k <= |pages| then |pages| - k else 0
  }

  /** The bytes left on page k above `current`. */
  function Slack(pages: seq<Address>, k: nat, current: Address): nat
  {
    if k < |pages| && current <= pages[k] + PageSize then pages[k] + PageSize - current else 0
  }

  /**
   * The walk from `current`, on page `k` of `pages`, to `limit` can be made:
   * objects with positive sizes that end within their page, and a hop from
   * the end of a page to the object area of the next page.
   */
  ghost predicate SemiWalkable(objects: ObjectMap, pages: seq<Address>, areaOffset: nat,
                               k: nat, current: Address, limit: Address)
    decreases PagesLeft(pages, k), Slack(pages, k, current)
  {
    if current == limit then true
    else if !(k < |pages| && pages[k] + areaOffset <= current <= pages[k] + PageSize) then false
    else if IsAlignedToPageSize(current) then
      k + 1 < |pages| && SemiWalkable(objects, pages, areaOffset, k + 1, pages[k + 1] + areaOffset, limit)
    else
      current in objects && 0 < objects[current].size &&
      current + objects[current].size <= pages[k] + PageSize &&
      SemiWalkable(objects, pages, areaOffset, k, current + objects[current].size, limit)
  }

  /** The addresses of the non-filler objects met by the walk, in walk order. */
  ghost function SemiObjects(objects: ObjectMap, pages: seq<Address>, areaOffset: nat,
                             k: nat, current: Address, limit: Address): seq<Address>
    requires SemiWalkable(objects, pages, areaOffset, k, current, limit)
    decreases PagesLeft(pages, k), Slack(pages, k, current)
  {
    if current == limit then []
    else if IsAlignedToPageSize(current) then
      SemiObjects(objects, pages, areaOffset, k + 1, pages[k + 1] + areaOffset, limit)
    else
      (if objects[current].isFiller then [] else [current]) +
      SemiObjects(objects, pages, areaOffset, k, current + objects[current].size, limit)
  }

  /** Every page starts on an alignment boundary and the object area starts inside it. */
  ghost predicate PagesAligned(pages: seq<Address>, areaOffset: nat)
  {
    0 < areaOffset < PageSize && forall i :: 0 <= i < |pages| ==> pages[i] % PageSize == 0
  }

  /** Every address of `r` is a non-filler object in the object area of one of `pages`. */
  ghost predicate LiveInPages(objects: ObjectMap, r: seq<Address>, pages: seq<Address>, areaOffset: nat)
  {
    forall i :: 0 <= i < |r| ==>
      r[i] in objects && !objects[r[i]].isFiller &&
      FromAddress(r[i]) in pages && r[i] % PageSize >= areaOffset
  }

  lemma OffsetInPage(base: Address, offset: nat)
    requires base % PageSize == 0 && offset < PageSize
    ensures (base + offset) % PageSize == offset
    ensures FromAddress(base + offset) == base
  {
  }

  /** An aligned address above a page base and at most one page past it is the page's end. */
  lemma AlignedIsPageEnd(base: Address, a: Address)
    requires base % PageSize == 0 && a % PageSize == 0 && base < a <= base + PageSize
    ensures a == base + PageSize
  {
    assert (a - base) % PageSize == 0;
  }

  /** At the end of a page the walk goes on at the object area of the next page. */
  lemma HopStep(objects: ObjectMap, pages: seq<Address>, areaOffset: nat,
                k: nat, current: Address, limit: Address)
    requires PagesAligned(pages, areaOffset)
    requires SemiWalkable(objects, pages, areaOffset, k, current, limit)
    requires current != limit && IsAlignedToPageSize(current)
    ensures k + 1 < |pages| && current == pages[k] + PageSize
    ensures current >= PointerSize && FromAllocationAreaAddress(current) == pages[k]
    ensures SemiWalkable(objects, pages, areaOffset, k + 1, pages[k + 1] + areaOffset, limit)
    ensures SemiObjects(objects, pages, areaOffset, k, current, limit) ==
            SemiObjects(objects, pages, areaOffset, k + 1, pages[k + 1] + areaOffset, limit)
    ensures !IsAlignedToPageSize(pages[k + 1] + areaOffset)
  {
    AlignedIsPageEnd(pages[k], current);
    OffsetInPage(pages[k + 1], areaOffset);
  }

  /** Inside a page the walk steps over one object, reporting it unless it is a filler. */
  lemma ObjectStep(objects: ObjectMap, pages: seq<Address>, areaOffset: nat,
                   k: nat, current: Address, limit: Address)
    requires SemiWalkable(objects, pages, areaOffset, k, current, limit)
    requires current != limit && !IsAlignedToPageSize(current)
    ensures current in objects && 0 < objects[current].size
    ensures var next := current + objects[current].size;
            SemiWalkable(objects, pages, areaOffset, k, next, limit) &&
            Slack(pages, k, next) < Slack(pages, k, current) &&
            SemiObjects(objects, pages, areaOffset, k, current, limit) ==
            (if objects[current].isFiller then [] else [current]) +
            SemiObjects(objects, pages, areaOffset, k, next, limit)
  {
  }

  lemma LiveInPagesConcat(objects: ObjectMap, h: seq<Address>, t: seq<Address>,
                          pages: seq<Address>, areaOffset: nat)
    requires LiveInPages(objects, h, pages, areaOffset) && LiveInPages(objects, t, pages, areaOffset)
    ensures LiveInPages(objects, h + t, pages, areaOffset)
  {
    forall i | 0 <= i < |h + t|
      ensures (h + t)[i] in objects && !objects[(h + t)[i]].isFiller &&
              FromAddress((h + t)[i]) in pages && (h + t)[i] % PageSize >= areaOffset
    {
      if i >= |h| {
        assert (h + t)[i] == t[i - |h|];
      }
    }
  }

  lemma {:induction false} SemiObjectsAreLive(objects: ObjectMap, pages: seq<Address>, areaOffset: nat,
                                              k: nat, current: Address, limit: Address)
    requires PagesAligned(pages, areaOffset)
    requires SemiWalkable(objects, pages, areaOffset, k, current, limit)
    ensures LiveInPages(objects, SemiObjects(objects, pages, areaOffset, k, current, limit), pages, areaOffset)
    decreases PagesLeft(pages, k), Slack(pages, k, current)
  {
    if current == limit {
    } else if IsAlignedToPageSize(current) {
      HopStep(objects, pages, areaOffset, k, current, limit);
      SemiObjectsAreLive(objects, pages, areaOffset, k + 1, pages[k + 1] + areaOffset, limit);
    } else {
      ObjectStep(objects, pages, areaOffset, k, current, limit);
      var next := current + objects[current].size;
      SemiObjectsAreLive(objects, pages, areaOffset, k, next, limit);
      OffsetInPage(pages[k], current - pages[k]);
      var head := if objects[current].isFiller then [] else [current];
      assert LiveInPages(objects, head, pages, areaOffset);
      LiveInPagesConcat(objects, head, SemiObjects(objects, pages, areaOffset, k, next, limit), pages, areaOffset);
    }
  }

  class SemiSpaceIterator {
    /** The heap's object layout, the to-space pages in list order and their next-page links. */
    const objects: ObjectMap
    const pages: seq<Address>
    const nextPage: map<Address, Address>
    /** The offset of a page's object area from its base (the page header's size). */
    const areaOffset: nat
    const limit: Address
    var current: Address
    /** The position of the page of `current` in `pages`. */
    ghost var pageIndex: nat

    ghost predicate Valid()
      reads this
    {
      PagesAligned(pages, areaOffset) &&
      (forall i :: 0 <= i < |pages| - 1 ==> pages[i] in nextPage && nextPage[pages[i]] == pages[i + 1]) &&
      SemiWalkable(objects, pages, areaOffset, pageIndex, current, limit)
    }

    ghost function Remaining(): seq<Address>
      reads this
      requires Valid()
    {
      SemiObjects(objects, pages, areaOffset, pageIndex, current, limit)
    }

    /** An iterator from the bottom of the to-space, its first page's object area, up to `limit`. */
    constructor (objects: ObjectMap, pages: seq<Address>, nextPage: map<Address, Address>,
                 areaOffset: nat, limit: Address)
      requires |pages| > 0 && PagesAligned(pages, areaOffset)
      requires forall i :: 0 <= i < |pages| - 1 ==> pages[i] in nextPage && nextPage[pages[i]] == pages[i + 1]
      requires SemiWalkable(objects, pages, areaOffset, 0, pages[0] + areaOffset, limit)
      ensures Valid()
      ensures Remaining() == SemiObjects(objects, pages, areaOffset, 0, pages[0] + areaOffset, limit)
    {
      this.objects := objects;
      this.pages := pages;
      this.nextPage := nextPage;
      this.areaOffset := areaOffset;
      this.limit := limit;
      current := pages[0] + areaOffset;
      pageIndex := 0;
    }

    /** From the end of a page to the object area of the next page, found through its link. */
    method HopToNextPage()
      requires Valid() && current != limit && IsAlignedToPageSize(current)
      modifies this`current, this`pageIndex
      ensures Valid() && Remaining() == old(Remaining())
      ensures !IsAlignedToPageSize(current)
      ensures PagesLeft(pages, pageIndex) < old(PagesLeft(pages, pageIndex))
    {
      HopStep(objects, pages, areaOffset, pageIndex, current, limit);
      var page: Address := FromAllocationAreaAddress(current);
      page := nextPage[page];
      current := page + areaOffset;
      pageIndex := pageIndex + 1;
    }

    /** Reads the object at `current` and moves past it. */
    method StepOverObject() returns (found: Address, isFiller: bool)
      requires Valid() && current != limit && !IsAlignedToPageSize(current)
      modifies this`current
      ensures Valid()
      ensures old(Remaining()) == (if isFiller then [] else [found]) + Remaining()
      ensures Slack(pages, pageIndex, current) < old(Slack(pages, pageIndex, current))
    {
      ObjectStep(objects, pages, areaOffset, pageIndex, current, limit);
      found := current;
      var info := objects[found];
      current := current + info.size;
      isFiller := info.isFiller;
    }

    /** The next non-filler object below the limit, or none once the limit is reached. */
    method Next() returns (r: Option<Address>)
      requires Valid()
      modifies this`current, this`pageIndex
      ensures Valid()
      ensures old(Remaining()) == [] ==> r == None && Remaining() == []
      ensures old(Remaining()) != [] ==> r == Some(old(Remaining())[0]) && Remaining() == old(Remaining())[1..]
    {
      ghost var rest := Remaining();
      while current != limit
        invariant Valid() && Remaining() == rest
        decreases PagesLeft(pages, pageIndex), Slack(pages, pageIndex, current)
      {
        if IsAlignedToPageSize(current) {
          HopToNextPage();
          if current == limit {
            return None;
          }
        }
        var found, isFiller := StepOverObject();
        if !isFiller {
          return Some(found);
        }
      }
      return None;
    }
  }
}
