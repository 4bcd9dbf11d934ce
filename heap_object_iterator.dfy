/**
 * The object walker of a paged space: it visits the objects of each page in
 * address order, skips fillers and jumps over the unused part of the
 * space's allocation window.
 */
module HeapObjectIterators {
  import opened Globals
  import opened AllocationArea

  /** The object area [start, end) of one page. */
  datatype Area = Area(start: Address, end: Address)

  /**
   * The bytes [cur, end) can be walked: object after object, each with a
   * positive size and ending by `end`, except that the walk jumps from the
   * window's top to its limit. No object straddles top.
   */
  ghost predicate Walkable(objects: ObjectMap, w: Window, cur: Address, end: Address)
    decreases if cur <= end then end - cur else 0
  {
    if cur == end then true
    else if end < cur then false
    else if cur == w.top && cur != w.limit then
      cur < w.limit <= end && Walkable(objects, w, w.limit, end)
    else
      cur in objects && 0 < objects[cur].size && cur + objects[cur].size <= end &&
      (cur < w.top ==> cur + objects[cur].size <= w.top) &&
      Walkable(objects, w, cur + objects[cur].size, end)
  }

  /** Every address of `r` holds an object that is not a filler. */
  ghost predicate Live(objects: ObjectMap, r: seq<Address>)
  {
    forall i :: 0 <= i < |r| ==> r[i] in objects && !objects[r[i]].isFiller
  }

  ghost predicate Within(r: seq<Address>, lo: Address, hi: Address)
  {
    forall i :: 0 <= i < |r| ==> lo <= r[i] < hi
  }

  ghost predicate StrictlyIncreasing(r: seq<Address>)
  {
    forall i, j :: 0 <= i < j < |r| ==> r[i] < r[j]
  }

  /** No address of `r` lies in the unused window [top, limit). */
  ghost predicate OutsideWindow(r: seq<Address>, w: Window)
  {
    forall i :: 0 <= i < |r| ==> !(w.top <= r[i] < w.limit)
  }

  /** The addresses of the non-filler objects met by the walk of [cur, end), in walk order. */
  ghost function Objects(objects: ObjectMap, w: Window, cur: Address, end: Address): seq<Address>
    requires Walkable(objects, w, cur, end)
    decreases if cur <= end then end - cur else 0
  {
    if cur == end then []
    else if cur == w.top && cur != w.limit then Objects(objects, w, w.limit, end)
    else
      (if objects[cur].isFiller then [] else [cur]) +
      Objects(objects, w, cur + objects[cur].size, end)
  }

  /** At top the walk goes on at limit, reporting nothing in between. */
  lemma JumpStep(objects: ObjectMap, w: Window, cur: Address, end: Address)
    requires Walkable(objects, w, cur, end)
    requires cur != end && cur == w.top && cur != w.limit
    ensures cur < w.limit <= end && Walkable(objects, w, w.limit, end)
    ensures Objects(objects, w, cur, end) == Objects(objects, w, w.limit, end)
  {
  }

  /** Anywhere else the walk steps over one object, reporting it unless it is a filler. */
  lemma ObjectStep(objects: ObjectMap, w: Window, cur: Address, end: Address)
    requires Walkable(objects, w, cur, end)
    requires cur != end && !(cur == w.top && cur != w.limit)
    ensures cur < end && cur in objects && 0 < objects[cur].size
    ensures var next := cur + objects[cur].size;
            next <= end && (cur < w.top ==> next <= w.top) &&
            Walkable(objects, w, next, end) &&
            Objects(objects, w, cur, end) ==
            (if objects[cur].isFiller then [] else [cur]) + Objects(objects, w, next, end)
  {
  }

  lemma LiveConcat(objects: ObjectMap, h: seq<Address>, t: seq<Address>)
    requires Live(objects, h) && Live(objects, t)
    ensures Live(objects, h + t)
  {
    forall i | 0 <= i < |h + t|
      ensures (h + t)[i] in objects && !objects[(h + t)[i]].isFiller
    {
      if i >= |h| {
        assert (h + t)[i] == t[i - |h|];
      }
    }
  }

  lemma WithinConcat(h: seq<Address>, t: seq<Address>, lo: Address, hi: Address)
    requires Within(h, lo, hi) && Within(t, lo, hi)
    ensures Within(h + t, lo, hi)
  {
    forall i | 0 <= i < |h + t|
      ensures lo <= (h + t)[i] < hi
    {
      if i >= |h| {
        assert (h + t)[i] == t[i - |h|];
      }
    }
  }

  lemma OutsideWindowConcat(h: seq<Address>, t: seq<Address>, w: Window)
    requires OutsideWindow(h, w) && OutsideWindow(t, w)
    ensures OutsideWindow(h + t, w)
  {
    forall i | 0 <= i < |h + t|
      ensures !(w.top <= (h + t)[i] < w.limit)
    {
      if i >= |h| {
        assert (h + t)[i] == t[i - |h|];
      }
    }
  }

  /** An increasing run below `bound` followed by an increasing run from `bound` is increasing. */
  lemma IncreasingConcat(h: seq<Address>, t: seq<Address>, bound: Address, hi: Address)
    requires StrictlyIncreasing(h) && StrictlyIncreasing(t)
    requires forall i :: 0 <= i < |h| ==> h[i] < bound
    requires Within(t, bound, hi)
    ensures StrictlyIncreasing(h + t)
  {
    forall i, j | 0 <= i < j < |h + t|
      ensures (h + t)[i] < (h + t)[j]
    {
      if j >= |h| {
        assert (h + t)[j] == t[j - |h|];
      }
      if i >= |h| {
        assert (h + t)[i] == t[i - |h|];
      }
    }
  }

  /** Every object the walk reports is a non-filler object that starts inside [cur, end). */
  lemma {:induction false} ObjectsAreLive(objects: ObjectMap, w: Window, cur: Address, end: Address)
    requires Walkable(objects, w, cur, end)
    ensures Live(objects, Objects(objects, w, cur, end)) && Within(Objects(objects, w, cur, end), cur, end)
    decreases if cur <= end then end - cur else 0
  {
    if cur == end {
    } else if cur == w.top && cur != w.limit {
      JumpStep(objects, w, cur, end);
      ObjectsAreLive(objects, w, w.limit, end);
      WithinConcat([], Objects(objects, w, w.limit, end), cur, end);
    } else {
      ObjectStep(objects, w, cur, end);
      var next := cur + objects[cur].size;
      ObjectsAreLive(objects, w, next, end);
      var head := if objects[cur].isFiller then [] else [cur];
      LiveConcat(objects, head, Objects(objects, w, next, end));
      WithinConcat(head, Objects(objects, w, next, end), cur, end);
    }
  }

  /** The walk reports objects in strictly increasing address order. */
  lemma {:induction false} ObjectsIncrease(objects: ObjectMap, w: Window, cur: Address, end: Address)
    requires Walkable(objects, w, cur, end)
    ensures StrictlyIncreasing(Objects(objects, w, cur, end))
    decreases if cur <= end then end - cur else 0
  {
    if cur == end {
    } else if cur == w.top && cur != w.limit {
      JumpStep(objects, w, cur, end);
      ObjectsIncrease(objects, w, w.limit, end);
    } else {
      ObjectStep(objects, w, cur, end);
      var next := cur + objects[cur].size;
      ObjectsIncrease(objects, w, next, end);
      ObjectsAreLive(objects, w, next, end);
      var head := if objects[cur].isFiller then [] else [cur];
      IncreasingConcat(head, Objects(objects, w, next, end), next, end);
    }
  }

  /**
   * A walk that does not start strictly inside the window never reports an
   * address of the unused window [top, limit).
   */
  lemma {:induction false} ObjectsAvoidWindow(objects: ObjectMap, w: Window, cur: Address, end: Address)
    requires Walkable(objects, w, cur, end)
    requires w.top <= w.limit && !(w.top < cur < w.limit)
    ensures OutsideWindow(Objects(objects, w, cur, end), w)
    decreases if cur <= end then end - cur else 0
  {
    if cur == end {
    } else if cur == w.top && cur != w.limit {
      JumpStep(objects, w, cur, end);
      ObjectsAvoidWindow(objects, w, w.limit, end);
    } else {
      ObjectStep(objects, w, cur, end);
      var next := cur + objects[cur].size;
      ObjectsAvoidWindow(objects, w, next, end);
      var head := if objects[cur].isFiller then [] else [cur];
      OutsideWindowConcat(head, Objects(objects, w, next, end), w);
    }
  }

  ghost predicate AreasWalkable(objects: ObjectMap, w: Window, areas: seq<Area>)
  {
    forall i :: 0 <= i < |areas| ==> Walkable(objects, w, areas[i].start, areas[i].end)
  }

  /** The objects of a run of pages, page after page. */
  ghost function AreasObjects(objects: ObjectMap, w: Window, areas: seq<Area>): seq<Address>
    requires AreasWalkable(objects, w, areas)
  {
    if areas == [] then []
    else Objects(objects, w, areas[0].start, areas[0].end) + AreasObjects(objects, w, areas[1..])
  }

  /** Every object reported for a run of pages is a non-filler object. */
  lemma {:induction false} AreasObjectsAreLive(objects: ObjectMap, w: Window, areas: seq<Area>)
    requires AreasWalkable(objects, w, areas)
    ensures Live(objects, AreasObjects(objects, w, areas))
  {
    if areas != [] {
      ObjectsAreLive(objects, w, areas[0].start, areas[0].end);
      AreasObjectsAreLive(objects, w, areas[1..]);
      LiveConcat(objects, Objects(objects, w, areas[0].start, areas[0].end), AreasObjects(objects, w, areas[1..]));
    }
  }

  class HeapObjectIterator {
    /** The heap's object layout and the allocation window of the walked space. */
    const objects: ObjectMap
    const space: AllocationInfo
    var curAddr: Address
    var curEnd: Address
    /** The object areas of the pages not yet entered. */
    var pagesLeft: seq<Area>

    ghost predicate Valid()
      reads this, space
    {
      Walkable(objects, space.Current(), curAddr, curEnd) &&
      AreasWalkable(objects, space.Current(), pagesLeft)
    }

    /** The objects still to be reported: the rest of the current page, then the pages left. */
    ghost function Remaining(): seq<Address>
      reads this, space
      requires Valid()
    {
      Objects(objects, space.Current(), curAddr, curEnd) +
      AreasObjects(objects, space.Current(), pagesLeft)
    }

    /** An iterator that has entered no page yet. */
    constructor (space: AllocationInfo, objects: ObjectMap, pages: seq<Area>)
      requires AreasWalkable(objects, space.Current(), pages)
      ensures this.space == space && this.objects == objects
      ensures Valid() && Remaining() == AreasObjects(objects, space.Current(), pages)
    {
      this.space := space;
      this.objects := objects;
      curAddr := Null;
      curEnd := Null;
      pagesLeft := pages;
    }

    /**
     * The next non-filler object of the current page, or none once the page
     * is exhausted; the walk jumps over the unused window.
     */
    method FromCurrentPage() returns (r: Option<Address>)
      requires Valid()
      modifies this`curAddr
      ensures Valid()
      ensures var rest := old(Objects(objects, space.Current(), curAddr, curEnd));
              if rest == [] then r == None && curAddr == curEnd
              else r == Some(rest[0]) && Objects(objects, space.Current(), curAddr, curEnd) == rest[1..]
    {
      ghost var w := space.Current();
      while curAddr != curEnd
        invariant Valid()
        invariant Objects(objects, w, curAddr, curEnd) == old(Objects(objects, space.Current(), curAddr, curEnd))
        decreases if curAddr <= curEnd then curEnd - curAddr else 0
      {
        if curAddr == space.top && curAddr != space.limit {
          curAddr := space.limit;
          continue;
        }
        var found := curAddr;
        var info := objects[found];
        curAddr := curAddr + info.size;
        if !info.isFiller {
          return Some(found);
        }
      }
      return None;
    }

    /**
     * Enters the next page of the range, if any. This stand-in for the
     * definition outside this file moves to the page's object area; the
     * wait for the page's sweeping is not modelled.
     */
    method AdvanceToNextPage() returns (advanced: bool)
      requires Valid() && curAddr == curEnd
      modifies this`curAddr, this`curEnd, this`pagesLeft
      ensures Valid() && Remaining() == old(Remaining())
      ensures advanced <==> old(pagesLeft) != []
      ensures advanced ==>
                pagesLeft == old(pagesLeft)[1..] &&
                curAddr == old(pagesLeft)[0].start && curEnd == old(pagesLeft)[0].end
      ensures !advanced ==> pagesLeft == old(pagesLeft) && curAddr == old(curAddr) && curEnd == old(curEnd)
    {
      if pagesLeft == [] {
        return false;
      }
      var page := pagesLeft[0];
      pagesLeft := pagesLeft[1..];
      curAddr := page.start;
      curEnd := page.end;
      return true;
    }

    /** The next non-filler object of the space, or none once every page is exhausted. */
    method Next() returns (r: Option<Address>)
      requires Valid()
      modifies this`curAddr, this`curEnd, this`pagesLeft
      ensures Valid()
      ensures old(Remaining()) == [] ==> r == None && Remaining() == []
      ensures old(Remaining()) != [] ==> r == Some(old(Remaining())[0]) && Remaining() == old(Remaining())[1..]
    {
      while true
        invariant Valid() && Remaining() == old(Remaining())
        decreases |pagesLeft|
      {
        r := FromCurrentPage();
        if r.Some? {
          return;
        }
        var advanced := AdvanceToNextPage();
        if !advanced {
          return None;
        }
      }
    }
  }
}
