/**
 * Free-list categories: the per-page, per-size-class slices of a paged
 * space's free list. A category is linked into the space-wide list of its
 * size class through intrusive prev/next links, the first one being the
 * list's top for that class.
 */
module FreeLists {
  import opened Globals

  /** The size classes kTiniest .. kHuge. */
  const FirstCategory: nat := 0
  const NumberOfCategories: nat := 6

  class FreeListCategory {
    var categoryType: nat
    /** Bytes held by the category's free blocks; the block list itself is not modelled. */
    var available: nat
    var prev: FreeListCategory?
    var next: FreeListCategory?
    /** The free list of the space that owns the category's page. */
    const owner: FreeList

    constructor (owner: FreeList, categoryType: nat)
      ensures this.owner == owner && this.categoryType == categoryType
      ensures available == 0 && prev == null && next == null
    {
      this.owner := owner;
      this.categoryType := categoryType;
      available := 0;
      prev := null;
      next := null;
    }

    predicate IsEmpty()
      reads this
    {
      available == 0
    }

    /**
     * A category is linked when it has a neighbour or heads its size class:
     * in a consistent list, exactly when it is one of the list's linked
     * categories.
     */
    predicate IsLinked(): (r: bool)
      reads this, owner, owner.Repr
      ensures owner.Valid() && this in owner.Repr ==> (r <==> this in owner.Linked())
    {
      assert owner.Valid() && this in owner.Repr ==>
               ((prev != null || next != null || owner.Top(categoryType) == this) <==> this in owner.Linked()) by {
        if owner.Valid() && this in owner.Repr {
          LinksShowListing(owner.Links(), owner.tops, owner.lists, this);
        }
      }
      prev != null || next != null || owner.Top(categoryType) == this
    }

    /**
     * Gives an unlinked category of the free list a size class and no bytes;
     * the list stays consistent because nothing refers to an unlinked category.
     */
    method Initialize(categoryType: nat)
      requires owner.Valid() && this in owner.Repr && this !in owner.Linked()
      requires categoryType < NumberOfCategories
      modifies this
      ensures owner.Valid() && owner.Linked() == old(owner.Linked())
      ensures owner.Sizes() == old(owner.Sizes())[this := Size(categoryType, 0)]
      ensures prev == null && next == null
    {
      ghost var links := owner.Links();
      RelabelKeepsThreaded(links, owner.tops, owner.lists, this, categoryType);
      this.categoryType := categoryType;
      available := 0;
      prev := null;
      next := null;
      assert owner.Links() == links[this := Link(null, null, categoryType)];
      assert owner.Sizes() == old(owner.Sizes())[this := Size(categoryType, 0)];
    }

    method Reset()
      modifies this
      ensures available == 0 && prev == null && next == null
      ensures categoryType == old(categoryType)
    {
      available := 0;
      prev := null;
      next := null;
    }

    /** Links an unlinked category back into its free list; an empty category stays unlinked. */
    method Relink()
      requires owner.Valid() && this in owner.Repr && this !in owner.Linked()
      modifies owner, owner.Repr
      ensures owner.Valid() && owner.Repr == old(owner.Repr)
      ensures owner.Linked() == old(owner.Linked()) + if old(available) > 0 then {this} else {}
      ensures owner.Sizes() == old(owner.Sizes())
    {
      var _ := owner.AddCategory(this);
    }
  }

  ghost predicate Distinct(categories: seq<FreeListCategory>)
  {
    forall i, j :: 0 <= i < j < |categories| ==> categories[i] != categories[j]
  }

  ghost function Elements(categories: seq<FreeListCategory>): set<FreeListCategory>
  {
    set c | c in categories
  }

  /** The size class and the available bytes of a category. */
  datatype Size = Size(categoryType: nat, available: nat)

  /** The bytes that the categories of a sequence hold according to `m`. */
  ghost function SumAvailable(m: map<FreeListCategory, Size>, categories: seq<FreeListCategory>): nat
  {
    if categories == [] then 0
    else
      var last := categories[|categories| - 1];
      SumAvailable(m, categories[..|categories| - 1]) + if last in m then m[last].available else 0
  }

  /** The categories of a sequence that hold bytes according to `m`. */
  ghost function NonEmpty(m: map<FreeListCategory, Size>, categories: seq<FreeListCategory>): set<FreeListCategory>
  {
    set c | c in categories && c in m && m[c].available > 0
  }

  /** The sizes `m` with the categories in `evicted` emptied and their size classes kept. */
  ghost function Emptied(m: map<FreeListCategory, Size>, evicted: set<FreeListCategory>): map<FreeListCategory, Size>
  {
    map c | c in m :: if c in evicted then Size(m[c].categoryType, 0) else m[c]
  }

  lemma EmptiedStep(m: map<FreeListCategory, Size>, evicted: set<FreeListCategory>, c: FreeListCategory)
    ensures Emptied(Emptied(m, evicted), {c}) == Emptied(m, evicted + {c})
  {
  }

  /** One more category of a sequence: its elements, bytes and non-empty members grow by it. */
  lemma PrefixStep(m: map<FreeListCategory, Size>, categories: seq<FreeListCategory>, i: nat)
    requires i < |categories| && Distinct(categories)
    ensures categories[i] !in categories[..i]
    ensures Elements(categories[..i + 1]) == Elements(categories[..i]) + {categories[i]}
    ensures SumAvailable(m, categories[..i + 1]) ==
            SumAvailable(m, categories[..i]) + if categories[i] in m then m[categories[i]].available else 0
    ensures NonEmpty(m, categories[..i + 1]) ==
            NonEmpty(m, categories[..i]) +
            if categories[i] in m && m[categories[i]].available > 0 then {categories[i]} else {}
  {
    assert categories[..i + 1][..i] == categories[..i];
    assert categories[..i + 1] == categories[..i] + [categories[i]];
  }

  /** The sizes `m` after the first `n` categories were reset: category k gets size class k and no bytes. */
  ghost function Initialized(m: map<FreeListCategory, Size>, categories: seq<FreeListCategory>, n: nat)
    : map<FreeListCategory, Size>
    requires n <= |categories|
  {
    if n == 0 then m
    else Initialized(m, categories, n - 1)[categories[n - 1] := Size(n - 1, 0)]
  }

  /**
   * After the reset, each of the first `n` (distinct) categories holds its
   * position as size class and no bytes; every other category keeps its size.
   */
  lemma {:induction false} InitializedSizes(m: map<FreeListCategory, Size>, categories: seq<FreeListCategory>,
                                            n: nat)
    requires n <= |categories| && Distinct(categories)
    ensures forall k :: 0 <= k < n ==>
              categories[k] in Initialized(m, categories, n) &&
              Initialized(m, categories, n)[categories[k]] == Size(k, 0)
    ensures forall c :: c !in categories[..n] ==>
              (c in Initialized(m, categories, n) <==> c in m) &&
              (c in m ==> Initialized(m, categories, n)[c] == m[c])
  {
    if n > 0 {
      InitializedSizes(m, categories, n - 1);
      assert categories[..n] == categories[..n - 1] + [categories[n - 1]];
    }
  }

  /** The position of `c` in a list that holds it. */
  ghost function IndexOf(list: seq<FreeListCategory>, c: FreeListCategory): (i: nat)
    requires c in list
    ensures i < |list| && list[i] == c
  {
    if list[0] == c then 0 else 1 + IndexOf(list[1..], c)
  }

  /** The first category of a list, or null for an empty one. */
  function Head(list: seq<FreeListCategory>): FreeListCategory?
  {
    if list == [] then null else list[0]
  }

  /** `list` with every occurrence of `c` deleted, the others kept in order. */
  ghost function Remove(list: seq<FreeListCategory>, c: FreeListCategory): seq<FreeListCategory>
  {
    if list == [] then []
    else if list[0] == c then Remove(list[1..], c)
    else [list[0]] + Remove(list[1..], c)
  }

  /** Deleting the category at position `i` of a list without repetitions cuts out exactly that position. */
  lemma {:induction false} RemoveAt(list: seq<FreeListCategory>, i: nat)
    requires i < |list| && Distinct(list)
    ensures Remove(list, list[i]) == list[..i] + list[i + 1..]
    ensures Distinct(list[..i] + list[i + 1..])
  {
    if i == 0 {
      RemoveAbsent(list[1..], list[0]);
      assert list[..0] + list[1..] == list[1..];
    } else {
      RemoveAt(list[1..], i - 1);
      assert list[1..][..i - 1] + list[1..][i..] == list[1..i] + list[i + 1..];
      assert list[..i] + list[i + 1..] == [list[0]] + (list[1..i] + list[i + 1..]);
    }
  }

  /** Deleting a category that is not in a list leaves the list as it is. */
  lemma {:induction false} RemoveAbsent(list: seq<FreeListCategory>, c: FreeListCategory)
    requires c !in list
    ensures Remove(list, c) == list
  {
    if list != [] {
      RemoveAbsent(list[1..], c);
      assert list == [list[0]] + list[1..];
    }
  }

  /** The links and the size class of a category. */
  datatype Link = Link(prev: FreeListCategory?, next: FreeListCategory?, categoryType: nat)

  /** The link that position `i` of the list of class `t` must have: its neighbours in the list, and class `t`. */
  function InPlace(list: seq<FreeListCategory>, i: nat, t: nat): Link
    requires i < |list|
  {
    Link(if i == 0 then null else list[i - 1], if i + 1 < |list| then list[i + 1] else null, t)
  }

  /** Each category of `list`, the list of class `t`, is linked to exactly its neighbours in it. */
  ghost predicate PlacedList(links: map<FreeListCategory, Link>, list: seq<FreeListCategory>, t: nat)
  {
    forall i {:trigger PlacedAt(links, list, t, i)} :: 0 <= i < |list| ==> PlacedAt(links, list, t, i)
  }

  /** PlacedList for position `i`. */
  ghost predicate PlacedAt(links: map<FreeListCategory, Link>, list: seq<FreeListCategory>, t: nat, i: int)
  {
    0 <= i < |list| && list[i] in links && links[list[i]] == InPlace(list, i, t)
  }

  /**
   * Every category has a size class, and one that is not on the list of its
   * class has no links.
   */
  ghost predicate Loose(links: map<FreeListCategory, Link>, lists: seq<seq<FreeListCategory>>)
  {
    forall c {:trigger LooseAt(links, lists, c)} :: c in links ==> LooseAt(links, lists, c)
  }

  /** Loose for one category. */
  ghost predicate LooseAt(links: map<FreeListCategory, Link>, lists: seq<seq<FreeListCategory>>, c: FreeListCategory)
    requires c in links
  {
    links[c].categoryType < |lists| &&
      (c !in lists[links[c].categoryType] ==> links[c].prev == null && links[c].next == null)
  }

  /**
   * `links` thread `lists`: the list of each size class starts at its top and
   * links each of its categories to exactly its neighbours, and a category on
   * no list has no links.
   */
  ghost predicate Threaded(links: map<FreeListCategory, Link>, tops: seq<FreeListCategory?>,
                           lists: seq<seq<FreeListCategory>>)
  {
    |tops| == NumberOfCategories && |lists| == NumberOfCategories &&
    (forall t :: 0 <= t < |lists| ==> tops[t] == Head(lists[t])) &&
    (forall t {:trigger PlacedList(links, lists[t], t)} :: 0 <= t < |lists| ==> PlacedList(links, lists[t], t)) &&
    Loose(links, lists)
  }

  /** The categories that are on the list of their own size class. */
  ghost function Listed(links: map<FreeListCategory, Link>, lists: seq<seq<FreeListCategory>>): set<FreeListCategory>
  {
    set c | c in links && links[c].categoryType < |lists| && c in lists[links[c].categoryType]
  }

  /**
   * Two positions of a placed list hold different categories: going back
   * along `prev` from both, the earlier one reaches the head, which has no
   * predecessor, first.
   */
  lemma {:induction false} PlacedApart(links: map<FreeListCategory, Link>, list: seq<FreeListCategory>, t: nat,
                                       i: nat, j: nat)
    requires PlacedList(links, list, t) && i < j < |list|
    ensures list[i] != list[j]
    decreases i
  {
    assert PlacedAt(links, list, t, i);
    assert PlacedAt(links, list, t, j);
    if i > 0 {
      PlacedApart(links, list, t, i - 1, j - 1);
    }
  }

  /** A placed list holds no category twice. */
  lemma PlacedDistinct(links: map<FreeListCategory, Link>, list: seq<FreeListCategory>, t: nat)
    requires PlacedList(links, list, t)
    ensures Distinct(list)
  {
    forall i, j | 0 <= i < j < |list|
      ensures list[i] != list[j]
    {
      PlacedApart(links, list, t, i, j);
    }
  }

  /** A category on the list of class `t` has class `t`, and so is listed. */
  lemma ListedAt(links: map<FreeListCategory, Link>, tops: seq<FreeListCategory?>,
                 lists: seq<seq<FreeListCategory>>, t: nat, i: nat)
    requires Threaded(links, tops, lists) && t < |lists| && i < |lists[t]|
    ensures lists[t][i] in links && links[lists[t][i]] == InPlace(lists[t], i, t)
    ensures lists[t][i] in Listed(links, lists)
  {
    assert PlacedList(links, lists[t], t);
    assert PlacedAt(links, lists[t], t, i);
  }

  /** A category off the list of its own class is on no list at all. */
  lemma UnlistedNowhere(links: map<FreeListCategory, Link>, tops: seq<FreeListCategory?>,
                        lists: seq<seq<FreeListCategory>>, c: FreeListCategory)
    requires Threaded(links, tops, lists) && c in links && c !in Listed(links, lists)
    ensures forall t :: 0 <= t < |lists| ==> c !in lists[t]
    ensures links[c].prev == null && links[c].next == null
  {
    assert LooseAt(links, lists, c);
    forall t | 0 <= t < |lists|
      ensures c !in lists[t]
    {
      if c in lists[t] {
        ListedAt(links, tops, lists, t, IndexOf(lists[t], c));
      }
    }
  }

  /**
   * The links of a category show whether it is listed: it is on the list of
   * its class exactly when it has a neighbour or heads its class.
   */
  lemma LinksShowListing(links: map<FreeListCategory, Link>, tops: seq<FreeListCategory?>,
                         lists: seq<seq<FreeListCategory>>, c: FreeListCategory)
    requires Threaded(links, tops, lists) && c in links && links[c].categoryType < |tops|
    ensures (links[c].prev != null || links[c].next != null || tops[links[c].categoryType] == c)
            <==> c in Listed(links, lists)
  {
    var t := links[c].categoryType;
    assert LooseAt(links, lists, c);
    if c in Listed(links, lists) {
      ListedAt(links, tops, lists, t, IndexOf(lists[t], c));
    } else if tops[t] != null {
      ListedAt(links, tops, lists, t, 0);
    }
  }

  /** The neighbours of a category are categories of the list other than itself and each other. */
  lemma Neighbours(links: map<FreeListCategory, Link>, tops: seq<FreeListCategory?>,
                   lists: seq<seq<FreeListCategory>>, c: FreeListCategory)
    requires Threaded(links, tops, lists) && c in links
    ensures links[c].prev != null ==> links[c].prev in links && links[c].prev != c && links[c].prev != links[c].next
    ensures links[c].next != null ==> links[c].next in links && links[c].next != c
  {
    var t := links[c].categoryType;
    assert LooseAt(links, lists, c);
    if c in lists[t] {
      assert PlacedList(links, lists[t], t);
      NeighboursAt(links, lists[t], t, IndexOf(lists[t], c));
    }
  }

  /** Neighbours for the category at position `i` of a placed list. */
  lemma NeighboursAt(links: map<FreeListCategory, Link>, list: seq<FreeListCategory>, t: nat, i: nat)
    requires PlacedList(links, list, t) && i < |list|
    ensures list[i] in links
    ensures var l := links[list[i]];
            (l.prev != null ==> l.prev in links && l.prev != list[i] && l.prev != l.next) &&
            (l.next != null ==> l.next in links && l.next != list[i])
  {
    assert PlacedAt(links, list, t, i);
    if i > 0 {
      assert PlacedAt(links, list, t, i - 1);
      PlacedApart(links, list, t, i - 1, i);
      if i + 1 < |list| {
        PlacedApart(links, list, t, i - 1, i + 1);
      }
    }
    if i + 1 < |list| {
      assert PlacedAt(links, list, t, i + 1);
      PlacedApart(links, list, t, i, i + 1);
    }
  }

  /** The links after `c` is pushed before `top`: first `top.prev`, then `c.next`. */
  ghost function Pushed(links: map<FreeListCategory, Link>, c: FreeListCategory, top: FreeListCategory?)
    : map<FreeListCategory, Link>
    requires c in links
  {
    var l := if top != null && top in links then links[top := links[top].(prev := c)] else links;
    l[c := l[c].(next := top)]
  }

  /** Pushing an unlinked category before the head of a placed list places the longer list. */
  lemma PushPlaced(links: map<FreeListCategory, Link>, list: seq<FreeListCategory>, c: FreeListCategory, t: nat)
    requires PlacedList(links, list, t) && c in links && c !in list
    requires links[c] == Link(null, null, t)
    ensures PlacedList(Pushed(links, c, Head(list)), [c] + list, t)
  {
    var links' := Pushed(links, c, Head(list));
    forall i | 0 <= i < |[c] + list|
      ensures PlacedAt(links', [c] + list, t, i)
    {
      if i > 0 {
        assert ([c] + list)[i] == list[i - 1];
        assert PlacedAt(links, list, t, i - 1);
        if i > 1 {
          PlacedApart(links, list, t, 0, i - 1);
        }
      }
    }
  }

  /** A placed list of class `t` stays placed when no category of class `t` changes. */
  lemma PlacedFrame(links: map<FreeListCategory, Link>, links': map<FreeListCategory, Link>,
                    list: seq<FreeListCategory>, t: nat)
    requires PlacedList(links, list, t)
    requires forall d :: d in links && links[d].categoryType == t ==> d in links' && links'[d] == links[d]
    ensures PlacedList(links', list, t)
  {
    forall i | 0 <= i < |list|
      ensures PlacedAt(links', list, t, i)
    {
      assert PlacedAt(links, list, t, i);
    }
  }

  /** A push changes only the pushed category and the old top. */
  lemma PushedElsewhere(links: map<FreeListCategory, Link>, c: FreeListCategory, top: FreeListCategory?, u: nat)
    requires c in links && links[c].categoryType != u
    requires top != null && top in links ==> links[top].categoryType != u
    ensures forall d :: d in links && links[d].categoryType == u ==>
              d in Pushed(links, c, top) && Pushed(links, c, top)[d] == links[d]
  {
  }

  /** Pushing an unlisted category at the top of its class threads the class's list grown at its head. */
  lemma PushKeepsThreaded(links: map<FreeListCategory, Link>, tops: seq<FreeListCategory?>,
                          lists: seq<seq<FreeListCategory>>, c: FreeListCategory, t: nat)
    requires Threaded(links, tops, lists) && c in links && c !in Listed(links, lists)
    requires links[c].categoryType == t && t < NumberOfCategories
    ensures Threaded(Pushed(links, c, tops[t]), tops[t := c], lists[t := [c] + lists[t]])
    ensures Listed(Pushed(links, c, tops[t]), lists[t := [c] + lists[t]]) == Listed(links, lists) + {c}
  {
    var top, list := tops[t], lists[t];
    var links', lists' := Pushed(links, c, top), lists[t := [c] + list];
    UnlistedNowhere(links, tops, lists, c);
    assert PlacedList(links, list, t);
    PushPlaced(links, list, c, t);
    if top != null {
      ListedAt(links, tops, lists, t, 0);
    }
    forall u | 0 <= u < |lists'| && u != t
      ensures PlacedList(links', lists'[u], u)
    {
      PushedElsewhere(links, c, top, u);
      assert PlacedList(links, lists[u], u);
      PlacedFrame(links, links', lists[u], u);
    }
    PushLoose(links, tops, lists, c, t);
  }

  /**
   * After the push, the categories off every list still have no links, and
   * the listed ones are the old ones and `c`.
   */
  lemma PushLoose(links: map<FreeListCategory, Link>, tops: seq<FreeListCategory?>,
                  lists: seq<seq<FreeListCategory>>, c: FreeListCategory, t: nat)
    requires Threaded(links, tops, lists) && c in links && c !in Listed(links, lists)
    requires links[c].categoryType == t && t < NumberOfCategories
    ensures Loose(Pushed(links, c, tops[t]), lists[t := [c] + lists[t]])
    ensures Listed(Pushed(links, c, tops[t]), lists[t := [c] + lists[t]]) == Listed(links, lists) + {c}
  {
    var top := tops[t];
    var links', lists' := Pushed(links, c, top), lists[t := [c] + lists[t]];
    if top != null {
      ListedAt(links, tops, lists, t, 0);
    }
    forall d | d in links'
      ensures LooseAt(links', lists', d)
      ensures d in Listed(links', lists') <==> d in Listed(links, lists) || d == c
    {
      assert LooseAt(links, lists, d);
    }
    assert Listed(links', lists') == Listed(links, lists) + {c};
  }

  /**
   * The links after `c` is unlinked: its successor points back to its
   * predecessor, its predecessor on to its successor, and `c` has no links.
   */
  ghost function Unlinked(links: map<FreeListCategory, Link>, c: FreeListCategory): map<FreeListCategory, Link>
    requires c in links
  {
    var p, n := links[c].prev, links[c].next;
    map d | d in links ::
      if d == c then Link(null, null, links[c].categoryType)
      else Link(if d == n then p else links[d].prev, if d == p then n else links[d].next, links[d].categoryType)
  }

  /** A category other than `c` and its neighbours keeps its link when `c` is unlinked. */
  lemma UnlinkedUntouched(links: map<FreeListCategory, Link>, c: FreeListCategory, d: FreeListCategory)
    requires c in links && d in links && d != c && d != links[c].prev && d != links[c].next
    ensures d in Unlinked(links, c) && Unlinked(links, c)[d] == links[d]
  {
  }

  /** Unlinking the category at position `i` of a placed list places the list without that position. */
  lemma UnlinkPlaced(links: map<FreeListCategory, Link>, list: seq<FreeListCategory>, t: nat, i: nat)
    requires PlacedList(links, list, t) && i < |list|
    ensures list[i] in links && PlacedList(Unlinked(links, list[i]), list[..i] + list[i + 1..], t)
  {
    var list' := list[..i] + list[i + 1..];
    assert PlacedAt(links, list, t, i);
    forall j | 0 <= j < |list'|
      ensures PlacedAt(Unlinked(links, list[i]), list', t, j)
    {
      if j < i {
        UnlinkPlacedBefore(links, list, t, i, j);
      } else if j == i {
        UnlinkPlacedNext(links, list, t, i);
      } else {
        UnlinkPlacedAfter(links, list, t, i, j);
      }
    }
  }

  /** UnlinkPlaced for a position before the unlinked one. */
  lemma UnlinkPlacedBefore(links: map<FreeListCategory, Link>, list: seq<FreeListCategory>, t: nat, i: nat, j: nat)
    requires PlacedList(links, list, t) && j < i < |list|
    ensures list[i] in links && PlacedAt(Unlinked(links, list[i]), list[..i] + list[i + 1..], t, j)
  {
    var list' := list[..i] + list[i + 1..];
    assert PlacedAt(links, list, t, i);
    assert PlacedAt(links, list, t, j);
    assert list'[j] == list[j];
    if j > 0 {
      assert list'[j - 1] == list[j - 1];
    }
    if j + 1 < |list'| {
      assert list'[j + 1] == if j + 1 < i then list[j + 1] else list[j + 2];
    }
    PlacedApart(links, list, t, j, i);
    if j + 1 < i {
      PlacedApart(links, list, t, j, i - 1);
    }
    if i + 1 < |list| {
      PlacedApart(links, list, t, j, i + 1);
      PlacedApart(links, list, t, i - 1, i + 1);
    }
  }

  /** UnlinkPlaced for the successor of the unlinked position, which now follows its predecessor. */
  lemma UnlinkPlacedNext(links: map<FreeListCategory, Link>, list: seq<FreeListCategory>, t: nat, i: nat)
    requires PlacedList(links, list, t) && i + 1 < |list|
    ensures list[i] in links && PlacedAt(Unlinked(links, list[i]), list[..i] + list[i + 1..], t, i)
  {
    var list' := list[..i] + list[i + 1..];
    assert PlacedAt(links, list, t, i);
    assert PlacedAt(links, list, t, i + 1);
    assert list'[i] == list[i + 1];
    if i > 0 {
      assert list'[i - 1] == list[i - 1];
      PlacedApart(links, list, t, i - 1, i + 1);
    }
    if i + 1 < |list'| {
      assert list'[i + 1] == list[i + 2];
    }
    PlacedApart(links, list, t, i, i + 1);
  }

  /** UnlinkPlaced for a position past the successor of the unlinked one, whose links stay as they were. */
  lemma UnlinkPlacedAfter(links: map<FreeListCategory, Link>, list: seq<FreeListCategory>, t: nat, i: nat, j: nat)
    requires PlacedList(links, list, t) && i < j && j + 1 < |list|
    ensures list[i] in links && PlacedAt(Unlinked(links, list[i]), list[..i] + list[i + 1..], t, j)
  {
    var list' := list[..i] + list[i + 1..];
    assert PlacedAt(links, list, t, i);
    assert PlacedAt(links, list, t, j + 1);
    assert list'[j] == list[j + 1];
    assert list'[j - 1] == list[j];
    if j + 1 < |list'| {
      assert list'[j + 1] == list[j + 2];
    }
    PlacedApart(links, list, t, i, j + 1);
    PlacedApart(links, list, t, i + 1, j + 1);
    if i > 0 {
      PlacedApart(links, list, t, i - 1, j + 1);
    }
    UnlinkedUntouched(links, list[i], list[j + 1]);
    assert InPlace(list, j + 1, t) == InPlace(list', j, t);
  }

  /** Unlinking a category threads the list of its class with that category deleted. */
  lemma UnlinkKeepsThreaded(links: map<FreeListCategory, Link>, tops: seq<FreeListCategory?>,
                            lists: seq<seq<FreeListCategory>>, c: FreeListCategory, t: nat)
    requires Threaded(links, tops, lists) && c in links && links[c].categoryType == t && t < NumberOfCategories
    ensures Threaded(Unlinked(links, c), if tops[t] == c then tops[t := links[c].next] else tops,
                     lists[t := Remove(lists[t], c)])
    ensures Listed(Unlinked(links, c), lists[t := Remove(lists[t], c)]) == Listed(links, lists) - {c}
  {
    var list := lists[t];
    assert PlacedList(links, list, t);
    if c in list {
      var i := IndexOf(list, c);
      PlacedDistinct(links, list, t);
      RemoveAt(list, i);
      UnlinkListed(links, tops, lists, c, t, i);
    } else {
      UnlistedNowhere(links, tops, lists, c);
      RemoveAbsent(list, c);
      assert lists[t := Remove(list, c)] == lists;
      assert Unlinked(links, c) == links;
    }
  }

  /** UnlinkKeepsThreaded for the category at position `i` of its class's list. */
  lemma UnlinkListed(links: map<FreeListCategory, Link>, tops: seq<FreeListCategory?>,
                     lists: seq<seq<FreeListCategory>>, c: FreeListCategory, t: nat, i: nat)
    requires Threaded(links, tops, lists) && c in links && t < |lists| && i < |lists[t]| && lists[t][i] == c
    ensures Threaded(Unlinked(links, c), if tops[t] == c then tops[t := links[c].next] else tops,
                     lists[t := lists[t][..i] + lists[t][i + 1..]])
    ensures Listed(Unlinked(links, c), lists[t := lists[t][..i] + lists[t][i + 1..]]) == Listed(links, lists) - {c}
  {
    var list := lists[t];
    var links' := Unlinked(links, c);
    var tops' := if tops[t] == c then tops[t := links[c].next] else tops;
    var lists' := lists[t := list[..i] + list[i + 1..]];
    ListedAt(links, tops, lists, t, i);
    assert PlacedList(links, list, t);
    UnlinkPlaced(links, list, t, i);
    if i > 0 {
      PlacedApart(links, list, t, 0, i);
    }
    forall u | 0 <= u < |lists'|
      ensures tops'[u] == Head(lists'[u])
    {
    }
    forall u | 0 <= u < |lists'| && u != t
      ensures PlacedList(links', lists'[u], u)
    {
      UnlinkElsewhere(links, tops, lists, c, t, i, u);
    }
    UnlinkLoose(links, tops, lists, c, t, i);
  }

  /** Unlinking in class `t` leaves the list of any other class placed. */
  lemma UnlinkElsewhere(links: map<FreeListCategory, Link>, tops: seq<FreeListCategory?>,
                        lists: seq<seq<FreeListCategory>>, c: FreeListCategory, t: nat, i: nat, u: nat)
    requires Threaded(links, tops, lists) && c in links && t < |lists| && i < |lists[t]| && lists[t][i] == c
    requires u < |lists| && u != t
    ensures PlacedList(Unlinked(links, c), lists[u], u)
  {
    ListedAt(links, tops, lists, t, i);
    if i > 0 {
      ListedAt(links, tops, lists, t, i - 1);
    }
    if i + 1 < |lists[t]| {
      ListedAt(links, tops, lists, t, i + 1);
    }
    UnlinkedOnly(links, c, u);
    assert PlacedList(links, lists[u], u);
    PlacedFrame(links, Unlinked(links, c), lists[u], u);
  }

  /** An unlink changes only the unlinked category and its two neighbours. */
  lemma UnlinkedOnly(links: map<FreeListCategory, Link>, c: FreeListCategory, u: nat)
    requires c in links && links[c].categoryType != u
    requires links[c].prev != null && links[c].prev in links ==> links[links[c].prev].categoryType != u
    requires links[c].next != null && links[c].next in links ==> links[links[c].next].categoryType != u
    ensures forall d :: d in links && links[d].categoryType == u ==>
              d in Unlinked(links, c) && Unlinked(links, c)[d] == links[d]
  {
  }

  /** Cutting position `i` out of a list without repetitions removes exactly the category there. */
  lemma CutMembers(list: seq<FreeListCategory>, i: nat, d: FreeListCategory)
    requires Distinct(list) && i < |list|
    ensures d in list[..i] + list[i + 1..] <==> d in list && d != list[i]
  {
    if d in list && d != list[i] {
      var k := IndexOf(list, d);
      if k < i {
        assert (list[..i] + list[i + 1..])[k] == d;
      } else {
        assert (list[..i] + list[i + 1..])[k - 1] == d;
      }
    }
  }

  /**
   * After the unlink, the categories off every list, now including `c`, still
   * have no links, and the listed ones are the old ones without `c`.
   */
  lemma UnlinkLoose(links: map<FreeListCategory, Link>, tops: seq<FreeListCategory?>,
                    lists: seq<seq<FreeListCategory>>, c: FreeListCategory, t: nat, i: nat)
    requires Threaded(links, tops, lists) && c in links && t < |lists| && i < |lists[t]| && lists[t][i] == c
    ensures Loose(Unlinked(links, c), lists[t := lists[t][..i] + lists[t][i + 1..]])
    ensures Listed(Unlinked(links, c), lists[t := lists[t][..i] + lists[t][i + 1..]]) == Listed(links, lists) - {c}
  {
    var links', lists' := Unlinked(links, c), lists[t := lists[t][..i] + lists[t][i + 1..]];
    forall d | d in links'
      ensures LooseAt(links', lists', d)
      ensures d in Listed(links', lists') <==> d in Listed(links, lists) && d != c
    {
      UnlinkLooseAt(links, tops, lists, c, t, i, d);
    }
    assert Listed(links', lists') == Listed(links, lists) - {c};
  }

  /** UnlinkLoose for one category `d`. */
  lemma UnlinkLooseAt(links: map<FreeListCategory, Link>, tops: seq<FreeListCategory?>,
                      lists: seq<seq<FreeListCategory>>, c: FreeListCategory, t: nat, i: nat, d: FreeListCategory)
    requires Threaded(links, tops, lists) && c in links && t < |lists| && i < |lists[t]| && lists[t][i] == c
    requires d in links
    ensures d in Unlinked(links, c)
    ensures LooseAt(Unlinked(links, c), lists[t := lists[t][..i] + lists[t][i + 1..]], d)
    ensures d in Listed(Unlinked(links, c), lists[t := lists[t][..i] + lists[t][i + 1..]]) <==>
              d in Listed(links, lists) && d != c
  {
    var list := lists[t];
    ListedAt(links, tops, lists, t, i);
    if i > 0 {
      ListedAt(links, tops, lists, t, i - 1);
    }
    if i + 1 < |list| {
      ListedAt(links, tops, lists, t, i + 1);
    }
    assert PlacedList(links, list, t);
    PlacedDistinct(links, list, t);
    CutMembers(list, i, d);
    assert LooseAt(links, lists, d);
  }

  /** Giving an unlisted category a new class and no links keeps the lists threaded. */
  lemma RelabelKeepsThreaded(links: map<FreeListCategory, Link>, tops: seq<FreeListCategory?>,
                             lists: seq<seq<FreeListCategory>>, c: FreeListCategory, t: nat)
    requires Threaded(links, tops, lists) && c in links && c !in Listed(links, lists)
    requires t < NumberOfCategories
    ensures Threaded(links[c := Link(null, null, t)], tops, lists)
    ensures Listed(links[c := Link(null, null, t)], lists) == Listed(links, lists)
  {
    var links' := links[c := Link(null, null, t)];
    UnlistedNowhere(links, tops, lists, c);
    forall u | 0 <= u < |lists|
      ensures PlacedList(links', lists[u], u)
    {
      assert PlacedList(links, lists[u], u);
      forall i | 0 <= i < |lists[u]|
        ensures PlacedAt(links', lists[u], u, i)
      {
        assert PlacedAt(links, lists[u], u, i);
      }
    }
    forall d | d in links'
      ensures LooseAt(links', lists, d)
      ensures d in Listed(links', lists) <==> d in Listed(links, lists)
    {
      assert LooseAt(links, lists, d);
    }
    assert Listed(links', lists) == Listed(links, lists);
  }

  class FreeList {
    /** The head of each size class's list of categories. */
    var tops: seq<FreeListCategory?>
    /** The categories linked into each size class, from its top along `next`. */
    ghost var lists: seq<seq<FreeListCategory>>
    /** Every category of every page of the owning space. */
    ghost var Repr: set<FreeListCategory>

    constructor ()
      ensures Valid() && Repr == {}
      ensures forall t :: 0 <= t < |tops| ==> tops[t] == null
    {
      tops := seq(NumberOfCategories, _ => null);
      lists := seq(NumberOfCategories, _ => []);
      Repr := {};
    }

    function Top(t: nat): FreeListCategory?
      reads this
    {
      if t < |tops| then tops[t] else null
    }

    /** The links and the size class of every category. */
    ghost function Links(): map<FreeListCategory, Link>
      reads this`Repr, Repr`prev, Repr`next, Repr`categoryType
    {
      map c | c in Repr :: Link(c.prev, c.next, c.categoryType)
    }

    /** Every category belongs to this list, and the links thread `lists`. */
    ghost predicate Valid()
      reads this, Repr
    {
      (forall c :: c in Repr ==> c.owner == this && c.categoryType < NumberOfCategories) &&
      Threaded(Links(), tops, lists)
    }

    /** The categories that are on the list of their size class. */
    ghost function Linked(): set<FreeListCategory>
      reads this, Repr
    {
      Listed(Links(), lists)
    }

    /** The size class and the bytes of every category. */
    ghost function Sizes(): map<FreeListCategory, Size>
      reads this`Repr, Repr`categoryType, Repr`available
    {
      map c | c in Repr :: Size(c.categoryType, c.available)
    }

    /** Writing the fields of one category changes only its own entries of Links() and Sizes(). */
    twostate lemma Rewritten(d: FreeListCategory)
      requires old(Repr) == Repr && d in Repr
      requires forall e :: e in Repr && e != d ==> unchanged(e)
      ensures Links() == old(Links())[d := Link(d.prev, d.next, d.categoryType)]
      ensures Sizes() == old(Sizes())[d := Size(d.categoryType, d.available)]
      ensures d.categoryType == old(d.categoryType) && d.available == old(d.available) ==> Sizes() == old(Sizes())
    {
    }

    /** Changing only links leaves the sizes as they were, and Links() is any map that agrees with the new links. */
    twostate lemma Relinked(m: map<FreeListCategory, Link>)
      requires old(Repr) == Repr
      requires forall e :: e in Repr ==> e.categoryType == old(e.categoryType) && e.available == old(e.available)
      requires forall e :: e in m <==> e in Repr
      requires forall e :: e in Repr ==> m[e] == Link(e.prev, e.next, e.categoryType)
      ensures Links() == m && Sizes() == old(Sizes())
    {
    }

    /** Writes that leave every category as it was leave Links() and Sizes() as they were. */
    twostate lemma Kept()
      requires old(Repr) == Repr
      requires forall e :: e in Repr ==> e.prev == old(e.prev) && e.next == old(e.next) &&
                                         e.categoryType == old(e.categoryType) && e.available == old(e.available)
      ensures Links() == old(Links()) && Sizes() == old(Sizes())
    {
    }

    /** The writes of AddCategory: `c` goes in before the top of its class and becomes the top. */
    method PushTop(c: FreeListCategory)
      requires c in Repr && c.categoryType < |tops| && c.categoryType < |lists|
      requires tops[c.categoryType] != null ==> tops[c.categoryType] in Repr
      modifies this, Repr
      ensures Repr == old(Repr)
      ensures Links() == Pushed(old(Links()), c, old(tops[c.categoryType]))
      ensures tops == old(tops)[c.categoryType := c]
      ensures lists == old(lists)[c.categoryType := [c] + old(lists[c.categoryType])]
      ensures Sizes() == old(Sizes())
      ensures forall e :: e in Repr ==> e.categoryType == old(e.categoryType)
    {
      var t := c.categoryType;
      var top := tops[t];
      if top != null {
        top.prev := c;
      }
      c.next := top;
      tops := tops[t := c];
      lists := lists[t := [c] + lists[t]];
      Relinked(Pushed(old(Links()), c, top));
    }

    /** The pointer writes of RemoveCategory: the neighbours of `c` are joined, and its links are cleared. */
    method Unlink(c: FreeListCategory)
      requires c in Repr && (c.prev != null ==> c.prev in Repr) && (c.next != null ==> c.next in Repr)
      modifies Repr
      ensures Links() == Unlinked(old(Links()), c)
      ensures Sizes() == old(Sizes())
      ensures forall e :: e in Repr ==> e.categoryType == old(e.categoryType)
    {
      var p, n := c.prev, c.next;
      if p != null {
        p.next := n;
      }
      if n != null {
        n.prev := p;
      }
      c.next := null;
      c.prev := null;
      Relinked(Unlinked(old(Links()), c));
    }

    /**
     * Pushes a category at the head of its size class. An empty category, or
     * one that already heads its class, is not added.
     */
    method AddCategory(c: FreeListCategory) returns (added: bool)
      requires Valid() && c in Repr
      requires c !in Linked() || Top(c.categoryType) == c
      modifies this, Repr
      ensures Valid() && Repr == old(Repr)
      ensures added <==> old(c.available) > 0 && old(Top(c.categoryType)) != c
      ensures added ==> lists == old(lists)[c.categoryType := [c] + old(lists[c.categoryType])]
      ensures added ==> tops == old(tops)[c.categoryType := c] && c.next == old(Top(c.categoryType))
      ensures added && old(Top(c.categoryType)) != null ==> old(Top(c.categoryType)).prev == c
      ensures !added ==> lists == old(lists) && tops == old(tops)
      ensures Linked() == old(Linked()) + if added then {c} else {}
      ensures Sizes() == old(Sizes())
    {
      var t := c.categoryType;
      var top := tops[t];
      if c.IsEmpty() {
        return false;
      }
      if top == c {
        return false;
      }
      ghost var links := Links();
      if top != null {
        ListedAt(links, tops, lists, t, 0);
      }
      PushKeepsThreaded(links, tops, lists, c, t);
      PushTop(c);
      return true;
    }

    /**
     * Unlinks a category from its size class: the head moves past it, its
     * neighbours are joined, and its own links are cleared. A category on no
     * list is left as it is.
     */
    method RemoveCategory(c: FreeListCategory)
      requires Valid() && c in Repr
      modifies this, Repr
      ensures Valid() && Repr == old(Repr)
      ensures lists == old(lists)[c.categoryType := Remove(old(lists[c.categoryType]), c)]
      ensures c.prev == null && c.next == null
      ensures old(c.prev) != null ==> old(c.prev).next == old(c.next)
      ensures old(c.next) != null ==> old(c.next).prev == old(c.prev)
      ensures tops == if old(Top(c.categoryType)) == c then old(tops)[c.categoryType := old(c.next)] else old(tops)
      ensures Linked() == old(Linked()) - {c}
      ensures Sizes() == old(Sizes())
    {
      var t, n := c.categoryType, c.next;
      ghost var links := Links();
      Neighbours(links, tops, lists, c);
      UnlinkKeepsThreaded(links, tops, lists, c, t);
      Unlink(c);
      label Unthreaded:
      if tops[t] == c {
        tops := tops[t := n];
      }
      lists := lists[t := Remove(lists[t], c)];
      Kept@Unthreaded();
    }

    /** One step of EvictFreeListItems: unlinks and empties one category. */
    method EvictCategory(c: FreeListCategory) returns (freed: nat)
      requires Valid() && c in Repr
      modifies this, Repr
      ensures Valid() && Repr == old(Repr)
      ensures freed == old(c.available)
      ensures Linked() == old(Linked()) - {c}
      ensures Sizes() == Emptied(old(Sizes()), {c})
    {
      freed := c.available;
      RemoveCategory(c);
      ghost var links := Links();
      label BeforeReset:
      c.Reset();
      Rewritten@BeforeReset(c);
      assert Links() == links;
      assert Sizes() == Emptied(old(Sizes()), {c});
    }

    /**
     * Removes every category of one page from the free list and empties it,
     * keeping its size class; the evicted bytes are forfeited, and their
     * total is returned.
     */
    method EvictFreeListItems(categories: seq<FreeListCategory>) returns (sum: nat)
      requires Valid() && Distinct(categories)
      requires forall i :: 0 <= i < |categories| ==> categories[i] in Repr
      modifies this, Repr
      ensures Valid() && Repr == old(Repr)
      ensures sum == SumAvailable(old(Sizes()), categories)
      ensures Linked() == old(Linked()) - Elements(categories)
      ensures Sizes() == Emptied(old(Sizes()), Elements(categories))
    {
      sum := 0;
      var i := 0;
      while i < |categories|
        invariant 0 <= i <= |categories|
        invariant Valid() && Repr == old(Repr)
        invariant sum == SumAvailable(old(Sizes()), categories[..i])
        invariant Linked() == old(Linked()) - Elements(categories[..i])
        invariant Sizes() == Emptied(old(Sizes()), Elements(categories[..i]))
      {
        var c := categories[i];
        PrefixStep(old(Sizes()), categories, i);
        assert Sizes()[c] == old(Sizes())[c];
        var freed := EvictCategory(c);
        sum := sum + freed;
        EmptiedStep(old(Sizes()), Elements(categories[..i]), c);
        i := i + 1;
      }
      assert categories[..i] == categories;
    }
  }
}
