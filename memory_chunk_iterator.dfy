/**
 * The heap-wide chunk iterator: the pages of the old, map and code spaces,
 * then the large-object chunks, each space's pages in list order.
 */
module MemoryChunkIterators {
  import opened Globals

  datatype IteratorState = OldSpaceState | MapState | CodeState | LargeObjectState | FinishedState
  {
    /** The position of the state in the fixed visiting order. */
    function Rank(): nat
    {
      match this
      case OldSpaceState => 0
      case MapState => 1
      case CodeState => 2
      case LargeObjectState => 3
      case FinishedState => 4
    }
  }

  class MemoryChunkIterator {
    /** What each space's page iterator has still to visit, in list order. */
    var oldLeft: seq<Address>
    var mapLeft: seq<Address>
    var codeLeft: seq<Address>
    var largeLeft: seq<Address>
    var state: IteratorState

    /** Every space before the current state has been exhausted. */
    ghost predicate Valid()
      reads this
    {
      (state.Rank() > 0 ==> oldLeft == []) &&
      (state.Rank() > 1 ==> mapLeft == []) &&
      (state.Rank() > 2 ==> codeLeft == []) &&
      (state.Rank() > 3 ==> largeLeft == [])
    }

    /** The chunks still to be visited, in visiting order. */
    ghost function Remaining(): seq<Address>
      reads this
    {
      oldLeft + mapLeft + codeLeft + largeLeft
    }

    constructor (oldPages: seq<Address>, codePages: seq<Address>, mapPages: seq<Address>,
                 largePages: seq<Address>)
      ensures Valid() && state == OldSpaceState
      ensures Remaining() == oldPages + mapPages + codePages + largePages
    {
      state := OldSpaceState;
      oldLeft := oldPages;
      codeLeft := codePages;
      mapLeft := mapPages;
      largeLeft := largePages;
    }

    /**
     * The iterator handed out `r` from the chunks `before` that were left:
     * their first one, or none, finished, once nothing was left.
     */
    ghost predicate Took(before: seq<Address>, r: Option<Address>)
      reads this
    {
      (before == [] ==> r == None && state == FinishedState && Remaining() == []) &&
      (before != [] ==> r == Some(before[0]) && Remaining() == before[1..])
    }

    /**
     * The next chunk, or none once every space is exhausted; an exhausted
     * space hands over to the next one within the same call.
     */
    method Next() returns (r: Option<Address>)
      requires Valid()
      modifies this
      ensures Valid()
      ensures old(Remaining()) == [] ==> r == None && state == FinishedState && Remaining() == []
      ensures old(Remaining()) != [] ==> r == Some(old(Remaining())[0]) && Remaining() == old(Remaining())[1..]
      ensures old(state).Rank() <= state.Rank()
    {
      match state
      case OldSpaceState => r := FromOldSpace();
      case MapState => r := FromMapSpace();
      case CodeState => r := FromCodeSpace();
      case LargeObjectState => r := FromLargeObjectSpace();
      case FinishedState => r := None;
    }

    /** The old-space case: its next page, or on to the map space. */
    method FromOldSpace() returns (r: Option<Address>)
      requires Valid() && state == OldSpaceState
      modifies this
      ensures Valid() && Took(old(Remaining()), r)
    {
      if oldLeft != [] {
        r := Some(oldLeft[0]);
        oldLeft := oldLeft[1..];
        return;
      }
      state := MapState;
      r := FromMapSpace();
    }

    /** The map-space case: its next page, or on to the code space. */
    method FromMapSpace() returns (r: Option<Address>)
      requires Valid() && state == MapState
      modifies this
      ensures Valid() && Took(old(Remaining()), r) && state != OldSpaceState
    {
      if mapLeft != [] {
        r := Some(mapLeft[0]);
        mapLeft := mapLeft[1..];
        return;
      }
      state := CodeState;
      r := FromCodeSpace();
    }

    /** The code-space case: its next page, or on to the large-object space. */
    method FromCodeSpace() returns (r: Option<Address>)
      requires Valid() && state == CodeState
      modifies this
      ensures Valid() && Took(old(Remaining()), r) && state.Rank() >= 2
    {
      if codeLeft != [] {
        r := Some(codeLeft[0]);
        codeLeft := codeLeft[1..];
        return;
      }
      state := LargeObjectState;
      r := FromLargeObjectSpace();
    }

    /** The large-object case: its next chunk, or finished. */
    method FromLargeObjectSpace() returns (r: Option<Address>)
      requires Valid() && state == LargeObjectState
      modifies this
      ensures Valid() && Took(old(Remaining()), r) && state.Rank() >= 3
    {
      if largeLeft != [] {
        r := Some(largeLeft[0]);
        largeLeft := largeLeft[1..];
        return;
      }
      state := FinishedState;
      r := None;
    }
  }

  /** Draining the iterator yields every remaining chunk in order and leaves it finished. */
  method Drain(it: MemoryChunkIterator) returns (chunks: seq<Address>)
    requires it.Valid()
    modifies it
    ensures it.Valid() && it.state == FinishedState
    ensures chunks == old(it.Remaining())
  {
    chunks := [];
    ghost var all := it.Remaining();
    while true
      invariant it.Valid()
      invariant chunks + it.Remaining() == all
      decreases |it.Remaining()|
    {
      ghost var left := it.Remaining();
      var next := it.Next();
      if next.None? {
        assert left == [];
        return;
      }
      assert left == [next.value] + it.Remaining();
      chunks := chunks + [next.value];
    }
  }
}
