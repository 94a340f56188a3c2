/** A node on disk: immutable vector and labels, a heap pointer that vacuum can
    tombstone, and a fixed array of neighbour slots that a sentinel cuts off. */
module Nodes {
  import opened Pointers
  import opened Labels

  type Vector = seq<real>

  /** Position of the first slot with an invalid block, or the slot count. */
  function NumNeighbors(slots: seq<ItemPointer>): (n: nat)
    ensures n <= |slots|
    ensures forall i :: 0 <= i < n ==> slots[i].block != INVALID_BLOCK
    ensures n < |slots| ==> slots[n].block == INVALID_BLOCK
  {
    if slots == [] || slots[0].block == INVALID_BLOCK then 0 else 1 + NumNeighbors(slots[1..])
  }

  /** The neighbour list as readers see it. */
  function Adjacency(slots: seq<ItemPointer>): seq<ItemPointer> {
    slots[..NumNeighbors(slots)]
  }

  /** The slots after writing a list: whatever lies past the sentinel stays. */
  function WithAdjacency(slots: seq<ItemPointer>, list: seq<ItemPointer>): (r: seq<ItemPointer>)
    requires |list| <= |slots|
    ensures |r| == |slots|
  {
    if |list| == |slots| then list else list + [INVALID_POINTER] + slots[|list| + 1..]
  }

  predicate Storable(list: seq<ItemPointer>) {
    forall i :: 0 <= i < |list| ==> list[i].block != INVALID_BLOCK
  }

  /** A written list reads back exactly when none of its pointers is itself a
      sentinel, whatever the slots held before. */
  lemma AdjacencyRoundTrip(slots: seq<ItemPointer>, list: seq<ItemPointer>)
    requires |list| <= |slots|
    ensures Adjacency(WithAdjacency(slots, list)) == list <==> Storable(list)
  {
    var after := WithAdjacency(slots, list);
    var n := NumNeighbors(after);
    if Storable(list) {
      assert forall i :: 0 <= i < |list| ==> after[i] == list[i];
      if |list| < |slots| {
        assert after[|list|] == INVALID_POINTER;
      }
    } else {
      var i :| 0 <= i < |list| && list[i].block == INVALID_BLOCK;
      assert after[i] == list[i];
      assert n <= i;
    }
  }

  /** A node without neighbours. */
  function EmptySlots(n: nat): (r: seq<ItemPointer>)
    ensures |r| == n && Adjacency(r) == []
  {
    seq(n, _ => INVALID_POINTER)
  }

  class Node {
    const vector: Vector
    const labels: Option<LabelSet>
    var heap: ItemPointer
    const slots: array<ItemPointer>

    constructor (vector: Vector, labels: Option<LabelSet>, heap: ItemPointer, numNeighbors: nat)
      ensures fresh(slots) && slots.Length == numNeighbors && List() == []
      ensures this.vector == vector && this.labels == labels && this.heap == heap
    {
      this.vector, this.labels, this.heap := vector, labels, heap;
      slots := new ItemPointer[numNeighbors](_ => INVALID_POINTER);
    }

    function List(): seq<ItemPointer>
      reads slots
    {
      Adjacency(slots[..])
    }

    predicate IsDeleted()
      reads this
    {
      heap.offset == INVALID_OFFSET
    }

    /** The tombstone of vacuum: the neighbour slots are not in its frame. */
    method Delete()
      modifies this`heap
      ensures IsDeleted() && heap == INVALID_POINTER
    {
      heap := heap.(offset := INVALID_OFFSET);
      heap := heap.(block := INVALID_BLOCK);
    }

    method SetNeighbors<L>(neighbors: seq<Neighbor<L>>)
      requires |neighbors| <= slots.Length
      modifies slots
      ensures slots[..] == WithAdjacency(old(slots[..]), PointersOf(neighbors))
      ensures Storable(PointersOf(neighbors)) ==> List() == PointersOf(neighbors)
    {
      for i := 0 to |neighbors|
        invariant forall k :: 0 <= k < i ==> slots[k] == neighbors[k].pointer
        invariant forall k :: i <= k < slots.Length ==> slots[k] == old(slots[k])
      {
        slots[i] := neighbors[i].pointer;
      }
      if |neighbors| < slots.Length {
        slots[|neighbors|] := INVALID_POINTER;
      }
      assert slots[..] == WithAdjacency(old(slots[..]), PointersOf(neighbors));
      AdjacencyRoundTrip(old(slots[..]), PointersOf(neighbors));
    }

    /** Compare the ordered list and replace it. A mismatch changes nothing,
        and a replacement that is already in place is not written. */
    method TrySetNeighbors<L>(expected: seq<ItemPointer>, neighbors: seq<Neighbor<L>>) returns (ok: bool, wrote: bool)
      requires |neighbors| <= slots.Length && Storable(PointersOf(neighbors))
      modifies slots
      ensures ok <==> old(List()) == expected
      ensures List() == if ok then PointersOf(neighbors) else old(List())
      ensures wrote <==> ok && old(List()) != PointersOf(neighbors)
      ensures !wrote ==> slots[..] == old(slots[..])
    {
      if List() != expected {
        return false, false;
      }
      if List() == PointersOf(neighbors) {
        return true, false;
      }
      SetNeighbors(neighbors);
      return true, true;
    }
  }
}
