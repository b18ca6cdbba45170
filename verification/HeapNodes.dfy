/**
 The doubly linked list of heap chunks as the C++ keeps it: intrusive nodes with
 `prev` and `next` pointers that every operation rewrites in place.
 */
module HeapNodes {
  import opened Words
  import opened ChunkSpec

  class ChunkNode {
    var start: uint32
    var size: uint28
    var free: bool
    var prev: ChunkNode?
    var next: ChunkNode?

    constructor (start: uint32, size: uint28)
      ensures Val() == Chunk(start, size, true) && prev == null && next == null
    {
      this.start, this.size, this.free := start, size, true;
      prev, next := null, null;
    }

    ghost function Val(): Chunk
      reads `start, `size, `free
    {
      Chunk(start, size, free)
    }
  }

  ghost function Before(ns: seq<ChunkNode>, i: nat): ChunkNode?
    requires i <= |ns|
  {
    if i > 0 then ns[i-1] else null
  }

  ghost function After(ns: seq<ChunkNode>, i: nat): ChunkNode?
    requires i < |ns|
  {
    if i + 1 < |ns| then ns[i+1] else null
  }

  class ChunkList {
    var first: ChunkNode?
    var last: ChunkNode?
    ghost var nodes: seq<ChunkNode>  // the nodes from first to last

    ghost predicate Linked()
      reads this, nodes`prev, nodes`next
    {
      && (forall i, j :: 0 <= i < j < |nodes| ==> nodes[i] != nodes[j])
      && first == (if |nodes| == 0 then null else nodes[0])
      && last == (if |nodes| == 0 then null else nodes[|nodes| - 1])
      && (forall i {:trigger nodes[i].prev} :: 0 <= i < |nodes| ==> nodes[i].prev == Before(nodes, i))
      && (forall i {:trigger nodes[i].next} :: 0 <= i < |nodes| ==> nodes[i].next == After(nodes, i))
    }

    constructor ()
      ensures Linked() && nodes == []
    {
      first, last, nodes := null, null, [];
    }

    /** `k` is the position the new node gets. */
    method InsertAfter(node: ChunkNode, newNode: ChunkNode, ghost k: nat)
      requires Linked() && 0 < k <= |nodes| && nodes[k-1] == node && newNode !in nodes
      modifies this, nodes`prev, nodes`next, newNode`prev, newNode`next
      ensures Linked() && nodes == old(nodes[..k] + [newNode] + nodes[k..])
    {
      newNode.prev := node;
      newNode.next := node.next;
      if node.next == null { last := newNode; } else { node.next.prev := newNode; }
      node.next := newNode;
      InsertedAt(nodes, newNode, k);
      nodes := nodes[..k] + [newNode] + nodes[k..];
    }

    method InsertBefore(node: ChunkNode, newNode: ChunkNode, ghost k: nat)
      requires Linked() && k < |nodes| && nodes[k] == node && newNode !in nodes
      modifies this, nodes`prev, nodes`next, newNode`prev, newNode`next
      ensures Linked() && nodes == old(nodes[..k] + [newNode] + nodes[k..])
    {
      newNode.prev := node.prev;
      newNode.next := node;
      if node.prev == null { first := newNode; } else { node.prev.next := newNode; }
      node.prev := newNode;
      InsertedAt(nodes, newNode, k);
      nodes := nodes[..k] + [newNode] + nodes[k..];
    }

    method InsertHead(newNode: ChunkNode)
      requires Linked() && newNode !in nodes
      modifies this, nodes`prev, newNode`prev, newNode`next
      ensures Linked() && nodes == [newNode] + old(nodes)
    {
      if first == null {
        first, last := newNode, newNode;
        newNode.prev, newNode.next := null, null;
      } else {
        newNode.prev := null;
        newNode.next := first;
        first.prev := newNode;
        first := newNode;
      }
      nodes := [newNode] + nodes;
    }

    method InsertTail(newNode: ChunkNode)
      requires Linked() && newNode !in nodes
      modifies this, nodes`prev, nodes`next, newNode`prev, newNode`next
      ensures Linked() && nodes == old(nodes) + [newNode]
    {
      if last == null {
        InsertHead(newNode);
      } else {
        newNode.prev := last;
        newNode.next := null;
        last.next := newNode;
        last := newNode;
        nodes := nodes + [newNode];
      }
    }

    method Remove(node: ChunkNode, ghost k: nat)
      requires Linked() && k < |nodes| && nodes[k] == node
      modifies this, nodes`prev, nodes`next
      ensures Linked() && nodes == old(nodes[..k] + nodes[k+1..])
    {
      if node.prev == null { first := node.next; } else { node.prev.next := node.next; }
      if node.next == null { last := node.prev; } else { node.next.prev := node.prev; }
      nodes := nodes[..k] + nodes[k+1..];
    }
  }
}
