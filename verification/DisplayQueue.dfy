/** The singly linked queue between the posting thread and the display thread. */
module DisplayQueue {

  class Node<T> {
    var data: T
    var next: Node?<T>

    constructor (data: T)
      ensures this.data == data && next == null
    {
      this.data, next := data, null;
    }
  }

  class Queue<T> {
    var front: Node?<T>
    var back: Node?<T>
    var len: nat
    const dummy: T
    ghost var nodes: seq<Node<T>>
    ghost var contents: seq<T>

    ghost predicate Valid()
      reads this, nodes
    {
      && len == |nodes| == |contents|
      && (forall i, j :: 0 <= i < j < |nodes| ==> nodes[i] != nodes[j])
      && front == (if |nodes| == 0 then null else nodes[0])
      && back == (if |nodes| == 0 then null else nodes[|nodes| - 1])
      && (forall i {:trigger nodes[i].next} :: 0 <= i < |nodes| ==>
            nodes[i].next == if i + 1 < |nodes| then nodes[i+1] else null)
      && (forall i {:trigger contents[i]} :: 0 <= i < |nodes| ==> nodes[i].data == contents[i])
    }

    constructor (dummy: T)
      ensures Valid() && contents == [] && this.dummy == dummy
    {
      front, back, len, this.dummy := null, null, 0, dummy;
      nodes, contents := [], [];
    }

    method Push(item: T)
      requires Valid()
      modifies this, nodes
      ensures Valid() && contents == old(contents) + [item]
      ensures fresh(set n | n in nodes && n !in old(nodes))
    {
      var node := new Node(item);
      if len != 0 {
        back.next := node;
        back := node;
      } else {
        back := node;
        front := node;
      }
      nodes, contents := nodes + [node], contents + [item];
      len := len + 1;
    }

    /** Removing from an empty queue does nothing. */
    method Pop()
      requires Valid()
      modifies this
      ensures Valid() && contents == if old(contents) == [] then [] else old(contents)[1..]
      ensures forall n :: n in nodes ==> n in old(nodes)
    {
      if front == null { return; }
      front := front.next;
      if front == null { back := null; }
      nodes, contents := nodes[1..], contents[1..];
      len := len - 1;
    }

    /** The head of an empty queue reads as the dummy item. */
    method GetHeadValue() returns (head: T)
      requires Valid()
      ensures head == if contents == [] then dummy else contents[0]
    {
      if front == null { return dummy; }
      head := front.data;
    }

    method IsEmpty() returns (empty: bool)
      requires Valid()
      ensures empty <==> contents == []
    {
      empty := front == null;
    }
  }
}
