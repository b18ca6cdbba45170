/** The singly linked list of radio requests that still wait for their answer. */
module RequestList {

  /** A request as a value: who asked, over which connection, and whether that connection is gone. */
  datatype Req = Req(id: nat, token: int, conn: nat, cancelled: bool)

  function Pushed(rs: seq<Req>, r: Req): seq<Req> { [r] + rs }

  function Without(rs: seq<Req>, k: nat): seq<Req>
    requires k < |rs|
  {
    rs[..k] + rs[k+1..]
  }

  function CancelAll(rs: seq<Req>): (r: seq<Req>)
    ensures |r| == |rs| && forall i :: 0 <= i < |rs| ==> r[i] == rs[i].(cancelled := true)
  {
    seq(|rs|, i requires 0 <= i < |rs| => rs[i].(cancelled := true))
  }

  class RequestInfo {
    const id: nat       // stands for the object's identity
    const token: int
    const conn: nat
    var cancelled: bool
    var next: RequestInfo?

    constructor (id: nat, token: int, conn: nat)
      ensures this.id == id && this.token == token && this.conn == conn && !cancelled && next == null
    {
      this.id, this.token, this.conn, cancelled, next := id, token, conn, false, null;
    }
  }

  class PendingRequests {
    var head: RequestInfo?
    ghost var nodes: seq<RequestInfo>
    ghost var reqs: seq<Req>

    ghost predicate Valid()
      reads this, nodes
    {
      && |reqs| == |nodes| && head == At(0)
      && (forall i {:trigger nodes[i].next} :: 0 <= i < |nodes| ==> nodes[i].next == At(i + 1))
      && (forall i {:trigger reqs[i]} :: 0 <= i < |nodes| ==>
            reqs[i] == Req(nodes[i].id, nodes[i].token, nodes[i].conn, nodes[i].cancelled))
      && (forall i, j :: 0 <= i < j < |nodes| ==> nodes[i] != nodes[j])
    }

    ghost function At(i: nat): RequestInfo?
      reads this
    {
      if i < |nodes| then nodes[i] else null
    }

    constructor ()
      ensures Valid() && reqs == []
    {
      head, nodes, reqs := null, [], [];
    }

    /** A new request goes to the front. */
    method Push(r: RequestInfo)
      requires Valid() && r !in nodes && !r.cancelled
      modifies this, r`next
      ensures Valid() && nodes == [r] + old(nodes)
      ensures reqs == Pushed(old(reqs), Req(r.id, r.token, r.conn, false))
    {
      r.next := head;
      head := r;
      nodes, reqs := [r] + nodes, [Req(r.id, r.token, r.conn, false)] + reqs;
    }

    /** Unlink a request by identity; answer whether it was there. */
    method CheckAndDequeue(r: RequestInfo) returns (found: bool, ghost k: nat)
      requires Valid()
      modifies this, nodes`next
      ensures Valid()
      ensures found <==> r in old(nodes)
      ensures !found ==> nodes == old(nodes) && reqs == old(reqs)
      ensures found ==>
        && k < |old(nodes)| && old(nodes)[k] == r
        && nodes == old(nodes[..k] + nodes[k+1..]) && reqs == Without(old(reqs), k)
    {
      var prev: RequestInfo? := null;
      var cur := head;
      k := 0;
      while cur != null
        invariant k <= |nodes| && cur == At(k) && prev == (if k > 0 then nodes[k-1] else null)
        invariant forall j :: 0 <= j < k ==> nodes[j] != r
        decreases |nodes| - k
      {
        if cur == r {
          if prev == null { head := cur.next; } else { prev.next := cur.next; }
          nodes, reqs := nodes[..k] + nodes[k+1..], reqs[..k] + reqs[k+1..];
          return true, k;
        }
        prev, cur, k := cur, cur.next, k + 1;
      }
      found := false;
    }

    /** The command socket closed: nobody waits for these answers any more. */
    method OnCommandsSocketClosed()
      requires Valid()
      modifies this`reqs, nodes`cancelled
      ensures Valid() && nodes == old(nodes) && reqs == CancelAll(old(reqs))
    {
      var cur := head;
      ghost var k: nat, before := 0, reqs;
      while cur != null
        invariant k <= |nodes| && cur == At(k) && nodes == old(nodes) && Valid()
        invariant |reqs| == |before|
        invariant forall j :: 0 <= j < |reqs| ==> reqs[j] == if j < k then before[j].(cancelled := true) else before[j]
        decreases |nodes| - k
      {
        cur.cancelled := true;
        reqs := reqs[k := reqs[k].(cancelled := true)];
        cur, k := cur.next, k + 1;
      }
    }
  }
}
