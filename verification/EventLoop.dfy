/**
 The radio daemon's event loop: circular lists threaded through the events with
 a sentinel event as head, and the table of watched file descriptors.
 */
module EventLoop {
  import opened Words
  import opened TimerSpec

  const MAX_FD_EVENTS := 8

  /** The delay handed to a timer: absent, or a relative time. */
  datatype Delay = Never | After(tv: Timeval)

  function Max(a: int, b: int): int { if a < b then b else a }

  lemma FirstIsEarliest(ds: seq<Timeval>)
    requires |ds| > 0 && Sorted(ds) && forall d :: d in ds ==> d.Normal()
    ensures forall d :: d in ds ==> ds[0].Micros() <= d.Micros()
  {
    forall d | d in ds ensures ds[0].Micros() <= d.Micros() {
      var i :| 0 <= i < |ds| && ds[i] == d;
      if i > 0 { LessIsEarlier(ds[i], ds[0]); }
    }
  }

  lemma Advance(ns: seq<RilEvent>, k: nat)
    requires k < |ns|
    ensures ns[..k+1] == ns[..k] + [ns[k]] && ns[k+1..] == ns[k..][1..] && ns[k..][0] == ns[k]
  {
  }

  /** One event moves over from the rest to what has been taken. */
  lemma ShiftEvent(taken: seq<RilEvent>, rest: seq<RilEvent>, before: seq<RilEvent>)
    requires |rest| > 0
    ensures taken + rest == (taken + [rest[0]]) + rest[1..]
    ensures before + taken + [rest[0]] == before + (taken + [rest[0]])
  {
  }

  lemma EventParts(whole: seq<RilEvent>, a: seq<RilEvent>, b: seq<RilEvent>)
    requires whole == a + b
    ensures whole[..|a|] == a && whole[|a|..] == b
  {
  }

  class RilEvent {
    ghost const id: Id  // stands for the object's identity
    var next: RilEvent?
    var prev: RilEvent?
    var fd: int
    var index: int
    var persist: bool
    var timeout: Timeval

    constructor (fd: int, persist: bool, ghost id: Id)
      ensures this.id == id && next == null && prev == null && this.fd == fd && index == -1 && this.persist == persist
      ensures timeout == Timeval(0, 0)
    {
      this.id := id;
      next, prev, this.fd, index, this.persist, timeout := null, null, fd, -1, persist, Timeval(0, 0);
    }
  }

  /** The node at position `k` of a circular list: past the end it is the sentinel again. */
  ghost function At(list: RilEvent, ns: seq<RilEvent>, k: int): RilEvent {
    if 0 <= k < |ns| then ns[k] else list
  }

  /** `list` heads a circular doubly linked list whose members are `ns` in order. */
  ghost predicate Ring(list: RilEvent, ns: seq<RilEvent>)
    reads list`next, list`prev, ns`next, ns`prev
  {
    && list !in ns
    && (forall i, j :: 0 <= i < j < |ns| ==> ns[i] != ns[j])
    && list.next == At(list, ns, 0) && list.prev == At(list, ns, |ns| - 1)
    && (forall i {:trigger ns[i].next} :: 0 <= i < |ns| ==> ns[i].next == At(list, ns, i + 1))
    && (forall i {:trigger ns[i].prev} :: 0 <= i < |ns| ==> ns[i].prev == At(list, ns, i - 1))
  }

  method InitList(list: RilEvent)
    modifies list
    ensures Ring(list, []) && list.fd == -1
  {
    list.next, list.prev, list.fd, list.index, list.persist, list.timeout := list, list, -1, 0, false, Timeval(0, 0);
  }

  /** Where everything is after a removal at position `k`. */
  lemma RemovedAt(ns: seq<RilEvent>, k: nat)
    requires k < |ns| && forall i, j :: 0 <= i < j < |ns| ==> ns[i] != ns[j]
    ensures var r := ns[..k] + ns[k+1..];
      && |r| == |ns| - 1 && ns[k] !in r
      && (forall i :: 0 <= i < k ==> r[i] == ns[i])
      && (forall i :: k <= i < |r| ==> r[i] == ns[i+1])
      && (forall i, j :: 0 <= i < j < |r| ==> r[i] != r[j])
  {
  }

  /** Insert `ev` in front of `at`. */
  method AddToList(ev: RilEvent, at: RilEvent, ghost list: RilEvent, ghost ns: seq<RilEvent>, ghost k: nat)
    requires Ring(list, ns) && k <= |ns| && at == At(list, ns, k) && ev != list && ev !in ns
    modifies ev`next, ev`prev, list`next, list`prev, ns`next, ns`prev
    ensures Ring(list, ns[..k] + [ev] + ns[k..])
  {
    ev.next := at;
    ev.prev := at.prev;
    ev.prev.next := ev;
    at.prev := ev;
    InsertedAt(ns, ev, k);
    ghost var r := ns[..k] + [ev] + ns[k..];
    assert forall i {:trigger r[i].prev} :: 0 <= i < |r| ==> r[i].prev == At(list, r, i - 1);
  }

  method Unlink(ev: RilEvent, ghost list: RilEvent, ghost ns: seq<RilEvent>, ghost k: nat)
    requires Ring(list, ns) && k < |ns| && ns[k] == ev
    modifies list`next, list`prev, ns`next, ns`prev
    ensures Ring(list, ns[..k] + ns[k+1..]) && ev.next == null && ev.prev == null
  {
    RemovedAt(ns, k);
    assert ev.next == At(list, ns, k + 1) && ev.prev == At(list, ns, k - 1);
    ev.next.prev := ev.prev;
    ev.prev.next := ev.next;
    ev.next := null;
    ev.prev := null;
  }

  ghost function Members(head: RilEvent, ns: seq<RilEvent>): set<RilEvent>
  {
    {head} + set e | e in ns
  }

  lemma MembersInsert(head: RilEvent, ns: seq<RilEvent>, k: nat, ev: RilEvent)
    requires k <= |ns|
    ensures Members(head, ns[..k] + [ev] + ns[k..]) == Members(head, ns) + {ev}
  {
    assert ns == ns[..k] + ns[k..];
  }

  lemma MembersRemove(head: RilEvent, ns: seq<RilEvent>, k: nat)
    requires k < |ns| && ns[k] != head && forall i, j :: 0 <= i < j < |ns| ==> ns[i] != ns[j]
    ensures Members(head, ns[..k] + ns[k+1..]) == Members(head, ns) - {ns[k]}
  {
    assert ns == ns[..k] + [ns[k]] + ns[k+1..];
  }

  /** One list: its sentinel, and the events on it. */
  class EventList {
    const head: RilEvent
    ghost var nodes: seq<RilEvent>
    ghost var members: set<RilEvent>

    ghost predicate Valid()
      reads this, members`next, members`prev
    {
      members == Members(head, nodes) && Ring(head, nodes)
    }

    constructor ()
      ensures Valid() && nodes == [] && fresh(members)
    {
      head := new RilEvent(-1, false, 0);
      nodes := [];
      new;
      InitList(head);
      members := Members(head, []);
    }

    method Add(ev: RilEvent, at: RilEvent, ghost k: nat)
      requires Valid() && k <= |nodes| && at == At(head, nodes, k) && ev !in members
      modifies this, members`next, members`prev, ev`next, ev`prev
      ensures Valid() && nodes == old(nodes)[..k] + [ev] + old(nodes)[k..] && members == old(members) + {ev}
    {
      MembersInsert(head, nodes, k, ev);
      AddToList(ev, at, head, nodes, k);
      nodes := nodes[..k] + [ev] + nodes[k..];
      members := Members(head, nodes);
    }

    /** Unlink `ev` from the list it is on; the code need not know which one that is. */
    static method Remove(ev: RilEvent, ghost list: EventList, ghost k: nat)
      requires list.Valid() && k < |list.nodes| && list.nodes[k] == ev
      modifies list, list.members`next, list.members`prev
      ensures list.Valid() && list.members == old(list.members) - {ev}
      ensures list.nodes == old(list.nodes)[..k] + old(list.nodes)[k+1..]
      ensures ev.next == null && ev.prev == null
    {
      MembersRemove(list.head, list.nodes, k);
      Unlink(ev, list.head, list.nodes, k);
      list.nodes := list.nodes[..k] + list.nodes[k+1..];
      list.members := Members(list.head, list.nodes);
    }
  }

  /** The timer list, sorted by deadline. */
  class TimerQueue {
    const list: EventList
    ghost var deadlines: seq<Timeval>

    ghost predicate Valid()
      reads this, list, list.members`next, list.members`prev, list.nodes`timeout
    {
      list.Valid() && Dated(list.nodes, deadlines) && Sorted(deadlines)
    }

    static ghost predicate Dated(ns: seq<RilEvent>, ds: seq<Timeval>)
      reads ns`timeout
    {
      |ds| == |ns| && forall i {:trigger ds[i]} :: 0 <= i < |ns| ==> ns[i].timeout == ds[i]
    }

    static lemma DatedInsert(ns: seq<RilEvent>, ds: seq<Timeval>, ev: RilEvent, k: nat)
      requires Dated(ns, ds) && k <= |ns|
      ensures Dated(ns[..k] + [ev] + ns[k..], ds[..k] + [ev.timeout] + ds[k..])
    {
    }

    static lemma DatedRemove(ns: seq<RilEvent>, ds: seq<Timeval>, k: nat)
      requires Dated(ns, ds) && k < |ns| && Sorted(ds)
      ensures Dated(ns[..k] + ns[k+1..], ds[..k] + ds[k+1..]) && Sorted(ds[..k] + ds[k+1..])
    {
    }

    constructor ()
      ensures Valid() && list.nodes == [] && deadlines == [] && fresh(list) && fresh(list.members)
    {
      list := new EventList();
      deadlines := [];
    }

    method Schedule(ev: RilEvent, deadline: Timeval)
      requires Valid() && ev !in list.members
      modifies this, list, list.members`next, list.members`prev, ev`next, ev`prev, ev`timeout
      ensures Valid() && list.members == old(list.members) + {ev}
      ensures var k := Before(old(deadlines), deadline);
        && list.nodes == old(list.nodes)[..k] + [ev] + old(list.nodes)[k..]
        && deadlines == old(deadlines)[..k] + [deadline] + old(deadlines)[k..]
    {
      ev.timeout := deadline;
      Insert(ev);
    }

    /** Queue an event in front of the first one whose deadline is not earlier. */
    method Insert(ev: RilEvent)
      requires Valid() && ev !in list.members
      modifies this, list, list.members`next, list.members`prev, ev`next, ev`prev
      ensures Valid() && list.members == old(list.members) + {ev}
      ensures var k := Before(old(deadlines), ev.timeout);
        && list.nodes == old(list.nodes)[..k] + [ev] + old(list.nodes)[k..]
        && deadlines == old(deadlines)[..k] + [ev.timeout] + old(deadlines)[k..]
    {
      var at, k := FindPlace(ev.timeout);
      InsertSorted(deadlines, ev.timeout);
      ghost var ns, ds := list.nodes, deadlines;
      deadlines := ds[..k] + [ev.timeout] + ds[k..];
      list.Add(ev, at, k);
      DatedInsert(ns, ds, ev, k);
    }

    /** The first listed timer that is not earlier than `deadline`, or the sentinel. */
    method FindPlace(deadline: Timeval) returns (at: RilEvent, ghost k: nat)
      requires Valid()
      ensures k == Before(deadlines, deadline) && at == At(list.head, list.nodes, k)
    {
      at := list.head.next;
      k := 0;
      while Less(at.timeout, deadline) && at != list.head
        invariant k <= |list.nodes| && at == At(list.head, list.nodes, k)
        invariant forall j :: 0 <= j < k ==> Less(deadlines[j], deadline)
        decreases |list.nodes| - k
      {
        assert list.nodes[k].timeout == deadlines[k];
        at := at.next;
        k := k + 1;
      }
      assert k < |list.nodes| ==> list.nodes[k].timeout == deadlines[k];
      BeforeIs(deadlines, deadline, k);
    }

    /** Unlink the earliest timer; answer the one behind it. */
    method DropFirst(tev: RilEvent) returns (next: RilEvent)
      requires Valid() && |list.nodes| > 0 && tev == list.nodes[0]
      modifies this, list, list.members`next, list.members`prev
      ensures Valid() && list.members == old(list.members) - {tev}
      ensures list.nodes == old(list.nodes)[1..] && deadlines == old(deadlines)[1..]
      ensures next == At(list.head, list.nodes, 0)
    {
      next := tev.next;
      EventList.Remove(tev, list, 0);
      deadlines := deadlines[1..];
    }

    /** How long to sleep: nothing queued, or the time to the earliest deadline but never less than zero. */
    method CalcNextTimeout(now: Timeval) returns (ret: int, tv: Timeval)
      requires Valid()
      ensures ret == if list.nodes == [] then -1 else 0
      ensures ret == 0 && now.Normal() && (forall d :: d in deadlines ==> d.Normal()) ==>
        && tv.Normal()
        && (forall d :: d in deadlines ==> tv.Micros() <= Max(0, d.Micros() - now.Micros()))
        && (exists d :: d in deadlines && tv.Micros() == Max(0, d.Micros() - now.Micros()))
    {
      var tev := list.head.next;
      tv := Timeval(0, 0);
      if tev == list.head { return -1, tv; }
      ret := 0;
      assert tev.timeout == deadlines[0];
      if Less(now, tev.timeout) { tv := Sub(tev.timeout, now); }
      if now.Normal() && forall d :: d in deadlines ==> d.Normal() {
        LessIsEarlier(now, deadlines[0]);
        FirstIsEarliest(deadlines);
      }
    }
  }

  /** The timers, and the events waiting for their callbacks. */
  class EventLists {
    const timers: TimerQueue
    const pendingList: EventList

    ghost predicate Valid()
      reads this, timers, timers.list, pendingList, timers.list.nodes`timeout
      reads timers.list.members`next, timers.list.members`prev, pendingList.members`next, pendingList.members`prev
    {
      timers.Valid() && pendingList.Valid() && timers.list != pendingList && timers.list.members !! pendingList.members
    }

    ghost function Timers(): seq<RilEvent>
      reads this, timers, timers.list
    {
      timers.list.nodes
    }

    ghost function Deadlines(): seq<Timeval>
      reads this, timers
    {
      timers.deadlines
    }

    ghost function Pending(): seq<RilEvent>
      reads this, pendingList
    {
      pendingList.nodes
    }

    ghost predicate Foreign(ev: RilEvent)
      reads this, timers, timers.list, pendingList
    {
      ev !in timers.list.members && ev !in pendingList.members
    }

    constructor ()
      ensures Valid() && Timers() == [] && Deadlines() == [] && Pending() == []
      ensures fresh(timers) && fresh(timers.list) && fresh(pendingList)
      ensures fresh(timers.list.members) && fresh(pendingList.members)
    {
      timers := new TimerQueue();
      pendingList := new EventList();
    }

    /** Queue a timer `delay` from `now`, in front of the first one that is not earlier; without a delay do nothing. */
    method TimerAdd(ev: RilEvent, delay: Delay, now: Timeval)
      requires Valid() && Foreign(ev)
      modifies timers, timers.list, timers.list.members`next, timers.list.members`prev
      modifies ev`next, ev`prev, ev`fd, ev`timeout
      ensures Valid() && Pending() == old(Pending()) && timers.list.members <= old(timers.list.members) + {ev}
      ensures delay.Never? ==> Timers() == old(Timers()) && Deadlines() == old(Deadlines())
      ensures delay.After? ==>
        var k := Before(old(Deadlines()), Add(now, delay.tv));
        && ev.fd == -1
        && Timers() == old(Timers())[..k] + [ev] + old(Timers())[k..]
        && Deadlines() == old(Deadlines())[..k] + [Add(now, delay.tv)] + old(Deadlines())[k..]
    {
      if delay.Never? { return; }
      ev.fd := -1;
      timers.Schedule(ev, Add(now, delay.tv));
    }

    /** Unlink an event from whichever list it is on; an event on none is left alone. */
    method TimerDelete(ev: RilEvent, ghost k: nat) returns (removed: bool)
      requires Valid() && ev != timers.list.head && ev != pendingList.head
      requires ev in Timers() ==> k < |Timers()| && Timers()[k] == ev
      requires ev in Pending() ==> k < |Pending()| && Pending()[k] == ev
      requires Foreign(ev) ==> ev.prev == null || ev.next == null
      modifies timers, timers.list, pendingList
      modifies timers.list.members`next, timers.list.members`prev, pendingList.members`next, pendingList.members`prev
      ensures Valid() && removed == !old(Foreign(ev))
      ensures old(ev in Timers()) ==>
        && Pending() == old(Pending())
        && Timers() == old(Timers()[..k] + Timers()[k+1..]) && Deadlines() == old(Deadlines()[..k] + Deadlines()[k+1..])
      ensures old(ev in Pending()) ==>
        && Timers() == old(Timers()) && Deadlines() == old(Deadlines())
        && Pending() == old(Pending()[..k] + Pending()[k+1..])
      ensures old(Foreign(ev)) ==>
        Timers() == old(Timers()) && Deadlines() == old(Deadlines()) && Pending() == old(Pending())
    {
      if ev.prev == null || ev.next == null { return false; }
      ghost var isTimer := ev in Timers();
      ghost var list := if isTimer then timers.list else pendingList;
      ghost var other := if isTimer then pendingList else timers.list;
      if isTimer { TimerQueue.DatedRemove(Timers(), Deadlines(), k); }
      EventList.Remove(ev, list, k);
      assert other.Valid() && other.nodes == old(other.nodes) && other.members == old(other.members);
      assert !isTimer ==> TimerQueue.Dated(Timers(), Deadlines());
      if isTimer { timers.deadlines := timers.deadlines[..k] + timers.deadlines[k+1..]; }
      removed := true;
    }

    /** Move every timer strictly before `now` to the pending list, in order. */
    method ProcessTimeouts(now: Timeval)
      requires Valid()
      modifies timers, timers.list, pendingList
      modifies timers.list.members`next, timers.list.members`prev, pendingList.members`next, pendingList.members`prev
      ensures Valid()
      ensures timers.list.members + pendingList.members == old(timers.list.members + pendingList.members)
      ensures var k := Before(old(Deadlines()), now);
        && Timers() == old(Timers())[k..] && Deadlines() == old(Deadlines())[k..]
        && Pending() == old(Pending()) + old(Timers())[..k]
    {
      ghost var all, ns, ds, ps := timers.list.members + pendingList.members, Timers(), Deadlines(), Pending();
      var tev: RilEvent := timers.list.head.next;
      ghost var taken: seq<RilEvent> := [];
      PassStarts(now);
      while tev != timers.list.head && Less(tev.timeout, now)
        invariant PassInv(ns, ds, ps, all, taken, now) && tev == At(timers.list.head, Timers(), 0)
        decreases |Timers()|
      {
        tev, taken := CollectFirst(tev, ns, ds, ps, all, taken, now);
      }
      PassDone(ns, ds, ps, all, taken, now);
    }

    /** `taken` were collected out of `ns`, all of them before `now`, onto the pending `ps`. */
    ghost predicate PassInv(ns: seq<RilEvent>, ds: seq<Timeval>, ps: seq<RilEvent>, all: set<RilEvent>,
                            taken: seq<RilEvent>, now: Timeval)
      reads this, timers, timers.list, pendingList, timers.list.nodes`timeout
      reads timers.list.members`next, timers.list.members`prev, pendingList.members`next, pendingList.members`prev
    {
      && Valid() && timers.list.members + pendingList.members == all
      && ns == taken + Timers() && Pending() == ps + taken
      && |taken| <= |ds| && Deadlines() == ds[|taken|..]
      && forall j :: 0 <= j < |taken| ==> Less(ds[j], now)
    }

    lemma PassStarts(now: Timeval)
      requires Valid()
      ensures PassInv(Timers(), Deadlines(), Pending(), timers.list.members + pendingList.members, [], now)
    {
      assert [] + Timers() == Timers() && Pending() + [] == Pending() && Deadlines()[0..] == Deadlines();
    }

    lemma PassDone(ns: seq<RilEvent>, ds: seq<Timeval>, ps: seq<RilEvent>, all: set<RilEvent>,
                   taken: seq<RilEvent>, now: Timeval)
      requires PassInv(ns, ds, ps, all, taken, now)
      requires |Timers()| > 0 ==> !Less(Timers()[0].timeout, now)
      ensures var k := Before(ds, now); Timers() == ns[k..] && Deadlines() == ds[k..] && Pending() == ps + ns[..k]
    {
      assert |Timers()| > 0 ==> Timers()[0].timeout == Deadlines()[0] == ds[|taken|];
      BeforeIs(ds, now, |taken|);
      EventParts(ns, taken, Timers());
    }

    method CollectFirst(tev: RilEvent, ghost ns: seq<RilEvent>, ghost ds: seq<Timeval>, ghost ps: seq<RilEvent>,
                        ghost all: set<RilEvent>, ghost taken: seq<RilEvent>, now: Timeval)
        returns (next: RilEvent, ghost taken': seq<RilEvent>)
      requires PassInv(ns, ds, ps, all, taken, now) && |Timers()| > 0 && tev == Timers()[0] && Less(tev.timeout, now)
      modifies timers, timers.list, pendingList
      modifies timers.list.members`next, timers.list.members`prev, pendingList.members`next, pendingList.members`prev
      ensures PassInv(ns, ds, ps, all, taken', now) && next == At(timers.list.head, Timers(), 0)
      ensures |Timers()| < old(|Timers()|)
    {
      ShiftEvent(taken, Timers(), ps);
      assert ds[|taken|] == Deadlines()[0] == tev.timeout;
      taken' := taken + [tev];
      next := MoveFirst(tev);
    }

    /** Unlink the first timer and queue it. */
    method MoveFirst(tev: RilEvent) returns (next: RilEvent)
      requires Valid() && |Timers()| > 0 && tev == Timers()[0]
      modifies timers, timers.list, pendingList
      modifies timers.list.members`next, timers.list.members`prev, pendingList.members`next, pendingList.members`prev
      ensures Valid() && next == At(timers.list.head, Timers(), 0)
      ensures timers.list.members + pendingList.members == old(timers.list.members + pendingList.members)
      ensures Timers() == old(Timers())[1..] && Deadlines() == old(Deadlines())[1..]
        && Pending() == old(Pending()) + [tev]
    {
      next := timers.DropFirst(tev);
      QueuePending(tev);
    }

    /** Append an event to the pending list. */
    method QueuePending(ev: RilEvent)
      requires Valid() && Foreign(ev)
      modifies pendingList, pendingList.members`next, pendingList.members`prev, ev`next, ev`prev
      ensures Valid() && Pending() == old(Pending()) + [ev] && pendingList.members == old(pendingList.members) + {ev}
    {
      pendingList.Add(ev, pendingList.head, |Pending()|);
    }

    /**
     Run the callbacks of everything pending, oldest first, leaving nothing pending.
     The n-th callback adds the n-th of `adds`; it may be the event just fired.
     */
    method FirePending(adds: seq<NewTimer>) returns (fired: seq<RilEvent>)
      requires Valid() && |adds| == |Pending()| && Addable(adds, Pending(), timers.list.members + {pendingList.head})
      modifies pendingList, pendingList.members`next, pendingList.members`prev
      modifies timers, timers.list, timers.list.members`next, timers.list.members`prev
      modifies EventSet(adds)`next, EventSet(adds)`prev, EventSet(adds)`fd, EventSet(adds)`timeout
      ensures Valid() && fired == old(Pending()) && Pending() == []
      ensures (Timers(), Deadlines()) == AddAll(old(Timers()), old(Deadlines()), adds)
      ensures timers.list.members <= old(timers.list.members) + EventSet(adds)
      ensures pendingList.members <= old(pendingList.members)
    {
      fired := [];
      ghost var ns, ds, ps, ms, pm := Timers(), Deadlines(), Pending(), timers.list.members, pendingList.members;
      var ev: RilEvent := pendingList.head.next;
      var k: nat := 0;
      FiringStarts(adds);
      while ev != pendingList.head
        invariant FiringInv(ns, ds, ps, ms, pm, adds, k) && ev == At(pendingList.head, Pending(), 0)
        invariant fired == ps[..k]
        decreases |ps| - k
      {
        Advance(ps, k);
        var next := FireTurn(ev, adds[k], ns, ds, ps, ms, pm, adds, k);
        fired, ev, k := fired + [ev], next, k + 1;
      }
      FiringEnds(ns, ds, ps, ms, pm, adds, k);
    }

    lemma FiringEnds(ns: seq<RilEvent>, ds: seq<Timeval>, ps: seq<RilEvent>, ms: set<RilEvent>, pm: set<RilEvent>,
                     adds: seq<NewTimer>, k: nat)
      requires FiringInv(ns, ds, ps, ms, pm, adds, k) && At(pendingList.head, Pending(), 0) == pendingList.head
      ensures k == |ps| && ps[..k] == ps && Pending() == []
      ensures (Timers(), Deadlines()) == AddAll(ns, ds, adds) && timers.list.members <= ms + EventSet(adds)
    {
      assert adds[..k] == adds;
    }

    /** The first `k` of the pending `ps` have fired, and their callbacks added the first `k` timers. */
    ghost predicate FiringInv(ns: seq<RilEvent>, ds: seq<Timeval>, ps: seq<RilEvent>, ms: set<RilEvent>,
        pm: set<RilEvent>,
                              adds: seq<NewTimer>, k: nat)
      reads this, timers, timers.list, pendingList, timers.list.nodes`timeout
      reads timers.list.members`next, timers.list.members`prev, pendingList.members`next, pendingList.members`prev
    {
      && Valid() && |ns| == |ds| && k <= |ps| == |adds| && Pending() == ps[k..]
      && (Timers(), Deadlines()) == AddAll(ns, ds, adds[..k])
      && timers.list.members <= ms + EventSet(adds[..k]) && pendingList.members <= pm
      && Addable(adds, ps, ms + {pendingList.head})
    }

    lemma FiringStarts(adds: seq<NewTimer>)
      requires Valid() && |adds| == |Pending()| && Addable(adds, Pending(), timers.list.members + {pendingList.head})
      ensures FiringInv(Timers(), Deadlines(), Pending(), timers.list.members, pendingList.members, adds, 0)
    {
      assert Pending()[0..] == Pending();
    }

    method FireTurn(ev: RilEvent, add: NewTimer, ghost ns: seq<RilEvent>, ghost ds: seq<Timeval>,
        ghost ps: seq<RilEvent>,
                    ghost ms: set<RilEvent>, ghost pm: set<RilEvent>, ghost adds: seq<NewTimer>, ghost k: nat)
        returns (next: RilEvent)
      requires k < |adds| && add == adds[k] && FiringInv(ns, ds, ps, ms, pm, adds, k) && k < |ps| && ev == ps[k]
      modifies pendingList, pendingList.members`next, pendingList.members`prev
      modifies timers, timers.list, timers.list.members`next, timers.list.members`prev
      modifies add.ev`next, add.ev`prev, add.ev`fd, add.ev`timeout
      ensures FiringInv(ns, ds, ps, ms, pm, adds, k + 1) && next == At(pendingList.head, Pending(), 0)
    {
      AddableNow(adds, ps, ms + {pendingList.head}, k);
      Advance(ps, k);
      AddAllNext(ns, ds, adds, k);
      next := FireOne(ev, add);
    }

    /** One turn: unlink the oldest event, then its callback adds a timer. */
    method FireOne(ev: RilEvent, add: NewTimer) returns (next: RilEvent)
      requires Valid() && |Pending()| > 0 && ev == Pending()[0]
      requires add.ev !in timers.list.members && add.ev != pendingList.head && add.ev !in Pending()[1..]
      modifies pendingList, pendingList.members`next, pendingList.members`prev
      modifies timers, timers.list, timers.list.members`next, timers.list.members`prev
      modifies add.ev`next, add.ev`prev, add.ev`fd, add.ev`timeout
      ensures Valid() && Pending() == old(Pending())[1..] && next == At(pendingList.head, Pending(), 0)
      ensures pendingList.members <= old(pendingList.members)
        && timers.list.members <= old(timers.list.members) + {add.ev}
      ensures (Timers(), Deadlines()) == Added(old(Timers()), old(Deadlines()), add)
    {
      next := FireNext(ev);
      TimerAdd(add.ev, add.delay, add.now);
    }

    method FireNext(ev: RilEvent) returns (next: RilEvent)
      requires Valid() && |Pending()| > 0 && ev == Pending()[0]
      modifies pendingList, pendingList.members`next, pendingList.members`prev
      ensures Valid() && Pending() == old(Pending())[1..] && next == At(pendingList.head, Pending(), 0)
      ensures pendingList.members == old(pendingList.members) - {ev}
      ensures pendingList.members == Members(pendingList.head, Pending())
    {
      next := ev.next;
      EventList.Remove(ev, pendingList, 0);
    }
  }

  // ----- callbacks that add timers

  /** What a callback adds: with the delay `Never`, nothing. */
  datatype NewTimer = NewTimer(ev: RilEvent, delay: Delay, now: Timeval)

  ghost function EventSet(adds: seq<NewTimer>): set<RilEvent> {
    set k | 0 <= k < |adds| :: adds[k].ev
  }

  /** Each callback adds another event, none of `taken`, and none that is still pending when it runs. */
  ghost predicate Addable(adds: seq<NewTimer>, ps: seq<RilEvent>, taken: set<RilEvent>) {
    && (forall k :: 0 <= k < |adds| ==> adds[k].ev !in taken)
    && (forall j, k :: 0 <= j < k < |adds| ==> adds[j].ev != adds[k].ev)
    && (forall j, k :: 0 <= k < |adds| && k < j < |ps| ==> ps[j] != adds[k].ev)
  }

  lemma AddableNow(adds: seq<NewTimer>, ps: seq<RilEvent>, taken: set<RilEvent>, k: nat)
    requires Addable(adds, ps, taken) && k < |adds| && k < |ps|
    ensures adds[k].ev !in taken + EventSet(adds[..k]) && adds[k].ev !in ps[k..][1..]
    ensures EventSet(adds[..k+1]) == EventSet(adds[..k]) + {adds[k].ev} <= EventSet(adds)
  {
    assert forall j :: 0 <= j < k ==> adds[..k+1][j] == adds[..k][j] == adds[j];
    assert adds[..k+1][k] == adds[k];
  }

  ghost function Added(ns: seq<RilEvent>, ds: seq<Timeval>, add: NewTimer): (r: (seq<RilEvent>, seq<Timeval>))
    requires |ns| == |ds|
    ensures |r.0| == |r.1|
  {
    if add.delay.Never? then (ns, ds)
    else
      var d := TimerSpec.Add(add.now, add.delay.tv);
      var k := Before(ds, d);
      (ns[..k] + [add.ev] + ns[k..], ds[..k] + [d] + ds[k..])
  }

  ghost function AddAll(ns: seq<RilEvent>, ds: seq<Timeval>, adds: seq<NewTimer>): (r: (seq<RilEvent>, seq<Timeval>))
    requires |ns| == |ds|
    ensures |r.0| == |r.1|
  {
    if |adds| == 0 then (ns, ds)
    else
      var (ns1, ds1) := AddAll(ns, ds, adds[..|adds|-1]);
      Added(ns1, ds1, adds[|adds|-1])
  }

  lemma AddAllNext(ns: seq<RilEvent>, ds: seq<Timeval>, adds: seq<NewTimer>, k: nat)
    requires |ns| == |ds| && k < |adds|
    ensures var (ns1, ds1) := AddAll(ns, ds, adds[..k]); AddAll(ns, ds, adds[..k+1]) == Added(ns1, ds1, adds[k])
  {
    assert adds[..k+1][..k] == adds[..k];
  }

  // ----- the lists do what the timer runs say

  /** A list of events with their deadlines, as values. */
  ghost function TimersIn(ns: seq<RilEvent>, ds: seq<Timeval>): (ts: seq<Timer>)
    requires |ns| == |ds|
    ensures |ts| == |ns| && Deadlines(ts) == ds && forall i :: 0 <= i < |ns| ==> ts[i] == Timer(ns[i].id, ds[i])
  {
    var ts := seq(|ns|, i requires 0 <= i < |ns| => Timer(ns[i].id, ds[i]));
    assert Deadlines(ts) == ds;
    ts
  }

  /** What TimerAdd promises is the AddTimer action. */
  lemma AddRefines(s: Timers, ns: seq<RilEvent>, ds: seq<Timeval>, ev: RilEvent, d: Timeval)
    requires |ns| == |ds| && s.listed == TimersIn(ns, ds) && Enabled(s, AddTimer(Timer(ev.id, d)))
    ensures var k := Before(ds, d);
      Do(s, AddTimer(Timer(ev.id, d))).listed == TimersIn(ns[..k] + [ev] + ns[k..], ds[..k] + [d] + ds[k..])
  {
  }

  /** What TimerDelete promises of a listed event is the DeleteTimer action. */
  lemma DeleteRefines(s: Timers, ns: seq<RilEvent>, ds: seq<Timeval>, k: nat)
    requires |ns| == |ds| && s.listed == TimersIn(ns, ds) && k < |ns|
    ensures Do(s, DeleteTimer(k)).listed == TimersIn(ns[..k] + ns[k+1..], ds[..k] + ds[k+1..])
  {
  }

  /** What ProcessTimeouts promises is the Pass action. */
  lemma PassRefines(s: Timers, ns: seq<RilEvent>, ds: seq<Timeval>, now: Timeval)
    requires |ns| == |ds| && s.listed == TimersIn(ns, ds)
    ensures var k := Before(ds, now); var s' := Do(s, Pass(now));
      s'.listed == TimersIn(ns[k..], ds[k..]) && s'.pending == s.pending + Collect(TimersIn(ns[..k], ds[..k]), now)
  {
    var k := Before(ds, now);
    assert s.listed[k..] == TimersIn(ns[k..], ds[k..]) && s.listed[..k] == TimersIn(ns[..k], ds[..k]);
  }

  /** The callbacks waiting in a run are those of the pending events. */
  ghost predicate PendingMatches(s: Timers, ps: seq<RilEvent>) {
    |s.pending| == |ps| && forall i :: 0 <= i < |ps| ==> s.pending[i].timer.id == ps[i].id
  }

  /** What FireNext promises is the FireNext action. */
  lemma FireRefines(s: Timers, ps: seq<RilEvent>)
    requires PendingMatches(s, ps) && |ps| > 0
    ensures PendingMatches(Do(s, FireNext), ps[1..])
    ensures Do(s, FireNext).fired == s.fired + [s.pending[0]] && s.pending[0].timer.id == ps[0].id
  {
  }

  /** A pass keeps the pending events matched. */
  lemma PassMatches(s: Timers, ns: seq<RilEvent>, ds: seq<Timeval>, ps: seq<RilEvent>, now: Timeval)
    requires |ns| == |ds| && s.listed == TimersIn(ns, ds) && PendingMatches(s, ps)
    ensures PendingMatches(Do(s, Pass(now)), ps + ns[..Before(ds, now)])
  {
  }
}
