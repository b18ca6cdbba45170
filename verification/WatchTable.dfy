/** The table of watched file descriptors, the set handed to `select`, and the ready pass. */
module WatchTable {
  import opened EventLoop
  import opened TimerSpec

  /** Watched events whose descriptor is ready, in slot order. */
  ghost function Ready(slots: seq<RilEvent?>, rfds: set<int>): seq<RilEvent>
    reads slots`fd
  {
    if |slots| == 0 then []
    else
      var n := |slots| - 1;
      Ready(slots[..n], rfds) + (if slots[n] != null && slots[n].fd in rfds then [slots[n]] else [])
  }

  /** The table after a ready pass: without the ready events that are not persistent. */
  ghost function Kept(slots: seq<RilEvent?>, rfds: set<int>): (r: seq<RilEvent?>)
    reads slots`fd, slots`persist
    ensures |r| == |slots|
  {
    if |slots| == 0 then []
    else
      var n := |slots| - 1;
      Kept(slots[..n], rfds) + [if Watches.Stays(slots[n], rfds) then slots[n] else null]
  }

  lemma {:induction false} KeptIs(slots: seq<RilEvent?>, rfds: set<int>)
    ensures forall i :: 0 <= i < |slots| ==>
      Kept(slots, rfds)[i] == if Watches.Stays(slots[i], rfds) then slots[i] else null
  {
    if |slots| > 0 { KeptIs(slots[..|slots|-1], rfds); }
  }

  lemma ReadyNext(slots: seq<RilEvent?>, i: nat, rfds: set<int>)
    requires i < |slots|
    ensures Ready(slots[..i+1], rfds) ==
            Ready(slots[..i], rfds) + (if slots[i] != null && slots[i].fd in rfds then [slots[i]] else [])
  {
    assert slots[..i+1][..i] == slots[..i];
  }

  /** A kept slot is as it was, unless it held a ready event that is not persistent. */
  lemma {:induction false} KeptMeans(slots: seq<RilEvent?>, rfds: set<int>)
    ensures forall i :: 0 <= i < |slots| ==>
      Kept(slots, rfds)[i] == if slots[i] != null && slots[i].fd in rfds && !slots[i].persist then null else slots[i]
  {
    KeptIs(slots, rfds);
  }

  /** The descriptors of the events, slot by slot. */
  ghost function Fds(slots: seq<RilEvent?>): (fds: seq<int>)
    reads slots`fd
    ensures |fds| == |slots| && forall i :: 0 <= i < |slots| && slots[i] != null ==> fds[i] == slots[i].fd
  {
    if |slots| == 0 then []
    else
      var n := |slots| - 1;
      Fds(slots[..n]) + [if slots[n] == null then -1 else slots[n].fd]
  }

  lemma FdsKept(slots: seq<RilEvent?>, kept: seq<RilEvent?>, fds: seq<int>, before: set<int>, after: set<int>)
    requires |kept| == |fds| == |slots| && forall i :: 0 <= i < |slots| ==> kept[i] == null || kept[i] == slots[i]
    requires before == set i | 0 <= i < |slots| && slots[i] != null :: fds[i]
    requires after == set i | 0 <= i < |slots| && kept[i] != null :: fds[i]
    requires forall i, j :: 0 <= i < j < |slots| && slots[i] != null && slots[j] != null ==> fds[i] != fds[j]
    ensures forall f :: f in after <==>
      f in before && forall i :: 0 <= i < |slots| && slots[i] != null && fds[i] == f ==> kept[i] != null
  {
  }

  /** The ready events are in the list, and nothing else is. */
  lemma {:induction false} ReadyIn(slots: seq<RilEvent?>, rfds: set<int>, e: RilEvent)
    ensures e in Ready(slots, rfds) <==>
      exists i :: 0 <= i < |slots| && slots[i] == e && slots[i] != null && slots[i].fd in rfds
  {
    if |slots| > 0 {
      var n := |slots| - 1;
      var front := slots[..n];
      ReadyIn(front, rfds, e);
      if i :| 0 <= i < |slots| && slots[i] == e && slots[i] != null && slots[i].fd in rfds {
        assert i < n ==> front[i] == e && front[i] != null && front[i].fd in rfds;
      }
      if i :| 0 <= i < |front| && front[i] == e && front[i] != null && front[i].fd in rfds {
        assert slots[i] == e;
      }
    }
  }

  /** They are there in slot order, so each once. */
  lemma {:induction false} ReadyOrder(slots: seq<RilEvent?>, rfds: set<int>, a: nat, b: nat) returns (i: nat, j: nat)
    requires a < b < |Ready(slots, rfds)|
    ensures i < j < |slots| && slots[i] == Ready(slots, rfds)[a] && slots[j] == Ready(slots, rfds)[b]
  {
    var n := |slots| - 1;
    var front := slots[..n];
    if b < |Ready(front, rfds)| {
      i, j := ReadyOrder(front, rfds, a, b);
    } else {
      ReadyIn(front, rfds, Ready(front, rfds)[a]);
      i :| 0 <= i < |front| && front[i] == Ready(front, rfds)[a];
      j := n;
    }
  }

  class Watches {
    const table: array<RilEvent?>
    var readFds: set<int>
    var nfds: int
    ghost var known: set<RilEvent>      // every event ever set up
    ghost var slotOf: map<int, nat>     // which slot watches a descriptor

    ghost predicate Valid()
      reads this, table, known`index, known`fd
    {
      Tabled() && Bounded(readFds, nfds)
    }

    /** Table, indices and descriptor set agree. */
    ghost predicate Tabled()
      reads this, table, known`index, known`fd
    {
      && table.Length == MAX_FD_EVENTS
      // slot i holds e exactly when e's index is i
      && (forall i {:trigger table[i]} :: 0 <= i < MAX_FD_EVENTS && table[i] != null ==>
            table[i] in known && table[i].index == i && table[i].fd >= 0
            && table[i].fd in slotOf && slotOf[table[i].fd] == i)
      && (forall e {:trigger e.index} :: e in known && 0 <= e.index < MAX_FD_EVENTS ==> table[e.index] == e)
      && (forall f :: f in slotOf ==> slotOf[f] < MAX_FD_EVENTS && table[slotOf[f]] != null && table[slotOf[f]].fd == f)
      && readFds == slotOf.Keys
    }

    /** The descriptor set is exactly the watched descriptors, and no descriptor is watched twice. */
    lemma WatchedExactly()
      requires Valid()
      ensures readFds == (set i | 0 <= i < MAX_FD_EVENTS && table[i] != null :: table[i].fd)
      ensures forall i, j :: 0 <= i < j < MAX_FD_EVENTS && table[i] != null && table[j] != null ==>
        table[i].fd != table[j].fd
    {
      forall i, j | 0 <= i < j < MAX_FD_EVENTS && table[i] != null && table[j] != null
        ensures table[i].fd != table[j].fd
      {
        assert slotOf[table[i].fd] == i && slotOf[table[j].fd] == j;
      }
      forall f | f in readFds ensures exists i :: 0 <= i < MAX_FD_EVENTS && table[i] != null && table[i].fd == f {
        assert table[slotOf[f]].fd == f;
      }
    }

    /** `nfds` is one more than the largest watched descriptor; with nothing watched it is 0 or 1. */
    static ghost predicate Bounded(fds: set<int>, nfds: int) {
      if nfds - 1 in fds then forall f :: f in fds ==> f < nfds
      else 0 <= nfds <= 1 && forall f :: f !in fds
    }

    constructor ()
      ensures Valid() && (forall i :: 0 <= i < MAX_FD_EVENTS ==> table[i] == null) && known == {} && readFds == {}
      ensures fresh(table)
    {
      table := new RilEvent?[MAX_FD_EVENTS](_ => null);
      readFds, nfds, known, slotOf := {}, 0, {}, map[];
    }

    ghost predicate Full()
      reads table
    {
      forall i :: 0 <= i < table.Length ==> table[i] != null
    }

    /**
     Watch `ev` in the first free slot; a full table drops it silently.  The table stays
     consistent exactly when it was full or nobody watched the descriptor yet.
     */
    method EventAdd(ev: RilEvent)
      requires Valid() && ev in known && ev.fd >= 0
      modifies this`readFds, this`nfds, this`slotOf, table, ev`index
      ensures Valid() <==> old(Full() || ev.fd !in readFds)
      ensures old(Full()) ==>
        table[..] == old(table[..]) && readFds == old(readFds) && nfds == old(nfds) && ev.index == old(ev.index)
      ensures !old(Full()) ==>
        && 0 <= ev.index < MAX_FD_EVENTS && old(table[..])[ev.index] == null
        && (forall i :: 0 <= i < ev.index ==> old(table[i]) != null)
        && table[..] == old(table[..])[ev.index := ev] && readFds == old(readFds) + {ev.fd}
    {
      var i := FirstFree();
      if i < MAX_FD_EVENTS { Watch(ev, i); }
    }

    /** Put an event into a free slot. */
    method Watch(ev: RilEvent, i: nat)
      requires Valid() && ev in known && ev.fd >= 0 && i < MAX_FD_EVENTS && table[i] == null
      modifies this`readFds, this`nfds, this`slotOf, table, ev`index
      ensures Valid() <==> ev.fd !in old(readFds)
      ensures ev.index == i && table[..] == old(table[..])[i := ev] && readFds == old(readFds) + {ev.fd}
    {
      ghost var j := if ev.fd in slotOf then slotOf[ev.fd] else i;
      Enter(ev, i);
      if ev.fd >= nfds { nfds := ev.fd + 1; }
      if j != i { TwiceWatched(i, j); }
    }

    method Enter(ev: RilEvent, i: nat)
      requires Tabled() && ev in known && ev.fd >= 0 && i < MAX_FD_EVENTS && table[i] == null
      modifies this`readFds, this`slotOf, table, ev`index
      ensures ev.fd !in old(readFds) ==> Tabled()
      ensures ev.index == i && table[..] == old(table[..])[i := ev] && readFds == old(readFds) + {ev.fd}
      ensures forall j :: 0 <= j < MAX_FD_EVENTS && j != i ==> table[j] == old(table[j])
    {
      table[i] := ev;
      ev.index := i;
      readFds, slotOf := readFds + {ev.fd}, slotOf[ev.fd := i];
    }

    /** A descriptor in two slots is an inconsistency. */
    lemma TwiceWatched(i: nat, j: nat)
      requires table.Length == MAX_FD_EVENTS && i < MAX_FD_EVENTS && j < MAX_FD_EVENTS && i != j
      requires table[i] != null && table[j] != null && table[i].fd == table[j].fd
      ensures !Valid()
    {
    }

    method FirstFree() returns (i: nat)
      requires table.Length == MAX_FD_EVENTS
      ensures i <= MAX_FD_EVENTS && (forall j :: 0 <= j < i ==> table[j] != null)
      ensures i < MAX_FD_EVENTS ==> table[i] == null
    {
      i := 0;
      while i < MAX_FD_EVENTS && table[i] != null
        invariant i <= MAX_FD_EVENTS && forall j :: 0 <= j < i ==> table[j] != null
      {
        i := i + 1;
      }
    }

    /** Prepare an event.  The table stays consistent exactly when the event was not watched. */
    method EventSet(ev: RilEvent, fd: int, persist: bool)
      requires Valid()
      modifies this`known, ev
      ensures Valid() <==> forall i :: 0 <= i < MAX_FD_EVENTS ==> table[i] != ev
      ensures known == old(known) + {ev} && table[..] == old(table[..]) && readFds == old(readFds)
      ensures ev.fd == fd && ev.index == -1 && ev.persist == persist && ev.next == null && ev.prev == null
    {
      assert forall f :: f in slotOf ==> table[slotOf[f]] in known;
      ev.next, ev.prev, ev.fd, ev.index, ev.persist, ev.timeout := null, null, fd, -1, persist, Timeval(0, 0);
      known := known + {ev};
    }

    /** Stop watching: free the slot, forget the descriptor, and lower `nfds` when it was the largest. */
    method RemoveWatch(ev: RilEvent, index: int)
      requires Valid() && 0 <= index < MAX_FD_EVENTS && table[index] == ev
      modifies this`readFds, this`nfds, this`slotOf, table, ev`index
      ensures Valid() && ev.index == -1 && table[..] == old(table[..])[index := null]
      ensures readFds == old(readFds) - {ev.fd}
    {
      Clear(ev, index);
      if ev.fd + 1 == nfds {
        var n := LargestFd();
        nfds := n + 1;
      }
    }

    method Clear(ev: RilEvent, index: int)
      requires Tabled() && 0 <= index < MAX_FD_EVENTS && table[index] == ev
      modifies this`readFds, this`slotOf, table, ev`index
      ensures Tabled() && ev.index == -1 && table[..] == old(table[..])[index := null]
      ensures readFds == old(readFds) - {ev.fd}
    {
      table[index] := null;
      ev.index := -1;
      readFds, slotOf := readFds - {ev.fd}, slotOf - {ev.fd};
    }

    method LargestFd() returns (n: int)
      requires Tabled()
      ensures Bounded(readFds, n + 1)
    {
      n := 0;
      var i := 0;
      ghost var at := -1;
      while i < MAX_FD_EVENTS
        invariant 0 <= i <= MAX_FD_EVENTS && n >= 0
        invariant forall j :: 0 <= j < i && table[j] != null ==> table[j].fd <= n
        invariant -1 <= at < i && (at >= 0 ==> table[at] != null && table[at].fd == n)
        invariant at < 0 ==> n == 0 && forall f :: f in readFds ==> slotOf[f] >= i
      {
        if table[i] != null && (table[i].fd > n || at < 0) { at := i; }
        var rev := table[i];
        if rev != null && rev.fd > n { n := rev.fd; }
        i := i + 1;
      }
    }

    /** Remove an event by its own index; one that is not watched is left alone. */
    method EventDel(ev: RilEvent)
      requires Valid() && ev in known
      modifies this`readFds, this`nfds, this`slotOf, table, ev`index
      ensures Valid() && !(0 <= ev.index < MAX_FD_EVENTS)
      ensures !(0 <= old(ev.index) < MAX_FD_EVENTS) ==>
        table[..] == old(table[..]) && readFds == old(readFds) && nfds == old(nfds)
      ensures 0 <= old(ev.index) < MAX_FD_EVENTS ==>
        table[..] == old(table[..])[old(ev.index) := null] && readFds == old(readFds) - {ev.fd}
    {
      if ev.index < 0 || ev.index >= MAX_FD_EVENTS { return; }
      RemoveWatch(ev, ev.index);
    }

    /** Whether slot `j` survives a ready pass: unwatched, not ready, or persistent. */
    static ghost predicate Stays(e: RilEvent?, rfds: set<int>)
      reads {e}`fd, {e}`persist
    {
      e == null || e.fd !in rfds || e.persist
    }

    /**
     Queue every ready watched event once, in slot order, and stop watching the
     non-persistent ones.  `n` is the number of ready descriptors, as `select` counts them.
     */
    method ProcessReadReadies(lists: EventLists, rfds: set<int>, n: int)
      requires Valid() && lists.Valid() && n == |rfds|
      requires forall i :: 0 <= i < MAX_FD_EVENTS && table[i] != null && table[i].fd in rfds ==> lists.Foreign(table[i])
      modifies this`readFds, this`nfds, this`slotOf, table, known`index, known`next, known`prev
      modifies lists.pendingList, lists.pendingList.members`next, lists.pendingList.members`prev
      ensures Valid() && lists.Valid()
      // a slot is emptied exactly when it held a ready event that is not persistent
      ensures forall i :: 0 <= i < MAX_FD_EVENTS ==>
        if old(table[i] != null && table[i].fd in rfds && !table[i].persist) then table[i] == null
        else table[i] == old(table[i])
      // and the descriptors of those slots are forgotten, no others
      ensures forall f :: f in readFds <==>
        && f in old(readFds)
        && forall i :: 0 <= i < MAX_FD_EVENTS && old(table[i] != null && table[i].fd == f) ==>
             f !in rfds || old(table[i].persist)
      // ReadyIn and ReadyOrder say which these are: all ready events, in slot order and once each
      ensures lists.Pending() == old(lists.Pending() + Ready(table[..], rfds))
    {
      ghost var slots, fds := table[..], Fds(table[..]);
      KeptMeans(slots, rfds);
      FdsPass(lists, rfds, n, slots, fds, Kept(slots, rfds), Ready(slots, rfds));
      assert forall i :: 0 <= i < MAX_FD_EVENTS ==> table[i] == table[..][i];
    }

    /** The descriptors forgotten are those of the emptied slots. */
    method FdsPass(lists: EventLists, rfds: set<int>, n: int, ghost slots: seq<RilEvent?>, ghost fds: seq<int>,
                   ghost kept: seq<RilEvent?>, ghost ready: seq<RilEvent>)
      requires Valid() && lists.Valid() && n == |rfds|
      requires forall i :: 0 <= i < MAX_FD_EVENTS && table[i] != null && table[i].fd in rfds ==> lists.Foreign(table[i])
      requires slots == table[..] && kept == Kept(slots, rfds) && ready == Ready(slots, rfds)
      requires |fds| == |slots| && forall i :: 0 <= i < |slots| && slots[i] != null ==> fds[i] == slots[i].fd
      modifies this`readFds, this`nfds, this`slotOf, table, known`index, known`next, known`prev
      modifies lists.pendingList, lists.pendingList.members`next, lists.pendingList.members`prev
      ensures Valid() && lists.Valid() && table[..] == kept && lists.Pending() == old(lists.Pending()) + ready
      ensures forall f :: f in readFds <==>
        f in old(readFds) && forall i :: 0 <= i < |slots| && slots[i] != null && fds[i] == f ==> kept[i] != null
    {
      ghost var watched := readFds;
      KeptIs(slots, rfds);
      FdsAre(slots, fds);
      ReadyPass(lists, rfds, n);
      FdsAre(kept, fds);
      FdsKept(slots, kept, fds, watched, readFds);
    }

    lemma FdsAre(slots: seq<RilEvent?>, fds: seq<int>)
      requires Valid() && table[..] == slots && |fds| == |slots|
      requires forall i :: 0 <= i < |slots| && slots[i] != null ==> fds[i] == slots[i].fd
      ensures readFds == set i | 0 <= i < |slots| && slots[i] != null :: fds[i]
      ensures forall i, j :: 0 <= i < j < |slots| && slots[i] != null && slots[j] != null ==> fds[i] != fds[j]
    {
      WatchedExactly();
      assert forall i :: 0 <= i < MAX_FD_EVENTS ==> table[i] == slots[i];
    }

    method ReadyPass(lists: EventLists, rfds: set<int>, n: int)
      requires Valid() && lists.Valid() && n == |rfds|
      requires forall i :: 0 <= i < MAX_FD_EVENTS && table[i] != null && table[i].fd in rfds ==> lists.Foreign(table[i])
      modifies this`readFds, this`nfds, this`slotOf, table, known`index, known`next, known`prev
      modifies lists.pendingList, lists.pendingList.members`next, lists.pendingList.members`prev
      ensures Valid() && lists.Valid() && table[..] == old(Kept(table[..], rfds))
      ensures lists.Pending() == old(lists.Pending() + Ready(table[..], rfds))
      ensures lists.pendingList.members <= old(lists.pendingList.members) + known
    {
      ghost var slots, kept := table[..], Kept(table[..], rfds);
      QueueAll(lists, rfds, n);
      assert Kept(slots, rfds) == kept;
    }

    method QueueAll(lists: EventLists, rfds: set<int>, n: int)
      requires Valid() && lists.Valid() && n == |rfds|
      requires forall i :: 0 <= i < MAX_FD_EVENTS && table[i] != null && table[i].fd in rfds ==> lists.Foreign(table[i])
      modifies this`readFds, this`nfds, this`slotOf, table, known`index, known`next, known`prev
      modifies lists.pendingList, lists.pendingList.members`next, lists.pendingList.members`prev
      ensures Valid() && lists.Valid() && table[..] == Kept(old(table[..]), rfds)
      ensures lists.Pending() == old(lists.Pending() + Ready(table[..], rfds))
      ensures lists.pendingList.members <= old(lists.pendingList.members) + known
    {
      ghost var slots, ready := table[..], Ready(table[..], rfds);
      VisitSlots(lists, rfds, n);
      KeptIs(slots, rfds);
      assert Ready(slots, rfds) == ready;
    }

    method VisitSlots(lists: EventLists, rfds: set<int>, n: int)
      requires Valid() && lists.Valid() && n == |rfds|
      requires forall i :: 0 <= i < MAX_FD_EVENTS && table[i] != null && table[i].fd in rfds ==> lists.Foreign(table[i])
      modifies this`readFds, this`nfds, this`slotOf, table, known`index, known`next, known`prev
      modifies lists.pendingList, lists.pendingList.members`next, lists.pendingList.members`prev
      ensures Valid() && lists.Valid()
      ensures lists.Pending() == old(lists.Pending()) + Ready(old(table[..]), rfds)
      ensures lists.pendingList.members <= old(lists.pendingList.members) + known
      ensures forall i :: 0 <= i < MAX_FD_EVENTS ==>
        table[i] == if Stays(old(table[..])[i], rfds) then old(table[..])[i] else null
    {
      ghost var slots, pending := table[..], lists.Pending();
      ghost var done: set<int> := {};
      var left := n;
      var i := 0;
      while i < MAX_FD_EVENTS && left > 0
        invariant 0 <= i <= MAX_FD_EVENTS && known == old(known)
        invariant done <= rfds && left == |rfds| - |done|
        invariant TablePass(rfds, slots, done, i) && ListPass(lists, rfds, slots, pending, i)
        invariant lists.pendingList.members <= old(lists.pendingList.members) + known
      {
        left, done := VisitSlot(lists, rfds, i, left, slots, pending, done);
        i := i + 1;
      }
      if i < MAX_FD_EVENTS { AllDone(slots, i, rfds, done); } else { assert slots[..i] == slots; }
    }

    /** What a turn fires: the expired timers in deadline order, then the ready events in slot order. */
    ghost function Due(lists: EventLists, now: Timeval, rfds: set<int>): seq<RilEvent>
      requires lists.Valid()
      reads table, table[..]`fd, lists, lists.timers, lists.timers.list, lists.pendingList,
        lists.timers.list.nodes`timeout
      reads lists.timers.list.members`next, lists.timers.list.members`prev
      reads lists.pendingList.members`next, lists.pendingList.members`prev
    {
      lists.Timers()[..Before(lists.Deadlines(), now)] + Ready(table[..], rfds)
    }

    /** Watched events are never timers, and nothing waits for its callback between turns. */
    ghost predicate BetweenTurns(lists: EventLists)
      reads this, table, known`index, known`fd, lists, lists.timers, lists.timers.list, lists.pendingList
      reads lists.timers.list.nodes`timeout, lists.timers.list.members`next, lists.timers.list.members`prev
      reads lists.pendingList.members`next, lists.pendingList.members`prev
    {
      && Valid() && lists.Valid() && lists.Pending() == []
      && known !! lists.timers.list.members && lists.pendingList.head !in known
    }

    /** The events that stay on the timer list of a turn, and the two sentinels. */
    ghost function Busy(lists: EventLists, now: Timeval): set<RilEvent>
      requires lists.Valid()
      reads lists, lists.timers, lists.timers.list, lists.pendingList, lists.timers.list.nodes`timeout
      reads lists.timers.list.members`next, lists.timers.list.members`prev
      reads lists.pendingList.members`next, lists.pendingList.members`prev
    {
      Members(lists.timers.list.head, lists.Timers()[Before(lists.Deadlines(), now)..]) + {lists.pendingList.head}
    }

    /**
     One turn of the event loop after `select` answered `n` ready descriptors: everything
     due fires once, and the next turn starts as this one did.  The callbacks add timers,
     none of them a watched event or one that is busy.
     */
    method LoopTurn(lists: EventLists, now: Timeval, rfds: set<int>, n: int, adds: seq<NewTimer>)
        returns (fired: seq<RilEvent>)
      requires BetweenTurns(lists) && n == |rfds|
      requires |adds| == |Due(lists, now, rfds)| && Addable(adds, Due(lists, now, rfds), Busy(lists, now))
      requires EventLoop.EventSet(adds) !! known
      modifies this`readFds, this`nfds, this`slotOf, table, known`index, known`next, known`prev
      modifies lists.pendingList, lists.timers, lists.timers.list
      modifies lists.pendingList.members`next, lists.pendingList.members`prev
      modifies lists.timers.list.members`next, lists.timers.list.members`prev
      modifies EventLoop.EventSet(adds)`next, EventLoop.EventSet(adds)`prev
      modifies EventLoop.EventSet(adds)`fd, EventLoop.EventSet(adds)`timeout
      ensures BetweenTurns(lists) && fired == old(Due(lists, now, rfds)) && table[..] == old(Kept(table[..], rfds))
      ensures var k := Before(old(lists.Deadlines()), now);
        (lists.Timers(), lists.Deadlines()) == AddAll(old(lists.Timers())[k..], old(lists.Deadlines())[k..], adds)
    {
      ghost var k := Before(lists.Deadlines(), now);
      ghost var ns, ds, expired := lists.Timers()[k..], lists.Deadlines()[k..], lists.Timers()[..k];
      ghost var all := lists.pendingList.members + lists.timers.list.members + known;
      ghost var ready, kept := Ready(table[..], rfds), Kept(table[..], rfds);
      TimersFirst(lists, now, rfds, ns, ds, expired, all);
      AddReady(lists, rfds, n, ns, ds, expired, all, ready, kept);
      fired := FireDue(lists, adds, ns, ds, expired + ready, kept, all);
    }

    /** Midway through a turn: what is listed, what waits, what is watched, and whose links may change. */
    ghost predicate Midway(lists: EventLists, ns: seq<RilEvent>, ds: seq<Timeval>, waiting: seq<RilEvent>,
                           slots: seq<RilEvent?>, all: set<RilEvent>)
      reads this, table, known`index, known`fd, lists, lists.timers, lists.timers.list, lists.pendingList
      reads lists.timers.list.nodes`timeout, lists.timers.list.members`next, lists.timers.list.members`prev
      reads lists.pendingList.members`next, lists.pendingList.members`prev
    {
      && Valid() && lists.Valid() && table[..] == slots
      && lists.Timers() == ns && lists.Deadlines() == ds && lists.Pending() == waiting
      && known !! lists.timers.list.members && lists.pendingList.head !in known
      && known + lists.timers.list.members + lists.pendingList.members <= all
    }

    method PassTimers(lists: EventLists, now: Timeval, ghost ns: seq<RilEvent>, ghost ds: seq<Timeval>,
                      ghost expired: seq<RilEvent>, ghost all: set<RilEvent>)
      requires BetweenTurns(lists)
      requires all == lists.pendingList.members + lists.timers.list.members + known
      requires var k := Before(lists.Deadlines(), now);
        ns == lists.Timers()[k..] && ds == lists.Deadlines()[k..] && expired == lists.Timers()[..k]
      modifies lists.pendingList, lists.timers, lists.timers.list
      modifies lists.pendingList.members`next, lists.pendingList.members`prev
      modifies lists.timers.list.members`next, lists.timers.list.members`prev
      ensures Midway(lists, ns, ds, expired, old(table[..]), all) && known !! lists.pendingList.members
    {
      assert lists.pendingList.members == {lists.pendingList.head};
      lists.ProcessTimeouts(now);
    }

    /** That pass does not touch what decides which events are ready ... */
    method TimersReady(lists: EventLists, now: Timeval, ghost rfds: set<int>, ghost ns: seq<RilEvent>,
        ghost ds: seq<Timeval>,
                       ghost expired: seq<RilEvent>, ghost all: set<RilEvent>)
      requires BetweenTurns(lists)
      requires all == lists.pendingList.members + lists.timers.list.members + known
      requires var k := Before(lists.Deadlines(), now);
        ns == lists.Timers()[k..] && ds == lists.Deadlines()[k..] && expired == lists.Timers()[..k]
      modifies lists.pendingList, lists.timers, lists.timers.list
      modifies lists.pendingList.members`next, lists.pendingList.members`prev
      modifies lists.timers.list.members`next, lists.timers.list.members`prev
      ensures Midway(lists, ns, ds, expired, old(table[..]), all) && known !! lists.pendingList.members
      ensures Ready(old(table[..]), rfds) == old(Ready(table[..], rfds))
    {
      PassTimers(lists, now, ns, ds, expired, all);
    }

    /** ... and which of them stay. */
    method TimersFirst(lists: EventLists, now: Timeval, ghost rfds: set<int>, ghost ns: seq<RilEvent>,
        ghost ds: seq<Timeval>,
                       ghost expired: seq<RilEvent>, ghost all: set<RilEvent>)
      requires BetweenTurns(lists)
      requires all == lists.pendingList.members + lists.timers.list.members + known
      requires var k := Before(lists.Deadlines(), now);
        ns == lists.Timers()[k..] && ds == lists.Deadlines()[k..] && expired == lists.Timers()[..k]
      modifies lists.pendingList, lists.timers, lists.timers.list
      modifies lists.pendingList.members`next, lists.pendingList.members`prev
      modifies lists.timers.list.members`next, lists.timers.list.members`prev
      ensures Midway(lists, ns, ds, expired, old(table[..]), all) && known !! lists.pendingList.members
      ensures Ready(table[..], rfds) == old(Ready(table[..], rfds))
        && Kept(table[..], rfds) == old(Kept(table[..], rfds))
    {
      ghost var slots := table[..];
      TimersReady(lists, now, rfds, ns, ds, expired, all);
      assert table[..] == slots;
    }

    method FireDue(lists: EventLists, adds: seq<NewTimer>, ghost ns: seq<RilEvent>, ghost ds: seq<Timeval>,
                   ghost due: seq<RilEvent>, ghost kept: seq<RilEvent?>, ghost all: set<RilEvent>)
        returns (fired: seq<RilEvent>)
      requires Midway(lists, ns, ds, due, kept, all) && |adds| == |due| && |ns| == |ds|
      requires Addable(adds, due, Members(lists.timers.list.head, ns) + {lists.pendingList.head})
      requires EventLoop.EventSet(adds) !! known
      modifies lists.pendingList, lists.pendingList.members`next, lists.pendingList.members`prev
      modifies lists.timers, lists.timers.list, lists.timers.list.members`next, lists.timers.list.members`prev
      modifies EventLoop.EventSet(adds)`next, EventLoop.EventSet(adds)`prev
      modifies EventLoop.EventSet(adds)`fd, EventLoop.EventSet(adds)`timeout
      ensures BetweenTurns(lists) && fired == due && table[..] == kept
      ensures (lists.Timers(), lists.Deadlines()) == AddAll(ns, ds, adds)
    {
      fired := lists.FirePending(adds);
    }

    method AddReady(lists: EventLists, rfds: set<int>, n: int, ghost ns: seq<RilEvent>, ghost ds: seq<Timeval>,
                    ghost expired: seq<RilEvent>, ghost all: set<RilEvent>,
                    ghost ready: seq<RilEvent>, ghost kept: seq<RilEvent?>)
      requires Midway(lists, ns, ds, expired, table[..], all) && known !! lists.pendingList.members && n == |rfds|
      requires ready == Ready(table[..], rfds) && kept == Kept(table[..], rfds)
      modifies this`readFds, this`nfds, this`slotOf, table, known`index, known`next, known`prev
      modifies lists.pendingList, lists.pendingList.members`next, lists.pendingList.members`prev
      ensures Midway(lists, ns, ds, expired + ready, kept, all)
    {
      ReadyPass(lists, rfds, n);
    }

    /** Slots below `i` have been visited; `done` are the descriptors handled so far. */
    ghost predicate TablePass(rfds: set<int>, slots: seq<RilEvent?>, done: set<int>, i: nat)
      reads this, table, known`index, known`fd, slots`fd, slots`persist
    {
      && Valid() && |slots| == MAX_FD_EVENTS && i <= MAX_FD_EVENTS
      && (forall j :: i <= j < MAX_FD_EVENTS ==> table[j] == slots[j] && (slots[j] != null ==> slots[j].fd !in done))
      && (forall j :: 0 <= j < i ==> table[j] == if Stays(slots[j], rfds) then slots[j] else null)
    }

    /** The ready events of those slots are pending; those of later slots are on no list. */
    static ghost predicate ListPass(lists: EventLists, rfds: set<int>, slots: seq<RilEvent?>, pending: seq<RilEvent>,
        i: nat)
      reads slots`fd, lists, lists.timers, lists.timers.list, lists.pendingList, lists.timers.list.nodes`timeout
      reads lists.timers.list.members`next, lists.timers.list.members`prev
      reads lists.pendingList.members`next, lists.pendingList.members`prev
    {
      && lists.Valid() && i <= |slots|
      && (forall j :: i <= j < |slots| && slots[j] != null && slots[j].fd in rfds ==> lists.Foreign(slots[j]))
      && lists.Pending() == pending + Ready(slots[..i], rfds)
    }

    method VisitSlot(lists: EventLists, rfds: set<int>, i: int, left: int,
                     ghost slots: seq<RilEvent?>, ghost pending: seq<RilEvent>, ghost done: set<int>)
        returns (left': int, ghost done': set<int>)
      requires 0 <= i < MAX_FD_EVENTS && TablePass(rfds, slots, done, i) && ListPass(lists, rfds, slots, pending, i)
      requires done <= rfds && left == |rfds| - |done|
      modifies this`readFds, this`nfds, this`slotOf, table, known`index, known`next, known`prev
      modifies lists.pendingList, lists.pendingList.members`next, lists.pendingList.members`prev
      ensures TablePass(rfds, slots, done', i + 1) && ListPass(lists, rfds, slots, pending, i + 1)
        && known == old(known)
      ensures done' <= rfds && left' == |rfds| - |done'|
      ensures lists.pendingList.members <= old(lists.pendingList.members) + known
    {
      left', done' := left, done;
      var rev := table[i];
      if rev == null || rev.fd !in rfds {
        SkipSlot(lists, rfds, slots, pending, done, i);
      } else {
        Handled(done, rev.fd, rfds);
        done' := done + {rev.fd};
        VisitReady(lists, rfds, i, rev, slots, pending, done);
        left' := left - 1;
      }
    }

    method VisitReady(lists: EventLists, rfds: set<int>, i: int, rev: RilEvent,
                      ghost slots: seq<RilEvent?>, ghost pending: seq<RilEvent>, ghost done: set<int>)
      requires 0 <= i < MAX_FD_EVENTS && TablePass(rfds, slots, done, i) && ListPass(lists, rfds, slots, pending, i)
      requires table[i] == rev && rev.fd in rfds
      modifies this`readFds, this`nfds, this`slotOf, table, rev`index, rev`next, rev`prev
      modifies lists.pendingList, lists.pendingList.members`next, lists.pendingList.members`prev
      ensures TablePass(rfds, slots, done + {rev.fd}, i + 1) && ListPass(lists, rfds, slots, pending, i + 1)
      ensures lists.pendingList.members == old(lists.pendingList.members) + {rev}
    {
      DistinctLater(i);
      QueueReady(lists, rfds, i, rev, slots, pending);
      UnwatchListed(lists, rfds, i, rev, slots, pending, done);
    }

    /** Taking it off the table does not touch the lists. */
    method UnwatchListed(lists: EventLists, rfds: set<int>, i: int, rev: RilEvent,
                         ghost slots: seq<RilEvent?>, ghost pending: seq<RilEvent>, ghost done: set<int>)
      requires 0 <= i < MAX_FD_EVENTS && TablePass(rfds, slots, done, i) && ListPass(lists, rfds, slots, pending, i + 1)
      requires table[i] == rev && rev.fd in rfds
      modifies this`readFds, this`nfds, this`slotOf, table, rev`index
      ensures TablePass(rfds, slots, done + {rev.fd}, i + 1) && ListPass(lists, rfds, slots, pending, i + 1)
    {
      Unwatch(rfds, i, rev, slots, done);
    }

    lemma SkipSlot(lists: EventLists, rfds: set<int>, slots: seq<RilEvent?>, pending: seq<RilEvent>, done: set<int>,
        i: nat)
      requires TablePass(rfds, slots, done, i) && ListPass(lists, rfds, slots, pending, i) && i < MAX_FD_EVENTS
      requires table[i] == null || table[i].fd !in rfds
      ensures TablePass(rfds, slots, done, i + 1) && ListPass(lists, rfds, slots, pending, i + 1)
    {
      ReadyNext(slots, i, rfds);
    }

    /** A ready event stays watched only when it is persistent. */
    method Unwatch(rfds: set<int>, i: int, rev: RilEvent, ghost slots: seq<RilEvent?>, ghost done: set<int>)
      requires 0 <= i < MAX_FD_EVENTS && TablePass(rfds, slots, done, i) && table[i] == rev && rev.fd in rfds
      modifies this`readFds, this`nfds, this`slotOf, table, rev`index
      ensures TablePass(rfds, slots, done + {rev.fd}, i + 1)
    {
      DistinctLater(i);
      if !rev.persist { RemoveWatch(rev, i); }
      assert table[..] == old(table[..])[i := table[i]];
      forall j | 0 <= j < MAX_FD_EVENTS && j != i ensures table[j] == old(table[j]) {
        assert table[..][j] == old(table[..])[j];
      }
    }

    /** No later slot watches the same event or the same descriptor. */
    lemma DistinctLater(i: nat)
      requires Valid() && i < MAX_FD_EVENTS && table[i] != null
      ensures forall j :: i < j < MAX_FD_EVENTS && table[j] != null ==>
        table[j] != table[i] && table[j].fd != table[i].fd
    {
      assert forall j :: i < j < MAX_FD_EVENTS && table[j] != null ==> slotOf[table[j].fd] == j;
    }

    /** The ready event of slot `i` joins the pending list. */
    static method QueueReady(lists: EventLists, rfds: set<int>, i: int, rev: RilEvent,
                             ghost slots: seq<RilEvent?>, ghost pending: seq<RilEvent>)
      requires 0 <= i < |slots| && ListPass(lists, rfds, slots, pending, i) && slots[i] == rev && rev.fd in rfds
      requires forall j :: i < j < |slots| ==> slots[j] != rev
      modifies rev`next, rev`prev, lists.pendingList, lists.pendingList.members`next, lists.pendingList.members`prev
      ensures ListPass(lists, rfds, slots, pending, i + 1)
      ensures lists.pendingList.members == old(lists.pendingList.members) + {rev}
    {
      ReadyNext(slots, i, rfds);
      lists.QueuePending(rev);
    }
  }

  /** Once as many descriptors were handled as are ready, no later slot is ready. */
  lemma AllDone(slots: seq<RilEvent?>, i: nat, rfds: set<int>, done: set<int>)
    requires i <= |slots| && done <= rfds && |done| >= |rfds|
    requires forall j :: i <= j < |slots| && slots[j] != null ==> slots[j].fd !in done
    ensures done == rfds && Ready(slots, rfds) == Ready(slots[..i], rfds)
  {
    SubsetSize(done, rfds);
    ReadyStops(slots, i, rfds);
  }

  lemma Handled(done: set<int>, fd: int, rfds: set<int>)
    requires done <= rfds && fd in rfds && fd !in done
    ensures done + {fd} <= rfds && |done + {fd}| == |done| + 1
  {
  }

  lemma SubsetSize(a: set<int>, b: set<int>)
    requires a <= b
    ensures |b| == |a| + |b - a|
  {
    assert b == a + (b - a);
  }

  lemma {:induction false} ReadyStops(slots: seq<RilEvent?>, i: nat, rfds: set<int>)
    requires i <= |slots| && forall j :: i <= j < |slots| && slots[j] != null ==> slots[j].fd !in rfds
    ensures Ready(slots, rfds) == Ready(slots[..i], rfds)
    decreases |slots|
  {
    if i < |slots| {
      var n := |slots| - 1;
      ReadyStops(slots[..n], i, rfds);
      assert slots[..n][..i] == slots[..i];
    } else {
      assert slots[..i] == slots;
    }
  }
}
