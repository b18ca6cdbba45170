/**
 The radio daemon's wake lock: an event that must wake the phone takes the lock,
 and a timer drops it later.  Acquiring is by name, so it does not count.
 */
module WakeLock {
  import opened TimerSpec

  const WAKE_TIMEOUT := Timeval(1, 0)

  /** A queued timer callback: the wake-up kind carries its cancelled mark. */
  datatype Callback = WakeTimeout(cancelled: bool) | Other
  datatype Entry = Entry(id: nat, deadline: Timeval, callback: Callback)

  datatype MaybeId = NoId | Id(id: nat)

  /**
   `open` counts wake events that took the lock and have not yet arranged its
   release; `lastWake` is a history: when the latest release was scheduled.
   */
  datatype State = State(held: bool, open: nat, queue: seq<Entry>, last: MaybeId, nextId: nat, lastWake: Timeval)

  datatype Action =
    | Grab                                     // a wake event takes the lock ...
    | Finish(now: Timeval, responseOk: bool)   // ... and schedules its release, or drops it after an error
    | RequestCallback(now: Timeval, delay: Timeval)
    | RemoveCallback(index: nat)
    | Fire(index: nat, now: Timeval)           // a collected timer's callback runs

  predicate Enabled(s: State, a: Action) {
    match a
    case Finish(_, _) => s.open > 0
    case RemoveCallback(i) => i < |s.queue| && s.queue[i].callback.Other?
    case Fire(i, now) => i < |s.queue| && Less(s.queue[i].deadline, now)
    case _ => true
  }

  function Cancel(q: seq<Entry>, last: MaybeId): (r: seq<Entry>)
    ensures |r| == |q|
    ensures forall i :: 0 <= i < |q| ==>
      r[i] == if last == Id(q[i].id) then q[i].(callback := WakeTimeout(true)) else q[i]
  {
    seq(|q|, i requires 0 <= i < |q| => if last == Id(q[i].id) then q[i].(callback := WakeTimeout(true)) else q[i])
  }

  function Do(s: State, a: Action): State
    requires Enabled(s, a)
  {
    match a
    case Grab => s.(held := true, open := s.open + 1)
    case Finish(now, responseOk) =>
      if !responseOk then s.(held := false, open := s.open - 1)
      else
        s.(open := s.open - 1,
           queue := Cancel(s.queue, s.last) + [Entry(s.nextId, Add(now, WAKE_TIMEOUT), WakeTimeout(false))],
           last := Id(s.nextId), nextId := s.nextId + 1, lastWake := now)
    case RequestCallback(now, delay) =>
      s.(queue := s.queue + [Entry(s.nextId, Add(now, delay), Other)], nextId := s.nextId + 1)
    case RemoveCallback(i) => s.(queue := s.queue[..i] + s.queue[i+1..])
    case Fire(i, now) =>
      var e := s.queue[i];
      s.(held := if e.callback == WakeTimeout(false) then false else s.held,
         queue := s.queue[..i] + s.queue[i+1..],
         last := if s.last == Id(e.id) then NoId else s.last)
  }

  const INIT := State(false, 0, [], NoId, 0, Timeval(0, 0))

  // ----- the invariant

  ghost predicate QueueInv(s: State) {
    && (forall i, j :: 0 <= i < j < |s.queue| ==> s.queue[i].id != s.queue[j].id)
    && (forall i :: 0 <= i < |s.queue| ==> s.queue[i].id < s.nextId)
    // uncancelled wake timers are exactly the last one, due one timeout after the latest wake event
    && (forall i :: 0 <= i < |s.queue| ==> (s.queue[i].callback == WakeTimeout(false) <==> s.last == Id(s.queue[i].id)))
    && (forall i :: 0 <= i < |s.queue| && s.last == Id(s.queue[i].id) ==>
      s.queue[i].deadline == Add(s.lastWake, WAKE_TIMEOUT))
    && (s.last.Id? ==> s.last.id < s.nextId && exists i :: 0 <= i < |s.queue| && s.queue[i].id == s.last.id)
  }

  ghost predicate Inv(s: State) {
    QueueInv(s) && (s.held ==> s.open > 0 || s.last.Id?)
  }

  lemma FinishKeeps(s: State, now: Timeval)
    requires QueueInv(s) && s.open > 0
    ensures QueueInv(Do(s, Finish(now, true)))
  {
    var s' := Do(s, Finish(now, true));
    assert s'.queue[|s.queue|].id == s'.last.id;
  }

  lemma Dropped(q: seq<Entry>, i: nat)
    requires i < |q|
    ensures var r := q[..i] + q[i+1..];
      && |r| == |q| - 1 && (forall k :: 0 <= k < i ==> r[k] == q[k]) && (forall k :: i <= k < |r| ==> r[k] == q[k+1])
      && ((forall j, k :: 0 <= j < k < |q| ==> q[j].id != q[k].id) ==>
            forall j, k :: 0 <= j < k < |r| ==> r[j].id != r[k].id)
  {
  }

  lemma CallbackKeeps(s: State, now: Timeval, delay: Timeval)
    requires QueueInv(s)
    ensures QueueInv(Do(s, RequestCallback(now, delay)))
  {
    if s.last.Id? {
      var j :| 0 <= j < |s.queue| && s.queue[j].id == s.last.id;
      assert Do(s, RequestCallback(now, delay)).queue[j] == s.queue[j];
    }
  }

  lemma DropKeeps(s: State, i: nat, last': MaybeId)
    requires QueueInv(s) && i < |s.queue|
    requires last' == if s.last == Id(s.queue[i].id) then NoId else s.last
    ensures QueueInv(s.(queue := s.queue[..i] + s.queue[i+1..], last := last'))
  {
    var q := s.queue[..i] + s.queue[i+1..];
    Dropped(s.queue, i);
    if last'.Id? {
      var j :| 0 <= j < |s.queue| && s.queue[j].id == s.last.id;
      assert q[if j < i then j else j - 1] == s.queue[j];
    }
  }

  lemma StepKeepsInv(s: State, a: Action)
    requires Inv(s) && Enabled(s, a)
    ensures Inv(Do(s, a))
  {
    match a {
      case Finish(now, ok) => if ok { FinishKeeps(s, now); }
      case RequestCallback(now, delay) => CallbackKeeps(s, now, delay);
      case RemoveCallback(i) => DropKeeps(s, i, s.last);
      case Fire(i, now) => DropKeeps(s, i, Do(s, a).last);
      case Grab =>
    }
  }

  // ----- whole runs

  ghost predicate IsRun(states: seq<State>, actions: seq<Action>) {
    && |states| == |actions| + 1 && states[0] == INIT
    && forall i :: 0 <= i < |actions| ==> Enabled(states[i], actions[i]) && states[i+1] == Do(states[i], actions[i])
  }

  lemma {:induction false} RunInv(states: seq<State>, actions: seq<Action>, i: nat)
    requires IsRun(states, actions) && i < |states|
    ensures Inv(states[i])
  {
    if i > 0 {
      RunInv(states, actions, i - 1);
      StepKeepsInv(states[i-1], actions[i-1]);
    }
  }

  /**
   The lock is never leaked: whenever it is held and no wake event is midway,
   exactly one uncancelled wake timer is queued, and firing it drops the lock.
   */
  lemma HeldHasOneTimer(states: seq<State>, actions: seq<Action>, n: nat, now: Timeval) returns (i: nat)
    requires IsRun(states, actions) && n < |states| && states[n].held && states[n].open == 0
    ensures var s := states[n];
      && i < |s.queue| && s.last == Id(s.queue[i].id)
      && (forall j :: 0 <= j < |s.queue| ==> (s.queue[j].callback == WakeTimeout(false) <==> j == i))
      && (Less(s.queue[i].deadline, now) ==> !Do(s, Fire(i, now)).held)
  {
    RunInv(states, actions, n);
    var s := states[n];
    i :| 0 <= i < |s.queue| && s.queue[i].id == s.last.id;
  }

  /** A step drops a held lock exactly when it is an error exit or fires the remembered timer. */
  lemma DropIs(s: State, a: Action)
    requires Inv(s) && Enabled(s, a) && s.held
    ensures !Do(s, a).held <==>
      || (a.Finish? && !a.responseOk)
      || (a.Fire? && s.last == Id(s.queue[a.index].id))
  {
  }

  /** And the lock is held after a step exactly when a wake event just took it, or it was held and is not dropped so. */
  lemma HeldIs(s: State, a: Action)
    requires Inv(s) && Enabled(s, a)
    ensures Do(s, a).held <==>
      || a.Grab?
      || (s.held && !(a.Finish? && !a.responseOk) && !(a.Fire? && s.last == Id(s.queue[a.index].id)))
    ensures Do(s, a).open == if a.Grab? then s.open + 1 else if a.Finish? then s.open - 1 else s.open
  {
  }

  /**
   A wake event that ends well queues one timer, due a second after `now`, which is the
   only one left that will drop the lock; it cancels others but removes none.
   */
  lemma FinishSchedules(s: State, now: Timeval)
    requires Inv(s) && s.open > 0 && now.Normal()
    ensures var s' := Do(s, Finish(now, true)); var n := |s.queue|;
      && |s'.queue| == n + 1 && s'.last == Id(s'.queue[n].id) && s'.lastWake == now
      && s'.queue[n].callback == WakeTimeout(false)
      && s'.queue[n].deadline.Normal() && s'.queue[n].deadline.Micros() == now.Micros() + 1_000_000
      && (forall i :: 0 <= i < n ==>
            && s'.queue[i].id == s.queue[i].id && s'.queue[i].deadline == s.queue[i].deadline
            && s'.queue[i].callback != WakeTimeout(false)
            && (s.queue[i].callback.Other? ==> s'.queue[i].callback.Other?))
  {
    FinishKeeps(s, now);
    var s' := Do(s, Finish(now, true));
    var n := |s.queue|;
    assert forall i :: 0 <= i < n ==> s'.queue[i].id == s.queue[i].id && s'.queue[i].id != s'.queue[n].id;
  }

  /** Other callbacks come and go one at a time, and besides them only a timer that fires leaves the queue. */
  lemma QueueChanges(s: State, a: Action)
    requires Inv(s) && Enabled(s, a)
    ensures var s' := Do(s, a);
      && (a.Grab? || (a.Finish? && !a.responseOk) ==> s'.queue == s.queue)
      && (a.RequestCallback? ==>
            && |s'.queue| == |s.queue| + 1 && s.queue <= s'.queue
            && s'.queue[|s.queue|].callback.Other? && s'.queue[|s.queue|].deadline == Add(a.now, a.delay))
      && (a.RemoveCallback? || a.Fire? ==>
            multiset(s'.queue) == multiset(s.queue) - multiset{s.queue[a.index]})
      && (!a.Finish? || !a.responseOk ==> s'.lastWake == s.lastWake)
  {
    if a.RemoveCallback? || a.Fire? {
      assert s.queue == s.queue[..a.index] + [s.queue[a.index]] + s.queue[a.index+1..];
    }
  }

  /** So it goes only by an error exit, or more than one timeout after the latest wake event. */
  lemma NoEarlyDrop(states: seq<State>, actions: seq<Action>, n: nat)
    requires IsRun(states, actions) && n < |actions| && states[n].held && !states[n+1].held
    ensures (actions[n].Finish? && !actions[n].responseOk)
         || (actions[n].Fire? && Less(Add(states[n].lastWake, WAKE_TIMEOUT), actions[n].now))
  {
    RunInv(states, actions, n);
    DropIs(states[n], actions[n]);
  }

  // ----- a wake event midway is not protected

  /** What can take the lock from the events midway: another one's error exit, or the previous event's timer. */
  predicate StealsLock(s: State, a: Action)
    requires Enabled(s, a)
  {
    (a.Finish? && !a.responseOk && s.open > 1) || (a.Fire? && s.last == Id(s.queue[a.index].id))
  }

  /** While events are midway a held lock is gone after a step, with some event still midway, exactly in those cases. */
  lemma DroppedMidway(s: State, a: Action)
    requires Inv(s) && Enabled(s, a) && s.held && s.open > 0
    ensures !Do(s, a).held && Do(s, a).open > 0 <==> StealsLock(s, a)
  {
    DropIs(s, a);
  }

  /** Once the lock is gone, a successful event only queues a timer: it ends with the lock free. */
  lemma UnprotectedFinish(s: State, now: Timeval)
    requires Inv(s) && !s.held && s.open > 0
    ensures var s' := Do(s, Finish(now, true)); !s'.held && s'.last.Id? && s'.lastWake == now && Inv(s')
  {
    FinishKeeps(s, now);
  }

  ghost predicate Reachable(s: State) {
    exists states, actions :: IsRun(states, actions) && states[|actions|] == s
  }

  lemma ReachInit()
    ensures Reachable(INIT)
  {
    var none: seq<Action> := [];
    assert IsRun([INIT], none) && [INIT][|none|] == INIT;
  }

  lemma ReachStep(s: State, a: Action)
    requires Reachable(s) && Enabled(s, a)
    ensures Reachable(Do(s, a))
  {
    var states, actions :| IsRun(states, actions) && states[|actions|] == s;
    var states', actions' := states + [Do(s, a)], actions + [a];
    assert IsRun(states', actions') && states'[|actions'|] == Do(s, a);
  }

  /** A first wake event, from idle to its timer being queued. */
  lemma FirstWake(s: State, now: Timeval)
    requires s == Do(INIT, Grab)
    ensures Reachable(s) && s.open > 0 && Reachable(Do(s, Finish(now, true)))
    ensures Do(s, Finish(now, true)).queue == [Entry(0, Add(now, WAKE_TIMEOUT), WakeTimeout(false))]
  {
    ReachInit();
    ReachStep(INIT, Grab);
    ReachStep(s, Finish(now, true));
  }

  /** A reachable loss to the previous event's timer. */
  lemma DroppedByTimerExample() returns (s: State, a: Action)
    ensures Reachable(s) && s.held && Enabled(s, a) && a.Fire? && !Do(s, a).held && Do(s, a).open == 1
  {
    var now := Timeval(0, 0);
    FirstWake(Do(INIT, Grab), now);
    var s1 := Do(Do(INIT, Grab), Finish(now, true));
    ReachStep(s1, Grab);
    s, a := Do(s1, Grab), Fire(0, Timeval(2, 0));
  }

  /** And one to the error exit of another event. */
  lemma DroppedByErrorExample() returns (s: State, a: Action)
    ensures Reachable(s) && s.held && Enabled(s, a) && a.Finish? && !Do(s, a).held && Do(s, a).open == 1
  {
    ReachInit();
    ReachStep(INIT, Grab);
    ReachStep(Do(INIT, Grab), Grab);
    s, a := Do(Do(INIT, Grab), Grab), Finish(Timeval(0, 0), false);
  }
}
