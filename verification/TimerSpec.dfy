/** Timers as values: comparing and adding times, the sorted list, and whole runs of the timer queue. */
module TimerSpec {
  import opened Words

  const USEC := 1_000_000

  datatype Timeval = Timeval(sec: int, usec: int) {
    predicate Normal() { 0 <= usec < USEC }
    function Micros(): int { sec * USEC + usec }
  }

  /** Seconds decide; microseconds break ties. */
  predicate Less(a: Timeval, b: Timeval) {
    if a.sec == b.sec then a.usec < b.usec else a.sec < b.sec
  }

  function Add(a: Timeval, b: Timeval): (r: Timeval)
    ensures r.Micros() == a.Micros() + b.Micros()
    ensures a.Normal() && b.Normal() ==> r.Normal()
  {
    var s, u := a.sec + b.sec, a.usec + b.usec;
    if u >= USEC then Timeval(s + 1, u - USEC) else Timeval(s, u)
  }

  function Sub(a: Timeval, b: Timeval): (r: Timeval)
    ensures r.Micros() == a.Micros() - b.Micros()
    ensures a.Normal() && b.Normal() ==> r.Normal()
  {
    var s, u := a.sec - b.sec, a.usec - b.usec;
    if u < 0 then Timeval(s - 1, u + USEC) else Timeval(s, u)
  }

  /** On normalised times the comparison is the comparison of instants. */
  lemma LessIsEarlier(a: Timeval, b: Timeval)
    requires a.Normal() && b.Normal()
    ensures Less(a, b) <==> a.Micros() < b.Micros()
  {
  }

  predicate Sorted(ds: seq<Timeval>) {
    forall i, j :: 0 <= i < j < |ds| ==> !Less(ds[j], ds[i])
  }

  /** Length of the longest prefix strictly before `d`. */
  function Before(ds: seq<Timeval>, d: Timeval): (k: nat)
    ensures k <= |ds| && (forall j :: 0 <= j < k ==> Less(ds[j], d)) && (k < |ds| ==> !Less(ds[k], d))
  {
    if |ds| > 0 && Less(ds[0], d) then
      var k := Before(ds[1..], d);
      assert forall j :: 0 < j < k + 1 ==> ds[j] == ds[1..][j-1];
      k + 1
    else 0
  }

  lemma BeforeIs(ds: seq<Timeval>, d: Timeval, k: nat)
    requires k <= |ds| && (forall j :: 0 <= j < k ==> Less(ds[j], d)) && (k < |ds| ==> !Less(ds[k], d))
    ensures k == Before(ds, d)
  {
  }

  /** Inserting before the first entry that is not earlier keeps a list sorted. */
  lemma InsertSorted(ds: seq<Timeval>, d: Timeval)
    requires Sorted(ds)
    ensures var k := Before(ds, d); Sorted(ds[..k] + [d] + ds[k..])
  {
  }

  /** In a sorted list the expired prefix is all that has expired. */
  lemma ExpiredIsPrefix(ds: seq<Timeval>, now: Timeval)
    requires Sorted(ds)
    ensures forall j :: 0 <= j < |ds| ==> (Less(ds[j], now) <==> j < Before(ds, now))
  {
  }

  // ----- runs

  type Id = nat
  datatype Timer = Timer(id: Id, deadline: Timeval)
  datatype Fired = Fired(timer: Timer, collected: Timeval)

  /** `pending` remembers when each timer was collected; `deleted` and `added` are histories. */
  datatype Timers = Timers(listed: seq<Timer>, pending: seq<Fired>, fired: seq<Fired>, deleted: seq<Timer>,
    added: seq<Timer>)

  function Deadlines(ts: seq<Timer>): (ds: seq<Timeval>)
    ensures |ds| == |ts| && forall i :: 0 <= i < |ts| ==> ds[i] == ts[i].deadline
  {
    seq(|ts|, i requires 0 <= i < |ts| => ts[i].deadline)
  }

  function Collect(ts: seq<Timer>, now: Timeval): (fs: seq<Fired>)
    ensures |fs| == |ts| && forall i :: 0 <= i < |ts| ==> fs[i] == Fired(ts[i], now)
  {
    seq(|ts|, i requires 0 <= i < |ts| => Fired(ts[i], now))
  }

  datatype Action =
    | AddTimer(timer: Timer)    // a fresh event
    | DeleteTimer(index: nat)   // one that is still listed
    | Pass(now: Timeval)        // collect what has expired
    | FireNext                  // run the oldest collected callback; it may add timers before the next one runs

  predicate Enabled(s: Timers, a: Action) {
    match a
    case AddTimer(t) => forall u :: u in s.added ==> u.id != t.id
    case DeleteTimer(i) => i < |s.listed|
    case Pass(_) => true
    case FireNext => |s.pending| > 0
  }

  function Do(s: Timers, a: Action): Timers
    requires Enabled(s, a)
  {
    match a
    case AddTimer(t) =>
      var k := Before(Deadlines(s.listed), t.deadline);
      s.(listed := s.listed[..k] + [t] + s.listed[k..], added := s.added + [t])
    case DeleteTimer(i) =>
      s.(listed := s.listed[..i] + s.listed[i+1..], deleted := s.deleted + [s.listed[i]])
    case Pass(now) =>
      var k := Before(Deadlines(s.listed), now);
      s.(listed := s.listed[k..], pending := s.pending + Collect(s.listed[..k], now))
    case FireNext =>
      s.(pending := s.pending[1..], fired := s.fired + [s.pending[0]])
  }

  function TimersOf(fs: seq<Fired>): (ts: seq<Timer>)
    ensures |ts| == |fs| && forall i :: 0 <= i < |fs| ==> ts[i] == fs[i].timer
  {
    seq(|fs|, i requires 0 <= i < |fs| => fs[i].timer)
  }

  ghost predicate Inv(s: Timers) {
    && Sorted(Deadlines(s.listed))
    && multiset(s.added) ==
       multiset(s.listed) + multiset(TimersOf(s.pending)) + multiset(TimersOf(s.fired)) + multiset(s.deleted)
    && (forall i, j :: 0 <= i < j < |s.added| ==> s.added[i].id != s.added[j].id)
    && (forall f :: f in s.pending ==> Less(f.timer.deadline, f.collected))
    && (forall f :: f in s.fired ==> Less(f.timer.deadline, f.collected))
  }

  lemma AddKeeps(s: Timers, t: Timer)
    requires Inv(s) && Enabled(s, AddTimer(t))
    ensures Inv(Do(s, AddTimer(t)))
  {
    var s' := Do(s, AddTimer(t));
    InsertIntoList(s.listed, t);
    forall i, j | 0 <= i < j < |s'.added| ensures s'.added[i].id != s'.added[j].id {
      if j == |s.added| { assert s.added[i] in s.added; }
    }
  }

  lemma InsertIntoList(ts: seq<Timer>, t: Timer)
    requires Sorted(Deadlines(ts))
    ensures var k := Before(Deadlines(ts), t.deadline); var r := ts[..k] + [t] + ts[k..];
      Sorted(Deadlines(r)) && multiset(r) == multiset(ts) + multiset{t}
  {
    var ds := Deadlines(ts);
    var k := Before(ds, t.deadline);
    InsertSorted(ds, t.deadline);
    assert Deadlines(ts[..k] + [t] + ts[k..]) == ds[..k] + [t.deadline] + ds[k..];
    assert ts == ts[..k] + ts[k..];
  }

  lemma DeleteKeeps(s: Timers, i: nat)
    requires Inv(s) && i < |s.listed|
    ensures Inv(Do(s, DeleteTimer(i)))
  {
    var ds := Deadlines(s.listed);
    assert Deadlines(Do(s, DeleteTimer(i)).listed) == ds[..i] + ds[i+1..];
    assert s.listed == s.listed[..i] + [s.listed[i]] + s.listed[i+1..];
  }

  lemma PassKeeps(s: Timers, now: Timeval)
    requires Inv(s)
    ensures Inv(Do(s, Pass(now)))
  {
    var k := Before(Deadlines(s.listed), now);
    SortedSuffix(s.listed, k);
    CollectMoves(s.listed, k, s.pending, now);
    forall j | 0 <= j < k ensures Less(s.listed[..k][j].deadline, now) {
      assert Less(Deadlines(s.listed)[j], now);
    }
  }

  lemma SortedSuffix(ts: seq<Timer>, k: nat)
    requires k <= |ts| && Sorted(Deadlines(ts))
    ensures Sorted(Deadlines(ts[k..]))
  {
    assert Deadlines(ts[k..]) == Deadlines(ts)[k..];
  }

  lemma CollectMoves(ts: seq<Timer>, k: nat, pending: seq<Fired>, now: Timeval)
    requires k <= |ts|
    ensures multiset(ts) + multiset(TimersOf(pending)) ==
            multiset(ts[k..]) + multiset(TimersOf(pending + Collect(ts[..k], now)))
  {
    assert ts == ts[..k] + ts[k..];
    assert TimersOf(pending + Collect(ts[..k], now)) == TimersOf(pending) + ts[..k];
  }

  lemma FireKeeps(s: Timers)
    requires Inv(s) && |s.pending| > 0
    ensures Inv(Do(s, FireNext))
  {
    var ps, fs := TimersOf(s.pending), TimersOf(s.fired);
    assert TimersOf(Do(s, FireNext).fired) == fs + [ps[0]];
    assert TimersOf(Do(s, FireNext).pending) == ps[1..] && ps == [ps[0]] + ps[1..];
  }

  ghost predicate IsRun(states: seq<Timers>, actions: seq<Action>) {
    && |states| == |actions| + 1 && states[0] == Timers([], [], [], [], [])
    && forall i :: 0 <= i < |actions| ==> Enabled(states[i], actions[i]) && states[i+1] == Do(states[i], actions[i])
  }

  /**
   In every run each added timer is in exactly one of listed, pending, fired and
   deleted, the list stays sorted, and nothing is collected before its deadline.
   */
  lemma {:induction false} TimerRun(states: seq<Timers>, actions: seq<Action>, i: nat)
    requires IsRun(states, actions) && i < |states|
    ensures Inv(states[i])
  {
    if i > 0 {
      TimerRun(states, actions, i - 1);
      var s := states[i-1];
      match actions[i-1] {
        case AddTimer(t) => AddKeeps(s, t);
        case DeleteTimer(k) => DeleteKeeps(s, k);
        case Pass(now) => PassKeeps(s, now);
        case FireNext => FireKeeps(s);
      }
    }
  }

  /** No timer fires twice. */
  lemma FiredOnce(s: Timers, i: nat, j: nat)
    requires Inv(s) && i < j < |s.fired|
    ensures s.fired[i].timer.id != s.fired[j].timer.id
  {
    var ts := TimersOf(s.fired);
    if ts[i].id == ts[j].id {
      assert ts[i] in multiset(s.added) && ts[j] in multiset(s.added);
      if ts[i] == ts[j] {
        Twice(ts, i, j);
        UniqueOnce(s.added, ts[i]);
      }
    }
  }

  lemma UniqueOnce(ts: seq<Timer>, t: Timer)
    requires forall i, j :: 0 <= i < j < |ts| ==> ts[i].id != ts[j].id
    ensures multiset(ts)[t] <= 1
  {
    if |ts| > 0 {
      UniqueOnce(ts[1..], t);
      assert ts == [ts[0]] + ts[1..];
      forall j | 0 <= j < |ts[1..]| ensures ts[1..][j] != ts[0] {
        assert ts[1..][j] == ts[j+1];
      }
      assert ts[0] !in ts[1..];
    }
  }

  /** One pass collects exactly the expired timers, in nondecreasing deadline order. */
  lemma PassCollectsExpired(s: Timers, now: Timeval)
    requires Inv(s)
    ensures var s' := Do(s, Pass(now)); var k := Before(Deadlines(s.listed), now);
      && s'.pending == s.pending + Collect(s.listed[..k], now)
      && (forall t :: t in s.listed && Less(t.deadline, now) <==> t in s.listed[..k])
      && (forall t :: t in s'.listed ==> !Less(t.deadline, now))
      && Sorted(Deadlines(s.listed[..k]))
  {
  }
}
