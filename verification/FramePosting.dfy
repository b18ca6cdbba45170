/**
 Posting frames: the application thread in `fb_post` and the display thread in
 `disp_loop`, as a state machine whose steps are the critical sections.  One
 posting thread, swap interval 1, two buffers, no spurious wake-ups.
 */
module FramePosting {
  import opened DisplayQueue

  const NUM_BUFFERS := 2

  datatype Frame = Frame(buffer: nat, idx: int)

  datatype Poster =
    | Idle
    | Entered(buffer: nat, nxt: int)   // next index chosen
    | Unavail(buffer: nat, nxt: int)   // that slot marked unavailable
    | Pushed(buffer: nat, nxt: int)    // frame queued
    | Waiting(buffer: nat, nxt: int)   // asleep on the current slot's condition
    | Woken(buffer: nat, nxt: int)     // signalled, slot lock not yet retaken
    | Leaving(buffer: nat, nxt: int)   // free to return

  datatype Display =
    | Looking
    | Sleeping
    | Roused
    | Holding(frame: Frame)
    | Shown(frame: Frame)
    | Lost                             // read the head of an empty queue

  datatype State = State(
    currentIdx: int, hasCurrent: bool, avail: seq<bool>, queue: seq<Frame>,
    poster: Poster, display: Display, curBuf: int,
    pushed: seq<Frame>, shown: seq<Frame>, marked: nat)

  datatype Action =
    | Enter(buffer: nat) | MarkUnavail | Push | Check | Rewake | Leave
    | Look | Rouse | Show | MarkAvail

  const INIT := State(-1, false, [true, true], [], Idle, Looking, -1, [], [], 0)

  predicate Slot(i: int) { 0 <= i < NUM_BUFFERS }

  predicate Enabled(s: State, a: Action) {
    && |s.avail| == NUM_BUFFERS
    && match a
       case Enter(_) => s.poster.Idle?
       case MarkUnavail => s.poster.Entered? && Slot(s.poster.nxt)
       case Push => s.poster.Unavail?
       case Check => s.poster.Pushed? && (s.hasCurrent ==> Slot(s.currentIdx))
       case Rewake => s.poster.Woken? && Slot(s.currentIdx)
       case Leave => s.poster.Leaving?
       case Look => s.display.Looking?
       case Rouse => s.display.Roused?
       case Show => s.display.Holding?
       case MarkAvail => s.display.Shown? && Slot(Released(s))
  }

  /** The slot that showing a frame gives back: the previous frame's, or its own for the first frame. */
  function Released(s: State): int
    requires s.display.Shown?
  {
    if s.curBuf == -1 then s.display.frame.idx else s.curBuf
  }

  function Dequeue(s: State): State {
    if s.queue == [] then s.(display := Lost)
    else s.(display := Holding(s.queue[0]), queue := s.queue[1..])
  }

  function Do(s: State, a: Action): State
    requires Enabled(s, a)
  {
    match a
    case Enter(buffer) => s.(poster := Entered(buffer, (s.currentIdx + 1) % NUM_BUFFERS))
    case MarkUnavail =>
      s.(avail := s.avail[s.poster.nxt := false], poster := Unavail(s.poster.buffer, s.poster.nxt))
    case Push =>
      var f := Frame(s.poster.buffer, s.poster.nxt);
      s.(queue := s.queue + [f], pushed := s.pushed + [f], poster := Pushed(s.poster.buffer, s.poster.nxt),
         display := if s.display.Sleeping? then Roused else s.display)
    case Check =>
      s.(poster := if s.hasCurrent && !s.avail[s.currentIdx] then Waiting(s.poster.buffer, s.poster.nxt)
                   else Leaving(s.poster.buffer, s.poster.nxt))
    case Rewake =>
      s.(avail := s.avail[s.currentIdx := true], poster := Leaving(s.poster.buffer, s.poster.nxt))
    case Leave => s.(hasCurrent := true, currentIdx := s.poster.nxt, poster := Idle)
    case Look => if s.queue == [] then s.(display := Sleeping) else Dequeue(s)
    case Rouse => Dequeue(s)
    case Show => s.(shown := s.shown + [s.display.frame], display := Shown(s.display.frame))
    case MarkAvail =>
      s.(avail := s.avail[Released(s) := true], curBuf := s.display.frame.idx, marked := s.marked + 1,
         display := Looking,
         poster := if s.poster.Waiting? && s.currentIdx == Released(s)
                   then Woken(s.poster.buffer, s.poster.nxt) else s.poster)
  }

  // ----- the invariant

  function InHand(s: State): seq<Frame> {
    if s.display.Holding? then [s.display.frame] else []
  }

  /** Pushed frames that the display thread has not finished with. */
  function InFlight(s: State): int { |s.pushed| - s.marked }

  /** Posts that have returned. */
  function Posts(s: State): int {
    if s.poster.Idle? || s.poster.Entered? || s.poster.Unavail? then |s.pushed| else |s.pushed| - 1
  }

  /** Frames are shown once each, in post order, and slots alternate. */
  ghost predicate Pipeline(s: State) {
    && s.pushed == s.shown + InHand(s) + s.queue
    && (forall k :: 0 <= k < |s.pushed| ==> s.pushed[k].idx == k % 2)
    && |s.shown| == s.marked + (if s.display.Shown? then 1 else 0)
    && (s.display.Shown? ==> s.display.frame == s.shown[s.marked])
    && s.curBuf == (if s.marked == 0 then -1 else (s.marked - 1) % 2)
    && !s.display.Lost?
    && (s.display.Sleeping? ==> s.queue == [])
    && (s.display.Roused? ==> s.queue != [])
  }

  ghost predicate PosterInv(s: State) {
    var p := Posts(s);
    && p >= 0 && |s.avail| == NUM_BUFFERS
    && s.hasCurrent == (p > 0)
    && s.currentIdx == (if p == 0 then -1 else (p - 1) % 2)
    && (!s.poster.Idle? ==> s.poster.nxt == p % 2)
  }

  /** Odd slot: unavailable from the latest odd post's marking until the frame after it is shown. */
  ghost predicate OddSlot(s: State, p: int)
    requires |s.avail| == NUM_BUFFERS
  {
    var marking := p % 2 == 1 && !s.poster.Idle? && !s.poster.Entered?;
    var last := if marking then p else if p % 2 == 0 then p - 1 else p - 2;
    s.avail[1] == (last < 0 || s.marked >= last + 2)
  }

  /** Even slot: the frame before the latest even post may still give it back late. */
  ghost predicate EvenSlot(s: State, p: int)
    requires |s.avail| == NUM_BUFFERS
  {
    var marking := p % 2 == 0 && !s.poster.Idle? && !s.poster.Entered?;
    var last := if marking then p else if p % 2 == 0 then p - 2 else p - 1;
    && (last < 0 ==> s.avail[0])
    && (last == 0 ==> s.avail[0] == (s.marked >= 1))
    && (last >= 2 ==> (s.marked >= last + 2 ==> s.avail[0]) && (s.avail[0] ==> s.marked >= last))
  }

  /** How far the display thread may lag: an even post after the first drains everything. */
  ghost predicate Lag(s: State, p: int)
    requires |s.avail| == NUM_BUFFERS && (p > 0 ==> Slot(s.currentIdx))
  {
    && (p % 2 == 1 && p >= 3 ==> s.marked >= p)
    && (p % 2 == 0 && p >= 2 ==> s.marked >= p - 1)
    && (s.poster.Waiting? ==> p > 0 && !s.avail[s.currentIdx])
    && (s.poster.Woken? ==> p > 0)
    && (s.poster.Woken? || s.poster.Leaving? ==>
          && (p == 1 ==> s.marked >= 1)
          && (p % 2 == 0 && p >= 2 ==> s.marked >= p + 1))
  }

  ghost predicate Inv(s: State) {
    Pipeline(s) && Slots(s)
  }

  lemma ShownSlot(s: State)
    requires Pipeline(s) && s.display.Shown?
    ensures s.marked < |s.pushed| && s.display.frame.idx == s.marked % 2
    ensures Slot(Released(s))
  {
    assert s.pushed[s.marked] == s.shown[s.marked];
  }

  lemma PushKeepsPipeline(s: State)
    requires Pipeline(s) && PosterInv(s) && Enabled(s, Push)
    ensures Pipeline(Do(s, Push))
  {
    var s' := Do(s, Push);
    assert s'.pushed == s'.shown + InHand(s') + s'.queue;
  }

  lemma DequeueKeepsPipeline(s: State)
    requires Pipeline(s) && s.queue != [] && (s.display.Looking? || s.display.Roused?)
    ensures Pipeline(Dequeue(s))
  {
  }

  lemma ShowKeepsPipeline(s: State)
    requires Pipeline(s) && s.display.Holding? && |s.avail| == NUM_BUFFERS
    ensures Pipeline(Do(s, Show))
  {
    assert Do(s, Show).shown + [] == Do(s, Show).shown;
  }

  lemma StepKeepsPipeline(s: State, a: Action)
    requires Pipeline(s) && PosterInv(s) && Enabled(s, a)
    ensures Pipeline(Do(s, a))
  {
    match a {
      case Push => PushKeepsPipeline(s);
      case Look => if s.queue != [] { DequeueKeepsPipeline(s); }
      case Rouse => DequeueKeepsPipeline(s);
      case Show => ShowKeepsPipeline(s);
      case MarkAvail => ShownSlot(s);
      case _ =>
    }
  }

  ghost predicate Slots(s: State) {
    PosterInv(s) && OddSlot(s, Posts(s)) && EvenSlot(s, Posts(s)) && Lag(s, Posts(s))
  }

  lemma EnterKeepsSlots(s: State, a: Action)
    requires Slots(s) && Enabled(s, a) && (a.Enter? || a.Push?)
    ensures Slots(Do(s, a))
  {
  }

  lemma MarkKeepsSlots(s: State)
    requires Slots(s) && s.marked <= |s.pushed| && Enabled(s, MarkUnavail)
    ensures Slots(Do(s, MarkUnavail))
  {
  }

  lemma CheckKeepsSlots(s: State)
    requires Slots(s) && s.marked <= |s.pushed| && Enabled(s, Check)
    ensures Slots(Do(s, Check))
  {
  }

  lemma RewakeKeepsSlots(s: State)
    requires Slots(s) && s.marked <= |s.pushed| && Enabled(s, Rewake)
    ensures Slots(Do(s, Rewake))
  {
  }

  lemma LeaveKeepsSlots(s: State)
    requires Slots(s) && s.marked <= |s.pushed| && Enabled(s, Leave)
    ensures Slots(Do(s, Leave))
  {
  }

  lemma LookingKeepsSlots(s: State, a: Action)
    requires Slots(s) && Enabled(s, a) && (a.Look? || a.Rouse?)
    ensures Slots(Do(s, a))
  {
  }

  lemma ShowKeepsSlots(s: State)
    requires Slots(s) && Enabled(s, Show)
    ensures Slots(Do(s, Show))
  {
  }

  lemma MarkAvailKeepsSlots(s: State)
    requires Inv(s) && Enabled(s, MarkAvail)
    ensures Slots(Do(s, MarkAvail))
  {
    ShownSlot(s);
  }

  lemma StepKeepsSlots(s: State, a: Action)
    requires Inv(s) && Enabled(s, a)
    ensures Slots(Do(s, a))
  {
    assert s.marked <= |s.pushed|;
    match a
    case Enter(_) => EnterKeepsSlots(s, a);
    case MarkUnavail => MarkKeepsSlots(s);
    case Push => EnterKeepsSlots(s, a);
    case Check => CheckKeepsSlots(s);
    case Rewake => RewakeKeepsSlots(s);
    case Leave => LeaveKeepsSlots(s);
    case MarkAvail => MarkAvailKeepsSlots(s);
    case Show => ShowKeepsSlots(s);
    case _ => LookingKeepsSlots(s, a);
  }

  // ----- whole runs

  ghost predicate IsRun(states: seq<State>, actions: seq<Action>) {
    && |states| == |actions| + 1 && states[0] == INIT
    && forall i :: 0 <= i < |actions| ==> Enabled(states[i], actions[i]) && states[i+1] == Do(states[i], actions[i])
  }

  lemma {:induction false} RunInv(states: seq<State>, actions: seq<Action>, i: nat)
    requires IsRun(states, actions) && i < |states|
    ensures Inv(states[i])
  {
    if i > 0 {
      RunInv(states, actions, i - 1);
      StepKeepsPipeline(states[i-1], actions[i-1]);
      StepKeepsSlots(states[i-1], actions[i-1]);
    }
  }

  /**
   In every interleaving: at most two frames are in flight, at most one whenever
   no post is running, and none after the third, fifth, ... post has returned.
   */
  lemma InFlightBounded(states: seq<State>, actions: seq<Action>, i: nat)
    requires IsRun(states, actions) && i < |states|
    ensures 0 <= InFlight(states[i]) <= 2
    ensures states[i].poster.Idle? || states[i].poster.Leaving? ==> InFlight(states[i]) <= 1
    ensures states[i].poster.Idle? && |states[i].pushed| % 2 == 1 && |states[i].pushed| >= 3 ==>
      InFlight(states[i]) == 0
  {
    RunInv(states, actions, i);
  }

  /** The buffers handed to `fb_post` so far, in order. */
  function Posted(actions: seq<Action>): seq<nat> {
    if |actions| == 0 then []
    else
      var a := actions[|actions|-1];
      Posted(actions[..|actions|-1]) + (if a.Enter? then [a.buffer] else [])
  }

  function Buffers(fs: seq<Frame>): (bs: seq<nat>)
    ensures |bs| == |fs| && forall i :: 0 <= i < |fs| ==> bs[i] == fs[i].buffer
  {
    seq(|fs|, i requires 0 <= i < |fs| => fs[i].buffer)
  }

  /** The buffer of a post that has not queued its frame yet. */
  function Underway(p: Poster): seq<nat> {
    if p.Entered? || p.Unavail? then [p.buffer] else []
  }

  lemma StepPosts(s: State, a: Action)
    requires Enabled(s, a)
    ensures Buffers(Do(s, a).pushed) + Underway(Do(s, a).poster) ==
            Buffers(s.pushed) + Underway(s.poster) + (if a.Enter? then [a.buffer] else [])
  {
    var s' := Do(s, a);
    if a.Push? {
      assert Buffers(s'.pushed) == Buffers(s.pushed) + [s.poster.buffer];
    } else {
      assert s'.pushed == s.pushed;
    }
  }

  /** In every run the frames queued are the callers' buffers in call order, but for a post still under way. */
  lemma {:induction false} PostedBuffers(states: seq<State>, actions: seq<Action>, i: nat)
    requires IsRun(states, actions) && i < |states|
    ensures Posted(actions[..i]) == Buffers(states[i].pushed) + Underway(states[i].poster)
  {
    if i > 0 {
      PostedBuffers(states, actions, i - 1);
      StepPosts(states[i-1], actions[i-1]);
      assert actions[..i][..i-1] == actions[..i-1];
    }
  }

  /** So what has been shown is at every moment a prefix of what the callers posted. */
  lemma ShownIsPosted(states: seq<State>, actions: seq<Action>, i: nat)
    requires IsRun(states, actions) && i < |states|
    ensures Buffers(states[i].shown) <= Posted(actions[..i])
  {
    PostedBuffers(states, actions, i);
    ShownInPostOrder(states, actions, i);
    assert Buffers(states[i].shown) <= Buffers(states[i].pushed);
  }

  /** Nothing is left out: whenever the display thread sleeps, every posted frame has been shown and given back. */
  lemma SleepsWhenDrained(states: seq<State>, actions: seq<Action>, i: nat)
    requires IsRun(states, actions) && i < |states| && states[i].display.Sleeping?
    ensures states[i].shown == states[i].pushed && states[i].marked == |states[i].pushed|
  {
    RunInv(states, actions, i);
  }

  /** What has been shown is at every moment a prefix of what was posted: in order, once, nothing else. */
  lemma ShownInPostOrder(states: seq<State>, actions: seq<Action>, i: nat)
    requires IsRun(states, actions) && i < |states|
    ensures states[i].shown <= states[i].pushed
    ensures !states[i].display.Lost?
  {
    RunInv(states, actions, i);
    var s := states[i];
    assert s.pushed == s.shown + (InHand(s) + s.queue);
  }

  // ----- when the previous buffer is released

  ghost predicate Reachable(s: State) {
    exists states, actions :: IsRun(states, actions) && states[|actions|] == s
  }

  lemma ReachInit()
    ensures Reachable(INIT)
  {
    var none: seq<Action> := [];
    assert IsRun([INIT], none) && [INIT][|none|] == INIT;
  }

  lemma ReachStep(s: State, a: Action)
    requires Reachable(s) && Enabled(s, a)
    ensures Reachable(Do(s, a))
  {
    var states, actions :| IsRun(states, actions) && states[|actions|] == s;
    var states', actions' := states + [Do(s, a)], actions + [a];
    assert IsRun(states', actions') && states'[|actions'|] == Do(s, a);
  }

  /** In every run the n-th post goes on to unlock the previous buffer only when its own frame is on screen. */
  ghost predicate ReleasesLate(n: nat) {
    forall s :: Reachable(s) && s.poster.Leaving? && |s.pushed| == n ==> s.shown == s.pushed
  }

  lemma OddPostsReleaseLate(s: State)
    requires Reachable(s) && s.poster.Leaving? && |s.pushed| % 2 == 1 && |s.pushed| >= 3
    ensures s.shown == s.pushed
  {
    var states, actions :| IsRun(states, actions) && states[|actions|] == s;
    RunInv(states, actions, |actions|);
    assert |s.queue| == 0 && InHand(s) == [];
  }

  /** The first k frames of a run that posts its two buffers in turn. */
  function Frames(k: nat): (fs: seq<Frame>)
    ensures |fs| == k && forall i :: 0 <= i < k ==> fs[i] == Frame(i % 2, i % 2)
  {
    seq(k, i => Frame(i % 2, i % 2))
  }

  lemma NextFrame(k: nat)
    ensures Frames(k) + [Frame(k % 2, k % 2)] == Frames(k + 1)
  {
  }

  /** After `k` posts of that run, the last frame still queued, the poster where `p` says. */
  function Early(k: nat, p: Poster): State
    requires k > 0
  {
    State(if p.Idle? then 1 else 0, true, [true, false], [Frame(1, 1)], p, Looking, 0, Frames(k), Frames(k - 1), k - 1)
  }

  /** The next post under way while the last frame is still queued. */
  function Late(k: nat, avail: seq<bool>, p: Poster): State
    requires k > 0
  {
    State(1, true, avail, [Frame(1, 1)], p, Looking, 0, Frames(k), Frames(k - 1), k - 1)
  }

  lemma FirstTwoPosts()
    ensures Reachable(Early(2, Leaving(1, 1)))
  {
    var f := Frame(0, 0);
    ReachInit();
    ReachStep(INIT, Enter(0));
    ReachStep(State(-1, false, [true, true], [], Entered(0, 0), Looking, -1, [], [], 0), MarkUnavail);
    ReachStep(State(-1, false, [false, true], [], Unavail(0, 0), Looking, -1, [], [], 0), Push);
    NextFrame(0);
    assert [] + [f] == [f] && Frames(0) == [];
    ReachStep(State(-1, false, [false, true], [f], Pushed(0, 0), Looking, -1, Frames(1), [], 0), Check);
    ReachStep(State(-1, false, [false, true], [f], Leaving(0, 0), Looking, -1, Frames(1), [], 0), Leave);
    DisplayOne(State(0, true, [false, true], [f], Idle, Looking, -1, Frames(1), [], 0));
    assert [false, true][0 := true] == [true, true];
    EvenPost(1);
  }

  /** The display thread takes, shows and marks the only queued frame. */
  lemma DisplayOne(s: State)
    requires Reachable(s) && s.display.Looking? && |s.queue| == 1 && |s.avail| == NUM_BUFFERS && !s.poster.Waiting?
    requires s.curBuf == -1 || Slot(s.curBuf)
    requires Slot(s.queue[0].idx)
    ensures var f := s.queue[0];
      Reachable(s.(queue := [], shown := s.shown + [f], curBuf := f.idx, marked := s.marked + 1,
                   avail := s.avail[(if s.curBuf == -1 then f.idx else s.curBuf) := true]))
  {
    ReachStep(s, Look);
    var s1 := Do(s, Look);
    ReachStep(s1, Show);
    ReachStep(Do(s1, Show), MarkAvail);
  }

  /** An even post that finds slot 0 already available leaves at once. */
  lemma EvenPost(k: nat)
    requires k % 2 == 1
    requires Reachable(State(0, true, [true, true], [], Idle, Looking, 0, Frames(k), Frames(k), k))
    ensures Reachable(Early(k + 1, Leaving(1, 1)))
  {
    var fs := Frames(k);
    ReachStep(State(0, true, [true, true], [], Idle, Looking, 0, fs, fs, k), Enter(1));
    ReachStep(State(0, true, [true, true], [], Entered(1, 1), Looking, 0, fs, fs, k), MarkUnavail);
    assert [true, true][1 := false] == [true, false];
    ReachStep(State(0, true, [true, false], [], Unavail(1, 1), Looking, 0, fs, fs, k), Push);
    NextFrame(k);
    assert [] + [Frame(1, 1)] == [Frame(1, 1)];
    ReachStep(State(0, true, [true, false], [Frame(1, 1)], Pushed(1, 1), Looking, 0, Frames(k + 1), fs, k), Check);
  }

  /**
   The cycle: an even post left early, so the next one marks slot 0 before the display
   thread gives that slot back for the even frame, and finds it available two posts on.
   */
  lemma OddPostMarks(k: nat)
    requires k % 2 == 0 && k >= 2 && Reachable(Early(k, Leaving(1, 1)))
    ensures Reachable(Late(k, [false, false], Unavail(0, 0)))
  {
    ReachStep(Early(k, Leaving(1, 1)), Leave);
    ReachStep(Early(k, Idle), Enter(0));
    ReachStep(Late(k, [true, false], Entered(0, 0)), MarkUnavail);
    assert [true, false][0 := false] == [false, false];
  }

  lemma LateReturn(k: nat)
    requires k % 2 == 0 && k >= 2
    requires Reachable(Late(k, [false, false], Unavail(0, 0)))
    ensures Reachable(State(1, true, [true, false], [], Unavail(0, 0), Looking, 1, Frames(k), Frames(k), k))
  {
    NextFrame(k - 1);
    DisplayOne(Late(k, [false, false], Unavail(0, 0)));
    assert [false, false][0 := true] == [true, false];
  }

  lemma OddPostReturns(k: nat)
    requires k % 2 == 0
    requires Reachable(State(1, true, [true, false], [], Unavail(0, 0), Looking, 1, Frames(k), Frames(k), k))
    ensures Reachable(State(0, true, [true, true], [], Idle, Looking, 0, Frames(k + 1), Frames(k + 1), k + 1))
  {
    var fs := Frames(k + 1);
    ReachStep(State(1, true, [true, false], [], Unavail(0, 0), Looking, 1, Frames(k), Frames(k), k), Push);
    NextFrame(k);
    assert [] + [Frame(0, 0)] == [Frame(0, 0)];
    DisplayOne(State(1, true, [true, false], [Frame(0, 0)], Pushed(0, 0), Looking, 1, fs, Frames(k), k));
    assert [true, false][1 := true] == [true, true];
    ReachStep(State(1, true, [true, true], [], Pushed(0, 0), Looking, 0, fs, fs, k + 1), Check);
    ReachStep(State(1, true, [true, true], [], Leaving(0, 0), Looking, 0, fs, fs, k + 1), Leave);
  }

  /** For every even n some run has the n-th post leave while the buffer it unlocks is still on screen. */
  lemma {:induction false} EvenPostsReleaseEarly(n: nat)
    requires n % 2 == 0 && n >= 2
    ensures Reachable(Early(n, Leaving(1, 1))) && Early(n, Leaving(1, 1)).hasCurrent
    ensures Early(n, Leaving(1, 1)).shown == Frames(n)[..n-1] && Early(n, Leaving(1, 1)).pushed == Frames(n)
  {
    if n == 2 {
      FirstTwoPosts();
    } else {
      EvenPostsReleaseEarly(n - 2);
      OddPostMarks(n - 2);
      LateReturn(n - 2);
      OddPostReturns(n - 2);
      EvenPost(n - 1);
    }
  }

  /** Exactly the third, fifth, ... post is sure to keep the previous buffer until the next one is shown. */
  lemma ReleasesLateWhenOdd(n: nat)
    requires n >= 2
    ensures ReleasesLate(n) <==> n % 2 == 1
  {
    if n % 2 == 1 {
      forall s | Reachable(s) && s.poster.Leaving? && |s.pushed| == n ensures s.shown == s.pushed {
        OddPostsReleaseLate(s);
      }
    } else {
      EvenPostsReleaseEarly(n);
    }
  }

  // ----- no deadlock

  /** The display thread's next step; it has none only while it sleeps. */
  function DisplayAction(s: State): Action
    requires !s.display.Sleeping? && !s.display.Lost?
  {
    match s.display
    case Looking => Look
    case Roused => Rouse
    case Holding(_) => Show
    case Shown(_) => MarkAvail
  }

  function StepsLeft(s: State): int {
    3 * (|s.pushed| - s.marked)
    - (match s.display case Holding(_) => 1 case Shown(_) => 2 case _ => 0)
  }

  /** A blocked poster leaves the display thread awake with an enabled step that brings the wake-up closer. */
  lemma BlockedPosterProgress(s: State)
    requires Inv(s) && s.poster.Waiting?
    ensures !s.display.Sleeping? && !s.display.Lost? && Enabled(s, DisplayAction(s))
    ensures var s' := Do(s, DisplayAction(s));
      Inv(s') && (s'.poster.Woken? || (s'.poster.Waiting? && 0 <= StepsLeft(s') < StepsLeft(s)))
  {
    assert InFlight(s) > 0;
    if s.display.Shown? { ShownSlot(s); }
    StepKeepsPipeline(s, DisplayAction(s));
    StepKeepsSlots(s, DisplayAction(s));
  }

  /** Left alone, the display thread wakes the blocked poster within six steps. */
  lemma {:induction false} BlockedPosterWakes(s: State) returns (states: seq<State>)
    requires Inv(s) && s.poster.Waiting?
    ensures 1 < |states| <= 7 && states[0] == s && states[|states|-1].poster.Woken?
    ensures forall i :: 0 <= i < |states| - 1 ==>
      && !states[i].display.Sleeping? && !states[i].display.Lost? && Enabled(states[i], DisplayAction(states[i]))
      && states[i+1] == Do(states[i], DisplayAction(states[i]))
  {
    states := WakeWithin(s);
    assert InFlight(s) <= 2;
  }

  lemma {:induction false} WakeWithin(s: State) returns (states: seq<State>)
    requires Inv(s) && s.poster.Waiting?
    ensures 1 < |states| <= StepsLeft(s) + 1 && states[0] == s && states[|states|-1].poster.Woken?
    ensures forall i :: 0 <= i < |states| - 1 ==>
      && !states[i].display.Sleeping? && !states[i].display.Lost? && Enabled(states[i], DisplayAction(states[i]))
      && states[i+1] == Do(states[i], DisplayAction(states[i]))
    decreases StepsLeft(s)
  {
    BlockedPosterProgress(s);
    var s' := Do(s, DisplayAction(s));
    if s'.poster.Woken? {
      states := [s, s'];
    } else {
      var rest := WakeWithin(s');
      states := [s] + rest;
    }
  }

  // ----- the queue does what the runs say

  /** Queueing a frame on the shared queue is the Push action. */
  method PushFrame(q: Queue<Frame>, f: Frame, ghost s: State)
    requires q.Valid() && q.contents == s.queue && Enabled(s, Push) && f == Frame(s.poster.buffer, s.poster.nxt)
    modifies q, q.nodes
    ensures q.Valid() && q.contents == Do(s, Push).queue
  {
    q.Push(f);
  }

  /** Taking the head off the shared queue, after a wait or without one, is the Look or Rouse action. */
  method TakeFrame(q: Queue<Frame>, ghost s: State, ghost a: Action) returns (f: Frame)
    requires q.Valid() && q.contents == s.queue && Enabled(s, a) && (a.Look? || a.Rouse?) && s.queue != []
    modifies q
    ensures q.Valid() && q.contents == Do(s, a).queue && Do(s, a).display == Holding(f)
  {
    f := q.GetHeadValue();
    q.Pop();
  }
}
