/**
 Requests, completions, closed and new connections over whole runs.  A completion
 is three steps, as in the code: unlink the request and look at its cancelled mark,
 read the command descriptor, then write to whatever that descriptor is by then.
 */
module RequestRuns {
  import opened Words
  import opened RequestList

  /** The command descriptor: absent, a peer's whose identity is being checked, or the phone process's. */
  datatype Link = Down | Vetting(conn: nat, fd: nat) | Up(conn: nat, fd: nat)

  /**
   An answer being sent: the request, whether a peer was accepted since it was
   unlinked, and the descriptor number read for the write, if it was read yet.
   */
  datatype Sending = Sending(req: Req, stale: bool, target: Target)
  datatype Target = NotYet | Fd(fd: nat)

  /** An answer written: to which request, on which connection, and whether it had gone stale. */
  datatype Answer = Answer(req: Req, conn: nat, stale: bool)

  /** `trusted` is a history: the connections whose peer passed the check. */
  datatype State = State(
    link: Link, nextConn: nat, closing: bool, trusted: set<nat>, issued: set<nat>,
    pending: seq<Req>, sending: seq<Sending>, answers: seq<Answer>)

  datatype Action =
    | Accept(fd: nat)          // any peer; its descriptor is the command descriptor at once ...
    | Trust                    // ... and stays when it is the phone process
    | Reject                   // or is closed again
    | Command(id: nat, token: int)
    | CloseSocket              // end of stream: the socket goes first ...
    | CancelPending            // ... then, as after a rejection, the pending requests are marked
    | Unlink(index: nat)       // a completion unlinks its request,
    | Capture(index: nat)      // reads the descriptor,
    | Send(index: nat)         // and writes to it

  predicate Enabled(s: State, a: Action) {
    match a
    case Accept(_) => s.link.Down? && !s.closing
    case Trust => s.link.Vetting?
    case Reject => s.link.Vetting?
    case Command(id, _) => s.link.Up? && id !in s.issued
    case CloseSocket => s.link.Up?
    case CancelPending => s.closing
    case Unlink(i) => i < |s.pending|
    case Capture(i) => i < |s.sending| && s.sending[i].target.NotYet?
    case Send(i) => i < |s.sending| && s.sending[i].target.Fd?
  }

  function MarkStale(ss: seq<Sending>): (r: seq<Sending>)
    ensures |r| == |ss| && forall i :: 0 <= i < |ss| ==> r[i] == ss[i].(stale := true)
  {
    seq(|ss|, i requires 0 <= i < |ss| => ss[i].(stale := true))
  }

  function Do(s: State, a: Action): State
    requires Enabled(s, a)
  {
    match a
    case Accept(fd) =>
      s.(link := Vetting(s.nextConn, fd), nextConn := s.nextConn + 1, sending := MarkStale(s.sending))
    case Trust => s.(link := Up(s.link.conn, s.link.fd), trusted := s.trusted + {s.link.conn})
    case Reject => s.(link := Down, closing := true)
    case Command(id, token) =>
      s.(pending := Pushed(s.pending, Req(id, token, s.link.conn, false)), issued := s.issued + {id})
    case CloseSocket => s.(link := Down, closing := true)
    case CancelPending => s.(pending := CancelAll(s.pending), closing := false)
    case Unlink(i) =>
      var r := s.pending[i];
      s.(pending := Without(s.pending, i),
         sending := if r.cancelled then s.sending else s.sending + [Sending(r, false, NotYet)])
    case Capture(i) =>
      if s.link.Down? then s.(sending := s.sending[..i] + s.sending[i+1..])  // nobody to answer
      else s.(sending := s.sending[i := s.sending[i].(target := Fd(s.link.fd))])
    case Send(i) =>
      var x := s.sending[i];
      s.(sending := s.sending[..i] + s.sending[i+1..],
         answers := if !s.link.Down? && s.link.fd == x.target.fd
                    then s.answers + [Answer(x.req, s.link.conn, x.stale)] else s.answers)
  }

  const INIT := State(Down, 0, false, {}, {}, [], [], [])

  // ----- the invariant

  function PendingIds(rs: seq<Req>): (ids: seq<nat>)
    ensures |ids| == |rs| && forall i :: 0 <= i < |rs| ==> ids[i] == rs[i].id
  {
    seq(|rs|, i requires 0 <= i < |rs| => rs[i].id)
  }

  function SendingIds(xs: seq<Sending>): (ids: seq<nat>)
    ensures |ids| == |xs| && forall i :: 0 <= i < |xs| ==> ids[i] == xs[i].req.id
  {
    seq(|xs|, i requires 0 <= i < |xs| => xs[i].req.id)
  }

  function AnswerIds(ans: seq<Answer>): (ids: seq<nat>)
    ensures |ids| == |ans| && forall i :: 0 <= i < |ans| ==> ids[i] == ans[i].req.id
  {
    seq(|ans|, i requires 0 <= i < |ans| => ans[i].req.id)
  }

  function Ids(s: State): multiset<nat> {
    multiset(PendingIds(s.pending)) + multiset(SendingIds(s.sending)) + multiset(AnswerIds(s.answers))
  }

  /** The connection the daemon last had, or -1. */
  function Last(s: State): int { s.nextConn - 1 }

  ghost predicate LinkInv(s: State) {
    && (!s.link.Down? ==> s.link.conn == Last(s) && !s.closing)
    && (s.link.Up? ==> s.link.conn in s.trusted)
    // an uncancelled pending request belongs to the connection that is open, or being closed
    && (forall r :: r in s.pending ==> r.conn <= Last(s) && (!r.cancelled ==>
      (s.link.Up? || s.closing) && r.conn == Last(s)))
    && (forall r :: r in s.pending ==> r.conn in s.trusted)
    && (forall x :: x in s.sending ==>
          x.req.conn in s.trusted && if x.stale then x.req.conn < Last(s) else x.req.conn == Last(s))
    // a descriptor read since the last accept is still the one in use
    && (forall x :: x in s.sending && !x.stale && x.target.Fd? && !s.link.Down? ==> x.target.fd == s.link.fd)
    && (forall a :: a in s.answers ==> a.req.conn in s.trusted && (a.conn == a.req.conn <==> !a.stale))
  }

  /** A request is in at most one place: pending, being answered, answered. */
  ghost predicate IdInv(s: State) {
    forall id :: Ids(s)[id] <= 1 && (Ids(s)[id] == 1 ==> id in s.issued)
  }

  lemma StepKeepsLink(s: State, a: Action)
    requires LinkInv(s) && Enabled(s, a)
    ensures LinkInv(Do(s, a))
  {
  }

  /** No step puts a request in a second place; only a command brings a new one. */
  lemma StepIds(s: State, a: Action)
    requires Enabled(s, a)
    ensures Ids(Do(s, a)) <= Ids(s) + (if a.Command? then multiset{a.id} else multiset{})
  {
    var s' := Do(s, a);
    match a {
      case Accept(_) =>
        assert SendingIds(s'.sending) == SendingIds(s.sending);
        assert Ids(s') == Ids(s);
      case CancelPending =>
        assert PendingIds(s'.pending) == PendingIds(s.pending);
      case Command(id, _) =>
        assert PendingIds(s'.pending) == [id] + PendingIds(s.pending);
        assert Ids(s') == Ids(s) + multiset{id};
      case Unlink(i) => UnlinkIds(s, i);
      case Capture(i) => CaptureIds(s, i);
      case Send(i) => SendIds(s, i);
      case _ => assert Ids(s') == Ids(s);
    }
  }

  lemma StepKeepsIds(s: State, a: Action)
    requires IdInv(s) && Enabled(s, a)
    ensures IdInv(Do(s, a))
  {
    StepIds(s, a);
    if a.Command? { assert Ids(s)[a.id] == 0; }
  }

  lemma UnlinkIds(s: State, i: nat)
    requires i < |s.pending|
    ensures Ids(Do(s, Unlink(i))) <= Ids(s)
  {
    var s', ids := Do(s, Unlink(i)), PendingIds(s.pending);
    assert ids == ids[..i] + [ids[i]] + ids[i+1..];
    assert PendingIds(s'.pending) == ids[..i] + ids[i+1..];
    if !s.pending[i].cancelled {
      assert SendingIds(s'.sending) == SendingIds(s.sending) + [ids[i]];
    }
  }

  lemma DropIds(xs: seq<Sending>, i: nat)
    requires i < |xs|
    ensures multiset(SendingIds(xs)) == multiset(SendingIds(xs[..i] + xs[i+1..])) + multiset{xs[i].req.id}
  {
    var ids := SendingIds(xs);
    assert ids == ids[..i] + [ids[i]] + ids[i+1..];
    assert SendingIds(xs[..i] + xs[i+1..]) == ids[..i] + ids[i+1..];
  }

  lemma CaptureIds(s: State, i: nat)
    requires Enabled(s, Capture(i))
    ensures Ids(Do(s, Capture(i))) <= Ids(s)
  {
    if s.link.Down? {
      DropIds(s.sending, i);
    } else {
      assert SendingIds(Do(s, Capture(i)).sending) == SendingIds(s.sending);
    }
  }

  lemma SendIds(s: State, i: nat)
    requires Enabled(s, Send(i))
    ensures Ids(Do(s, Send(i))) <= Ids(s)
  {
    var s', id := Do(s, Send(i)), s.sending[i].req.id;
    DropIds(s.sending, i);
    assert s'.answers != s.answers ==> AnswerIds(s'.answers) == AnswerIds(s.answers) + [id];
  }

  // ----- whole runs

  ghost predicate IsRun(states: seq<State>, actions: seq<Action>) {
    && |states| == |actions| + 1 && states[0] == INIT
    && forall i :: 0 <= i < |actions| ==> Enabled(states[i], actions[i]) && states[i+1] == Do(states[i], actions[i])
  }

  lemma {:induction false} RunInv(states: seq<State>, actions: seq<Action>, i: nat)
    requires IsRun(states, actions) && i < |states|
    ensures LinkInv(states[i]) && IdInv(states[i])
  {
    if i > 0 {
      RunInv(states, actions, i - 1);
      StepKeepsLink(states[i-1], actions[i-1]);
      StepKeepsIds(states[i-1], actions[i-1]);
    }
  }

  /** In every run no request is answered twice. */
  lemma AnsweredOnce(states: seq<State>, actions: seq<Action>, n: nat, i: nat, j: nat)
    requires IsRun(states, actions) && n < |states| && i < j < |states[n].answers|
    ensures states[n].answers[i].req.id != states[n].answers[j].req.id
  {
    RunInv(states, actions, n);
    var ids := AnswerIds(states[n].answers);
    assert multiset(ids)[ids[i]] <= Ids(states[n])[ids[i]] <= 1;
    if ids[i] == ids[j] {
      Twice(ids, i, j);
    }
  }

  /** A pending request that is not cancelled belongs to the connection that is open or just being closed. */
  lemma PendingIsCurrent(states: seq<State>, actions: seq<Action>, n: nat, r: Req)
    requires IsRun(states, actions) && n < |states| && r in states[n].pending && !r.cancelled
    ensures var s := states[n]; (s.link.Up? && s.link.conn == r.conn) || (s.closing && s.link.Down?)
  {
    RunInv(states, actions, n);
  }

  /** An answer lands on its own connection exactly when no peer at all was accepted between unlinking and writing. */
  lemma AnswerOnOwnConnection(states: seq<State>, actions: seq<Action>, n: nat, a: Answer)
    requires IsRun(states, actions) && n < |states| && a in states[n].answers
    ensures a.conn == a.req.conn <==> !a.stale
    ensures a.req.conn in states[n].trusted
  {
    RunInv(states, actions, n);
  }

  // ----- every completed request is answered

  /** A request on its way: waiting for its completion, being answered, or answered on its own connection. */
  ghost predicate Tracked(s: State, r: Req) {
    || r in s.pending
    || (exists x :: x in s.sending && x.req == r && !x.stale)
    || Answer(r, r.conn, false) in s.answers
  }

  lemma CommandTracked(s: State, a: Action)
    requires Enabled(s, a) && a.Command?
    ensures Tracked(Do(s, a), Req(a.id, a.token, s.link.conn, false))
  {
  }

  /** While its connection is open no step loses a request. */
  lemma StepTracks(s: State, a: Action, r: Req)
    requires LinkInv(s) && Enabled(s, a) && Tracked(s, r) && !r.cancelled
    requires s.link.Up? && s.link.conn == r.conn && Do(s, a).link.Up?
    ensures Tracked(Do(s, a), r)
  {
    var s' := Do(s, a);
    if r in s.pending {
      var j :| 0 <= j < |s.pending| && s.pending[j] == r;
      match a {
        case Command(_, _) => assert s'.pending[j+1] == r;
        case Unlink(i) =>
          if i == j { assert s'.sending[|s.sending|] == Sending(r, false, NotYet); }
          else { assert s'.pending[if j < i then j else j - 1] == r; }
        case _ =>
      }
    } else if Answer(r, r.conn, false) in s.answers {
      assert s.answers <= s'.answers;
    } else {
      var j :| 0 <= j < |s.sending| && s.sending[j].req == r && !s.sending[j].stale;
      SendingTracks(s, a, r, j);
    }
  }

  lemma SendingTracks(s: State, a: Action, r: Req, j: nat)
    requires LinkInv(s) && Enabled(s, a) && j < |s.sending| && s.sending[j].req == r && !s.sending[j].stale
    requires s.link.Up? && s.link.conn == r.conn && Do(s, a).link.Up?
    ensures Tracked(Do(s, a), r)
  {
    var s' := Do(s, a);
    assert s.sending[j] in s.sending;
    match a {
      case Unlink(i) => assert s'.sending[j] == s.sending[j];
      case Capture(i) => assert s'.sending[j].req == r && !s'.sending[j].stale;
      case Send(i) =>
        if i == j { assert s'.answers[|s.answers|] == Answer(r, r.conn, false); }
        else { assert s'.sending[if j < i then j else j - 1] == s.sending[j]; }
      case _ =>
    }
  }

  lemma RunTracks(states: seq<State>, actions: seq<Action>, m: nat, r: Req)
    requires IsRun(states, actions) && m < |actions| && Tracked(states[m], r) && !r.cancelled
    requires states[m].link.Up? && states[m].link.conn == r.conn && states[m+1].link.Up?
    ensures states[m+1].link == states[m].link && Tracked(states[m+1], r)
  {
    RunInv(states, actions, m);
    StepTracks(states[m], actions[m], r);
  }

  /**
   From the command on, and for as long as its connection stays open, a request waits,
   is being answered, or has been answered on that connection.
   */
  lemma {:induction false} RequestTracked(states: seq<State>, actions: seq<Action>, a: nat, n: nat)
    requires IsRun(states, actions) && a < n < |states| && actions[a].Command?
    requires forall m :: a <= m <= n ==> states[m].link.Up?
    ensures states[n].link == states[a].link
    ensures Tracked(states[n], Req(actions[a].id, actions[a].token, states[a].link.conn, false))
  {
    var r := Req(actions[a].id, actions[a].token, states[a].link.conn, false);
    if n == a + 1 {
      CommandTracked(states[a], actions[a]);
    } else {
      RequestTracked(states, actions, a, n - 1);
      RunTracks(states, actions, n - 1, r);
    }
  }

  /** Once it neither waits nor is being answered, exactly one answer for its id was written, on that connection. */
  lemma CompletedIsAnswered(states: seq<State>, actions: seq<Action>, a: nat, n: nat) returns (k: nat)
    requires IsRun(states, actions) && a < n < |states| && actions[a].Command?
    requires forall m :: a <= m <= n ==> states[m].link.Up?
    requires forall r :: r in states[n].pending ==> r.id != actions[a].id
    requires forall x :: x in states[n].sending ==> x.req.id != actions[a].id
    ensures k < |states[n].answers|
    ensures states[n].answers[k] ==
      Answer(Req(actions[a].id, actions[a].token, states[a].link.conn, false), states[a].link.conn, false)
    ensures forall j :: 0 <= j < |states[n].answers| && states[n].answers[j].req.id == actions[a].id ==> j == k
  {
    RequestTracked(states, actions, a, n);
    var r := Req(actions[a].id, actions[a].token, states[a].link.conn, false);
    k :| 0 <= k < |states[n].answers| && states[n].answers[k] == Answer(r, r.conn, false);
    forall j | 0 <= j < |states[n].answers| && states[n].answers[j].req.id == r.id ensures j == k {
      if j < k { AnsweredOnce(states, actions, n, j, k); }
      if k < j { AnsweredOnce(states, actions, n, k, j); }
    }
  }

  /** A completion begins by taking its request, and no other, off the pending ones; a cancelled one ends there. */
  lemma UnlinkTakes(s: State, i: nat)
    requires Enabled(s, Unlink(i))
    ensures var (s', r) := (Do(s, Unlink(i)), s.pending[i]);
      && multiset(s'.pending) == multiset(s.pending) - multiset{r} && s'.answers == s.answers
      && s'.sending == if r.cancelled then s.sending else s.sending + [Sending(r, false, NotYet)]
  {
    assert s.pending == s.pending[..i] + [s.pending[i]] + s.pending[i+1..];
  }

  /** It goes on by reading the descriptor, and ends here when there is none. */
  lemma CaptureReads(s: State, i: nat)
    requires Enabled(s, Capture(i))
    ensures var (s', x) := (Do(s, Capture(i)), s.sending[i]);
      && s'.answers == s.answers
      && (s.link.Down? ==> multiset(s'.sending) == multiset(s.sending) - multiset{x})
      && (!s.link.Down? ==> s'.sending == s.sending[i := Sending(x.req, x.stale, Fd(s.link.fd))])
  {
    assert s.sending == s.sending[..i] + [s.sending[i]] + s.sending[i+1..];
  }

  /** It ends by writing one answer, exactly when the descriptor read is still the command descriptor. */
  lemma SendWrites(s: State, i: nat)
    requires Enabled(s, Send(i))
    ensures var (s', x) := (Do(s, Send(i)), s.sending[i]);
      && multiset(s'.sending) == multiset(s.sending) - multiset{x}
      && s'.answers == if !s.link.Down? && s.link.fd == x.target.fd
                       then s.answers + [Answer(x.req, s.link.conn, x.stale)] else s.answers
  {
    assert s.sending == s.sending[..i] + [s.sending[i]] + s.sending[i+1..];
  }

  /** A request whose mark was set before its completion began is never answered. */
  lemma {:induction false} CancelledUnanswered(states: seq<State>, actions: seq<Action>, a: nat, n: nat)
    requires IsRun(states, actions) && a < n < |states| && actions[a].Unlink?
    requires states[a].pending[actions[a].index].cancelled
    ensures Ids(states[n])[states[a].pending[actions[a].index].id] == 0
    ensures states[a].pending[actions[a].index].id in states[n].issued
    ensures forall x :: x in states[n].answers ==> x.req.id != states[a].pending[actions[a].index].id
  {
    var id := states[a].pending[actions[a].index].id;
    if n == a + 1 {
      RunInv(states, actions, a);
      CancelledGone(states[a], actions[a].index);
    } else {
      CancelledUnanswered(states, actions, a, n - 1);
      GoneStays(states[n-1], actions[n-1], id);
    }
    NowhereUnanswered(states[n], id);
  }

  lemma NowhereUnanswered(s: State, id: nat)
    requires Ids(s)[id] == 0
    ensures forall x :: x in s.answers ==> x.req.id != id
  {
    assert id !in multiset(AnswerIds(s.answers)) && id !in AnswerIds(s.answers);
    forall j | 0 <= j < |s.answers| ensures s.answers[j].req.id != id {
      assert AnswerIds(s.answers)[j] == s.answers[j].req.id;
    }
  }

  lemma CancelledGone(s: State, i: nat)
    requires IdInv(s) && i < |s.pending| && s.pending[i].cancelled
    ensures Ids(Do(s, Unlink(i)))[s.pending[i].id] == 0 && s.pending[i].id in Do(s, Unlink(i)).issued
  {
    var ids, id := PendingIds(s.pending), s.pending[i].id;
    assert ids == ids[..i] + [ids[i]] + ids[i+1..];
    assert PendingIds(Do(s, Unlink(i)).pending) == ids[..i] + ids[i+1..];
    assert Ids(Do(s, Unlink(i))) == Ids(s) - multiset{id};
    assert Ids(s)[id] >= 1;
  }

  /** An id that was issued and is nowhere does not come back. */
  lemma GoneStays(s: State, a: Action, id: nat)
    requires Enabled(s, a) && Ids(s)[id] == 0 && id in s.issued
    ensures Ids(Do(s, a))[id] == 0 && id in Do(s, a).issued
  {
    StepIds(s, a);
  }

  // ----- interrupted and uninterrupted completions

  /** Completions that no accepted peer interrupts. */
  ghost predicate Uninterrupted(states: seq<State>, actions: seq<Action>)
    requires |states| == |actions| + 1
  {
    forall i :: 0 <= i < |actions| && actions[i].Accept? ==> states[i].sending == []
  }

  /** When completions are not interrupted, every answer goes to the connection that asked, which is trusted. */
  lemma UninterruptedAnswers(states: seq<State>, actions: seq<Action>, n: nat)
    requires IsRun(states, actions) && Uninterrupted(states, actions) && n < |states|
    ensures forall a :: a in states[n].answers ==> a.conn == a.req.conn && a.conn in states[n].trusted
  {
    NeverStale(states, actions, n);
    RunInv(states, actions, n);
  }

  lemma {:induction false} NeverStale(states: seq<State>, actions: seq<Action>, n: nat)
    requires IsRun(states, actions) && Uninterrupted(states, actions) && n < |states|
    ensures forall x :: x in states[n].sending ==> !x.stale
    ensures forall a :: a in states[n].answers ==> !a.stale
  {
    if n > 0 {
      NeverStale(states, actions, n - 1);
      var s, a := states[n-1], actions[n-1];
      if a.Send? || a.Capture? { assert s.sending[a.index] in s.sending; }
    }
  }

  // ----- interrupted completions

  ghost predicate Reachable(s: State) {
    exists states, actions :: IsRun(states, actions) && states[|actions|] == s
  }

  lemma ReachInit()
    ensures Reachable(INIT)
  {
    var none: seq<Action> := [];
    assert IsRun([INIT], none) && [INIT][|none|] == INIT;
  }

  lemma ReachStep(s: State, a: Action)
    requires Reachable(s) && Enabled(s, a)
    ensures Reachable(Do(s, a))
  {
    var states, actions :| IsRun(states, actions) && states[|actions|] == s;
    var states', actions' := states + [Do(s, a)], actions + [a];
    assert IsRun(states', actions') && states'[|actions'|] == Do(s, a);
  }

  /** A request is answered, but the connection that asked closes before the answer is written. */
  lemma AskedAndClosed(r: Req, fd: nat)
    requires r == Req(7, 42, 0, false)
    ensures Reachable(State(Down, 1, false, {0}, {7}, [], [Sending(r, false, NotYet)], []))
  {
    ReachInit();
    ReachStep(INIT, Accept(fd));
    ReachStep(State(Vetting(0, fd), 1, false, {}, {}, [], [], []), Trust);
    ReachStep(State(Up(0, fd), 1, false, {0}, {}, [], [], []), Command(7, 42));
    ReachStep(State(Up(0, fd), 1, false, {0}, {7}, [r], [], []), Unlink(0));
    ReachStep(State(Up(0, fd), 1, false, {0}, {7}, [], [Sending(r, false, NotYet)], []), CloseSocket);
    ReachStep(State(Down, 1, true, {0}, {7}, [], [Sending(r, false, NotYet)], []), CancelPending);
  }

  /** The next peer is accepted and the answer goes there, before anyone has looked who the peer is. */
  lemma AnsweredMidway(r: Req, fd: nat)
    requires r == Req(7, 42, 0, false)
    ensures Reachable(State(Vetting(1, fd), 2, false, {0}, {7}, [], [], [Answer(r, 1, true)]))
  {
    AskedAndClosed(r, fd);
    ReachStep(State(Down, 1, false, {0}, {7}, [], [Sending(r, false, NotYet)], []), Accept(fd));
    ReachStep(State(Vetting(1, fd), 2, false, {0}, {7}, [], [Sending(r, true, NotYet)], []), Capture(0));
    ReachStep(State(Vetting(1, fd), 2, false, {0}, {7}, [], [Sending(r, true, Fd(fd))], []), Send(0));
  }

  /** A run in which the answer to connection 0 is written to connection 1, another trusted one. */
  lemma StaleAnswerExample() returns (s: State)
    ensures Reachable(s) && |s.answers| == 1 && s.answers[0].req.conn == 0 && s.answers[0].conn == 1 && 1 in s.trusted
  {
    var r := Req(7, 42, 0, false);
    AnsweredMidway(r, 3);
    s := State(Vetting(1, 3), 2, false, {0}, {7}, [], [], [Answer(r, 1, true)]);
    ReachStep(s, Trust);
    s := Do(s, Trust);
  }

  /** And one in which it is written to a peer that is then turned away. */
  lemma UntrustedAnswerExample() returns (s: State)
    ensures Reachable(s) && |s.answers| == 1 && s.answers[0].req.conn == 0 && s.answers[0].conn == 1
    ensures s.link.Down? && 1 !in s.trusted
  {
    var r := Req(7, 42, 0, false);
    AnsweredMidway(r, 3);
    s := State(Vetting(1, 3), 2, false, {0}, {7}, [], [], [Answer(r, 1, true)]);
    ReachStep(s, Reject);
    s := Do(s, Reject);
  }
}
