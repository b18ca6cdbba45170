/**
 The lock word of a graphics buffer: a reader count, a mapped bit and a write bit
 in one 32-bit word, changed only by compare-and-swap and by an atomic OR.  Any
 number of threads lock, map and unlock; each step below is one shared access.
 */
module LockWord {

  const WRITE := 0x8000_0000
  const MAPPED := 0x4000_0000
  const READ_MASK := 0x3FFF_FFFF
  const NO_OWNER: Tid := 0

  type Tid = nat

  // ----- the packed word

  predicate IsWord(w: int) { 0 <= w < 0x1_0000_0000 }
  predicate HasWrite(w: int) { w >= WRITE }
  predicate HasMapped(w: int) { w / MAPPED % 2 == 1 }
  function Count(w: int): int { w % (READ_MASK + 1) }
  function SetWrite(w: int): int { if HasWrite(w) then w else w + WRITE }
  function ClearWrite(w: int): int { if HasWrite(w) then w - WRITE else w }
  function SetMapped(w: int): int { if HasMapped(w) then w else w + MAPPED }

  /** The word a lock tries to install. */
  function LockedWord(cur: int, write: bool): int {
    ((if write then SetWrite(cur) else cur) + 1) % 0x1_0000_0000
  }

  /** Counting one more reader leaves the flags alone exactly below the largest count. */
  lemma CountLimit(w: int)
    requires IsWord(w) && !HasWrite(w)
    ensures Count(w) < READ_MASK <==>
      Count(LockedWord(w, false)) == Count(w) + 1
      && HasMapped(LockedWord(w, false)) == HasMapped(w) && !HasWrite(LockedWord(w, false))
  {
  }

  lemma LockedWordFields(cur: int, write: bool)
    requires IsWord(cur) && !HasWrite(cur) && Count(cur) < READ_MASK
    ensures var w := LockedWord(cur, write);
      IsWord(w) && HasWrite(w) == write && HasMapped(w) == HasMapped(cur) && Count(w) == Count(cur) + 1
  {
  }

  lemma UnlockedWordFields(cur: int)
    requires IsWord(cur) && Count(cur) > 0
    ensures var w := ClearWrite(cur) - 1;
      IsWord(w) && !HasWrite(w) && HasMapped(w) == HasMapped(cur) && Count(w) == Count(cur) - 1
  {
  }

  lemma MappedWordFields(w: int)
    requires IsWord(w)
    ensures var m := SetMapped(w); IsWord(m) && HasWrite(m) == HasWrite(w) && HasMapped(m) && Count(m) == Count(w)
  {
    assert (w + MAPPED) / MAPPED == w / MAPPED + 1;
  }

  // ----- threads

  datatype Pc =
    | Idle
    | LockRead(write: bool, cpu: bool)             // about to read the word
    | LockCas(write: bool, cpu: bool, cur: int)    // about to compare-and-swap
    | LockOwner(write: bool, cpu: bool, cur: int)  // acquired; about to record the owner
    | MapEnter                                     // waiting for the mapping mutex
    | MapCheck                                     // inside it, about to look again
    | MapSet                                       // mapped, about to OR the bit in
    | MapLeave(ok: bool)                           // about to release the mutex and answer
    | UnlockRead
    | UnlockOwner(cur: int)                        // about to look at the owner
    | UnlockCas(cur: int, next: int)

  datatype State = State(word: int, owner: Tid, mutex: set<Tid>, maps: nat, holders: multiset<Tid>, pcs: map<Tid, Pc>)

  function PcOf(s: State, t: Tid): Pc {
    if t in s.pcs then s.pcs[t] else Idle
  }

  function Goto(s: State, t: Tid, pc: Pc): State {
    s.(pcs := s.pcs[t := pc])
  }

  /** `choice` starts a lock of either kind or an unlock, and says whether a mapping attempt works. */
  datatype Choice = StartLock(write: bool, cpu: bool) | StartUnlock | Proceed(mapOk: bool)

  ghost predicate Enabled(s: State, t: Tid, c: Choice) {
    && t != NO_OWNER
    && match c
       case StartLock(_, _) => PcOf(s, t).Idle?
       case StartUnlock => PcOf(s, t).Idle? && t in s.holders  // a thread unlocks only what it holds
       case Proceed(_) => !PcOf(s, t).Idle? && (PcOf(s, t).MapEnter? ==> s.mutex == {})
  }

  ghost function Do(s: State, t: Tid, c: Choice): State
    requires Enabled(s, t, c)
  {
    match c
    case StartLock(write, cpu) => Goto(s, t, LockRead(write, cpu))
    case StartUnlock => Goto(s, t, UnlockRead)
    case Proceed(mapOk) =>
      match PcOf(s, t)
      case LockRead(write, cpu) =>
        if HasWrite(s.word) || (Count(s.word) != 0 && write) then Goto(s, t, Idle)  // busy
        else Goto(s, t, LockCas(write, cpu, s.word))
      case LockCas(write, cpu, cur) =>
        if s.word == cur
        then Goto(s.(word := LockedWord(cur, write), holders := s.holders + multiset{t}), t, LockOwner(write, cpu, cur))
        else Goto(s, t, LockRead(write, cpu))
      case LockOwner(write, cpu, cur) =>
        var s1 := if HasWrite(LockedWord(cur, write)) then s.(owner := t) else s;
        Goto(s1, t, if cpu && !HasMapped(cur) then MapEnter else Idle)
      case MapEnter => Goto(s.(mutex := {t}), t, MapCheck)
      case MapCheck =>
        if !HasMapped(s.word) && mapOk then Goto(s.(maps := s.maps + 1), t, MapSet)
          else Goto(s, t, MapLeave(HasMapped(s.word)))
      case MapSet => Goto(s.(word := SetMapped(s.word)), t, MapLeave(true))
      case MapLeave(_) => Goto(s.(mutex := {}), t, Idle)
      case UnlockRead => Goto(s, t, UnlockOwner(s.word))
      case UnlockOwner(cur) =>
        var mine := HasWrite(cur) && s.owner == t;
        var s1, next := if mine then s.(owner := NO_OWNER) else s, if mine then ClearWrite(cur) else cur;
        if Count(next) == 0 then Goto(s1, t, Idle)  // not locked: an error
        else Goto(s1, t, UnlockCas(cur, next - 1))
      case UnlockCas(cur, next) =>
        if s.word == cur
        then Goto(s.(word := next, holders := s.holders - multiset{t}), t, Idle)
        else Goto(s, t, UnlockRead)
  }

  // ----- the invariant

  predicate InMutex(pc: Pc) { pc.MapCheck? || pc.MapSet? || pc.MapLeave? }
  predicate Holds(pc: Pc) { !pc.Idle? && !pc.LockRead? && !pc.LockCas? }

  /** What one thread's program counter promises about the shared word. */
  ghost predicate ThreadInv(s: State, t: Tid) {
    var pc := PcOf(s, t);
    && (Holds(pc) ==> t in s.holders)
    && (InMutex(pc) <==> t in s.mutex)
    && (pc.LockCas? || pc.LockOwner? ==> IsWord(pc.cur) && !HasWrite(pc.cur))
    && (pc.LockCas? && pc.write ==> Count(pc.cur) == 0)
    && (pc.LockOwner? ==> HasWrite(s.word) == pc.write && Count(pc.cur) < READ_MASK)
    && (pc.MapSet? ==> s.maps == 1)
    && (pc.UnlockOwner? || pc.UnlockCas? ==>
          && IsWord(pc.cur) && Count(pc.cur) > 0 && HasWrite(pc.cur) == HasWrite(s.word)
          && (HasWrite(s.word) ==> pc.cur == s.word))
    && (pc.UnlockCas? ==> pc.next == ClearWrite(pc.cur) - 1)
  }

  /** A write lock has one holder, who is the recorded owner except while taking or dropping the lock. */
  ghost predicate WriterInv(s: State) {
    HasWrite(s.word) ==>
      && |s.holders| == 1
      && forall h :: h in s.holders ==> PcOf(s, h).LockOwner? || PcOf(s, h).UnlockCas? || s.owner == h
  }

  ghost predicate MapInv(s: State) {
    && |s.mutex| <= 1 && s.maps <= 1
    && (s.maps == 1 ==> HasMapped(s.word) || exists t :: t in s.mutex && PcOf(s, t).MapSet?)
  }

  ghost predicate Inv(s: State) {
    && IsWord(s.word) && Count(s.word) == |s.holders|
    && WriterInv(s) && MapInv(s)
    && forall t :: ThreadInv(s, t)
  }

  lemma SoleHolder(m: multiset<Tid>, t: Tid, u: Tid)
    requires |m| == 1 && t in m && u in m
    ensures t == u
  {
    var r := m - multiset{t};
    assert |r| == 0;
    assert t != u ==> r[u] == m[u];
  }

  lemma ClearKeepsCount(cur: int)
    requires IsWord(cur)
    ensures Count(ClearWrite(cur)) == Count(cur)
  {
  }

  /** A thread's own step: acquiring. */
  lemma OwnLockStep(s: State, t: Tid, c: Choice)
    requires Inv(s) && Enabled(s, t, c) && |Do(s, t, c).holders| <= READ_MASK
    requires c.Proceed? && (PcOf(s, t).LockRead? || PcOf(s, t).LockCas? || PcOf(s, t).LockOwner?)
    ensures ThreadInv(Do(s, t, c), t)
  {
    assert ThreadInv(s, t);
    var pc := PcOf(s, t);
    if pc.LockCas? && s.word == pc.cur {
      LockedWordFields(pc.cur, pc.write);
    }
  }

  /** A thread's own step: releasing. */
  lemma OwnUnlockStep(s: State, t: Tid, c: Choice)
    requires Inv(s) && Enabled(s, t, c)
    requires c.Proceed? && (PcOf(s, t).UnlockRead? || PcOf(s, t).UnlockOwner? || PcOf(s, t).UnlockCas?)
    ensures ThreadInv(Do(s, t, c), t)
  {
    assert ThreadInv(s, t);
    var pc := PcOf(s, t);
    if pc.UnlockRead? {
      assert s.holders[t] <= |s.holders|;
    } else if pc.UnlockOwner? {
      ClearKeepsCount(pc.cur);
      if HasWrite(pc.cur) { WriterIsOwner(s, t); }
    }
  }

  /** A thread's own step: starting a call, and mapping. */
  lemma OwnMapStep(s: State, t: Tid, c: Choice)
    requires Inv(s) && Enabled(s, t, c)
    requires c.Proceed? ==> PcOf(s, t).MapEnter? || InMutex(PcOf(s, t))
    ensures ThreadInv(Do(s, t, c), t)
  {
    assert ThreadInv(s, t);
    if PcOf(s, t).MapCheck? && !HasMapped(s.word) { NotYetMapped(s, t); }
  }

  /** Inside the mutex, before mapping, an unmapped word means nobody has mapped the buffer. */
  lemma NotYetMapped(s: State, t: Tid)
    requires MapInv(s) && ThreadInv(s, t) && PcOf(s, t).MapCheck? && !HasMapped(s.word)
    ensures s.maps == 0
  {
    if s.maps == 1 {
      var u :| u in s.mutex && PcOf(s, u).MapSet?;
      SameMember(s.mutex, t, u);
    }
  }

  lemma WriterIsOwner(s: State, t: Tid)
    requires Inv(s) && PcOf(s, t).UnlockOwner? && HasWrite(s.word)
    ensures s.owner == t
  {
    assert ThreadInv(s, t);
  }

  /** The steps that install a new word. */
  ghost predicate Acquires(s: State, t: Tid, c: Choice) {
    c.Proceed? && PcOf(s, t).LockCas? && s.word == PcOf(s, t).cur
  }

  ghost predicate Releases(s: State, t: Tid, c: Choice) {
    c.Proceed? && PcOf(s, t).UnlockCas? && s.word == PcOf(s, t).cur
  }

  ghost predicate Maps(s: State, t: Tid, c: Choice) {
    c.Proceed? && (PcOf(s, t).MapEnter? || InMutex(PcOf(s, t)))
  }

  lemma AcquireSparesOthers(s: State, t: Tid, c: Choice, u: Tid)
    requires Inv(s) && Enabled(s, t, c) && Acquires(s, t, c) && u != t && |Do(s, t, c).holders| <= READ_MASK
    ensures ThreadInv(Do(s, t, c), u)
  {
    assert ThreadInv(s, t) && ThreadInv(s, u);
    LockedWordFields(PcOf(s, t).cur, PcOf(s, t).write);
    if u in s.holders { assert s.holders[u] <= |s.holders|; }
  }

  lemma ReleaseSparesOthers(s: State, t: Tid, c: Choice, u: Tid)
    requires Inv(s) && Enabled(s, t, c) && Releases(s, t, c) && u != t
    ensures ThreadInv(Do(s, t, c), u)
  {
    assert ThreadInv(s, t) && ThreadInv(s, u);
    UnlockedWordFields(PcOf(s, t).cur);
    if HasWrite(s.word) && u in s.holders { SoleHolder(s.holders, t, u); }
  }

  lemma MapSparesOthers(s: State, t: Tid, c: Choice, u: Tid)
    requires Inv(s) && Enabled(s, t, c) && Maps(s, t, c) && u != t
    ensures ThreadInv(Do(s, t, c), u)
  {
    assert ThreadInv(s, t) && ThreadInv(s, u);
    MappedWordFields(s.word);
    if HasWrite(s.word) && u in s.holders { SoleHolder(s.holders, t, u); }
    if t in s.mutex && u in s.mutex { SameMember(s.mutex, t, u); }
  }

  /** No step of another thread breaks what a thread relies on. */
  lemma OtherStep(s: State, t: Tid, c: Choice, u: Tid)
    requires Inv(s) && Enabled(s, t, c) && u != t && |Do(s, t, c).holders| <= READ_MASK
    ensures ThreadInv(Do(s, t, c), u)
  {
    if Acquires(s, t, c) { AcquireSparesOthers(s, t, c, u); }
    else if Releases(s, t, c) { ReleaseSparesOthers(s, t, c, u); }
    else if Maps(s, t, c) { MapSparesOthers(s, t, c, u); }
    else { assert ThreadInv(s, u); }
  }

  lemma SameMember(m: set<Tid>, t: Tid, u: Tid)
    requires |m| <= 1 && t in m && u in m
    ensures t == u
  {
    assert |m - {t}| == 0;
    assert t != u ==> u in m - {t};
  }

  lemma WriterStep(s: State, t: Tid, c: Choice)
    requires Inv(s) && Enabled(s, t, c) && |Do(s, t, c).holders| <= READ_MASK
    ensures WriterInv(Do(s, t, c))
  {
    assert ThreadInv(s, t);
    if Acquires(s, t, c) {
      LockedWordFields(PcOf(s, t).cur, PcOf(s, t).write);
      if PcOf(s, t).write { assert s.holders == multiset{}; }
    } else if Releases(s, t, c) {
      UnlockedWordFields(PcOf(s, t).cur);
    } else {
      WriterQuietStep(s, t, c);
    }
  }

  lemma WriterQuietStep(s: State, t: Tid, c: Choice)
    requires Inv(s) && Enabled(s, t, c) && !Acquires(s, t, c) && !Releases(s, t, c)
    ensures WriterInv(Do(s, t, c))
  {
    assert ThreadInv(s, t);
    var s' := Do(s, t, c);
    MappedWordFields(s.word);
    if HasWrite(s'.word) {
      if c.Proceed? && PcOf(s, t).UnlockOwner? { WriterIsOwner(s, t); }
      forall h | h in s'.holders
        ensures PcOf(s', h).LockOwner? || PcOf(s', h).UnlockCas? || s'.owner == h
      {
        if t in s.holders { SoleHolder(s.holders, t, h); }
      }
    }
  }

  lemma MapStep(s: State, t: Tid, c: Choice)
    requires Inv(s) && Enabled(s, t, c) && |Do(s, t, c).holders| <= READ_MASK
    ensures MapInv(Do(s, t, c))
    ensures HasMapped(s.word) ==> HasMapped(Do(s, t, c).word)
  {
    assert ThreadInv(s, t);
    if Maps(s, t, c) {
      MapOwnStep(s, t, c);
    } else {
      OutsideMapping(s, t, c);
      OutsideMappingBit(s, t, c);
      forall u | u != t ensures PcOf(Do(s, t, c), u) == PcOf(s, u) { OthersStay(s, t, c, u); }
      MapQuietStep(s, t, Do(s, t, c));
    }
  }

  lemma OutsideMapping(s: State, t: Tid, c: Choice)
    requires Enabled(s, t, c) && !Maps(s, t, c)
    ensures var s' := Do(s, t, c); s'.mutex == s.mutex && s'.maps == s.maps && (c.Proceed? ==> !PcOf(s, t).MapSet?)
  {
  }

  lemma OutsideMappingBit(s: State, t: Tid, c: Choice)
    requires Inv(s) && Enabled(s, t, c) && |Do(s, t, c).holders| <= READ_MASK && !Maps(s, t, c)
    ensures HasMapped(Do(s, t, c).word) == HasMapped(s.word)
  {
    assert ThreadInv(s, t);
    if Acquires(s, t, c) { LockedWordFields(PcOf(s, t).cur, PcOf(s, t).write); }
    if Releases(s, t, c) { UnlockedWordFields(PcOf(s, t).cur); }
  }

  lemma MapQuietStep(s: State, t: Tid, s': State)
    requires MapInv(s) && s'.mutex == s.mutex && s'.maps == s.maps && HasMapped(s'.word) == HasMapped(s.word)
    requires !PcOf(s, t).MapSet? && forall u :: u != t ==> PcOf(s', u) == PcOf(s, u)
    ensures MapInv(s')
  {
  }

  lemma MapOwnStep(s: State, t: Tid, c: Choice)
    requires Inv(s) && Enabled(s, t, c) && Maps(s, t, c)
    ensures MapInv(Do(s, t, c))
    ensures HasMapped(s.word) ==> HasMapped(Do(s, t, c).word)
  {
    assert ThreadInv(s, t);
    var s', pc := Do(s, t, c), PcOf(s, t);
    MappedWordFields(s.word);
    if pc.MapCheck? && !HasMapped(s.word) { NotYetMapped(s, t); }
    if s'.maps == 1 && !HasMapped(s'.word) {
      if pc.MapCheck? && c.mapOk {
        assert t in s'.mutex && PcOf(s', t).MapSet?;
      } else {
        var u :| u in s.mutex && PcOf(s, u).MapSet?;
        if InMutex(pc) { SameMember(s.mutex, t, u); }
      }
    }
  }

  lemma StepKeepsMapped(s: State, t: Tid, c: Choice)
    requires Inv(s) && Enabled(s, t, c) && |Do(s, t, c).holders| <= READ_MASK
    ensures HasMapped(s.word) ==> HasMapped(Do(s, t, c).word)
  {
    MapStep(s, t, c);
  }

  // ----- what a successful lock for the CPU promises

  /** Who saw the mapped bit can rely on it. */
  ghost predicate SawMapped(s: State, t: Tid) {
    var pc := PcOf(s, t);
    && (pc.LockCas? || pc.LockOwner? ==> HasMapped(pc.cur) ==> HasMapped(s.word))
    && (pc.MapLeave? && pc.ok ==> HasMapped(s.word))
  }

  lemma StepKeepsSaw(s: State, t: Tid, c: Choice, u: Tid)
    requires Inv(s) && Enabled(s, t, c) && |Do(s, t, c).holders| <= READ_MASK && SawMapped(s, u)
    ensures SawMapped(Do(s, t, c), u)
  {
    StepKeepsMapped(s, t, c);
    if u == t { OwnSaw(s, t, c); } else { OthersStay(s, t, c, u); }
  }

  lemma OwnSaw(s: State, t: Tid, c: Choice)
    requires Enabled(s, t, c) && IsWord(s.word) && SawMapped(s, t) && (HasMapped(s.word) ==>
      HasMapped(Do(s, t, c).word))
    ensures SawMapped(Do(s, t, c), t)
  {
    MappedWordFields(s.word);
  }

  lemma OthersStay(s: State, t: Tid, c: Choice, u: Tid)
    requires Enabled(s, t, c) && u != t
    ensures PcOf(Do(s, t, c), u) == PcOf(s, u)
  {
  }

  /** The step with which a lock for the CPU returns success. */
  ghost predicate CpuLockReturns(s: State, t: Tid) {
    var pc := PcOf(s, t);
    (pc.LockOwner? && pc.cpu && HasMapped(pc.cur)) || (pc.MapLeave? && pc.ok)
  }

  lemma {:induction false} RunSaw(states: seq<State>, steps: seq<(Tid, Choice)>, i: nat, u: Tid)
    requires IsRun(states, steps) && i < |states|
    ensures SawMapped(states[i], u)
  {
    if i > 0 {
      RunSaw(states, steps, i - 1, u);
      RunInv(states, steps, i - 1);
      RunAt(states, steps, i - 1);
      StepKeepsSaw(states[i-1], steps[i-1].0, steps[i-1].1, u);
    }
  }

  /** In every run a lock for the CPU that succeeds leaves the buffer mapped, from then on. */
  lemma CpuLockMaps(states: seq<State>, steps: seq<(Tid, Choice)>, i: nat, j: nat)
    requires IsRun(states, steps) && i < j < |states| && CpuLockReturns(states[i], steps[i].0)
    ensures HasMapped(states[j].word)
  {
    RunSaw(states, steps, i, steps[i].0);
    MappedIsStable(states, steps, i, j);
  }

  lemma StepKeepsInv(s: State, t: Tid, c: Choice)
    requires Inv(s) && Enabled(s, t, c) && |Do(s, t, c).holders| <= READ_MASK
    ensures Inv(Do(s, t, c))
    ensures HasMapped(s.word) ==> HasMapped(Do(s, t, c).word)
  {
    assert ThreadInv(s, t);
    var s', pc := Do(s, t, c), PcOf(s, t);
    WriterStep(s, t, c);
    MapStep(s, t, c);
    forall u ensures ThreadInv(s', u) {
      if u != t { OtherStep(s, t, c, u); }
      else if !c.Proceed? || pc.MapEnter? || InMutex(pc) { OwnMapStep(s, t, c); }
      else if Holds(pc) && !pc.LockOwner? { OwnUnlockStep(s, t, c); }
      else { OwnLockStep(s, t, c); }
    }
    WordStep(s, t, c);
  }

  lemma WordStep(s: State, t: Tid, c: Choice)
    requires Inv(s) && Enabled(s, t, c) && |Do(s, t, c).holders| <= READ_MASK
    ensures IsWord(Do(s, t, c).word) && Count(Do(s, t, c).word) == |Do(s, t, c).holders|
  {
    assert ThreadInv(s, t);
    MappedWordFields(s.word);
    if Acquires(s, t, c) { LockedWordFields(PcOf(s, t).cur, PcOf(s, t).write); }
    if Releases(s, t, c) { UnlockedWordFields(PcOf(s, t).cur); }
  }

  // ----- whole runs

  /** A fresh buffer: nobody holds it; it may already be mapped by its creator. */
  ghost predicate IsInit(s: State) {
    (s.word == 0 || s.word == MAPPED) && s.owner == NO_OWNER && s.mutex == {} && s.maps == 0
    && s.holders == multiset{} && s.pcs == map[]
  }

  ghost predicate IsRun(states: seq<State>, steps: seq<(Tid, Choice)>) {
    && |states| == |steps| + 1 && IsInit(states[0])
    && (forall i :: 0 <= i < |steps| ==>
          Enabled(states[i], steps[i].0, steps[i].1) && states[i+1] == Do(states[i], steps[i].0, steps[i].1))
    && (forall i :: 0 <= i < |states| ==> |states[i].holders| <= READ_MASK)
  }

  lemma RunAt(states: seq<State>, steps: seq<(Tid, Choice)>, i: nat)
    requires IsRun(states, steps) && i < |steps|
    ensures Enabled(states[i], steps[i].0, steps[i].1) && states[i+1] == Do(states[i], steps[i].0, steps[i].1)
    ensures |Do(states[i], steps[i].0, steps[i].1).holders| <= READ_MASK
  {
    assert |states[i+1].holders| <= READ_MASK;
  }

  lemma {:induction false} RunInv(states: seq<State>, steps: seq<(Tid, Choice)>, i: nat)
    requires IsRun(states, steps) && i < |states|
    ensures Inv(states[i])
  {
    if i > 0 {
      RunInv(states, steps, i - 1);
      StepKeepsInv(states[i-1], steps[i-1].0, steps[i-1].1);
    }
  }

  ghost predicate WriterOf(s: State, h: Tid) {
    s.holders == multiset{h} && (PcOf(s, h).LockOwner? || PcOf(s, h).UnlockCas? || s.owner == h)
  }

  /**
   In every interleaving: the low bits count the holders, a write lock has exactly
   one holder, who owns it once the lock call is past recording, and the buffer is
   mapped at most once.
   */
  lemma LockWordMeaning(states: seq<State>, steps: seq<(Tid, Choice)>, i: nat)
    requires IsRun(states, steps) && i < |states|
    ensures var s := states[i];
      && Count(s.word) == |s.holders| && s.maps <= 1
      && (HasWrite(s.word) ==> exists h :: WriterOf(s, h))
  {
    RunInv(states, steps, i);
    var s := states[i];
    if HasWrite(s.word) {
      var h :| h in s.holders;
      assert |s.holders - multiset{h}| == 0;
      assert s.holders == multiset{h} + (s.holders - multiset{h});
      assert WriterOf(s, h);
    }
  }

  /** Once mapped, the word says so forever; a buffer that starts mapped is never mapped again. */
  lemma MappedIsStable(states: seq<State>, steps: seq<(Tid, Choice)>, i: nat, j: nat)
    requires IsRun(states, steps) && i <= j < |states| && HasMapped(states[i].word)
    ensures HasMapped(states[j].word)
  {
    var mapped := seq(|states|, k requires 0 <= k < |states| => HasMapped(states[k].word));
    forall k | 0 <= k < |mapped| - 1 && mapped[k] ensures mapped[k+1] {
      RunStep(states, steps, k);
    }
    OnceSet(mapped, i, j);
  }

  lemma {:induction false} OnceSet(bits: seq<bool>, i: nat, j: nat)
    requires i <= j < |bits| && bits[i]
    requires forall k :: 0 <= k < |bits| - 1 && bits[k] ==> bits[k+1]
    ensures bits[j]
    decreases j - i
  {
    if i < j { OnceSet(bits, i + 1, j); }
  }

  lemma RunStep(states: seq<State>, steps: seq<(Tid, Choice)>, i: nat)
    requires IsRun(states, steps) && i < |steps|
    ensures HasMapped(states[i].word) ==> HasMapped(states[i+1].word)
  {
    RunInv(states, steps, i);
    RunAt(states, steps, i);
    StepKeepsMapped(states[i], steps[i].0, steps[i].1);
  }

  /** A call starts with what the caller asked for and touches nothing shared. */
  lemma CallStarts(states: seq<State>, steps: seq<(Tid, Choice)>, i: nat)
    requires IsRun(states, steps) && i < |steps| && !steps[i].1.Proceed?
    ensures var (s, t, c, s') := (states[i], steps[i].0, steps[i].1, states[i+1]);
      && PcOf(s', t) == (if c.StartLock? then LockRead(c.write, c.cpu) else UnlockRead)
      && s'.(pcs := map[]) == s.(pcs := map[])
  {
    RunAt(states, steps, i);
  }

  /**
   In every run a lock is refused as busy exactly when somebody holds the buffer and
   the request or the held lock is for writing; else the thread goes on to take it.
   */
  lemma LockDecides(states: seq<State>, steps: seq<(Tid, Choice)>, i: nat)
    requires IsRun(states, steps) && i < |steps| && steps[i].1.Proceed? && PcOf(states[i], steps[i].0).LockRead?
    ensures var (s, t, s') := (states[i], steps[i].0, states[i+1]); var pc := PcOf(s, t);
      && (PcOf(s', t).Idle? <==> |s.holders| > 0 && (pc.write || HasWrite(s.word)))
      && (!PcOf(s', t).Idle? ==> PcOf(s', t) == LockCas(pc.write, pc.cpu, s.word))
      && s'.holders == s.holders && s'.word == s.word
  {
    RunInv(states, steps, i);
    RunAt(states, steps, i);
    if HasWrite(states[i].word) { assert |states[i].holders| == 1; }
  }

  /**
   The lock is taken exactly when the word did not change meanwhile, and then the
   thread holds the buffer, for writing iff it asked to; else it starts over.
   */
  lemma LockTakes(states: seq<State>, steps: seq<(Tid, Choice)>, i: nat)
    requires IsRun(states, steps) && i < |steps| && steps[i].1.Proceed? && PcOf(states[i], steps[i].0).LockCas?
    ensures var (s, t, s') := (states[i], steps[i].0, states[i+1]); var pc := PcOf(s, t);
      if s.word == pc.cur then
        && PcOf(s', t) == LockOwner(pc.write, pc.cpu, pc.cur) && s'.holders == s.holders + multiset{t}
        && HasWrite(s'.word) == pc.write && HasMapped(s'.word) == HasMapped(s.word)
      else PcOf(s', t) == LockRead(pc.write, pc.cpu) && s'.holders == s.holders && s'.word == s.word
  {
    RunInv(states, steps, i);
    RunAt(states, steps, i);
    var s, t := states[i], steps[i].0;
    assert ThreadInv(s, t);
    if s.word == PcOf(s, t).cur {
      assert |states[i+1].holders| == |s.holders| + 1;
      LockedWordFields(s.word, PcOf(s, t).write);
    }
  }

  /** Recording the owner: a writer becomes it, and only a lock for the CPU on an unmapped buffer goes on to map. */
  lemma LockReturns(states: seq<State>, steps: seq<(Tid, Choice)>, i: nat)
    requires IsRun(states, steps) && i < |steps| && steps[i].1.Proceed? && PcOf(states[i], steps[i].0).LockOwner?
    ensures var (s, t, s') := (states[i], steps[i].0, states[i+1]); var pc := PcOf(s, t);
      && s'.owner == (if pc.write then t else s.owner)
      && PcOf(s', t) == (if pc.cpu && !HasMapped(pc.cur) then MapEnter else Idle)
      && s'.holders == s.holders && s'.word == s.word
  {
    RunInv(states, steps, i);
    RunAt(states, steps, i);
    assert ThreadInv(states[i], steps[i].0);
    LockedWordFields(PcOf(states[i], steps[i].0).cur, PcOf(states[i], steps[i].0).write);
  }

  /**
   Inside the mapping mutex: an unmapped buffer is mapped exactly when the attempt works,
   a mapped one is left alone, and the lock answers success exactly in those two cases.
   */
  lemma MapDecides(states: seq<State>, steps: seq<(Tid, Choice)>, i: nat)
    requires IsRun(states, steps) && i < |steps| && steps[i].1.Proceed?
    ensures var (s, t, s') := (states[i], steps[i].0, states[i+1]); var (pc, pc') := (PcOf(s, t), PcOf(s', t));
      && (pc.MapEnter? ==> pc'.MapCheck? && s'.mutex == {t})
      && (pc.MapCheck? && HasMapped(s.word) ==> pc' == MapLeave(true) && s'.maps == s.maps)
      && (pc.MapCheck? && !HasMapped(s.word) && steps[i].1.mapOk ==> pc'.MapSet? && s'.maps == 1)
      && (pc.MapCheck? && !HasMapped(s.word) && !steps[i].1.mapOk ==> pc' == MapLeave(false) && s'.maps == s.maps == 0)
      && (pc.MapSet? ==> pc' == MapLeave(true) && HasMapped(s'.word) && s'.maps == s.maps)
      && (pc.MapLeave? ==> pc'.Idle? && s'.mutex == {} && s'.word == s.word)
  {
    RunInv(states, steps, i);
    RunAt(states, steps, i);
    var s, t := states[i], steps[i].0;
    assert ThreadInv(s, t);
    if PcOf(s, t).MapCheck? && !HasMapped(s.word) { NotYetMapped(s, t); }
    MappedWordFields(s.word);
  }

  /** An unlock goes through exactly when the word did not change meanwhile; else it starts over. */
  lemma UnlockDecides(states: seq<State>, steps: seq<(Tid, Choice)>, i: nat)
    requires IsRun(states, steps) && i < |steps| && steps[i].1.Proceed?
    ensures var (s, t, s') := (states[i], steps[i].0, states[i+1]); var (pc, pc') := (PcOf(s, t), PcOf(s', t));
      && (pc.UnlockRead? ==> pc' == UnlockOwner(s.word) && s'.holders == s.holders)
      && (pc.UnlockOwner? ==> s'.holders == s.holders && s'.owner == if HasWrite(s.word) then NO_OWNER else s.owner)
      && (pc.UnlockCas? && s.word == pc.cur ==>
            pc'.Idle? && s'.holders == s.holders - multiset{t} && !HasWrite(s'.word))
      && (pc.UnlockCas? && s.word != pc.cur ==> pc'.UnlockRead? && s'.holders == s.holders && s'.word == s.word)
  {
    RunInv(states, steps, i);
    RunAt(states, steps, i);
    var s, t := states[i], steps[i].0;
    assert ThreadInv(s, t);
    if PcOf(s, t).UnlockOwner? && HasWrite(s.word) { WriterIsOwner(s, t); }
    if PcOf(s, t).UnlockCas? { UnlockedWordFields(PcOf(s, t).cur); }
  }

  /** An unlock by a holder never answers "not locked", and dropping a write lock never has to retry. */
  lemma UnlockSucceeds(states: seq<State>, steps: seq<(Tid, Choice)>, i: nat)
    requires IsRun(states, steps) && i < |steps|
    ensures var s, t, s' := states[i], steps[i].0, states[i+1];
      && (PcOf(s, t).UnlockOwner? ==> PcOf(s', t).UnlockCas?)
      && (PcOf(s, t).UnlockCas? && HasWrite(s.word) ==> PcOf(s', t).Idle? && !HasWrite(s'.word) && t !in s'.holders)
  {
    RunInv(states, steps, i);
    var s, t := states[i], steps[i].0;
    assert ThreadInv(s, t);
    if PcOf(s, t).UnlockOwner? && HasWrite(s.word) { WriterIsOwner(s, t); }
    if PcOf(s, t).UnlockCas? && HasWrite(s.word) {
      UnlockedWordFields(s.word);
      assert |s.holders - multiset{t}| == 0;
    }
  }

  /** One lock past the limit turns the count into the mapped flag: the word then reads as mapped and unlocked. */
  lemma OverflowExample()
    ensures var w := LockedWord(READ_MASK, false);
      Count(READ_MASK) == READ_MASK && !HasMapped(READ_MASK) && Count(w) == 0 && HasMapped(w)
  {
    assert MAPPED / MAPPED == 1;
  }
}
