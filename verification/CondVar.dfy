/**
 The OS/2 condition variable: two auto-reset ("post one") event semaphores, a
 counter and the caller's mutex. Any number of threads run, interleaved at every
 access to shared state. Waits are untimed and signallers own the mutex.
 */
module CondVar {
  import opened Wrappers

  /** Where a thread is; every constructor is one atomic access away from the next. */
  datatype PC =
    | Out                     // does not own the mutex, in no call
    | Own                     // owns the mutex, in no call
    | Counted                 // wait: wait_count incremented, mutex still owned
    | Asleep                  // wait: mutex released, blocked on event_sem
    | Woken                   // wait: consumed event_sem
    | Left                    // wait: wait_count decremented
    | Acked                   // wait: posted ack_sem, queueing for the mutex
    | BcastTest               // broadcast: about to test the loop condition
    | SigTest(bcast: bool)    // signal: about to test wait_count
    | SigPost(bcast: bool)    // signal: saw waiters, about to post event_sem
    | SigAck(bcast: bool)     // signal: blocked on ack_sem

  datatype Owner = Free | HeldBy(t: nat)

  /** What a thread that owns the mutex and is in no call does next. */
  datatype Choice = Unlock | Wait | Signal | Broadcast

  datatype Move = Move(t: nat, c: Choice)

  datatype State = State(pcs: seq<PC>, owner: Owner, event: bool, ack: bool, waitCount: int)

  predicate OwnsMutex(p: PC) {
    p.Own? || p.Counted? || InCall(p)
  }

  /** Inside pthread_cond_signal or pthread_cond_broadcast. */
  predicate InCall(p: PC) {
    p.BcastTest? || p.SigTest? || p.SigPost? || p.SigAck?
  }

  /** Counted in wait_count. */
  predicate Registered(p: PC) {
    p.Counted? || p.Asleep? || p.Woken?
  }

  predicate Init(s: State) {
    (forall t | 0 <= t < |s.pcs| :: s.pcs[t] == Out) &&
    s.owner == Free && !s.event && !s.ack && s.waitCount == 0
  }

  /** Blocking: the mutex must be free, the semaphore posted. */
  predicate Enabled(s: State, m: Move) {
    m.t < |s.pcs| &&
    match s.pcs[m.t]
    case Out => s.owner == Free
    case Asleep => s.event
    case Acked => s.owner == Free
    case SigAck(_) => s.ack
    case _ => true
  }

  function AfterSignal(bcast: bool): PC {
    if bcast then BcastTest else Own
  }

  function At(s: State, t: nat, p: PC): State
    requires t < |s.pcs|
  {
    s.(pcs := s.pcs[t := p])
  }

  /** One atomic step of thread m.t. */
  function Do(s: State, m: Move): State
    requires Enabled(s, m)
  {
    var t := m.t;
    match s.pcs[t]
    case Out => At(s, t, Own).(owner := HeldBy(t))
    case Own => (
      match m.c
      case Unlock => At(s, t, Out).(owner := Free)
      case Wait => At(s, t, Counted).(waitCount := s.waitCount + 1)
      case Signal => At(s, t, SigTest(false))
      case Broadcast => At(s, t, BcastTest))
    case Counted => At(s, t, Asleep).(owner := Free)
    case Asleep => At(s, t, Woken).(event := false)
    case Woken => At(s, t, Left).(waitCount := s.waitCount - 1)
    case Left => At(s, t, Acked).(ack := true)
    case Acked => At(s, t, Own).(owner := HeldBy(t))
    case BcastTest => At(s, t, if s.waitCount != 0 then SigTest(true) else Own)
    case SigTest(b) => At(s, t, if s.waitCount != 0 then SigPost(b) else AfterSignal(b))
    case SigPost(b) => At(s, t, SigAck(b)).(event := true)
    case SigAck(b) => At(s, t, AfterSignal(b)).(ack := false)
  }

  predicate Run(ss: seq<State>, ms: seq<Move>) {
    |ss| == |ms| + 1 &&
    forall i | 0 <= i < |ms| :: Enabled(ss[i], ms[i]) && ss[i + 1] == Do(ss[i], ms[i])
  }

  // ---------------------------------------------------------------- the invariant

  predicate IsAsleep(p: PC) { p.Asleep? }

  predicate IsWoken(p: PC) { p.Woken? }

  predicate IsLeft(p: PC) { p.Left? }

  /** The threads whose program counter satisfies f. */
  function Threads(pcs: seq<PC>, f: PC -> bool): set<nat> {
    set t: nat | t < |pcs| && f(pcs[t])
  }

  /** Wake-up tokens in flight: event posted, waiter woken, waiter gone, ack posted. */
  function Tokens(s: State): nat {
    One(s.event) + |Threads(s.pcs, IsWoken)| + |Threads(s.pcs, IsLeft)| + One(s.ack)
  }

  predicate Signalling(s: State) {
    s.owner.HeldBy? && s.owner.t < |s.pcs| && s.pcs[s.owner.t].SigAck?
  }

  /** The mutex is owned by exactly the thread whose program counter says so. */
  ghost predicate OwnerInv(s: State) {
    && (s.owner.HeldBy? ==> s.owner.t < |s.pcs| && OwnsMutex(s.pcs[s.owner.t]))
    && (forall t: nat | t < |s.pcs| && OwnsMutex(s.pcs[t]) :: s.owner == HeldBy(t))
  }

  ghost predicate CountInv(s: State) {
    s.waitCount == |Threads(s.pcs, Registered)|
  }

  /** One token while a signaller waits for its ack, none otherwise. */
  ghost predicate TokenInv(s: State) {
    Tokens(s) == One(Signalling(s))
  }

  predicate SawWaiters(p: PC) {
    p.SigPost? || p == SigTest(true)
  }

  /** A signaller that saw waiters, and a posted event, always have a sleeper to wake. */
  ghost predicate SleeperInv(s: State) {
    && (forall t: nat | t < |s.pcs| && SawWaiters(s.pcs[t]) :: Threads(s.pcs, IsAsleep) != {})
    && (s.event ==> Threads(s.pcs, IsAsleep) != {})
  }

  ghost predicate Inv(s: State) {
    OwnerInv(s) && CountInv(s) && TokenInv(s) && SleeperInv(s)
  }

  lemma ThreadsAfter(pcs: seq<PC>, t: nat, x: PC, f: PC -> bool)
    requires t < |pcs|
    ensures Threads(pcs[t := x], f) == if f(x) then Threads(pcs, f) + {t} else Threads(pcs, f) - {t}
    ensures |Threads(pcs[t := x], f)| == |Threads(pcs, f)| - One(f(pcs[t])) + One(f(x))
  {
    assert t in Threads(pcs, f) <==> f(pcs[t]);
  }

  /** A step rewrites one program counter. */
  lemma OnePcMoves(s: State, m: Move) returns (x: PC)
    requires Enabled(s, m)
    ensures x == Do(s, m).pcs[m.t] && Do(s, m).pcs == s.pcs[m.t := x]
  {
    x := Do(s, m).pcs[m.t];
  }

  lemma InitInv(s: State)
    requires Init(s)
    ensures Inv(s)
  {
    assert Threads(s.pcs, Registered) == {};
    assert Threads(s.pcs, IsWoken) == {} && Threads(s.pcs, IsLeft) == {};
  }

  lemma StepOwner(s: State, m: Move)
    requires OwnerInv(s) && Enabled(s, m)
    ensures OwnerInv(Do(s, m))
  {
    var x := OnePcMoves(s, m);
    OwnerMoves(s, m);
    hide Do, OwnsMutex;
  }

  /** Who owns the mutex after a step: the thread that took it, nobody, or the same as before. */
  lemma OwnerMoves(s: State, m: Move)
    requires OwnerInv(s) && Enabled(s, m)
    ensures var s' := Do(s, m); var x := s'.pcs[m.t];
      && (OwnsMutex(x) ==> s'.owner == HeldBy(m.t))
      && (!OwnsMutex(x) ==> s'.owner == if OwnsMutex(s.pcs[m.t]) then Free else s.owner)
      && (OwnsMutex(x) && !OwnsMutex(s.pcs[m.t]) ==> s.owner == Free)
  {
  }

  lemma CounterAfter(s: State, m: Move)
    requires Enabled(s, m)
    ensures Do(s, m).waitCount ==
            s.waitCount - One(Registered(s.pcs[m.t])) + One(Registered(Do(s, m).pcs[m.t]))
  {
  }

  lemma StepCount(s: State, m: Move)
    requires CountInv(s) && Enabled(s, m)
    ensures CountInv(Do(s, m))
  {
    CounterAfter(s, m);
    var x := OnePcMoves(s, m);
    ThreadsAfter(s.pcs, m.t, x, Registered);
  }

  function PcTokens(p: PC): nat {
    One(IsWoken(p)) + One(IsLeft(p))
  }

  lemma TokensMoved(s: State, m: Move)
    requires Enabled(s, m) && (s.pcs[m.t].Left? ==> !s.ack)
    ensures var s' := Do(s, m);
      One(s'.event) + One(s'.ack) + PcTokens(s'.pcs[m.t]) ==
      One(s.event) + One(s.ack) + PcTokens(s.pcs[m.t]) + One(s.pcs[m.t].SigPost? && !s.event) - One(s.pcs[m.t].SigAck?)
  {
  }

  lemma NoSecondAck(s: State, t: nat)
    requires t < |s.pcs| && Tokens(s) <= 1 && s.pcs[t].Left?
    ensures !s.ack
  {
    assert t in Threads(s.pcs, IsLeft);
  }

  /** A post makes a token, and the end of the wait for an ack takes it. */
  lemma TokensAfter(s: State, m: Move)
    requires Enabled(s, m) && Tokens(s) <= 1
    ensures Tokens(Do(s, m)) == Tokens(s) + One(s.pcs[m.t].SigPost? && !s.event) - One(s.pcs[m.t].SigAck?)
  {
    var x := OnePcMoves(s, m);
    if s.pcs[m.t].Left? {
      NoSecondAck(s, m.t);
    }
    TokensMoved(s, m);
    ThreadsAfter(s.pcs, m.t, x, IsWoken);
    ThreadsAfter(s.pcs, m.t, x, IsLeft);
    hide Threads, Do;
  }

  lemma SignallingAfter(s: State, m: Move)
    requires OwnerInv(s) && Enabled(s, m)
    ensures One(Signalling(Do(s, m))) == One(Signalling(s)) + One(s.pcs[m.t].SigPost?) - One(s.pcs[m.t].SigAck?)
  {
  }

  lemma StepTokens(s: State, m: Move)
    requires OwnerInv(s) && TokenInv(s) && Enabled(s, m)
    ensures TokenInv(Do(s, m))
  {
    TokensAfter(s, m);
    SignallingAfter(s, m);
    if s.pcs[m.t].SigPost? {
      assert s.owner == HeldBy(m.t);
    }
    hide Do, Threads;
  }

  /** Whoever owns the mutex and sees a nonzero count has a sleeper to wake. */
  lemma SleeperExists(s: State, t: nat)
    requires Inv(s) && t < |s.pcs| && InCall(s.pcs[t]) && !s.pcs[t].SigAck? && s.waitCount != 0
    ensures Threads(s.pcs, IsAsleep) != {}
  {
    assert Threads(s.pcs, Registered) != {};
    var w :| w in Threads(s.pcs, Registered);
    assert s.owner == HeldBy(t);
    assert w !in Threads(s.pcs, IsWoken);
    assert w in Threads(s.pcs, IsAsleep);
  }

  /** The one step that takes a sleeper away also takes the event, and its signaller is known. */
  lemma SleeperLeaves(s: State, m: Move)
    requires OwnerInv(s) && TokenInv(s) && Enabled(s, m) && s.pcs[m.t].Asleep?
    ensures SleeperInv(Do(s, m))
  {
    assert Signalling(s);
    var x := OnePcMoves(s, m);
  }

  lemma SleepersKept(s: State, m: Move)
    requires SleeperInv(s) && Enabled(s, m) && !s.pcs[m.t].Asleep?
    requires InCall(s.pcs[m.t]) && !s.pcs[m.t].SigAck? && s.waitCount != 0 ==> Threads(s.pcs, IsAsleep) != {}
    ensures SleeperInv(Do(s, m))
  {
    var x := OnePcMoves(s, m);
    ThreadsAfter(s.pcs, m.t, x, IsAsleep);
    assert m.t !in Threads(s.pcs, IsAsleep);
  }

  lemma StepSleepers(s: State, m: Move)
    requires Inv(s) && Enabled(s, m)
    ensures SleeperInv(Do(s, m))
  {
    if s.pcs[m.t].Asleep? {
      SleeperLeaves(s, m);
    } else {
      if InCall(s.pcs[m.t]) && !s.pcs[m.t].SigAck? && s.waitCount != 0 {
        SleeperExists(s, m.t);
      }
      SleepersKept(s, m);
    }
  }

  lemma StepInv(s: State, m: Move)
    requires Inv(s) && Enabled(s, m)
    ensures Inv(Do(s, m))
  {
    StepOwner(s, m);
    StepCount(s, m);
    StepTokens(s, m);
    StepSleepers(s, m);
  }

  lemma {:induction false} RunInv(ss: seq<State>, ms: seq<Move>, n: nat)
    requires Run(ss, ms) && Inv(ss[0]) && n <= |ms|
    ensures Inv(ss[n])
  {
    if n > 0 {
      RunInv(ss, ms, n - 1);
      StepInv(ss[n - 1], ms[n - 1]);
    }
  }

  // ---------------------------------------------------------------- safety over every run

  /** In every reachable state there is at most one wake-up token, and one exactly
      while a signaller is owed an ack; wait_count is the number of waiters. */
  lemma AtMostOneToken(ss: seq<State>, ms: seq<Move>, n: nat)
    requires Run(ss, ms) && Init(ss[0]) && n <= |ms|
    ensures Tokens(ss[n]) <= 1
    ensures Tokens(ss[n]) == 1 <==> Signalling(ss[n])
    ensures ss[n].waitCount == |Threads(ss[n].pcs, Registered)|
  {
    InitInv(ss[0]);
    RunInv(ss, ms, n);
  }

  /** No spurious wake-up: a sleeper can move only while a signaller waits for its ack. */
  lemma NoSpuriousWakeup(ss: seq<State>, ms: seq<Move>, n: nat)
    requires Run(ss, ms) && Init(ss[0]) && n < |ms| && ss[n].pcs[ms[n].t] == Asleep
    ensures Signalling(ss[n]) && !Enabled(ss[n + 1], ms[n].(t := ss[n].owner.t))
  {
    InitInv(ss[0]);
    RunInv(ss, ms, n);
    RunInv(ss, ms, n + 1);
    var t := ms[n].t;
    assert ss[n + 1].pcs[t] == Woken;
    assert t in Threads(ss[n + 1].pcs, IsWoken);
  }

  /** While t signals, only the waiters it wakes can move. */
  lemma OthersInCall(s: State, m: Move, t: nat)
    requires OwnerInv(s) && Enabled(s, m) && t < |s.pcs| && InCall(s.pcs[t]) && m.t != t
    ensures s.pcs[m.t].Asleep? || s.pcs[m.t].Woken? || s.pcs[m.t].Left?
  {
    assert s.owner == HeldBy(t);
  }

  /** How far a released waiter can be while the mutex stays owned. */
  predicate OnItsWay(p: PC) {
    p.Asleep? || p.Woken? || p.Left? || p.Acked?
  }

  /** Number of posts to event_sem by t in the first n moves. */
  function Posts(ss: seq<State>, ms: seq<Move>, t: nat, n: nat): nat
    requires Run(ss, ms) && n <= |ms|
  {
    if n == 0 then 0
    else Posts(ss, ms, t, n - 1) + One(ms[n - 1].t == t && ss[n - 1].pcs[t].SigPost?)
  }

  /** t stays inside its call until the last state of the run. */
  predicate CallRun(ss: seq<State>, ms: seq<Move>, t: nat) {
    Run(ss, ms) && forall i | 0 <= i < |ms| :: t < |ss[i].pcs| && InCall(ss[i].pcs[t])
  }

  ghost predicate Accounted(s0: State, s: State, posts: nat) {
    && |s.pcs| == |s0.pcs|
    && posts + s.waitCount == s0.waitCount + One(s.event) + |Threads(s.pcs, IsWoken)|
    && (forall w: nat | w < |s.pcs| && Registered(s.pcs[w]) :: Registered(s0.pcs[w]))
    && (forall w: nat | w < |s.pcs| && Registered(s0.pcs[w]) :: OnItsWay(s.pcs[w]))
  }

  /** While t signals: a post by it, the count, the event and the woken waiters stay in balance. */
  lemma CallBalance(s: State, m: Move, t: nat)
    requires OwnerInv(s) && TokenInv(s) && Enabled(s, m) && t < |s.pcs| && InCall(s.pcs[t])
    ensures var s' := Do(s, m);
      One(m.t == t && s.pcs[t].SigPost?) + s'.waitCount - One(s'.event) - |Threads(s'.pcs, IsWoken)|
            == s.waitCount - One(s.event) - |Threads(s.pcs, IsWoken)|
  {
    var x := OnePcMoves(s, m);
    CounterAfter(s, m);
    ThreadsAfter(s.pcs, m.t, x, IsWoken);
    if m.t != t {
      OthersInCall(s, m, t);
    }
    assert s.owner == HeldBy(t);
    hide Threads;
  }

  /** While t signals: nobody joins, and who moves is a waiter on its way to the mutex or t itself. */
  lemma CallMoves(s: State, m: Move, t: nat)
    requires OwnerInv(s) && Enabled(s, m) && t < |s.pcs| && InCall(s.pcs[t])
    ensures var x := Do(s, m).pcs[m.t];
      && (Registered(x) ==> m.t != t && Registered(s.pcs[m.t])) && (m.t != t ==> OnItsWay(x))
  {
    if m.t != t {
      OthersInCall(s, m, t);
    }
  }

  lemma AccountedStep(s0: State, s: State, m: Move, t: nat, posts: nat)
    requires Inv(s) && Enabled(s, m) && t < |s.pcs| && InCall(s.pcs[t])
    requires |s0.pcs| == |s.pcs| && !Registered(s0.pcs[t])
    requires Accounted(s0, s, posts)
    ensures Accounted(s0, Do(s, m), posts + One(m.t == t && s.pcs[t].SigPost?))
  {
    var x := OnePcMoves(s, m);
    CallBalance(s, m, t);
    CallMoves(s, m, t);
    hide Do, Inv, Threads, Registered, OnItsWay;
  }

  lemma AccountedStart(s: State, t: nat)
    requires OwnerInv(s) && Tokens(s) == 0 && t < |s.pcs| && InCall(s.pcs[t])
    ensures Accounted(s, s, 0)
  {
    assert s.owner == HeldBy(t);
  }

  /** The book-keeping of a whole signal or broadcast call: every post of event_sem
      removes one waiter, nobody joins, and waiters only move towards the mutex. */
  lemma {:induction false} CallAccounting(ss: seq<State>, ms: seq<Move>, t: nat, n: nat)
    requires CallRun(ss, ms, t) && n <= |ms| && Inv(ss[0]) && Tokens(ss[0]) == 0
    requires t < |ss[0].pcs| && InCall(ss[0].pcs[t])
    ensures Inv(ss[n]) && Accounted(ss[0], ss[n], Posts(ss, ms, t, n))
  {
    NotRegistered(ss[0], t);
    hide Do, Accounted;
    if n == 0 {
      AccountedStart(ss[0], t);
    } else {
      CallAccounting(ss, ms, t, n - 1);
      StepInv(ss[n - 1], ms[n - 1]);
      AccountedStep(ss[0], ss[n - 1], ms[n - 1], t, Posts(ss, ms, t, n - 1));
    }
  }

  lemma NotRegistered(s: State, t: nat)
    requires t < |s.pcs| && InCall(s.pcs[t])
    ensures !Registered(s.pcs[t])
  {
  }

  /** A waiter that is no longer registered when no token is in flight is back at the mutex. */
  lemma ReleasedAreAtMutex(s0: State, s: State, posts: nat, w: nat)
    requires Inv(s) && Accounted(s0, s, posts) && !Signalling(s)
    requires w < |s.pcs| && Registered(s0.pcs[w]) && !Registered(s.pcs[w])
    ensures s.pcs[w] == Acked
  {
    assert w !in Threads(s.pcs, IsLeft);
  }

  /** A call to pthread_cond_broadcast that starts in state i and returns in state j
      releases every waiter registered at i (each is at the mutex), leaves
      wait_count 0, and posts event_sem once per released waiter. */
  lemma BroadcastReleasesAll(ss: seq<State>, ms: seq<Move>, t: nat, i: nat, j: nat)
    requires Run(ss, ms) && Init(ss[0]) && i < j <= |ms|
    requires t < |ss[i].pcs| && ss[i].pcs[t] == BcastTest && t < |ss[j].pcs| && ss[j].pcs[t] == Own
    requires CallRun(ss[i..j + 1], ms[i..j], t)
    ensures ss[j].waitCount == 0
    ensures forall w: nat | w < |ss[i].pcs| && Registered(ss[i].pcs[w]) ::
              w < |ss[j].pcs| && ss[j].pcs[w] == Acked
    ensures Posts(ss[i..j + 1], ms[i..j], t, j - i) == ss[i].waitCount
  {
    hide Do, Enabled;
    InitInv(ss[0]);
    RunInv(ss, ms, i);
    RunInv(ss, ms, j);
    var cs, cm := ss[i..j + 1], ms[i..j];
    CallAccounting(cs, cm, t, j - i);
    BroadcastReturn(cs, cm, t);
    assert ss[j].owner == HeldBy(t);
    assert Threads(ss[j].pcs, Registered) == {};
    forall w: nat | w < |ss[i].pcs| && Registered(ss[i].pcs[w])
      ensures w < |ss[j].pcs| && ss[j].pcs[w] == Acked
    {
      assert w !in Threads(ss[j].pcs, Registered);
      ReleasedAreAtMutex(ss[i], ss[j], Posts(cs, cm, t, j - i), w);
    }
  }

  /** A broadcast returns only through the failed test of its loop. */
  lemma {:induction false} BroadcastReturn(ss: seq<State>, ms: seq<Move>, t: nat)
    requires CallRun(ss, ms, t) && |ms| > 0 && Inv(ss[0])
    requires ss[0].pcs[t] == BcastTest && t < |ss[|ms|].pcs| && ss[|ms|].pcs[t] == Own
    ensures ss[|ms|].waitCount == 0
  {
    StaysBroadcast(ss, ms, t, |ms| - 1);
    BroadcastStep(ss[|ms| - 1], ms[|ms| - 1], t);
  }

  predicate InBroadcast(p: PC) {
    p.BcastTest? || p == SigTest(true) || p == SigPost(true) || p == SigAck(true)
  }

  lemma BroadcastStep(s: State, m: Move, t: nat)
    requires Enabled(s, m) && t < |s.pcs| && InBroadcast(s.pcs[t])
    ensures t < |Do(s, m).pcs| && (InBroadcast(Do(s, m).pcs[t]) || Do(s, m).pcs[t] == Own)
    ensures Do(s, m).pcs[t] == Own ==> Do(s, m).waitCount == 0
  {
    var x := OnePcMoves(s, m);
  }

  lemma {:induction false} StaysBroadcast(ss: seq<State>, ms: seq<Move>, t: nat, n: nat)
    requires CallRun(ss, ms, t) && n < |ms| && ss[0].pcs[t] == BcastTest
    ensures InBroadcast(ss[n].pcs[t])
  {
    if n > 0 {
      StaysBroadcast(ss, ms, t, n - 1);
      BroadcastStep(ss[n - 1], ms[n - 1], t);
    }
  }

  /** A plain signal that saw waiters: it still sees them, is about to post, or awaits the ack. */
  predicate InSignal(s: State, t: nat) {
    t < |s.pcs| &&
        (s.pcs[t] == SigPost(false) || s.pcs[t] == SigAck(false) || (s.pcs[t] == SigTest(false) && s.waitCount != 0))
  }

  lemma SignalStep(s: State, m: Move, t: nat)
    requires OwnerInv(s) && TokenInv(s) && Enabled(s, m) && InSignal(s, t)
    ensures t < |Do(s, m).pcs| && (Do(s, m).pcs[t] == Own || InSignal(Do(s, m), t))
    ensures Do(s, m).pcs[t] == Own <==> m.t == t && s.pcs[t].SigAck?
    ensures Do(s, m).pcs[t].SigAck? <==> (s.pcs[t].SigAck? && m.t != t) || (s.pcs[t].SigPost? && m.t == t)
  {
    var x := OnePcMoves(s, m);
    assert s.owner == HeldBy(t);
    if m.t != t {
      OthersInCall(s, m, t);
      assert s.pcs[m.t].Woken? ==> m.t in Threads(s.pcs, IsWoken);
    }
  }

  /** Up to its return a plain signal that saw waiters has posted iff it awaits the ack. */
  lemma {:induction false} SignalProgress(ss: seq<State>, ms: seq<Move>, t: nat, n: nat)
    requires CallRun(ss, ms, t) && n < |ms| && Inv(ss[0])
    requires ss[0].pcs[t] == SigTest(false) && ss[0].waitCount != 0
    ensures Inv(ss[n]) && InSignal(ss[n], t) && Posts(ss, ms, t, n) == One(ss[n].pcs[t].SigAck?)
  {
    hide Do, OwnerInv, CountInv, TokenInv, SleeperInv;
    if n > 0 {
      SignalProgress(ss, ms, t, n - 1);
      assert Enabled(ss[n - 1], ms[n - 1]) && ss[n] == Do(ss[n - 1], ms[n - 1]);
      SignalStep(ss[n - 1], ms[n - 1], t);
      StepInv(ss[n - 1], ms[n - 1]);
      assert InCall(ss[n].pcs[t]);
    }
  }

  /** A signal that saw waiters has posted once when it returns. */
  lemma SignalPosted(ss: seq<State>, ms: seq<Move>, t: nat)
    requires CallRun(ss, ms, t) && |ms| > 0 && Inv(ss[0]) && ss[0].pcs[t] == SigTest(false) && ss[0].waitCount != 0
    requires t < |ss[|ms|].pcs| && ss[|ms|].pcs[t] == Own
    ensures Posts(ss, ms, t, |ms|) == 1
  {
    var n := |ms| - 1;
    SignalProgress(ss, ms, t, n);
    assert Enabled(ss[n], ms[n]) && ss[n + 1] == Do(ss[n], ms[n]);
    SignalStep(ss[n], ms[n], t);
    hide Do;
  }

  /** A call to pthread_cond_signal that finds waiters at i and returns at j has
      released exactly one of them, which is at the mutex; the others still wait. */
  lemma SignalReleasesExactlyOne(ss: seq<State>, ms: seq<Move>, t: nat, i: nat, j: nat) returns (w: nat)
    requires Run(ss, ms) && Init(ss[0]) && i < j <= |ms|
    requires t < |ss[i].pcs| && ss[i].pcs[t] == SigTest(false) && ss[i].waitCount != 0
    requires t < |ss[j].pcs| && ss[j].pcs[t] == Own
    requires CallRun(ss[i..j + 1], ms[i..j], t)
    ensures w in Threads(ss[i].pcs, Registered) && w < |ss[j].pcs| && ss[j].pcs[w] == Acked
    ensures Threads(ss[j].pcs, Registered) == Threads(ss[i].pcs, Registered) - {w}
    ensures ss[j].waitCount == ss[i].waitCount - 1
  {
    hide Do, Enabled;
    InitInv(ss[0]);
    RunInv(ss, ms, i);
    RunInv(ss, ms, j);
    var cs, cm, n := ss[i..j + 1], ms[i..j], j - i;
    assert ss[i].owner == HeldBy(t) && ss[j].owner == HeldBy(t);
    SignalPosted(cs, cm, t);
    CallAccounting(cs, cm, t, n);
    w := OneLess(Threads(ss[i].pcs, Registered), Threads(ss[j].pcs, Registered));
    ReleasedAreAtMutex(ss[i], ss[j], 1, w);
  }

  lemma OneLess(before: set<nat>, after: set<nat>) returns (w: nat)
    requires after <= before && |after| == |before| - 1
    ensures w in before && w !in after && after == before - {w}
  {
    assert |before - after| == 1;
    w :| w in before - after;
    assert |before - after - {w}| == 0;
  }

  // ---------------------------------------------------------------- progress

  function Phase(p: PC): nat {
    match p
    case BcastTest => 4
    case SigTest(_) => 3
    case SigPost(_) => 2
    case SigAck(_) => 1
    case _ => 0
  }

  /** Bounds the steps left while t is inside signal or broadcast. */
  function Measure(s: State, t: nat): nat
    requires t < |s.pcs|
  {
    10 * |Threads(s.pcs, IsAsleep)| + 9 * |Threads(s.pcs, IsWoken)| + 8 * |Threads(s.pcs, IsLeft)|
    + 4 * One(s.ack) + Phase(s.pcs[t])
  }

  lemma WaiterDecreases(s: State, m: Move, t: nat)
    requires Inv(s) && Enabled(s, m) && t < |s.pcs| && InCall(s.pcs[t]) && m.t != t
    ensures Measure(Do(s, m), t) < Measure(s, t)
  {
    OthersInCall(s, m, t);
    var x := OnePcMoves(s, m);
    ThreadsAfter(s.pcs, m.t, x, IsAsleep);
    ThreadsAfter(s.pcs, m.t, x, IsWoken);
    ThreadsAfter(s.pcs, m.t, x, IsLeft);
  }

  lemma PhaseDecreases(s: State, m: Move)
    requires Enabled(s, m) && InCall(s.pcs[m.t]) && (s.pcs[m.t] == SigTest(true) ==> s.waitCount != 0)
    ensures var s' := Do(s, m);
      4 * One(s'.ack) + Phase(s'.pcs[m.t]) < 4 * One(s.ack) + Phase(s.pcs[m.t]) && !OnItsWay(s'.pcs[m.t])
  {
  }

  lemma CallerDecreases(s: State, m: Move, t: nat)
    requires Inv(s) && Enabled(s, m) && t < |s.pcs| && InCall(s.pcs[t]) && m.t == t
    ensures Measure(Do(s, m), t) < Measure(s, t)
  {
    if s.pcs[t] == SigTest(true) {
      var w :| w in Threads(s.pcs, IsAsleep);
      assert w in Threads(s.pcs, Registered);
    }
    PhaseDecreases(s, m);
    var x := OnePcMoves(s, m);
    ThreadsAfter(s.pcs, t, x, IsAsleep);
    ThreadsAfter(s.pcs, t, x, IsWoken);
    ThreadsAfter(s.pcs, t, x, IsLeft);
  }

  /** Under every schedule a signal or broadcast call takes at most Measure steps of
      all threads together: waiters cannot keep the caller from returning. */
  lemma {:induction false} CallTerminates(ss: seq<State>, ms: seq<Move>, t: nat)
    requires CallRun(ss, ms, t) && Inv(ss[0]) && t < |ss[0].pcs|
    ensures |ms| <= Measure(ss[0], t)
    decreases |ms|
  {
    if |ms| > 0 {
      if ms[0].t == t {
        CallerDecreases(ss[0], ms[0], t);
      } else {
        WaiterDecreases(ss[0], ms[0], t);
      }
      StepInv(ss[0], ms[0]);
      assert ss[1] == Do(ss[0], ms[0]);
      var x := OnePcMoves(ss[0], ms[0]);
      CallTerminates(ss[1..], ms[1..], t);
    }
  }

  /** With no token about, as when a call begins, this is at most ten steps per waiter and four more. */
  lemma CallLength(ss: seq<State>, ms: seq<Move>, t: nat)
    requires CallRun(ss, ms, t) && Inv(ss[0]) && t < |ss[0].pcs| && Tokens(ss[0]) == 0
    ensures |ms| <= 10 * ss[0].waitCount + 4
  {
    CallTerminates(ss, ms, t);
    var s := ss[0];
    Fewer(Threads(s.pcs, IsAsleep), Threads(s.pcs, Registered));
  }

  lemma {:induction false} Fewer(a: set<nat>, b: set<nat>)
    requires a <= b
    ensures |a| <= |b|
  {
    if a != {} {
      var x :| x in a;
      Fewer(a - {x}, b - {x});
    }
  }

  /** And it is never stuck: some thread can always take the next step. */
  lemma CallNeverBlocks(s: State, t: nat) returns (m: Move)
    requires Inv(s) && t < |s.pcs| && InCall(s.pcs[t])
    ensures Enabled(s, m)
  {
    m := Move(t, Unlock);
    if s.pcs[t].SigAck? && !s.ack {
      assert s.owner == HeldBy(t);
      var w: nat;
      if s.event {
        w :| w in Threads(s.pcs, IsAsleep);
      } else if Threads(s.pcs, IsWoken) != {} {
        w :| w in Threads(s.pcs, IsWoken);
      } else {
        w :| w in Threads(s.pcs, IsLeft);
      }
      m := Move(w, Unlock);
    }
  }
}
