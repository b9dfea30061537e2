/**
 The condition variable as its callers see it: a thread that owns the mutex chooses a call, and
 owns the mutex again when the call returns.
 */
module CondVarCalls {
  import opened Wrappers
  import opened CondVar

  /** The threads counted in wait_count. */
  function Waiters(s: State): set<nat> {
    Threads(s.pcs, Registered)
  }

  predicate IsIdleOwner(s: State, t: nat) {
    t < |s.pcs| && s.pcs[t] == Own
  }

  /** In a run from the start, thread t makes the call c in state i and has returned from it in state j. */
  ghost predicate Returns(ss: seq<State>, ms: seq<Move>, t: nat, c: Choice, i: nat, j: nat) {
    && Run(ss, ms) && Init(ss[0]) && i < j <= |ms| && ms[i] == Move(t, c)
    && IsIdleOwner(ss[i], t) && IsIdleOwner(ss[j], t) && forall k | i < k < j :: !IsIdleOwner(ss[k], t)
  }

  // ---------------------------------------------------------------- signal and broadcast

  /** A thread stays in its call or returns. */
  lemma CallStays(s: State, m: Move, t: nat)
    requires Enabled(s, m) && t < |s.pcs| && InCall(s.pcs[t])
    ensures t < |Do(s, m).pcs| && (InCall(Do(s, m).pcs[t]) || Do(s, m).pcs[t] == Own)
  {
    var x := OnePcMoves(s, m);
  }

  lemma CallBegins(s: State, m: Move)
    requires Enabled(s, m) && s.pcs[m.t] == Own && (m.c == Signal || m.c == Broadcast)
    ensures var s' := Do(s, m);
      && s'.pcs[m.t] == (if m.c == Signal then SigTest(false) else BcastTest)
      && s'.waitCount == s.waitCount && Waiters(s') == Waiters(s) && |s'.pcs| == |s.pcs|
  {
    var x := OnePcMoves(s, m);
    ThreadsAfter(s.pcs, m.t, x, Registered);
  }

  lemma {:induction false} InCallUntil(ss: seq<State>, ms: seq<Move>, t: nat, c: Choice, i: nat, j: nat, k: nat)
    requires Returns(ss, ms, t, c, i, j) && (c == Signal || c == Broadcast) && i < k < j
    ensures t < |ss[k].pcs| && InCall(ss[k].pcs[t])
  {
    hide Do;
    assert Enabled(ss[k - 1], ms[k - 1]) && ss[k] == Do(ss[k - 1], ms[k - 1]);
    if k == i + 1 {
      CallBegins(ss[i], ms[i]);
    } else {
      InCallUntil(ss, ms, t, c, i, j, k - 1);
      CallStays(ss[k - 1], ms[k - 1], t);
    }
  }

  /** The states from the first inside the call to its return. */
  lemma CallOf(ss: seq<State>, ms: seq<Move>, t: nat, c: Choice, i: nat, j: nat)
    requires Returns(ss, ms, t, c, i, j) && (c == Signal || c == Broadcast)
    ensures i + 1 < j && CallRun(ss[i + 1..j + 1], ms[i + 1..j], t)
    ensures t < |ss[i + 1].pcs| && ss[i + 1].pcs[t] == (if c == Signal then SigTest(false) else BcastTest)
    ensures ss[i + 1].waitCount == ss[i].waitCount && Waiters(ss[i + 1]) == Waiters(ss[i])
  {
    assert Enabled(ss[i], ms[i]) && ss[i + 1] == Do(ss[i], ms[i]);
    CallBegins(ss[i], ms[i]);
    hide Do, Threads;
    var cs, cm := ss[i + 1..j + 1], ms[i + 1..j];
    forall k | 0 <= k < |cm| ensures t < |cs[k].pcs| && InCall(cs[k].pcs[t]) {
      InCallUntil(ss, ms, t, c, i, j, i + 1 + k);
    }
  }

  /** Without waiters nobody is counted throughout a call, so that nothing can change. */
  lemma NobodyWaits(ss: seq<State>, ms: seq<Move>, t: nat, c: Choice, i: nat, j: nat)
    requires Returns(ss, ms, t, c, i, j) && (c == Signal || c == Broadcast) && ss[i].waitCount == 0
    ensures Waiters(ss[i]) == {} && Waiters(ss[j]) == {}
  {
    hide Do, Enabled;
    CallOf(ss, ms, t, c, i, j);
    InitInv(ss[0]);
    RunInv(ss, ms, i);
    RunInv(ss, ms, i + 1);
    assert ss[i + 1].owner == HeldBy(t);
    CallAccounting(ss[i + 1..j + 1], ms[i + 1..j], t, j - i - 1);
    assert Waiters(ss[j]) <= Waiters(ss[i + 1]);
  }

  /** A signal that finds waiters returns when exactly one of them is no longer waiting; without
      waiters it changes nothing. */
  lemma SignalCall(ss: seq<State>, ms: seq<Move>, t: nat, i: nat, j: nat)
    requires Returns(ss, ms, t, Signal, i, j)
    ensures ss[i].waitCount == 0 ==> Waiters(ss[j]) == Waiters(ss[i]) == {}
    ensures ss[i].waitCount != 0 ==>
      ss[j].waitCount == ss[i].waitCount - 1 && exists w | w in Waiters(ss[i]) :: Waiters(ss[j]) == Waiters(ss[i]) - {w}
  {
    hide Do, Enabled, Threads, Init;
    if ss[i].waitCount == 0 {
      NobodyWaits(ss, ms, t, Signal, i, j);
    } else {
      CallOf(ss, ms, t, Signal, i, j);
      var w := SignalReleasesExactlyOne(ss, ms, t, i + 1, j);
      assert w in Waiters(ss[i]) && Waiters(ss[j]) == Waiters(ss[i]) - {w};
    }
  }

  /** A broadcast returns when nobody is waiting; whoever was waiting stands at the mutex. */
  lemma BroadcastCall(ss: seq<State>, ms: seq<Move>, t: nat, i: nat, j: nat)
    requires Returns(ss, ms, t, Broadcast, i, j)
    ensures Waiters(ss[j]) == {} && ss[j].waitCount == 0
    ensures forall w | w in Waiters(ss[i]) :: w < |ss[j].pcs| && ss[j].pcs[w] == Acked
  {
    hide Do, Enabled, Init;
    CallOf(ss, ms, t, Broadcast, i, j);
    BroadcastReleasesAll(ss, ms, t, i + 1, j);
    hide Run;
    CountAtReturn(ss, ms, j);
    forall w | w in Waiters(ss[i]) ensures w < |ss[j].pcs| && ss[j].pcs[w] == Acked {
      assert w in Waiters(ss[i + 1]);
    }
  }

  lemma CountAtReturn(ss: seq<State>, ms: seq<Move>, j: nat)
    requires Run(ss, ms) && Init(ss[0]) && j <= |ms| && ss[j].waitCount == 0
    ensures Waiters(ss[j]) == {}
  {
    InitInv(ss[0]);
    RunInv(ss, ms, j);
  }

  // ---------------------------------------------------------------- wait and unlock

  /** Thread m.t starts a signal or a broadcast. */
  predicate Calls(s: State, m: Move) {
    IsIdleOwner(s, m.t) && (m.c == Signal || m.c == Broadcast)
  }

  /** No wake-up is under way and nobody is about to make one. */
  ghost predicate Quiet(s: State) {
    !s.event && !s.ack && forall t: nat | t < |s.pcs| :: !InCall(s.pcs[t]) && !s.pcs[t].Woken? && !s.pcs[t].Left?
  }

  lemma QuietWithOwner(s: State, t: nat)
    requires Inv(s) && IsIdleOwner(s, t)
    ensures Quiet(s)
  {
    assert s.owner == HeldBy(t);
    forall u: nat | u < |s.pcs| ensures !InCall(s.pcs[u]) && !s.pcs[u].Woken? && !s.pcs[u].Left? {
      assert s.pcs[u].Woken? ==> u in Threads(s.pcs, IsWoken);
      assert s.pcs[u].Left? ==> u in Threads(s.pcs, IsLeft);
    }
  }

  /** It stays quiet until somebody calls, and a sleeper sleeps on. */
  lemma QuietStep(s: State, m: Move, t: nat)
    requires Quiet(s) && Enabled(s, m) && !Calls(s, m) && t < |s.pcs| && (s.pcs[t] == Counted || s.pcs[t] == Asleep)
    ensures var s' := Do(s, m); Quiet(s') && t < |s'.pcs| && (s'.pcs[t] == Counted || s'.pcs[t] == Asleep)
  {
    var x := OnePcMoves(s, m);
  }

  lemma {:induction false} QuietUntil(ss: seq<State>, ms: seq<Move>, t: nat, i: nat, k: nat)
    requires Run(ss, ms) && Init(ss[0]) && i < k <= |ms| && ms[i] == Move(t, Wait) && IsIdleOwner(ss[i], t)
    requires forall n | i < n < k :: !Calls(ss[n], ms[n])
    ensures Quiet(ss[k]) && t < |ss[k].pcs| && (ss[k].pcs[t] == Counted || ss[k].pcs[t] == Asleep)
  {
    assert Enabled(ss[k - 1], ms[k - 1]) && ss[k] == Do(ss[k - 1], ms[k - 1]);
    if k == i + 1 {
      InitInv(ss[0]);
      RunInv(ss, ms, i);
      QuietWithOwner(ss[i], t);
      WaitBegins(ss[i], t);
    } else {
      hide Do;
      QuietUntil(ss, ms, t, i, k - 1);
      QuietStep(ss[k - 1], ms[k - 1], t);
    }
  }

  /** A thread that waits is counted, and keeps no other thread from the mutex for long. */
  lemma WaitBegins(s: State, t: nat)
    requires IsIdleOwner(s, t) && Quiet(s)
    ensures var s' := Do(s, Move(t, Wait));
      && Quiet(s') && |s'.pcs| == |s.pcs| && s'.pcs[t] == Counted
      && Waiters(s') == Waiters(s) + {t} && s'.waitCount == s.waitCount + 1
  {
    var m := Move(t, Wait);
    var x := OnePcMoves(s, m);
    ThreadsAfter(s.pcs, t, x, Registered);
  }

  /** A wait counts its thread at once, and returns only after another thread has called signal or
      broadcast: there is no spurious wake-up. */
  lemma WaitCall(ss: seq<State>, ms: seq<Move>, t: nat, i: nat, j: nat)
    requires Returns(ss, ms, t, Wait, i, j)
    ensures Waiters(ss[i + 1]) == Waiters(ss[i]) + {t} && ss[i + 1].waitCount == ss[i].waitCount + 1
    ensures exists k | i < k < j :: Calls(ss[k], ms[k]) && ms[k].t != t
  {
    InitInv(ss[0]);
    RunInv(ss, ms, i);
    QuietWithOwner(ss[i], t);
    WaitBegins(ss[i], t);
    assert ss[i + 1] == Do(ss[i], ms[i]);
    hide Do, Threads, Quiet;
    if forall k | i < k < j :: !Calls(ss[k], ms[k]) {
      QuietUntil(ss, ms, t, i, j);
    }
    var k :| i < k < j && Calls(ss[k], ms[k]);
    assert !IsIdleOwner(ss[k], t);
  }

  /** Unlocking frees the mutex and leaves the waiters alone. */
  lemma UnlockCall(ss: seq<State>, ms: seq<Move>, t: nat, i: nat)
    requires Run(ss, ms) && i < |ms| && ms[i] == Move(t, Unlock) && IsIdleOwner(ss[i], t)
    ensures ss[i + 1].owner == Free && Waiters(ss[i + 1]) == Waiters(ss[i]) && ss[i + 1].waitCount == ss[i].waitCount
  {
    assert ss[i + 1] == Do(ss[i], ms[i]);
    var x := OnePcMoves(ss[i], ms[i]);
    ThreadsAfter(ss[i].pcs, t, x, Registered);
  }

  /** A thread outside moves only when nobody owns the mutex, and then owns it alone. */
  lemma LockCall(ss: seq<State>, ms: seq<Move>, t: nat, i: nat)
    requires Run(ss, ms) && Init(ss[0]) && i < |ms| && ms[i].t == t && ss[i].pcs[t] == Out
    ensures Threads(ss[i].pcs, OwnsMutex) == {} && Threads(ss[i + 1].pcs, OwnsMutex) == {t}
    ensures IsIdleOwner(ss[i + 1], t) && Waiters(ss[i + 1]) == Waiters(ss[i])
  {
    InitInv(ss[0]);
    RunInv(ss, ms, i);
    assert ss[i + 1] == Do(ss[i], ms[i]);
    var x := OnePcMoves(ss[i], ms[i]);
    ThreadsAfter(ss[i].pcs, t, x, Registered);
    ThreadsAfter(ss[i].pcs, t, x, OwnsMutex);
  }

  /** How many of the moves from i up to j are thread t's. */
  function Steps(ms: seq<Move>, t: nat, i: nat, j: nat): nat
    requires i <= j <= |ms|
  {
    if i == j then 0 else Steps(ms, t, i, j - 1) + One(ms[j - 1].t == t)
  }

  /** Where a waiting thread is after n steps of its own. */
  function WaitStage(n: nat): PC {
    match n
    case 1 => Counted
    case 2 => Asleep
    case 3 => Woken
    case 4 => Left
    case 5 => Acked
    case _ => Own
  }

  lemma StageStep(ss: seq<State>, ms: seq<Move>, t: nat, k: nat, j: nat, n: nat)
    requires Run(ss, ms) && j == k + 1 <= |ms| && t < |ss[k].pcs| && n <= 6 && ss[k].pcs[t] == WaitStage(n)
    requires ms[k].t == t ==> n < 6 && (n == 0 ==> ms[k].c == Wait)
    ensures t < |ss[j].pcs| && ss[j].pcs[t] == WaitStage(if ms[k].t == t then n + 1 else n)
  {
    assert Enabled(ss[k], ms[k]) && ss[j] == Do(ss[k], ms[k]);
    hide Run;
    var x := OnePcMoves(ss[k], ms[k]);
  }

  lemma {:induction false} StageReached(ss: seq<State>, ms: seq<Move>, t: nat, i: nat, j: nat)
    requires Run(ss, ms) && i <= j <= |ms| && i < |ms| && ms[i] == Move(t, Wait) && IsIdleOwner(ss[i], t)
    requires Steps(ms, t, i, j) <= 6
    ensures t < |ss[j].pcs| && ss[j].pcs[t] == WaitStage(Steps(ms, t, i, j))
  {
    assert |ss| == |ms| + 1;
    hide Run;
    if j == i {
      assert Steps(ms, t, i, j) == 0 && WaitStage(0) == Own;
    } else {
      var k := j - 1;
      hide WaitStage;
      StageReached(ss, ms, t, i, k);
      if k > i {
        MoveCounts(ms, t, i, k);
      }
      StageStep(ss, ms, t, k, j, Steps(ms, t, i, k));
    }
  }

  lemma {:induction false} MoveCounts(ms: seq<Move>, t: nat, i: nat, j: nat)
    requires i < j <= |ms| && ms[i].t == t
    ensures Steps(ms, t, i, j) >= 1
  {
    if j > i + 1 {
      MoveCounts(ms, t, i, j - 1);
    }
  }

  /** A wait takes its thread six steps, whatever the others do: it gives the mutex up in the second, and
      returns as it gets it back in the sixth. */
  lemma WaitTakesSix(ss: seq<State>, ms: seq<Move>, t: nat, i: nat, j: nat)
    requires Run(ss, ms) && Init(ss[0]) && i < j <= |ms| && ms[i] == Move(t, Wait) && IsIdleOwner(ss[i], t)
    requires Steps(ms, t, i, j) <= 6
    ensures IsIdleOwner(ss[j], t) <==> Steps(ms, t, i, j) == 6
    ensures ss[j].owner == HeldBy(t) <==> Steps(ms, t, i, j) == 1 || Steps(ms, t, i, j) == 6
    ensures t in Waiters(ss[j]) <==> Steps(ms, t, i, j) <= 3
  {
    StageReached(ss, ms, t, i, j);
    MoveCounts(ms, t, i, j);
    InitInv(ss[0]);
    RunInv(ss, ms, j);
  }
}
