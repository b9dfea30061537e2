/**
 pthread_once of the OS/2 threading layer: a flag tested outside and again
 inside a mutex. Any number of threads call it at once; every test and every
 write of the flag is a separate step.
 */
module Once {

  datatype PC =
    | Outer       // about to test done without the mutex
    | Request     // saw done == 0, blocked on the mutex
    | Inner       // owns the mutex, about to test done again
    | Initing     // inside init_routine
    | Inited      // init_routine returned, done not yet written
    | Releasing   // about to release the mutex
    | Returned

  datatype Owner = Free | HeldBy(t: nat)

  /** started and completed count the calls and the returns of init_routine. */
  datatype State = State(pcs: seq<PC>, owner: Owner, done: bool, started: nat, completed: nat)

  predicate Init(s: State) {
    (forall t | 0 <= t < |s.pcs| :: s.pcs[t] == Outer) &&
    s.owner == Free && !s.done && s.started == 0 && s.completed == 0
  }

  predicate Enabled(s: State, t: nat) {
    t < |s.pcs| && !s.pcs[t].Returned? && (s.pcs[t].Request? ==> s.owner == Free)
  }

  function Do(s: State, t: nat): State
    requires Enabled(s, t)
  {
    match s.pcs[t]
    case Outer => s.(pcs := s.pcs[t := if s.done then Returned else Request])
    case Request => s.(pcs := s.pcs[t := Inner], owner := HeldBy(t))
    case Inner =>
      if s.done then s.(pcs := s.pcs[t := Releasing])
      else s.(pcs := s.pcs[t := Initing], started := s.started + 1)
    case Initing => s.(pcs := s.pcs[t := Inited], completed := s.completed + 1)
    case Inited => s.(pcs := s.pcs[t := Releasing], done := true)
    case Releasing => s.(pcs := s.pcs[t := Returned], owner := Free)
  }

  predicate Run(ss: seq<State>, ts: seq<nat>) {
    |ss| == |ts| + 1 &&
    forall i | 0 <= i < |ts| :: Enabled(ss[i], ts[i]) && ss[i + 1] == Do(ss[i], ts[i])
  }

  predicate OwnsMutex(p: PC) {
    p.Inner? || p.Initing? || p.Inited? || p.Releasing?
  }

  ghost predicate Inv(s: State) {
    && (s.owner.HeldBy? ==> s.owner.t < |s.pcs| && OwnsMutex(s.pcs[s.owner.t]))
    && (forall t: nat | t < |s.pcs| && OwnsMutex(s.pcs[t]) :: s.owner == HeldBy(t))
    && (forall t: nat | t < |s.pcs| && (s.pcs[t].Returned? || s.pcs[t].Releasing?) :: s.done)
    && (s.done ==> s.started == 1 && s.completed == 1)
    && (s.done ==> forall t: nat | t < |s.pcs| :: !s.pcs[t].Initing? && !s.pcs[t].Inited?)
    && (!s.done ==>
          s.started == (if s.owner.HeldBy? && !s.pcs[s.owner.t].Inner? then 1 else 0) &&
          s.completed == (if s.owner.HeldBy? && s.pcs[s.owner.t].Inited? then 1 else 0))
  }

  lemma StepInv(s: State, t: nat)
    requires Inv(s) && Enabled(s, t)
    ensures Inv(Do(s, t))
  {
    assert Do(s, t).pcs == s.pcs[t := Do(s, t).pcs[t]];
  }

  lemma {:induction false} RunInv(ss: seq<State>, ts: seq<nat>, n: nat)
    requires Run(ss, ts) && Init(ss[0]) && n <= |ts|
    ensures Inv(ss[n])
  {
    if n > 0 {
      RunInv(ss, ts, n - 1);
      StepInv(ss[n - 1], ts[n - 1]);
    }
  }

  /** In every reachable state init_routine has been called at most once, and a caller
      that has returned finds it completed. */
  lemma InitRunsOnce(ss: seq<State>, ts: seq<nat>, n: nat)
    requires Run(ss, ts) && Init(ss[0]) && n <= |ts|
    ensures ss[n].completed <= ss[n].started <= 1
    ensures (exists t: nat :: t < |ss[n].pcs| && ss[n].pcs[t].Returned?) ==> ss[n].completed == 1
  {
    RunInv(ss, ts, n);
  }

  function StepsLeft(p: PC): nat {
    match p
    case Outer => 6
    case Request => 5
    case Inner => 4
    case Initing => 3
    case Inited => 2
    case Releasing => 1
    case Returned => 0
  }

  function TotalLeft(pcs: seq<PC>): nat {
    if pcs == [] then 0 else StepsLeft(pcs[0]) + TotalLeft(pcs[1..])
  }

  lemma {:induction false} TotalAfter(pcs: seq<PC>, t: nat, x: PC)
    requires t < |pcs|
    ensures TotalLeft(pcs[t := x]) == TotalLeft(pcs) - StepsLeft(pcs[t]) + StepsLeft(x)
  {
    if t == 0 {
      assert pcs[0 := x][1..] == pcs[1..];
    } else {
      assert pcs[t := x][1..] == pcs[1..][t - 1 := x];
      TotalAfter(pcs[1..], t - 1, x);
    }
  }

  lemma {:induction false} TotalZero(pcs: seq<PC>, t: nat)
    requires TotalLeft(pcs) == 0 && t < |pcs|
    ensures pcs[t].Returned?
  {
    if t > 0 {
      TotalZero(pcs[1..], t - 1);
    }
  }

  lemma {:induction false} TotalPositive(pcs: seq<PC>) returns (t: nat)
    requires TotalLeft(pcs) > 0
    ensures t < |pcs| && !pcs[t].Returned?
  {
    t := 0;
    if pcs[0].Returned? {
      t := TotalPositive(pcs[1..]);
      t := t + 1;
    }
  }

  /** Some caller can always go on until all have returned. */
  lemma NeverStuck(s: State) returns (t: nat)
    requires Inv(s) && TotalLeft(s.pcs) > 0
    ensures Enabled(s, t)
  {
    if s.owner.HeldBy? {
      t := s.owner.t;
    } else {
      t := TotalPositive(s.pcs);
    }
  }

  lemma StepShrinks(s: State, t: nat)
    requires Enabled(s, t)
    ensures TotalLeft(Do(s, t).pcs) < TotalLeft(s.pcs)
  {
    hide TotalLeft;
    TotalAfter(s.pcs, t, Do(s, t).pcs[t]);
    assert Do(s, t).pcs == s.pcs[t := Do(s, t).pcs[t]];
  }

  lemma {:induction false} RunShrinks(ss: seq<State>, ts: seq<nat>, n: nat)
    requires Run(ss, ts) && n <= |ts|
    ensures TotalLeft(ss[n].pcs) + n <= TotalLeft(ss[0].pcs)
  {
    hide TotalLeft, Do;
    if n > 0 {
      RunShrinks(ss, ts, n - 1);
      StepShrinks(ss[n - 1], ts[n - 1]);
    }
  }

  /** Every schedule that runs until nobody can move is finite, lets every caller return
      and has run init_routine exactly once (if anybody called at all). */
  lemma EveryCallerReturns(ss: seq<State>, ts: seq<nat>)
    requires Run(ss, ts) && Init(ss[0])
    requires forall t: nat :: !Enabled(ss[|ts|], t)
    ensures |ts| <= TotalLeft(ss[0].pcs)
    ensures forall t: nat | t < |ss[|ts|].pcs| :: ss[|ts|].pcs[t].Returned?
    ensures |ss[|ts|].pcs| > 0 ==> ss[|ts|].started == 1 && ss[|ts|].completed == 1
  {
    RunShrinks(ss, ts, |ts|);
    RunInv(ss, ts, |ts|);
    var last := ss[|ts|];
    if TotalLeft(last.pcs) > 0 {
      var t := NeverStuck(last);
    }
    forall t: nat | t < |last.pcs| ensures last.pcs[t].Returned? {
      TotalZero(last.pcs, t);
    }
    assert |last.pcs| > 0 ==> last.pcs[0].Returned?;
  }

  lemma {:induction false} DoneStays(ss: seq<State>, ts: seq<nat>, i: nat, j: nat)
    requires Run(ss, ts) && i <= j <= |ts| && ss[i].done
    ensures ss[j].done
  {
    if i < j {
      DoneStays(ss, ts, i, j - 1);
    }
  }

  /** A thread whose call begins after any caller has returned is back in one step: it neither takes the mutex nor
      runs the routine. */
  lemma LateCallReturns(ss: seq<State>, ts: seq<nat>, t: nat, i: nat, j: nat)
    requires Run(ss, ts) && Init(ss[0]) && i <= j < |ts| && t < |ss[i].pcs| && ss[i].pcs[t].Returned?
    requires ss[j].pcs[ts[j]].Outer?
    ensures ss[j + 1].pcs[ts[j]].Returned?
    ensures ss[j + 1].owner == ss[j].owner && ss[j + 1].started == ss[j].started
  {
    RunInv(ss, ts, i);
    DoneStays(ss, ts, i, j);
    assert ss[j + 1] == Do(ss[j], ts[j]);
  }
}
