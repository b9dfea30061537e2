/** llrint: round to the nearest integer, ties to the even one. */
module Rounding {

  function Rint(x: real): (r: int)
    ensures r as real - 0.5 <= x <= r as real + 0.5
    ensures x == r as real - 0.5 || x == r as real + 0.5 ==> r % 2 == 0
  {
    var f := x.Floor;
    var d := x - f as real;
    if d < 0.5 || (d == 0.5 && f % 2 == 0) then f else f + 1
  }

  lemma RintMonotone(x: real, y: real)
    requires x <= y
    ensures Rint(x) <= Rint(y)
  {
    if x.Floor == y.Floor {
    } else {
      assert x.Floor < y.Floor;
    }
  }

  lemma RintInt(n: int)
    ensures Rint(n as real) == n
  {
  }
}

/**
 The video frame duplicate/drop machine: one frame comes in, nb copies of the
 previous and the current frame go out, and two counters report how many frames
 were duplicated and dropped.
 */
module FrameSync {
  import opened Wrappers
  import opened Rounding

  datatype VideoSync = Passthrough | Cfr | Vfr | Vscfr

  /** skipLimit is dts_error_threshold * 30, rounded down (it is compared with integers). */
  datatype Config = Config(sync: VideoSync, dropThreshold: real, skipLimit: int)

  /** Timestamp and duration in units of the encoder time base, before rounding. */
  datatype Frame = Frame(ipts: real, duration: real)

  /** A frame handed to the encoder: which input frame it shows, and when. */
  datatype Sent = Sent(src: nat, pts: int)

  /** How often the previous frame was repeated in the last three calls. */
  datatype History = History(h0: int, h1: int, h2: int)

  /** received numbers the input frames; lastFrame is the one kept for duplication. */
  datatype State = State(nextPts: int, frameNumber: nat, hist: History, lastDropped: bool,
                         lastFrame: Option<nat>, nbDup: int, nbDrop: int, sent: seq<Sent>, received: nat)

  /** Nothing received, nothing sent. */
  predicate Fresh(s: State) {
    s.nextPts == 0 && s.frameNumber == 0 && s.hist == History(0, 0, 0) && !s.lastDropped && s.lastFrame.None? &&
    s.nbDup == 0 && s.nbDrop == 0 && s.sent == [] && s.received == 0
  }

  /** The middle one of three numbers. */
  function Median3(a: int, b: int, c: int): (m: int)
    ensures exists lo, hi :: lo <= m <= hi && multiset{lo, m, hi} == multiset{a, b, c}
  {
    var max2 := if a >= b then a else b;
    var min2 := if a >= b then b else a;
    var m := if c >= max2 then max2 else c;
    var r := if m >= min2 then m else min2;
    assert multiset{min2, max2, c} == multiset{a, b, c};
    assert r == max2 ==> multiset{min2, r, c} == multiset{a, b, c};
    assert r == c ==> multiset{min2, r, max2} == multiset{a, b, c};
    assert r == min2 ==> multiset{c, r, max2} == multiset{a, b, c};
    r
  }

  /** nb frames go out from timestamp start, the first nbPrev of them showing the previous frame. */
  datatype Plan = Plan(nb: int, nbPrev: int, start: int)

  /** Constant frame rate: delta is where the frame ends relative to the next output slot. */
  function CfrCounts(cfg: Config, frameNumber: nat, delta0: real, delta: real): (int, int) {
    if cfg.dropThreshold != 0.0 && delta < cfg.dropThreshold && frameNumber != 0 then (0, 0)
    else if delta < -1.1 then (0, 0)
    else if delta > 1.1 then (Rint(delta), if delta0 > 1.1 then Rint(delta0 - 0.6) else 0)
    else (1, 0)
  }

  function Decide(cfg: Config, s: State, f: Frame): Plan {
    var raw0 := f.ipts - s.nextPts as real;
    var delta := raw0 + f.duration;
    var clip := raw0 < 0.0 && delta > 0.0 && !cfg.sync.Passthrough?;
    var ipts := if clip then s.nextPts as real else f.ipts;
    var duration := if clip then f.duration + raw0 else f.duration;
    var delta0 := if clip then 0.0 else raw0;
    match cfg.sync
    case Cfr =>
      var (nb, prev) := CfrCounts(cfg, s.frameNumber, delta0, delta);
      Plan(nb, prev, s.nextPts)
    case Vscfr =>
      var jump := s.frameNumber == 0 && delta0 >= 0.5;
      var (nb, prev) := CfrCounts(cfg, s.frameNumber, if jump then 0.0 else delta0, if jump then duration else delta);
      Plan(nb, prev, if jump then Rint(ipts) else s.nextPts)
    case Vfr =>
      if delta <= -0.6 then Plan(0, 0, s.nextPts)
      else Plan(1, 0, if delta > 0.6 then Rint(ipts) else s.nextPts)
    case Passthrough =>
      Plan(1, 0, Rint(ipts))
  }

  /** Copies that the counters regard as duplicates. */
  function Dups(nb: int, nbPrev: int, lastDropped: bool): int {
    nb - (if nbPrev != 0 && lastDropped then 1 else 0) - (if nb > nbPrev then 1 else 0)
  }

  predicate Skipped(cfg: Config, nb: int, nbPrev: int, lastDropped: bool) {
    Dups(nb, nbPrev, lastDropped) > 0 && nb > cfg.skipLimit
  }

  /** The frames of one plan; cur is None at end of stream. */
  function Burst(nbPrev: int, start: int, last: Option<nat>, cur: Option<nat>, n: nat): seq<Sent> {
    if n == 0 then []
    else
      var src := if n - 1 < nbPrev && last.Some? then last else cur;
      Burst(nbPrev, start, last, cur, n - 1) + if src.Some? then [Sent(src.value, start + n - 1)] else []
  }

  function Nat(i: int): nat { if i < 0 then 0 else i }

  /** The counters after a decision to send nb frames, nbPrev of them the previous one. */
  function Counted(cfg: Config, s: State, nb: int, nbPrev: int, eof: bool): State {
    var nbDrop := if nbPrev == 0 && s.lastDropped then s.nbDrop + 1 else s.nbDrop;
    var s1 := s.(hist := History(nbPrev, s.hist.h0, s.hist.h1));
    if Skipped(cfg, nb, nbPrev, s.lastDropped) then s1.(nbDrop := nbDrop + 1)
    else s1.(nbDrop := nbDrop,
             nbDup := s.nbDup + Nat(Dups(nb, nbPrev, s.lastDropped)),
             lastDropped := nb == nbPrev && !eof)
  }

  function ToSend(cfg: Config, s: State, nb: int, nbPrev: int): int {
    if Skipped(cfg, nb, nbPrev, s.lastDropped) then 0 else nb
  }

  /** The emit loop. */
  function Emitted(s: State, nb: int, nbPrev: int, cur: Option<nat>): State {
    var burst := Burst(nbPrev, s.nextPts, s.lastFrame, cur, Nat(nb));
    s.(sent := s.sent + burst, nextPts := s.nextPts + |burst|, frameNumber := s.frameNumber + |burst|)
  }

  /** Carry out a plan for the next input frame. */
  function Apply(cfg: Config, s: State, p: Plan): State {
    var s1 := Counted(cfg, s.(nextPts := p.start), p.nb, p.nbPrev, false);
    var s2 := Emitted(s1, ToSend(cfg, s, p.nb, p.nbPrev), p.nbPrev, Some(s.received));
    s2.(lastFrame := Some(s.received), received := s.received + 1)
  }

  /** End of stream: repeat the last frame as often as was usual lately, if any output of the filter
      graph has sent a frame. */
  function Flush(cfg: Config, s: State, gotFrame: bool): State {
    if !gotFrame then s
    else
      var m := Median3(s.hist.h0, s.hist.h1, s.hist.h2);
      var s1 := if m == 0 && s.lastDropped then s.(nbDrop := s.nbDrop + 1) else s;
      Emitted(Counted(cfg, s1, m, m, true), ToSend(cfg, s, m, m), m, None)
  }

  /** ss[n] is the state after n frames, ps[n] the plan made for frame n. */
  predicate Applied(cfg: Config, ss: seq<State>, ps: seq<Plan>) {
    |ss| == |ps| + 1 && Fresh(ss[0]) && forall n | 0 <= n < |ps| :: ss[n + 1] == Apply(cfg, ss[n], ps[n])
  }

  predicate Decided(cfg: Config, ss: seq<State>, ps: seq<Plan>, fs: seq<Frame>) {
    |ps| == |fs| <= |ss| && forall n | 0 <= n < |ps| :: ps[n] == Decide(cfg, ss[n], fs[n])
  }

  /** A run of the machine over the frames fs. */
  predicate Run(cfg: Config, ss: seq<State>, ps: seq<Plan>, fs: seq<Frame>) {
    Applied(cfg, ss, ps) && Decided(cfg, ss, ps, fs)
  }

  // ---------------------------------------------------------------- what a plan promises

  predicate Sound(p: Plan) {
    p.nb >= 0 && p.nbPrev >= 0 && (p.nbPrev > 0 ==> p.nb > 0)
  }

  lemma PlanBounds(cfg: Config, s: State, f: Frame)
    ensures var p := Decide(cfg, s, f);
      && Sound(p)
      && (f.duration >= 0.0 ==> p.nbPrev <= p.nb)
      && (!cfg.sync.Passthrough? ==> p.start >= s.nextPts)
      && (cfg.sync.Cfr? ==> p.start == s.nextPts)
  {
    var raw0 := f.ipts - s.nextPts as real;
    var delta := raw0 + f.duration;
    if f.duration >= 0.0 {
      RintMonotone(raw0 - 0.6, delta);
    }
    RintInt(s.nextPts);
    if raw0 >= 0.0 {
      RintMonotone(s.nextPts as real, f.ipts);
    }
  }

  predicate NonNegativeDurations(fs: seq<Frame>) {
    forall i | 0 <= i < |fs| :: fs[i].duration >= 0.0
  }

  predicate AllSound(ps: seq<Plan>) {
    forall n | 0 <= n < |ps| :: Sound(ps[n])
  }

  /** Never more copies of the previous frame than frames. */
  predicate AllOrdered(ps: seq<Plan>) {
    forall n | 0 <= n < |ps| :: ps[n].nbPrev <= ps[n].nb
  }

  lemma PlansAreSound(cfg: Config, ss: seq<State>, ps: seq<Plan>, fs: seq<Frame>)
    requires Decided(cfg, ss, ps, fs)
    ensures AllSound(ps)
    ensures NonNegativeDurations(fs) ==> AllOrdered(ps)
  {
    forall n | 0 <= n < |ps| ensures Sound(ps[n]) && (NonNegativeDurations(fs) ==> ps[n].nbPrev <= ps[n].nb) {
      PlanBounds(cfg, ss[n], fs[n]);
    }
  }

  lemma {:induction false} BurstIs(p: Plan, last: Option<nat>, cur: nat, n: nat)
    ensures |Burst(p.nbPrev, p.start, last, Some(cur), n)| == n
    ensures forall i | 0 <= i < n ::
              Burst(p.nbPrev, p.start, last, Some(cur), n)[i] ==
                  Sent(if i < p.nbPrev && last.Some? then last.value else cur, p.start + i)
  {
    if n > 0 {
      BurstIs(p, last, cur, n - 1);
    }
  }

  // ---------------------------------------------------------------- output timestamps

  predicate Increasing(q: seq<Sent>) {
    forall i, j | 0 <= i < j < |q| :: q[i].pts < q[j].pts
  }

  ghost predicate PtsInv(s: State) {
    Increasing(s.sent) && (forall i | 0 <= i < |s.sent| :: s.sent[i].pts < s.nextPts)
  }

  lemma PtsStep(cfg: Config, s: State, p: Plan)
    requires p.start >= s.nextPts && PtsInv(s)
    ensures PtsInv(Apply(cfg, s, p))
  {
    BurstIs(p, s.lastFrame, s.received, Nat(p.nb));
  }

  /** Whatever frames arrive, timestamps handed to the encoder strictly increase. */
  lemma {:induction false} TimestampsIncrease(cfg: Config, ss: seq<State>, ps: seq<Plan>, fs: seq<Frame>, n: nat)
    requires Run(cfg, ss, ps, fs) && !cfg.sync.Passthrough? && n <= |fs|
    ensures PtsInv(ss[n])
  {
    if n > 0 {
      TimestampsIncrease(cfg, ss, ps, fs, n - 1);
      PlanBounds(cfg, ss[n - 1], fs[n - 1]);
      PtsStep(cfg, ss[n - 1], ps[n - 1]);
    }
  }

  ghost predicate CfrInv(s: State) {
    s.nextPts == s.frameNumber == |s.sent| && forall i | 0 <= i < |s.sent| :: s.sent[i].pts == i
  }

  lemma CfrStep(cfg: Config, s: State, p: Plan)
    requires p.start == s.nextPts && CfrInv(s)
    ensures CfrInv(Apply(cfg, s, p))
  {
    BurstIs(p, s.lastFrame, s.received, Nat(p.nb));
  }

  /** At constant frame rate they are 0, 1, 2, ... without gaps. */
  lemma {:induction false} CfrTimestampsAreConsecutive(cfg: Config, ss: seq<State>, ps: seq<Plan>, fs: seq<Frame>,
                                                       n: nat)
    requires Run(cfg, ss, ps, fs) && cfg.sync.Cfr? && n <= |fs|
    ensures CfrInv(ss[n])
  {
    if n > 0 {
      CfrTimestampsAreConsecutive(cfg, ss, ps, fs, n - 1);
      PlanBounds(cfg, ss[n - 1], fs[n - 1]);
      CfrStep(cfg, ss[n - 1], ps[n - 1]);
    }
  }

  // ---------------------------------------------------------------- drift

  function End(f: Frame): real { f.ipts + f.duration }

  /** No frame takes the "duplication too large" branch. */
  predicate NoSkip(cfg: Config, ss: seq<State>, ps: seq<Plan>) {
    forall n | 0 <= n < |ps| && n < |ss| :: !Skipped(cfg, ps[n].nb, ps[n].nbPrev, ss[n].lastDropped)
  }

  predicate EndsSorted(fs: seq<Frame>) {
    forall i, j | 0 <= i < j < |fs| :: End(fs[i]) <= End(fs[j])
  }

  /** How far the output clock may lead and trail the end of the last frame. */
  predicate WithinDrift(sync: VideoSync, nextPts: int, end: real) {
    -2.1 <= end - nextPts as real <= (if sync.Cfr? then 0.5 else 1.0)
  }

  lemma DriftStep(cfg: Config, s: State, f: Frame)
    requires cfg.sync.Cfr? || cfg.sync.Vscfr?
    requires cfg.dropThreshold == 0.0
    requires End(f) - s.nextPts as real >= -2.1 && (cfg.sync.Vscfr? ==> f.duration >= 0.0)
    ensures var p := Decide(cfg, s, f); p.nb >= 0 && WithinDrift(cfg.sync, p.start + p.nb, End(f))
  {
    PlanBounds(cfg, s, f);
  }

  lemma NextSlot(cfg: Config, s: State, p: Plan)
    requires p.nb >= 0 && !Skipped(cfg, p.nb, p.nbPrev, s.lastDropped)
    ensures Apply(cfg, s, p).nextPts == p.start + p.nb
  {
    BurstIs(p, s.lastFrame, s.received, p.nb);
  }

  /** At constant frame rate with no drop threshold, and frame ends that do not go
      backwards, the output clock stays within [-2.1, 0.5] frames of the end of the
      last frame after every frame of every run ([-2.1, 1.0] for vscfr, where
      durations must not be negative). */
  lemma {:induction false} DriftIsBounded(cfg: Config, ss: seq<State>, ps: seq<Plan>, fs: seq<Frame>, n: nat)
    requires Run(cfg, ss, ps, fs) && NoSkip(cfg, ss, ps) && 0 < n <= |fs|
    requires (cfg.sync.Cfr? || cfg.sync.Vscfr?) && cfg.dropThreshold == 0.0
    requires EndsSorted(fs) && End(fs[0]) >= -2.1
    requires cfg.sync.Vscfr? ==> NonNegativeDurations(fs)
    ensures WithinDrift(cfg.sync, ss[n].nextPts, End(fs[n - 1]))
  {
    if n > 1 {
      DriftIsBounded(cfg, ss, ps, fs, n - 1);
      assert End(fs[n - 2]) <= End(fs[n - 1]);
    }
    DriftStep(cfg, ss[n - 1], fs[n - 1]);
    NextSlot(cfg, ss[n - 1], ps[n - 1]);
  }

  // ---------------------------------------------------------------- the books

  /** Frames out, dropped or held back, against frames in plus duplicates. */
  function Balance(s: State): int {
    |s.sent| + s.nbDrop + One(s.lastDropped) - s.received - s.nbDup
  }

  /** What one frame adds to the balance: a skip that re-counts a dropped frame adds
      one, a plan with more copies of the previous frame than frames takes one. */
  function Imbalance(cfg: Config, s: State, p: Plan): int {
    if Skipped(cfg, p.nb, p.nbPrev, s.lastDropped) then One(p.nbPrev == 0 && s.lastDropped)
    else if p.nb < p.nbPrev then -1 else 0
  }

  lemma BalanceStep(cfg: Config, s: State, p: Plan)
    requires Sound(p)
    ensures Balance(Apply(cfg, s, p)) == Balance(s) + Imbalance(cfg, s, p)
  {
    BurstIs(p, s.lastFrame, s.received, Nat(p.nb));
  }

  function TotalImbalance(cfg: Config, ss: seq<State>, ps: seq<Plan>, n: nat): int
    requires n <= |ps| && n <= |ss|
  {
    if n == 0 then 0
    else TotalImbalance(cfg, ss, ps, n - 1) + Imbalance(cfg, ss[n - 1], ps[n - 1])
  }

  /** The exact balance of the counters after any run whatsoever. */
  lemma {:induction false} BalanceOfRun(cfg: Config, ss: seq<State>, ps: seq<Plan>, n: nat)
    requires Applied(cfg, ss, ps) && AllSound(ps) && n <= |ps|
    ensures Balance(ss[n]) == TotalImbalance(cfg, ss, ps, n)
    ensures ss[n].received == n
  {
    if n > 0 {
      BalanceOfRun(cfg, ss, ps, n - 1);
      BalanceStep(cfg, ss[n - 1], ps[n - 1]);
    }
  }

  lemma {:induction false} NothingToCorrect(cfg: Config, ss: seq<State>, ps: seq<Plan>, n: nat)
    requires n <= |ps| && n <= |ss| && AllOrdered(ps) && NoSkip(cfg, ss, ps)
    ensures TotalImbalance(cfg, ss, ps, n) == 0
  {
    if n > 0 {
      NothingToCorrect(cfg, ss, ps, n - 1);
    }
  }

  /** Frame conservation: with non-negative durations and no skip nothing is lost:
      emitted + dropped + held back = received + duplicated, after every frame. */
  lemma FramesAreConserved(cfg: Config, ss: seq<State>, ps: seq<Plan>, fs: seq<Frame>, n: nat)
    requires Run(cfg, ss, ps, fs) && NonNegativeDurations(fs) && NoSkip(cfg, ss, ps) && n <= |fs|
    ensures |ss[n].sent| + ss[n].nbDrop + One(ss[n].lastDropped) == n + ss[n].nbDup
  {
    PlansAreSound(cfg, ss, ps, fs);
    BalanceOfRun(cfg, ss, ps, n);
    NothingToCorrect(cfg, ss, ps, n);
  }

  /** What end of stream adds: a frame still held back is counted as dropped twice when
      nothing is repeated, never when no output ever sent a frame, and a skipped flush counts
      one drop too many. */
  function FlushImbalance(cfg: Config, s: State, gotFrame: bool): int {
    var m := Median3(s.hist.h0, s.hist.h1, s.hist.h2);
    if !gotFrame then -(One(s.lastDropped) as int)
    else if Skipped(cfg, m, m, s.lastDropped) then 1 - One(s.lastDropped)
    else if m == 0 then One(s.lastDropped) else 0
  }

  lemma {:induction false} FlushBurst(nbPrev: int, start: int, last: nat, n: nat)
    requires n <= nbPrev
    ensures |Burst(nbPrev, start, Some(last), None, n)| == n
  {
    if n > 0 {
      FlushBurst(nbPrev, start, last, n - 1);
    }
  }

  /** After the flush, emitted + dropped = received + duplicated exactly when the run was
      in balance and the flush needs no correction (and in general they differ by both). */
  lemma FlushBalance(cfg: Config, s: State, gotFrame: bool)
    requires s.hist.h0 >= 0 && s.hist.h1 >= 0 && s.hist.h2 >= 0
    requires s.lastFrame.None? ==> s.hist == History(0, 0, 0)
    ensures var e := Flush(cfg, s, gotFrame);
      |e.sent| + e.nbDrop - e.received - e.nbDup == Balance(s) + FlushImbalance(cfg, s, gotFrame)
  {
    var m := Median3(s.hist.h0, s.hist.h1, s.hist.h2);
    if s.lastFrame.Some? && m >= 0 {
      FlushBurst(m, s.nextPts, s.lastFrame.value, m);
    } else {
      assert m == 0;
    }
  }

  lemma {:induction false} HistoryOfRun(cfg: Config, ss: seq<State>, ps: seq<Plan>, n: nat)
    requires Applied(cfg, ss, ps) && AllSound(ps) && n <= |ps|
    ensures ss[n].hist.h0 >= 0 && ss[n].hist.h1 >= 0 && ss[n].hist.h2 >= 0
    ensures ss[n].lastFrame.None? ==> ss[n].hist == History(0, 0, 0)
  {
    if n > 0 {
      HistoryOfRun(cfg, ss, ps, n - 1);
    }
  }

  /** The exact balance of a whole stream, flush included; a stream without corrections
      ends with emitted + dropped = received + duplicated. */
  lemma StreamBalance(cfg: Config, ss: seq<State>, ps: seq<Plan>, n: nat, gotFrame: bool)
    requires Applied(cfg, ss, ps) && AllSound(ps) && n <= |ps|
    ensures var e := Flush(cfg, ss[n], gotFrame);
      |e.sent| + e.nbDrop - n - e.nbDup == TotalImbalance(cfg, ss, ps, n) + FlushImbalance(cfg, ss[n], gotFrame)
  {
    HistoryOfRun(cfg, ss, ps, n);
    BalanceOfRun(cfg, ss, ps, n);
    FlushBalance(cfg, ss[n], gotFrame);
  }

  // ---------------------------------------------------------------- do the counters tell the truth?

  /** How often input frame k was sent. */
  function Copies(q: seq<Sent>, k: nat): nat {
    if q == [] then 0 else Copies(q[..|q| - 1], k) + One(q[|q| - 1].src == k)
  }

  /** Copies of frames 0..n beyond the first of each. */
  function TrueDups(q: seq<Sent>, n: nat): nat {
    if n == 0 then 0 else TrueDups(q, n - 1) + Nat(Copies(q, n - 1) - 1)
  }

  /** Frames among 0..n that were never sent. */
  function TrueDrops(q: seq<Sent>, n: nat): nat {
    if n == 0 then 0 else TrueDrops(q, n - 1) + One(Copies(q, n - 1) == 0)
  }

  /** The reported numbers are what happened; the last frame may still be undecided. */
  predicate Truthful(s: State) {
    s.nbDup == TrueDups(s.sent, s.received) && s.nbDrop + One(s.lastDropped) == TrueDrops(s.sent, s.received)
  }

  /** Truthful, with what the next step needs to know about the last frame. */
  predicate Exact(s: State) {
    && Truthful(s)
    && s.lastFrame == (if s.received == 0 then None else Some(s.received - 1))
    && s.lastDropped == (s.received > 0 && Copies(s.sent, s.received - 1) == 0)
    && (forall i | 0 <= i < |s.sent| :: s.sent[i].src < s.received)
  }

  lemma {:induction false} CopiesOfBurst(q: seq<Sent>, p: Plan, last: Option<nat>, cur: nat, n: nat, k: nat)
    requires last != Some(cur)
    ensures var prev := if last.None? || p.nbPrev < 0 then 0 else if n < p.nbPrev then n else p.nbPrev;
      Copies(q + Burst(p.nbPrev, p.start, last, Some(cur), n), k) ==
      Copies(q, k) + (if last == Some(k) then prev else if k == cur then n - prev else 0)
  {
    if n == 0 {
      assert q + Burst(p.nbPrev, p.start, last, Some(cur), 0) == q;
    } else {
      CopiesOfBurst(q, p, last, cur, n - 1, k);
      var longer := q + Burst(p.nbPrev, p.start, last, Some(cur), n);
      assert longer[..|longer| - 1] == q + Burst(p.nbPrev, p.start, last, Some(cur), n - 1);
    }
  }

  lemma {:induction false} TotalsDepend(q: seq<Sent>, r: seq<Sent>, n: nat)
    requires forall k: nat | k < n :: Copies(q, k) == Copies(r, k)
    ensures TrueDups(q, n) == TrueDups(r, n) && TrueDrops(q, n) == TrueDrops(r, n)
  {
    if n > 0 {
      TotalsDepend(q, r, n - 1);
    }
  }

  lemma {:induction false} UnseenFrame(q: seq<Sent>, k: nat)
    requires forall i | 0 <= i < |q| :: q[i].src != k
    ensures Copies(q, k) == 0
  {
    if q != [] {
      UnseenFrame(q[..|q| - 1], k);
    }
  }

  lemma NewCopies(s: State, p: Plan, q: seq<Sent>, k: nat)
    requires Exact(s) && Sound(p) && p.nbPrev <= p.nb
    requires q == s.sent + Burst(p.nbPrev, p.start, s.lastFrame, Some(s.received), Nat(p.nb))
    ensures s.received > 0 ==>
      Copies(q, k) ==
          Copies(s.sent, k) + (if k + 1 == s.received then p.nbPrev else if k == s.received then p.nb - p.nbPrev else 0)
    ensures s.received == 0 ==> Copies(q, k) == Copies(s.sent, k) + if k == 0 then p.nb else 0
  {
    hide Truthful, Burst, Copies;
    CopiesOfBurst(s.sent, p, s.lastFrame, s.received, Nat(p.nb), k);
  }

  lemma NewSources(s: State, p: Plan, q: seq<Sent>)
    requires Exact(s) && q == s.sent + Burst(p.nbPrev, p.start, s.lastFrame, Some(s.received), Nat(p.nb))
    ensures forall i | 0 <= i < |q| :: q[i].src <= s.received
  {
    hide Truthful, Copies;
    BurstIs(p, s.lastFrame, s.received, Nat(p.nb));
  }

  /** The counts of the last frame and of the new one after a plan is carried out. */
  lemma CopiesAfter(s: State, p: Plan, q: seq<Sent>)
    requires Exact(s) && Sound(p) && p.nbPrev <= p.nb
    requires q == s.sent + Burst(p.nbPrev, p.start, s.lastFrame, Some(s.received), Nat(p.nb))
    ensures s.received > 0 ==>
      && Copies(q, s.received - 1) == Copies(s.sent, s.received - 1) + p.nbPrev
      && Copies(q, s.received) == p.nb - p.nbPrev
      && TrueDups(q, s.received - 1) == TrueDups(s.sent, s.received - 1)
      && TrueDrops(q, s.received - 1) == TrueDrops(s.sent, s.received - 1)
    ensures s.received == 0 ==> Copies(q, 0) == p.nb
    ensures forall i | 0 <= i < |q| :: q[i].src <= s.received
  {
    NewSources(s, p, q);
    UnseenFrame(s.sent, s.received);
    NewCopies(s, p, q, s.received);
    hide Burst, Copies, TrueDups, TrueDrops;
    if s.received > 0 {
      NewCopies(s, p, q, s.received - 1);
      forall k: nat | k < s.received - 1 ensures Copies(q, k) == Copies(s.sent, k) {
        NewCopies(s, p, q, k);
      }
      TotalsDepend(q, s.sent, s.received - 1);
    }
  }

  lemma TotalsOneMore(q: seq<Sent>, n: nat)
    ensures TrueDups(q, n + 1) == TrueDups(q, n) + Nat(Copies(q, n) - 1)
    ensures TrueDrops(q, n + 1) == TrueDrops(q, n) + One(Copies(q, n) == 0)
  {
    hide Copies;
  }

  /** The true numbers after a plan is carried out, in terms of those before. */
  lemma TotalsAfter(s: State, p: Plan, q: seq<Sent>)
    requires Exact(s) && Sound(p) && p.nbPrev <= p.nb
    requires q == s.sent + Burst(p.nbPrev, p.start, s.lastFrame, Some(s.received), Nat(p.nb))
    ensures s.received > 0 ==>
      && TrueDups(q, s.received + 1) == s.nbDup + Nat(Dups(p.nb, p.nbPrev, s.lastDropped))
      && TrueDrops(q, s.received + 1) == s.nbDrop + One(p.nbPrev == 0 && s.lastDropped) + One(p.nb == p.nbPrev)
    ensures s.received == 0 ==> TrueDups(q, 1) == Nat(p.nb - 1) && TrueDrops(q, 1) == One(p.nb == 0)
  {
    CopiesAfter(s, p, q);
    TotalsOneMore(q, s.received);
    hide Copies, Burst;
    if s.received > 0 {
      TotalsLater(s, p, q);
    }
  }

  lemma TotalsLater(s: State, p: Plan, q: seq<Sent>)
    requires Truthful(s) && s.received > 0 && Sound(p) && p.nbPrev <= p.nb
    requires s.lastDropped == (Copies(s.sent, s.received - 1) == 0)
    requires Copies(q, s.received - 1) == Copies(s.sent, s.received - 1) + p.nbPrev
    requires Copies(q, s.received) == p.nb - p.nbPrev
    requires TrueDups(q, s.received - 1) == TrueDups(s.sent, s.received - 1)
    requires TrueDrops(q, s.received - 1) == TrueDrops(s.sent, s.received - 1)
    ensures TrueDups(q, s.received + 1) == s.nbDup + Nat(Dups(p.nb, p.nbPrev, s.lastDropped))
    ensures TrueDrops(q, s.received + 1) == s.nbDrop + One(p.nbPrev == 0 && s.lastDropped) + One(p.nb == p.nbPrev)
  {
    hide Copies, TrueDups, TrueDrops;
    TotalsOneMore(q, s.received);
    TotalsOneMore(q, s.received - 1);
    TotalsOneMore(s.sent, s.received - 1);
  }

  lemma ExactStep(cfg: Config, s: State, p: Plan)
    requires Exact(s) && Sound(p) && p.nbPrev <= p.nb && !Skipped(cfg, p.nb, p.nbPrev, s.lastDropped)
    requires s.received == 0 ==> !Misleads(p) && s.nbDup == 0 && s.nbDrop == 0
    ensures Exact(Apply(cfg, s, p))
  {
    var q := s.sent + Burst(p.nbPrev, p.start, s.lastFrame, Some(s.received), Nat(p.nb));
    TotalsAfter(s, p, q);
    CopiesAfter(s, p, q);
  }

  /** A first plan made only of "previous" frames sends the first frame but calls it dropped. */
  predicate Misleads(first: Plan) {
    first.nb == first.nbPrev > 0
  }

  lemma MisledStep(cfg: Config, s: State, p: Plan)
    requires Exact(s) && s.received == 0 && s.nbDup == 0 && Misleads(p) && !Skipped(cfg, p.nb, p.nbPrev, s.lastDropped)
    ensures !Truthful(Apply(cfg, s, p))
  {
    TotalsAfter(s, p, s.sent + Burst(p.nbPrev, p.start, s.lastFrame, Some(s.received), Nat(p.nb)));
  }

  lemma {:induction false} ExactRun(cfg: Config, ss: seq<State>, ps: seq<Plan>, n: nat)
    requires Applied(cfg, ss, ps) && AllSound(ps) && AllOrdered(ps) && NoSkip(cfg, ss, ps) && n <= |ps|
    requires |ps| > 0 ==> !Misleads(ps[0])
    ensures Exact(ss[n]) && ss[n].received == n
  {
    if n > 0 {
      ExactRun(cfg, ss, ps, n - 1);
      ExactStep(cfg, ss[n - 1], ps[n - 1]);
    }
  }

  lemma TruthOfPlans(cfg: Config, ss: seq<State>, ps: seq<Plan>)
    requires Applied(cfg, ss, ps) && AllSound(ps) && AllOrdered(ps) && NoSkip(cfg, ss, ps)
    ensures (forall n | 0 <= n < |ss| :: Truthful(ss[n])) <==> !(ps != [] && Misleads(ps[0]))
  {
    if ps != [] && Misleads(ps[0]) {
      MisledStep(cfg, ss[0], ps[0]);
      assert ss[1] == Apply(cfg, ss[0], ps[0]);
    } else {
      forall n | 0 <= n < |ss| ensures Truthful(ss[n]) {
        ExactRun(cfg, ss, ps, n);
      }
    }
  }

  /** A frame more than 1.1 slots late whose start, less 0.6, rounds to the same slot as its end. */
  predicate LateFirst(cfg: Config, f: Frame) {
    cfg.sync.Cfr? && f.ipts > 1.1 && Rint(End(f)) == Rint(f.ipts - 0.6)
  }

  lemma FirstPlan(cfg: Config, s: State, f: Frame)
    requires Fresh(s) && f.duration >= 0.0
    ensures Misleads(Decide(cfg, s, f)) <==> LateFirst(cfg, f)
  {
  }

  /** The duplicate and drop counters are the true numbers after every frame of the run if
      and only if the first frame is not such a late one. */
  lemma CountersAreTrue(cfg: Config, ss: seq<State>, ps: seq<Plan>, fs: seq<Frame>)
    requires Run(cfg, ss, ps, fs) && NonNegativeDurations(fs) && NoSkip(cfg, ss, ps)
    ensures (forall n | 0 <= n < |ss| :: Truthful(ss[n])) <==> !(fs != [] && LateFirst(cfg, fs[0]))
  {
    PlansAreSound(cfg, ss, ps, fs);
    TruthOfPlans(cfg, ss, ps);
    if fs != [] {
      FirstPlan(cfg, ss[0], fs[0]);
    }
  }

  /** Such a first frame exists: 1.2 slots late, no duration ... */
  lemma LateFrame(cfg: Config, s: State)
    requires Fresh(s) && cfg.sync.Cfr?
    ensures Decide(cfg, s, Frame(1.2, 0.0)) == Plan(1, 1, 0)
  {
    assert Rint(1.2) == 1 && Rint(0.6) == 1;
  }

  /** ... and it is sent once while one duplicate and one pending drop are reported. */
  lemma LateFrameMisreported(cfg: Config, s: State, p: Plan)
    requires Fresh(s) && p == Plan(1, 1, 0) && cfg.skipLimit >= 1
    ensures var e := Apply(cfg, s, p); e.sent == [Sent(0, 0)] && e.nbDup == 1 && e.lastDropped
  {
    BurstIs(p, s.lastFrame, 0, 1);
  }
}
