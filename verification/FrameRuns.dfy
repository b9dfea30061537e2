/** Short runs of the frame duplicate/drop machine that do not end as one would expect. */
module FrameRuns {
  import opened Wrappers
  import opened Rounding
  import opened FrameSync
  import opened FrameKeys

  /** Constant frame rate with the default settings. */
  predicate PlainCfr(cfg: Config) {
    cfg.sync.Cfr? && cfg.dropThreshold == 0.0 && cfg.skipLimit >= 3
  }

  /** What one frame at constant frame rate does, with the plan spelt out. */
  lemma PlannedStep(cfg: Config, s: State, f: Frame, k: Keys, key: bool, nb: int, nbPrev: int)
    requires PlainCfr(cfg) && Decide(cfg, s, f) == Plan(nb, nbPrev, s.nextPts) && 0 <= nbPrev <= nb <= 3
    requires Aligned(s, k)
    ensures var p := Plan(nb, nbPrev, s.nextPts); var s', k' := Apply(cfg, s, p), KeyStep(cfg, s, p, k, key);
      && Aligned(s', k') && s'.nextPts == s.nextPts + nb && s'.received == s.received + 1
      && s'.lastFrame.Some? && s'.lastFrame.value == s.received
      && |s'.sent| == |s.sent| + nb && s.sent <= s'.sent && k.flags <= k'.flags
      && (forall j | |s.sent| <= j < |s'.sent| :: s'.sent[j].src == Shows(s, p, j - |s.sent|))
      && k'.pending == ((k.pending || (key && nb == nbPrev)) && nb == 0) && k'.last == (key && nb <= nbPrev)
      && forall j | |s.sent| <= j < |s'.sent| ::
           k'.flags[j] <==>
               FlagOf(k.(pending := k.pending || (key && nb == nbPrev)), nbPrev, s.lastFrame.Some?, key, j - |s.sent|)
  {
    var p := Plan(nb, nbPrev, s.nextPts);
    StepSent(cfg, s, p);
    StepFlags(cfg, s, p, k, key);
    BurstIs(p, s.lastFrame, s.received, nb);
  }

  lemma RunStart(cfg: Config, ss: seq<State>, ps: seq<Plan>, fs: seq<Frame>, keys: seq<bool>, ks: seq<Keys>)
    requires Run(cfg, ss, ps, fs) && KeyRun(cfg, ss, ps, keys, ks)
    ensures Aligned(ss[0], ks[0]) && ss[0].nextPts == 0 && ss[0].received == 0 && ss[0].sent == [] &&
            ss[0].lastFrame.None?
    ensures ks[0] == Keys(false, false, []) && |ps| == |fs| == |keys| && |ss| == |ks| == |ps| + 1
  {
  }

  lemma RunStep(cfg: Config, ss: seq<State>, ps: seq<Plan>, fs: seq<Frame>, keys: seq<bool>, ks: seq<Keys>, n: nat)
    requires Run(cfg, ss, ps, fs) && KeyRun(cfg, ss, ps, keys, ks) && n < |ps|
    ensures ps[n] == Decide(cfg, ss[n], fs[n]) && ss[n + 1] == Apply(cfg, ss[n], ps[n])
    ensures ks[n + 1] == KeyStep(cfg, ss[n], ps[n], ks[n], keys[n])
  {
    hide Decide, Apply, KeyStep;
  }

  /** Where a frame lands at constant frame rate, for the frames below. */
  lemma PlanAt(cfg: Config, s: State, f: Frame, late: real)
    requires PlainCfr(cfg) && late == f.ipts - s.nextPts as real && f.duration >= 0.0
    ensures var end, p := late + f.duration, Decide(cfg, s, f);
      && p.start == s.nextPts
      && (end < -1.1 ==> p.nb == 0 && p.nbPrev == 0)
      && (-1.1 <= end <= 1.1 ==> p.nb == 1 && p.nbPrev == 0)
      && (end > 1.1 && late <= 1.1 ==> p.nb == Rint(end) && p.nbPrev == 0)
      && (late > 1.1 ==> p.nb == Rint(end) && p.nbPrev == Rint(late - 0.6))
  {
    hide Rint;
  }

  lemma Rounded()
    ensures Rint(0.6) == 1 && Rint(1.2) == 1 && Rint(2.0) == 2 && Rint(2.1) == 2 && Rint(3.0) == 3
  {
    RintInt(2);
    RintInt(3);
  }

  // ---------------------------------------------------------------- keyframes

  /** The keyframe, 1.2 slots late and without duration, is shadowed: a copy of the frame before it takes its flag,
      the keyframe is never sent and no frame from it on is flagged. */
  lemma KeyframeLost(cfg: Config, ss: seq<State>, ps: seq<Plan>, fs: seq<Frame>, keys: seq<bool>, ks: seq<Keys>)
    requires PlainCfr(cfg) && Run(cfg, ss, ps, fs) && KeyRun(cfg, ss, ps, keys, ks)
    requires fs == [Frame(0.0, 1.0), Frame(2.2, 0.0), Frame(2.3, 0.0)] && keys == [false, true, false]
    ensures |ps| == 3 && ps[0] == Plan(1, 0, 0) && ps[1] == Plan(1, 1, 1) && ps[2] == Plan(1, 0, 2)
    ensures |ss[3].sent| == 3 && ss[3].sent[0].src == 0 && ss[3].sent[1].src == 0 && ss[3].sent[2].src == 2
    ensures ks[3] == Keys(false, false, [false, true, false])
  {
    hide Decide, Apply, KeyStep, Rint, Run, KeyRun;
    Rounded();
    RunStart(cfg, ss, ps, fs, keys, ks);
    RunStep(cfg, ss, ps, fs, keys, ks, 0);
    PlanAt(cfg, ss[0], fs[0], 0.0);
    PlannedStep(cfg, ss[0], fs[0], ks[0], false, 1, 0);
    RunStep(cfg, ss, ps, fs, keys, ks, 1);
    PlanAt(cfg, ss[1], fs[1], 1.2);
    PlannedStep(cfg, ss[1], fs[1], ks[1], true, 1, 1);
    RunStep(cfg, ss, ps, fs, keys, ks, 2);
    PlanAt(cfg, ss[2], fs[2], 2.3 - 2.0);
    PlannedStep(cfg, ss[2], fs[2], ks[2], false, 1, 0);
    assert ks[3].flags == [ks[3].flags[0], ks[3].flags[1], ks[3].flags[2]];
  }

  /** The same keyframe, then shown once at the head of the next burst: two frames are flagged for it. */
  lemma KeyframeFlaggedTwice(cfg: Config, ss: seq<State>, ps: seq<Plan>, fs: seq<Frame>, keys: seq<bool>, ks: seq<Keys>)
    requires PlainCfr(cfg) && Run(cfg, ss, ps, fs) && KeyRun(cfg, ss, ps, keys, ks)
    requires fs == [Frame(0.0, 1.0), Frame(2.2, 0.0), Frame(3.2, 0.8)] && keys == [false, true, false]
    ensures |ps| == 3 && ps[1] == Plan(1, 1, 1) && ps[2] == Plan(2, 1, 2)
    ensures |ss[3].sent| == 4 && ss[3].sent[1].src == 0 && ss[3].sent[2].src == 1 && ss[3].sent[3].src == 2
    ensures ks[3] == Keys(false, false, [false, true, true, false])
  {
    hide Decide, Apply, KeyStep, Rint, Run, KeyRun;
    Rounded();
    RunStart(cfg, ss, ps, fs, keys, ks);
    RunStep(cfg, ss, ps, fs, keys, ks, 0);
    PlanAt(cfg, ss[0], fs[0], 0.0);
    PlannedStep(cfg, ss[0], fs[0], ks[0], false, 1, 0);
    RunStep(cfg, ss, ps, fs, keys, ks, 1);
    PlanAt(cfg, ss[1], fs[1], 1.2);
    PlannedStep(cfg, ss[1], fs[1], ks[1], true, 1, 1);
    RunStep(cfg, ss, ps, fs, keys, ks, 2);
    PlanAt(cfg, ss[2], fs[2], 3.2 - 2.0);
    PlannedStep(cfg, ss[2], fs[2], ks[2], false, 2, 1);
    assert ks[3].flags == [ks[3].flags[0], ks[3].flags[1], ks[3].flags[2], ks[3].flags[3]];
  }

  /** A keyframe that is dropped, because it ends before the slots already filled, and then shown twice is flagged
      twice. */
  lemma KeyframeRepeated(cfg: Config, ss: seq<State>, ps: seq<Plan>, fs: seq<Frame>, keys: seq<bool>, ks: seq<Keys>)
    requires PlainCfr(cfg) && Run(cfg, ss, ps, fs) && KeyRun(cfg, ss, ps, keys, ks)
    requires fs == [Frame(0.0, 3.0), Frame(1.0, 0.5), Frame(5.7, 0.3)] && keys == [false, true, false]
    ensures |ps| == 3 && ps[1] == Plan(0, 0, 3) && ps[2] == Plan(3, 2, 3)
    ensures |ss[3].sent| == 6 && ss[3].sent[3].src == 1 && ss[3].sent[4].src == 1 && ss[3].sent[5].src == 2
    ensures ks[3] == Keys(false, false, [false, false, false, true, true, false])
  {
    hide Decide, Apply, KeyStep, Rint, Run, KeyRun;
    Rounded();
    RunStart(cfg, ss, ps, fs, keys, ks);
    RunStep(cfg, ss, ps, fs, keys, ks, 0);
    PlanAt(cfg, ss[0], fs[0], 0.0);
    PlannedStep(cfg, ss[0], fs[0], ks[0], false, 3, 0);
    RunStep(cfg, ss, ps, fs, keys, ks, 1);
    PlanAt(cfg, ss[1], fs[1], -2.0);
    PlannedStep(cfg, ss[1], fs[1], ks[1], true, 0, 0);
    RunStep(cfg, ss, ps, fs, keys, ks, 2);
    PlanAt(cfg, ss[2], fs[2], 5.7 - 3.0);
    PlannedStep(cfg, ss[2], fs[2], ks[2], false, 3, 2);
    var g := ks[3].flags;
    assert g == [g[0], g[1], g[2], g[3], g[4], g[5]];
  }

  // ---------------------------------------------------------------- counters

  lemma CountedStep(cfg: Config, s: State, nb: int, nbPrev: int)
    requires PlainCfr(cfg) && 0 <= nbPrev <= nb <= 3
    ensures var s' := Apply(cfg, s, Plan(nb, nbPrev, s.nextPts));
      && s'.nbDrop == s.nbDrop + One(nbPrev == 0 && s.lastDropped) && s'.lastDropped == (nb == nbPrev)
      && s'.hist == History(nbPrev, s.hist.h0, s.hist.h1) && s'.nextPts == s.nextPts + nb
  {
    BurstIs(Plan(nb, nbPrev, s.nextPts), s.lastFrame, s.received, nb);
  }

  /** Two frames, the second of which ends before the slots already filled: it is dropped. */
  lemma OneDropped(cfg: Config, ss: seq<State>, ps: seq<Plan>, fs: seq<Frame>)
    requires PlainCfr(cfg) && Run(cfg, ss, ps, fs)
    requires |fs| >= 2 && fs[0] == Frame(0.0, 3.0) && fs[1] == Frame(1.0, 0.5)
    ensures |ss| == |fs| + 1 && |ps| == |fs| && ss[2].received == 2 && ss[2].nextPts == 3
    ensures |ss[2].sent| == 3 && (forall j | 0 <= j < 3 :: ss[2].sent[j].src == 0)
    ensures ss[2].nbDrop == 0 && ss[2].lastDropped && ss[2].hist == History(0, 0, 0) && ss[2].lastFrame.Some?
  {
    hide Decide, Apply, Rint;
    Rounded();
    PlanAt(cfg, ss[0], fs[0], 0.0);
    assert ss[1] == Apply(cfg, ss[0], Plan(3, 0, 0));
    StepSent(cfg, ss[0], Plan(3, 0, 0));
    CountedStep(cfg, ss[0], 3, 0);
    PlanAt(cfg, ss[1], fs[1], -2.0);
    assert ss[2] == Apply(cfg, ss[1], Plan(0, 0, 3));
    StepSent(cfg, ss[1], Plan(0, 0, 3));
    CountedStep(cfg, ss[1], 0, 0);
  }

  /** The flush then counts that one frame as dropped twice. */
  lemma FlushCountsTwice(cfg: Config, ss: seq<State>, ps: seq<Plan>)
    requires PlainCfr(cfg) && Run(cfg, ss, ps, [Frame(0.0, 3.0), Frame(1.0, 0.5)])
    ensures |ss| == 3 && ss[2].received == 2 && forall j | 0 <= j < |ss[2].sent| :: ss[2].sent[j].src == 0
    ensures var e := Flush(cfg, ss[2], true); e.sent == ss[2].sent && |e.sent| == 3 && e.nbDrop == 2
  {
    OneDropped(cfg, ss, ps, [Frame(0.0, 3.0), Frame(1.0, 0.5)]);
    var e := Flush(cfg, ss[2], true);
    assert Median3(0, 0, 0) == 0;
    assert ss[2].sent + [] == ss[2].sent;
  }

  /** A frame too long to be sent, after a dropped one, is skipped; a frame that is sent follows. Two frames were not
      sent, and three drops are reported. */
  lemma SkipCountsAgain(cfg: Config, ss: seq<State>, ps: seq<Plan>, fs: seq<Frame>)
    requires PlainCfr(cfg) && Run(cfg, ss, ps, fs)
    requires fs == [Frame(0.0, 3.0), Frame(1.0, 0.5), Frame(3.0, (cfg.skipLimit + 1) as real), Frame(3.0, 1.0)]
    ensures |ss| == 5 && ss[4].received == 4 && ss[4].nbDrop == 3 && !ss[4].lastDropped
    ensures |ss[4].sent| == 4 && ss[4].sent[3].src == 3 && forall j | 0 <= j < 3 :: ss[4].sent[j].src == 0
  {
    hide Decide, Apply, Rint;
    OneDropped(cfg, ss, ps, fs);
    var n := cfg.skipLimit + 1;
    RintInt(n);
    PlanAt(cfg, ss[2], fs[2], 0.0);
    assert ss[3] == Apply(cfg, ss[2], Plan(n, 0, 3));
    SkippedStep(cfg, ss[2], n);
    PlanAt(cfg, ss[3], fs[3], 0.0);
    assert ss[4] == Apply(cfg, ss[3], Plan(1, 0, 3));
    StepSent(cfg, ss[3], Plan(1, 0, 3));
    CountedStep(cfg, ss[3], 1, 0);
  }

  lemma SkippedStep(cfg: Config, s: State, nb: int)
    requires PlainCfr(cfg) && nb > cfg.skipLimit
    ensures var s' := Apply(cfg, s, Plan(nb, 0, s.nextPts));
      && s'.sent == s.sent && s'.received == s.received + 1 && s'.nextPts == s.nextPts &&
         s'.lastDropped == s.lastDropped
      && s'.nbDrop == s.nbDrop + 1 + One(s.lastDropped) && s'.lastFrame.Some? && s'.lastFrame.value == s.received
  {
    assert s.sent + [] == s.sent;
  }
}
