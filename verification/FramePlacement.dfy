/**
 Where the frame duplicate/drop machine puts a frame, in every mode: how often it is sent, and how
 far from its own time.
 */
module FramePlacement {
  import opened Wrappers
  import opened Rounding
  import opened FrameSync

  /** An integer next to a real number. */
  predicate Nearest(n: int, x: real) {
    -0.5 <= n as real - x <= 0.5
  }

  /** The frame goes out exactly once, at time pts. */
  predicate SentOnce(s: State, s': State, pts: int) {
    s'.sent == s.sent + [Sent(s.received, pts)] && s'.nextPts == pts + 1
  }

  predicate NotSent(s: State, s': State) {
    s'.sent == s.sent && s'.nextPts == s.nextPts
  }

  /** A plan for a single frame is carried out as such, and never skipped. */
  lemma OnePlan(cfg: Config, s: State, start: int)
    ensures SentOnce(s, Apply(cfg, s, Plan(1, 0, start)), start)
  {
    BurstIs(Plan(1, 0, start), s.lastFrame, s.received, 1);
  }

  lemma EmptyPlan(cfg: Config, s: State)
    ensures NotSent(s, Apply(cfg, s, Plan(0, 0, s.nextPts)))
  {
    assert s.sent + [] == s.sent;
  }

  // ---------------------------------------------------------------- variable frame rate and passthrough

  /** At variable frame rate a frame is not sent if and only if it ends at least 0.6 before the next slot. A frame
      that ends more than 0.6 after it is sent at the integer next to its own time, or to the slot if it begins
      before; any other one in the slot itself. */
  lemma VfrPlacement(cfg: Config, ss: seq<State>, ps: seq<Plan>, fs: seq<Frame>, n: nat) returns (pts: int)
    requires Run(cfg, ss, ps, fs) && cfg.sync.Vfr? && n < |fs|
    ensures var s, s' := ss[n], ss[n + 1];
      var begin, end := fs[n].ipts, fs[n].ipts + fs[n].duration;
      var slot := s.nextPts as real;
      && (NotSent(s, s') <==> end <= slot - 0.6)
      && (end > slot - 0.6 ==> SentOnce(s, s', pts))
      && (end > slot + 0.6 && begin >= slot ==> Nearest(pts, begin))
      && (end > slot + 0.6 && begin < slot ==> pts == s.nextPts)
      && (slot - 0.6 < end <= slot + 0.6 ==> pts == s.nextPts)
  {
    hide Apply;
    var s, f, p := ss[n], fs[n], ps[n];
    pts := p.start;
    assert p == Decide(cfg, s, f) && ss[n + 1] == Apply(cfg, s, p);
    if p.nb == 0 {
      EmptyPlan(cfg, s);
    } else {
      OnePlan(cfg, s, p.start);
    }
    RintInt(s.nextPts);
  }

  /** In passthrough every frame is sent exactly once, at the integer next to its own time. */
  lemma PassthroughPlacement(cfg: Config, ss: seq<State>, ps: seq<Plan>, fs: seq<Frame>, n: nat) returns (pts: int)
    requires Run(cfg, ss, ps, fs) && cfg.sync.Passthrough? && n < |fs|
    ensures SentOnce(ss[n], ss[n + 1], pts) && Nearest(pts, fs[n].ipts)
  {
    hide Apply;
    pts := ps[n].start;
    assert ps[n] == Decide(cfg, ss[n], fs[n]) && ss[n + 1] == Apply(cfg, ss[n], ps[n]);
    OnePlan(cfg, ss[n], pts);
  }

  // ---------------------------------------------------------------- constant frame rate

  /** The frame drop threshold applies. */
  predicate UnderThreshold(cfg: Config, s: State, end: real) {
    cfg.dropThreshold != 0.0 && s.frameNumber != 0 && end - s.nextPts as real < cfg.dropThreshold
  }

  /** At constant frame rate, and for vscfr after its first frame: how many slots a frame fills, by where it begins
      and ends. A frame that ends more than 1.1 slots early, or under the threshold, fills none; one that ends up to
      1.1 slots late fills one; a later one fills all slots up to the one next to its end, those that are over 0.6
      before its beginning with the frame before it, if it begins more than 1.1 slots late. */
  lemma CfrPlacement(cfg: Config, s: State, f: Frame)
    requires cfg.sync.Cfr? || (cfg.sync.Vscfr? && s.frameNumber != 0)
    ensures var p := Decide(cfg, s, f);
      var begin, end, slot := f.ipts, f.ipts + f.duration, s.nextPts as real;
      var none := UnderThreshold(cfg, s, end) || end < slot - 1.1;
      && p.start == s.nextPts
      && (none ==> p.nb == 0 && p.nbPrev == 0)
      && (!none && end <= slot + 1.1 ==> p.nb == 1 && p.nbPrev == 0)
      && (!none && end > slot + 1.1 ==>
            && Nearest(s.nextPts + p.nb, end) && p.nb >= 1
            && (begin <= slot + 1.1 ==> p.nbPrev == 0)
            && (begin > slot + 1.1 ==> Nearest(s.nextPts + p.nbPrev, begin - 0.6) && p.nbPrev >= 1))
  {
  }

  /** vscfr starts at the first frame: if that begins at least half a slot late, nothing is filled before it, and the
      slots from the integer next to its time on hold only this frame. */
  lemma VscfrStart(cfg: Config, s: State, f: Frame)
    requires cfg.sync.Vscfr? && s.frameNumber == 0 && f.ipts >= s.nextPts as real + 0.5
    ensures var p := Decide(cfg, s, f);
      && Nearest(p.start, f.ipts) && p.nbPrev == 0
      && (f.duration < -1.1 ==> p.nb == 0) && (-1.1 <= f.duration <= 1.1 ==> p.nb == 1)
      && (f.duration > 1.1 ==> Nearest(p.nb, f.duration))
  {
  }

  /** Otherwise it starts as constant frame rate does. */
  lemma VscfrEarly(cfg: Config, s: State, f: Frame)
    requires cfg.sync.Vscfr? && s.frameNumber == 0 && f.ipts < s.nextPts as real + 0.5
    ensures Decide(cfg, s, f) == Decide(cfg.(sync := Cfr), s, f)
  {
  }

  /** What a plan shows: the slots filled with the frame before, and then those filled with the frame itself. */
  lemma PlanShows(cfg: Config, s: State, p: Plan)
    requires Sound(p) && !Skipped(cfg, p.nb, p.nbPrev, s.lastDropped)
    ensures var s' := Apply(cfg, s, p);
      && |s'.sent| == |s.sent| + p.nb && s.sent <= s'.sent && s'.nextPts == p.start + p.nb
      && forall j | |s.sent| <= j < |s'.sent| ::
           s'.sent[j] == Sent(if j - |s.sent| < p.nbPrev && s.lastFrame.Some? then s.lastFrame.value else s.received,
                              p.start + (j - |s.sent|))
  {
    BurstIs(p, s.lastFrame, s.received, p.nb);
  }

  /** When a plan is skipped: more than one frame too many is to be sent, and more than the limit. */
  lemma SkipLaw(cfg: Config, s: State, p: Plan)
    requires Sound(p) && p.nbPrev <= p.nb
    ensures var kept := One(p.nbPrev > 0 && s.lastDropped) + One(p.nb > p.nbPrev);
      Skipped(cfg, p.nb, p.nbPrev, s.lastDropped) <==> p.nb > kept && p.nb > cfg.skipLimit
    ensures Skipped(cfg, p.nb, p.nbPrev, s.lastDropped) ==> Apply(cfg, s, p).sent == s.sent
  {
    assert s.sent + [] == s.sent;
  }

  // ---------------------------------------------------------------- end of stream

  /** How often the plan for the k-th last of n frames repeats the frame before; 0 if there is no such plan. */
  function Repeats(ps: seq<Plan>, n: nat, k: nat): int
    requires n <= |ps|
  {
    if 1 <= k <= n then ps[n - k].nbPrev else 0
  }

  lemma HistoryStep(cfg: Config, s: State, p: Plan)
    ensures var s' := Apply(cfg, s, p);
      && s'.hist == History(p.nbPrev, s.hist.h0, s.hist.h1)
      && s'.lastFrame == Some(s.received) && s'.received == s.received + 1
  {
  }

  lemma AppliedAt(cfg: Config, ss: seq<State>, ps: seq<Plan>, n: nat)
    requires Applied(cfg, ss, ps) && n <= |ps|
    ensures |ss| == |ps| + 1 && Fresh(ss[0]) && (n > 0 ==> ss[n] == Apply(cfg, ss[n - 1], ps[n - 1]))
  {
    hide Apply, Fresh;
    if n > 0 {
      var k := n - 1;
      assert ss[k + 1] == Apply(cfg, ss[k], ps[k]);
    }
  }

  lemma {:induction false} HistoryIs(cfg: Config, ss: seq<State>, ps: seq<Plan>, n: nat)
    requires Applied(cfg, ss, ps) && n <= |ps|
    ensures ss[n].hist == History(Repeats(ps, n, 1), Repeats(ps, n, 2), Repeats(ps, n, 3))
    ensures ss[n].lastFrame == if n == 0 then None else Some((n - 1) as nat)
    ensures ss[n].received == n
  {
    hide Applied, Apply;
    AppliedAt(cfg, ss, ps, n);
    if n > 0 {
      var k := n - 1;
      HistoryIs(cfg, ss, ps, k);
      HistoryStep(cfg, ss[k], ps[k]);
    }
  }

  lemma {:induction false} FlushIs(nbPrev: int, start: int, last: nat, n: nat)
    requires n <= nbPrev
    ensures Burst(nbPrev, start, Some(last), None, n) == seq(n, i => Sent(last, start + i))
  {
    if n > 0 {
      FlushIs(nbPrev, start, last, n - 1);
    }
  }

  lemma FlushOf(cfg: Config, s: State, m: nat)
    requires m == Median3(s.hist.h0, s.hist.h1, s.hist.h2) && s.lastFrame.Some?
    ensures var e := Flush(cfg, s, true);
      if m > cfg.skipLimit && m > One(s.lastDropped) then e.sent == s.sent
      else e.sent == s.sent + seq(m, i => Sent(s.lastFrame.value, s.nextPts + i))
  {
    hide Median3;
    FlushIs(m, s.nextPts, s.lastFrame.value, m);
    assert s.sent + [] == s.sent;
  }

  lemma Middle(a: nat, b: nat, c: nat) returns (lo: int, m: nat, hi: int)
    ensures 0 <= lo <= m <= hi && m == Median3(a, b, c) && multiset{lo, m, hi} == multiset{a, b, c}
  {
    hide *;
    var mid := Median3(a, b, c);
    lo, hi :| lo <= mid <= hi && multiset{lo, mid, hi} == multiset{a, b, c};
    assert lo in multiset{lo, mid, hi};
    m := mid;
  }

  /** The flush sends the last frame once more in as many slots as the median of the repetitions before the last
      three frames says, and nothing if that is too many. */
  lemma FlushRepeats(cfg: Config, ss: seq<State>, ps: seq<Plan>, n: nat) returns (lo: int, m: nat, hi: int)
    requires Applied(cfg, ss, ps) && AllSound(ps) && 0 < n <= |ps|
    ensures 0 <= lo <= m <= hi
    ensures multiset{lo, m, hi} == multiset{Repeats(ps, n, 1), Repeats(ps, n, 2), Repeats(ps, n, 3)}
    ensures var e := Flush(cfg, ss[n], true);
      if m > cfg.skipLimit && m > One(ss[n].lastDropped) then e.sent == ss[n].sent
      else e.sent == ss[n].sent + seq(m, i => Sent(n - 1, ss[n].nextPts + i))
  {
    var h := ss[n].hist;
    assert Repeats(ps, n, 1) >= 0 && Repeats(ps, n, 2) >= 0 && Repeats(ps, n, 3) >= 0;
    HistoryIs(cfg, ss, ps, n);
    hide *;
    lo, m, hi := Middle(h.h0, h.h1, h.h2);
    FlushOf(cfg, ss[n], m);
  }
}
