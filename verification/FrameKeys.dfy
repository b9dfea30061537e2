/**
 Keyframe flags in the duplicate/drop machine: a keyframe that is dropped hands its flag
 to the next frame that is sent.
 */
module FrameKeys {
  import opened Wrappers
  import opened Rounding
  import opened FrameSync

  /** A flag waits for the next frame; the kept frame has one; the flags of all frames sent. */
  datatype Keys = Keys(pending: bool, last: bool, flags: seq<bool>)

  /** Inside the emit loop the current frame loses its flag once it was sent. */
  datatype Sending = Sending(pending: bool, cur: bool, flags: seq<bool>)

  /** After n frames of a burst, the first nbPrev of them the kept frame if there is one. */
  function Flagged(k: Keys, nbPrev: int, hasLast: bool, cur: bool, n: nat): Sending {
    if n == 0 then Sending(k.pending, cur, k.flags)
    else
      var f := Flagged(k, nbPrev, hasLast, cur, n - 1);
      var own := if n - 1 < nbPrev && hasLast then k.last else f.cur;
      Sending(false, f.cur && n - 1 != nbPrev, f.flags + [own || f.pending])
  }

  /** A frame that is about to be dropped leaves its flag behind. */
  function Noted(cfg: Config, k: Keys, lastDropped: bool, nb: int, nbPrev: int, key: bool): Keys {
    if Skipped(cfg, nb, nbPrev, lastDropped) || nb != nbPrev then k else k.(pending := k.pending || key)
  }

  /** One frame with the plan p. */
  function KeyStep(cfg: Config, s: State, p: Plan, k: Keys, key: bool): Keys {
    var f := Flagged(Noted(cfg, k, s.lastDropped, p.nb, p.nbPrev, key), p.nbPrev, s.lastFrame.Some?, key,
                     Nat(ToSend(cfg, s, p.nb, p.nbPrev)));
    Keys(f.pending, f.cur, f.flags)
  }

  /** End of stream: the copies of the kept frame that the flush sends. */
  function KeyFlush(cfg: Config, s: State, k: Keys, gotFrame: bool): Keys {
    var n := Nat(|Flush(cfg, s, gotFrame).sent| - |s.sent|);
    var f := Flagged(k, Median3(s.hist.h0, s.hist.h1, s.hist.h2), s.lastFrame.Some?, false, n);
    Keys(f.pending, k.last, f.flags)
  }

  /** ks[n] holds the flags after n frames of a run; keys says which frames came as keyframes. */
  predicate KeyRun(cfg: Config, ss: seq<State>, ps: seq<Plan>, keys: seq<bool>, ks: seq<Keys>) {
    |ss| == |ps| + 1 && |ks| == |ss| && |keys| == |ps| && ks[0] == Keys(false, false, []) &&
    forall n | 0 <= n < |ps| :: ks[n + 1] == KeyStep(cfg, ss[n], ps[n], ks[n], keys[n])
  }

  // ---------------------------------------------------------------- one burst

  /** Frame i of a burst is flagged: a flag that waited goes to the first frame; a copy of the kept
      frame has that frame's flag; the current frame has its own the first time it is sent. */
  predicate FlagOf(k: Keys, nbPrev: int, hasLast: bool, cur: bool, i: int) {
    (i == 0 && k.pending) || (if i < nbPrev && hasLast then k.last else cur && i <= nbPrev)
  }

  /** Exactly which frames of a burst are flagged. */
  lemma {:induction false} FlagLaw(k: Keys, nbPrev: int, hasLast: bool, cur: bool, n: nat)
    requires nbPrev >= 0
    ensures var f := Flagged(k, nbPrev, hasLast, cur, n);
      && |f.flags| == |k.flags| + n && k.flags <= f.flags
      && f.pending == (k.pending && n == 0) && f.cur == (cur && n <= nbPrev)
      && forall j | |k.flags| <= j < |f.flags| :: f.flags[j] <==> FlagOf(k, nbPrev, hasLast, cur, j - |k.flags|)
  {
    if n > 0 {
      FlagLaw(k, nbPrev, hasLast, cur, n - 1);
    }
  }

  function SentNow(cfg: Config, s: State, p: Plan): nat {
    Nat(ToSend(cfg, s, p.nb, p.nbPrev))
  }

  /** What the frame sent at place i of a burst shows. */
  function Shows(s: State, p: Plan, i: int): nat {
    if i < p.nbPrev && s.lastFrame.Some? then s.lastFrame.value else s.received
  }

  lemma StepSent(cfg: Config, s: State, p: Plan)
    ensures var s' := Apply(cfg, s, p);
      && |s'.sent| == |s.sent| + SentNow(cfg, s, p) && s.sent <= s'.sent
      && s'.received == s.received + 1 && s'.lastFrame.Some? && s'.lastFrame.value == s.received
      && forall j | |s.sent| <= j < |s'.sent| :: s'.sent[j].src == Shows(s, p, j - |s.sent|)
  {
    hide Skipped;
    BurstIs(p, s.lastFrame, s.received, SentNow(cfg, s, p));
  }

  lemma StepFlags(cfg: Config, s: State, p: Plan, k: Keys, key: bool)
    requires Sound(p)
    ensures var k', noted := KeyStep(cfg, s, p, k, key), Noted(cfg, k, s.lastDropped, p.nb, p.nbPrev, key);
      && |k'.flags| == |k.flags| + SentNow(cfg, s, p) && k.flags <= k'.flags
      && k'.pending == (noted.pending && SentNow(cfg, s, p) == 0) && k'.last == (key && SentNow(cfg, s, p) <= p.nbPrev)
      && forall j | |k.flags| <= j < |k'.flags| ::
           k'.flags[j] <==> FlagOf(noted, p.nbPrev, s.lastFrame.Some?, key, j - |k.flags|)
  {
    hide Skipped;
    FlagLaw(Noted(cfg, k, s.lastDropped, p.nb, p.nbPrev, key), p.nbPrev, s.lastFrame.Some?, key, SentNow(cfg, s, p));
  }

  /** The copies that the flush sends: all have the flag of the kept frame, and the first takes one that waited. */
  lemma FlushFlags(cfg: Config, s: State, k: Keys, gotFrame: bool)
    requires s.lastFrame.Some? && s.hist.h0 >= 0 && s.hist.h1 >= 0 && s.hist.h2 >= 0
    ensures var k', n := KeyFlush(cfg, s, k, gotFrame), |Flush(cfg, s, gotFrame).sent| - |s.sent|;
      && n >= 0 && |k'.flags| == |k.flags| + n && k.flags <= k'.flags
      && k'.last == k.last && (k'.pending <==> k.pending && n == 0)
      && forall j | |k.flags| <= j < |k'.flags| :: k'.flags[j] <==> k.last || (j == |k.flags| && k.pending)
  {
    var m := Median3(s.hist.h0, s.hist.h1, s.hist.h2);
    var n := |Flush(cfg, s, gotFrame).sent| - |s.sent|;
    FlushBurst(m, s.nextPts, s.lastFrame.value, m);
    assert n == 0 || n == m;
    hide Flush, Median3;
    FlagLaw(k, m, true, false, n);
  }

  // ---------------------------------------------------------------- a keyframe in its own burst

  /** From place a on, a flagged frame shows input frame n or a later one. */
  predicate FlagShown(s: State, k: Keys, a: nat, n: nat) {
    exists j :: a <= j < |k.flags| && j < |s.sent| && k.flags[j] && s.sent[j].src >= n
  }

  /** The flag of keyframe n waits for the next frame, or was given to a frame from n on. */
  predicate Survives(s: State, k: Keys, a: nat, n: nat) {
    k.pending || FlagShown(s, k, a, n)
  }

  /** Only copies of the frame before it are sent: one of them takes the flag. */
  predicate Shadowed(s: State, p: Plan) {
    0 < p.nb <= p.nbPrev && s.lastFrame.Some?
  }

  /** The flag of a keyframe is taken care of as it arrives. */
  predicate Taken(cfg: Config, s: State, p: Plan, k: Keys) {
    if Skipped(cfg, p.nb, p.nbPrev, s.lastDropped) then k.pending else !Shadowed(s, p)
  }

  /** The kept frame is the one before the current one. */
  predicate Aligned(s: State, k: Keys) {
    |k.flags| == |s.sent| && (s.lastFrame.Some? ==> s.lastFrame.value + 1 == s.received)
  }

  /** A keyframe's flag waits or is on a frame of its burst that shows it, if and only if it is not shadowed
      (a skipped one: if and only if a flag was waiting already). */
  lemma KeyTakenIff(cfg: Config, s: State, p: Plan, k: Keys)
    requires Sound(p) && Aligned(s, k)
    ensures Survives(Apply(cfg, s, p), KeyStep(cfg, s, p, k, true), |k.flags|, s.received) <==> Taken(cfg, s, p, k)
  {
    hide KeyStep, Apply;
    StepSent(cfg, s, p);
    StepFlags(cfg, s, p, k, true);
    var s', k' := Apply(cfg, s, p), KeyStep(cfg, s, p, k, true);
    var a := |k.flags|;
    if Taken(cfg, s, p, k) && !Skipped(cfg, p.nb, p.nbPrev, s.lastDropped) && p.nb > 0 {
      var i := if p.nbPrev < p.nb then p.nbPrev else 0;
      assert k'.flags[a + i] && s'.sent[a + i].src == s.received;
    }
  }

  /** When a frame is shadowed, in terms of the frame: it begins more than 1.1 slots late, and its end and
      its start, less 0.6, round to the same slot. */
  lemma ShadowedIff(cfg: Config, s: State, f: Frame)
    requires f.duration >= 0.0
    ensures var late := f.ipts - s.nextPts as real; var end := late + f.duration;
      Shadowed(s, Decide(cfg, s, f)) <==>
        && s.lastFrame.Some? && late > 1.1 && Rint(end) == Rint(late - 0.6)
        && (cfg.sync.Cfr? || (cfg.sync.Vscfr? && s.frameNumber != 0))
        && !(cfg.dropThreshold != 0.0 && end < cfg.dropThreshold && s.frameNumber != 0)
  {
    var late := f.ipts - s.nextPts as real;
    var end := late + f.duration;
    if late > 1.1 {
      RintMonotone(late - 0.6, end);
    }
  }

  // ---------------------------------------------------------------- a keyframe in a run

  lemma {:induction false} RunAligned(cfg: Config, ss: seq<State>, ps: seq<Plan>, keys: seq<bool>, ks: seq<Keys>,
                                      n: nat)
    requires Applied(cfg, ss, ps) && AllSound(ps) && KeyRun(cfg, ss, ps, keys, ks) && n <= |ps|
    ensures Aligned(ss[n], ks[n]) && ss[n].received == n && (ss[n].lastFrame.Some? <==> n > 0)
  {
    hide Apply, KeyStep;
    if n > 0 {
      RunAligned(cfg, ss, ps, keys, ks, n - 1);
      StepSent(cfg, ss[n - 1], ps[n - 1]);
      StepFlags(cfg, ss[n - 1], ps[n - 1], ks[n - 1], keys[n - 1]);
    }
  }

  /** A flag given stays; one that waits goes to the next frame sent, which shows no frame before n. */
  lemma SurvivalKept(cfg: Config, s: State, p: Plan, k: Keys, key: bool, a: nat, n: nat)
    requires Sound(p) && Aligned(s, k) && s.lastFrame.Some? && n <= s.lastFrame.value && a <= |k.flags| &&
             Survives(s, k, a, n)
    ensures Survives(Apply(cfg, s, p), KeyStep(cfg, s, p, k, key), a, n)
  {
    hide Apply, KeyStep;
    StepSent(cfg, s, p);
    StepFlags(cfg, s, p, k, key);
    var s', k' := Apply(cfg, s, p), KeyStep(cfg, s, p, k, key);
    if FlagShown(s, k, a, n) {
      var j :| a <= j < |k.flags| && j < |s.sent| && k.flags[j] && s.sent[j].src >= n;
      assert k'.flags[j] && s'.sent[j].src >= n;
    } else if SentNow(cfg, s, p) > 0 {
      assert k'.flags[|k.flags|] && s'.sent[|k.flags|].src >= n;
    }
  }

  /** Nothing waits, the kept frame is not flagged, and no frame from n on was. */
  predicate Lost(s: State, k: Keys, a: nat, n: nat) {
    !k.last && !Survives(s, k, a, n)
  }

  lemma LostKept(cfg: Config, s: State, p: Plan, k: Keys, a: nat, n: nat)
    requires Sound(p) && Aligned(s, k) && a <= |k.flags| && Lost(s, k, a, n)
    ensures Lost(Apply(cfg, s, p), KeyStep(cfg, s, p, k, false), a, n)
  {
    hide Apply, KeyStep;
    StepSent(cfg, s, p);
    StepFlags(cfg, s, p, k, false);
    OldFlags(s, Apply(cfg, s, p), k, KeyStep(cfg, s, p, k, false), a, n);
  }

  /** What was sent before is as before: only the frames of the last burst matter. */
  lemma OldFlags(s: State, s': State, k: Keys, k': Keys, a: nat, n: nat)
    requires |k.flags| == |s.sent| && s.sent <= s'.sent && k.flags <= k'.flags && a <= |k.flags|
    requires forall j | |k.flags| <= j < |k'.flags| :: !k'.flags[j]
    ensures FlagShown(s', k', a, n) ==> FlagShown(s, k, a, n)
  {
    if FlagShown(s', k', a, n) {
      var j :| a <= j < |k'.flags| && j < |s'.sent| && k'.flags[j] && s'.sent[j].src >= n;
      assert k.flags[j] && s.sent[j].src >= n;
    }
  }

  /** The next burst begins with the kept frame. */
  predicate ShowsKept(cfg: Config, s: State, p: Plan) {
    SentNow(cfg, s, p) > 0 && p.nbPrev > 0 && s.lastFrame.Some?
  }

  /** The kept frame is still flagged and nothing else is: its flag is seen now or never. */
  lemma LastChance(cfg: Config, s: State, p: Plan, k: Keys, a: nat, n: nat)
    requires Sound(p) && Aligned(s, k) && a <= |k.flags| && k.last && !Survives(s, k, a, n)
    requires s.lastFrame.Some? && s.lastFrame.value == n
    ensures var s', k' := Apply(cfg, s, p), KeyStep(cfg, s, p, k, false);
      if ShowsKept(cfg, s, p) then Survives(s', k', a, n) else Lost(s', k', a, n)
  {
    hide Apply, KeyStep;
    StepSent(cfg, s, p);
    StepFlags(cfg, s, p, k, false);
    var s', k' := Apply(cfg, s, p), KeyStep(cfg, s, p, k, false);
    if ShowsKept(cfg, s, p) {
      assert k'.flags[|k.flags|] && s'.sent[|k.flags|].src == n;
    } else {
      OldFlags(s, s', k, k', a, n);
    }
  }

  /** A keyframe that is taken care of as it arrives keeps its flag: after any later frame m, a frame sent since that
      shows the keyframe or a later one carries a flag, or the flag still waits for the next frame. */
  lemma {:induction false} KeyframeSurvives(cfg: Config, ss: seq<State>, ps: seq<Plan>, keys: seq<bool>, ks: seq<Keys>,
                                            n: nat, m: nat)
    requires Applied(cfg, ss, ps) && AllSound(ps) && KeyRun(cfg, ss, ps, keys, ks) && n < m <= |ps| && keys[n]
    requires Taken(cfg, ss[n], ps[n], ks[n])
    ensures Survives(ss[m], ks[m], |ks[n].flags|, n) && |ks[n].flags| <= |ks[m].flags|
  {
    hide Apply, KeyStep, Survives, Taken;
    RunAligned(cfg, ss, ps, keys, ks, m - 1);
    StepFlags(cfg, ss[m - 1], ps[m - 1], ks[m - 1], keys[m - 1]);
    if m == n + 1 {
      KeyTakenIff(cfg, ss[n], ps[n], ks[n]);
    } else {
      KeyframeSurvives(cfg, ss, ps, keys, ks, n, m - 1);
      SurvivalKept(cfg, ss[m - 1], ps[m - 1], ks[m - 1], keys[m - 1], |ks[n].flags|, n);
    }
  }

  /** For the last keyframe of a run this is exact: its flag survives if and only if the keyframe is taken care
      of as it arrives, or the very next burst begins with it. */
  lemma {:induction false} KeyframeSurvivesIff(cfg: Config, ss: seq<State>, ps: seq<Plan>, keys: seq<bool>,
                                               ks: seq<Keys>, n: nat, m: nat)
    requires Applied(cfg, ss, ps) && AllSound(ps) && KeyRun(cfg, ss, ps, keys, ks) && n + 1 < m <= |ps|
    requires keys[n] && forall i | n < i < |ps| :: !keys[i]
    ensures Survives(ss[m], ks[m], |ks[n].flags|, n) <==>
            Taken(cfg, ss[n], ps[n], ks[n]) || ShowsKept(cfg, ss[n + 1], ps[n + 1])
  {
    hide Apply, KeyStep, Survives, Taken, ShowsKept;
    if Taken(cfg, ss[n], ps[n], ks[n]) {
      KeyframeSurvives(cfg, ss, ps, keys, ks, n, m);
    } else {
      AfterMissed(cfg, ss, ps, keys, ks, n, m);
    }
  }

  lemma {:induction false} AfterMissed(cfg: Config, ss: seq<State>, ps: seq<Plan>, keys: seq<bool>, ks: seq<Keys>,
                                       n: nat, m: nat)
    requires Applied(cfg, ss, ps) && AllSound(ps) && KeyRun(cfg, ss, ps, keys, ks) && n + 1 < m <= |ps|
    requires keys[n] && (forall i | n < i < |ps| :: !keys[i]) && !Taken(cfg, ss[n], ps[n], ks[n])
    ensures |ks[n].flags| <= |ks[m].flags|
    ensures if ShowsKept(cfg, ss[n + 1], ps[n + 1]) then Survives(ss[m], ks[m], |ks[n].flags|, n)
            else Lost(ss[m], ks[m], |ks[n].flags|, n)
  {
    hide Apply, KeyStep, Survives, ShowsKept, Lost;
    var a := |ks[n].flags|;
    RunAligned(cfg, ss, ps, keys, ks, m - 1);
    StepFlags(cfg, ss[m - 1], ps[m - 1], ks[m - 1], keys[m - 1]);
    if m == n + 2 {
      RunAligned(cfg, ss, ps, keys, ks, n);
      Missed(cfg, ss[n], ps[n], ks[n]);
      assert ks[n + 1] == KeyStep(cfg, ss[n], ps[n], ks[n], keys[n]);
      LastChance(cfg, ss[n + 1], ps[n + 1], ks[n + 1], a, n);
    } else {
      AfterMissed(cfg, ss, ps, keys, ks, n, m - 1);
      if ShowsKept(cfg, ss[n + 1], ps[n + 1]) {
        SurvivalKept(cfg, ss[m - 1], ps[m - 1], ks[m - 1], keys[m - 1], a, n);
      } else {
        LostKept(cfg, ss[m - 1], ps[m - 1], ks[m - 1], a, n);
      }
    }
  }

  /** A keyframe that was not taken care of is kept with its flag. */
  lemma Missed(cfg: Config, s: State, p: Plan, k: Keys)
    requires Sound(p) && Aligned(s, k) && !Taken(cfg, s, p, k)
    ensures var s', k' := Apply(cfg, s, p), KeyStep(cfg, s, p, k, true);
      && k'.last && !Survives(s', k', |k.flags|, s.received) && Aligned(s', k') && |k.flags| <= |k'.flags|
      && s'.lastFrame.Some? && s'.lastFrame.value == s.received
  {
    hide Apply, KeyStep, Survives;
    KeyTakenIff(cfg, s, p, k);
    StepSent(cfg, s, p);
    StepFlags(cfg, s, p, k, true);
  }
}
