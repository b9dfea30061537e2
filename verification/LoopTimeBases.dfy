/**
 Stream looping when the streams of a file have different time bases: shifts are then
 rounded, to the time base of the last end and to that of each packet.
 */
module LoopTimeBases {
  import opened Wrappers
  import opened Rescale
  import opened Time
  import opened StreamLoop

  // ---------------------------------------------------------------- comparing times

  lemma EarlierIsLess(a: int, t: Rational, b: int, u: Rational)
    requires Positive(t) && Positive(u)
    ensures Earlier(a, t, b, u) <==> Sec(a, t) < Sec(b, u)
  {
    var w := OverOneDenominator(a, t, u);
    var v := OverOneDenominator(b, u, t);
    CancelLess(Sec(a, t), Sec(b, u), w);
  }

  // ---------------------------------------------------------------- one pass

  /** Every timestamp and every end is between B and E seconds, and no tick is longer than H. */
  ghost predicate Within(ps: seq<Packet>, audioDec: bool, B: real, E: real, H: real) {
    TimeBases(ps) && forall i | 0 <= i < |ps| :: PacketWithin(ps[i], audioDec, B, E, H)
  }

  predicate PacketWithin(p: Packet, audioDec: bool, B: real, E: real, H: real)
    requires Positive(p.tb)
  {
    p.duration >= 0 && Tick(p.tb) <= H &&
    (p.pts.Some? ==> B <= Sec(p.pts.value, p.tb) && Sec(p.pts.value + Counted(p, audioDec), p.tb) <= E)
  }

  /** The duration of the passes so far, in seconds. */
  ghost function Elapsed(s: State): real
    requires Valid(s)
  {
    Sec(s.duration, s.durationTb)
  }

  /** The bounds of all timestamps so far lie where they should. */
  ghost predicate BoundsWithin(s: State, B: real, U: real, H: real) {
    && Valid(s) && s.duration >= 0
    && (s.min.ts.Some? ==> Sec(s.min.ts.value, s.min.tb) >= B)
    && (s.max.ts.Some? ==> Tick(s.max.tb) <= H && Sec(s.max.ts.value, s.max.tb) <= U)
  }

  /** t comes later than s in a pass. */
  ghost predicate Extends(s: State, t: State) {
    && Valid(s) && Valid(t) && t.duration == s.duration && t.durationTb == s.durationTb
    && (s.min.ts.Some? ==> t.min.ts.Some? && Sec(t.min.ts.value, t.min.tb) <= Sec(s.min.ts.value, s.min.tb))
    && (s.max.ts.Some? ==> t.max.ts.Some? && Sec(t.max.ts.value, t.max.tb) >= Sec(s.max.ts.value, s.max.tb))
  }

  /** The shifted packet lies between the bounds. */
  ghost predicate Covers(s: State, p: Packet, audioDec: bool)
    requires Valid(s) && Positive(p.tb)
  {
    p.pts.Some? ==>
      var out := p.pts.value + Delay(s, p.tb);
      && s.min.ts.Some? && Sec(s.min.ts.value, s.min.tb) <= Sec(out, p.tb)
      && s.max.ts.Some? && Sec(out + Counted(p, audioDec), p.tb) <= Sec(s.max.ts.value, s.max.tb)
  }

  /** The delay of a packet: not negative, and the elapsed time up to half a tick. */
  lemma DelayNear(s: State, tb: Rational)
    requires Valid(s) && Positive(tb) && s.duration >= 0
    ensures Delay(s, tb) >= 0
    ensures -Tick(tb) <= 2.0 * (Sec(Delay(s, tb), tb) - Elapsed(s)) <= Tick(tb)
  {
    RescaledNear(s.duration, s.durationTb, tb);
    RescaledNotNegative(s.duration, s.durationTb, tb);
  }

  lemma FixedWithin(s: State, p: Packet, audioDec: bool, B: real, E: real, H: real)
    requires Valid(s) && Positive(p.tb) && BoundsWithin(s, B, E + Elapsed(s) + H / 2.0, H) &&
             PacketWithin(p, audioDec, B, E, H)
    ensures var t := Fixed(s, p, audioDec);
      BoundsWithin(t, B, E + Elapsed(s) + H / 2.0, H) && Extends(s, t) && Covers(t, p, audioDec)
  {
    hide RescaleQ, Earlier, Sec, Tick;
    DelayNear(s, p.tb);
    if p.pts.Some? {
      var d := Delay(s, p.tb);
      var out := p.pts.value + d;
      var end := out + Counted(p, audioDec);
      SecSum(p.pts.value, d, p.tb);
      SecSum(p.pts.value + Counted(p, audioDec), d, p.tb);
      SecNotNegative(d, p.tb);
      if s.max.ts.Some? {
        EarlierIsLess(s.max.ts.value, s.max.tb, end, p.tb);
      }
      if s.min.ts.Some? {
        EarlierIsLess(out, p.tb, s.min.ts.value, s.min.tb);
      }
    }
  }

  lemma CoversLater(s: State, t: State, p: Packet, audioDec: bool)
    requires Extends(s, t) && Positive(p.tb) && Covers(s, p, audioDec)
    ensures Covers(t, p, audioDec)
  {
    hide RescaleQ, Sec;
  }

  lemma {:induction false} PacketsWithin(s: State, ps: seq<Packet>, audioDec: bool, n: nat, B: real, E: real, H: real)
    requires Valid(s) && Within(ps, audioDec, B, E, H) && n <= |ps| && BoundsWithin(s, B, E + Elapsed(s) + H / 2.0, H)
    ensures var t := AfterPackets(s, ps, audioDec, n);
      && BoundsWithin(t, B, E + Elapsed(s) + H / 2.0, H) && Extends(s, t)
      && forall i | 0 <= i < n :: Covers(t, ps[i], audioDec)
  {
    hide RescaleQ, Sec, Tick, Fixed, Covers, PacketWithin;
    if n > 0 {
      PacketsWithin(s, ps, audioDec, n - 1, B, E, H);
      var t := AfterPackets(s, ps, audioDec, n - 1);
      FixedWithin(t, ps[n - 1], audioDec, B, E, H);
      forall i | 0 <= i < n - 1 ensures Covers(Fixed(t, ps[n - 1], audioDec), ps[i], audioDec) {
        CoversLater(t, Fixed(t, ps[n - 1], audioDec), ps[i], audioDec);
      }
    }
  }

  // ---------------------------------------------------------------- from pass to pass

  /** The decoders' end is not after E either, and its tick not longer than H. */
  predicate TailWithin(tail: Option<int>, tb: Rational, E: real, H: real) {
    Positive(tb) && (tail.Some? ==> Tick(tb) <= H && Sec(tail.value, tb) <= E)
  }

  /** Some timestamp is B, some end is E. */
  ghost predicate Attained(ps: seq<Packet>, audioDec: bool, tail: Option<int>, tb: Rational, B: real, E: real)
    requires TimeBases(ps) && Positive(tb)
  {
    && (exists i | 0 <= i < |ps| :: BeginsAt(ps[i], B))
    && ((tail.Some? && Sec(tail.value, tb) == E) || exists i | 0 <= i < |ps| :: EndsAt(ps[i], audioDec, E))
  }

  predicate BeginsAt(p: Packet, B: real)
    requires Positive(p.tb)
  {
    p.pts.Some? && Sec(p.pts.value, p.tb) == B
  }

  predicate EndsAt(p: Packet, audioDec: bool, E: real)
    requires Positive(p.tb)
  {
    p.pts.Some? && Sec(p.pts.value + Counted(p, audioDec), p.tb) == E
  }

  /** The packets and the decoders' end last from B to E, with ticks of at most H. */
  ghost predicate Lasts(ps: seq<Packet>, audioDec: bool, tail: Option<int>, tb: Rational, B: real, E: real, H: real) {
    Within(ps, audioDec, B, E, H) && TailWithin(tail, tb, E, H) && Attained(ps, audioDec, tail, tb, B, E)
  }

  /** At the start of pass k the elapsed time is k lengths, up to k ticks, and the end of the last pass less the
      beginning of the first, up to half a tick. */
  ghost predicate NearPass(s: State, B: real, E: real, H: real, k: nat) {
    && Valid(s) && s.duration >= 0
    && -(k as real * H) <= Elapsed(s) - k as real * (E - B) <= k as real * H
    && (k == 0 ==> s.min.ts.None? && s.max.ts.None? && s.duration == 0)
    && (k > 0 ==>
          && s.min.ts.Some? && Sec(s.min.ts.value, s.min.tb) == B
          && s.max.ts.Some? && Tick(s.max.tb) <= H
          && -H / 2.0 <= Elapsed(s) - (Sec(s.max.ts.value, s.max.tb) - B) <= H / 2.0)
  }

  /** A beginning and an end imply a length, not negative. */
  lemma LengthOfPass(ps: seq<Packet>, audioDec: bool, tail: Option<int>, tb: Rational, B: real, E: real, H: real)
    requires Lasts(ps, audioDec, tail, tb, B, E, H)
    ensures B <= E && 0.0 <= H
  {
    hide Sec, Tick;
    var i :| 0 <= i < |ps| && BeginsAt(ps[i], B);
    SecSum(ps[i].pts.value, Counted(ps[i], audioDec), ps[i].tb);
    SecNotNegative(Counted(ps[i], audioDec), ps[i].tb);
    TickPositive(ps[i].tb);
    assert PacketWithin(ps[i], audioDec, B, E, H);
  }

  lemma StartWithin(s: State, B: real, E: real, H: real, k: nat)
    requires NearPass(s, B, E, H, k) && B <= E
    ensures BoundsWithin(s, B, E + Elapsed(s) + H / 2.0, H)
  {
    hide Sec, Tick;
  }

  /** After the packets of a pass the first beginning is B still. */
  lemma MinAfterPass(s: State, t: State, ps: seq<Packet>, audioDec: bool, B: real, H: real, U: real, k: nat, E: real)
    requires NearPass(s, B, E, H, k) && TimeBases(ps) && BoundsWithin(t, B, U, H) && Extends(s, t)
    requires forall i | 0 <= i < |ps| :: Covers(t, ps[i], audioDec)
    requires exists i | 0 <= i < |ps| :: BeginsAt(ps[i], B)
    ensures t.min.ts.Some? && Sec(t.min.ts.value, t.min.tb) == B
  {
    hide Sec, Tick, RescaleQ;
    if k == 0 {
      var i :| 0 <= i < |ps| && BeginsAt(ps[i], B);
      assert Covers(t, ps[i], audioDec);
      RescaleZero(t.durationTb, ps[i].tb);
    }
  }

  /** What the decoders report does not make the bounds worse. */
  lemma RestartWithin(s: State, t: State, tail: Option<int>, tb: Rational, B: real, E: real, H: real)
    requires Valid(s) && Extends(s, t) && BoundsWithin(t, B, E + Elapsed(s) + H / 2.0, H) && TailWithin(tail, tb, E, H)
    requires t.min.ts.Some? && t.max.ts.Some?
    ensures var r := Restarted(t, EndOfPass(s, tail, tb));
      && Valid(r) && r.max.ts.Some? && Tick(r.max.tb) <= H && r.min == t.min
      && Sec(r.max.ts.value, r.max.tb) <= E + Elapsed(s) + H / 2.0
      && Sec(t.max.ts.value, t.max.tb) <= Sec(r.max.ts.value, r.max.tb)
      && (tail.Some? ==> Sec(tail.value + Delay(s, tb), tb) <= Sec(r.max.ts.value, r.max.tb))
      && r.durationTb == r.max.tb &&
         r.duration == r.max.ts.value - RescaleQ(r.min.ts.value, r.min.tb, r.max.tb, NearInf)
  {
    hide Sec, Tick, RescaleQ, Earlier;
    if tail.Some? {
      DelayNear(s, tb);
      var d := Delay(s, tb);
      SecSum(tail.value, d, tb);
      EarlierIsLess(t.max.ts.value, t.max.tb, tail.value + d, tb);
    }
  }

  /** The end of a pass is E later than its beginning, up to half a tick. */
  lemma EndOfPassNear(s: State, t: State, r: State, ps: seq<Packet>, audioDec: bool, tail: Option<int>, tb: Rational,
                      B: real, E: real, H: real)
    requires Lasts(ps, audioDec, tail, tb, B, E, H) && Valid(r) && Extends(s, t) && s.duration >= 0
    requires forall i | 0 <= i < |ps| :: Covers(t, ps[i], audioDec)
    requires t.max.ts.Some? && r.max.ts.Some? && Sec(t.max.ts.value, t.max.tb) <= Sec(r.max.ts.value, r.max.tb)
    requires tail.Some? ==> Sec(tail.value + Delay(s, tb), tb) <= Sec(r.max.ts.value, r.max.tb)
    ensures E + Elapsed(s) - H / 2.0 <= Sec(r.max.ts.value, r.max.tb)
  {
    hide Sec, Tick, RescaleQ;
    if tail.Some? && Sec(tail.value, tb) == E {
      DelayNear(s, tb);
      SecSum(tail.value, Delay(s, tb), tb);
    } else {
      var i :| 0 <= i < |ps| && EndsAt(ps[i], audioDec, E);
      assert Covers(t, ps[i], audioDec) && PacketWithin(ps[i], audioDec, B, E, H);
      DelayNear(s, ps[i].tb);
      SecSum(ps[i].pts.value + Counted(ps[i], audioDec), Delay(s, ps[i].tb), ps[i].tb);
    }
  }

  /** The duration taken over into the next pass. */
  lemma ElapsedNext(r: State, B: real, H: real)
    requires Valid(r) && r.min.ts.Some? && r.max.ts.Some? && Sec(r.min.ts.value, r.min.tb) == B && Tick(r.max.tb) <= H
    requires B <= Sec(r.max.ts.value, r.max.tb) && r.durationTb == r.max.tb
    requires r.duration == r.max.ts.value - RescaleQ(r.min.ts.value, r.min.tb, r.max.tb, NearInf)
    ensures r.duration >= 0 && -H / 2.0 <= Elapsed(r) - (Sec(r.max.ts.value, r.max.tb) - B) <= H / 2.0
  {
    hide Sec, Tick, RescaleQ;
    var x := RescaleQ(r.min.ts.value, r.min.tb, r.max.tb, NearInf);
    RescaledNear(r.min.ts.value, r.min.tb, r.max.tb);
    RescaledNotAfter(r.min.ts.value, r.min.tb, r.max.ts.value, r.max.tb);
    SecSum(r.max.ts.value, x, r.max.tb);
  }

  lemma OneMore(k: nat, x: real)
    ensures (k + 1) as real * x == k as real * x + x
  {
  }

  lemma NextPassNear(s: State, ps: seq<Packet>, tb: Rational, audioDec: bool, tail: Option<int>, k: nat,
                     B: real, E: real, H: real)
    requires Lasts(ps, audioDec, tail, tb, B, E, H) && NearPass(s, B, E, H, k)
    ensures NearPass(Restarted(AfterPackets(s, ps, audioDec, |ps|), EndOfPass(s, tail, tb)), B, E, H, k + 1)
  {
    hide Sec, Tick, RescaleQ, AfterPackets, Restarted, PacketWithin, Attained;
    LengthOfPass(ps, audioDec, tail, tb, B, E, H);
    StartWithin(s, B, E, H, k);
    RestartedNear(s, ps, tb, audioDec, tail, k, B, E, H);
    ElapsedNext(Restarted(AfterPackets(s, ps, audioDec, |ps|), EndOfPass(s, tail, tb)), B, H);
    OneMore(k, H);
    OneMore(k, E - B);
  }

  /** What the restart leaves: the first beginning is B still, and the latest end is where it should be. */
  lemma RestartedNear(s: State, ps: seq<Packet>, tb: Rational, audioDec: bool, tail: Option<int>, k: nat,
                      B: real, E: real, H: real)
    requires Lasts(ps, audioDec, tail, tb, B, E, H) && NearPass(s, B, E, H, k)
    requires BoundsWithin(s, B, E + Elapsed(s) + H / 2.0, H)
    ensures var r := Restarted(AfterPackets(s, ps, audioDec, |ps|), EndOfPass(s, tail, tb));
      && Valid(r) && r.min.ts.Some? && Sec(r.min.ts.value, r.min.tb) == B
      && r.max.ts.Some? && Tick(r.max.tb) <= H && B <= Sec(r.max.ts.value, r.max.tb)
      && -H / 2.0 <= Sec(r.max.ts.value, r.max.tb) - (E + Elapsed(s)) <= H / 2.0
      && r.durationTb == r.max.tb &&
         r.duration == r.max.ts.value - RescaleQ(r.min.ts.value, r.min.tb, r.max.tb, NearInf)
  {
    hide Sec, Tick, RescaleQ, AfterPackets, Covers, Restarted;
    PacketsWithin(s, ps, audioDec, |ps|, B, E, H);
    var t := AfterPackets(s, ps, audioDec, |ps|);
    MinAfterPass(s, t, ps, audioDec, B, H, E + Elapsed(s) + H / 2.0, k, E);
    MaxAfterPass(t, ps, audioDec, B, E, H);
    RestartWithin(s, t, tail, tb, B, E, H);
    EndOfPassNear(s, t, Restarted(t, EndOfPass(s, tail, tb)), ps, audioDec, tail, tb, B, E, H);
  }

  lemma MaxAfterPass(t: State, ps: seq<Packet>, audioDec: bool, B: real, E: real, H: real)
    requires Within(ps, audioDec, B, E, H) && Valid(t) && t.duration >= 0
    requires forall i | 0 <= i < |ps| :: Covers(t, ps[i], audioDec)
    requires exists i | 0 <= i < |ps| :: BeginsAt(ps[i], B)
    ensures t.max.ts.Some? && B <= Sec(t.max.ts.value, t.max.tb)
  {
    hide Sec, Tick, RescaleQ;
    var i :| 0 <= i < |ps| && BeginsAt(ps[i], B);
    var p := ps[i];
    assert Covers(t, p, audioDec) && PacketWithin(p, audioDec, B, E, H);
    DelayNear(t, p.tb);
    var d, c := Delay(t, p.tb), Counted(p, audioDec);
    SecSum(p.pts.value, d + c, p.tb);
    SecNotNegative(d + c, p.tb);
  }

  lemma {:induction false} EveryPassNear(loop: int, ps: seq<Packet>, tb: Rational, audioDec: bool, tail: Option<int>,
                                         k: nat, B: real, E: real, H: real)
    requires Lasts(ps, audioDec, tail, tb, B, E, H)
    ensures NearPass(AfterPasses(Initial(loop), ps, tb, audioDec, tail, k), B, E, H, k)
  {
    hide Restarted, NearPass, AfterPackets;
    if k == 0 {
      FirstPass(loop, B, E, H);
    } else {
      EveryPassNear(loop, ps, tb, audioDec, tail, k - 1, B, E, H);
      NextPassNear(AfterPasses(Initial(loop), ps, tb, audioDec, tail, k - 1), ps, tb, audioDec, tail, k - 1, B, E, H);
    }
  }

  lemma FirstPass(loop: int, B: real, E: real, H: real)
    ensures NearPass(Initial(loop), B, E, H, 0)
  {
  }

  // ---------------------------------------------------------------- all passes

  /** By how much packet n of pass k is moved, in its own ticks. */
  ghost function DelayOf(loop: int, ps: seq<Packet>, tb: Rational, audioDec: bool, tail: Option<int>, k: nat,
                         n: nat): int
    requires TimeBases(ps) && Positive(tb) && n < |ps|
  {
    Delay(AfterPackets(AfterPasses(Initial(loop), ps, tb, audioDec, tail, k), ps, audioDec, n), ps[n].tb)
  }

  lemma DelayOfPass(loop: int, ps: seq<Packet>, tb: Rational, audioDec: bool, tail: Option<int>, k: nat, n: nat)
    requires TimeBases(ps) && Positive(tb) && n < |ps|
    ensures DelayOf(loop, ps, tb, audioDec, tail, k, n) ==
            Delay(AfterPasses(Initial(loop), ps, tb, audioDec, tail, k), ps[n].tb)
  {
    hide RescaleQ, AfterPasses, Fixed;
  }

  /** With any time bases, packet n of pass k is the packet of the file moved by k lengths of a pass, up to k times
      the longest tick and half a tick of its own. */
  lemma LoopUnrollsNear(loop: int, ps: seq<Packet>, tb: Rational, audioDec: bool, tail: Option<int>, k: nat, n: nat,
                        B: real, E: real, H: real)
    requires Lasts(ps, audioDec, tail, tb, B, E, H) && n < |ps|
    ensures var d := Sec(DelayOf(loop, ps, tb, audioDec, tail, k, n), ps[n].tb);
      var error := k as real * H + Tick(ps[n].tb) / 2.0;
      -error <= d - k as real * (E - B) <= error
  {
    hide Sec, Tick, RescaleQ, AfterPasses, DelayOf;
    EveryPassNear(loop, ps, tb, audioDec, tail, k, B, E, H);
    DelayOfPass(loop, ps, tb, audioDec, tail, k, n);
    DelayNear(AfterPasses(Initial(loop), ps, tb, audioDec, tail, k), ps[n].tb);
  }

  /** What pass k leaves: no packet of it ends after the latest end. */
  lemma EndsInPass(s: State, ps: seq<Packet>, tb: Rational, audioDec: bool, tail: Option<int>, k: nat, i: nat,
                   B: real, E: real, H: real)
    requires Lasts(ps, audioDec, tail, tb, B, E, H) && NearPass(s, B, E, H, k) && i < |ps| && ps[i].pts.Some?
    ensures var r := Restarted(AfterPackets(s, ps, audioDec, |ps|), EndOfPass(s, tail, tb));
      && Valid(r) && r.max.ts.Some?
      && Sec(ps[i].pts.value + Delay(s, ps[i].tb) + Counted(ps[i], audioDec), ps[i].tb) <= Sec(r.max.ts.value, r.max.tb)
  {
    hide Sec, Tick, RescaleQ, AfterPackets, Restarted;
    LengthOfPass(ps, audioDec, tail, tb, B, E, H);
    StartWithin(s, B, E, H, k);
    PacketsWithin(s, ps, audioDec, |ps|, B, E, H);
    var t := AfterPackets(s, ps, audioDec, |ps|);
    assert Covers(t, ps[i], audioDec);
    RestartWithin(s, t, tail, tb, B, E, H);
  }

  /** However many passes there were, rounding does not add up between two of them: no packet of a pass begins more
      than one longest tick before a packet of the pass before it ends. */
  lemma PassesMeet(loop: int, ps: seq<Packet>, tb: Rational, audioDec: bool, tail: Option<int>, k: nat, i: nat, j: nat,
                   B: real, E: real, H: real)
    requires Lasts(ps, audioDec, tail, tb, B, E, H) && i < |ps| && j < |ps| && ps[i].pts.Some? && ps[j].pts.Some?
    ensures Sec(ps[i].pts.value + DelayOf(loop, ps, tb, audioDec, tail, k, i) + Counted(ps[i], audioDec), ps[i].tb)
            <= Sec(ps[j].pts.value + DelayOf(loop, ps, tb, audioDec, tail, k + 1, j), ps[j].tb) + H
  {
    hide Sec, Tick, RescaleQ, DelayOf, AfterPackets, Restarted;
    var s := AfterPasses(Initial(loop), ps, tb, audioDec, tail, k);
    EveryPassNear(loop, ps, tb, audioDec, tail, k, B, E, H);
    EveryPassNear(loop, ps, tb, audioDec, tail, k + 1, B, E, H);
    EndsInPass(s, ps, tb, audioDec, tail, k, i, B, E, H);
    DelayOfPass(loop, ps, tb, audioDec, tail, k, i);
    DelayOfPass(loop, ps, tb, audioDec, tail, k + 1, j);
    var r := AfterPasses(Initial(loop), ps, tb, audioDec, tail, k + 1);
    DelayNear(r, ps[j].tb);
    SecSum(ps[j].pts.value, Delay(r, ps[j].tb), ps[j].tb);
    assert PacketWithin(ps[j], audioDec, B, E, H);
  }
}
