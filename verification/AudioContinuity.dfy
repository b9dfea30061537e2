/**
 Frames that come with timestamps, in a time base coarser than their samples: the audio clock keeps
 counting samples as long as the timestamps agree with the count.
 */
module AudioContinuity {
  import opened Wrappers
  import opened BinaryGcd
  import opened Rescale
  import opened AudioClock

  /** One tick of inTb is B / C ticks of tb. */
  function TickNum(inTb: Rational, tb: Rational): int {
    inTb.num * tb.den
  }

  function TickDen(inTb: Rational, tb: Rational): int {
    tb.num * inTb.den
  }

  /** The stamp ts, in ticks of inTb, is next to the time m, in ticks of tb. */
  predicate StampsAt(ts: int, inTb: Rational, m: int, tb: Rational) {
    var B, C := TickNum(inTb, tb), TickDen(inTb, tb);
    -B <= 2 * (ts * B - m * C) <= B
  }

  predicate Coarser(inTb: Rational, tb: Rational) {
    TickNum(inTb, tb) > TickDen(inTb, tb)
  }

  // ---------------------------------------------------------------- staying at the mark

  lemma DoubledBounds(ts: int, m: int, B: int, C: int)
    requires B > 0 && C > 0 && -B <= 2 * (ts * B - m * C) <= B
    ensures (2 * ts - 1) * B <= (2 * m) * C <= (2 * ts + 1) * B
  {
    Doubled(ts, B);
    assert (2 * m) * C == 2 * (m * C);
  }

  lemma HalfBounds(x: int, y: int, m: int)
    requires x <= 2 * m <= y
    ensures x / 2 <= m <= (y + 1) / 2
  {
  }

  /** The clip range holds every time that the stamp may stand for. */
  lemma InRange(ts: int, inTb: Rational, m: int, tb: Rational)
    requires Positive(inTb) && Positive(tb) && StampsAt(ts, inTb, m, tb)
    ensures RescaleQ(2 * ts - 1, inTb, tb, Down) / 2 <= m <= (RescaleQ(2 * ts + 1, inTb, tb, Up) + 1) / 2
  {
    hide RescaleRnd;
    var B, C := inTb.num * tb.den, tb.num * inTb.den;
    assert B > 0 && C > 0;
    DoubledBounds(ts, m, B, C);
    RescaleDownUp(2 * ts - 1, B, C);
    RescaleDownUp(2 * ts + 1, B, C);
    var x, y := RescaleRnd(2 * ts - 1, B, C, Down), RescaleRnd(2 * ts + 1, B, C, Up);
    Cancel(x, 2 * m, C);
    Cancel(2 * m, y, C);
    HalfBounds(x, y, m);
  }

  /** A coarse stamp next to the mark is placed exactly at the mark, in any time base. */
  lemma StaysAtMark(inTb: Rational, ts: int, duration: nat, mark: int, tb: Rational)
    requires Positive(inTb) && Positive(tb) && duration > 0 && Coarser(inTb, tb) && StampsAt(ts, inTb, mark, tb)
    ensures RescaleDelta(inTb, ts, tb, duration, Some(mark), tb) == (mark, mark + duration)
  {
    hide RescaleQ;
    InRange(ts, inTb, mark, tb);
    RescaleToSelf(mark, tb);
  }

  /** The samples around a stamp: a is the last one not after the time half a tick before it, b the first one not
      before the time half a tick after it. */
  predicate Around(ts: int, inTb: Rational, tb: Rational, a: int, b: int) {
    var B, C := TickNum(inTb, tb), TickDen(inTb, tb);
    && a * (2 * C) <= 2 * (ts * B) - B < a * (2 * C) + 2 * C
    && b * (2 * C) - 2 * C < 2 * (ts * B) + B <= b * (2 * C)
  }

  lemma HalfFloor(x: int, n: int, c: int)
    requires c > 0 && 0 <= n - x * c < c
    ensures x / 2 * (2 * c) <= n < x / 2 * (2 * c) + 2 * c
  {
    var h := x / 2;
    assert h * (2 * c) == (2 * h) * c;
    assert x == 2 * h || x == 2 * h + 1;
    assert (2 * h + 1) * c == (2 * h) * c + c;
  }

  lemma HalfCeiling(y: int, n: int, c: int)
    requires c > 0 && 0 <= y * c - n < c
    ensures (y + 1) / 2 * (2 * c) - 2 * c < n <= (y + 1) / 2 * (2 * c)
  {
    var h := (y + 1) / 2;
    assert h * (2 * c) == (2 * h) * c;
    assert y == 2 * h || y == 2 * h - 1;
    assert (2 * h - 1) * c == (2 * h) * c - c;
  }

  lemma ClipBounds(ts: int, inTb: Rational, tb: Rational)
    requires Positive(inTb) && Positive(tb)
    ensures Around(ts, inTb, tb, RescaleQ(2 * ts - 1, inTb, tb, Down) / 2, (RescaleQ(2 * ts + 1, inTb, tb, Up) + 1) / 2)
  {
    hide RescaleRnd;
    var B, C := inTb.num * tb.den, tb.num * inTb.den;
    assert B > 0 && C > 0;
    Doubled(ts, B);
    RescaleDownUp(2 * ts - 1, B, C);
    RescaleDownUp(2 * ts + 1, B, C);
    HalfFloor(RescaleRnd(2 * ts - 1, B, C, Down), (2 * ts - 1) * B, C);
    HalfCeiling(RescaleRnd(2 * ts + 1, B, C, Up), (2 * ts + 1) * B, C);
  }

  /** A mark that does not agree with a coarse stamp: no further from the samples around the stamp than these are
      apart, it is drawn to the nearest of them; beyond that the stamp alone counts. */
  lemma DrawnToStamp(inTb: Rational, ts: int, duration: nat, mark: int, tb: Rational) returns (a: int, b: int)
    requires Positive(inTb) && Positive(tb) && duration > 0 && Coarser(inTb, tb)
    ensures Around(ts, inTb, tb, a, b)
    ensures var (place, next) := RescaleDelta(inTb, ts, tb, duration, Some(mark), tb);
      && next == place + duration
      && (a <= mark <= b ==> place == mark)
      && (a - (b - a) <= mark < a ==> place == a)
      && (b < mark <= b + (b - a) ==> place == b)
      && (mark < a - (b - a) || mark > b + (b - a) ==>
            -TickDen(inTb, tb) <= 2 * (place * TickDen(inTb, tb) - ts * TickNum(inTb, tb)) <= TickDen(inTb, tb))
  {
    a, b := RescaleQ(2 * ts - 1, inTb, tb, Down) / 2, (RescaleQ(2 * ts + 1, inTb, tb, Up) + 1) / 2;
    ClipBounds(ts, inTb, tb);
    RangeOrdered(ts, inTb, tb);
    assert inTb.num * tb.den > 0 && tb.num * inTb.den > 0;
    RescaleNear(ts, inTb.num * tb.den, tb.num * inTb.den);
    assert RescaleQ(ts, inTb, tb, NearInf) == RescaleRnd(ts, inTb.num * tb.den, tb.num * inTb.den, NearInf);
    hide RescaleQ, RescaleRnd, Around;
    RescaleToSelf(mark, tb);
    RescaleToSelf(a, tb);
    RescaleToSelf(b, tb);
  }

  /** Such a stamp is no gap: it is not after the mark, rounded up to its own ticks. */
  lemma NoGap(ts: int, inTb: Rational, m: int, tb: Rational)
    requires Positive(inTb) && Positive(tb) && StampsAt(ts, inTb, m, tb)
    ensures ts <= RescaleQ(m, tb, inTb, Up)
  {
    hide RescaleRnd;
    var B, C := inTb.num * tb.den, tb.num * inTb.den;
    assert B > 0 && C > 0;
    RescaleDownUp(m, C, B);
    var r := RescaleRnd(m, C, B, Up);
    HalfAbove(ts, r, m * C, B);
  }

  lemma HalfAbove(ts: int, r: int, x: int, B: int)
    requires B > 0 && 2 * (ts * B - x) <= B && x <= r * B
    ensures ts <= r
  {
    var d := ts - r;
    assert d * B == ts * B - r * B;
    assert d >= 1 ==> d * B >= B;
  }

  // ---------------------------------------------------------------- counting samples

  /** The clock ticks once per sample, and the mark is where the last frame ended. */
  predicate CountsSamples(s: State, rate: int) {
    && 0 < rate <= INT_MAX && s.tb == Rational(1, rate) && s.rate == rate
    && s.pts.Some? && s.rescaleDelta == Some(Predicted(s))
  }

  /** A frame whose stamp, in ticks longer than a sample, is next to the sample m. */
  predicate StampedAt(f: Frame, rate: int, m: int) {
    Decoded(f) && f.rate == rate && f.nbSamples > 0 && f.pts.Some? && Coarser(f.tb, Rational(1, rate)) &&
    StampsAt(f.pts.value, f.tb, m, Rational(1, rate))
  }

  lemma SamplesAreTicks(n: int, rate: int)
    requires rate > 0
    ensures RescaleQ(n, Rational(1, rate), Rational(1, rate), NearInf) == n
  {
    RescaleToSelf(n, Rational(1, rate));
  }

  /** A frame stamped next to the sample count is placed exactly at it. */
  lemma TimedStep(s: State, f: Frame, rate: int)
    requires CountsSamples(s, rate) && StampedAt(f, rate, Predicted(s))
    ensures var s', out := Processed(s, f).0, Processed(s, f).1;
      && CountsSamples(s', rate) && s'.pts == Some(Predicted(s)) && Predicted(s') == Predicted(s) + f.nbSamples
      && out == Predicted(s)
  {
    hide RescaleQ, RescaleDelta;
    assert Updated(s, f) == s;
    NoGap(f.pts.value, f.tb, Predicted(s), s.tb);
    StaysAtMark(f.tb, f.pts.value, f.nbSamples, Predicted(s), s.tb);
    SamplesAreTicks(f.nbSamples, rate);
    SamplesAreTicks(Predicted(s), rate);
  }

  /** Samples in the first n frames. */
  function Samples(fs: seq<Frame>, n: nat): nat
    requires n <= |fs|
  {
    if n == 0 then 0 else Samples(fs, n - 1) + fs[n - 1].nbSamples
  }

  /** Frame i is stamped next to the samples before it, counted from m. */
  predicate InTurn(fs: seq<Frame>, rate: int, m: int, i: nat)
    requires i < |fs|
  {
    StampedAt(fs[i], rate, m + Samples(fs, i))
  }

  lemma RunStep(ss: seq<State>, fs: seq<Frame>, i: nat)
    requires Run(ss, fs) && i < |fs|
    ensures Positive(ss[i].tb) && Decoded(fs[i]) && ss[i + 1] == Processed(ss[i], fs[i]).0
  {
    hide Processed;
  }

  lemma {:induction false} CountAt(ss: seq<State>, fs: seq<Frame>, rate: int, m: int, n: nat)
    requires Run(ss, fs) && CountsSamples(ss[0], rate) && Predicted(ss[0]) == m && n <= |fs|
    requires forall i | 0 <= i < |fs| :: InTurn(fs, rate, m, i)
    ensures CountsSamples(ss[n], rate) && Predicted(ss[n]) == m + Samples(fs, n)
    decreases n
  {
    hide *;
    if n == 0 {
      NoSamples(fs);
    } else {
      CountAt(ss, fs, rate, m, n - 1);
      PlacedAt(ss, fs, rate, m, n - 1);
      MoreSamples(fs, n);
    }
  }

  lemma NoSamples(fs: seq<Frame>)
    ensures Samples(fs, 0) == 0
  {
  }

  lemma MoreSamples(fs: seq<Frame>, n: nat)
    requires 0 < n <= |fs|
    ensures Samples(fs, n) == Samples(fs, n - 1) + fs[n - 1].nbSamples
  {
  }

  lemma PlacedAt(ss: seq<State>, fs: seq<Frame>, rate: int, m: int, n: nat)
    requires Run(ss, fs) && n < |fs| && CountsSamples(ss[n], rate) && Predicted(ss[n]) == m + Samples(fs, n)
    requires InTurn(fs, rate, m, n)
    ensures CountsSamples(ss[n + 1], rate) && ss[n + 1].pts == Some(m + Samples(fs, n))
    ensures Predicted(ss[n + 1]) == m + Samples(fs, n) + fs[n].nbSamples
  {
    RunStep(ss, fs, n);
    hide Processed, Run, Samples, StampedAt, CountsSamples, Predicted;
    TimedStep(ss[n], fs[n], rate);
  }

  /** Continuity: over any run of frames at one rate whose coarse stamps are each next to the running sample count m,
      every frame is placed exactly where the last one ended, and handed on so. */
  lemma TimedContinuity(ss: seq<State>, fs: seq<Frame>, rate: int, m: int, n: nat)
    requires Run(ss, fs) && CountsSamples(ss[0], rate) && Predicted(ss[0]) == m && n < |fs|
    requires forall i | 0 <= i < |fs| :: InTurn(fs, rate, m, i)
    ensures ss[n + 1].pts == Some(m + Samples(fs, n)) && Predicted(ss[n + 1]) == m + Samples(fs, n + 1)
    ensures Positive(ss[n].tb) && Decoded(fs[n]) && Processed(ss[n], fs[n]).1 == m + Samples(fs, n)
  {
    RunStep(ss, fs, n);
    hide Processed, Run, StampedAt, CountsSamples, Predicted;
    CountAt(ss, fs, rate, m, n);
    PlacedAt(ss, fs, rate, m, n);
    TimedStep(ss[n], fs[n], rate);
  }

  // ---------------------------------------------------------------- the first frame, gaps and finer stamps

  /** No frame so far. */
  predicate Fresh(s: State) {
    s == State(None, 0, Rational(1, 1), None, 0)
  }

  lemma GcdOne(rate: nat)
    requires rate > 0
    ensures Gcd(1, rate) == 1
  {
    GcdDivides(1, rate);
    DivisorAtMost(Gcd(1, rate), 1);
  }

  /** The first frame, with a coarse stamp, starts the count at the sample next to that stamp. */
  lemma FirstTimed(s: State, f: Frame)
    requires Fresh(s) && Decoded(f) && f.rate < INT_MAX / 2 && f.pts.Some? && Coarser(f.tb, Rational(1, f.rate))
    ensures var s' := Processed(s, f).0;
      && CountsSamples(s', f.rate)
      && StampsNear(s'.pts.value, Rational(1, f.rate), f.pts.value, f.tb)
      && Predicted(s') == s'.pts.value + f.nbSamples
  {
    GcdOne(f.rate);
    FreshBase(s, f);
    hide RescaleRnd, Updated;
    var tb := Rational(1, f.rate);
    RescaleNear(f.pts.value, f.tb.num * tb.den, tb.num * f.tb.den);
    SamplesAreTicks(f.nbSamples, f.rate);
  }

  lemma FreshBase(s: State, f: Frame)
    requires Fresh(s) && Decoded(f) && f.rate < INT_MAX / 2 && Coarser(f.tb, Rational(1, f.rate))
    requires Gcd(1, f.rate) == 1
    ensures Updated(s, f) == s.(tb := Rational(1, f.rate), rate := f.rate)
  {
    FirstBase(f.rate);
    hide Overflows, BaseDen, Gcd, INT_MAX;
    assert f.tb.num == 1 ==> f.tb.den < f.rate;
    assert RescaleRnd(0, 1 * f.rate, 1, NearInf) == 0;
  }

  /** The first rate is a time base by itself. */
  lemma FirstBase(rate: int)
    requires 0 < rate < INT_MAX / 2 && Gcd(1, rate) == 1
    ensures BaseDen(1, rate) == rate
  {
    hide Gcd;
    assert 1 / 1 == 1 && 1 * rate == rate;
    assert INT_MAX / rate >= 2;
  }

  /** The time m in ticks of tb is next to the stamp ts in ticks of inTb. */
  predicate StampsNear(m: int, tb: Rational, ts: int, inTb: Rational) {
    var B, C := TickNum(inTb, tb), TickDen(inTb, tb);
    -C <= 2 * (m * C - ts * B) <= C
  }

  /** After a gap the count starts afresh, at the time next to the stamp. */
  lemma GapRestarts(s: State, f: Frame)
    requires Positive(s.tb) && Decoded(f) && f.pts.Some? && f.rate == s.rate && s.pts.Some?
    requires f.pts.value > RescaleQ(Predicted(s), s.tb, f.tb, Up)
    ensures var s' := Processed(s, f).0;
      s'.pts.Some? && s'.tb == s.tb && StampsNear(s'.pts.value, s.tb, f.pts.value, f.tb)
  {
    hide RescaleRnd;
    assert f.tb.num * s.tb.den > 0 && s.tb.num * f.tb.den > 0;
    RescaleNear(f.pts.value, f.tb.num * s.tb.den, s.tb.num * f.tb.den);
  }

  /** A stamp that is no coarser than the clock is taken at its word. */
  lemma FineStamp(s: State, f: Frame)
    requires Positive(s.tb) && Decoded(f) && f.pts.Some? && f.rate == s.rate && !Coarser(f.tb, s.tb)
    ensures var s' := Processed(s, f).0;
      s'.pts.Some? && s'.tb == s.tb && StampsNear(s'.pts.value, s.tb, f.pts.value, f.tb)
  {
    hide RescaleRnd;
    assert f.tb.num * s.tb.den > 0 && s.tb.num * f.tb.den > 0;
    RescaleNear(f.pts.value, f.tb.num * s.tb.den, s.tb.num * f.tb.den);
  }

  /** The timestamp handed on is a sample next to the place, for every frame. */
  lemma SampleHandedOn(s: State, f: Frame)
    requires Positive(s.tb) && Decoded(f)
    ensures var s', out := Processed(s, f).0, Processed(s, f).1;
      s'.pts.Some? && Positive(s'.tb) && StampsNear(out, Rational(1, f.rate), s'.pts.value, s'.tb)
  {
    hide RescaleRnd, Updated, RescaleDelta;
    UpdatedTimeBase(s, f);
    var s' := Processed(s, f).0;
    assert s'.tb.num * f.rate > 0;
    RescaleNear(s'.pts.value, s'.tb.num * f.rate, 1 * s'.tb.den);
  }

  /** A rate change on a frame whose own time base is finer and compatible: the clock takes over that time base. */
  lemma FinerBaseKept(s: State, f: Frame) returns (lcm: int)
    requires Inv(s) && Decoded(f) && f.rate != s.rate && Representable(s, f)
    ensures lcm > 0 && lcm * Gcd(s.tb.den, f.rate) == s.tb.den * f.rate
    ensures Updated(s, f).tb ==
            if f.tb.num == 1 && f.tb.den > lcm && f.tb.den % lcm == 0 then f.tb else Rational(1, lcm)
  {
    hide RescaleQ;
    GcdDivides(s.tb.den, f.rate);
    BaseDenPositive(s.tb.den, f.rate);
    var g := Gcd(s.tb.den, f.rate);
    var p := s.tb.den / g;
    lcm := p * f.rate;
    assert s.tb.den == p * g;
    Rearranged(p, f.rate, g);
  }

  lemma Rearranged(p: int, r: int, g: int)
    ensures (p * r) * g == (p * g) * r
  {
  }

  /** The fallback time base is fine enough for the usual sample rates. */
  lemma FallbackCovers(rate: int)
    requires rate in {8000, 11025, 16000, 22050, 32000, 44100, 48000, 88200, 96000, 176400, 192000}
    ensures FALLBACK_DEN % rate == 0
  {
  }

  /** The stated stamps at 44100 Hz in milliseconds: the frame at 23 ms is placed at sample 1024, where the last one
      ended. */
  lemma MillisecondStamps()
    ensures var s := State(Some(0), 1024, Rational(1, 44100), Some(1024), 44100);
      Processed(s, Frame(Some(23), Rational(1, 1000), 44100, 1024)).0.pts == Some(1024)
  {
    var s := State(Some(0), 1024, Rational(1, 44100), Some(1024), 44100);
    TimedStep(s, Frame(Some(23), Rational(1, 1000), 44100, 1024), 44100);
  }
}
