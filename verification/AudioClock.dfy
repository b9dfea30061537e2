/**
 The decoder's audio clock. Timestamps are kept in a time base fine enough for
 every sample rate seen so far, so that predicted timestamps do not drift.
 */
module AudioClock {
  import opened Wrappers
  import opened BinaryGcd
  import opened Rescale

  const INT_MAX: int := 0x7fff_ffff

  /** LCM of 192000 and 44100. */
  const FALLBACK_DEN: int := 28224000

  datatype Frame = Frame(pts: Option<int>, tb: Rational, rate: int, nbSamples: nat)

  /** What remains of the last frame, and the running state of the rescaling. */
  datatype State = State(pts: Option<int>, durationEst: int, tb: Rational, rescaleDelta: Option<int>, rate: int)

  predicate Decoded(f: Frame) {
    Positive(f.tb) && f.tb.den <= INT_MAX && 0 < f.rate <= INT_MAX
  }

  /** No common time base of the old one and the new rate fits in an int. */
  predicate Overflows(den: int, rate: int)
    requires den > 0 && rate > 0
  {
    GcdDivides(den, rate);
    den / Gcd(den, rate) >= INT_MAX / rate
  }

  function BaseDen(den: int, rate: int): int
    requires den > 0 && rate > 0
  {
    GcdDivides(den, rate);
    if Overflows(den, rate) then FALLBACK_DEN else den / Gcd(den, rate) * rate
  }

  /** The frame's own time base is kept if it is finer and compatible. */
  function NewTimeBase(den: int, f: Frame): Rational
    requires den > 0 && f.rate > 0
  {
    BaseDenPositive(den, f.rate);
    var base := BaseDen(den, f.rate);
    if f.tb.num == 1 && f.tb.den > base && f.tb.den % base == 0 then f.tb else Rational(1, base)
  }

  function Updated(s: State, f: Frame): State
    requires Positive(s.tb) && Decoded(f)
  {
    if f.rate == s.rate then s
    else
      var tb := NewTimeBase(s.tb.den, f);
      BaseDenPositive(s.tb.den, f.rate);
      s.(pts := if s.pts.Some? then Some(RescaleQ(s.pts.value, s.tb, tb, NearInf)) else None,
         durationEst := RescaleQ(s.durationEst, s.tb, tb, NearInf), tb := tb, rate := f.rate)
  }

  /** The timestamp the next frame gets if it has none, in the current time base. */
  function Predicted(s: State): int {
    if s.pts.Some? then s.pts.value + s.durationEst else 0
  }

  /** av_rescale_delta: rescale while staying continuous with the last call. */
  function RescaleDelta(inTb: Rational, inTs: int, fsTb: Rational, duration: nat, last: Option<int>,
                        outTb: Rational): (int, int)
    requires Positive(inTb) && Positive(fsTb) && Positive(outTb)
  {
    var simple := (RescaleQ(inTs, inTb, outTb, NearInf), RescaleQ(inTs, inTb, fsTb, NearInf) + duration);
    if last.None? || duration == 0 || inTb.num * outTb.den <= outTb.num * inTb.den then simple
    else
      var a := RescaleQ(2 * inTs - 1, inTb, fsTb, Down) / 2;
      var b := (RescaleQ(2 * inTs + 1, inTb, fsTb, Up) + 1) / 2;
      if last.value < 2 * a - b || last.value > 2 * b - a then simple
      else
        var ts := if last.value < a then a else if last.value > b then b else last.value;
        (RescaleQ(ts, fsTb, outTb, NearInf), ts + duration)
  }

  /** The state after a frame, and the frame's timestamp in units of its sample rate. */
  function Processed(s: State, f: Frame): (State, int)
    requires Positive(s.tb) && Decoded(f)
  {
    UpdatedTimeBase(s, f);
    var s1 := Updated(s, f);
    var gap := f.pts.Some? && s1.pts.Some? && f.pts.value > RescaleQ(Predicted(s1), s1.tb, f.tb, Up);
    var inTb := if f.pts.Some? then f.tb else s1.tb;
    var inTs := if f.pts.Some? then f.pts.value else Predicted(s1);
    var (ts, delta) := RescaleDelta(inTb, inTs, s1.tb, f.nbSamples, if gap then None else s1.rescaleDelta, s1.tb);
    var filterTb := Rational(1, f.rate);
    (s1.(pts := Some(ts), durationEst := RescaleQ(f.nbSamples, filterTb, s1.tb, NearInf), rescaleDelta := Some(delta)),
     RescaleQ(ts, s1.tb, filterTb, NearInf))
  }

  lemma PositiveFactor(p: int, g: int)
    requires g > 0 && p * g > 0
    ensures p > 0
  {
    assert p <= 0 ==> p * g <= 0;
  }

  lemma BaseDenPositive(den: int, rate: int)
    requires den > 0 && rate > 0
    ensures BaseDen(den, rate) > 0
  {
    GcdDivides(den, rate);
    var g := Gcd(den, rate);
    var p := den / g;
    assert p * g == den;
    PositiveFactor(p, g);
    assert p * rate > 0;
  }

  lemma UpdatedTimeBase(s: State, f: Frame)
    requires Positive(s.tb) && Decoded(f)
    ensures Positive(Updated(s, f).tb)
  {
    if f.rate != s.rate {
      BaseDenPositive(s.tb.den, f.rate);
    }
  }

  // ---------------------------------------------------------------- the time base

  /** The time base is a whole fraction of a second that fits and suits the current rate. */
  predicate Inv(s: State) {
    s.tb.num == 1 && 0 < s.tb.den <= INT_MAX && s.rate >= 0 && (s.rate > 0 ==> s.tb.den % s.rate == 0)
  }

  /** The frame forces no loss of precision. */
  predicate Representable(s: State, f: Frame)
    requires s.tb.den > 0 && f.rate > 0
  {
    f.rate == s.rate || !Overflows(s.tb.den, f.rate)
  }

  lemma LcmIsCommonMultiple(den: int, rate: int)
    requires den > 0 && 0 < rate <= INT_MAX && !Overflows(den, rate)
    ensures var m := BaseDen(den, rate); 0 < m <= INT_MAX && m % den == 0 && m % rate == 0
  {
    GcdDivides(den, rate);
    BaseDenPositive(den, rate);
    var g := Gcd(den, rate);
    var p, q, m := den / g, rate / g, den / g * rate;
    MultipleMod(p, rate);
    assert den == p * g && rate == q * g;
    assert p * (q * g) == q * (p * g);
    MultipleMod(q, den);
    FitsBelow(p, INT_MAX, rate);
  }

  lemma FitsBelow(p: int, max: int, rate: int)
    requires rate > 0 && p < max / rate && max >= 0
    ensures p * rate <= max
  {
    assert max / rate * rate <= max;
    assert p * rate <= max / rate * rate;
  }

  lemma UpdateKeepsInv(s: State, f: Frame)
    requires Inv(s) && Decoded(f) && Representable(s, f)
    ensures var s1 := Updated(s, f);
      Inv(s1) && s1.rate == f.rate && s1.tb.den % s.tb.den == 0
  {
    if f.rate == s.rate {
      MultipleMod(1, s.tb.den);
    } else {
      LcmIsCommonMultiple(s.tb.den, f.rate);
      var base, tb := BaseDen(s.tb.den, f.rate), NewTimeBase(s.tb.den, f);
      MultipleMod(1, base);
      assert tb.den % base == 0;
      DividesTransitive(f.rate, base, tb.den);
      DividesTransitive(s.tb.den, base, tb.den);
    }
  }

  /** ss[n] is the state before frame n. */
  predicate Run(ss: seq<State>, fs: seq<Frame>) {
    |ss| == |fs| + 1 && forall n | 0 <= n < |fs| ::
      Positive(ss[n].tb) && Decoded(fs[n]) && ss[n + 1] == Processed(ss[n], fs[n]).0
  }

  predicate NoOverflow(ss: seq<State>, fs: seq<Frame>) {
    forall n | 0 <= n < |fs| && n < |ss| :: ss[n].tb.den > 0 && fs[n].rate > 0 && Representable(ss[n], fs[n])
  }

  lemma {:induction false} RunKeepsInv(ss: seq<State>, fs: seq<Frame>, n: nat)
    requires Run(ss, fs) && NoOverflow(ss, fs) && Inv(ss[0]) && n <= |fs|
    ensures Inv(ss[n])
  {
    if n > 0 {
      RunKeepsInv(ss, fs, n - 1);
      UpdateKeepsInv(ss[n - 1], fs[n - 1]);
    }
  }

  /** As long as the fallback is not taken, the denominator fits in an int and is a common
      multiple of every sample rate seen, whatever timestamps the frames carry. */
  lemma {:induction false} CommonMultiple(ss: seq<State>, fs: seq<Frame>, n: nat, k: nat)
    requires Run(ss, fs) && NoOverflow(ss, fs) && Inv(ss[0]) && k < n <= |fs|
    ensures ss[n].tb.den <= INT_MAX && ss[n].tb.den % fs[k].rate == 0
  {
    RunKeepsInv(ss, fs, n - 1);
    UpdateKeepsInv(ss[n - 1], fs[n - 1]);
    if k < n - 1 {
      CommonMultiple(ss, fs, n - 1, k);
      DividesTransitive(fs[k].rate, ss[n - 1].tb.den, ss[n].tb.den);
    }
  }

  // ---------------------------------------------------------------- exact time

  /** A timestamp in seconds. */
  function Seconds(ts: int, den: int): real
    requires den > 0
  {
    ts as real / den as real
  }

  lemma SameSeconds(ts: int, den: int, k: int)
    requires den > 0 && k > 0
    ensures k * den > 0 && Seconds(ts * k, k * den) == Seconds(ts, den)
  {
    var t, d, q := ts as real, den as real, k as real;
    assert (ts * k) as real == t * q && (k * den) as real == q * d;
    assert t == (t / d) * d;
    assert (t / d) * (q * d) == t * q;
  }

  /** Moving a timestamp to a finer compatible time base is exact. */
  lemma RescaleKeepsTime(ts: int, den: int, finer: int)
    requires den > 0 && finer > 0 && finer % den == 0
    ensures Seconds(RescaleQ(ts, Rational(1, den), Rational(1, finer), NearInf), finer) == Seconds(ts, den)
  {
    var k := finer / den;
    assert finer == k * den;
    assert k <= 0 ==> k * den <= 0;
    assert ts * (1 * finer) == (ts * k) * (1 * den);
    RescaleWhole(ts, 1 * finer, 1 * den, ts * k);
    SameSeconds(ts, den, k);
  }

  /** ... and only then: a time base that is not a multiple loses timestamps. */
  lemma RescaleExactIff(den: int, other: int)
    requires den > 0 && other > 0
    ensures (forall ts: int ::
              Seconds(RescaleQ(ts, Rational(1, den), Rational(1, other), NearInf), other) == Seconds(ts, den))
            <==> other % den == 0
  {
    if other % den == 0 {
      forall ts: int
        ensures Seconds(RescaleQ(ts, Rational(1, den), Rational(1, other), NearInf), other) == Seconds(ts, den)
      {
        RescaleKeepsTime(ts, den, other);
      }
    } else if Seconds(RescaleQ(1, Rational(1, den), Rational(1, other), NearInf), other) == Seconds(1, den) {
      WholeRatio(RescaleQ(1, Rational(1, den), Rational(1, other), NearInf), den, other);
    }
  }

  lemma CrossMultiply(r: real, o: real, d: real)
    requires o > 0.0 && d > 0.0 && r / o == 1.0 / d
    ensures r * d == o
  {
    var q := r / o;
    assert q * o == r && q * d == 1.0;
    assert (q * o) * d == (q * d) * o;
  }

  lemma WholeRatio(r: int, den: int, other: int)
    requires den > 0 && other > 0 && Seconds(r, other) == Seconds(1, den)
    ensures other % den == 0
  {
    CrossMultiply(r as real, other as real, den as real);
    assert (r * den) as real == r as real * den as real;
    assert r * den == other;
    MultipleMod(r, den);
  }

  /** When the next frame is due. */
  function Due(s: State): real
    requires s.tb.den > 0
  {
    Seconds(Predicted(s), s.tb.den)
  }

  /** Seconds of audio in the first n frames: the exact sum of samples over rate. */
  function Played(fs: seq<Frame>, n: nat): real
    requires n <= |fs| && forall i | 0 <= i < |fs| :: fs[i].rate > 0
  {
    if n == 0 then 0.0 else Played(fs, n - 1) + Seconds(fs[n - 1].nbSamples, fs[n - 1].rate)
  }

  lemma SumSeconds(a: int, b: int, den: int)
    requires den > 0
    ensures Seconds(a + b, den) == Seconds(a, den) + Seconds(b, den)
  {
    var d := den as real;
    assert (a + b) as real == a as real + b as real;
  }

  lemma UpdateKeepsDue(s: State, f: Frame)
    requires Inv(s) && Decoded(f) && Representable(s, f)
    ensures Positive(Updated(s, f).tb) && Due(Updated(s, f)) == Due(s)
  {
    UpdateKeepsInv(s, f);
    var s1 := Updated(s, f);
    if f.rate != s.rate && s.pts.Some? {
      assert s.tb == Rational(1, s.tb.den) && s1.tb == Rational(1, s1.tb.den);
      RescaleKeepsTime(s.pts.value, s.tb.den, s1.tb.den);
      RescaleKeepsTime(s.durationEst, s.tb.den, s1.tb.den);
      SumSeconds(s.pts.value, s.durationEst, s.tb.den);
      SumSeconds(s1.pts.value, s1.durationEst, s1.tb.den);
    }
  }

  lemma RescaleToSelf(ts: int, tb: Rational)
    requires Positive(tb)
    ensures RescaleQ(ts, tb, tb, NearInf) == ts
  {
    var b := tb.num * tb.den;
    RescaleWhole(ts, b, b, ts);
  }

  /** A frame without timestamp takes over the prediction unchanged. */
  lemma UntimedIsPredicted(s: State, f: Frame)
    requires Inv(s) && Decoded(f) && f.pts.None? && Positive(Updated(s, f).tb)
    ensures var s1, s' := Updated(s, f), Processed(s, f).0;
      && s'.pts == Some(Predicted(s1)) && s'.tb == s1.tb && s'.rate == s1.rate
      && s'.durationEst == RescaleQ(f.nbSamples, Rational(1, f.rate), s1.tb, NearInf)
      && Processed(s, f).1 == RescaleQ(Predicted(s1), s1.tb, Rational(1, f.rate), NearInf)
  {
    var s1 := Updated(s, f);
    RescaleToSelf(Predicted(s1), s1.tb);
  }

  /** It is placed exactly where the last one ended, and the next one is due exactly its
      own length later. */
  lemma UntimedStep(s: State, f: Frame)
    requires Inv(s) && Decoded(f) && Representable(s, f) && f.pts.None?
    ensures var s' := Processed(s, f).0;
      && Inv(s') && s'.pts.Some?
      && Seconds(s'.pts.value, s'.tb.den) == Due(s)
      && Due(s') == Due(s) + Seconds(f.nbSamples, f.rate)
  {
    UpdateKeepsInv(s, f);
    UpdateKeepsDue(s, f);
    UntimedIsPredicted(s, f);
    DueAfter(Updated(s, f), Processed(s, f).0, f);
  }

  lemma DueAfter(s1: State, s': State, f: Frame)
    requires Inv(s1) && f.rate > 0 && s1.rate == f.rate && s'.tb == s1.tb && s'.pts == Some(Predicted(s1))
    requires s'.durationEst == RescaleQ(f.nbSamples, Rational(1, f.rate), s1.tb, NearInf)
    ensures Due(s') == Due(s1) + Seconds(f.nbSamples, f.rate)
  {
    assert s1.tb == Rational(1, s1.tb.den);
    RescaleKeepsTime(f.nbSamples, f.rate, s1.tb.den);
    SumSeconds(Predicted(s1), s'.durationEst, s1.tb.den);
  }

  /** The timestamp handed on, in samples, is the one nearest to that exact time. */
  lemma UntimedSample(s: State, f: Frame)
    requires Inv(s) && Decoded(f) && Representable(s, f) && f.pts.None?
    ensures var s', out := Processed(s, f).0, Processed(s, f).1;
      s'.pts.Some? && -s'.tb.den <= 2 * (out * s'.tb.den - s'.pts.value * f.rate) <= s'.tb.den
  {
    UpdateKeepsInv(s, f);
    UntimedIsPredicted(s, f);
    var s1 := Updated(s, f);
    assert s1.tb == Rational(1, s1.tb.den);
    RescaleNear(Predicted(s1), 1 * f.rate, 1 * s1.tb.den);
  }

  /** No rounding accumulates: over any run of frames without timestamps, through any number
      of sample rate changes, the frame after n frames is placed at exactly the starting
      point plus the sum of nb_samples / rate of those n frames. */
  lemma {:induction false} NoDrift(ss: seq<State>, fs: seq<Frame>, n: nat)
    requires Run(ss, fs) && NoOverflow(ss, fs) && Inv(ss[0]) && n <= |fs|
    requires forall i | 0 <= i < |fs| :: fs[i].pts.None? && fs[i].rate > 0
    ensures Inv(ss[n]) && Due(ss[n]) == Due(ss[0]) + Played(fs, n)
    ensures n < |fs| ==> ss[n + 1].pts.Some? && ss[n + 1].tb.den > 0 &&
                         Seconds(ss[n + 1].pts.value, ss[n + 1].tb.den) == Due(ss[0]) + Played(fs, n)
  {
    if n > 0 {
      NoDrift(ss, fs, n - 1);
      UntimedStep(ss[n - 1], fs[n - 1]);
    }
    if n < |fs| {
      UntimedStep(ss[n], fs[n]);
    }
  }

  // ---------------------------------------------------------------- frames with timestamps

  /** The continuity mark left by every frame is its timestamp plus its number of samples. */
  lemma MarkAfterFrame(s: State, f: Frame)
    requires Positive(s.tb) && Decoded(f)
    ensures var s' := Processed(s, f).0; s'.pts.Some? && s'.rescaleDelta == Some(s'.pts.value + f.nbSamples)
  {
    hide RescaleQ, Updated;
    UpdatedTimeBase(s, f);
    var s1 := Updated(s, f);
    var inTb := if f.pts.Some? then f.tb else s1.tb;
    var inTs := if f.pts.Some? then f.pts.value else Predicted(s1);
    var a := RescaleQ(2 * inTs - 1, inTb, s1.tb, Down) / 2;
    var b := (RescaleQ(2 * inTs + 1, inTb, s1.tb, Up) + 1) / 2;
    if s1.rescaleDelta.Some? {
      var last := s1.rescaleDelta.value;
      RescaleToSelf(if last < a then a else if last > b then b else last, s1.tb);
    }
  }

  lemma SamplesIff(n: int, k: int)
    requires n > 0
    ensures n * k == n <==> k == 1
  {
    assert n * k - n == n * (k - 1);
    assert k > 1 ==> n * (k - 1) > 0;
    assert k < 1 ==> n * (k - 1) < 0;
  }

  /** The denominator of the time base in which a frame is placed. */
  function DenFor(s: State, f: Frame): int
    requires s.tb.den > 0 && f.rate > 0
  {
    if f.rate == s.rate then s.tb.den else NewTimeBase(s.tb.den, f).den
  }

  /** That mark is the end of the frame exactly if the frame is placed in a time base of its samples. */
  lemma MarkIsEndIff(s: State, f: Frame)
    requires Inv(s) && Decoded(f) && Representable(s, f) && f.nbSamples > 0
    ensures var s' := Processed(s, f).0; s'.rescaleDelta == Some(Predicted(s')) <==> DenFor(s, f) == f.rate
  {
    hide Updated, RescaleDelta, RescaleQ, DenFor, Predicted;
    MarkInItsBase(s, f);
    UpdatedDen(s, f);
  }

  lemma MarkInItsBase(s: State, f: Frame)
    requires Inv(s) && Decoded(f) && Representable(s, f) && f.nbSamples > 0
    ensures var s' := Processed(s, f).0;
      s'.tb == Updated(s, f).tb && (s'.rescaleDelta == Some(Predicted(s')) <==> s'.tb.den == f.rate)
  {
    hide RescaleQ, Updated, RescaleDelta;
    MarkAfterFrame(s, f);
    UpdateKeepsInv(s, f);
    UpdatedTimeBase(s, f);
    var s1, s' := Updated(s, f), Processed(s, f).0;
    var n, k := f.nbSamples, s1.tb.den / f.rate;
    assert s1.tb == Rational(1, s1.tb.den) && s1.tb.den == k * f.rate;
    SamplesInUnits(n, f.rate, s1.tb.den, k);
    assert s'.durationEst == n * k;
    SamplesIff(n, k);
    OneSample(s1.tb.den, f.rate, k);
  }

  lemma OneSample(den: int, rate: int, k: int)
    requires rate > 0 && den == k * rate
    ensures k == 1 <==> den == rate
  {
    SamplesIff(rate, k);
  }

  lemma UpdatedDen(s: State, f: Frame)
    requires Positive(s.tb) && Decoded(f)
    ensures Updated(s, f).tb.den == DenFor(s, f)
  {
    hide RescaleQ, NewTimeBase;
  }

  lemma SamplesInUnits(n: int, rate: int, den: int, k: int)
    requires rate > 0 && den > 0 && den == k * rate
    ensures RescaleQ(n, Rational(1, rate), Rational(1, den), NearInf) == n * k
  {
    assert n * (1 * den) == (n * k) * (1 * rate);
    RescaleWhole(n, 1 * den, 1 * rate, n * k);
  }

  /** From 48000 to 44100 Hz: the mark after the first frame of 1024 samples at the new rate is not
      where that frame ends. */
  lemma MarkAfterRateChange()
    ensures var s := State(Some(0), 1024, Rational(1, 48000), Some(1024), 48000);
      var f := Frame(None, Rational(1, 44100), 44100, 1024);
      var s' := Processed(s, f).0;
      s'.tb.den == 7056000 && s'.rescaleDelta != Some(Predicted(s'))
  {
    var s := State(Some(0), 1024, Rational(1, 48000), Some(1024), 48000);
    var f := Frame(None, Rational(1, 44100), 44100, 1024);
    assert Gcd(1200, 300) == 300;
    assert Gcd(48000, 44100) == Gcd(44100, 3900) == Gcd(3900, 1200) == 300;
    hide RescaleQ, RescaleDelta;
    MarkIsEndIff(s, f);
  }

  /** Half of a floor and of a ceiling. */
  lemma Halves(a: int, b: int)
    ensures 2 * (a / 2) >= a - 1 && 2 * (a / 2) <= a && 2 * ((b + 1) / 2) <= b + 1 && 2 * ((b + 1) / 2) >= b
  {
  }

  /** B / C is one unit of the input in units of the clock: the clip range reaches half of it, and
      at most one unit of the clock more, to either side of the exact time. */
  lemma ClipRange(inTs: int, inTb: Rational, tb: Rational)
    requires Positive(inTb) && Positive(tb)
    ensures var B, C := inTb.num * tb.den, tb.num * inTb.den;
      var a := RescaleQ(2 * inTs - 1, inTb, tb, Down) / 2;
      var b := (RescaleQ(2 * inTs + 1, inTb, tb, Up) + 1) / 2;
      B > 0 && C > 0 && 2 * (a * C) >= 2 * (inTs * B) - B - 2 * C && 2 * (b * C) <= 2 * (inTs * B) + B + 2 * C
  {
    hide RescaleRnd;
    var B, C := inTb.num * tb.den, tb.num * inTb.den;
    assert B > 0 && C > 0;
    RescaleDownUp(2 * inTs - 1, B, C);
    RescaleDownUp(2 * inTs + 1, B, C);
    var x, y := RescaleRnd(2 * inTs - 1, B, C, Down), RescaleRnd(2 * inTs + 1, B, C, Up);
    Doubled(inTs, B);
    HalvesScaled(x, y, C);
  }

  lemma Doubled(t: int, b: int)
    ensures (2 * t - 1) * b == 2 * (t * b) - b && (2 * t + 1) * b == 2 * (t * b) + b
  {
  }

  lemma HalvesScaled(x: int, y: int, c: int)
    requires c > 0
    ensures 2 * (x / 2 * c) >= x * c - c && 2 * ((y + 1) / 2 * c) <= y * c + c
  {
    Halves(x, y);
    var h, k := x / 2, (y + 1) / 2;
    TwiceAtLeast(h, x - 1, c);
    TwiceAtLeast(-k, -y - 1, c);
    Times(x, y, k, c);
  }

  lemma Times(x: int, y: int, k: int, c: int)
    ensures (x - 1) * c == x * c - c && (-y - 1) * c == -(y * c) - c && (-k) * c == -(k * c)
  {
  }

  lemma TwiceAtLeast(h: int, x: int, c: int)
    requires 2 * h >= x && c > 0
    ensures 2 * (h * c) >= x * c && (-h) * c == -(h * c)
  {
    var d := 2 * h - x;
    assert d * c == 2 * (h * c) - x * c;
    assert d * c >= 0;
  }

  lemma Between(v: int, a: int, b: int, c: int)
    requires a <= v <= b && c > 0
    ensures a * c <= v * c <= b * c
  {
  }

  /** Whatever the mark is, a frame with a timestamp is placed within half a tick of its own time base
      and one unit of the clock from that timestamp. */
  lemma TimedPlacement(s: State, f: Frame)
    requires Positive(s.tb) && Decoded(f) && f.pts.Some?
    ensures var s' := Processed(s, f).0; var B, C := f.tb.num * s'.tb.den, s'.tb.num * f.tb.den;
      s'.pts.Some? && -B - 2 * C <= 2 * (s'.pts.value * C) - 2 * (f.pts.value * B) <= B + 2 * C
  {
    hide Updated;
    UpdatedTimeBase(s, f);
    var s1 := Updated(s, f);
    var gap := s1.pts.Some? && f.pts.value > RescaleQ(Predicted(s1), s1.tb, f.tb, Up);
    DeltaPlacement(f.tb, f.pts.value, f.nbSamples, if gap then None else s1.rescaleDelta, s1.tb);
  }

  lemma DeltaPlacement(inTb: Rational, inTs: int, duration: nat, last: Option<int>, tb: Rational)
    requires Positive(inTb) && Positive(tb)
    ensures var B, C := inTb.num * tb.den, tb.num * inTb.den;
      var ts := RescaleDelta(inTb, inTs, tb, duration, last, tb).0;
      -B - 2 * C <= 2 * (ts * C) - 2 * (inTs * B) <= B + 2 * C
  {
    var B, C := inTb.num * tb.den, tb.num * inTb.den;
    assert B > 0 && C > 0;
    RescaleNear(inTs, B, C);
    ClipRange(inTs, inTb, tb);
    hide RescaleQ;
    var a := RescaleQ(2 * inTs - 1, inTb, tb, Down) / 2;
    var b := (RescaleQ(2 * inTs + 1, inTb, tb, Up) + 1) / 2;
    var ts := RescaleDelta(inTb, inTs, tb, duration, last, tb).0;
    if ts != RescaleQ(inTs, inTb, tb, NearInf) {
      var v := if last.value < a then a else if last.value > b then b else last.value;
      RescaleToSelf(v, tb);
      assert ts == v;
      RangeOrdered(inTs, inTb, tb);
      Between(v, a, b, C);
    }
  }

  lemma RangeOrdered(inTs: int, inTb: Rational, tb: Rational)
    requires Positive(inTb) && Positive(tb)
    ensures RescaleQ(2 * inTs - 1, inTb, tb, Down) / 2 <= (RescaleQ(2 * inTs + 1, inTb, tb, Up) + 1) / 2
  {
    hide RescaleRnd;
    var B, C := inTb.num * tb.den, tb.num * inTb.den;
    assert B > 0 && C > 0;
    RescaleDownUp(2 * inTs - 1, B, C);
    RescaleDownUp(2 * inTs + 1, B, C);
    Doubled(inTs, B);
    var x, y := RescaleRnd(2 * inTs - 1, B, C, Down), RescaleRnd(2 * inTs + 1, B, C, Up);
    Cancel(x, y, C);
  }

  lemma Cancel(x: int, y: int, c: int)
    requires c > 0 && x * c <= y * c
    ensures x <= y
  {
    assert (y - x) * c >= 0;
    assert y - x < 0 ==> (y - x) * c < 0;
  }

  // ---------------------------------------------------------------- the decoder itself

  class AudioDecoder {
    var lastFramePts: Option<int>
    var lastFrameDurationEst: int
    var lastFrameTb: Rational
    var lastFilterInRescaleDelta: Option<int>
    var lastFrameSampleRate: int

    ghost function Model(): State
      reads this
    {
      State(lastFramePts, lastFrameDurationEst, lastFrameTb, lastFilterInRescaleDelta, lastFrameSampleRate)
    }

    constructor ()
      ensures Inv(Model()) && lastFramePts.None? && Due(Model()) == 0.0
    {
      lastFramePts, lastFrameDurationEst, lastFrameTb := None, 0, Rational(1, 1);
      lastFilterInRescaleDelta, lastFrameSampleRate := None, 0;
    }

    method SampleRateUpdate(frame: Frame) returns (tb: Rational)
      requires Positive(lastFrameTb) && Decoded(frame)
      modifies this
      ensures Model() == Updated(old(Model()), frame) && tb == lastFrameTb && Positive(tb)
    {
      UpdatedTimeBase(Model(), frame);
      if frame.rate != lastFrameSampleRate {
        var prev := lastFrameTb.den;
        var gcd := AvGcd(prev, frame.rate);
        GcdDivides(prev, frame.rate);
        var tbNew := Rational(1, FALLBACK_DEN);
        if prev / gcd < INT_MAX / frame.rate {
          tbNew := Rational(1, prev / gcd * frame.rate);
        }
        BaseDenPositive(prev, frame.rate);
        if frame.tb.num == 1 && frame.tb.den > tbNew.den && frame.tb.den % tbNew.den == 0 {
          tbNew := frame.tb;
        }
        if lastFramePts.Some? {
          lastFramePts := Some(RescaleQ(lastFramePts.value, lastFrameTb, tbNew, NearInf));
        }
        lastFrameDurationEst := RescaleQ(lastFrameDurationEst, lastFrameTb, tbNew, NearInf);
        lastFrameTb := tbNew;
        lastFrameSampleRate := frame.rate;
      }
      tb := lastFrameTb;
    }

    /** audio_ts_process; pts is the frame's timestamp in units of 1 / sample rate. */
    method TsProcess(frame: Frame) returns (pts: int)
      requires Positive(lastFrameTb) && Decoded(frame)
      modifies this
      ensures Model() == Processed(old(Model()), frame).0 && pts == Processed(old(Model()), frame).1
    {
      var filterTb := Rational(1, frame.rate);
      var tb := SampleRateUpdate(frame);
      var predicted := if lastFramePts.None? then 0 else lastFramePts.value + lastFrameDurationEst;
      var frameTb := frame.tb;
      if frame.pts.None? {
        pts := predicted;
        frameTb := tb;
      } else {
        pts := frame.pts.value;
        if lastFramePts.Some? && pts > RescaleQ(predicted, tb, frame.tb, Up) {
          lastFilterInRescaleDelta := None;
        }
      }
      var rescaled := RescaleDelta(frameTb, pts, tb, frame.nbSamples, lastFilterInRescaleDelta, tb);
      pts, lastFilterInRescaleDelta := rescaled.0, Some(rescaled.1);
      lastFramePts := Some(pts);
      lastFrameDurationEst := RescaleQ(frame.nbSamples, filterTb, tb, NearInf);
      pts := RescaleQ(pts, tb, filterTb, NearInf);
    }
  }
}
