/**
 What the demuxer predicts for the next packet of a stream, in time: the length of the packet, or
 the next frame of a forced rate.
 */
module Predictions {
  import opened Wrappers
  import opened Rescale
  import opened Time
  import opened Discontinuity

  /** A time kept in microseconds, in seconds. */
  function At(t: int): real {
    Sec(t, Micro())
  }

  function MicroSecond(): real {
    Tick(Micro())
  }

  /** The length of one frame at a given rate, as a time base. */
  function FrameBase(rate: Rational): Rational {
    Rational(rate.den, rate.num)
  }

  /** The length of one field: half a frame. */
  function FieldBase(rate: Rational): Rational {
    Rational(rate.den, 2 * rate.num)
  }

  predicate IsForced(k: Kind) {
    k.Video? && k.forced.Some?
  }

  /** How long a packet lasts, in seconds, if no rate is forced: its samples, its duration, or its fields. */
  function Lasts(k: Kind, p: Packet): real
    requires ValidKind(k) && Positive(p.tb)
  {
    match k
    case Audio(size, rate) => if rate != 0 then size as real / rate as real else Sec(p.duration, p.tb)
    case Video(forced, coded) =>
      if p.duration != 0 then Sec(p.duration, p.tb)
      else if coded.Some? then Sec(p.fields, FieldBase(coded.value))
      else 0.0
    case Other => 0.0
  }

  // ---------------------------------------------------------------- one prediction

  lemma MicroSecondIs()
    ensures MicroSecond() > 0.0 && MicroSecond() * 1000000.0 == 1.0
  {
  }

  lemma AtSum(a: int, b: int)
    ensures At(a + b) == At(a) + At(b)
  {
    SecSum(a, b, Micro());
  }

  lemma ToMicroAt(t: int, tb: Rational)
    requires Positive(tb)
    ensures -MicroSecond() <= 2.0 * (At(ToMicro(t, tb)) - Sec(t, tb)) <= MicroSecond()
  {
    RescaledNear(t, tb, Micro());
  }

  lemma QuotientBounds(n: int, d: int, q: int)
    requires d > 0 && q == n / d
    ensures 0 <= n - q * d < d
  {
  }

  lemma Ratio(size: int, rate: int)
    requires rate > 0
    ensures (size as real / rate as real) * rate as real == size as real
  {
  }

  lemma ProductAsReal(x: int, y: int)
    ensures (x * y) as real == x as real * y as real
  {
  }

  lemma BoundsAsReal(n: int, p: int, d: int)
    requires 0 <= n - p < d
    ensures 0.0 <= n as real - p as real < d as real
  {
  }

  /** Whole microseconds of size samples, rounded down. */
  lemma AudioFloor(size: nat, rate: nat)
    requires rate > 0
    ensures var x := AV_TIME_BASE * size / rate;
      -MicroSecond() < At(x) - size as real / rate as real <= 0.0
  {
    var x := AV_TIME_BASE * size / rate;
    QuotientBounds(AV_TIME_BASE * size, rate, x);
    BoundsAsReal(AV_TIME_BASE * size, x * rate, rate);
    ProductAsReal(x, rate);
    ProductAsReal(AV_TIME_BASE, size);
    Ratio(size, rate);
    MicroSecondIs();
    hide Tick;
    Floor(x as real, size as real / rate as real, rate as real, MicroSecond(), size as real, x as real * rate as real);
  }

  lemma Floor(x: real, l: real, r: real, u: real, s: real, xr: real)
    requires r > 0.0 && u > 0.0 && u * 1000000.0 == 1.0 && l * r == s && xr == x * r && 0.0 <= 1000000.0 * s - xr < r
    ensures -u < x * u - l <= 0.0
  {
    var d := 1000000.0 * l - x;
    assert d * r == 1000000.0 * s - xr;
    CancelLess(0.0, d, r);
    CancelLess(d, 1.0, r);
    assert d * u == l - x * u;
    CancelLess(0.0, d, u);
    CancelLess(d, 1.0, u);
  }

  /** Fields last half as long as frames. */
  lemma FieldsLast(n: nat, rate: Rational)
    requires Positive(rate)
    ensures Sec(n, FieldBase(rate)) == n as real * (Tick(FrameBase(rate)) / 2.0)
  {
    var a, b := rate.den as real, rate.num as real;
    assert (2 * rate.num) as real == 2.0 * b;
    assert a / (2.0 * b) == (a / b) / 2.0;
  }

  /** Without a forced rate the prediction is the estimate plus the length of the packet, within a microsecond. */
  lemma PredictsLength(k: Kind, p: Packet, dts: int)
    requires ValidKind(k) && Positive(p.tb) && !IsForced(k)
    ensures -MicroSecond() <= At(Advance(k, p, dts)) - (At(dts) + Lasts(k, p)) <= MicroSecond()
  {
    hide At, MicroSecond, Tick, Sec, RescaleQ, ToMicro, FromMicro;
    MicroSecondIs();
    AtSum(dts, Advance(k, p, dts) - dts);
    match k
    case Audio(size, rate) =>
      if rate != 0 {
        AudioFloor(size, rate);
      } else {
        ToMicroAt(p.duration, p.tb);
      }
    case Video(forced, coded) =>
      if p.duration != 0 {
        ToMicroAt(p.duration, p.tb);
      } else if coded.Some? {
        ToMicroAt(p.fields, FieldBase(coded.value));
      } else {
        AtZero();
      }
    case Other =>
      AtZero();
  }

  lemma AtZero()
    ensures At(0) == 0.0
  {
  }

  // ---------------------------------------------------------------- a forced rate

  /** dts is next to frame n of the forced rate. */
  predicate OnFrame(dts: int, rate: Rational, n: int)
    requires Positive(rate)
  {
    -MicroSecond() <= 2.0 * (At(dts) - Sec(n, FrameBase(rate))) <= MicroSecond()
  }

  /** With a forced rate the prediction is next to a frame: the one after the frame nearest to the estimate. */
  lemma PredictsFrame(k: Kind, p: Packet, dts: int) returns (n: int)
    requires ValidKind(k) && Positive(p.tb) && IsForced(k)
    ensures var frame := Tick(FrameBase(k.forced.value));
      -frame <= 2.0 * (Sec(n, FrameBase(k.forced.value)) - At(dts)) <= frame
    ensures OnFrame(Advance(k, p, dts), k.forced.value, n + 1)
  {
    hide Tick, Sec, RescaleQ;
    var base := FrameBase(k.forced.value);
    n := FromMicro(dts, base);
    RescaledNear(dts, Micro(), base);
    ToMicroAt(n + 1, base);
  }

  /** Frames longer than a microsecond are never confused: from one frame to the next, without drift. */
  lemma NextFrame(k: Kind, p: Packet, dts: int, n: int)
    requires ValidKind(k) && Positive(p.tb) && IsForced(k) && Tick(FrameBase(k.forced.value)) > MicroSecond()
    requires OnFrame(dts, k.forced.value, n)
    ensures OnFrame(Advance(k, p, dts), k.forced.value, n + 1)
  {
    var m := PredictsFrame(k, p, dts);
    hide Tick, Sec, At, Advance;
    var base := FrameBase(k.forced.value);
    SecSum(m, n, base);
    assert -2.0 * Tick(base) < 2.0 * (Sec(m, base) - Sec(n, base)) < 2.0 * Tick(base);
    SameFrame(m - n, base);
  }

  lemma SameFrame(d: int, base: Rational)
    requires Positive(base) && -Tick(base) < Sec(d, base) < Tick(base)
    ensures d == 0
  {
    TickPositive(base);
    var t, x := Tick(base), d as real;
    assert (-1.0) * t == -t && 1.0 * t == t;
    CancelLess(-1.0, x, t);
    CancelLess(x, 1.0, t);
  }

  // ---------------------------------------------------------------- packets without dts

  /** How long the packets a to b - 1 of stream k last together. */
  ghost function Total(c: Config, ps: seq<Packet>, k: nat, a: nat, b: nat): real
    requires ValidConfig(c) && k < |c.streams| && a <= b <= |ps| && forall i | 0 <= i < |ps| :: Positive(ps[i].tb)
  {
    if a == b then 0.0
    else Total(c, ps, k, a, b - 1) + if ps[b - 1].stream == k then Lasts(c.streams[k].kind, ps[b - 1]) else 0.0
  }

  function Count(ps: seq<Packet>, k: nat, a: nat, b: nat): nat
    requires a <= b <= |ps|
  {
    if a == b then 0 else Count(ps, k, a, b - 1) + One(ps[b - 1].stream == k)
  }

  /** Packet n: other streams leave the track alone; a packet of the stream without dts takes the prediction. */
  lemma UntimedPacket(c: Config, ss: seq<State>, ps: seq<Packet>, qs: seq<Packet>, k: nat, n: nat)
    requires Run(c, ss, ps, qs) && n < |ps| && k < |c.streams| && (ps[n].stream == k ==> ps[n].dts.None?)
    ensures |ss[n].tracks| == |ss[n + 1].tracks| == |c.streams|
    ensures ps[n].stream != k ==> ss[n + 1].tracks[k] == ss[n].tracks[k]
    ensures ps[n].stream == k && ss[n].tracks[k].next.Some? ==>
      && ss[n + 1].tracks[k].dts == ss[n].tracks[k].next.value && Positive(ps[n].tb)
      && ss[n + 1].tracks[k].next == Some(Advance(c.streams[k].kind, ps[n], ss[n].tracks[k].next.value))
  {
    assert StepAt(c, ss, ps, qs, n);
    hide ToMicro, FromMicro, Detected;
    if ps[n].stream == k {
      SameLength(c.streams[k].kind, ps[n], qs[n], ss[n + 1].tracks[k].dts);
    }
  }

  /** A correction moves stamps and nothing that a prediction looks at. */
  lemma SameLength(k: Kind, p: Packet, q: Packet, dts: int)
    requires ValidKind(k) && Positive(p.tb) && q.tb == p.tb && q.duration == p.duration && q.fields == p.fields
    ensures Advance(k, q, dts) == Advance(k, p, dts)
  {
    hide ToMicro, FromMicro;
  }

  /** Every packet is in a positive time base. */
  lemma RunBases(c: Config, ss: seq<State>, ps: seq<Packet>, qs: seq<Packet>)
    requires Run(c, ss, ps, qs)
    ensures forall i | 0 <= i < |ps| :: Positive(ps[i].tb)
  {
    forall i | 0 <= i < |ps| ensures Positive(ps[i].tb) {
      assert StepAt(c, ss, ps, qs, i);
    }
  }

  lemma RunTracks(c: Config, ss: seq<State>, ps: seq<Packet>, qs: seq<Packet>, n: nat)
    requires Run(c, ss, ps, qs) && n < |ps|
    ensures |ss[n].tracks| == |ss[n + 1].tracks| == |c.streams| && ps[n].stream < |c.streams|
    ensures ss[n + 1].tracks[ps[n].stream].next.Some?
  {
    assert StepAt(c, ss, ps, qs, n);
    hide ToMicro, FromMicro, Detected, Advance;
  }

  /** The prediction after packet b lies as much after the estimate of packet a as the packets from a to b last,
      within a microsecond per packet, if those after a come without dts. */
  lemma {:induction false} UntimedSum(c: Config, ss: seq<State>, ps: seq<Packet>, qs: seq<Packet>, k: nat, a: nat,
                                      b: nat)
    requires Run(c, ss, ps, qs) && a <= b < |ps| && k < |c.streams| && ps[a].stream == k && !IsForced(c.streams[k].kind)
    requires forall i | a < i <= b && ps[i].stream == k :: ps[i].dts.None?
    requires forall i | 0 <= i < |ps| :: Positive(ps[i].tb)
    ensures |ss[a + 1].tracks| == |ss[b + 1].tracks| == |c.streams| && ss[b + 1].tracks[k].next.Some?
    ensures var error := Count(ps, k, a, b + 1) as real * MicroSecond();
      -error <= At(ss[b + 1].tracks[k].next.value) - (At(ss[a + 1].tracks[k].dts) + Total(c, ps, k, a, b + 1)) <= error
    decreases b
  {
    assert ValidConfig(c) && |ss| == |ps| + 1;
    hide Run, At, MicroSecond, Lasts, Advance;
    TotalNext(c, ps, k, a, b + 1);
    RunTracks(c, ss, ps, qs, a);
    if a == b {
      FirstPrediction(c, ss, ps, qs, a);
      TotalNone(c, ps, k, a);
    } else {
      UntimedSum(c, ss, ps, qs, k, a, b - 1);
      UntimedPacket(c, ss, ps, qs, k, b);
      if ps[b].stream == k {
        PredictsLength(c.streams[k].kind, ps[b], ss[b].tracks[k].next.value);
      }
    }
  }

  lemma FirstPrediction(c: Config, ss: seq<State>, ps: seq<Packet>, qs: seq<Packet>, a: nat)
    requires Run(c, ss, ps, qs) && a < |ps| && ps[a].stream < |c.streams| && !IsForced(c.streams[ps[a].stream].kind)
    ensures Positive(ps[a].tb) && |ss[a + 1].tracks| == |c.streams| && ss[a + 1].tracks[ps[a].stream].next.Some?
    ensures var k := ps[a].stream;
      var t, length := ss[a + 1].tracks[k], Lasts(c.streams[k].kind, ps[a]);
      -MicroSecond() <= At(t.next.value) - (At(t.dts) + length) <= MicroSecond()
  {
    var k := ps[a].stream;
    assert StepAt(c, ss, ps, qs, a);
    hide ToMicro, FromMicro, Detected, At, MicroSecond, Lasts;
    SameLength(c.streams[k].kind, ps[a], qs[a], ss[a + 1].tracks[k].dts);
    PredictsLength(c.streams[k].kind, ps[a], ss[a + 1].tracks[k].dts);
  }

  lemma TotalNone(c: Config, ps: seq<Packet>, k: nat, a: nat)
    requires ValidConfig(c) && k < |c.streams| && a <= |ps| && forall i | 0 <= i < |ps| :: Positive(ps[i].tb)
    ensures Total(c, ps, k, a, a) == 0.0 && Count(ps, k, a, a) == 0
  {
  }

  lemma TotalNext(c: Config, ps: seq<Packet>, k: nat, a: nat, b: nat)
    requires ValidConfig(c) && k < |c.streams| && a < b <= |ps| && forall i | 0 <= i < |ps| :: Positive(ps[i].tb)
    ensures Total(c, ps, k, a, b) ==
            Total(c, ps, k, a, b - 1) + if ps[b - 1].stream == k then Lasts(c.streams[k].kind, ps[b - 1]) else 0.0
    ensures Count(ps, k, a, b) == Count(ps, k, a, b - 1) + One(ps[b - 1].stream == k)
    ensures (Count(ps, k, a, b - 1) + 1) as real * MicroSecond() ==
            Count(ps, k, a, b - 1) as real * MicroSecond() + MicroSecond()
  {
    hide Lasts, MicroSecond;
  }

  /** The estimate of packet n without dts is that of packet a and the length of the packets between, within a
      microsecond per packet, whatever other streams do. */
  lemma UntimedEstimates(c: Config, ss: seq<State>, ps: seq<Packet>, qs: seq<Packet>, a: nat, n: nat)
    requires Run(c, ss, ps, qs) && a < n < |ps| && ps[a].stream == ps[n].stream < |c.streams|
    requires !IsForced(c.streams[ps[n].stream].kind)
    requires forall i | a < i <= n && ps[i].stream == ps[n].stream :: ps[i].dts.None?
    ensures forall i | 0 <= i < |ps| :: Positive(ps[i].tb)
    ensures |ss[a + 1].tracks| == |ss[n + 1].tracks| == |c.streams|
    ensures var k := ps[n].stream; var error := Count(ps, k, a, n) as real * MicroSecond();
      -error <= At(ss[n + 1].tracks[k].dts) - (At(ss[a + 1].tracks[k].dts) + Total(c, ps, k, a, n)) <= error
  {
    RunBases(c, ss, ps, qs);
    hide Run, At, MicroSecond, Lasts, Total, Count;
    UntimedSum(c, ss, ps, qs, ps[n].stream, a, n - 1);
    UntimedPacket(c, ss, ps, qs, ps[n].stream, n);
  }

  /** For video packets with durations in the common time base this is exact. */
  lemma ExactLength(k: Kind, p: Packet, dts: int)
    requires k.Video? && ValidKind(k) && !IsForced(k) && Common(p) && p.duration != 0
    ensures Advance(k, p, dts) == dts + p.duration && Lasts(k, p) == At(p.duration)
  {
    CommonSame(p.duration);
  }

  /** With a forced rate: if packet a is next to frame m, every later packet without dts is next to the frame as many
      later as there are packets of the stream between. */
  lemma {:induction false} ForcedEstimates(c: Config, ss: seq<State>, ps: seq<Packet>, qs: seq<Packet>, k: nat, a: nat,
                                           b: nat, m: int)
    requires Run(c, ss, ps, qs) && a <= b < |ps| && k < |c.streams| && ps[a].stream == k && IsForced(c.streams[k].kind)
    requires ValidKind(c.streams[k].kind) && Tick(FrameBase(c.streams[k].kind.forced.value)) > MicroSecond()
    requires forall i | a < i <= b && ps[i].stream == k :: ps[i].dts.None?
    requires |ss[a + 1].tracks| == |c.streams| && OnFrame(ss[a + 1].tracks[k].dts, c.streams[k].kind.forced.value, m)
    ensures |ss[b + 1].tracks| == |c.streams| && ss[b + 1].tracks[k].next.Some?
    ensures OnFrame(ss[b + 1].tracks[k].next.value, c.streams[k].kind.forced.value, m + Count(ps, k, a, b + 1))
    ensures ps[b].stream == k && a < b ==>
      OnFrame(ss[b + 1].tracks[k].dts, c.streams[k].kind.forced.value, m + Count(ps, k, a, b))
    decreases b
  {
    var kind := c.streams[k].kind;
    hide Run, Tick, MicroSecond, OnFrame, Advance;
    assert Count(ps, k, a, b + 1) == Count(ps, k, a, b) + One(ps[b].stream == k);
    if a == b {
      FirstFrame(c, ss, ps, qs, a, m);
      assert Count(ps, k, a, a) == 0;
    } else {
      ForcedEstimates(c, ss, ps, qs, k, a, b - 1, m);
      UntimedPacket(c, ss, ps, qs, k, b);
      if ps[b].stream == k {
        NextFrame(kind, ps[b], ss[b].tracks[k].next.value, m + Count(ps, k, a, b));
      }
    }
  }

  lemma FirstFrame(c: Config, ss: seq<State>, ps: seq<Packet>, qs: seq<Packet>, a: nat, m: int)
    requires Run(c, ss, ps, qs) && a < |ps| && ps[a].stream < |c.streams| && IsForced(c.streams[ps[a].stream].kind)
    requires ValidKind(c.streams[ps[a].stream].kind)
    requires Tick(FrameBase(c.streams[ps[a].stream].kind.forced.value)) > MicroSecond()
    requires |ss[a + 1].tracks| == |c.streams|
    requires OnFrame(ss[a + 1].tracks[ps[a].stream].dts, c.streams[ps[a].stream].kind.forced.value, m)
    ensures ss[a + 1].tracks[ps[a].stream].next.Some?
    ensures OnFrame(ss[a + 1].tracks[ps[a].stream].next.value, c.streams[ps[a].stream].kind.forced.value, m + 1)
  {
    assert StepAt(c, ss, ps, qs, a);
    hide ToMicro, FromMicro, Detected, Tick, MicroSecond, OnFrame, Advance;
    NextFrame(c.streams[ps[a].stream].kind, qs[a], ss[a + 1].tracks[ps[a].stream].dts, m);
  }

  // ---------------------------------------------------------------- continuity in time

  predicate CloseTo(x: real, y: real, error: real) {
    -error <= x - y <= error
  }

  /** For two successive packets m and n of an audio or video stream without a forced rate, whatever happens to the
      other streams in between: packet n is estimated at most 0.1 s before packet m, and within the threshold, a
      microsecond aside, of the end of packet m; outside the common time base it may instead be estimated at that end,
      up to two microseconds and half a tick. */
  lemma EstimatesFollow(c: Config, ss: seq<State>, ps: seq<Packet>, qs: seq<Packet>, m: nat, n: nat)
    requires Run(c, ss, ps, qs) && !c.copyTs && m < n < |ps| && ps[m].stream == ps[n].stream < |c.streams|
    requires !c.streams[ps[n].stream].kind.Other? && !IsForced(c.streams[ps[n].stream].kind)
    requires forall i | m < i < n :: ps[i].stream != ps[n].stream
    ensures Positive(ps[m].tb) && Positive(ps[n].tb) && |ss[m + 1].tracks| == |ss[n + 1].tracks| == |c.streams|
    ensures var k := ps[n].stream;
      var earlier, later := At(ss[m + 1].tracks[k].dts), At(ss[n + 1].tracks[k].dts);
      var end := earlier + Lasts(c.streams[k].kind, ps[m]);
      || (later >= earlier - 0.1 && CloseTo(later, end, c.deltaLimit + MicroSecond()))
      || (!Common(ps[n]) && CloseTo(later, end, 2.0 * MicroSecond() + Tick(ps[n].tb) / 2.0))
  {
    var k := ps[n].stream;
    RunBases(c, ss, ps, qs);
    FirstPrediction(c, ss, ps, qs, m);
    EstimatesContinue(c, ss, ps, qs, m, n);
    PredictionMade(c, ss, ps, qs, m);
    hide Run, Advance, Lasts, Positive;
    var earlier, later := ss[m + 1].tracks[k].dts, ss[n + 1].tracks[k].dts;
    var predicted := Advance(c.streams[k].kind, qs[m], earlier);
    InSeconds(earlier, later, predicted, c.deltaLimit, ps[n].tb);
  }

  lemma PredictionMade(c: Config, ss: seq<State>, ps: seq<Packet>, qs: seq<Packet>, m: nat)
    requires Run(c, ss, ps, qs) && m < |ps| && ps[m].stream < |c.streams|
    ensures |ss[m + 1].tracks| == |c.streams| && Positive(qs[m].tb)
    ensures var t := ss[m + 1].tracks[ps[m].stream]; t.next == Some(Advance(c.streams[ps[m].stream].kind, qs[m], t.dts))
  {
    assert StepAt(c, ss, ps, qs, m);
    hide ToMicro, FromMicro, Detected, Advance;
  }

  /** Bounds in microseconds, or in ticks, as times. */
  lemma InSeconds(earlier: int, later: int, predicted: int, limit: real, tb: Rational)
    requires Positive(tb)
    ensures later + AV_TIME_BASE / 10 >= earlier ==> At(later) >= At(earlier) - 0.1
    ensures !Beyond(later - predicted, limit) ==> CloseTo(At(later), At(predicted), limit)
    ensures var B, C := tb.num * AV_TIME_BASE, tb.den;
      -2 * C - B <= 2 * (later - predicted) * C <= 2 * C + B ==>
      CloseTo(At(later), At(predicted), MicroSecond() + Tick(tb) / 2.0)
  {
    MicroSecondIs();
    var d := later - predicted;
    SecSum(later, predicted, Micro());
    SecSum(later, earlier, Micro());
    var u := MicroSecond();
    assert At(d) == d as real * u && At(later - earlier) == (later - earlier) as real * u;
    var B, C := tb.num * AV_TIME_BASE, tb.den;
    if -2 * C - B <= 2 * d * C <= 2 * C + B {
      TicksAsTime(d, B, C, tb, u);
    }
  }

  lemma TicksAsTime(d: int, B: int, C: int, tb: Rational, u: real)
    requires Positive(tb) && B == tb.num * AV_TIME_BASE && C == tb.den && u > 0.0 && u * 1000000.0 == 1.0
    requires -2 * C - B <= 2 * d * C <= 2 * C + B
    ensures CloseTo(d as real * u, 0.0, u + Tick(tb) / 2.0)
  {
    var x, c, t := d as real, C as real, Tick(tb);
    TickPositive(tb);
    assert B as real == 1000000.0 * (t * c);
    assert (2 * d * C) as real == 2.0 * (x * c);
    // 2 x c <= 2 c + 1000000 t c, times u / (2 c)
    var y := x - 1.0 - 500000.0 * t;
    var z := x + 1.0 + 500000.0 * t;
    assert y * c == x * c - c - 500000.0 * (t * c);
    assert z * c == x * c + c + 500000.0 * (t * c);
    CancelLess(y, 0.0, c);
    CancelLess(0.0, z, c);
    CancelLess(y, 0.0, u);
    CancelLess(0.0, z, u);
    assert y * u == x * u - u - 500000.0 * (t * u);
    assert z * u == x * u + u + 500000.0 * (t * u);
    assert 500000.0 * (t * u) == t * (500000.0 * u);
    assert t * (500000.0 * u) == t / 2.0;
  }

  /** With a forced rate, packet n is estimated, in the same sense, next to the frame after the one nearest to packet
      m. */
  lemma EstimatesFollowFrame(c: Config, ss: seq<State>, ps: seq<Packet>, qs: seq<Packet>, m: nat, n: nat)
    returns (f: int)
    requires Run(c, ss, ps, qs) && !c.copyTs && m < n < |ps| && ps[m].stream == ps[n].stream < |c.streams|
    requires IsForced(c.streams[ps[n].stream].kind) && forall i | m < i < n :: ps[i].stream != ps[n].stream
    ensures Positive(ps[n].tb) && |ss[m + 1].tracks| == |ss[n + 1].tracks| == |c.streams|
    ensures ValidKind(c.streams[ps[n].stream].kind)
    ensures var k := ps[n].stream; var base := FrameBase(c.streams[k].kind.forced.value);
      var earlier, later := At(ss[m + 1].tracks[k].dts), At(ss[n + 1].tracks[k].dts);
      && CloseTo(Sec(f, base), earlier, Tick(base) / 2.0)
      && (|| (later >= earlier - 0.1 && CloseTo(later, Sec(f + 1, base), c.deltaLimit + MicroSecond()))
          || (!Common(ps[n]) && CloseTo(later, Sec(f + 1, base), 2.0 * MicroSecond() + Tick(ps[n].tb) / 2.0)))
  {
    var k := ps[n].stream;
    RunBases(c, ss, ps, qs);
    EstimatesContinue(c, ss, ps, qs, m, n);
    PredictionMade(c, ss, ps, qs, m);
    assert ValidKind(c.streams[k].kind);
    hide Run, Advance, Positive, Tick, Sec, MicroSecond;
    var earlier, later := ss[m + 1].tracks[k].dts, ss[n + 1].tracks[k].dts;
    f := PredictsFrame(c.streams[k].kind, qs[m], earlier);
    MicroSecondIs();
    InSeconds(earlier, later, Advance(c.streams[k].kind, qs[m], earlier), c.deltaLimit, ps[n].tb);
  }
}
