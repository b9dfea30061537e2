/**
 The demuxer's repair of timestamp discontinuities: one offset for the whole file, and
 for every stream an estimate of its decoding time and a prediction of the next one.
 Estimates are in microseconds; packets carry their own time base.
 */
module Discontinuity {
  import opened Wrappers
  import opened BinaryGcd
  import opened Rescale

  const AV_TIME_BASE: int := 1000000

  function Micro(): Rational { Rational(1, AV_TIME_BASE) }

  datatype Kind =
    | Audio(frameSize: nat, sampleRate: nat)
    | Video(forced: Option<Rational>, coded: Option<Rational>)
    | Other

  /** delay: the time of the frames a video decoder holds back, zero or negative. */
  datatype Stream = Stream(kind: Kind, delay: int, wrapBits: nat)

  /** copyTs: keep timestamps; discont: the format may jump; thresholds in seconds. */
  datatype Config = Config(copyTs: bool, discont: bool, deltaLimit: real, errorLimit: real, streams: seq<Stream>)

  /** fields: how many fields the parser says a picture covers, two if it says nothing. */
  datatype Packet = Packet(stream: nat, pts: Option<int>, dts: Option<int>, duration: int, tb: Rational, fields: nat)

  datatype Track = Track(started: bool, dts: int, next: Option<int>)

  datatype State = State(offset: int, last: Option<int>, tracks: seq<Track>)

  ghost predicate ValidConfig(c: Config) {
    forall i | 0 <= i < |c.streams| :: ValidKind(c.streams[i].kind)
  }

  predicate ValidKind(k: Kind) {
    k.Video? ==> (k.forced.Some? ==> Positive(k.forced.value)) && (k.coded.Some? ==> Positive(k.coded.value))
  }

  ghost predicate Fits(c: Config, s: State, p: Packet) {
    |s.tracks| == |c.streams| && p.stream < |c.streams| && Positive(p.tb)
  }

  predicate Beyond(delta: int, seconds: real) {
    Abs(delta) as real > seconds * (AV_TIME_BASE as real)
  }

  function ToMicro(t: int, tb: Rational): int
    requires Positive(tb)
  {
    RescaleQ(t, tb, Micro(), NearInf)
  }

  function FromMicro(t: int, tb: Rational): int
    requires Positive(tb)
  {
    RescaleQ(t, Micro(), tb, NearInf)
  }

  // ---------------------------------------------------------------- detection

  /** With timestamps copied, only a wrap-around of the stream's counter is repaired. */
  predicate Wrapped(c: Config, t: Track, p: Packet)
    requires p.stream < |c.streams| && p.dts.Some? && t.next.Some? && Positive(p.tb)
  {
    var bits := c.streams[p.stream].wrapBits;
    c.discont && bits < 60 &&
    Abs(ToMicro(p.dts.value + Pow2(bits), p.tb) - t.next.value) < Abs(ToMicro(p.dts.value, p.tb) - t.next.value) / 10
  }

  /** How far the packet is off, if it has to be moved. */
  function Jump(c: Config, s: State, p: Packet): Option<int>
    requires Fits(c, s, p) && p.dts.Some?
  {
    var t, dts := s.tracks[p.stream], ToMicro(p.dts.value, p.tb);
    if !c.discont then None
    else if t.next.Some? then
      if c.copyTs && !Wrapped(c, t, p) then None
      else if Beyond(dts - t.next.value, c.deltaLimit) || dts + AV_TIME_BASE / 10 < t.dts then Some(dts - t.next.value)
      else None
    else if !c.copyTs && s.last.Some? && Beyond(dts - s.last.value, c.deltaLimit) then Some(dts - s.last.value)
    else None
  }

  /** A format without jumps: timestamps far from the prediction are dropped instead. */
  function Cleaned(c: Config, s: State, p: Packet): Packet
    requires Fits(c, s, p) && p.dts.Some?
  {
    var t := s.tracks[p.stream];
    if c.discont || t.next.None? || c.copyTs then p
    else
      p.(dts := if Beyond(ToMicro(p.dts.value, p.tb) - t.next.value, c.errorLimit) then None else p.dts,
         pts := if p.pts.Some? && Beyond(ToMicro(p.pts.value, p.tb) - t.next.value, c.errorLimit) then None else p.pts)
  }

  function Detected(c: Config, s: State, p: Packet): (State, Packet)
    requires Fits(c, s, p) && p.dts.Some?
  {
    var j := Jump(c, s, p);
    if j.Some? then
      var back := FromMicro(j.value, p.tb);
      var q := p.(dts := Shifted(p.dts, -back), pts := Shifted(p.pts, -back));
      (s.(offset := s.offset - j.value, last := Some(ToMicro(q.dts.value, q.tb))), q)
    else
      var q := Cleaned(c, s, p);
      // a dropped dts leaves a value here that such formats never look at
      (s.(last := if q.dts.Some? then Some(ToMicro(q.dts.value, q.tb)) else None), q)
  }

  function Processed(c: Config, s: State, p: Packet): (r: (State, Packet))
    requires Fits(c, s, p)
    ensures Fits(c, r.0, r.1) && r.1.stream == p.stream && r.0.tracks == s.tracks
    ensures r.1.tb == p.tb && r.1.duration == p.duration && r.1.fields == p.fields
  {
    var shift := FromMicro(s.offset, p.tb);
    var q := p.(dts := Shifted(p.dts, shift), pts := Shifted(p.pts, shift));
    if !c.streams[p.stream].kind.Other? && q.dts.Some? then Detected(c, s, q) else (s, q)
  }

  // ---------------------------------------------------------------- prediction

  /** The predicted dts of the packet after one with the estimate dts. */
  function Advance(k: Kind, p: Packet, dts: int): int
    requires Positive(p.tb) && ValidKind(k)
  {
    match k
    case Audio(size, rate) =>
      if rate != 0 then dts + AV_TIME_BASE * size / rate else dts + ToMicro(p.duration, p.tb)
    case Video(forced, coded) =>
      if forced.Some? then
        var frame := Rational(forced.value.den, forced.value.num);
        ToMicro(FromMicro(dts, frame) + 1, frame)
      else if p.duration != 0 then dts + ToMicro(p.duration, p.tb)
      else if coded.Some? then dts + ToMicro(p.fields, Rational(coded.value.den, 2 * coded.value.num))
      else dts
    case Other => dts
  }

  function Updated(st: Stream, t: Track, p: Packet): Track
    requires Positive(p.tb) && ValidKind(st.kind)
  {
    var first := if t.started then t.dts
                 else st.delay + (if p.pts.Some? then ToMicro(p.pts.value, p.tb) else 0);
    var dts := if p.dts.Some? then ToMicro(p.dts.value, p.tb)
               else if t.next.Some? then t.next.value else first;
    Track(true, dts, Some(Advance(st.kind, p, dts)))
  }

  /** One packet: the corrected packet and the new state; the estimate is the track's dts. */
  function Step(c: Config, s: State, p: Packet): (State, Packet)
    requires ValidConfig(c) && Fits(c, s, p)
  {
    var (s1, q) := Processed(c, s, p);
    (s1.(tracks := s1.tracks[p.stream := Updated(c.streams[p.stream], s1.tracks[p.stream], q)]), q)
  }

  class Demuxer {
    const c: Config
    var offset: int
    var last: Option<int>
    var tracks: seq<Track>

    ghost function Model(): State
      reads this
    {
      State(offset, last, tracks)
    }

    constructor (c: Config)
      ensures this.c == c && offset == 0 && last.None? && |tracks| == |c.streams|
      ensures forall i | 0 <= i < |tracks| :: tracks[i] == Track(false, 0, None)
    {
      this.c, offset, last := c, 0, None;
      tracks := seq(|c.streams|, i => Track(false, 0, None));
    }

    /** ts_discontinuity_detect, on a packet that has a dts. */
    method Detect(p: Packet) returns (q: Packet)
      requires Fits(c, Model(), p) && p.dts.Some?
      modifies this`offset, this`last
      ensures (Model(), q) == Detected(c, old(Model()), p)
    {
      q := p;
      var disabled := c.copyTs;
      var t := tracks[p.stream];
      var dts := ToMicro(p.dts.value, p.tb);
      if c.copyTs && t.next.Some? && c.discont && c.streams[p.stream].wrapBits < 60 {
        var wrapped := ToMicro(p.dts.value + Pow2(c.streams[p.stream].wrapBits), p.tb);
        if Abs(wrapped - t.next.value) < Abs(dts - t.next.value) / 10 {
          disabled := false;
        }
      }
      if t.next.Some? && !disabled {
        var delta := dts - t.next.value;
        if c.discont {
          if Beyond(delta, c.deltaLimit) || dts + AV_TIME_BASE / 10 < t.dts {
            q := Correct(q, delta);
          }
        } else {
          if Beyond(delta, c.errorLimit) {
            q := q.(dts := None);
          }
          if q.pts.Some? {
            delta := ToMicro(q.pts.value, q.tb) - t.next.value;
            if Beyond(delta, c.errorLimit) {
              q := q.(pts := None);
            }
          }
        }
      } else if t.next.None? && !c.copyTs && c.discont && last.Some? {
        var delta := dts - last.value;
        if Beyond(delta, c.deltaLimit) {
          q := Correct(q, delta);
        }
      }
      last := if q.dts.Some? then Some(ToMicro(q.dts.value, q.tb)) else None;
    }

    /** Moves the packet and all later ones back by delta. */
    method Correct(p: Packet, delta: int) returns (q: Packet)
      requires Positive(p.tb) && p.dts.Some?
      modifies this`offset
      ensures offset == old(offset) - delta
      ensures q == p.(dts := Shifted(p.dts, -FromMicro(delta, p.tb)), pts := Shifted(p.pts, -FromMicro(delta, p.tb)))
    {
      offset := offset - delta;
      q := p.(dts := Some(p.dts.value - FromMicro(delta, p.tb)));
      if q.pts.Some? {
        q := q.(pts := Some(q.pts.value - FromMicro(delta, p.tb)));
      }
    }

    /** ts_discontinuity_process and ist_dts_update. */
    method Fixup(p: Packet) returns (q: Packet, estimate: int)
      requires ValidConfig(c) && Fits(c, Model(), p)
      modifies this
      ensures Fits(c, Model(), p) && (Model(), q) == Step(c, old(Model()), p) && estimate == tracks[p.stream].dts
    {
      q := p;
      var shift := FromMicro(offset, p.tb);
      if q.dts.Some? {
        q := q.(dts := Some(q.dts.value + shift));
      }
      if q.pts.Some? {
        q := q.(pts := Some(q.pts.value + shift));
      }
      if !c.streams[p.stream].kind.Other? && q.dts.Some? {
        q := Detect(q);
      }
      var t, st := tracks[p.stream], c.streams[p.stream];
      if !t.started {
        t := t.(dts := st.delay);
        if q.pts.Some? {
          t := t.(dts := t.dts + ToMicro(q.pts.value, q.tb));
        }
        t := t.(started := true);
      }
      if t.next.None? {
        t := t.(next := Some(t.dts));
      }
      if q.dts.Some? {
        t := t.(next := Some(ToMicro(q.dts.value, q.tb)));
      }
      t := t.(dts := t.next.value);
      t := t.(next := Some(Advance(st.kind, q, t.dts)));
      tracks := tracks[p.stream := t];
      estimate := t.dts;
    }
  }

  // ---------------------------------------------------------------- one packet, in any time base

  /** Both timestamps of a packet are moved by the same amount, in every time base. */
  lemma GapKept(c: Config, s: State, p: Packet)
    requires ValidConfig(c) && Fits(c, s, p) && c.discont && p.pts.Some? && p.dts.Some?
    ensures var q := Step(c, s, p).1;
      q.pts.Some? && q.dts.Some? && q.pts.value - q.dts.value == p.pts.value - p.dts.value
  {
    hide RescaleQ, Updated, Jump;
  }

  /** Both stamps of a packet are moved by the same m ticks, which is the new offset to within one tick
      of the packet's time base: with B microseconds to C ticks, the error is at most B in units of
      1/C microseconds. */
  lemma MovedByOffset(c: Config, s: State, p: Packet) returns (m: int)
    requires ValidConfig(c) && Fits(c, s, p) && c.discont
    ensures var (s', q) := Step(c, s, p); var B, C := p.tb.num * AV_TIME_BASE, p.tb.den;
      && q.dts == Shifted(p.dts, m) && q.pts == Shifted(p.pts, m) && -B <= m * B - s'.offset * C <= B
      && m == FromMicro(s.offset, p.tb) - FromMicro(s.offset - s'.offset, p.tb)
  {
    hide RescaleQ, Updated, Jump;
    var B, C := p.tb.num * AV_TIME_BASE, p.tb.den;
    var (s', q) := Step(c, s, p);
    var shift, delta := FromMicro(s.offset, p.tb), s.offset - s'.offset;
    var back := FromMicro(delta, p.tb);
    FromMicroNear(s.offset, p.tb);
    FromMicroNear(delta, p.tb);
    FromMicroZero(p.tb);
    m := shift - back;
    assert m * B == shift * B - back * B;
    assert s'.offset * C == s.offset * C - delta * C;
  }

  lemma FromMicroNear(t: int, tb: Rational)
    requires Positive(tb)
    ensures var B, C := tb.num * AV_TIME_BASE, tb.den; -B <= 2 * (FromMicro(t, tb) * B - t * C) <= B
  {
    RescaleNear(t, tb.den, tb.num * AV_TIME_BASE);
    assert 1 * tb.den == tb.den;
  }

  lemma ToMicroNear(t: int, tb: Rational)
    requires Positive(tb)
    ensures var B, C := tb.num * AV_TIME_BASE, tb.den; -C <= 2 * (ToMicro(t, tb) * C - t * B) <= C
  {
    RescaleNear(t, tb.num * AV_TIME_BASE, tb.den);
    assert 1 * tb.den == tb.den;
  }

  lemma FromMicroZero(tb: Rational)
    requires Positive(tb)
    ensures FromMicro(0, tb) == 0
  {
    RescaleWhole(0, 1 * tb.den, tb.num * AV_TIME_BASE, 0);
  }

  /** The packet's dts as the detection sees it. */
  function Seen(s: State, p: Packet): int
    requires Positive(p.tb) && p.dts.Some?
  {
    ToMicro(p.dts.value + FromMicro(s.offset, p.tb), p.tb)
  }

  ghost predicate Repairs(c: Config, s: State, p: Packet) {
    && ValidConfig(c) && Fits(c, s, p) && c.discont && !c.copyTs
    && !c.streams[p.stream].kind.Other? && s.tracks[p.stream].next.Some?
  }

  /** The estimate is either what was seen, which is then near the prediction and no more than
      0.1 s behind the last estimate, or the prediction itself up to 1 microsecond and half a tick. */
  lemma EstimateNear(c: Config, s: State, p: Packet)
    requires Repairs(c, s, p) && p.dts.Some?
    ensures var t, est := s.tracks[p.stream], Step(c, s, p).0.tracks[p.stream].dts;
      var B, C := p.tb.num * AV_TIME_BASE, p.tb.den;
      || (est == Seen(s, p) && !Beyond(est - t.next.value, c.deltaLimit) && est + AV_TIME_BASE / 10 >= t.dts)
      || -2 * C - B <= 2 * (est - t.next.value) * C <= 2 * C + B
  {
    hide RescaleQ, Advance;
    var B, C := p.tb.num * AV_TIME_BASE, p.tb.den;
    var q := p.(dts := Shifted(p.dts, FromMicro(s.offset, p.tb)), pts := Shifted(p.pts, FromMicro(s.offset, p.tb)));
    var t := s.tracks[p.stream];
    var j := Jump(c, s, q);
    if j.Some? {
      var back := FromMicro(j.value, p.tb);
      var est := ToMicro(q.dts.value - back, p.tb);
      assert Step(c, s, p).0.tracks[p.stream].dts == est;
      assert j.value == Seen(s, p) - t.next.value;
      CorrectionError(q.dts.value, t.next.value, p.tb);
    }
  }

  lemma CorrectionError(dts: int, next: int, tb: Rational)
    requires Positive(tb)
    ensures var est := ToMicro(dts - FromMicro(ToMicro(dts, tb) - next, tb), tb);
      var B, C := tb.num * AV_TIME_BASE, tb.den;
      -2 * C - B <= 2 * (est - next) * C <= 2 * C + B
  {
    hide RescaleQ, ToMicro, FromMicro;
    var B, C := tb.num * AV_TIME_BASE, tb.den;
    var seen := ToMicro(dts, tb);
    var delta := seen - next;
    var back := FromMicro(delta, tb);
    var est := ToMicro(dts - back, tb);
    ToMicroNear(dts, tb);
    FromMicroNear(delta, tb);
    ToMicroNear(dts - back, tb);
    assert (dts - back) * B == dts * B - back * B;
    assert delta * C == seen * C - next * C;
    assert 2 * (est - next) * C == 2 * (est * C) - 2 * (next * C);
  }

  // ---------------------------------------------------------------- formats without jumps, and copied timestamps

  /** In a format without jumps the offset stays zero and a packet keeps its stamps or loses
      them; a dts is lost exactly when it is beyond the error threshold of a known prediction, a pts
      exactly when it is and the packet came with a dts, and the estimate never is. */
  lemma SteadyFormat(c: Config, s: State, p: Packet)
    requires ValidConfig(c) && Fits(c, s, p) && !c.discont && s.offset == 0 && c.errorLimit >= 0.0
    ensures var (s', q) := Step(c, s, p); var t := s.tracks[p.stream];
      var checked := !c.copyTs && !c.streams[p.stream].kind.Other? && t.next.Some?;
      && s'.offset == 0 && (q.dts == p.dts || q.dts.None?) && (q.pts == p.pts || q.pts.None?)
      && (p.dts.Some? ==> (q.dts.None? <==> checked && Beyond(ToMicro(p.dts.value, p.tb) - t.next.value, c.errorLimit)))
      && (checked ==> !Beyond(s'.tracks[p.stream].dts - t.next.value, c.errorLimit))
      && (p.pts.Some? ==>
            (q.pts.None? <==>
             checked && p.dts.Some? && Beyond(ToMicro(p.pts.value, p.tb) - t.next.value, c.errorLimit)))
  {
    hide RescaleQ, Advance;
    FromMicroZero(p.tb);
  }

  /** Copied timestamps stay as they are, but for a stream whose counter wrapped around. */
  lemma CopiedUntouched(c: Config, s: State, p: Packet)
    requires ValidConfig(c) && Fits(c, s, p) && c.copyTs && s.offset == 0
    requires s.tracks[p.stream].next.Some? && p.dts.Some? ==> !Wrapped(c, s.tracks[p.stream], p)
    ensures var (s', q) := Step(c, s, p); q == p && s'.offset == 0
  {
    hide RescaleQ, Advance, Wrapped;
    FromMicroZero(p.tb);
    assert p == p.(dts := Shifted(p.dts, 0), pts := Shifted(p.pts, 0));
  }

  // ---------------------------------------------------------------- predictions

  lemma ToMicroNotNegative(t: int, tb: Rational)
    requires Positive(tb) && t >= 0
    ensures ToMicro(t, tb) >= 0
  {
    assert t * (tb.num * AV_TIME_BASE) >= 0;
  }

  lemma ForcedAdvance(dts: int, frame: Rational)
    requires Positive(frame)
    ensures ToMicro(FromMicro(dts, frame) + 1, frame) >= dts
  {
    hide RescaleQ, ToMicro, FromMicro;
    var B, C := frame.num * AV_TIME_BASE, frame.den;
    var n := FromMicro(dts, frame);
    var next := ToMicro(n + 1, frame);
    FromMicroNear(dts, frame);
    ToMicroNear(n + 1, frame);
    assert (n + 1) * B == n * B + B;
    // (n + 1) B >= dts C + B / 2, and next C is within C / 2 of it
    AtLeast(next, dts, next * C, dts * C, C);
  }

  lemma AtLeast(x: int, y: int, xc: int, yc: int, c: int)
    requires c > 0 && xc == x * c && yc == y * c && xc > yc - c
    ensures x >= y
  {
    assert (y - x) * c < c;
    assert y - x >= 1 ==> (y - x) * c >= c;
  }

  /** No prediction lies before the estimate it is made from. */
  lemma AdvanceNotBehind(k: Kind, p: Packet, dts: int)
    requires Positive(p.tb) && ValidKind(k) && p.duration >= 0
    ensures Advance(k, p, dts) >= dts
  {
    hide RescaleQ, ToMicro, FromMicro;
    ToMicroNotNegative(p.duration, p.tb);
    match k
    case Audio(size, rate) =>
    case Video(forced, coded) =>
      if forced.Some? {
        ForcedAdvance(dts, Rational(forced.value.den, forced.value.num));
      } else if coded.Some? {
        ToMicroNotNegative(p.fields, Rational(coded.value.den, 2 * coded.value.num));
      }
    case Other =>
  }

  ghost predicate Ordered(t: Track) {
    t.next.Some? ==> t.next.value >= t.dts
  }

  ghost predicate Inv(s: State) {
    forall k | 0 <= k < |s.tracks| :: Ordered(s.tracks[k])
  }

  lemma StepInv(c: Config, s: State, p: Packet)
    requires ValidConfig(c) && Fits(c, s, p) && p.duration >= 0 && Inv(s)
    ensures Inv(Step(c, s, p).0)
  {
    hide RescaleQ, Advance, Detected;
    var (s1, q) := Processed(c, s, p);
    var st := c.streams[p.stream];
    AdvanceNotBehind(st.kind, q, Updated(st, s1.tracks[p.stream], q).dts);
  }

  // ---------------------------------------------------------------- the common time base

  ghost predicate Common(p: Packet) {
    p.tb == Micro()
  }

  lemma CommonSame(t: int)
    ensures ToMicro(t, Micro()) == t && FromMicro(t, Micro()) == t
  {
    RescaleWhole(t, AV_TIME_BASE, AV_TIME_BASE, t);
  }

  /** In the common time base every packet is moved by exactly the new offset. */
  lemma MovedExactly(c: Config, s: State, p: Packet)
    requires ValidConfig(c) && Fits(c, s, p) && c.discont && Common(p)
    ensures var (s', q) := Step(c, s, p);
      q.dts == Shifted(p.dts, s'.offset) && q.pts == Shifted(p.pts, s'.offset)
  {
    hide ToMicro, FromMicro, Updated;
    CommonSame(s.offset);
    if p.dts.Some? {
      var q := p.(dts := Shifted(p.dts, s.offset), pts := Shifted(p.pts, s.offset));
      var j := Jump(c, s, q);
      if j.Some? {
        CommonSame(j.value);
      }
    }
  }

  /** In the common time base the estimate keeps near the prediction and the last estimate. */
  lemma EstimateClose(c: Config, s: State, p: Packet)
    requires Repairs(c, s, p) && Common(p) && c.deltaLimit >= 0.0 && Ordered(s.tracks[p.stream])
    ensures var t, est := s.tracks[p.stream], Step(c, s, p).0.tracks[p.stream].dts;
      est + AV_TIME_BASE / 10 >= t.dts && !Beyond(est - t.next.value, c.deltaLimit)
  {
    hide ToMicro, FromMicro, Advance;
    CommonSame(s.offset);
    if p.dts.Some? {
      var q := p.(dts := Shifted(p.dts, s.offset), pts := Shifted(p.pts, s.offset));
      CommonSame(q.dts.value);
      var j := Jump(c, s, q);
      if j.Some? {
        CommonSame(j.value);
        CommonSame(q.dts.value - j.value);
      }
    }
  }

  // ---------------------------------------------------------------- whole runs

  ghost predicate StepAt(c: Config, ss: seq<State>, ps: seq<Packet>, qs: seq<Packet>, n: nat)
    requires ValidConfig(c) && n < |ps| && |qs| == |ps| && |ss| == |ps| + 1
  {
    Fits(c, ss[n], ps[n]) && ps[n].duration >= 0 && Step(c, ss[n], ps[n]) == (ss[n + 1], qs[n])
  }

  /** A run: states, packets read and packets delivered. */
  ghost predicate Run(c: Config, ss: seq<State>, ps: seq<Packet>, qs: seq<Packet>) {
    && ValidConfig(c) && c.discont && c.deltaLimit >= 0.0 && |ss| == |ps| + 1 && |qs| == |ps|
    && Inv(ss[0])
    && forall n | 0 <= n < |ps| :: StepAt(c, ss, ps, qs, n)
  }

  lemma {:induction false} RunInv(c: Config, ss: seq<State>, ps: seq<Packet>, qs: seq<Packet>, n: nat)
    requires Run(c, ss, ps, qs) && n <= |ps|
    ensures Inv(ss[n])
  {
    hide Step;
    if n > 0 {
      RunInv(c, ss, ps, qs, n - 1);
      assert StepAt(c, ss, ps, qs, n - 1);
      StepInv(c, ss[n - 1], ps[n - 1]);
    }
  }

  /** Throughout a run a delivered packet is the packet read, both its stamps moved by the offset now in
      force: to within one tick in any time base, exactly in the common one. */
  lemma OffsetLaw(c: Config, ss: seq<State>, ps: seq<Packet>, qs: seq<Packet>, n: nat) returns (m: int)
    requires Run(c, ss, ps, qs) && n < |ps|
    ensures qs[n].dts == Shifted(ps[n].dts, m) && qs[n].pts == Shifted(ps[n].pts, m)
    ensures var B, C := ps[n].tb.num * AV_TIME_BASE, ps[n].tb.den; -B <= m * B - ss[n + 1].offset * C <= B
    ensures Common(ps[n]) ==> m == ss[n + 1].offset
  {
    hide Step;
    assert StepAt(c, ss, ps, qs, n);
    m := MovedByOffset(c, ss[n], ps[n]);
    if Common(ps[n]) {
      MovedExactly(c, ss[n], ps[n]);
      m := ss[n + 1].offset;
    }
  }

  /** Packets of other streams leave a track alone. */
  lemma {:induction false} TrackKept(c: Config, ss: seq<State>, ps: seq<Packet>, qs: seq<Packet>, k: nat, m: nat,
                                     n: nat)
    requires Run(c, ss, ps, qs) && m <= n <= |ps| && k < |c.streams|
    requires forall i | m <= i < n :: ps[i].stream != k
    requires m < |ps| && |ss[m].tracks| == |c.streams|
    ensures |ss[n].tracks| == |c.streams| && ss[n].tracks[k] == ss[m].tracks[k]
  {
    hide Detected, Updated;
    if m < n {
      TrackKept(c, ss, ps, qs, k, m, n - 1);
      assert StepAt(c, ss, ps, qs, n - 1);
    }
  }

  /** For two successive packets m and n of an audio or video stream, whatever happens to the
      other streams in between: the later estimate is at most 0.1 s behind the earlier one and
      within the threshold of the prediction made from packet m; outside the common time base it
      may instead be that prediction, which is never behind, up to a microsecond and half a tick. */
  lemma EstimatesContinue(c: Config, ss: seq<State>, ps: seq<Packet>, qs: seq<Packet>, m: nat, n: nat)
    requires Run(c, ss, ps, qs) && !c.copyTs && m < n < |ps| && ps[m].stream == ps[n].stream < |c.streams|
    requires !c.streams[ps[n].stream].kind.Other?
    requires forall i | m < i < n :: ps[i].stream != ps[n].stream
    ensures var k := ps[n].stream;
      && |ss[m + 1].tracks| == |ss[n + 1].tracks| == |c.streams| && Positive(qs[m].tb)
      && var earlier, later := ss[m + 1].tracks[k].dts, ss[n + 1].tracks[k].dts;
         var predicted := Advance(c.streams[k].kind, qs[m], earlier);
         var B, C := ps[n].tb.num * AV_TIME_BASE, ps[n].tb.den;
         && predicted >= earlier
         && (|| (later + AV_TIME_BASE / 10 >= earlier && !Beyond(later - predicted, c.deltaLimit))
             || (!Common(ps[n]) && -2 * C - B <= 2 * (later - predicted) * C <= 2 * C + B))
  {
    hide ToMicro, FromMicro, Advance, Detected, Beyond;
    var k := ps[n].stream;
    assert StepAt(c, ss, ps, qs, m);
    AdvanceNotBehind(c.streams[k].kind, qs[m], ss[m + 1].tracks[k].dts);
    TrackKept(c, ss, ps, qs, k, m + 1, n);
    RunInv(c, ss, ps, qs, n);
    assert StepAt(c, ss, ps, qs, n);
    if Common(ps[n]) {
      EstimateClose(c, ss[n], ps[n]);
    } else {
      EstimateAnyBase(c, ss[n], ps[n]);
    }
  }

  lemma EstimateAnyBase(c: Config, s: State, p: Packet)
    requires Repairs(c, s, p)
    ensures var t, est := s.tracks[p.stream], Step(c, s, p).0.tracks[p.stream].dts;
      var B, C := p.tb.num * AV_TIME_BASE, p.tb.den;
      || (est + AV_TIME_BASE / 10 >= t.dts && !Beyond(est - t.next.value, c.deltaLimit))
      || -2 * C - B <= 2 * (est - t.next.value) * C <= 2 * C + B
  {
    hide ToMicro, FromMicro, Advance, Beyond, Jump;
    if p.dts.Some? {
      EstimateNear(c, s, p);
    } else {
      var t, est := s.tracks[p.stream], Step(c, s, p).0.tracks[p.stream].dts;
      assert est == t.next.value;
      assert 2 * (est - t.next.value) * p.tb.den == 0;
    }
  }

  // ---------------------------------------------------------------- splices

  function Later(p: Packet, d: int): Packet {
    p.(pts := Shifted(p.pts, d), dts := Shifted(p.dts, d))
  }

  /** d ticks added to the input are undone by D microseconds taken off the offset, whenever the offset
      in ticks changes by exactly d. */
  lemma StepShifted(c: Config, s: State, p: Packet, d: int, D: int)
    requires ValidConfig(c) && Fits(c, s, p) && FromMicro(s.offset - D, p.tb) == FromMicro(s.offset, p.tb) - d
    ensures var (s', q) := Step(c, s, p);
      Step(c, s.(offset := s.offset - D), Later(p, d)) == (s'.(offset := s'.offset - D), q)
  {
    hide ToMicro, FromMicro, Updated, Cleaned, Jump;
    var t := s.(offset := s.offset - D);
    var shift := FromMicro(s.offset, p.tb);
    var q := p.(pts := Shifted(p.pts, shift), dts := Shifted(p.dts, shift));
    assert Later(p, d).(pts := Shifted(Later(p, d).pts, shift - d), dts := Shifted(Later(p, d).dts, shift - d)) == q;
    if q.dts.Some? {
      JumpSame(c, s, t, q);
    }
  }

  /** In a format with jumps, and for a packet with a timestamp, only then. */
  lemma StepShiftedIff(c: Config, s: State, p: Packet, d: int, D: int)
    requires ValidConfig(c) && Fits(c, s, p) && c.discont && (p.dts.Some? || p.pts.Some?)
    ensures var (s', q) := Step(c, s, p);
      Step(c, s.(offset := s.offset - D), Later(p, d)) == (s'.(offset := s'.offset - D), q) <==>
      FromMicro(s.offset - D, p.tb) == FromMicro(s.offset, p.tb) - d
  {
    hide Step, FromMicro;
    var (s', q) := Step(c, s, p);
    var t := s.(offset := s.offset - D);
    var (t', r) := Step(c, t, Later(p, d));
    if FromMicro(t.offset, p.tb) == FromMicro(s.offset, p.tb) - d {
      StepShifted(c, s, p, d, D);
    } else if t' == s'.(offset := s'.offset - D) {
      var m := MovedByOffset(c, s, p);
      var n := MovedByOffset(c, t, Later(p, d));
      assert t.offset - t'.offset == s.offset - s'.offset;
      assert m != d + n;
    }
  }

  /** In the common time base the condition always holds. */
  lemma ShiftIsExact(c: Config, s: State, p: Packet, d: int)
    requires ValidConfig(c) && Fits(c, s, p) && Common(p)
    ensures var (s', q) := Step(c, s, p);
      Step(c, s.(offset := s.offset - d), Later(p, d)) == (s'.(offset := s'.offset - d), q)
  {
    hide Step;
    CommonSame(s.offset);
    CommonSame(s.offset - d);
    StepShifted(c, s, p, d, d);
  }

  /** With ticks of two microseconds and an offset of one it does not: a packet one tick later, with the offset two
      microseconds lower, comes out one tick earlier. */
  lemma ShiftMayRound()
    ensures var c := Config(false, true, 10.0, 10.0, [Stream(Other, 0, 33)]);
      var s := State(1, None, [Track(false, 0, None)]);
      var p := Packet(0, None, Some(0), 0, Rational(1, 500000), 2);
      && ValidConfig(c) && Fits(c, s, p)
      && Step(c, s, p).1.dts == Some(1) && Step(c, s.(offset := s.offset - 2), Later(p, 1)).1.dts == Some(0)
  {
    var c := Config(false, true, 10.0, 10.0, [Stream(Other, 0, 33)]);
    assert ValidKind(c.streams[0].kind);
    assert FromMicro(1, Rational(1, 500000)) == 1 && FromMicro(-1, Rational(1, 500000)) == -1;
  }

  /** The offset itself is not looked at by the detection. */
  lemma JumpSame(c: Config, s: State, t: State, q: Packet)
    requires Fits(c, s, q) && q.dts.Some? && t.last == s.last && t.tracks == s.tracks
    ensures Jump(c, s, q) == Jump(c, t, q) && Cleaned(c, s, q) == Cleaned(c, t, q)
  {
  }

  lemma {:induction false} RunShifted(c: Config, ss: seq<State>, ps: seq<Packet>, qs: seq<Packet>,
                                      ss': seq<State>, ps': seq<Packet>, qs': seq<Packet>, d: int, m: nat, n: nat)
    requires Run(c, ss, ps, qs) && Run(c, ss', ps', qs') && m <= n <= |ps| == |ps'|
    requires forall i | 0 <= i < |ps| :: Common(ps[i])
    requires forall i | m <= i < |ps| :: ps'[i] == Later(ps[i], d)
    requires ss'[m] == ss[m].(offset := ss[m].offset - d)
    ensures ss'[n] == ss[n].(offset := ss[n].offset - d)
    ensures forall i | m <= i < n :: qs'[i] == qs[i]
  {
    hide Step;
    if m < n {
      RunShifted(c, ss, ps, qs, ss', ps', qs', d, m, n - 1);
      assert StepAt(c, ss, ps, qs, n - 1) && StepAt(c, ss', ps', qs', n - 1);
      ShiftIsExact(c, ss[n - 1], ps[n - 1], d);
    }
  }

  ghost predicate OnPrediction(c: Config, s: State, p: Packet) {
    Repairs(c, s, p) && Common(p) && p.dts.Some? && p.dts.value + s.offset == s.tracks[p.stream].next.value
  }

  /** A jump that the detection notices. */
  ghost predicate Noticed(c: Config, t: Track, d: int)
    requires t.next.Some?
  {
    Beyond(d, c.deltaLimit) || t.next.value + d + AV_TIME_BASE / 10 < t.dts
  }

  lemma SpliceStep(c: Config, s: State, p: Packet, d: int)
    requires OnPrediction(c, s, p) && Ordered(s.tracks[p.stream]) && c.deltaLimit >= 0.0 && d != 0
    ensures var (s', q) := Step(c, s, p); var (s'', r) := Step(c, s, Later(p, d));
      && q.dts == s.tracks[p.stream].next
      && (r == q <==> Noticed(c, s.tracks[p.stream], d))
      && (r == q ==> s'' == s'.(offset := s'.offset - d))
  {
    hide ToMicro, FromMicro, Advance;
    CommonSame(s.offset);
    CommonSame(d);
    var t := s.tracks[p.stream];
    CommonSame(t.next.value);
    CommonSame(t.next.value + d);
    var q := p.(pts := Shifted(p.pts, s.offset), dts := Shifted(p.dts, s.offset));
    var r := Later(p, d).(pts := Shifted(Later(p, d).pts, s.offset), dts := Shifted(Later(p, d).dts, s.offset));
    assert Jump(c, s, q).None?;
    assert Jump(c, s, r) == if Noticed(c, t, d) then Some(d) else None;
    assert Shifted(Shifted(q.pts, d), -d) == q.pts;
  }

  /** Two inputs that differ by a jump of d from one packet on, the first of which continues its
      stream exactly: every later packet is delivered alike if and only if the jump is noticed. */
  lemma SpliceIsInvisible(c: Config, ss: seq<State>, ps: seq<Packet>, qs: seq<Packet>,
                          ss': seq<State>, ps': seq<Packet>, qs': seq<Packet>, d: int)
    requires Run(c, ss, ps, qs) && Run(c, ss', ps', qs') && 0 < |ps| == |ps'| && d != 0
    requires forall i | 0 <= i < |ps| :: Common(ps[i]) && ps'[i] == Later(ps[i], d)
    requires ss'[0] == ss[0] && OnPrediction(c, ss[0], ps[0])
    ensures qs' == qs <==> Noticed(c, ss[0].tracks[ps[0].stream], d)
  {
    hide Step;
    assert StepAt(c, ss, ps, qs, 0) && StepAt(c, ss', ps', qs', 0);
    SpliceStep(c, ss[0], ps[0], d);
    if qs'[0] == qs[0] {
      RunShifted(c, ss, ps, qs, ss', ps', qs', d, 1, |ps|);
    }
  }
}
