/**
 Single cases of the demuxer's timestamps: where an estimate comes from, how a new stream joins, and
 counters that wrap around.
 */
module DemuxCases {
  import opened Wrappers
  import opened BinaryGcd
  import opened Rescale
  import opened Time
  import opened Discontinuity
  import opened Predictions

  // ---------------------------------------------------------------- where an estimate comes from

  /** The estimate of a packet delivered with a dts is that dts; without one it is the prediction; and for the first
      packet of a stream its pts, less the frames that the decoder holds back. */
  lemma EstimateOfPacket(c: Config, s: State, p: Packet)
    requires ValidConfig(c) && Fits(c, s, p)
    ensures var (s', q) := Step(c, s, p);
      var st, t, est := c.streams[p.stream], s.tracks[p.stream], s'.tracks[p.stream].dts;
      && q.tb == p.tb && s'.tracks[p.stream].next.Some? && s'.tracks[p.stream].started
      && (q.dts.Some? ==> CloseTo(At(est), Sec(q.dts.value, p.tb), MicroSecond() / 2.0))
      && (q.dts.None? && t.next.Some? ==> est == t.next.value)
      && (q.dts.None? && t.next.None? && !t.started && q.pts.Some? ==>
            CloseTo(At(est), At(st.delay) + Sec(q.pts.value, p.tb), MicroSecond() / 2.0))
      && (q.dts.None? && t.next.None? && !t.started && q.pts.None? ==> est == st.delay)
  {
    hide ToMicro, FromMicro, Detected, Advance, At, MicroSecond, Sec;
    var (s', q) := Step(c, s, p);
    if q.dts.Some? {
      ToMicroAt(q.dts.value, p.tb);
    }
    if q.pts.Some? {
      ToMicroAt(q.pts.value, p.tb);
      AtSum(c.streams[p.stream].delay, ToMicro(q.pts.value, p.tb));
    }
  }

  // ---------------------------------------------------------------- a new stream

  /** The last timestamp is that of the last audio or video packet with a dts. */
  lemma LastStamp(c: Config, s: State, p: Packet)
    requires ValidConfig(c) && Fits(c, s, p) && c.discont
    ensures var (s', q) := Step(c, s, p);
      if c.streams[p.stream].kind.Other? || p.dts.None? then s'.last == s.last
      else q.dts.Some? && q.tb == p.tb && s'.last == Some(ToMicro(q.dts.value, p.tb))
  {
    hide ToMicro, FromMicro, Jump, Updated;
  }

  /** The first packet of a stream, in the common time base: beyond the threshold of the last timestamp it is moved
      there; otherwise it keeps the offset in force. */
  lemma StreamJoins(c: Config, s: State, p: Packet)
    requires ValidConfig(c) && Fits(c, s, p) && Common(p) && c.discont && !c.copyTs && p.dts.Some?
    requires !c.streams[p.stream].kind.Other? && s.tracks[p.stream].next.None?
    ensures var (s', q) := Step(c, s, p); var seen := p.dts.value + s.offset;
      if s.last.Some? && Beyond(seen - s.last.value, c.deltaLimit)
      then q.dts == s.last && s'.offset == s.offset - (seen - s.last.value)
      else q.dts == Some(seen) && s'.offset == s.offset
  {
    hide ToMicro, FromMicro, Updated;
    CommonSame(s.offset);
    var q := p.(dts := Shifted(p.dts, s.offset), pts := Shifted(p.pts, s.offset));
    CommonSame(q.dts.value);
    var j := Jump(c, s, q);
    if j.Some? {
      CommonSame(j.value);
    }
  }

  ghost predicate IsStamp(c: Config, p: Packet) {
    p.stream < |c.streams| && !c.streams[p.stream].kind.Other? && p.dts.Some?
  }

  lemma {:induction false} LastStampOfRun(c: Config, ss: seq<State>, ps: seq<Packet>, qs: seq<Packet>, m: nat, n: nat)
    requires Run(c, ss, ps, qs) && m < n <= |ps| && IsStamp(c, ps[m]) && forall i | m < i < n :: !IsStamp(c, ps[i])
    ensures qs[m].dts.Some? && Positive(ps[m].tb) && ss[n].last == Some(ToMicro(qs[m].dts.value, ps[m].tb))
  {
    hide Step, ToMicro;
    assert StepAt(c, ss, ps, qs, n - 1);
    LastStamp(c, ss[n - 1], ps[n - 1]);
    if m < n - 1 {
      LastStampOfRun(c, ss, ps, qs, m, n - 1);
    }
  }

  /** In a run: the first packet n of an audio or video stream, after packet m was the last with a dts. Both in the
      common time base, n is delivered at the time of m if it is beyond the threshold of it, else within the
      threshold. */
  lemma NewStreamFollows(c: Config, ss: seq<State>, ps: seq<Packet>, qs: seq<Packet>, m: nat, n: nat)
    requires Run(c, ss, ps, qs) && !c.copyTs && m < n < |ps| && IsStamp(c, ps[m]) && IsStamp(c, ps[n])
    requires forall i | m < i < n :: !IsStamp(c, ps[i])
    requires Common(ps[m]) && Common(ps[n])
    requires |ss[n].tracks| == |c.streams| && ss[n].tracks[ps[n].stream].next.None?
    ensures qs[m].dts.Some? && qs[n].dts.Some?
    ensures var seen := ps[n].dts.value + ss[n].offset;
      if Beyond(seen - qs[m].dts.value, c.deltaLimit) then qs[n].dts == qs[m].dts else qs[n].dts.value == seen
  {
    hide Step, ToMicro, Beyond;
    assert StepAt(c, ss, ps, qs, n);
    LastStampOfRun(c, ss, ps, qs, m, n);
    CommonSame(qs[m].dts.value);
    StreamJoins(c, ss[n], ps[n]);
  }

  // ---------------------------------------------------------------- counters that wrap around

  /** With the counter of bits wide wrapped around once more, the stamp d is over ten times closer to next. */
  predicate WrapFits(bits: nat, d: int, next: int) {
    bits < 60 && 10 * Abs(d + Pow2(bits) - next) + 10 <= Abs(d - next)
  }

  lemma TenthAbove(x: nat, y: nat)
    ensures x < y / 10 <==> 10 * x + 10 <= y
  {
  }

  lemma WrappedIff(c: Config, t: Track, p: Packet)
    requires p.stream < |c.streams| && p.dts.Some? && t.next.Some? && Common(p)
    ensures Wrapped(c, t, p) <==>
      c.discont && WrapFits(c.streams[p.stream].wrapBits, p.dts.value, t.next.value)
  {
    var w := Pow2(c.streams[p.stream].wrapBits);
    hide Pow2, ToMicro;
    CommonSame(p.dts.value);
    CommonSame(p.dts.value + w);
    TenthAbove(Abs(p.dts.value + w - t.next.value), Abs(p.dts.value - t.next.value));
  }

  /** In the common time base a packet is moved, and then to its prediction, if and only if it is beyond the threshold
      or over 0.1 s behind the estimate; with copied timestamps its counter must have wrapped around besides. */
  lemma MovedIff(c: Config, s: State, p: Packet)
    requires ValidConfig(c) && Fits(c, s, p) && Common(p) && (c.discont || c.copyTs) && p.dts.Some?
    requires !c.streams[p.stream].kind.Other? && s.tracks[p.stream].next.Some?
    ensures var t, d := s.tracks[p.stream], p.dts.value + s.offset;
      var moved := c.discont && (c.copyTs ==> WrapFits(c.streams[p.stream].wrapBits, d, t.next.value)) &&
                   (Beyond(d - t.next.value, c.deltaLimit) || d + 100000 < t.dts);
      && Step(c, s, p).1.dts == (if moved then t.next else Some(d))
      && Step(c, s, p).0.offset == s.offset + (if moved then t.next.value - d else 0)
  {
    var t, d := s.tracks[p.stream], p.dts.value + s.offset;
    hide ToMicro, FromMicro, Updated, WrapFits, Wrapped;
    CommonSame(s.offset);
    var q := p.(dts := Shifted(p.dts, s.offset), pts := Shifted(p.pts, s.offset));
    WrappedIff(c, t, q);
    CommonSame(d);
    CommonSame(d - t.next.value);
  }

  /** With copied timestamps, in the common time base: a packet that would be on its prediction but for a counter of
      the stream that wrapped around is moved there. */
  lemma WrapIsRepaired(c: Config, s: State, p: Packet)
    requires ValidConfig(c) && Fits(c, s, p) && Common(p) && c.discont && c.copyTs && p.dts.Some?
    requires !c.streams[p.stream].kind.Other? && s.tracks[p.stream].next.Some?
    requires var bits := c.streams[p.stream].wrapBits;
      && 4 <= bits < 60 && Beyond(Pow2(bits), c.deltaLimit)
      && p.dts.value + s.offset + Pow2(bits) == s.tracks[p.stream].next.value
    ensures Step(c, s, p).1.dts == s.tracks[p.stream].next
    ensures Step(c, s, p).0.offset == s.offset + Pow2(c.streams[p.stream].wrapBits)
  {
    hide ToMicro, FromMicro, Updated, Pow2;
    var bits := c.streams[p.stream].wrapBits;
    AtLeastSixteen(bits);
    CommonSame(s.offset);
    var q := p.(dts := Shifted(p.dts, s.offset), pts := Shifted(p.pts, s.offset));
    CommonSame(q.dts.value);
    CommonSame(q.dts.value + Pow2(bits));
    var w: int := Pow2(bits);
    CommonSame(-w);
    assert Wrapped(c, s.tracks[p.stream], q);
  }

  lemma {:induction false} AtLeastSixteen(bits: nat)
    requires bits >= 4
    ensures Pow2(bits) >= 16
  {
    if bits > 4 {
      AtLeastSixteen(bits - 1);
    } else {
      assert Pow2(2) == 4;
    }
  }
}
