/**
 Stream looping in the demuxer: the same input is read again and again, and every
 pass is shifted behind the one before it.
 */
module StreamLoop {
  import opened Wrappers
  import opened Rescale

  datatype Timestamp = Timestamp(ts: Option<int>, tb: Rational)

  /** A packet as it comes from the file, after the file's own offset and scale. */
  datatype Packet = Packet(pts: Option<int>, dts: Option<int>, duration: int, tb: Rational)

  /** The total duration of the passes before this one, and the bounds of all timestamps so far. */
  datatype State = State(duration: int, durationTb: Rational, min: Timestamp, max: Timestamp, loop: int)

  function Initial(loop: int): State {
    var unset := Timestamp(None, Rational(1, 1));
    State(0, Rational(1, 1), unset, unset, loop)
  }

  ghost predicate Valid(s: State) {
    Positive(s.durationTb) && Positive(s.min.tb) && Positive(s.max.tb)
  }

  /** av_compare_ts below zero. */
  predicate Earlier(a: int, ta: Rational, b: int, tb: Rational) {
    b * (tb.num * ta.den) > a * (ta.num * tb.den)
  }

  /** Audio decoders report the end of the file themselves: durations are then not counted. */
  function Counted(p: Packet, audioDec: bool): int {
    if audioDec then 0 else p.duration
  }

  function Delay(s: State, tb: Rational): int
    requires Valid(s) && Positive(tb)
  {
    RescaleQ(s.duration, s.durationTb, tb, NearInf)
  }

  /** The packet behind all earlier passes. */
  function Moved(s: State, p: Packet): Packet
    requires Valid(s) && Positive(p.tb)
  {
    p.(pts := Shifted(p.pts, Delay(s, p.tb)), dts := Shifted(p.dts, Delay(s, p.tb)))
  }

  /** The bounds after one packet: the loop part of ts_fixup. */
  function Fixed(s: State, p: Packet, audioDec: bool): State
    requires Valid(s) && Positive(p.tb)
  {
    if p.pts.None? then s
    else
      var pts := p.pts.value + Delay(s, p.tb);
      var end := pts + Counted(p, audioDec);
      s.(max := if s.max.ts.None? || Earlier(s.max.ts.value, s.max.tb, end, p.tb)
                then Timestamp(Some(end), p.tb) else s.max,
         min := if s.min.ts.None? || Earlier(pts, p.tb, s.min.ts.value, s.min.tb)
                then Timestamp(Some(pts), p.tb) else s.min)
  }

  /** The next pass begins; end is where the audio decoders ended, if they said so. */
  function Restarted(s: State, end: Timestamp): State
    requires Valid(s) && (end.ts.Some? ==> Positive(end.tb))
  {
    var max := if end.ts.Some? && (s.max.ts.None? || Earlier(s.max.ts.value, s.max.tb, end.ts.value, end.tb))
               then end else s.max;
    var min := if s.min.ts.None? then 0 else s.min.ts.value;
    s.(max := max,
       duration := if max.ts.Some? then max.ts.value - RescaleQ(min, s.min.tb, max.tb, NearInf) else s.duration,
       durationTb := max.tb,
       loop := if s.loop > 0 then s.loop - 1 else s.loop)
  }

  class Demuxer {
    var duration: int
    var durationTb: Rational
    var min: Timestamp
    var max: Timestamp
    var loop: int
    const audioDec: bool

    ghost function Model(): State
      reads this
    {
      State(duration, durationTb, min, max, loop)
    }

    constructor (loop: int, audioDec: bool)
      ensures Model() == Initial(loop) && this.audioDec == audioDec && Valid(Model())
    {
      duration, durationTb, this.loop, this.audioDec := 0, Rational(1, 1), loop, audioDec;
      min, max := Timestamp(None, Rational(1, 1)), Timestamp(None, Rational(1, 1));
    }

    /** Moves the packet behind the earlier passes and keeps the bounds. */
    method Fixup(p: Packet) returns (q: Packet)
      requires Valid(Model()) && Positive(p.tb)
      modifies this`min, this`max
      ensures Valid(Model()) && Model() == Fixed(old(Model()), p, audioDec)
      ensures q == Moved(old(Model()), p)
    {
      var delay := RescaleQ(duration, durationTb, p.tb, NearInf);
      q := p;
      if q.pts.Some? {
        var counted := if audioDec then 0 else q.duration;
        q := q.(pts := Some(q.pts.value + delay));
        if max.ts.None? || Earlier(max.ts.value, max.tb, q.pts.value + counted, q.tb) {
          max := Timestamp(Some(q.pts.value + counted), q.tb);
        }
        if min.ts.None? || Earlier(q.pts.value, q.tb, min.ts.value, min.tb) {
          min := Timestamp(q.pts, q.tb);
        }
      }
      if q.dts.Some? {
        q := q.(dts := Some(q.dts.value + delay));
      }
    }

    /** Nothing changes if the file cannot seek. */
    method SeekToStart(end: Timestamp, seekOk: bool)
      requires Valid(Model()) && (end.ts.Some? ==> Positive(end.tb))
      modifies this
      ensures Valid(Model()) && Model() == if seekOk then Restarted(old(Model()), end) else old(Model())
    {
      if !seekOk { return; }
      if end.ts.Some? && (max.ts.None? || Earlier(max.ts.value, max.tb, end.ts.value, end.tb)) {
        max := end;
      }
      if max.ts.Some? {
        var m := if min.ts.None? then 0 else min.ts.value;
        duration := max.ts.value - RescaleQ(m, min.tb, max.tb, NearInf);
      }
      durationTb := max.tb;
      if loop > 0 {
        loop := loop - 1;
      }
    }
  }

  // ---------------------------------------------------------------- runs

  ghost predicate TimeBases(ps: seq<Packet>) {
    forall i | 0 <= i < |ps| :: Positive(ps[i].tb)
  }

  ghost predicate OneTimeBase(ps: seq<Packet>, tb: Rational) {
    Positive(tb) && forall i | 0 <= i < |ps| :: ps[i].tb == tb
  }

  /** The state after n packets of a pass that began in s. */
  ghost function AfterPackets(s: State, ps: seq<Packet>, audioDec: bool, n: nat): (r: State)
    requires Valid(s) && TimeBases(ps) && n <= |ps|
    ensures Valid(r) && r.duration == s.duration && r.durationTb == s.durationTb && r.loop == s.loop
  {
    if n == 0 then s else Fixed(AfterPackets(s, ps, audioDec, n - 1), ps[n - 1], audioDec)
  }

  /** The end the audio decoders report: the same in every pass, relative to its start. */
  ghost function EndOfPass(s: State, tail: Option<int>, tb: Rational): Timestamp
    requires Valid(s) && Positive(tb)
  {
    Timestamp(Shifted(tail, Delay(s, tb)), tb)
  }

  /** The state at the start of pass k, when every pass reads the packets ps; tb is the time base of tail. */
  ghost function AfterPasses(s: State, ps: seq<Packet>, tb: Rational, audioDec: bool, tail: Option<int>,
                             k: nat): (r: State)
    requires Valid(s) && TimeBases(ps) && Positive(tb)
    ensures Valid(r)
  {
    if k == 0 then s
    else
      var last := AfterPasses(s, ps, tb, audioDec, tail, k - 1);
      Restarted(AfterPackets(last, ps, audioDec, |ps|), EndOfPass(last, tail, tb))
  }

  // ---------------------------------------------------------------- the length of one pass

  function Least(a: Option<int>, b: Option<int>): Option<int> {
    if a.None? || (b.Some? && b.value < a.value) then b else a
  }

  function Greatest(a: Option<int>, b: Option<int>): Option<int> {
    if a.None? || (b.Some? && b.value > a.value) then b else a
  }

  function Begin(ps: seq<Packet>, n: nat): Option<int>
    requires n <= |ps|
  {
    if n == 0 then None else Least(Begin(ps, n - 1), ps[n - 1].pts)
  }

  function End(ps: seq<Packet>, audioDec: bool, n: nat): Option<int>
    requires n <= |ps|
  {
    if n == 0 then None else Greatest(End(ps, audioDec, n - 1), Shifted(ps[n - 1].pts, Counted(ps[n - 1], audioDec)))
  }

  /** From the first timestamp to the last end, the decoders' one included. */
  function Length(ps: seq<Packet>, audioDec: bool, tail: Option<int>): int {
    var begin, end := Begin(ps, |ps|), Greatest(End(ps, audioDec, |ps|), tail);
    if end.None? then 0 else end.value - (if begin.None? then 0 else begin.value)
  }

  lemma {:induction false} BeginBounds(ps: seq<Packet>, n: nat)
    requires n <= |ps|
    ensures forall i | 0 <= i < n && ps[i].pts.Some? :: Begin(ps, n).Some? && Begin(ps, n).value <= ps[i].pts.value
    ensures Begin(ps, n).Some? ==> exists i | 0 <= i < n :: ps[i].pts == Begin(ps, n)
  {
    if n > 0 {
      BeginBounds(ps, n - 1);
    }
  }

  lemma {:induction false} EndBounds(ps: seq<Packet>, audioDec: bool, n: nat)
    requires n <= |ps|
    ensures forall i | 0 <= i < n && ps[i].pts.Some? ::
              End(ps, audioDec, n).Some? && ps[i].pts.value + Counted(ps[i], audioDec) <= End(ps, audioDec, n).value
    ensures End(ps, audioDec, n).Some? ==>
              exists i | 0 <= i < n :: Shifted(ps[i].pts, Counted(ps[i], audioDec)) == End(ps, audioDec, n)
  {
    if n > 0 {
      EndBounds(ps, audioDec, n - 1);
    }
  }

  ghost predicate Durations(ps: seq<Packet>) {
    forall i | 0 <= i < |ps| :: ps[i].duration >= 0
  }

  /** A pass that holds a timestamp never has a negative length. */
  lemma LengthNotNegative(ps: seq<Packet>, audioDec: bool, tail: Option<int>)
    requires Durations(ps) && (Begin(ps, |ps|).None? && tail.Some? ==> tail.value >= 0)
    ensures Length(ps, audioDec, tail) >= 0
  {
    BeginBounds(ps, |ps|);
    EndBounds(ps, audioDec, |ps|);
  }

  /** Where a packet ends: after its duration, unless audio decoders report ends themselves. */
  predicate EndsAt(p: Packet, audioDec: bool, e: int) {
    p.pts.Some? && e == (if audioDec then p.pts.value else p.pts.value + p.duration)
  }

  /** The length is the longest time from the beginning of a packet to the end of one, or to the end that the decoders
      reported. */
  lemma LengthIsLongest(ps: seq<Packet>, audioDec: bool, tail: Option<int>) returns (b: int, e: int)
    requires Begin(ps, |ps|).Some?
    ensures Length(ps, audioDec, tail) == e - b
    ensures exists i | 0 <= i < |ps| :: ps[i].pts == Some(b)
    ensures forall i | 0 <= i < |ps| && ps[i].pts.Some? :: b <= ps[i].pts.value
    ensures tail == Some(e) || exists i | 0 <= i < |ps| :: EndsAt(ps[i], audioDec, e)
    ensures (tail.Some? ==> tail.value <= e) && forall i, x | 0 <= i < |ps| && EndsAt(ps[i], audioDec, x) :: x <= e
  {
    hide Begin, End;
    BeginBounds(ps, |ps|);
    EndBounds(ps, audioDec, |ps|);
    var i :| 0 <= i < |ps| && ps[i].pts == Begin(ps, |ps|);
    var end := End(ps, audioDec, |ps|);
    assert end.Some?;
    var j :| 0 <= j < |ps| && Shifted(ps[j].pts, Counted(ps[j], audioDec)) == end;
    b, e := Begin(ps, |ps|).value, Greatest(end, tail).value;
    assert EndsAt(ps[j], audioDec, end.value);
  }

  // ---------------------------------------------------------------- passes

  lemma RescaleSame(a: int, tb: Rational)
    requires Positive(tb)
    ensures RescaleQ(a, tb, tb, NearInf) == a
  {
    RescaleWhole(a, tb.num * tb.den, tb.num * tb.den, a);
  }

  lemma RescaleZero(t: Rational, u: Rational)
    requires Positive(t) && Positive(u)
    ensures RescaleQ(0, t, u, NearInf) == 0
  {
    RescaleWhole(0, t.num * u.den, u.num * t.den, 0);
  }

  lemma EarlierSame(a: int, b: int, tb: Rational)
    requires Positive(tb)
    ensures Earlier(a, tb, b, tb) <==> a < b
  {
    var c := tb.num * tb.den;
    assert a * c < b * c <==> (b - a) * c > 0;
    assert (b - a) * c > 0 <==> b > a;
  }

  /** All bounds are in the time base tb. */
  ghost predicate Bounds(s: State, tb: Rational, begin: Option<int>, end: Option<int>) {
    s.min.ts == begin && s.max.ts == end && (begin.Some? ==> s.min.tb == tb) && (end.Some? ==> s.max.tb == tb)
  }

  lemma FixedBounds(s: State, p: Packet, audioDec: bool, begin: Option<int>, end: Option<int>, delay: int)
    requires Valid(s) && Positive(p.tb) && Bounds(s, p.tb, begin, end) && Delay(s, p.tb) == delay
    ensures Bounds(Fixed(s, p, audioDec), p.tb, Least(begin, Shifted(p.pts, delay)),
                   Greatest(end, Shifted(p.pts, delay + Counted(p, audioDec))))
  {
    hide RescaleQ, Earlier;
    if p.pts.Some? {
      var pts := p.pts.value + delay;
      if end.Some? {
        EarlierSame(end.value, pts + Counted(p, audioDec), p.tb);
      }
      if begin.Some? {
        EarlierSame(pts, begin.value, p.tb);
      }
    }
  }

  lemma ShiftedBounds(x: Option<int>, b: Option<int>, p: Option<int>, c: int, delay: int)
    ensures Least(Least(x, Shifted(b, delay)), Shifted(p, delay)) == Least(x, Shifted(Least(b, p), delay))
    ensures Greatest(Greatest(x, Shifted(b, delay)), Shifted(p, delay + c)) ==
            Greatest(x, Shifted(Greatest(b, Shifted(p, c)), delay))
  {
  }

  lemma BoundsUnfold(ps: seq<Packet>, audioDec: bool, n: nat)
    requires n <= |ps|
    ensures n == 0 ==> Begin(ps, n).None? && End(ps, audioDec, n).None?
    ensures n > 0 ==>
      && Begin(ps, n) == Least(Begin(ps, n - 1), ps[n - 1].pts)
      && End(ps, audioDec, n) ==
         Greatest(End(ps, audioDec, n - 1), Shifted(ps[n - 1].pts, Counted(ps[n - 1], audioDec)))
  {
    hide Least, Greatest, Shifted, Counted;
  }

  /** Within a pass the bounds grow by the shifted bounds of the packets read. */
  lemma {:induction false} BoundsInPass(s: State, ps: seq<Packet>, tb: Rational, audioDec: bool, n: nat,
                                        begin: Option<int>, end: Option<int>, delay: int)
    requires Valid(s) && OneTimeBase(ps, tb) && n <= |ps| && Bounds(s, tb, begin, end) && Delay(s, tb) == delay
    ensures Bounds(AfterPackets(s, ps, audioDec, n), tb, Least(begin, Shifted(Begin(ps, n), delay)),
                   Greatest(end, Shifted(End(ps, audioDec, n), delay)))
  {
    BoundsUnfold(ps, audioDec, n);
    if n == 0 {
      hide Begin, End;
    } else {
      hide RescaleQ, Earlier, Fixed, Counted, Begin, End, Least, Greatest, Shifted, Bounds;
      var p, b, e := ps[n - 1], Begin(ps, n - 1), End(ps, audioDec, n - 1);
      BoundsInPass(s, ps, tb, audioDec, n - 1, begin, end, delay);
      FixedBounds(AfterPackets(s, ps, audioDec, n - 1), p, audioDec,
                  Least(begin, Shifted(b, delay)), Greatest(end, Shifted(e, delay)), delay);
      ShiftedBounds(begin, b, p.pts, 0, delay);
      ShiftedBounds(end, e, p.pts, Counted(p, audioDec), delay);
    }
  }

  /** What holds at the start of pass k. */
  ghost predicate AtPass(s: State, ps: seq<Packet>, tb: Rational, audioDec: bool, tail: Option<int>, k: nat)
    requires Positive(tb)
  {
    var length := Length(ps, audioDec, tail);
    && Valid(s)
    && Delay(s, tb) == k * length
    && (k == 0 || Greatest(End(ps, audioDec, |ps|), tail).None? ==> s.duration == 0)
    && (k == 0 ==> Bounds(s, tb, None, None))
    && (k > 0 ==> Bounds(s, tb, Begin(ps, |ps|), Shifted(Greatest(End(ps, audioDec, |ps|), tail), (k - 1) * length)))
  }

  lemma RestartBounds(s: State, tb: Rational, begin: Option<int>, end: Option<int>, tail: Option<int>)
    requires Valid(s) && Positive(tb) && Bounds(s, tb, begin, end)
    ensures var r := Restarted(s, Timestamp(tail, tb)); var e := Greatest(end, tail);
      && Valid(r) && Bounds(r, tb, begin, e)
      && (e.Some? ==> Delay(r, tb) == e.value - (if begin.None? then 0 else begin.value))
      && (e.None? ==> r.duration == s.duration)
  {
    hide RescaleQ, Earlier;
    if end.Some? && tail.Some? {
      EarlierSame(end.value, tail.value, tb);
    }
    var r := Restarted(s, Timestamp(tail, tb));
    if begin.Some? {
      RescaleSame(begin.value, tb);
    } else {
      RescaleZero(s.min.tb, tb);
    }
    RescaleSame(r.duration, tb);
  }

  /** Adding a longer shift of the same bounds replaces them. */
  lemma LaterBoundsWin(ps: seq<Packet>, audioDec: bool, tail: Option<int>, a: int, b: int)
    requires a <= b
    ensures var begin, end := Begin(ps, |ps|), End(ps, audioDec, |ps|);
      && Greatest(Greatest(Shifted(Greatest(end, tail), a), Shifted(end, b)), Shifted(tail, b)) ==
         Shifted(Greatest(end, tail), b)
      && (0 <= b ==> Least(begin, Shifted(begin, b)) == begin)
  {
  }

  lemma NextPass(s: State, ps: seq<Packet>, tb: Rational, audioDec: bool, tail: Option<int>, k: nat)
    requires OneTimeBase(ps, tb) && Length(ps, audioDec, tail) >= 0 && AtPass(s, ps, tb, audioDec, tail, k)
    ensures AtPass(Restarted(AfterPackets(s, ps, audioDec, |ps|), EndOfPass(s, tail, tb)),
                   ps, tb, audioDec, tail, k + 1)
  {
    hide RescaleQ, Earlier, Begin, End, AfterPackets;
    var length := Length(ps, audioDec, tail);
    var delay := k * length;
    var begin, end := Begin(ps, |ps|), End(ps, audioDec, |ps|);
    var last := AfterPackets(s, ps, audioDec, |ps|);
    assert delay >= 0;
    assert (k + 1) * length == delay + length;
    if k == 0 {
      BoundsInPass(s, ps, tb, audioDec, |ps|, None, None, 0);
      assert Shifted(begin, 0) == begin && Shifted(end, 0) == end && Shifted(tail, 0) == tail;
      RestartBounds(last, tb, begin, end, tail);
    } else {
      var before := (k - 1) * length;
      assert before == delay - length;
      var e := Shifted(Greatest(end, tail), before);
      BoundsInPass(s, ps, tb, audioDec, |ps|, begin, e, delay);
      LaterBoundsWin(ps, audioDec, tail, before, delay);
      RestartBounds(last, tb, begin, Greatest(e, Shifted(end, delay)), Shifted(tail, delay));
    }
    RescaleZero(Restarted(last, EndOfPass(s, tail, tb)).durationTb, tb);
  }

  lemma {:induction false} EveryPass(loop: int, ps: seq<Packet>, tb: Rational, audioDec: bool, tail: Option<int>,
                                     k: nat)
    requires OneTimeBase(ps, tb) && Length(ps, audioDec, tail) >= 0
    ensures AtPass(AfterPasses(Initial(loop), ps, tb, audioDec, tail, k), ps, tb, audioDec, tail, k)
  {
    if k == 0 {
      RescaleZero(Rational(1, 1), tb);
    } else {
      EveryPass(loop, ps, tb, audioDec, tail, k - 1);
      NextPass(AfterPasses(Initial(loop), ps, tb, audioDec, tail, k - 1), ps, tb, audioDec, tail, k - 1);
    }
  }

  /** By how much packet n of pass k is moved. */
  ghost function DelayInPass(loop: int, ps: seq<Packet>, tb: Rational, audioDec: bool, tail: Option<int>, k: nat,
                             n: nat): int
    requires OneTimeBase(ps, tb) && n < |ps|
  {
    Delay(AfterPackets(AfterPasses(Initial(loop), ps, tb, audioDec, tail, k), ps, audioDec, n), tb)
  }

  /** Looping unrolls exactly: every packet of pass k is the packet of the first pass, moved
      by k times the length of one pass. */
  lemma LoopUnrolls(loop: int, ps: seq<Packet>, tb: Rational, audioDec: bool, tail: Option<int>, k: nat, n: nat)
    requires OneTimeBase(ps, tb) && Length(ps, audioDec, tail) >= 0 && n < |ps|
    ensures DelayInPass(loop, ps, tb, audioDec, tail, k, n) == k * Length(ps, audioDec, tail)
    ensures var shift := k * Length(ps, audioDec, tail);
      Moved(AfterPackets(AfterPasses(Initial(loop), ps, tb, audioDec, tail, k), ps, audioDec, n), ps[n])
      == ps[n].(pts := Shifted(ps[n].pts, shift), dts := Shifted(ps[n].dts, shift))
  {
    EveryPass(loop, ps, tb, audioDec, tail, k);
  }

  /** No packet of a pass begins before the pass before it has ended, by its packets or by what
      the decoders report; the next pass begins exactly at the later of the two. */
  lemma PassesAbut(loop: int, ps: seq<Packet>, tb: Rational, audioDec: bool, tail: Option<int>, k: nat)
    requires OneTimeBase(ps, tb) && Durations(ps) && Begin(ps, |ps|).Some?
    ensures forall i, j | 0 <= i < |ps| && 0 <= j < |ps| && ps[i].pts.Some? && ps[j].pts.Some? ::
              ps[i].pts.value + DelayInPass(loop, ps, tb, audioDec, tail, k, i) + Counted(ps[i], audioDec)
              <= ps[j].pts.value + DelayInPass(loop, ps, tb, audioDec, tail, k + 1, j)
    ensures tail.Some? ==> forall j | 0 <= j < |ps| && ps[j].pts.Some? ::
              tail.value + k * Length(ps, audioDec, tail) <=
                  ps[j].pts.value + DelayInPass(loop, ps, tb, audioDec, tail, k + 1, j)
    ensures Greatest(End(ps, audioDec, |ps|), tail).Some?
    ensures exists j | 0 <= j < |ps| && ps[j].pts.Some? ::
              ps[j].pts.value + DelayInPass(loop, ps, tb, audioDec, tail, k + 1, j)
              == Greatest(End(ps, audioDec, |ps|), tail).value + k * Length(ps, audioDec, tail)
    ensures tail.None? ==> exists i, j | 0 <= i < |ps| && 0 <= j < |ps| && ps[i].pts.Some? && ps[j].pts.Some? ::
              ps[i].pts.value + DelayInPass(loop, ps, tb, audioDec, tail, k, i) + Counted(ps[i], audioDec)
              == ps[j].pts.value + DelayInPass(loop, ps, tb, audioDec, tail, k + 1, j)
  {
    hide Begin, End, DelayInPass, AfterPasses;
    LengthNotNegative(ps, audioDec, tail);
    BeginBounds(ps, |ps|);
    EndBounds(ps, audioDec, |ps|);
    var length := Length(ps, audioDec, tail);
    var d := k * length;
    assert (k + 1) * length == d + length;
    forall i, j | 0 <= i < |ps| && 0 <= j < |ps| && ps[i].pts.Some? && ps[j].pts.Some?
      ensures ps[i].pts.value + DelayInPass(loop, ps, tb, audioDec, tail, k, i) + Counted(ps[i], audioDec)
              <= ps[j].pts.value + DelayInPass(loop, ps, tb, audioDec, tail, k + 1, j)
    {
      LoopUnrolls(loop, ps, tb, audioDec, tail, k, i);
      LoopUnrolls(loop, ps, tb, audioDec, tail, k + 1, j);
    }
    forall j | 0 <= j < |ps| && ps[j].pts.Some? && tail.Some?
      ensures tail.value + d <= ps[j].pts.value + DelayInPass(loop, ps, tb, audioDec, tail, k + 1, j)
    {
      LoopUnrolls(loop, ps, tb, audioDec, tail, k + 1, j);
    }
    var first :| 0 <= first < |ps| && ps[first].pts == Begin(ps, |ps|);
    LoopUnrolls(loop, ps, tb, audioDec, tail, k + 1, first);
    assert ps[first].pts.value + DelayInPass(loop, ps, tb, audioDec, tail, k + 1, first)
      == Greatest(End(ps, audioDec, |ps|), tail).value + d;
    if tail.None? {
      var i :| 0 <= i < |ps| && Shifted(ps[i].pts, Counted(ps[i], audioDec)) == End(ps, audioDec, |ps|);
      var j :| 0 <= j < |ps| && ps[j].pts == Begin(ps, |ps|);
      LoopUnrolls(loop, ps, tb, audioDec, tail, k, i);
      LoopUnrolls(loop, ps, tb, audioDec, tail, k + 1, j);
      assert ps[i].pts.value + DelayInPass(loop, ps, tb, audioDec, tail, k, i) + Counted(ps[i], audioDec)
        == ps[j].pts.value + DelayInPass(loop, ps, tb, audioDec, tail, k + 1, j);
    }
  }

  /** A loop count of n makes exactly n further passes; a negative one never runs out. */
  lemma {:induction false} LoopCount(loop: int, ps: seq<Packet>, tb: Rational, audioDec: bool, tail: Option<int>,
                                     k: nat)
    requires TimeBases(ps) && Positive(tb)
    ensures AfterPasses(Initial(loop), ps, tb, audioDec, tail, k).loop ==
            if loop < 0 then loop else if k < loop then loop - k else 0
  {
    hide RescaleQ, Earlier;
    if k > 0 {
      LoopCount(loop, ps, tb, audioDec, tail, k - 1);
    }
  }
}
