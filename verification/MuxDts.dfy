/**
 The muxer's repair of decoding timestamps. Every packet of a stream passes
 through it in order; the stream remembers the dts it wrote last.
 */
module MuxDts {

  /** AV_NOPTS_VALUE: a timestamp that is missing. */
  const NOPTS: int := -0x8000_0000_0000_0000

  datatype Kind = Audio | Video | Subtitle | Data | Attachment

  /** Flags of the container and of the stream; timestamps are already in its time base. */
  datatype Config = Config(kind: Kind, noTimestamps: bool, nonStrict: bool)

  datatype Packet = Packet(pts: int, dts: int)

  function Max(a: int, b: int): int { if a >= b then a else b }

  function Min(a: int, b: int): int { if a <= b then a else b }

  predicate Ordered(kind: Kind) {
    kind.Audio? || kind.Video? || kind.Subtitle?
  }

  /** Two consecutive packets must be this far apart. */
  function Gap(cfg: Config): nat { if cfg.nonStrict then 0 else 1 }

  /** A packet that decodes after it is shown gets the value nearest to last + 1 between the two. */
  function Repaired(last: int, p: Packet): Packet {
    if p.dts != NOPTS && p.pts != NOPTS && p.dts > p.pts then
      var guess := Min(Max(last + 1, p.pts), p.dts);
      Packet(guess, guess)
    else p
  }

  predicate TooEarly(cfg: Config, last: int, p: Packet) {
    Ordered(cfg.kind) && p.dts != NOPTS && last != NOPTS && p.dts < last + Gap(cfg)
  }

  function Raised(cfg: Config, last: int, p: Packet): Packet {
    if TooEarly(cfg, last, p) then
      Packet(if p.pts >= p.dts then Max(p.pts, last + Gap(cfg)) else p.pts, last + Gap(cfg))
    else p
  }

  function Fixed(cfg: Config, last: int, p: Packet): Packet {
    if cfg.noTimestamps then p else Raised(cfg, last, Repaired(last, p))
  }

  class MuxStream {
    const cfg: Config
    const exitOnError: bool
    var lastMuxDts: int

    constructor (cfg: Config, exitOnError: bool)
      ensures this.cfg == cfg && this.exitOnError == exitOnError && lastMuxDts == NOPTS
    {
      this.cfg, this.exitOnError, lastMuxDts := cfg, exitOnError, NOPTS;
    }

    /** mux_fixup_ts after rescaling; ok is false when the packet is refused. */
    method FixupTs(pkt: Packet) returns (ok: bool, out: Packet)
      modifies this`lastMuxDts
      ensures ok <==> !(exitOnError && !cfg.noTimestamps &&
                        TooEarly(cfg, old(lastMuxDts), Repaired(old(lastMuxDts), pkt)))
      ensures ok ==> out == Fixed(cfg, old(lastMuxDts), pkt) && lastMuxDts == out.dts
      ensures !ok ==> lastMuxDts == old(lastMuxDts)
    {
      var pts, dts := pkt.pts, pkt.dts;
      if !cfg.noTimestamps {
        if dts != NOPTS && pts != NOPTS && dts > pts {
          // the sum of three numbers less the smallest and the largest
          var next := lastMuxDts + 1;
          var guess := pts + dts + next - Min(Min(pts, dts), next) - Max(Max(pts, dts), next);
          pts, dts := guess, guess;
        }
        if Ordered(cfg.kind) && dts != NOPTS && lastMuxDts != NOPTS {
          var max := lastMuxDts + if cfg.nonStrict then 0 else 1;
          if dts < max {
            if exitOnError {
              return false, Packet(pts, dts);
            }
            if pts >= dts {
              pts := Max(pts, max);
            }
            dts := max;
          }
        }
      }
      lastMuxDts := dts;
      return true, Packet(pts, dts);
    }
  }

  // ---------------------------------------------------------------- runs

  /** The dts written before packet i. */
  function Last(outs: seq<Packet>, i: nat): int
    requires i <= |outs|
  {
    if i == 0 then NOPTS else outs[i - 1].dts
  }

  /** outs are the packets a stream writes for the packets ins. */
  predicate Muxed(cfg: Config, ins: seq<Packet>, outs: seq<Packet>) {
    |outs| == |ins| && forall i | 0 <= i < |ins| :: outs[i] == Fixed(cfg, Last(outs, i), ins[i])
  }

  /** A timestamp is missing or a real value. */
  predicate Representable(ins: seq<Packet>) {
    forall i | 0 <= i < |ins| :: ins[i].pts >= NOPTS && ins[i].dts >= NOPTS
  }

  /** Every packet has a dts; a pts may be missing. */
  predicate Complete(ins: seq<Packet>) {
    forall i | 0 <= i < |ins| :: ins[i].pts >= NOPTS && ins[i].dts > NOPTS
  }

  /** Audio, video and subtitles have to be in order. */
  predicate Ordering(cfg: Config) {
    !cfg.noTimestamps && !cfg.kind.Data? && !cfg.kind.Attachment?
  }

  lemma {:induction false} DtsPresence(cfg: Config, ins: seq<Packet>, outs: seq<Packet>, i: nat)
    requires Muxed(cfg, ins, outs) && Representable(ins) && i < |ins|
    ensures outs[i].dts == NOPTS <==> ins[i].dts == NOPTS
    ensures outs[i].dts >= NOPTS
  {
    if i > 0 {
      DtsPresence(cfg, ins, outs, i - 1);
    }
  }

  /** A format without timestamps gets every packet as it came. */
  lemma NoTimestampsUnchanged(cfg: Config, ins: seq<Packet>, outs: seq<Packet>)
    requires Muxed(cfg, ins, outs) && cfg.noTimestamps
    ensures outs == ins
  {
    assert forall i | 0 <= i < |ins| :: outs[i] == ins[i];
  }

  /** So does a stream of data or attachments, but for packets that decode after they are shown. */
  lemma UnorderedKept(cfg: Config, ins: seq<Packet>, outs: seq<Packet>, i: nat)
    requires Muxed(cfg, ins, outs) && (cfg.kind.Data? || cfg.kind.Attachment?) && i < |ins|
    requires ins[i].dts == NOPTS || ins[i].pts == NOPTS || ins[i].dts <= ins[i].pts
    ensures outs[i] == ins[i]
  {
  }

  /** Whatever packets arrive, wherever dts values are missing: two consecutive packets
      with a dts are written in order, and at least Gap apart. */
  lemma DtsIncreases(cfg: Config, ins: seq<Packet>, outs: seq<Packet>, i: nat)
    requires Muxed(cfg, ins, outs) && Representable(ins) && Ordering(cfg) && i + 1 < |ins|
    requires ins[i].dts != NOPTS && ins[i + 1].dts != NOPTS
    ensures outs[i].dts + Gap(cfg) <= outs[i + 1].dts
  {
    DtsPresence(cfg, ins, outs, i);
    assert outs[i + 1] == Fixed(cfg, outs[i].dts, ins[i + 1]);
  }

  /** No written packet decodes after it is shown. */
  lemma {:induction false} DecodedBeforeShown(cfg: Config, ins: seq<Packet>, outs: seq<Packet>, i: nat)
    requires Muxed(cfg, ins, outs) && Representable(ins) && !cfg.noTimestamps && i < |ins|
    requires ins[i].dts != NOPTS && ins[i].pts != NOPTS
    ensures outs[i].dts <= outs[i].pts
  {
    if i > 0 {
      DtsPresence(cfg, ins, outs, i - 1);
    }
    assert outs[i] == Fixed(cfg, Last(outs, i), ins[i]);
  }

  /** A packet without dts starts the sequence afresh: what follows it is a run of its own. */
  lemma MissingDtsRestarts(cfg: Config, ins: seq<Packet>, outs: seq<Packet>, k: nat)
    requires Muxed(cfg, ins, outs) && k < |ins| && ins[k].dts == NOPTS
    ensures Muxed(cfg, ins[k + 1..], outs[k + 1..])
  {
    assert outs[k].dts == NOPTS;
    var ins', outs' := ins[k + 1..], outs[k + 1..];
    forall i | 0 <= i < |ins'| ensures outs'[i] == Fixed(cfg, Last(outs', i), ins'[i]) {
      assert outs[k + 1 + i] == Fixed(cfg, Last(outs, k + 1 + i), ins[k + 1 + i]);
    }
  }

  // ---------------------------------------------------------------- the output in closed form

  /** The earliest dts a packet's own stamps allow. */
  function Wanted(p: Packet): int {
    if p.pts == NOPTS then p.dts else Min(p.pts, p.dts)
  }

  /** The pts that goes with a dts: moved up if need be, left alone if missing. */
  function Shown(p: Packet, dts: int): int {
    if p.pts == NOPTS then NOPTS else Max(p.pts, dts)
  }

  predicate NotLate(p: Packet) {
    p.pts == NOPTS || p.dts <= p.pts
  }

  /** In strict mode the guess makes no difference: a packet counts with its earlier stamp. */
  lemma StrictLaw(cfg: Config, last: int, p: Packet)
    requires Ordering(cfg) && !cfg.nonStrict && p.pts >= NOPTS && p.dts > NOPTS && last >= NOPTS
    ensures var out := Fixed(cfg, last, p);
      && out.dts == (if last == NOPTS then Wanted(p) else Max(Wanted(p), last + 1))
      && out.pts == Shown(p, out.dts)
  {
  }

  /** The dts written for any packet in either mode: without the guess the earlier stamp or the gap
      counts; with it, the value nearest to last + 1 between the two stamps, or the gap. */
  lemma OrderedLaw(cfg: Config, last: int, p: Packet)
    requires Ordering(cfg) && p.pts >= NOPTS && p.dts > NOPTS && last >= NOPTS
    ensures var out := Fixed(cfg, last, p);
      && out.dts == (if last == NOPTS then Wanted(p)
                     else if NotLate(p) then Max(p.dts, last + Gap(cfg))
                     else Max(last + Gap(cfg), Min(Max(last + 1, p.pts), p.dts)))
      && out.pts == (if NotLate(p) then Shown(p, out.dts) else out.dts)
  {
  }

  /** Where ties are allowed the guess makes a difference exactly for a packet whose stamps lie on
      both sides of the last dts: it is written one later instead of at the same time. */
  lemma GuessMattersIff(cfg: Config, last: int, p: Packet)
    requires Ordering(cfg) && cfg.nonStrict && p.pts >= NOPTS && p.dts > NOPTS && last > NOPTS
    ensures var out := Fixed(cfg, last, p);
      if p.pts != NOPTS && p.pts <= last < p.dts then out.dts == last + 1 else out.dts == Max(Wanted(p), last)
  {
  }

  /** What the closed form is about: strict mode, or no packet that decodes after it is shown. */
  predicate Lawful(cfg: Config, ins: seq<Packet>) {
    Ordering(cfg) && Complete(ins) && (!cfg.nonStrict || forall i | 0 <= i < |ins| :: NotLate(ins[i]))
  }

  /** Each dts is what its packet wants, or just past the one before; pts follows along. */
  predicate FollowsAt(gap: int, ins: seq<Packet>, outs: seq<Packet>, i: nat)
    requires i < |ins| && i < |outs|
  {
    && outs[i].dts == (if i == 0 then Wanted(ins[0]) else Max(Wanted(ins[i]), outs[i - 1].dts + gap))
    && outs[i].pts == Shown(ins[i], outs[i].dts)
  }

  predicate Follows(gap: int, ins: seq<Packet>, outs: seq<Packet>) {
    |outs| == |ins| && forall i: nat | i < |ins| :: FollowsAt(gap, ins, outs, i)
  }

  lemma {:induction false} StepOfRun(cfg: Config, ins: seq<Packet>, outs: seq<Packet>, i: nat)
    requires Muxed(cfg, ins, outs) && Lawful(cfg, ins) && i < |ins|
    ensures FollowsAt(Gap(cfg), ins, outs, i) && outs[i].dts > NOPTS
  {
    if i > 0 {
      StepOfRun(cfg, ins, outs, i - 1);
    }
    assert outs[i] == Fixed(cfg, Last(outs, i), ins[i]);
    if cfg.nonStrict {
      OrderedLaw(cfg, Last(outs, i), ins[i]);
    } else {
      StrictLaw(cfg, Last(outs, i), ins[i]);
    }
  }

  lemma RunFollows(cfg: Config, ins: seq<Packet>, outs: seq<Packet>)
    requires Muxed(cfg, ins, outs) && Lawful(cfg, ins)
    ensures Follows(Gap(cfg), ins, outs)
  {
    forall i: nat | i < |ins| ensures FollowsAt(Gap(cfg), ins, outs, i) {
      StepOfRun(cfg, ins, outs, i);
    }
  }

  /** z keeps the gap and is nowhere earlier than wanted. */
  predicate Dominates(gap: int, z: seq<int>, ins: seq<Packet>) {
    |z| == |ins| &&
    (forall i | 0 <= i < |z| :: Wanted(ins[i]) <= z[i]) &&
    (forall i | 0 < i < |z| :: z[i - 1] + gap <= z[i])
  }

  function Dts(outs: seq<Packet>): seq<int> {
    seq(|outs|, i requires 0 <= i < |outs| => outs[i].dts)
  }

  lemma {:induction false} NoLaterThan(gap: int, ins: seq<Packet>, outs: seq<Packet>, z: seq<int>, i: nat)
    requires Follows(gap, ins, outs) && Dominates(gap, z, ins) && i < |ins|
    ensures outs[i].dts <= z[i]
  {
    assert FollowsAt(gap, ins, outs, i);
    if i > 0 {
      NoLaterThan(gap, ins, outs, z, i - 1);
      assert z[i - 1] + gap <= z[i];
    }
  }

  /** The written dts are the pointwise least sequence that keeps the gap and puts no
      packet earlier than its own stamps ask for. */
  lemma LeastDominating(cfg: Config, ins: seq<Packet>, outs: seq<Packet>)
    requires Muxed(cfg, ins, outs) && Lawful(cfg, ins)
    ensures Dominates(Gap(cfg), Dts(outs), ins)
    ensures forall z | Dominates(Gap(cfg), z, ins) :: forall i | 0 <= i < |ins| :: outs[i].dts <= z[i]
  {
    RunFollows(cfg, ins, outs);
    forall i | 0 <= i < |ins|
      ensures Wanted(ins[i]) <= outs[i].dts && (i > 0 ==> outs[i - 1].dts + Gap(cfg) <= outs[i].dts)
    {
      assert FollowsAt(Gap(cfg), ins, outs, i);
    }
    forall z, i | Dominates(Gap(cfg), z, ins) && 0 <= i < |ins| ensures outs[i].dts <= z[i] {
      NoLaterThan(Gap(cfg), ins, outs, z, i);
    }
  }

  lemma {:induction false} Pusher(gap: int, ins: seq<Packet>, outs: seq<Packet>, i: nat) returns (j: nat)
    requires Follows(gap, ins, outs) && i < |ins|
    ensures j <= i && outs[i].dts == Wanted(ins[j]) + (i - j) * gap
  {
    assert FollowsAt(gap, ins, outs, i);
    j := i;
    if i > 0 && outs[i].dts != Wanted(ins[i]) {
      j := Pusher(gap, ins, outs, i - 1);
      assert (i - j) * gap == (i - 1 - j) * gap + gap;
    }
  }

  lemma {:induction false} NotPushedPast(gap: int, ins: seq<Packet>, outs: seq<Packet>, i: nat, k: nat)
    requires Follows(gap, ins, outs) && k <= i < |ins|
    ensures Wanted(ins[k]) + (i - k) * gap <= outs[i].dts
  {
    assert FollowsAt(gap, ins, outs, i);
    if k < i {
      NotPushedPast(gap, ins, outs, i - 1, k);
      assert (i - k) * gap == (i - 1 - k) * gap + gap;
    }
  }

  /** The closed form: the written dts is the largest of Wanted(ins[k]) + (i - k) * gap over
      the packets k up to i, taken at packet j. */
  lemma ClosedForm(cfg: Config, ins: seq<Packet>, outs: seq<Packet>, i: nat) returns (j: nat)
    requires Muxed(cfg, ins, outs) && Lawful(cfg, ins) && i < |ins|
    ensures j <= i && outs[i].dts == Wanted(ins[j]) + (i - j) * Gap(cfg)
    ensures forall k: nat | k <= i :: Wanted(ins[k]) + (i - k) * Gap(cfg) <= outs[i].dts
  {
    RunFollows(cfg, ins, outs);
    j := Pusher(Gap(cfg), ins, outs, i);
    forall k: nat | k <= i ensures Wanted(ins[k]) + (i - k) * Gap(cfg) <= outs[i].dts {
      NotPushedPast(Gap(cfg), ins, outs, i, k);
    }
  }

  predicate AlreadyValid(gap: int, ins: seq<Packet>) {
    (forall i | 0 <= i < |ins| :: NotLate(ins[i])) &&
    (forall i | 0 < i < |ins| :: ins[i - 1].dts + gap <= ins[i].dts)
  }

  lemma {:induction false} ValidKept(gap: int, ins: seq<Packet>, outs: seq<Packet>, i: nat)
    requires Follows(gap, ins, outs) && AlreadyValid(gap, ins) && i < |ins|
    ensures outs[i] == ins[i]
  {
    assert FollowsAt(gap, ins, outs, i);
    if i > 0 {
      ValidKept(gap, ins, outs, i - 1);
      assert ins[i - 1].dts + gap <= ins[i].dts;
    }
  }

  lemma SelfFollowing(gap: int, ins: seq<Packet>)
    requires Follows(gap, ins, ins)
    ensures AlreadyValid(gap, ins)
  {
    forall i | 0 <= i < |ins|
      ensures NotLate(ins[i]) && (i > 0 ==> ins[i - 1].dts + gap <= ins[i].dts)
    {
      assert FollowsAt(gap, ins, ins, i);
    }
  }

  /** A run is written unchanged if and only if it is already valid. */
  lemma UnchangedIffValid(cfg: Config, ins: seq<Packet>, outs: seq<Packet>)
    requires Muxed(cfg, ins, outs) && Ordering(cfg) && Complete(ins)
    ensures outs == ins <==> AlreadyValid(Gap(cfg), ins)
  {
    if Lawful(cfg, ins) {
      UnchangedIfLawful(cfg, ins, outs);
    } else {
      var i :| 0 <= i < |ins| && !NotLate(ins[i]);
      DecodedBeforeShown(cfg, ins, outs, i);
    }
  }

  lemma UnchangedIfLawful(cfg: Config, ins: seq<Packet>, outs: seq<Packet>)
    requires Muxed(cfg, ins, outs) && Lawful(cfg, ins)
    ensures outs == ins <==> AlreadyValid(Gap(cfg), ins)
  {
    RunFollows(cfg, ins, outs);
    if AlreadyValid(Gap(cfg), ins) {
      forall i | 0 <= i < |ins| ensures outs[i] == ins[i] {
        ValidKept(Gap(cfg), ins, outs, i);
      }
    }
    if outs == ins {
      SelfFollowing(Gap(cfg), ins);
    }
  }

  // ---------------------------------------------------------------- ties allowed, any packets

  /** A dts is not before what its packet wants nor before the last one, and later than both only by one
      and for a packet whose own dts is later too. */
  predicate TiesAt(ins: seq<Packet>, outs: seq<Packet>, i: nat)
    requires i < |ins| && i < |outs|
  {
    && outs[i].dts >= Wanted(ins[i]) && (i > 0 ==> outs[i].dts >= outs[i - 1].dts)
    && (outs[i].dts == Wanted(ins[i]) || (i > 0 && outs[i].dts <= outs[i - 1].dts + 1))
    && (outs[i].dts <= ins[i].dts || (i > 0 && outs[i].dts == outs[i - 1].dts))
  }

  predicate Ties(ins: seq<Packet>, outs: seq<Packet>) {
    |outs| == |ins| && forall i: nat | i < |ins| :: TiesAt(ins, outs, i)
  }

  lemma RunTies(cfg: Config, ins: seq<Packet>, outs: seq<Packet>)
    requires Muxed(cfg, ins, outs) && Ordering(cfg) && cfg.nonStrict && Complete(ins)
    ensures Ties(ins, outs)
  {
    forall i: nat | i < |ins| ensures TiesAt(ins, outs, i) {
      if i > 0 {
        DtsPresence(cfg, ins, outs, i - 1);
        GuessMattersIff(cfg, outs[i - 1].dts, ins[i]);
      }
      assert outs[i] == Fixed(cfg, Last(outs, i), ins[i]);
    }
  }

  lemma {:induction false} NotBefore(ins: seq<Packet>, outs: seq<Packet>, n: nat, i: nat)
    requires Ties(ins, outs) && n <= i < |ins|
    ensures Wanted(ins[n]) <= outs[i].dts
  {
    assert TiesAt(ins, outs, i);
    if n < i {
      NotBefore(ins, outs, n, i - 1);
    }
  }

  lemma {:induction false} NotAfter(ins: seq<Packet>, outs: seq<Packet>, i: nat) returns (j: nat, k: nat)
    requires Ties(ins, outs) && i < |ins|
    ensures j <= i && outs[i].dts <= Wanted(ins[j]) + (i - j)
    ensures k <= i && outs[i].dts <= ins[k].dts
  {
    j, k := i, i;
    assert TiesAt(ins, outs, i);
    if i > 0 {
      var j', k' := NotAfter(ins, outs, i - 1);
      j := if outs[i].dts == Wanted(ins[i]) then i else j';
      k := if outs[i].dts <= ins[i].dts then i else k';
    }
  }

  /** Where ties are allowed and packets may decode after they are shown, every dts written lies between
      two laws: not before the earlier stamp of any packet so far, and not after the law without ties
      (at packet j) nor after the latest dts that came (at packet k). */
  lemma TiesRange(cfg: Config, ins: seq<Packet>, outs: seq<Packet>, i: nat) returns (j: nat, k: nat)
    requires Muxed(cfg, ins, outs) && Ordering(cfg) && cfg.nonStrict && Complete(ins) && i < |ins|
    ensures forall n: nat | n <= i :: Wanted(ins[n]) <= outs[i].dts
    ensures j <= i && k <= i && outs[i].dts <= Wanted(ins[j]) + (i - j) && outs[i].dts <= ins[k].dts
  {
    hide Muxed;
    RunTies(cfg, ins, outs);
    j, k := NotAfter(ins, outs, i);
    forall n: nat | n <= i ensures Wanted(ins[n]) <= outs[i].dts {
      NotBefore(ins, outs, n, i);
    }
  }

  /** A packet whose stamps lie around the last dts is written one later. */
  predicate CountsAt(ins: seq<Packet>, outs: seq<Packet>, i: nat)
    requires 0 < i < |ins| && i < |outs|
  {
    ins[i].pts != NOPTS && ins[i].pts <= outs[i - 1].dts < ins[i].dts ==> outs[i].dts == outs[i - 1].dts + 1
  }

  predicate Counts(ins: seq<Packet>, outs: seq<Packet>) {
    |outs| == |ins| && forall i: nat | 0 < i < |ins| :: CountsAt(ins, outs, i)
  }

  lemma RunCounts(cfg: Config, ins: seq<Packet>, outs: seq<Packet>)
    requires Muxed(cfg, ins, outs) && Ordering(cfg) && Complete(ins)
    ensures Counts(ins, outs)
  {
    forall i: nat | 0 < i < |ins| ensures CountsAt(ins, outs, i) {
      DtsPresence(cfg, ins, outs, i - 1);
      assert outs[i] == Fixed(cfg, outs[i - 1].dts, ins[i]);
      OrderedLaw(cfg, outs[i - 1].dts, ins[i]);
    }
  }

  lemma {:induction false} LateCounts(ins: seq<Packet>, outs: seq<Packet>, a: nat, b: nat)
    requires Counts(ins, outs) && a <= b < |ins|
    requires forall i | a < i <= b ::
      ins[i].pts != NOPTS && ins[i].pts <= outs[a].dts && outs[a].dts + (i - a) <= ins[i].dts
    ensures outs[b].dts == outs[a].dts + (b - a)
  {
    if a < b {
      LateCounts(ins, outs, a, b - 1);
      assert CountsAt(ins, outs, b);
    }
  }

  /** Packets that all decode after they are shown, around the time reached at packet a: the guess makes
      the dts written count up by one per packet. */
  lemma LateRunCounts(cfg: Config, ins: seq<Packet>, outs: seq<Packet>, a: nat, b: nat)
    requires Muxed(cfg, ins, outs) && Ordering(cfg) && Complete(ins) && a <= b < |ins|
    requires forall i | a < i <= b ::
      ins[i].pts != NOPTS && ins[i].pts <= outs[a].dts && outs[a].dts + (i - a) <= ins[i].dts
    ensures outs[b].dts == outs[a].dts + (b - a) && outs[a].dts > NOPTS
  {
    RunCounts(cfg, ins, outs);
    DtsPresence(cfg, ins, outs, a);
    hide Muxed;
    LateCounts(ins, outs, a, b);
  }
}
