/** The frame duplicate/drop machine itself, updated in place. */
module FrameConverter {
  import opened Wrappers
  import opened Rounding
  import opened FrameSync
  import opened FrameKeys

  /** The filter output: its fields are updated in place for every frame. */
  class Converter {
    const cfg: Config
    const framesPrevHist: array<int>
    var nextPts: int
    var frameNumber: nat
    var lastDropped: bool
    var lastFrame: Option<nat>
    var nbFramesDup: int
    var nbFramesDrop: int
    var sent: seq<Sent>
    var received: nat
    var droppedKeyframe: bool
    var lastKey: bool
    var flags: seq<bool>

    ghost predicate Valid() {
      framesPrevHist.Length == 3
    }

    ghost function Model(): State
      requires Valid()
      reads this, framesPrevHist
    {
      State(nextPts, frameNumber, History(framesPrevHist[0], framesPrevHist[1], framesPrevHist[2]), lastDropped,
            lastFrame, nbFramesDup, nbFramesDrop, sent, received)
    }

    ghost function KeyModel(): Keys
      reads this
    {
      Keys(droppedKeyframe, lastKey, flags)
    }

    constructor (cfg: Config)
      ensures Valid() && fresh(framesPrevHist) && Fresh(Model()) && KeyModel() == Keys(false, false, []) &&
              this.cfg == cfg
    {
      this.cfg := cfg;
      framesPrevHist := new int[3](_ => 0);
      nextPts, frameNumber, lastDropped, lastFrame := 0, 0, false, None;
      nbFramesDup, nbFramesDrop, sent, received := 0, 0, [], 0;
      droppedKeyframe, lastKey, flags := false, false, [];
    }

    /** The counting at the end of video_sync_process; returns the frames left to send, and whether the
        frame was skipped as too large. */
    method Account(nbFrames: int, nbPrev: int, eof: bool) returns (nb: int, skipped: bool)
      requires Valid()
      modifies this`nbFramesDrop, this`nbFramesDup, this`lastDropped, framesPrevHist
      ensures Valid()
      ensures Model() == Counted(cfg, old(Model()), nbFrames, nbPrev, eof)
      ensures nb == ToSend(cfg, old(Model()), nbFrames, nbPrev)
      ensures skipped == Skipped(cfg, nbFrames, nbPrev, old(lastDropped))
    {
      framesPrevHist[2] := framesPrevHist[1];
      framesPrevHist[1] := framesPrevHist[0];
      framesPrevHist[0] := nbPrev;
      if nbPrev == 0 && lastDropped {
        nbFramesDrop := nbFramesDrop + 1;
      }
      var kept := (if nbPrev != 0 && lastDropped then 1 else 0) + (if nbFrames > nbPrev then 1 else 0);
      if nbFrames > kept {
        if nbFrames > cfg.skipLimit {
          nbFramesDrop := nbFramesDrop + 1;
          return 0, true;
        }
        nbFramesDup := nbFramesDup + nbFrames - kept;
      }
      lastDropped := nbFrames == nbPrev && !eof;
      return nbFrames, false;
    }

    /** The rounding at the heart of video_sync_process; moves next_pts where the mode allows it. */
    method Round(frame: Frame) returns (nb: int, nbPrev: int)
      requires Valid()
      modifies this`nextPts
      ensures Valid() && Plan(nb, nbPrev, nextPts) == Decide(cfg, old(Model()), frame)
    {
      var syncIpts, duration := frame.ipts, frame.duration;
      var delta0 := syncIpts - nextPts as real;
      var delta := delta0 + duration;
      nb, nbPrev := 1, 0;
      if delta0 < 0.0 && delta > 0.0 && cfg.sync != Passthrough {
        syncIpts := nextPts as real;
        duration := duration + delta0;
        delta0 := 0.0;
      }
      if cfg.sync == Vscfr && frameNumber == 0 && delta0 >= 0.5 {
        delta := duration;
        delta0 := 0.0;
        nextPts := Rint(syncIpts);
      }
      if cfg.sync == Cfr || cfg.sync == Vscfr {
        if cfg.dropThreshold != 0.0 && delta < cfg.dropThreshold && frameNumber != 0 {
          nb := 0;
        } else if delta < -1.1 {
          nb := 0;
        } else if delta > 1.1 {
          nb := Rint(delta);
          if delta0 > 1.1 {
            nbPrev := Rint(delta0 - 0.6);
          }
        }
      } else if cfg.sync == Vfr {
        if delta <= -0.6 {
          nb := 0;
        } else if delta > 0.6 {
          nextPts := Rint(syncIpts);
        }
      } else {
        nextPts := Rint(syncIpts);
      }
    }

    /** Sends one frame, the kept one or the current one, and clears a flag that waited. */
    method Send(src: nat, flag: bool)
      modifies this`sent, this`nextPts, this`frameNumber, this`droppedKeyframe, this`flags
      ensures sent == old(sent) + [Sent(src, old(nextPts))] && flags == old(flags) + [flag || old(droppedKeyframe)]
      ensures !droppedKeyframe && nextPts == old(nextPts) + 1 && frameNumber == old(frameNumber) + 1
    {
      var key := flag;
      if droppedKeyframe {
        key := true;
        droppedKeyframe := false;
      }
      sent, flags := sent + [Sent(src, nextPts)], flags + [key];
      frameNumber := frameNumber + 1;
      nextPts := nextPts + 1;
    }

    /** Sends nb frames, the first nbPrev of them showing the previous one; key is the flag of the current
        frame, cleared when it has been sent. */
    method Emit(nb: int, nbPrev: int, cur: Option<nat>, key: bool) returns (left: bool)
      requires Valid() && (cur.None? ==> nb <= nbPrev)
      modifies this`sent, this`nextPts, this`frameNumber, this`droppedKeyframe, this`flags
      ensures Valid() && Model() == Emitted(old(Model()), nb, nbPrev, cur)
      ensures |sent| >= |old(sent)| && (cur.Some? ==> |sent| == |old(sent)| + Nat(nb))
      ensures Sending(droppedKeyframe, left, flags) ==
              Flagged(old(KeyModel()), nbPrev, lastFrame.Some?, key, |sent| - |old(sent)|)
    {
      hide Flagged, Burst;
      ghost var start := nextPts;
      var n;
      n, left := EmitLoop(nb, nbPrev, cur, key);
      if n < nb {
        NothingToSend(nbPrev, start, Nat(nb));
        NothingToSend(nbPrev, start, n);
      }
    }

    /** The loop: how many frames it sends before there is none to show. */
    method EmitLoop(nb: int, nbPrev: int, cur: Option<nat>, key: bool) returns (n: nat, left: bool)
      requires Valid() && (cur.None? ==> nb <= nbPrev)
      modifies this`sent, this`nextPts, this`frameNumber, this`droppedKeyframe, this`flags
      ensures n <= Nat(nb) && (n < nb ==> lastFrame.None? && cur.None?)
      ensures |Burst(nbPrev, old(nextPts), lastFrame, cur, n)| == n
      ensures sent == old(sent) + Burst(nbPrev, old(nextPts), lastFrame, cur, n)
      ensures nextPts == old(nextPts) + n && frameNumber == old(frameNumber) + n
      ensures Sending(droppedKeyframe, left, flags) == Flagged(old(KeyModel()), nbPrev, lastFrame.Some?, key, n)
    {
      hide Flagged, Burst;
      ghost var start := nextPts;
      ghost var keys := KeyModel();
      left := key;
      n := 0;
      FlaggedNext(keys, nbPrev, lastFrame.Some?, key, 0);
      BurstNext(nbPrev, start, lastFrame, cur, 0);
      while n < nb
        invariant 0 <= n <= Nat(nb)
        invariant sent == old(sent) + Burst(nbPrev, start, lastFrame, cur, n)
        invariant nextPts == start + n && frameNumber == old(frameNumber) + n
        invariant |Burst(nbPrev, start, lastFrame, cur, n)| == n
        invariant Sending(droppedKeyframe, left, flags) == Flagged(keys, nbPrev, lastFrame.Some?, key, n)
      {
        var prev := n < nbPrev && lastFrame.Some?;
        var frameIn := if prev then lastFrame else cur;
        if frameIn.None? {
          break;
        }
        FlaggedNext(keys, nbPrev, lastFrame.Some?, key, n + 1);
        BurstNext(nbPrev, start, lastFrame, cur, n + 1);
        Send(frameIn.value, if prev then lastKey else left);
        left := left && n != nbPrev;
        n := n + 1;
      }
    }

    /** video_sync_process for one frame: the plan, as far as it is to be carried out. */
    method SyncProcess(frame: Frame, key: bool) returns (nb: int, nbPrev: int)
      requires Valid()
      modifies this`nextPts, this`nbFramesDrop, this`nbFramesDup, this`lastDropped, this`droppedKeyframe, framesPrevHist
      ensures Valid()
      ensures var s, p := old(Model()), Decide(cfg, old(Model()), frame);
        && Model() == Counted(cfg, s.(nextPts := p.start), p.nb, p.nbPrev, false)
        && nb == ToSend(cfg, s, p.nb, p.nbPrev) && nbPrev == p.nbPrev
        && KeyModel() == Noted(cfg, old(KeyModel()), s.lastDropped, p.nb, p.nbPrev, key)
    {
      hide Decide, Skipped;
      nb, nbPrev := Round(frame);
      var skipped;
      nb, skipped := Account(nb, nbPrev, false);
      if !skipped && lastDropped && key {
        droppedKeyframe := true;
      }
    }

    /** fg_output_frame for one video frame: decide, count, send, and keep the frame. */
    method OutputFrame(frame: Frame, key: bool)
      requires Valid()
      modifies this, framesPrevHist
      ensures Valid() && Model() == Apply(cfg, old(Model()), Decide(cfg, old(Model()), frame))
      ensures KeyModel() == KeyStep(cfg, old(Model()), Decide(cfg, old(Model()), frame), old(KeyModel()), key)
    {
      hide Flagged, Burst, Decide, Skipped, Counted, Noted, ToSend;
      CountedKeeps(cfg, Model(), Decide(cfg, Model(), frame));
      var nb, nbPrev := SyncProcess(frame, key);
      var left := Emit(nb, nbPrev, Some(received), key);
      lastFrame, lastKey := Some(received), left;
      received := received + 1;
    }

    /** video_sync_process at end of stream: the last frame is to be repeated as often as was usual lately. */
    method FlushProcess() returns (nb: int, nbPrev: int)
      requires Valid()
      modifies this`nbFramesDrop, this`nbFramesDup, this`lastDropped, framesPrevHist
      ensures Valid()
      ensures var s := old(Model()); var m := Median3(s.hist.h0, s.hist.h1, s.hist.h2);
        && Model() == Counted(cfg, if m == 0 && s.lastDropped then s.(nbDrop := s.nbDrop + 1) else s, m, m, true)
        && nb == ToSend(cfg, s, m, m) && nbPrev == m
    {
      hide Skipped;
      nb := Median3(framesPrevHist[0], framesPrevHist[1], framesPrevHist[2]);
      nbPrev := nb;
      if nb == 0 && lastDropped {
        nbFramesDrop := nbFramesDrop + 1;
      }
      var skipped;
      nb, skipped := Account(nb, nbPrev, true);
    }

    /** fg_output_frame at end of stream; gotFrame is shared by all outputs of the filter graph. */
    method OutputEof(gotFrame: bool)
      requires Valid()
      modifies this, framesPrevHist
      ensures Valid() && Model() == Flush(cfg, old(Model()), gotFrame)
      ensures KeyModel() == KeyFlush(cfg, old(Model()), old(KeyModel()), gotFrame)
    {
      hide Flagged, Burst, Median3, Counted, ToSend, Skipped;
      ghost var s, k := Model(), KeyModel();
      ghost var m := Median3(s.hist.h0, s.hist.h1, s.hist.h2);
      if !gotFrame {
        FlaggedNext(k, m, lastFrame.Some?, false, 0);
        return;
      }
      FlushKeeps(cfg, s, m);
      var nb, nbPrev := FlushProcess();
      var left := Emit(nb, nbPrev, None, false);
    }
  }

  lemma FlushKeeps(cfg: Config, s: State, m: int)
    ensures var e := Counted(cfg, if m == 0 && s.lastDropped then s.(nbDrop := s.nbDrop + 1) else s, m, m, true);
      e.lastFrame == s.lastFrame && e.sent == s.sent
    ensures ToSend(cfg, s, m, m) <= m
  {
  }

  lemma CountedKeeps(cfg: Config, s: State, p: Plan)
    ensures var e := Counted(cfg, s.(nextPts := p.start), p.nb, p.nbPrev, false);
      e.lastFrame == s.lastFrame && e.received == s.received && e.sent == s.sent
  {
  }

  lemma BurstNext(nbPrev: int, start: int, last: Option<nat>, cur: Option<nat>, n: nat)
    ensures n == 0 ==> Burst(nbPrev, start, last, cur, n) == []
    ensures n > 0 ==>
      var src := if n - 1 < nbPrev && last.Some? then last else cur;
      Burst(nbPrev, start, last, cur, n) ==
        Burst(nbPrev, start, last, cur, n - 1) + if src.Some? then [Sent(src.value, start + n - 1)] else []
  {
  }

  lemma FlaggedNext(k: Keys, nbPrev: int, hasLast: bool, cur: bool, n: nat)
    ensures n == 0 ==> Flagged(k, nbPrev, hasLast, cur, n) == Sending(k.pending, cur, k.flags)
    ensures n > 0 ==>
      var f := Flagged(k, nbPrev, hasLast, cur, n - 1);
      Flagged(k, nbPrev, hasLast, cur, n) ==
        Sending(false, f.cur && n - 1 != nbPrev,
                f.flags + [(if n - 1 < nbPrev && hasLast then k.last else f.cur) || f.pending])
  {
  }

  /** Without a kept frame and without a current one there is nothing to send. */
  lemma {:induction false} NothingToSend(nbPrev: int, start: int, n: nat)
    ensures Burst(nbPrev, start, None, None, n) == []
  {
    if n > 0 {
      NothingToSend(nbPrev, start, n - 1);
    }
  }
}
