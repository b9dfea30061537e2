# Timestamps, threads and command lines of Dht and its FFmpeg tree

Dht stores videos as encrypted text and ships with an FFmpeg tree whose command-line tools feed it.
This project models the parts of that code which keep state over unbounded inputs and proves what they
promise over whole runs:

- **Timestamp machines.** The frame duplicate/drop machine, its keyframe flags and where it puts frames (`FrameSync.dfy`, `FrameKeys.dfy`,
  `FrameRuns.dfy`, `FramePlacement.dfy`, `FrameConverter.dfy`), the muxer's DTS repair (`MuxDts.dfy`), the decoder's exact audio clock with the
  rescaling and the binary gcd it rests on (`AudioClock.dfy`, `AudioContinuity.dfy`, `Rescale.dfy`, `BinaryGcd.dfy`), the demuxer's discontinuity
  repair and its predictions (`Discontinuity.dfy`, `DemuxCases.dfy`, `Predictions.dfy`), stream looping (`StreamLoop.dfy`, `LoopTimeBases.dfy`), and
  forced keyframes (`ForcedKeyframes.dfy`). `Time.dfy` holds times in seconds.
- **A concurrent protocol.** The OS/2 condition variable, inside and from its callers' side (`CondVar.dfy`, `CondVarCalls.dfy`), and `pthread_once`
  (`Once.dfy`), as interleaved atomic steps of any number of threads.
- **Parsers and printers.** The command-line splitter, the independent option scanner, a printer and what the words mean
  (`CommandLine.dfy`, `OptionScanner.dfy`, `CommandLinePrinter.dfy`, `CommandMeaning.dfy`), AT&T `getopt` (`GetOpt.dfy`), stream specifiers: numbers,
  parser, order of designators, matcher, meaning from the text (`Strtol.dfy`, `StreamSpecifier.dfy`, `StreamDesignators.dfy`, `StreamMatch.dfy`,
  `StreamMeaning.dfy`), the argument quoter (`ArgQuote.dfy`) and the statistics format (`StatsFormat.dfy`).
- **Dht's own video text**: splitter, joiner and the pictures in it (`FrameText.dfy`, `VideoText.dfy`, `PixelText.dfy`).

`Wrappers.dfy` holds the types that all of them share.

Code that updates state is a class or a method with loops, proved equal to a step function on values; the
theorems are about that function, over every run. A run is a sequence of states linked by steps.
Integers are unbounded and floating-point values are reals, except where a width matters: the `INT_MAX` test of the
audio time base, the conversion of a stream index to `int`, and the clamping of `strtol`.

## Findings

What the code does not do as one would expect. Each is stated with the condition under which the expected law holds.

- `FrameSync`: a first frame more than 1.1 slots late whose start, less 0.6, rounds to the slot of its end is sent once
  but reported as one duplicate and one pending drop (`LateFrame`, `LateFrameMisreported`); the counters are true
  if and only if the run does not begin with such a frame (`CountersAreTrue`). A flush counts a pending drop twice when
  it repeats nothing (`FlushCountsTwice`), and a "too large" skip counts a pending drop once more (`SkipCountsAgain`); `StreamBalance` gives
  the exact difference for every stream.
- `MuxDts`: with strictly increasing timestamps the median guess has no effect of its own: a packet
  with dts > pts is treated exactly as if it had come with the earlier of the two (`StrictLaw`). Where ties are allowed it
  matters exactly for packets whose stamps lie on both sides of the last dts (`GuessMattersIff`).
- `FrameKeys`: a dropped keyframe is meant to hand its flag to the next frame sent. If only copies of the frame before it
  are sent in its own burst, one of those takes the flag. A keyframe that is not skipped is taken care of as it arrives if and
  only if that does not happen (`KeyTakenIff`; `ShadowedIff` says when, in terms of the frame), and the last keyframe of a run keeps its flag if
  and only if it is taken care of or the next burst begins with it (`KeyframeSurvivesIff`). In `KeyframeLost` three frames lose
  it for good. The kept frame does not lose its own flag, so that a keyframe may be flagged twice: shown once
  (`KeyframeFlaggedTwice`) or shown twice (`KeyframeRepeated`); `FlagLaw` says exactly which frames are flagged.
- `AudioClock`: the continuity mark left for the next frame is the timestamp plus the number of samples, which is where
  the frame ends if and only if the time base it is placed in is one sample (`MarkIsEndIff`); after a change from 48000 to 44100 Hz it
  is not (`MarkAfterRateChange`).
- `OptionScanner`: the scanner and the splitter part at a word with a dash that follows an exiting option without
  argument, or an even run of `--`: on the option that this word stands for they agree if and only if it was
  recorded before (`SlipAgreesIff`; `DoubleGuardMisleads` and `ExitingOptionMisleads` are such lines). For a whole table they agree on
  every line that doubles no `--` if and only if no separator, no `-` and no negation that a library accepts can be taken for a
  table option, and no exiting option without argument stands beside another option (`AgreementIff`).
- `CommandLine`: no command line can name an output `--` (`DoubleDashIsNoName`).
- `Discontinuity`: moving the input by whole ticks is undone by the offset if and only if the offset in ticks changes by as
  much (`StepShiftedIff`). It always does in the common time base (`ShiftIsExact`); in others rounding may prevent it
  (`ShiftMayRound`).
- `GetOpt`: splitting `-a-` into `-a` and `--` is the one way in which taking a cluster of flags apart
  changes the scan, besides a letter that is itself a dash (`ClusterSplitsIff`).
- `StreamSpecifier`: an index beyond the range of `int` wraps around, so that `4294967295` means "no index" (`WrappedIndexVanishes`,
  `IndexExactIff`). A disposition that evaluates to zero does not block a second one, so their order matters
  (`OrderMattersIff`).
- `VideoText`: joined frame texts are told apart again if and only if they are made of lines that are not empty and do not hold the marker
  (`RoundTripIff`); the texts of pictures with pixels always are (`VideoIsRead`).
- `PixelText`: a picture comes back in at most five colours (`ColourOfCode`), a dark pixel brighter than it was, and brighter again when it is
  coded once more (`ShownAgainIff`). A picture without pixels loses its width or height (`SizeIsReadIff`).
- `FrameText`: a text that ends exactly with the audio marker is an error, because one more character is skipped (`SplitParts`).

## Model

| member | source | states |
|---|---|---|
| CondVar.StepInv | libs/ffmpeg/compat/os2threads.h:158-214 | every atomic step of every thread keeps: one mutex owner, wait_count equal to the number of registered waiters, one token exactly while a signaller is owed an ack, a sleeper for every post |
| CondVar.RunInv | libs/ffmpeg/compat/os2threads.h:158-214 | the invariant holds in every state of every run, for any number of threads |
| CondVar.AtMostOneToken | libs/ffmpeg/compat/os2threads.h:158-214 | in every reachable state at most one token exists among event posted, waiter woken, waiter that has decremented, ack posted; one exists iff a signaller waits for its ack; wait_count counts the waiters |
| CondVar.NoSpuriousWakeup | libs/ffmpeg/compat/os2threads.h:198-214 | a sleeping waiter moves only while a signaller waits for its ack, and after it the signaller still cannot move |
| CondVar.CallAccounting | libs/ffmpeg/compat/os2threads.h:158-174 | throughout a signal or broadcast call every post removes one waiter, nobody joins, and waiters move only towards the mutex |
| CondVar.SignalReleasesExactlyOne | libs/ffmpeg/compat/os2threads.h:158-166 | a signal that saw waiters returns only when exactly one of them has left and stands at the mutex; all others still wait (`CondVarCalls.SignalCall` states it from the choice of the call) |
| CondVar.BroadcastReleasesAll | libs/ffmpeg/compat/os2threads.h:168-174 | a broadcast returns with wait_count 0 and every waiter registered at its start at the mutex, after one post per waiter (`CondVarCalls.BroadcastCall` from the choice of the call) |
| CondVar.CallTerminates | libs/ffmpeg/compat/os2threads.h:158-174 | under every schedule a call takes at most a bounded number of steps of all threads, by a measure over sleeping, woken and leaving waiters |
| CondVar.CallLength | libs/ffmpeg/compat/os2threads.h:158-174 | from the beginning of a call this is at most ten steps per waiter counted in wait_count, and four more |
| CondVar.CallNeverBlocks | libs/ffmpeg/compat/os2threads.h:158-174 | while a call is under way some thread can always take the next step |
| CondVarCalls.SignalCall | libs/ffmpeg/compat/os2threads.h:158-166 | from the caller's side, over every run: between a thread's choice to signal and the next state in which it owns the mutex outside calls, exactly one registered waiter is gone if there was one, and none if wait_count was 0 |
| CondVarCalls.BroadcastCall | libs/ffmpeg/compat/os2threads.h:168-174 | the same for a broadcast: when it returns nobody is registered, and whoever was stands at the mutex |
| CondVarCalls.WaitCall | libs/ffmpeg/compat/os2threads.h:198-214 | a wait registers its thread at once and returns only after another thread has chosen signal or broadcast meanwhile |
| CondVarCalls.WaitTakesSix | libs/ffmpeg/compat/os2threads.h:198-214 | whatever the others do, a waiting thread owns the mutex again, outside calls, exactly at the sixth of its own steps; it owns the mutex at no other step but the first, and is registered up to the third |
| CondVarCalls.LockCall | libs/ffmpeg/compat/os2threads.h:119-124 | a thread outside moves only while nobody owns the mutex, and then owns it alone; the waiters stay |
| CondVarCalls.UnlockCall | libs/ffmpeg/compat/os2threads.h:132-137 | unlocking frees the mutex and leaves the waiters and wait_count alone |
| Once.StepInv | libs/ffmpeg/compat/os2threads.h:216-234 | every step of every caller keeps the invariant that ties done, the mutex and the calls of the routine together |
| Once.InitRunsOnce | libs/ffmpeg/compat/os2threads.h:216-234 | in every reachable state the routine was started at most once, and once a caller has returned it has completed |
| Once.NeverStuck | libs/ffmpeg/compat/os2threads.h:216-234 | until all callers have returned, one of them can move |
| Once.EveryCallerReturns | libs/ffmpeg/compat/os2threads.h:216-234 | every schedule ends within a bounded number of steps with all callers returned and the routine run exactly once |
| Once.LateCallReturns | libs/ffmpeg/compat/os2threads.h:216-234 | a thread whose call begins after any caller has returned is back in one step, without the mutex and without running the routine |
| Rounding.Rint | libs/ffmpeg/fftools/ffmpeg_filter.c:2675-2687 | a nearest integer, and the even one of two |
| FrameSync.Median3 | libs/ffmpeg/fftools/ffmpeg_filter.c:2601-2615 | one of the three values, with one of the others on each side |
| FrameSync.PlanBounds | libs/ffmpeg/fftools/ffmpeg_filter.c:2642-2703 | the numbers of frames to send are never negative, with a non-negative duration no more copies of the previous frame than frames, and next_pts is never moved back |
| FrameSync.TimestampsIncrease | libs/ffmpeg/fftools/ffmpeg_filter.c:2805-2890 | outside passthrough, whatever frames arrive, the timestamps sent increase strictly and stay below next_pts |
| FrameSync.CfrTimestampsAreConsecutive | libs/ffmpeg/fftools/ffmpeg_filter.c:2817-2875 | at constant frame rate the timestamps sent are 0, 1, 2, ... |
| FrameSync.DriftIsBounded | libs/ffmpeg/fftools/ffmpeg_filter.c:2642-2690 | without drop threshold and skips, for frame ends that never go back, end minus next_pts is within [-2.1, 0.5] after every frame of the run (within [-2.1, 1.0] for vscfr) |
| FrameSync.BalanceOfRun | libs/ffmpeg/fftools/ffmpeg_filter.c:2704-2736 | after any run, emitted + dropped + pending - received - duplicated is the sum of the corrections of its steps (skips that recount a drop, plans with too many copies of the previous frame) |
| FrameSync.FramesAreConserved | libs/ffmpeg/fftools/ffmpeg_filter.c:2669-2735 | with non-negative durations and without skips, emitted + dropped + pending = received + duplicated after every frame |
| FrameSync.FlushBalance | libs/ffmpeg/fftools/ffmpeg_filter.c:2629-2641 | exactly what the end-of-stream flush adds to that balance, double count included, whether or not other outputs sent frames |
| FrameSync.StreamBalance | libs/ffmpeg/fftools/ffmpeg_filter.c:2622-2737 | the exact balance of a whole stream with its flush |
| FrameSync.CountersAreTrue | libs/ffmpeg/fftools/ffmpeg_filter.c:2704-2736 | the reported duplicates and drops equal the true ones, counted from the frames sent, after every frame of a run iff the first frame is not a late one of the stated kind |
| FrameSync.LateFrame | libs/ffmpeg/fftools/ffmpeg_filter.c:2683-2688 | a first frame at 1.2 without duration is such a frame |
| FrameSync.LateFrameMisreported | libs/ffmpeg/fftools/ffmpeg_filter.c:2704-2736 | it is sent once, while a duplicate and a pending drop are reported |
| FramePlacement.VfrPlacement | libs/ffmpeg/fftools/ffmpeg_filter.c:2691-2697 | at every frame of a vfr run: it is not sent iff it ends at least 0.6 before the next slot; otherwise it is sent once, at a timestamp within 0.5 of its own if it begins at or after the slot and ends more than 0.6 after it, and else in the slot |
| FramePlacement.PassthroughPlacement | libs/ffmpeg/fftools/ffmpeg_filter.c:2698-2701 | in passthrough every frame is sent once, at a timestamp within 0.5 of its own |
| FramePlacement.CfrPlacement | libs/ffmpeg/fftools/ffmpeg_filter.c:2678-2690 | how many slots a frame fills at constant frame rate, and how many of them show the frame before, by where it begins and ends |
| FramePlacement.VscfrStart | libs/ffmpeg/fftools/ffmpeg_filter.c:2670-2676 | a vscfr stream starts at the slot next to its first frame if that is at least half a slot late, with that frame alone |
| FramePlacement.VscfrEarly | libs/ffmpeg/fftools/ffmpeg_filter.c:2670-2676 | otherwise it starts as at constant frame rate |
| FramePlacement.PlanShows | libs/ffmpeg/fftools/ffmpeg_filter.c:2817-2875 | frame for frame what a plan sends: copies of the frame before, then the frame itself, in successive slots |
| FramePlacement.SkipLaw | libs/ffmpeg/fftools/ffmpeg_filter.c:2706-2724 | a plan is skipped iff it sends more frames than are not duplicates and more than the limit; then nothing is sent |
| FramePlacement.FlushRepeats | libs/ffmpeg/fftools/ffmpeg_filter.c:2629-2641 | at end of stream the last frame is sent in as many further slots as the median of the repetitions planned for the last three frames, or in none if those are too many |
| FrameConverter.Converter.Account | libs/ffmpeg/fftools/ffmpeg_filter.c:2706-2735 | counters, history and last_dropped in place, as the specification counts; the number of frames left to send and whether they were skipped |
| FrameConverter.Converter.Round | libs/ffmpeg/fftools/ffmpeg_filter.c:2642-2703 | the plan for a frame in every sync mode, changing next_pts and nothing else; where each mode puts the frame is `VfrPlacement`, `PassthroughPlacement`, `CfrPlacement`, `VscfrStart` |
| FrameConverter.Converter.SyncProcess | libs/ffmpeg/fftools/ffmpeg_filter.c:2622-2737 | the plan for a frame is made and counted, and a dropped keyframe is noted, unless the frame is skipped |
| FrameConverter.Converter.Emit | libs/ffmpeg/fftools/ffmpeg_filter.c:2817-2875 | the loop sends exactly the burst of the plan, previous frame first, with successive timestamps and the specified keyframe flags |
| FrameConverter.Converter.OutputFrame | libs/ffmpeg/fftools/ffmpeg_filter.c:2805-2890 | one frame moves the whole state, flags included, by one step of the specification |
| FrameConverter.Converter.OutputEof | libs/ffmpeg/fftools/ffmpeg_filter.c:2805-2890 | end of stream moves the whole state, flags included, by the specified flush, if any output of the graph has sent a frame |
| FrameKeys.FlagLaw | libs/ffmpeg/fftools/ffmpeg_filter.c:2835-2872 | exactly which frames of a burst are flagged: the first if a flag waited, copies of a flagged kept frame, and the current frame the first time it is sent |
| FrameKeys.KeyTakenIff | libs/ffmpeg/fftools/ffmpeg_filter.c:2735-2736 | a keyframe's flag waits or is on a frame of its burst that shows it iff frames that show it or none are sent; for a skipped keyframe iff a flag was waiting already |
| FrameKeys.ShadowedIff | libs/ffmpeg/fftools/ffmpeg_filter.c:2669-2690 | only copies of the frame before are sent iff the frame begins more than 1.1 slots late and its end and its start, less 0.6, round alike, at constant frame rate and above the drop threshold |
| FrameKeys.FlushFlags | libs/ffmpeg/fftools/ffmpeg_filter.c:2835-2872 | of the copies a flush sends all carry the flag of the kept frame, and the first takes a flag that waited |
| FrameKeys.KeyframeSurvives | libs/ffmpeg/fftools/ffmpeg_filter.c:2835-2872 | for a keyframe taken care of as it arrives: after every later frame of the run a frame sent since that shows it or a later one carries a flag, or the flag still waits for the next frame |
| FrameKeys.KeyframeSurvivesIff | libs/ffmpeg/fftools/ffmpeg_filter.c:2835-2872 | for the last keyframe of a run this holds iff it is taken care of as it arrives or the very next burst begins with it |
| FrameRuns.KeyframeLost | libs/ffmpeg/fftools/ffmpeg_filter.c:2735-2736 | three frames after which a keyframe was never sent, its flag is on an older frame and nothing waits |
| FrameRuns.KeyframeFlaggedTwice | libs/ffmpeg/fftools/ffmpeg_filter.c:2835-2872 | three frames after which a keyframe was shown once and two frames are flagged for it |
| FrameRuns.KeyframeRepeated | libs/ffmpeg/fftools/ffmpeg_filter.c:2835-2872 | three frames after which a dropped keyframe was shown twice and flagged twice |
| FrameRuns.FlushCountsTwice | libs/ffmpeg/fftools/ffmpeg_filter.c:2634-2637 | two frames and a flush that report two drops where one frame was dropped |
| FrameRuns.SkipCountsAgain | libs/ffmpeg/fftools/ffmpeg_filter.c:2718-2724 | four frames, one too long, that report three drops where two frames were not sent |
| MuxDts.MuxStream.FixupTs | libs/ffmpeg/fftools/ffmpeg_mux.c:161-196 | the repaired packet and the new last_mux_dts; refused exactly when errors are fatal and the dts is too early, and then nothing changes |
| MuxDts.DtsPresence | libs/ffmpeg/fftools/ffmpeg_mux.c:161-196 | a packet is written without dts iff it came without |
| MuxDts.NoTimestampsUnchanged | libs/ffmpeg/fftools/ffmpeg_mux.c:161 | a format without timestamps gets every packet as it came |
| MuxDts.UnorderedKept | libs/ffmpeg/fftools/ffmpeg_mux.c:172-174 | streams of data and attachments keep every packet that does not decode after it is shown |
| MuxDts.DtsIncreases | libs/ffmpeg/fftools/ffmpeg_mux.c:161-196 | whatever packets arrive, median repairs included, two successive packets with dts are written at least the required gap apart |
| MuxDts.DecodedBeforeShown | libs/ffmpeg/fftools/ffmpeg_mux.c:161-196 | every packet with both stamps is written with dts <= pts |
| MuxDts.MissingDtsRestarts | libs/ffmpeg/fftools/ffmpeg_mux.c:161-196 | what follows a packet without dts is a run of its own |
| MuxDts.StrictLaw | libs/ffmpeg/fftools/ffmpeg_mux.c:161-196 | in strict mode the dts written is the larger of min(pts, dts) and last + 1, for every packet |
| MuxDts.OrderedLaw | libs/ffmpeg/fftools/ffmpeg_mux.c:161-196 | the dts and pts written for any packet in either mode, packets with dts > pts included |
| MuxDts.GuessMattersIff | libs/ffmpeg/fftools/ffmpeg_mux.c:162-173 | where ties are allowed the guess matters iff the stamps lie on both sides of the last dts, and then gives last + 1 |
| MuxDts.LeastDominating | libs/ffmpeg/fftools/ffmpeg_mux.c:161-196 | over a run the dts written form the pointwise least sequence that keeps the gap and dominates the wanted stamps |
| MuxDts.ClosedForm | libs/ffmpeg/fftools/ffmpeg_mux.c:161-196 | dts i is the maximum over k <= i of wanted k + (i - k) * gap, and it is attained |
| MuxDts.UnchangedIffValid | libs/ffmpeg/fftools/ffmpeg_mux.c:161-196 | any run with all dts present is written unchanged iff it was already valid, in either mode |
| MuxDts.TiesRange | libs/ffmpeg/fftools/ffmpeg_mux.c:161-196 | where ties are allowed, for any packets: every dts is at or after the earlier stamp of every packet so far, at or before the law without ties, and at or before the latest dts that came |
| MuxDts.LateRunCounts | libs/ffmpeg/fftools/ffmpeg_mux.c:162-173 | over a run of packets whose stamps lie around the dts reached, the dts written count up by one |
| BinaryGcd.GcdDivides | libs/ffmpeg/libavutil/mathematics.c:35-56 | the gcd is positive and divides both numbers |
| BinaryGcd.GcdGreatest | libs/ffmpeg/libavutil/mathematics.c:35-56 | every common divisor divides the gcd |
| BinaryGcd.CommonTwos | libs/ffmpeg/libavutil/mathematics.c:44-48 | taking the factors two out and putting the common ones back gives the gcd |
| BinaryGcd.OddGcd | libs/ffmpeg/libavutil/mathematics.c:49-54 | the subtract-and-shift loop on odd numbers ends with their gcd |
| BinaryGcd.AvGcd | libs/ffmpeg/libavutil/mathematics.c:35-56 | the binary algorithm returns Euclid's gcd of the absolute values; a zero argument returns the other unchanged |
| Rescale.RescaleNear | libs/ffmpeg/libavutil/mathematics.c:58-145 | rescaling is off by at most half a unit, for both signs |
| Rescale.RescaleWhole | libs/ffmpeg/libavutil/mathematics.c:58-145 | rescaling is exact when the result is a whole number |
| Rescale.RescaleDownUp | libs/ffmpeg/libavutil/mathematics.c:58-145 | rounding down and up are floor and ceiling, for both signs |
| AudioClock.LcmIsCommonMultiple | libs/ffmpeg/fftools/ffmpeg_dec.c:205-238 | unless the overflow test fires, the new denominator is a common multiple of the old one and the rate, and fits in an int |
| AudioClock.UpdateKeepsInv | libs/ffmpeg/fftools/ffmpeg_dec.c:205-238 | a rate change keeps a time base 1/den that suits the rate and refines the old one |
| AudioClock.CommonMultiple | libs/ffmpeg/fftools/ffmpeg_dec.c:205-283 | while the fallback is not taken the denominator is a multiple of every sample rate seen in the run |
| AudioClock.RescaleKeepsTime | libs/ffmpeg/fftools/ffmpeg_dec.c:226-238 | every rescale of the history to a finer compatible base is exact in seconds |
| AudioClock.RescaleExactIff | libs/ffmpeg/fftools/ffmpeg_dec.c:226-238 | rescaling is exact for all timestamps iff the new denominator is a multiple of the old one |
| AudioClock.UntimedStep | libs/ffmpeg/fftools/ffmpeg_dec.c:240-283 | a frame without timestamp is placed exactly where the last one ended, and the next is due nb_samples/rate later |
| AudioClock.UntimedSample | libs/ffmpeg/fftools/ffmpeg_dec.c:240-283 | the timestamp handed on, in samples, is a nearest one to that exact time |
| AudioClock.NoDrift | libs/ffmpeg/fftools/ffmpeg_dec.c:205-283 | through any number of rate changes frame n is placed at the start plus the exact sum of nb_samples/rate of the frames before it |
| AudioClock.TimedPlacement | libs/ffmpeg/fftools/ffmpeg_dec.c:254-273 | whatever the mark and whatever the time bases, rate changes included, a frame with a timestamp is placed within half a tick of its own time base and one unit of the clock from it; where exactly is `AudioContinuity.DrawnToStamp` |
| AudioClock.MarkAfterFrame | libs/ffmpeg/fftools/ffmpeg_dec.c:268-273 | the mark left by every frame is its timestamp plus its number of samples |
| AudioClock.MarkIsEndIff | libs/ffmpeg/fftools/ffmpeg_dec.c:268-275 | the mark is the end of the frame iff the time base the frame will be placed in, known from the state and the frame, is one sample |
| AudioClock.MarkAfterRateChange | libs/ffmpeg/fftools/ffmpeg_dec.c:268-275 | after a change from 48000 to 44100 Hz it is not |
| AudioContinuity.StaysAtMark | libs/ffmpeg/libavutil/mathematics.c:168-189 | a stamp in a coarser time base that is a nearest tick to the mark is placed exactly at the mark |
| AudioContinuity.DrawnToStamp | libs/ffmpeg/libavutil/mathematics.c:180-189 | what happens to any mark: kept among the samples around the stamp, drawn to the nearest of them if no further away than these are apart, ignored beyond that |
| AudioContinuity.TimedContinuity | libs/ffmpeg/fftools/ffmpeg_dec.c:240-283 | over any run of frames at one rate whose coarse stamps are nearest ticks to the running sample count, the pts of frame n, and the timestamp handed on, are exactly the sum of the samples before it |
| AudioContinuity.FirstTimed | libs/ffmpeg/fftools/ffmpeg_dec.c:205-283 | the first frame starts that count at the sample next to its stamp |
| AudioContinuity.GapRestarts | libs/ffmpeg/fftools/ffmpeg_dec.c:264-273 | after a gap the place is the one next to the stamp, whatever the mark |
| AudioContinuity.FineStamp | libs/ffmpeg/fftools/ffmpeg_dec.c:271-273 | a stamp that is no coarser than the clock is placed next to itself |
| AudioContinuity.SampleHandedOn | libs/ffmpeg/fftools/ffmpeg_dec.c:275-282 | for every frame, with a timestamp or without, the timestamp handed on is a nearest sample to its place |
| AudioContinuity.FinerBaseKept | libs/ffmpeg/fftools/ffmpeg_dec.c:229-233 | the frame's own time base is taken over iff it is finer than the common multiple and compatible with it |
| AudioContinuity.FallbackCovers | libs/ffmpeg/fftools/ffmpeg_dec.c:219-227 | the fallback time base suits the usual sample rates |
| AudioContinuity.MillisecondStamps | libs/ffmpeg/fftools/ffmpeg_dec.c:271-273 | at 44100 Hz, behind a frame of 1024 samples, one stamped 23 ms is placed at sample 1024 |
| AudioClock.AudioDecoder.SampleRateUpdate | libs/ffmpeg/fftools/ffmpeg_dec.c:205-238 | time base, rate and history in place, as specified |
| AudioClock.AudioDecoder.TsProcess | libs/ffmpeg/fftools/ffmpeg_dec.c:240-283 | the whole new clock and the frame's timestamp, equal to the step that `NoDrift`, `TimedContinuity`, `GapRestarts` and `SampleHandedOn` are about |
| Discontinuity.Demuxer.Detect | libs/ffmpeg/fftools/ffmpeg_demux.c:242-308 | the corrected or cleaned packet, the new offset and last_ts, in every configuration |
| Discontinuity.Demuxer.Fixup | libs/ffmpeg/fftools/ffmpeg_demux.c:310-388 | the packet, the offset, the stream's dts and next_dts, and the estimate handed on, equal to the step that `OffsetLaw`, `UntimedEstimates` and `EstimatesFollow` are about |
| Discontinuity.GapKept | libs/ffmpeg/fftools/ffmpeg_demux.c:242-328 | pts - dts of a packet is unchanged, in every time base |
| Discontinuity.MovedByOffset | libs/ffmpeg/fftools/ffmpeg_demux.c:242-328 | in every time base both stamps of a packet move by the same number of ticks, the new offset to within one tick |
| Discontinuity.EstimateNear | libs/ffmpeg/fftools/ffmpeg_demux.c:242-388 | in every time base the estimate is near the prediction and not 0.1 s behind the last one, or is the prediction up to one microsecond and half a tick |
| Discontinuity.SteadyFormat | libs/ffmpeg/fftools/ffmpeg_demux.c:274-292 | in a format without jumps the offset stays zero, packets keep or lose their stamps, a dts or pts is lost iff it is beyond the error threshold of a known prediction, and the estimate never is |
| Discontinuity.CopiedUntouched | libs/ffmpeg/fftools/ffmpeg_demux.c:247-261 | copied timestamps are left alone unless the stream's counter wrapped around |
| Discontinuity.ForcedAdvance | libs/ffmpeg/fftools/ffmpeg_demux.c:363-367 | rounding to a frame number, adding one and rounding back never goes behind the starting time |
| Discontinuity.AdvanceNotBehind | libs/ffmpeg/fftools/ffmpeg_demux.c:352-383 | next_dts >= dts after every update, for every kind of stream and non-negative durations; how far ahead is `Predictions.PredictsLength` and `PredictsFrame` |
| Predictions.PredictsLength | libs/ffmpeg/fftools/ffmpeg_demux.c:352-383 | without a forced rate the prediction is the estimate plus the length of the packet in seconds (samples over rate, duration, or fields over twice the coded rate), within a microsecond |
| Predictions.PredictsFrame | libs/ffmpeg/fftools/ffmpeg_demux.c:363-367 | with a forced rate it is within half a microsecond of a frame time: the frame after the one nearest to the estimate |
| Predictions.NextFrame | libs/ffmpeg/fftools/ffmpeg_demux.c:363-367 | from next to frame n it goes next to frame n + 1, for frames longer than a microsecond |
| Predictions.ExactLength | libs/ffmpeg/fftools/ffmpeg_demux.c:368-370 | for video with durations in the common time base it is exactly the duration later |
| Predictions.UntimedEstimates | libs/ffmpeg/fftools/ffmpeg_demux.c:330-388 | over any run: the estimate of a packet without dts is that of an earlier packet plus the lengths of the packets of the stream between, within one microsecond per packet, whatever other streams do |
| Predictions.ForcedEstimates | libs/ffmpeg/fftools/ffmpeg_demux.c:330-388 | with a forced rate, packets without dts stay next to successive frames, without drift |
| DemuxCases.EstimateOfPacket | libs/ffmpeg/fftools/ffmpeg_demux.c:335-351 | the estimate is the dts delivered, else the prediction, else for a first packet its pts less the decoder's delay |
| DemuxCases.MovedIff | libs/ffmpeg/fftools/ffmpeg_demux.c:247-275 | in the common time base a packet is moved, and then to its prediction, iff it is beyond the threshold or over 0.1 s behind the estimate and, with copied timestamps, its counter wrapped around: a tenth of the distance remains with the counter's range added |
| DemuxCases.WrapIsRepaired | libs/ffmpeg/fftools/ffmpeg_demux.c:252-275 | a counter that wrapped around is put back on its prediction |
| DemuxCases.LastStamp | libs/ffmpeg/fftools/ffmpeg_demux.c:307 | the last timestamp is that of the last audio or video packet with a dts |
| DemuxCases.StreamJoins | libs/ffmpeg/fftools/ffmpeg_demux.c:293-307 | the first packet of a stream beyond the threshold of the last timestamp is moved there |
| DemuxCases.NewStreamFollows | libs/ffmpeg/fftools/ffmpeg_demux.c:242-388 | so over a run a new stream begins within the threshold of the packet delivered before it |
| Discontinuity.StepInv | libs/ffmpeg/fftools/ffmpeg_demux.c:310-388 | every packet keeps next_dts >= dts in all streams |
| Discontinuity.MovedExactly | libs/ffmpeg/fftools/ffmpeg_demux.c:242-328 | in the common time base the move is exactly the new offset |
| Discontinuity.OffsetLaw | libs/ffmpeg/fftools/ffmpeg_demux.c:242-328 | throughout a run every packet delivered is the packet read with both stamps moved by the offset then in force, to within one tick in any time base and exactly in the common one |
| Discontinuity.EstimatesContinue | libs/ffmpeg/fftools/ffmpeg_demux.c:242-388 | for successive packets of an audio or video stream, whatever other streams do in between, the estimate falls at most 0.1 s and is within the delta threshold of the prediction made from the earlier packet; outside the common time base it may be that prediction up to a microsecond and half a tick |
| Predictions.EstimatesFollow | libs/ffmpeg/fftools/ffmpeg_demux.c:242-388 | for successive packets of an audio or video stream without a forced rate, whatever other streams do, the estimate is at most 0.1 s before the earlier one and within the threshold, up to a microsecond, of where the earlier packet ends by its own length; outside the common time base it may be there up to a microsecond and half a tick |
| Predictions.EstimatesFollowFrame | libs/ffmpeg/fftools/ffmpeg_demux.c:242-388 | with a forced rate the same about the frame after the one nearest to the earlier estimate |
| Discontinuity.StepShifted | libs/ffmpeg/fftools/ffmpeg_demux.c:242-388 | adding ticks to the input and taking microseconds from the offset changes no output, in any time base in which the offset changes by as many ticks |
| Discontinuity.StepShiftedIff | libs/ffmpeg/fftools/ffmpeg_demux.c:242-388 | in a format with jumps, for a packet with a timestamp, iff it does |
| Discontinuity.ShiftIsExact | libs/ffmpeg/fftools/ffmpeg_demux.c:313-314 | it always does in the common time base |
| Discontinuity.ShiftMayRound | libs/ffmpeg/fftools/ffmpeg_demux.c:313-321 | a packet in ticks of two microseconds, one tick later and with the offset two microseconds lower, comes out one tick earlier |
| Discontinuity.SpliceIsInvisible | libs/ffmpeg/fftools/ffmpeg_demux.c:242-388 | a jump of d at a packet that continued its stream leaves all packets delivered from then on unchanged iff the jump is beyond the threshold or falls 0.1 s behind |
| StreamLoop.Demuxer.Fixup | libs/ffmpeg/fftools/ffmpeg_demux.c:442-466 | the packet moved behind the earlier passes, and the new bounds of all timestamps |
| StreamLoop.Demuxer.SeekToStart | libs/ffmpeg/fftools/ffmpeg_demux.c:215-240 | the duration, bounds and loop count for the next pass; nothing changes if seeking fails |
| StreamLoop.LengthNotNegative | libs/ffmpeg/fftools/ffmpeg_demux.c:215-240 | with non-negative durations a pass never has negative length |
| StreamLoop.LengthIsLongest | libs/ffmpeg/fftools/ffmpeg_demux.c:215-240 | the length of a pass is the longest time from the beginning of a packet to the end of one, or to the end the decoders reported; durations count only without audio decoders |
| StreamLoop.LoopUnrolls | libs/ffmpeg/fftools/ffmpeg_demux.c:215-240 | with one time base packet n of pass k is the packet of the file moved by exactly k times the length of one pass, for every k |
| StreamLoop.PassesAbut | libs/ffmpeg/fftools/ffmpeg_demux.c:442-466 | with one time base no packet of a pass begins before the pass before it has ended, by its packets or by the decoders' report; the next pass begins exactly at the later of the two |
| StreamLoop.LoopCount | libs/ffmpeg/fftools/ffmpeg_demux.c:236-237 | a loop count n makes n further passes, a negative one is never used up |
| Time.RescaledNear | libs/ffmpeg/libavutil/mathematics.c:58-145 | rescaling moves a time by at most half a tick of the new time base, in seconds |
| LoopTimeBases.EarlierIsLess | libs/ffmpeg/libavutil/mathematics.c:147-160 | comparing timestamps of different time bases compares their times |
| LoopTimeBases.NextPassNear | libs/ffmpeg/fftools/ffmpeg_demux.c:215-240 | from one pass to the next the total duration grows by the length of a pass up to one longest tick, and stays the distance from the first beginning to the latest end up to half a tick |
| LoopTimeBases.LoopUnrollsNear | libs/ffmpeg/fftools/ffmpeg_demux.c:442-466 | with any time bases packet n of pass k is moved by k lengths of a pass, up to k longest ticks and half a tick of its own |
| LoopTimeBases.PassesMeet | libs/ffmpeg/fftools/ffmpeg_demux.c:442-466 | with any time bases, after any number of passes, no packet begins more than one longest tick before a packet of the pass before it ends |
| ForcedKeyframes.KeyframeForcer.Apply | libs/ffmpeg/fftools/ffmpeg_enc.c:829-876 | at most one forced time is served per frame, in order; a frame is forced iff one is served or its mode asks for it; the variables of an expression are updated as it is evaluated |
| ForcedKeyframes.ExpressionSees | libs/ffmpeg/fftools/ffmpeg_enc.c:842-865 | before every frame an expression sees the number of frames, the number it forced, and the last forced frame with its time |
| ForcedKeyframes.ForcedIff | libs/ffmpeg/fftools/ffmpeg_enc.c:829-876 | over every run without an expression a frame is forced iff it serves a time, or is a source keyframe or a scene cut where these are asked for |
| ForcedKeyframes.ExpressionForcesIff | libs/ffmpeg/fftools/ffmpeg_enc.c:842-865 | with an expression iff it holds of the counts so far and of the frame's time in seconds since the first frame |
| ForcedKeyframes.ReachedIff | libs/ffmpeg/fftools/ffmpeg_enc.c:838-841 | a time has come iff the frame is not shown before it, both in seconds |
| ForcedKeyframes.ServedIsMatching | libs/ffmpeg/fftools/ffmpeg_enc.c:838-841 | the served times are a matching of distinct frames to distinct times not later than them |
| ForcedKeyframes.ServingIsOptimal | libs/ffmpeg/fftools/ffmpeg_enc.c:838-841 | no such matching is larger, for sorted times and frames in order |
| ForcedKeyframes.SortSorts | libs/ffmpeg/fftools/ffmpeg_mux_init.c:3401-3404 | the list handed over is sorted and a permutation of the times parsed |
| ForcedKeyframes.CountItems | libs/ffmpeg/fftools/ffmpeg_mux_init.c:3335-3338 | the room reserved is one entry per item |
| ForcedKeyframes.FillChapters | libs/ffmpeg/fftools/ffmpeg_mux_init.c:3380-3385 | all chapter starts, shifted, behind what was there, within bounds |
| ForcedKeyframes.StoreItem | libs/ffmpeg/fftools/ffmpeg_mux_init.c:3348-3398 | an item uses exactly its room: what is left afterwards is what was left for the other items |
| ForcedKeyframes.ParseForcedKeyFrames | libs/ffmpeg/fftools/ffmpeg_mux_init.c:3324-3413 | for every spec no write is out of bounds, the array is filled exactly, and the result is the sorted list of the times of all items, or an error iff an item is bad |
| ForcedKeyframes.SpecMeans | libs/ffmpeg/fftools/ffmpeg_mux_init.c:3324-3413 | the times of a comma-separated list are those of its items, each a time or all chapter starts later by the time behind the word, one after the other |
| ForcedKeyframes.ListRefused | libs/ffmpeg/fftools/ffmpeg_mux_init.c:3348-3398 | a list is refused if an item stands for no time or asks for more room than an int counts |
| CommandLine.FindIsFirst | libs/ffmpeg/fftools/cmdutils.c:153-165 | a row is found iff some row matches, and it is the first |
| CommandLine.FindOption | libs/ffmpeg/fftools/cmdutils.c:153-165 | the table loop finds that row |
| CommandMeaning.FindMeans | libs/ffmpeg/fftools/cmdutils.c:153-165 | a name, less one leading slash, stands for the first row whose name it is, alone or with a specifier behind a colon |
| CommandMeaning.TableOptionIsRead | libs/ffmpeg/fftools/cmdutils.c:851-870 | what a table option takes: exiting ones the next word if any, valued ones and functions with argument need it, the others are "1" |
| CommandMeaning.OtherOptionIsRead | libs/ffmpeg/fftools/cmdutils.c:872-900 | any other name: accepted or refused by a library with the next word, or a switch with "no" before it, set to "0", or unknown |
| CommandMeaning.SeparatorIsRead | libs/ffmpeg/fftools/cmdutils.c:838-849 | a separator closes the first group type of its name with the next word |
| CommandMeaning.OfTypeConcat | libs/ffmpeg/fftools/cmdutils.c:691-720 | the groups of a type stay in the order in which they were closed |
| CommandLine.OptionParser.FinishGroup | libs/ffmpeg/fftools/cmdutils.c:691-720 | the current group with all its options is closed under its separator's list, and the current group is empty again |
| CommandLine.OptionParser.AddOpt | libs/ffmpeg/fftools/cmdutils.c:725-741 | the option is appended to the global or the current group, by its flags |
| CommandLine.OptionParser.ReadNext | libs/ffmpeg/fftools/cmdutils.c:807-902 | one turn of the loop: what is read, how many words, and its effect on the context |
| CommandLine.OptionParser.SplitCommandLine | libs/ffmpeg/fftools/cmdutils.c:790-911 | the context left is the one built from the events of the whole command line; it fails exactly when they do |
| OptionScanner.LocateOption | libs/ffmpeg/fftools/cmdutils.c:489-514 | the scanner's loop returns what the scan of the words gives |
| CommandMeaning.LocateFinds | libs/ffmpeg/fftools/cmdutils.c:489-514 | behind plain words the scanner stops at a word that stands for a row of the name, or is the name literally and stands for no row |
| OptionScanner.SameReading | libs/ffmpeg/fftools/cmdutils.c:489-514 | on an option word scanner and splitter resolve the same row and use as many words, but for an exiting option without argument |
| OptionScanner.ScanUntilSlip | libs/ffmpeg/fftools/cmdutils.c:489-514 | for any command line that can be split: without a slip the scanner finds an option where the splitter first recorded it; with one it goes on there, and the splitter records the option later or never |
| OptionScanner.LocateAgrees | libs/ffmpeg/fftools/cmdutils.c:489-514 | without a slip before the option is recorded the scanner returns the index at which the splitter first recorded it, or 0 if it never did, in tables with exiting options too |
| OptionScanner.NoSlip | libs/ffmpeg/fftools/cmdutils.c:489-514 | there is no slip in a line that doubles no "--" and has no exiting option without argument before a word with a dash |
| OptionScanner.SlipMisleads | libs/ffmpeg/fftools/cmdutils.c:489-514 | at a slip on a word that stands for the option itself the two differ |
| OptionScanner.SlipAgreesIff | libs/ffmpeg/fftools/cmdutils.c:489-514 | on the option of the first slip's word they agree iff it was recorded before |
| OptionScanner.GuardRun | libs/ffmpeg/fftools/cmdutils.c:814-820 | a run of "--" before a word makes a slip of it iff the run is even and the word has a dash |
| OptionScanner.EvenGuardsMislead | libs/ffmpeg/fftools/cmdutils.c:814-820 | an even run of "--" before an option word makes the two differ on that option |
| OptionScanner.AgreementIff | libs/ffmpeg/fftools/cmdutils.c:489-514 | for a table whose rows are found by their names: the two agree on every row and every line that can be split and doubles no "--" iff no separator, "-" or negation accepted by a library can be taken for a row, and no exiting row without argument stands beside another |
| OptionScanner.SeparatorMisleads | libs/ffmpeg/fftools/cmdutils.c:838-849 | a separator that is also an option makes them differ |
| OptionScanner.LibraryMisleads | libs/ffmpeg/fftools/cmdutils.c:872-898 | a library option that reads as the negation of a row makes them differ |
| OptionScanner.ExitMisleads | libs/ffmpeg/fftools/cmdutils.c:851-862 | an exiting option without argument hides any other option that follows it |
| OptionScanner.DashMisleads | libs/ffmpeg/fftools/cmdutils.c:814-817 | a row named "-" is found in "--" |
| OptionScanner.DoubleGuardMisleads | libs/ffmpeg/fftools/cmdutils.c:814-820 | on "-- -- -y" the scanner and the splitter disagree |
| OptionScanner.ExitingOptionMisleads | libs/ffmpeg/fftools/cmdutils.c:851-862 | on an exiting option without argument followed by an option they disagree |
| CommandLinePrinter.ParseIsSplit | libs/ffmpeg/fftools/cmdutils.c:807-902 | building the context turn by turn equals building it from the events |
| CommandLinePrinter.PrintedLineIsRecovered | libs/ffmpeg/fftools/cmdutils.c:790-911 | splitting a printed structure gives it back: every option in the group closed by the next terminator, in order, and what follows the last terminator left over |
| CommandLinePrinter.PrintIsNormalForm | libs/ffmpeg/fftools/cmdutils.c:790-911 | printing what was split from any command line, trailing options and an exiting option without argument included, and splitting it again finds the same |
| CommandLinePrinter.DoubleDashIsNoName | libs/ffmpeg/fftools/cmdutils.c:811-823 | no command line yields an output named "--" |
| GetOpt.Scanner.GetOpt | libs/ffmpeg/compat/getopt.c:41-84 | one call: the new optind, sp, optarg, optopt and the returned letter |
| GetOpt.CallAdvances | libs/ffmpeg/compat/getopt.c:41-84 | every call that returns an option moves (optind, sp) strictly on, within bounds; a call at the end stays at a word boundary |
| GetOpt.Scanner.GetAll | libs/ffmpeg/compat/getopt.c:41-84 | calling getopt until EOF delivers all results of the scan of the words and leaves its operands |
| GetOpt.CallsMakeScan | libs/ffmpeg/compat/getopt.c:41-84 | one call takes one step of the scan |
| GetOpt.KindWritten | libs/ffmpeg/compat/getopt.c:56-66 | a letter takes an argument iff a colon follows its first place in the option string; one that is not there, and the colon, are illegal |
| GetOpt.ClusterSplitsIff | libs/ffmpeg/compat/getopt.c:58-83 | splitting a letter off a cluster leaves all results and operands unchanged iff the letter takes no argument and neither half becomes "--" |
| GetOpt.ArgumentDetaches | libs/ffmpeg/compat/getopt.c:65-76 | detaching a glued non-empty argument leaves the scan unchanged iff the option letter is not a dash (guidelines 5 and 10 in section 12.2 of IEEE Std 1003.1) |
| GetOpt.ClusterExplodes | libs/ffmpeg/compat/getopt.c:58-83 | a whole cluster may be split into one word per flag, its last letters with or without argument |
| GetOpt.RewriteAnywhere | libs/ffmpeg/compat/getopt.c:41-84 | such rewritings may be made after any words that end at a word boundary |
| ArgQuote.Report.DumpArgument | libs/ffmpeg/fftools/cmdutils.c:516-538 | the argument as it is, or in quotes with escapes, is appended to the report |
| ArgQuote.Report.DumpCommandLine | libs/ffmpeg/fftools/cmdutils.c:575-579 | the whole line is appended |
| ArgQuote.ArgumentIsRead | libs/ffmpeg/fftools/cmdutils.c:516-538 | a printed argument is read back exactly from whatever line follows it |
| ArgQuote.LineDecodes | libs/ffmpeg/fftools/cmdutils.c:516-538 | a decoder recovers the argument vector from the line, for every list of byte strings, empty arguments included |
| ArgQuote.LineInjective | libs/ffmpeg/fftools/cmdutils.c:575-579 | no two argument vectors have the same report |
| ArgQuote.LineIsPrintable | libs/ffmpeg/fftools/cmdutils.c:525-537 | the report is one line of printable ASCII whatever the arguments hold |
| ArgQuote.PrintedAsIsIff | libs/ffmpeg/fftools/cmdutils.c:516-523 | an argument is printed without quotes iff it is made of letters, digits and +,-./:@_ |
| ArgQuote.NothingExpands | libs/ffmpeg/fftools/cmdutils.c:525-537 | between quotes no dollar, backtick or quote stands without a backslash before it |
| Strtol.NumberStops | libs/ffmpeg/fftools/cmdutils.c:1071-1077 | a number that uses its whole text has the same value and length before a colon |
| Strtol.NumberIsRead | libs/ffmpeg/fftools/cmdutils.c:1071-1077 | any integer written in tens, eights or sixteens, with white space and a sign before it, is read back, limited to the range of a long |
| StreamSpecifier.Spec.ParseText | libs/ffmpeg/fftools/cmdutils.c:1011-1224 | the parsed specifier, or on failure the cleared one; the remaining length decreases on every pass |
| StreamSpecifier.Spec.ParseOne | libs/ffmpeg/fftools/cmdutils.c:1025-1190 | one designator: its fields, the rest of the text, and whether it ends the specifier |
| StreamSpecifier.StepProgress | libs/ffmpeg/fftools/cmdutils.c:1025-1190 | while the loop goes on, index, stream ID, metadata and usable are unset, so the parser's own assertion on metadata holds |
| StreamSpecifier.IdHasNoIndex | libs/ffmpeg/fftools/cmdutils.c:1134-1156 | no text whatever gives a specifier with both a stream ID and an index |
| StreamSpecifier.IndexExactIff | libs/ffmpeg/fftools/cmdutils.c:1026-1037 | an index is kept as written iff it fits in an int |
| StreamSpecifier.WrappedIndexVanishes | libs/ffmpeg/fftools/cmdutils.c:1026-1037 | the index 4294967295 gives the specifier of the empty text |
| StreamDesignators.DesignatorParsed | libs/ffmpeg/fftools/cmdutils.c:1038-1133 | every well-formed designator is read as a whole before a colon or the end, and sets exactly its own fields |
| StreamDesignators.DesignatorsParsed | libs/ffmpeg/fftools/cmdutils.c:1025-1193 | parsing written designators before any text is applying them one after the other and then parsing the text |
| StreamDesignators.DesignatorsPermute | libs/ffmpeg/fftools/cmdutils.c:1025-1223 | any permutation of any designators, repeated ones included, before any text has the same parse, unless a zero disposition meets a non-zero one |
| StreamDesignators.OrderMattersIff | libs/ffmpeg/fftools/cmdutils.c:1098-1133 | for two designators the order matters iff they are such a pair |
| StreamMeaning.IdentityParsed | libs/ffmpeg/fftools/cmdutils.c:1135-1155 | "#id" and "i:id" set the stream ID, unless a list is chosen already |
| StreamMeaning.MetaParsed | libs/ffmpeg/fftools/cmdutils.c:1156-1179 | "m:key" and "m:key:value" set key and value |
| StreamMeaning.UsableParsed | libs/ffmpeg/fftools/cmdutils.c:1180-1186 | "u" sets usable |
| StreamMeaning.RemainderKept | libs/ffmpeg/fftools/cmdutils.c:1194-1211 | what follows an index behind a colon is the remainder, or an error where none is allowed |
| StreamMeaning.DesignatorMeans | libs/ffmpeg/fftools/cmdutils.c:1038-1133 | a designator that is accepted restricts the streams by exactly what it says: kind, program, group, disposition bits |
| StreamMeaning.TextMeans | libs/ffmpeg/fftools/cmdutils.c:1011-1336 | for every text of designators and an end without index: a stream matches iff everything in the text is true of it, by kind, list, disposition bits, ID, metadata key and value, usability |
| StreamMeaning.LetterMeans | libs/ffmpeg/fftools/cmdutils.c:1292-1297 | "v", "a", "s", "d" and "t" match exactly the streams of that kind, "V" the video streams that are no attached picture |
| StreamMeaning.IndexCounts | libs/ffmpeg/fftools/cmdutils.c:1329-1332 | with an index n at the end: exactly the stream of which the rest is true and before which it is true of n streams |
| StreamMeaning.NthOfKind | libs/ffmpeg/fftools/cmdutils.c:1329-1332 | "a:n" and the like: the stream of that kind with exactly n of that kind before it |
| StreamMatch.Match | libs/ffmpeg/fftools/cmdutils.c:1226-1336 | the shortened scan decides: a member of the filtered list, with an index its first occurrence there; which streams pass the filter is `StreamMeaning.TextMeans` |
| StreamMatch.FoundAt | libs/ffmpeg/fftools/cmdutils.c:1329-1332 | the number of matches counted before a stream is its first position in the filtered list |
| StreamMatch.MatchesMeans | libs/ffmpeg/fftools/cmdutils.c:1226-1336 | on a list without repetitions the scan is "filter, then take the n-th" |
| StreamMatch.MatchesMeansIff | libs/ffmpeg/fftools/cmdutils.c:1226-1336 | in general it is so iff the element asked for does not occur earlier in the filtered list |
| StreamMatch.WholeFileDistinct | libs/ffmpeg/fftools/cmdutils.c:1236-1248 | the lists of all streams and of those with one ID have no repetitions |
| StreamMatch.IndexSelectsOne | libs/ffmpeg/fftools/cmdutils.c:1329-1332 | an indexed specifier matches at most one stream, in every file |
| StreamMatch.IndexSelectsIff | libs/ffmpeg/fftools/cmdutils.c:1226-1336 | without repetitions it matches one iff the filtered list is longer than the index |
| StreamMatch.MatchText | libs/ffmpeg/fftools/cmdutils.c:1339-1351 | parsing and matching never trips the matcher's assertion; an error iff the text is malformed |
| StatsFormat.Fill | libs/ffmpeg/fftools/ffmpeg_mux_init.c:207-244 | the loop writes the unescaped text up to the delimiter and never past the buffer |
| StatsFormat.ReadPiece | libs/ffmpeg/fftools/ffmpeg_mux_init.c:207-244 | the text up to the delimiter, none if empty, and the position of the delimiter |
| StatsFormat.EncStats.Init | libs/ffmpeg/fftools/ffmpeg_mux_init.c:279-364 | an error is reported iff the format is malformed, and exactly the components read until then are stored |
| StatsFormat.StoredIfAccepted | libs/ffmpeg/fftools/ffmpeg_mux_init.c:279-364 | of an accepted format exactly its components are stored |
| StatsFormat.StoredUntilError | libs/ffmpeg/fftools/ffmpeg_mux_init.c:279-364 | of a malformed format the components before the error are stored, and for an unknown or forbidden directive an empty literal |
| StatsFormat.NameIsFound | libs/ffmpeg/fftools/ffmpeg_mux_init.c:249-277 | the table's names are distinct: every directive is found by its name |
| StatsFormat.DirectiveAcceptedIff | libs/ffmpeg/fftools/ffmpeg_mux_init.c:249-277 | a directive is accepted iff its name is one of ten, or one of two more before encoding, of six more after it |
| StatsFormat.NamesInPairs | libs/ffmpeg/fftools/ffmpeg_mux_init.c:249-277 | the value on the input side is named as the encoder's with an "i" behind it |
| StatsFormat.FormatRoundTrip | libs/ffmpeg/fftools/ffmpeg_mux_init.c:279-364 | tokenizing the written form of any normal component list gives it back |
| StatsFormat.TokensAreNormal | libs/ffmpeg/fftools/ffmpeg_mux_init.c:279-364 | every list the tokenizer produces is normal: non-empty, non-adjacent literals and allowed directives |
| StatsFormat.FormatIsCanonical | libs/ffmpeg/fftools/ffmpeg_mux_init.c:207-244 | writing the components of any accepted format and tokenizing it changes nothing |
| FrameText.FindMarker | src/interface/decrypt_video.cpp:20-21 | the first place of the audio marker, if any |
| FrameText.SplitParts | src/interface/decrypt_video.cpp:20-31 | video before the first marker, audio behind it and one more character, or everything is video; an error iff the text ends with its first marker |
| FrameText.RebuildFrames | src/interface/decrypt_video.cpp:33-49 | the line loop returns the frames collected from the lines of the text |
| FrameText.FramesAreRecovered | src/interface/decrypt_video.cpp:33-49 | any frames of non-empty lines, with any blank lines around and at least one between them, are read back exactly |
| FrameText.FramesAreRecoveredUnended | src/interface/decrypt_video.cpp:33-49 | the same for a text without a newline at its end |
| FrameText.LinesSurvive | src/interface/decrypt_video.cpp:33-49 | on any text the non-empty lines survive, all and in order, and every frame is one or more non-empty lines joined |
| VideoText.JoinVideoText | src/core/video/video_text_joiner.cpp:6-22 | the loop writes the frames with a blank line between two, and the marker and the audio if there is any |
| VideoText.FramesKeepMarker | src/interface/decrypt_video.cpp:20-49 | the frames of any text hold the marker iff the text does |
| VideoText.RoundTripIff | src/interface/decrypt_video.cpp:20-49 | for any frame texts and any audio: splitting what was joined gives both back iff every frame text is made of lines that are not empty and none holds the marker |
| PixelText.RgbToCode | src/core/color/rgb_to_code.cpp:7-38 | the code of a colour, whatever the order in which the hash table is walked |
| PixelText.NearOne | src/core/color/rgb_to_code.cpp:14-30 | no colour is near to two base colours, and what is near to one is never marked dark |
| PixelText.CodeToRGB | src/core/color/code_to_rgb.cpp:7-37 | the colour of any code: letters with their factors added up, limited and averaged |
| PixelText.ColourOfCode | src/core/color/code_to_rgb.cpp:7-37 | decoding the code of a colour gives the base colour near to it, or one of two greys |
| PixelText.ShownAgainIff | src/core/color/rgb_to_code.cpp:32-35 | coding and decoding once more changes nothing iff the colour is not a dark one |
| PixelText.PixelToText | src/core/encoder/pixel_to_text.cpp:8-20 | the nested loops write a line of codes for every row |
| PixelText.TextToPixel | src/core/decoder/text_to_pixel.cpp:9-28 | pixels, width and height read from any text |
| PixelText.PictureIsRead | src/core/decoder/text_to_pixel.cpp:9-28 | a picture written and read back has every pixel in the colour left of it, its width and its height |
| PixelText.SizeIsReadIff | src/core/decoder/text_to_pixel.cpp:9-28 | for every width and height the size is read back iff there are pixels, or neither width nor height |
| VideoText.ReadVideo | src/interface/decrypt_video.cpp:19-65 | what decryption makes of any text: all pixels of all frames in the size of the first, or an error if the text ends with its marker |
| VideoText.VideoIsRead | src/interface/encrypt_video.cpp:18-26 | end to end: for any frames of one size with pixels and any audio, the reader finds the audio, every frame text and every pixel in the colour left of it |

## Left out

- FrameConverter.Converter.Emit: durations of the frames sent and failures of the encoder queue are not modelled; a frame counts as sent once it is handed over.
- FrameSync.DriftIsBounded: float rounding of the thresholds and of `llrintf` is abstracted to reals; the "too large" limit is a parameter of the configuration.
- OptionScanner.LocateAgrees: stated for tables in which no separator, no "-" and no negation that a library accepts can be taken for a row, and for lines without a slip before the option; `AgreementIff` shows the first needed, and `SlipAgreesIff` gives the exact condition on the option of the slip. What the scanner finds after a slip on a word that stands for no row is not described further.
- CommandLinePrinter.PrintIsNormalForm: stated for libraries that know no negation of a table option, since a printed negation may stand before a word they would accept with it.
- Discontinuity.SpliceIsInvisible: stated in the common time base; in others a correction is off by rounding, as `EstimateNear` bounds it.
- StreamLoop.LoopUnrolls: exact for one time base (`LoopUnrollsNear` for others) and passes that read the same packets; the decoders' end is taken to be the same in every pass.
- ForcedKeyframes.ParseForcedKeyFrames: the time parser is a parameter, chapter starts are given in microseconds, and `qsort` is an insertion sort.
- Overflow of 64-bit timestamps, memory allocation failures, logging and the text of error messages.
- Timed waits and signallers that do not hold the mutex in the OS/2 threads; a semaphore is an auto-reset flag.
- The fallback time base of the audio clock is modelled, but no exactness holds after it.
- `video_duration_estimate` and the rest of video frame processing in the decoder: cases without an invariant across frames.
- Wrap correction, file offset and scale in `ts_fixup`, which come before the loop part.
- The libraries' option tables, disposition values and metadata tokens are parameters; dictionaries are sequences of pairs.
- Stream group specifier matching, the Windows argument conversion, reports and terminal handling.
- The transcode scheduler, multiview output, hardware devices and network or file access.
- VideoText.ReadVideo: the audio text is found but, as in the source, not used; writing the picture file is left out.
- PixelText.PixelToText: width and height are natural numbers that fit the pixels, as the readers of picture files provide them; distances are compared as squares.
- Dht's encryption, compression, file formats and audio samples, and the extraction of frames and sound from a video.
