/**
 Forced keyframes at given times: the list of times is parsed and sorted, and
 during encoding every frame serves at most one time that has come.
 */
module ForcedKeyframes {
  import opened Wrappers

  const INT_MAX: int := 0x7fff_ffff

  const MICROSECONDS: int := 1_000_000

  /** Timestamp in units of num / den seconds; what the other ways of forcing look at. */
  datatype Frame = Frame(pts: int, num: int, den: int, key: bool, sceneCut: bool)

  /** What an expression sees: frames so far, frames it forced, the last of these, and times in
      seconds since the first frame. */
  datatype Vars = Vars(n: nat, nForced: nat, prevForcedN: Option<nat>, t: real, prevForcedT: Option<real>)

  datatype Mode = Times | Expression(eval: Vars -> bool) | SourceKeyframes | SceneCuts

  predicate WellFormed(f: Frame) {
    f.num > 0 && f.den > 0
  }

  /** av_compare_ts >= 0: the time t (in microseconds) is not after the frame. */
  predicate Reached(f: Frame, t: int) {
    f.pts * f.num * MICROSECONDS >= t * f.den
  }

  /** Frame f is shown no later than frame g. */
  predicate NotAfter(f: Frame, g: Frame) {
    f.pts * f.num * g.den <= g.pts * g.num * f.den
  }

  predicate FramesInOrder(fs: seq<Frame>) {
    (forall i | 0 <= i < |fs| :: WellFormed(fs[i])) &&
    forall i, j | 0 <= i <= j < |fs| :: NotAfter(fs[i], fs[j])
  }

  predicate Sorted(ts: seq<int>) {
    forall i, j | 0 <= i < j < |ts| :: ts[i] <= ts[j]
  }

  /** Seconds since the frame with timestamp ref. */
  function Time(f: Frame, ref: int): real
    requires WellFormed(f)
  {
    (f.pts - ref) as real * f.num as real / f.den as real
  }

  function NoVars(): Vars { Vars(0, 0, None, 0.0, None) }

  predicate Holds(eval: Vars -> bool, v: Vars) { eval(v) }

  /** The variables after the expression was evaluated at time t. */
  function Evaluated(eval: Vars -> bool, v: Vars, t: real): Vars {
    var now := v.(t := t);
    if Holds(eval, now) then Vars(v.n + 1, v.nForced + 1, Some(v.n), t, Some(t)) else now.(n := v.n + 1)
  }

  /** The ways of forcing that do not look at the list. */
  predicate Otherwise(mode: Mode, f: Frame, v: Vars, t: real) {
    match mode
    case Times => false
    case Expression(eval) => Holds(eval, v.(t := t))
    case SourceKeyframes => f.key
    case SceneCuts => f.sceneCut
  }

  class KeyframeForcer {
    const mode: Mode
    const pts: seq<int>
    var index: nat
    var refPts: Option<int>
    var vars: Vars

    constructor (mode: Mode, pts: seq<int>)
      ensures this.mode == mode && this.pts == pts && index == 0 && refPts == None && vars == NoVars()
    {
      this.mode, this.pts, index, refPts, vars := mode, pts, 0, None, NoVars();
    }

    /** forced_kf_apply: is this frame to be a keyframe? */
    method Apply(frame: Frame) returns (forced: bool)
      requires WellFormed(frame)
      modifies this
      ensures index == Next(pts, old(index), frame)
      ensures refPts == if old(refPts).None? then Some(frame.pts) else old(refPts)
      ensures var t := Time(frame, refPts.value);
        && (forced <==> index > old(index) || Otherwise(mode, frame, old(vars), t))
        && vars == (if mode.Expression? && index == old(index) then Evaluated(mode.eval, old(vars), t) else old(vars))
    {
      if refPts.None? {
        refPts := Some(frame.pts);
      }
      var ptsTime := Time(frame, refPts.value);
      if index < |pts| && Reached(frame, pts[index]) {
        index := index + 1;
        return true;
      } else if mode.Expression? {
        vars := vars.(t := ptsTime);
        var res := Holds(mode.eval, vars);
        vars := vars.(n := vars.n + 1);
        if res {
          vars := vars.(prevForcedN := Some(vars.n - 1), prevForcedT := Some(vars.t), nForced := vars.nForced + 1);
          return true;
        }
      } else if mode.SourceKeyframes? && frame.key {
        return true;
      } else if mode.SceneCuts? && frame.sceneCut {
        return true;
      }
      return false;
    }
  }

  // ---------------------------------------------------------------- what an expression sees

  /** The variables before frame n of a run over frames at the times ts. */
  function VarsAt(eval: Vars -> bool, ts: seq<real>, n: nat): Vars
    requires n <= |ts|
  {
    if n == 0 then NoVars() else Evaluated(eval, VarsAt(eval, ts, n - 1), ts[n - 1])
  }

  predicate ForcedAt(eval: Vars -> bool, ts: seq<real>, i: nat)
    requires i < |ts|
  {
    Holds(eval, VarsAt(eval, ts, i).(t := ts[i]))
  }

  function ForcedCount(eval: Vars -> bool, ts: seq<real>, n: nat): nat
    requires n <= |ts|
  {
    if n == 0 then 0 else ForcedCount(eval, ts, n - 1) + One(ForcedAt(eval, ts, n - 1))
  }

  /** Before every frame n is the number of frames so far, n_forced the number of those that were
      forced, and the last forced frame and its time are those of the latest of them. */
  lemma {:induction false} ExpressionSees(eval: Vars -> bool, ts: seq<real>, n: nat)
    requires n <= |ts|
    ensures var v := VarsAt(eval, ts, n);
      && v.n == n && v.nForced == ForcedCount(eval, ts, n)
      && (v.prevForcedN.None? <==> v.prevForcedT.None?) && (v.prevForcedN.None? <==> v.nForced == 0)
      && (v.prevForcedN.Some? ==>
            var k := v.prevForcedN.value;
            k < n && ForcedAt(eval, ts, k) && v.prevForcedT == Some(ts[k]) &&
                forall i | k < i < n :: !ForcedAt(eval, ts, i))
  {
    if n > 0 {
      ExpressionSees(eval, ts, n - 1);
    }
  }

  /** How many times are served after one more frame. */
  function Next(pts: seq<int>, index: nat, f: Frame): nat {
    if index < |pts| && Reached(f, pts[index]) then index + 1 else index
  }

  function Served(pts: seq<int>, fs: seq<Frame>, n: nat): nat
    requires n <= |fs|
  {
    if n == 0 then 0 else Next(pts, Served(pts, fs, n - 1), fs[n - 1])
  }

  // ---------------------------------------------------------------- runs

  /** Before frame n: times served and the expression's variables; forced[n] is what Apply says to frame n. */
  ghost predicate Run(mode: Mode, pts: seq<int>, fs: seq<Frame>, index: seq<nat>, vs: seq<Vars>, forced: seq<bool>) {
    && |index| == |vs| == |fs| + 1 && |forced| == |fs| && index[0] == 0 && vs[0] == NoVars()
    && forall n | 0 <= n < |fs| :: Applied(mode, pts, fs, index, vs, forced, n)
  }

  ghost predicate Applied(mode: Mode, pts: seq<int>, fs: seq<Frame>, index: seq<nat>, vs: seq<Vars>, forced: seq<bool>,
                          n: nat)
    requires |index| == |vs| == |fs| + 1 && |forced| == |fs| && n < |fs|
  {
    WellFormed(fs[n]) &&
    var t := Time(fs[n], fs[0].pts);
    && index[n + 1] == Next(pts, index[n], fs[n])
    && (forced[n] <==> index[n + 1] > index[n] || Otherwise(mode, fs[n], vs[n], t))
    && vs[n + 1] == (if mode.Expression? && index[n + 1] == index[n] then Evaluated(mode.eval, vs[n], t) else vs[n])
  }

  lemma {:induction false} IndexIsServed(mode: Mode, pts: seq<int>, fs: seq<Frame>, index: seq<nat>, vs: seq<Vars>,
                                         forced: seq<bool>, n: nat)
    requires Run(mode, pts, fs, index, vs, forced) && n <= |fs|
    ensures index[n] == Served(pts, fs, n)
  {
    if n > 0 {
      var k := n - 1;
      assert Applied(mode, pts, fs, index, vs, forced, k);
      IndexIsServed(mode, pts, fs, index, vs, forced, k);
    }
  }

  /** Without an expression: a frame is forced if and only if it serves a time, or is a keyframe of the source or a
      scene cut where these are asked for. */
  lemma ForcedIff(mode: Mode, pts: seq<int>, fs: seq<Frame>, index: seq<nat>, vs: seq<Vars>, forced: seq<bool>, n: nat)
    requires Run(mode, pts, fs, index, vs, forced) && n < |fs| && !mode.Expression?
    ensures forced[n] <==>
      || Served(pts, fs, n + 1) > Served(pts, fs, n)
      || (mode == SourceKeyframes && fs[n].key) || (mode == SceneCuts && fs[n].sceneCut)
  {
    assert Applied(mode, pts, fs, index, vs, forced, n);
    hide Run;
    IndexIsServed(mode, pts, fs, index, vs, forced, n);
    IndexIsServed(mode, pts, fs, index, vs, forced, n + 1);
  }

  /** ts are the times of the frames in seconds, counted from the first frame. */
  ghost predicate SecondsFromFirst(fs: seq<Frame>, ts: seq<real>) {
    |ts| == |fs| && forall i | 0 <= i < |fs| :: InSeconds(fs[i], fs[0].pts, ts[i])
  }

  predicate InSeconds(f: Frame, ref: int, t: real) {
    t * f.den as real == (f.pts - ref) as real * f.num as real
  }

  lemma TimeIs(f: Frame, ref: int, t: real)
    requires WellFormed(f) && InSeconds(f, ref, t)
    ensures Time(f, ref) == t
  {
    var d := f.den as real;
    assert d > 0.0;
    assert Time(f, ref) * d == t * d;
    assert (Time(f, ref) - t) * d == 0.0;
  }

  lemma {:induction false} VarsOfRun(eval: Vars -> bool, fs: seq<Frame>, index: seq<nat>, vs: seq<Vars>,
                                     forced: seq<bool>, ts: seq<real>, n: nat)
    requires Run(Expression(eval), [], fs, index, vs, forced) && SecondsFromFirst(fs, ts) && n <= |fs|
    ensures vs[n] == VarsAt(eval, ts, n)
  {
    hide Holds, Time;
    if n > 0 {
      var k := n - 1;
      assert Applied(Expression(eval), [], fs, index, vs, forced, k);
      VarsOfRun(eval, fs, index, vs, forced, ts, k);
      TimeIs(fs[k], fs[0].pts, ts[k]);
    }
  }

  /** With an expression and no list: a frame is forced if and only if the expression holds of the number of frames
      and forced frames before it and of its time in seconds since the first frame. */
  lemma ExpressionForcesIff(eval: Vars -> bool, fs: seq<Frame>, index: seq<nat>, vs: seq<Vars>, forced: seq<bool>,
                            ts: seq<real>, n: nat)
    requires Run(Expression(eval), [], fs, index, vs, forced) && SecondsFromFirst(fs, ts) && n < |fs|
    ensures forced[n] <==> ForcedAt(eval, ts, n)
  {
    hide Holds, Time;
    assert Applied(Expression(eval), [], fs, index, vs, forced, n);
    VarsOfRun(eval, fs, index, vs, forced, ts, n);
    TimeIs(fs[n], fs[0].pts, ts[n]);
  }

  // ---------------------------------------------------------------- optimality

  /** m pairs frames among the first n with times that have come, each time at most once. */
  predicate Matching(pts: seq<int>, fs: seq<Frame>, n: nat, m: map<nat, nat>)
    requires n <= |fs|
  {
    && (forall i | i in m :: i < n && m[i] < |pts| && Reached(fs[i], pts[m[i]]))
    && (forall i, j | i in m && j in m && i != j :: m[i] != m[j])
  }

  lemma ReachedLater(f: Frame, g: Frame, t: int)
    requires WellFormed(f) && WellFormed(g) && NotAfter(f, g) && Reached(f, t)
    ensures Reached(g, t)
  {
    var a, b := f.pts * f.num, g.pts * g.num;
    assert (t * g.den) * f.den == (t * f.den) * g.den <= (a * MICROSECONDS) * g.den;
    assert (a * MICROSECONDS) * g.den == (a * g.den) * MICROSECONDS <= (b * f.den) * MICROSECONDS;
    assert (b * f.den) * MICROSECONDS == (b * MICROSECONDS) * f.den;
    CancelFactor(t * g.den, b * MICROSECONDS, f.den);
  }

  lemma CancelFactor(x: int, y: int, d: int)
    requires d > 0 && x * d <= y * d
    ensures x <= y
  {
    assert x > y ==> x * d > y * d;
  }

  lemma ReachedEarlier(f: Frame, s: int, t: int)
    requires WellFormed(f) && s <= t && Reached(f, t)
    ensures Reached(f, s)
  {
    assert s * f.den <= t * f.den;
  }

  lemma OneFewer(m: map<nat, nat>, x: nat)
    ensures |m| <= |m - {x}| + 1
  {
    var rest := m - {x};
    assert rest.Keys == m.Keys - {x};
    assert |m.Keys| <= |m.Keys - {x}| + 1;
  }

  /** An injective map into 0..k has at most k entries. */
  lemma {:induction false} Pigeonhole(m: map<nat, nat>, k: nat)
    requires forall i | i in m :: m[i] < k
    requires forall i, j | i in m && j in m && i != j :: m[i] != m[j]
    ensures |m| <= k
  {
    if k == 0 {
      assert m == map[];
    } else if i :| i in m && m[i] == k - 1 {
      Pigeonhole(m - {i}, k - 1);
      OneFewer(m, i);
    } else {
      Pigeonhole(m, k - 1);
    }
  }

  predicate Below(m: map<nat, nat>, k: nat) {
    forall i | i in m :: m[i] < k
  }

  /** The served times form a matching ... */
  lemma {:induction false} ServedIsMatching(pts: seq<int>, fs: seq<Frame>, n: nat) returns (m: map<nat, nat>)
    requires n <= |fs|
    ensures Matching(pts, fs, n, m) && |m| == Served(pts, fs, n) && Below(m, Served(pts, fs, n))
  {
    m := map[];
    if n > 0 {
      hide Matching, Reached;
      m := ServedIsMatching(pts, fs, n - 1);
      var k := Served(pts, fs, n - 1);
      if k < |pts| && Reached(fs[n - 1], pts[k]) {
        OneMatched(pts, fs, n, m, k);
        m := m[n - 1 := k];
      } else {
        StillMatched(pts, fs, n, m);
      }
    }
  }

  lemma StillMatched(pts: seq<int>, fs: seq<Frame>, n: nat, m: map<nat, nat>)
    requires 0 < n <= |fs| && Matching(pts, fs, n - 1, m)
    ensures Matching(pts, fs, n, m)
  {
    hide Reached;
  }

  lemma OneMatched(pts: seq<int>, fs: seq<Frame>, n: nat, m: map<nat, nat>, k: nat)
    requires 0 < n <= |fs| && Matching(pts, fs, n - 1, m) && k < |pts| && Reached(fs[n - 1], pts[k])
    requires Below(m, k)
    ensures Matching(pts, fs, n, m[n - 1 := k]) && |m[n - 1 := k]| == |m| + 1 && Below(m[n - 1 := k], k + 1)
  {
    hide Reached;
    assert n - 1 !in m;
  }

  lemma NothingMatched(pts: seq<int>, fs: seq<Frame>, m: map<nat, nat>)
    requires Matching(pts, fs, 0, m)
    ensures |m| == 0
  {
    assert m == map[];
  }

  lemma FewerMatched(pts: seq<int>, fs: seq<Frame>, n: nat, m: map<nat, nat>)
    requires 0 < n <= |fs| && Matching(pts, fs, n, m)
    ensures Matching(pts, fs, n - 1, m - {n - 1})
  {
    hide Reached;
  }

  lemma OnlyServedTimes(pts: seq<int>, fs: seq<Frame>, n: nat, m: map<nat, nat>)
    requires Sorted(pts) && FramesInOrder(fs) && 0 < n <= |fs| && Matching(pts, fs, n, m)
    requires var k := Served(pts, fs, n - 1); !(k < |pts| && Reached(fs[n - 1], pts[k]))
    ensures |m| <= Served(pts, fs, n - 1)
  {
    forall i | i in m ensures m[i] < Served(pts, fs, n - 1) {
      ServedTimesOnly(pts, fs, n, m, i);
    }
    Pigeonhole(m, Served(pts, fs, n - 1));
  }

  /** ... and no matching is larger: taking the earliest unserved time, one per frame, serves
      as many forced times as any assignment of frames to times could. */
  lemma {:induction false} ServingIsOptimal(pts: seq<int>, fs: seq<Frame>, n: nat, m: map<nat, nat>)
    requires Sorted(pts) && FramesInOrder(fs) && n <= |fs| && Matching(pts, fs, n, m)
    ensures |m| <= Served(pts, fs, n)
    decreases n
  {
    hide *;
    ServedNext(pts, fs, n);
    if n == 0 {
      NothingMatched(pts, fs, m);
    } else {
      var k := Served(pts, fs, n - 1);
      if k < |pts| && Reached(fs[n - 1], pts[k]) {
        OneFewer(m, n - 1);
        FewerMatched(pts, fs, n, m);
        ServingIsOptimal(pts, fs, n - 1, m - {n - 1});
      } else {
        OnlyServedTimes(pts, fs, n, m);
      }
    }
  }

  lemma ServedNext(pts: seq<int>, fs: seq<Frame>, n: nat)
    requires n <= |fs|
    ensures n == 0 ==> Served(pts, fs, n) == 0
    ensures n > 0 ==>
      var k := Served(pts, fs, n - 1);
      Served(pts, fs, n) == if k < |pts| && Reached(fs[n - 1], pts[k]) then k + 1 else k
  {
  }

  /** If the frame cannot serve the next time, nothing can be matched beyond it. */
  lemma ServedTimesOnly(pts: seq<int>, fs: seq<Frame>, n: nat, m: map<nat, nat>, i: nat)
    requires Sorted(pts) && FramesInOrder(fs) && 0 < n <= |fs| && Matching(pts, fs, n, m) && i in m
    requires var k := Served(pts, fs, n - 1); !(k < |pts| && Reached(fs[n - 1], pts[k]))
    ensures m[i] < Served(pts, fs, n - 1)
  {
    var k := Served(pts, fs, n - 1);
    if m[i] >= k {
      assert pts[k] <= pts[m[i]];
      ReachedEarlier(fs[i], pts[k], pts[m[i]]);
      ReachedLater(fs[i], fs[n - 1], pts[k]);
    }
  }

  // ---------------------------------------------------------------- parsing the list of times

  /** The text up to the first comma at or after position i. */
  function CommaFrom(s: string, i: nat): (j: nat)
    requires i <= |s|
    ensures i <= j <= |s| && (j < |s| ==> s[j] == ',') && forall k | i <= k < j :: s[k] != ','
    decreases |s| - i
  {
    if i == |s| || s[i] == ',' then i else CommaFrom(s, i + 1)
  }

  function Commas(s: string, i: nat): nat
    requires i <= |s|
  {
    if i == 0 then 0 else Commas(s, i - 1) + if s[i - 1] == ',' then 1 else 0
  }

  const CHAPTERS := "chapters"

  /** The times one item stands for: all chapter starts plus an offset, or one time. */
  function Item(p: string, chapters: seq<int>, parseTime: string -> Option<int>): Option<seq<int>> {
    if CHAPTERS <= p then
      var offset := if |p| > |CHAPTERS| then parseTime(p[|CHAPTERS|..]) else Some(0);
      if offset.None? then None else Some(Plus(chapters, offset.value))
    else
      var t := parseTime(p);
      if t.None? then None else Some([t.value])
  }

  function Plus(ts: seq<int>, offset: int): seq<int> {
    seq(|ts|, i requires 0 <= i < |ts| => ts[i] + offset)
  }

  /** The times of all items from position i on; size is the room reserved so far. */
  function ItemsFrom(s: string, i: nat, size: int, chapters: seq<int>,
                     parseTime: string -> Option<int>): Option<seq<int>>
    requires i <= |s|
    decreases |s| - i
  {
    var j := CommaFrom(s, i);
    var p := s[i..j];
    var grown := if CHAPTERS <= p then size + |chapters| - 1 else size;
    if CHAPTERS <= p && |chapters| > INT_MAX - size then None
    else
      var ts := Item(p, chapters, parseTime);
      if ts.None? then None
      else if j == |s| then ts
      else
        var rest := ItemsFrom(s, j + 1, grown, chapters, parseTime);
        if rest.None? then None else Some(ts.value + rest.value)
  }

  /** A larger or smaller block that keeps the first n entries. */
  method Realloc(a: array<int>, size: nat, n: nat) returns (b: array<int>)
    requires n <= a.Length && n <= size
    ensures fresh(b) && b.Length == size && b[..n] == a[..n]
  {
    b := new int[size];
    for i := 0 to n
      invariant b[..i] == a[..i]
    {
      b[i] := a[i];
    }
  }

  function Insert(t: int, ts: seq<int>): seq<int> {
    if ts == [] || t <= ts[0] then [t] + ts else [ts[0]] + Insert(t, ts[1..])
  }

  lemma {:induction false} InsertKeeps(t: int, ts: seq<int>)
    ensures multiset(Insert(t, ts)) == multiset(ts) + multiset{t}
  {
    if ts != [] && t > ts[0] {
      InsertKeeps(t, ts[1..]);
      assert ts == [ts[0]] + ts[1..];
    }
  }

  lemma {:induction false} InsertMember(t: int, ts: seq<int>, x: int)
    requires x in Insert(t, ts)
    ensures x == t || x in ts
  {
    if ts != [] && t > ts[0] && x != ts[0] {
      InsertMember(t, ts[1..], x);
    }
  }

  lemma {:induction false} InsertSorts(t: int, ts: seq<int>)
    requires Sorted(ts)
    ensures Sorted(Insert(t, ts))
  {
    if ts != [] && t > ts[0] {
      var tail := Insert(t, ts[1..]);
      InsertSorts(t, ts[1..]);
      forall k | 0 <= k < |tail| ensures ts[0] <= tail[k] {
        InsertMember(t, ts[1..], tail[k]);
      }
    }
  }

  /** qsort with compare_int64. */
  function Sort(ts: seq<int>): seq<int> {
    if ts == [] then [] else Insert(ts[0], Sort(ts[1..]))
  }

  lemma {:induction false} SortSorts(ts: seq<int>)
    ensures Sorted(Sort(ts)) && multiset(Sort(ts)) == multiset(ts)
  {
    if ts != [] {
      SortSorts(ts[1..]);
      InsertSorts(ts[0], Sort(ts[1..]));
      InsertKeeps(ts[0], Sort(ts[1..]));
      assert ts == [ts[0]] + ts[1..];
    }
  }

  lemma {:induction false} CommaCount(s: string, i: nat)
    requires i <= |s|
    ensures Commas(s, CommaFrom(s, i)) == Commas(s, i)
    decreases |s| - i
  {
    if i < |s| && s[i] != ',' {
      CommaCount(s, i + 1);
    }
  }

  lemma {:induction false} CommasGrow(s: string, i: nat, j: nat)
    requires i <= j <= |s|
    ensures Commas(s, i) <= Commas(s, j)
  {
    if i < j {
      CommasGrow(s, i, j - 1);
    }
  }

  method CountItems(s: string) returns (n: nat)
    ensures n == Commas(s, |s|) + 1
  {
    n := 1;
    for i := 0 to |s|
      invariant n == Commas(s, i) + 1
    {
      if s[i] == ',' {
        n := n + 1;
      }
    }
  }

  method FillChapters(a: array<int>, index: nat, chapters: seq<int>, offset: int)
    requires index + |chapters| <= a.Length
    modifies a
    ensures a[..index + |chapters|] == old(a[..index]) + Plus(chapters, offset)
  {
    for j := 0 to |chapters|
      invariant a[..index] == old(a[..index])
      invariant forall k | 0 <= k < j :: a[index + k] == chapters[k] + offset
    {
      a[index + j] := chapters[j] + offset;
    }
    ghost var n := |chapters|;
    ghost var filled := a[index..index + n];
    assert forall k | 0 <= k < n :: filled[k] == a[index + k];
    assert filled == Plus(chapters, offset);
    assert a[..index + n] == a[..index] + filled;
  }

  function Prefixed(done: seq<int>, r: Option<seq<int>>): Option<seq<int>> {
    if r.Some? then Some(done + r.value) else None
  }

  /** One item is taken off the front: what remains is done so far, and the rest. */
  lemma TakeItem(s: string, p: nat, size: int, chapters: seq<int>, parseTime: string -> Option<int>, done: seq<int>)
    requires p <= |s|
    ensures var j, r := CommaFrom(s, p), ItemsFrom(s, p, size, chapters, parseTime);
      var item, text := Item(s[p..j], chapters, parseTime), s[p..j];
      && (CHAPTERS <= text && |chapters| > INT_MAX - size ==> Prefixed(done, r) == None)
      && (item.None? ==> Prefixed(done, r) == None)
      && (!(CHAPTERS <= text && |chapters| > INT_MAX - size) && item.Some? ==>
            Prefixed(done, r) ==
              if j == |s| then Some(done + item.value)
              else Prefixed(done + item.value,
                            ItemsFrom(s, j + 1, if CHAPTERS <= text then size + |chapters| - 1 else size,
                                      chapters, parseTime)))
  {
    var j := CommaFrom(s, p);
    var item := Item(s[p..j], chapters, parseTime);
    if item.Some? && j < |s| {
      var grown := if CHAPTERS <= s[p..j] then size + |chapters| - 1 else size;
      var rest := ItemsFrom(s, j + 1, grown, chapters, parseTime);
      if rest.Some? {
        assert done + (item.value + rest.value) == (done + item.value) + rest.value;
      }
    }
  }

  /** The loop state: times stored so far, and the outcome they lead to. */
  ghost predicate ParsedSoFar(whole: Option<seq<int>>, s: string, p: Option<nat>, size: int, done: seq<int>,
                              chapters: seq<int>, parseTime: string -> Option<int>)
  {
    if p.Some? then p.value <= |s| && whole == Prefixed(done, ItemsFrom(s, p.value, size, chapters, parseTime))
    else whole == Some(done)
  }

  /** The body of the parsing loop: stores the times of one item, growing the block for chapters. */
  method StoreItem(a: array<int>, index: nat, item: string, chapters: seq<int>, parseTime: string -> Option<int>)
    returns (ok: bool, b: array<int>, next: nat)
    requires index < a.Length
    modifies a
    ensures ok <==> !(CHAPTERS <= item && |chapters| > INT_MAX - a.Length) && Item(item, chapters, parseTime).Some?
    ensures ok ==>
      && (b == a || fresh(b))
      && b.Length == (if CHAPTERS <= item then a.Length + |chapters| - 1 else a.Length)
      && next == index + |Item(item, chapters, parseTime).value| <= b.Length
      && b.Length - next == a.Length - index - 1
      && b[..next] == old(a[..index]) + Item(item, chapters, parseTime).value
  {
    ok, b, next := false, a, index;
    if CHAPTERS <= item {
      if |chapters| > INT_MAX - a.Length {
        return;
      }
      b := Realloc(a, a.Length + |chapters| - 1, index);
      var t := Some(0);
      if |item| > |CHAPTERS| {
        t := parseTime(item[|CHAPTERS|..]);
        if t.None? {
          return;
        }
      }
      FillChapters(b, index, chapters, t.value);
      ok, next := true, index + |chapters|;
    } else {
      var t := parseTime(item);
      if t.None? {
        return;
      }
      b[index] := t.value;
      ok, next := true, index + 1;
      assert b[..next] == b[..index] + [t.value];
    }
  }

  /** parse_forced_key_frames: every item fills its reserved room exactly, no write is out of
      bounds, and the list handed over holds the times of all items in order. */
  method ParseForcedKeyFrames(spec: string, chapters: seq<int>,
                              parseTime: string -> Option<int>) returns (r: Option<seq<int>>)
    ensures var whole := ItemsFrom(spec, 0, Commas(spec, |spec|) + 1, chapters, parseTime);
      if whole.Some? then r.Some? && Sorted(r.value) && multiset(r.value) == multiset(whole.value) else r.None?
  {
    hide ItemsFrom, Item, Prefixed, Sorted;
    var n := CountItems(spec);
    var size, index := n, 0;
    var p: Option<nat> := Some(0);
    var pts := new int[size];
    ghost var whole := ItemsFrom(spec, 0, n, chapters, parseTime);
    StartParse(whole);
    var i := 0;
    while i < n
      invariant 0 <= i <= n && size == index + n - i && pts.Length == size && index >= 0 && fresh(pts)
      invariant ParsedSoFar(whole, spec, p, size, pts[..index], chapters, parseTime)
      invariant p.Some? <==> i < n
      invariant p.Some? ==> p.value <= |spec| && Commas(spec, p.value) == i
    {
      var j := CommaFrom(spec, p.value);
      CommaCount(spec, p.value);
      CommasGrow(spec, if j < |spec| then j + 1 else j, |spec|);
      TakeItem(spec, p.value, size, chapters, parseTime, pts[..index]);
      var ok;
      ok, pts, index := StoreItem(pts, index, spec[p.value..j], chapters, parseTime);
      if !ok {
        return None;
      }
      size := pts.Length;
      p := if j < |spec| then Some(j + 1) else None;
      i := i + 1;
    }
    assert pts[..index] == pts[..];
    SortSorts(pts[..]);
    return Some(Sort(pts[..]));
  }

  lemma StartParse(r: Option<seq<int>>)
    ensures Prefixed([], r) == r
  {
    if r.Some? {
      assert [] + r.value == r.value;
    }
  }

  // ---------------------------------------------------------------- what the times are

  /** A frame has reached a time, given in microseconds, if and only if it is not shown before it. */
  lemma ReachedIff(f: Frame, t: int)
    requires WellFormed(f)
    ensures Reached(f, t) <==> f.pts as real * f.num as real / f.den as real >= t as real / 1000000.0
  {
    var x := f.pts as real * f.num as real;
    var d := f.den as real;
    var q := x / d;
    assert q * d == x;
    var n := f.pts * f.num;
    assert n as real == x;
    assert (n * 1000000) as real == 1000000.0 * (q * d);
    assert (t * f.den) as real == t as real * d;
    CancelReal(1000000.0 * q, t as real, d);
  }

  lemma CancelReal(a: real, b: real, d: real)
    requires d > 0.0
    ensures a * d >= b * d <==> a >= b
  {
    assert (a - b) * d == a * d - b * d;
    assert a - b > 0.0 ==> (a - b) * d > 0.0;
    assert a - b < 0.0 ==> (a - b) * d < 0.0;
  }

  /** A list of items, separated by commas. */
  function Listed(items: seq<string>): string
    requires items != []
  {
    if |items| == 1 then items[0] else items[0] + "," + Listed(items[1..])
  }

  predicate NoComma(p: string) {
    forall i | 0 <= i < |p| :: p[i] != ','
  }

  /** An item stands for a time, or, if it begins with the word, for all chapter starts, later by the time behind it. */
  ghost predicate StandsFor(p: string, chapters: seq<int>, parseTime: string -> Option<int>, ts: seq<int>) {
    if CHAPTERS <= p then
      exists d :: IsOffset(p, parseTime, d) && AreLater(ts, chapters, d)
    else |ts| == 1 && parseTime(p) == Some(ts[0])
  }

  /** The times ts are those of us, later by d. */
  predicate AreLater(ts: seq<int>, us: seq<int>, d: int) {
    |ts| == |us| && forall i | 0 <= i < |ts| :: ts[i] == us[i] + d
  }

  predicate IsOffset(p: string, parseTime: string -> Option<int>, d: int) {
    if p == CHAPTERS then d == 0 else |p| > |CHAPTERS| && parseTime(p[|CHAPTERS|..]) == Some(d)
  }

  lemma ItemMeans(p: string, chapters: seq<int>, parseTime: string -> Option<int>)
    ensures Item(p, chapters, parseTime).Some? ==> StandsFor(p, chapters, parseTime, Item(p, chapters, parseTime).value)
    ensures forall ts | StandsFor(p, chapters, parseTime, ts) :: Item(p, chapters, parseTime) == Some(ts)
  {
    if CHAPTERS <= p {
      assert |p| == |CHAPTERS| ==> p == CHAPTERS;
      var r := Item(p, chapters, parseTime);
      if r.Some? {
        var d := if p == CHAPTERS then 0 else parseTime(p[|CHAPTERS|..]).value;
        assert IsOffset(p, parseTime, d);
      }
      forall ts | StandsFor(p, chapters, parseTime, ts) ensures r == Some(ts) {
        var d :| IsOffset(p, parseTime, d) && AreLater(ts, chapters, d);
        assert ts == Plus(chapters, d);
      }
    } else {
      forall ts | StandsFor(p, chapters, parseTime, ts) ensures Item(p, chapters, parseTime) == Some(ts) {
        assert ts == [ts[0]];
      }
    }
  }

  function Concat(tss: seq<seq<int>>): seq<int> {
    if tss == [] then [] else tss[0] + Concat(tss[1..])
  }

  lemma {:induction false} CommaAt(pre: string, p: string, rest: string, i: nat)
    requires NoComma(p) && i <= |p| && (rest == "" || rest[0] == ',')
    ensures CommaFrom(pre + p + rest, |pre| + i) == |pre| + |p|
    decreases |p| - i
  {
    var s := pre + p + rest;
    if i < |p| {
      assert s[|pre| + i] == p[i];
      CommaAt(pre, p, rest, i + 1);
    } else if rest != "" {
      assert s[|pre| + i] == ',';
    }
  }

  /** One item at the front of the rest of a spec. */
  lemma AtFront(pre: string, p: string, rest: string, size: int, chapters: seq<int>, parseTime: string -> Option<int>)
    requires NoComma(p) && (rest == "" || rest[0] == ',')
    ensures var s, ts := pre + p + rest, Item(p, chapters, parseTime);
      var grown := if CHAPTERS <= p then size + |chapters| - 1 else size;
      ItemsFrom(s, |pre|, size, chapters, parseTime) ==
      if (CHAPTERS <= p && |chapters| > INT_MAX - size) || ts.None? then None
      else if rest == "" then ts
      else Prefixed(ts.value, ItemsFrom(s, |pre| + |p| + 1, grown, chapters, parseTime))
  {
    hide Item, ItemsFrom, NoComma;
    var s := pre + p + rest;
    CommaAt(pre, p, rest, 0);
    assert s[|pre|..|pre| + |p|] == p;
    UnfoldItems(s, |pre|, |pre| + |p|, p, size, chapters, parseTime);
  }

  lemma UnfoldItems(s: string, i: nat, j: nat, p: string, size: int, chapters: seq<int>,
                    parseTime: string -> Option<int>)
    requires i <= |s| && j == CommaFrom(s, i) && p == s[i..j]
    ensures var ts, grown := Item(p, chapters, parseTime), if CHAPTERS <= p then size + |chapters| - 1 else size;
      ItemsFrom(s, i, size, chapters, parseTime) ==
      if (CHAPTERS <= p && |chapters| > INT_MAX - size) || ts.None? then None
      else if j == |s| then ts
      else Prefixed(ts.value, ItemsFrom(s, j + 1, grown, chapters, parseTime))
  {
    hide Item, CommaFrom;
  }

  lemma FirstItem(pre: string, p: string, rest: string, size: int, chapters: seq<int>,
                  parseTime: string -> Option<int>, ts: seq<int>)
    requires NoComma(p) && (rest == "" || rest[0] == ',') && size + |chapters| <= INT_MAX
    requires StandsFor(p, chapters, parseTime, ts)
    ensures var s := pre + p + rest;
      ItemsFrom(s, |pre|, size, chapters, parseTime) ==
      if rest == "" then Some(ts)
      else
        var grown := if CHAPTERS <= p then size + |chapters| - 1 else size;
        Prefixed(ts, ItemsFrom(s, |pre| + |p| + 1, grown, chapters, parseTime))
  {
    hide StandsFor, Item, ItemsFrom, NoComma;
    AtFront(pre, p, rest, size, chapters, parseTime);
    ItemMeans(p, chapters, parseTime);
  }

  lemma RoomLeft(n: nat, c: nat, size: int)
    requires n > 0 && size + n * c <= INT_MAX
    ensures size + c <= INT_MAX && size + c + (n - 1) * c <= INT_MAX && (n - 1) * c >= 0
  {
    assert (n - 1) * c == n * c - c;
    assert (n - 1) * c >= 0;
  }

  lemma ListedFirst(items: seq<string>)
    requires items != []
    ensures Listed(items) == items[0] + if |items| == 1 then "" else "," + Listed(items[1..])
  {
    if |items| == 1 {
      assert items[0] + "" == items[0];
    }
  }

  lemma ConcatFirst(tss: seq<seq<int>>)
    requires tss != []
    ensures Concat(tss) == tss[0] + if |tss| == 1 then [] else Concat(tss[1..])
  {
  }

  /** The times of a list of items are those of the items, one after the other. */
  lemma {:induction false} ListMeans(pre: string, items: seq<string>, size: int, chapters: seq<int>,
                                     parseTime: string -> Option<int>, tss: seq<seq<int>>)
    requires items != [] && |tss| == |items| && (forall i | 0 <= i < |items| :: NoComma(items[i]))
    requires size + |items| * |chapters| <= INT_MAX
    requires forall i | 0 <= i < |items| :: StandsFor(items[i], chapters, parseTime, tss[i])
    ensures ItemsFrom(pre + Listed(items), |pre|, size, chapters, parseTime) == Some(Concat(tss))
    decreases |items|
  {
    hide StandsFor, ItemsFrom, Concat, Listed, NoComma;
    var p, more := items[0], items[1..];
    var rest := if |items| == 1 then "" else "," + Listed(more);
    RoomLeft(|items|, |chapters|, size);
    ListedFirst(items);
    ConcatFirst(tss);
    assert pre + Listed(items) == pre + p + rest;
    FirstItem(pre, p, rest, size, chapters, parseTime, tss[0]);
    if |items| == 1 {
      assert tss[0] + [] == tss[0];
    } else {
      var pre' := pre + p + ",";
      assert pre + p + rest == pre' + Listed(more);
      ListMeans(pre', more, if CHAPTERS <= p then size + |chapters| - 1 else size, chapters, parseTime, tss[1..]);
    }
  }

  /** What an accepted spec gives: the sorted times of its items. */
  lemma SpecMeans(items: seq<string>, chapters: seq<int>, parseTime: string -> Option<int>, tss: seq<seq<int>>)
    requires items != [] && |tss| == |items| && (forall i | 0 <= i < |items| :: NoComma(items[i]))
    requires |items| + |items| * |chapters| <= INT_MAX
    requires forall i | 0 <= i < |items| :: StandsFor(items[i], chapters, parseTime, tss[i])
    ensures Commas(Listed(items), |Listed(items)|) + 1 == |items|
    ensures ItemsFrom(Listed(items), 0, |items|, chapters, parseTime) == Some(Concat(tss))
  {
    hide StandsFor, ItemsFrom;
    ListMeans("", items, |items|, chapters, parseTime, tss);
    assert "" + Listed(items) == Listed(items);
    CommasListed(items);
  }

  lemma {:induction false} CommasOf(p: string, rest: string, n: nat)
    requires NoComma(p) && n <= |rest|
    ensures Commas(p + rest, |p| + n) == Commas(rest, n)
  {
    if n > 0 {
      CommasOf(p, rest, n - 1);
      assert (p + rest)[|p| + n - 1] == rest[n - 1];
    } else {
      NoCommas(p, rest, |p|);
    }
  }

  lemma {:induction false} NoCommas(p: string, rest: string, n: nat)
    requires NoComma(p) && n <= |p|
    ensures Commas(p + rest, n) == 0
  {
    if n > 0 {
      NoCommas(p, rest, n - 1);
    }
  }

  lemma {:induction false} CommasListed(items: seq<string>)
    requires items != [] && (forall i | 0 <= i < |items| :: NoComma(items[i]))
    ensures Commas(Listed(items), |Listed(items)|) + 1 == |items|
    decreases |items|
  {
    var p := items[0];
    if |items| == 1 {
      NoCommas(p, "", |p|);
      assert p + "" == p;
    } else {
      var l := Listed(items[1..]);
      CommasListed(items[1..]);
      assert Listed(items) == p + ("," + l);
      CommasOf(p, "," + l, |l| + 1);
      CommaFirst(l, |l|);
    }
  }

  lemma {:induction false} CommaFirst(l: string, n: nat)
    requires n <= |l|
    ensures Commas("," + l, n + 1) == Commas(l, n) + 1
  {
    var s := "," + l;
    if n > 0 {
      CommaFirst(l, n - 1);
      assert s[n] == l[n - 1];
    } else {
      assert s[0] == ',' && Commas(s, 0) == 0;
    }
  }

  /** A list is refused if an item stands for no time, or asks for more room than there is. */
  lemma {:induction false} ListRefused(pre: string, items: seq<string>, size: int, chapters: seq<int>,
                                       parseTime: string -> Option<int>, k: nat)
    requires k < |items| && (forall i | 0 <= i < |items| :: NoComma(items[i]))
    requires (forall ts :: !StandsFor(items[k], chapters, parseTime, ts)) ||
             (CHAPTERS <= items[k] && |chapters| > INT_MAX - size)
    ensures ItemsFrom(pre + Listed(items), |pre|, size, chapters, parseTime) == None
    decreases |items|
  {
    hide StandsFor, Item, ItemsFrom, Listed, NoComma;
    var p, more := items[0], items[1..];
    var rest := if |items| == 1 then "" else "," + Listed(more);
    ListedFirst(items);
    assert pre + Listed(items) == pre + p + rest;
    AtFront(pre, p, rest, size, chapters, parseTime);
    if k == 0 {
      ItemMeans(p, chapters, parseTime);
    } else if !(CHAPTERS <= p && |chapters| > INT_MAX - size) {
      var next := pre + p + ",";
      assert pre + Listed(items) == next + Listed(more);
      assert more[k - 1] == items[k];
      ListRefused(next, more, if CHAPTERS <= p then size + |chapters| - 1 else size, chapters, parseTime, k - 1);
    }
  }
}
