/**
 The text of a decrypted video: frames separated by blank lines, then a marker and
 the audio. The frames are rebuilt line by line.
 */
module FrameText {
  import opened Wrappers

  // ---------------------------------------------------------------- the marker

  const MARKER: string := "---AUDIO_START---"

  predicate MarkerAt(text: string, i: nat) {
    i + |MARKER| <= |text| && text[i..i + |MARKER|] == MARKER
  }

  datatype Parts = OutOfRange | Parts(video: string, audio: string)

  ghost predicate FirstMarker(text: string, i: nat) {
    MarkerAt(text, i) && forall k: nat | k < i :: !MarkerAt(text, k)
  }

  method FindMarker(text: string) returns (r: Option<nat>)
    ensures r.Some? ==> FirstMarker(text, r.value)
    ensures r.None? ==> forall i: nat :: !FirstMarker(text, i)
  {
    var i := 0;
    while i + |MARKER| <= |text|
      invariant forall k: nat | k < i :: !MarkerAt(text, k)
    {
      if MarkerAt(text, i) {
        return Some(i);
      }
      i := i + 1;
    }
    r := None;
  }

  lemma FirstIsUnique(text: string, i: nat, k: nat)
    requires FirstMarker(text, i) && FirstMarker(text, k)
    ensures i == k
  {
    hide MarkerAt;
    assert i < k || k < i || i == k;
  }

  lemma AroundMarker(text: string, i: nat)
    requires MarkerAt(text, i) && i + 18 <= |text|
    ensures text == text[..i] + MARKER + [text[i + 17]] + text[i + 18..]
  {
    assert text == text[..i] + text[i..i + 17] + [text[i + 17]] + text[i + 18..];
  }

  /** The parts of a text whose first marker is at i: one character after the marker is lost, and a
      text that ends with the marker is an error. */
  ghost predicate PartsAt(text: string, i: nat, r: Parts)
    requires MarkerAt(text, i)
  {
    if i + |MARKER| == |text| then r == OutOfRange
    else r.Parts? && |r.video| == i && text == r.video + MARKER + [text[i + |MARKER|]] + r.audio
  }

  /** The video is what stands before the first marker, or everything. */
  method SplitParts(text: string) returns (r: Parts)
    ensures (forall i: nat :: !FirstMarker(text, i)) ==> r == Parts(text, "")
    ensures forall i: nat | FirstMarker(text, i) :: PartsAt(text, i, r)
  {
    hide MarkerAt;
    var pos := FindMarker(text);
    if pos.None? {
      return Parts(text, "");
    }
    var i := pos.value;
    MarkerFits(text, i);
    if i + 18 > |text| {
      r := OutOfRange;
    } else {
      AroundMarker(text, i);
      r := Parts(text[..i], text[i + 18..]);
    }
    assert PartsAt(text, i, r);
    forall k: nat | FirstMarker(text, k) ensures PartsAt(text, k, r) {
      FirstIsUnique(text, i, k);
    }
  }

  lemma MarkerFits(text: string, i: nat)
    requires MarkerAt(text, i)
    ensures |MARKER| == 17 && i + 17 <= |text|
  {
  }

  // ---------------------------------------------------------------- lines

  function LineEnd(s: string, i: nat): (r: nat)
    requires i <= |s|
    ensures i <= r <= |s| && (r < |s| ==> s[r] == '\n') && (forall k | i <= k < r :: s[k] != '\n')
    decreases |s| - i
  {
    if i == |s| || s[i] == '\n' then i else LineEnd(s, i + 1)
  }

  /** The lines getline delivers: a newline at the very end begins no further line. */
  function Lines(s: string): seq<string>
    decreases |s|
  {
    if s == "" then []
    else
      var e := LineEnd(s, 0);
      [s[..e]] + (if e < |s| then Lines(s[e + 1..]) else [])
  }

  predicate IsLine(l: string) {
    forall i | 0 <= i < |l| :: l[i] != '\n'
  }

  ghost predicate AreLines(ls: seq<string>) {
    forall i | 0 <= i < |ls| :: IsLine(ls[i])
  }

  // ---------------------------------------------------------------- the loop

  function Extended(cur: string, line: string): string {
    if cur == "" then line else cur + "\n" + line
  }

  function Pushed(cur: string): seq<string> {
    if cur == "" then [] else [cur]
  }

  /** The frames made from the remaining lines, with the current frame so far. */
  function Collect(ls: seq<string>, cur: string): seq<string>
    decreases |ls|
  {
    if ls == [] then Pushed(cur)
    else if ls[0] == "" then Pushed(cur) + Collect(ls[1..], "")
    else Collect(ls[1..], Extended(cur, ls[0]))
  }

  function Frames(text: string): seq<string> {
    Collect(Lines(text), "")
  }

  method RebuildFrames(text: string) returns (frames: seq<string>)
    ensures frames == Frames(text)
  {
    hide LineEnd, Ahead;
    frames := [];
    var cur, pos := "", 0;
    AllAhead(text);
    while pos < |text|
      invariant 0 <= pos <= |text|
      invariant Ahead(text, pos, frames, cur) == Frames(text)
    {
      var e := LineEnd(text, pos);
      LoopStep(text, pos, frames, cur);
      var line := text[pos..e];
      if line == "" && cur != "" {
        frames := frames + [cur];
        cur := "";
      } else if line != "" {
        if cur != "" {
          cur := cur + "\n";
        }
        assert "" + line == line;
        cur := cur + line;
      }
      pos := if e < |text| then e + 1 else e;
    }
    LoopEnd(text, frames, cur);
    if cur != "" {
      frames := frames + [cur];
    }
  }

  /** The frames so far and those made from the rest of the text. */
  ghost function Ahead(text: string, pos: nat, frames: seq<string>, cur: string): seq<string>
    requires pos <= |text|
  {
    frames + Collect(Lines(text[pos..]), cur)
  }

  lemma AllAhead(text: string)
    ensures Ahead(text, 0, [], "") == Frames(text)
  {
    hide Lines, Collect;
    assert text[0..] == text;
  }

  lemma LoopEnd(text: string, frames: seq<string>, cur: string)
    ensures Ahead(text, |text|, frames, cur) == if cur == "" then frames else frames + [cur]
  {
  }

  lemma LineEndShift(s: string, pos: nat, i: nat)
    requires pos + i <= |s|
    ensures LineEnd(s[pos..], i) + pos == LineEnd(s, pos + i)
    decreases |s| - pos - i
  {
    if pos + i < |s| && s[pos + i] != '\n' {
      LineEndShift(s, pos, i + 1);
    }
  }

  lemma FirstLine(s: string, pos: nat)
    requires pos < |s|
    ensures var e := LineEnd(s, pos);
      Lines(s[pos..]) == [s[pos..e]] + Lines(s[if e < |s| then e + 1 else e..])
  {
    hide LineEnd, Lines;
    LineEndShift(s, pos, 0);
    var e, t := LineEnd(s, pos), s[pos..];
    LinesUnfold(t);
    assert t[..e - pos] == s[pos..e];
    if e < |s| {
      assert t[e - pos + 1..] == s[e + 1..];
    } else {
      assert t[e - pos..] == s[e..];
    }
  }

  lemma LinesUnfold(t: string)
    requires t != ""
    ensures var e := LineEnd(t, 0); Lines(t) == [t[..e]] + Lines(t[if e < |t| then e + 1 else e..])
  {
    hide LineEnd;
  }

  lemma LoopStep(text: string, pos: nat, frames: seq<string>, cur: string)
    requires pos < |text|
    ensures var e := LineEnd(text, pos); var line := text[pos..e];
      var next := if e < |text| then e + 1 else e;
      Ahead(text, pos, frames, cur) ==
      if line == "" then Ahead(text, next, if cur == "" then frames else frames + [cur], "")
      else Ahead(text, next, frames, Extended(cur, line))
  {
    hide Lines;
    FirstLine(text, pos);
    var e := LineEnd(text, pos);
    var line, rest := text[pos..e], Lines(text[if e < |text| then e + 1 else e..]);
    assert ([line] + rest)[1..] == rest && ([line] + rest)[0] == line;
    assert frames + (Pushed(cur) + Collect(rest, "")) == frames + Pushed(cur) + Collect(rest, "");
  }

  // ---------------------------------------------------------------- writing frames

  /** A frame: one or more non-empty lines. */
  ghost predicate IsFrame(f: seq<string>) {
    f != [] && AreLines(f) && forall i | 0 <= i < |f| :: f[i] != ""
  }

  ghost predicate AreFrames(fs: seq<seq<string>>) {
    forall i | 0 <= i < |fs| :: IsFrame(fs[i])
  }

  function Join(f: seq<string>): string {
    if f == [] then "" else if |f| == 1 then f[0] else f[0] + "\n" + Join(f[1..])
  }

  /** The text of each frame. */
  function Joined(fs: seq<seq<string>>): seq<string>
    decreases |fs|
  {
    if fs == [] then [] else [Join(fs[0])] + Joined(fs[1..])
  }

  function Blank(n: nat): seq<string> {
    if n == 0 then [] else [""] + Blank(n - 1)
  }

  /** The lines of frames with blank lines before, between and after them. */
  function Layout(fs: seq<seq<string>>, gaps: seq<nat>): seq<string>
    requires |gaps| == |fs| + 1
    decreases |fs|
  {
    if fs == [] then Blank(gaps[0]) else Blank(gaps[0]) + (fs[0] + Layout(fs[1..], gaps[1..]))
  }

  /** At least one blank line between two frames. */
  ghost predicate Separated(fs: seq<seq<string>>, gaps: seq<nat>) {
    |gaps| == |fs| + 1 && forall i | 0 < i < |fs| :: gaps[i] >= 1
  }

  function Unlines(ls: seq<string>): string {
    if ls == [] then "" else ls[0] + "\n" + Unlines(ls[1..])
  }

  lemma LineEndOf(l: string, rest: string, i: nat)
    requires IsLine(l) && i <= |l|
    ensures LineEnd(l + "\n" + rest, i) == |l| && LineEnd(l, i) == |l|
    decreases |l| - i
  {
    var s := l + "\n" + rest;
    if i < |l| {
      assert s[i] == l[i];
      LineEndOf(l, rest, i + 1);
    } else {
      assert s[i] == '\n';
    }
  }

  lemma LinesCons(l: string, rest: string)
    requires IsLine(l)
    ensures Lines(l + "\n" + rest) == [l] + Lines(rest)
  {
    var s := l + "\n" + rest;
    LineEndOf(l, rest, 0);
    assert s[..|l|] == l && s[|l| + 1..] == rest;
  }

  /** Lines are read back, with or without a newline at the end of a last line that is not empty. */
  lemma {:induction false} UnlinesRead(ls: seq<string>, last: string)
    requires AreLines(ls) && IsLine(last)
    ensures Lines(Unlines(ls) + last) == ls + (if last == "" then [] else [last])
    decreases |ls|
  {
    hide Lines;
    if ls == [] {
      assert Unlines(ls) + last == last;
      LastLine(last);
    } else {
      var rest := Unlines(ls[1..]) + last;
      assert Unlines(ls) + last == ls[0] + "\n" + rest;
      LinesCons(ls[0], rest);
      UnlinesRead(ls[1..], last);
    }
  }

  lemma LastLine(last: string)
    requires IsLine(last)
    ensures Lines(last) == if last == "" then [] else [last]
  {
    LineEndOf(last, "", 0);
    assert last[..|last|] == last;
  }

  // ---------------------------------------------------------------- reading frames back

  lemma {:induction false} CollectBlank(n: nat, ls: seq<string>)
    ensures Collect(Blank(n) + ls, "") == Collect(ls, "")
  {
    if n == 0 {
      assert Blank(n) + ls == ls;
    } else {
      assert (Blank(n) + ls)[1..] == Blank(n - 1) + ls;
      CollectBlank(n - 1, ls);
    }
  }

  function ExtendedAll(cur: string, f: seq<string>): string
    decreases |f|
  {
    if f == [] then cur else ExtendedAll(Extended(cur, f[0]), f[1..])
  }

  lemma {:induction false} CollectLines(f: seq<string>, ls: seq<string>, cur: string)
    requires forall i | 0 <= i < |f| :: f[i] != ""
    ensures Collect(f + ls, cur) == Collect(ls, ExtendedAll(cur, f))
    decreases |f|
  {
    if f == [] {
      assert f + ls == ls;
    } else {
      assert (f + ls)[1..] == f[1..] + ls;
      CollectLines(f[1..], ls, Extended(cur, f[0]));
    }
  }

  lemma {:induction false} ExtendedIsJoin(f: seq<string>, cur: string)
    requires f != [] && forall i | 0 <= i < |f| :: f[i] != ""
    ensures ExtendedAll(cur, f) == Extended(cur, Join(f)) && Join(f) != ""
    decreases |f|
  {
    if |f| == 1 {
      assert f[1..] == [];
    } else {
      ExtendedIsJoin(f[1..], Extended(cur, f[0]));
      var j := Join(f[1..]);
      if cur != "" {
        assert (cur + "\n" + f[0]) + "\n" + j == cur + "\n" + (f[0] + "\n" + j);
      }
    }
  }

  /** A frame ends at a blank line or at the end. */
  lemma CollectFrame(f: seq<string>, ls: seq<string>)
    requires IsFrame(f) && (ls == [] || ls[0] == "")
    ensures Collect(f + ls, "") == [Join(f)] + Collect(ls, "")
  {
    hide Join, ExtendedAll, IsLine;
    CollectLines(f, ls, "");
    ExtendedIsJoin(f, "");
    assert Pushed(Join(f)) == [Join(f)] && Pushed("") == [];
    assert ls == [] ==> Collect(ls, "") == [];
  }

  lemma LayoutBegins(fs: seq<seq<string>>, gaps: seq<nat>)
    requires |gaps| == |fs| + 1 && (fs == [] || gaps[0] >= 1)
    ensures Layout(fs, gaps) == [] || Layout(fs, gaps)[0] == ""
  {
  }

  lemma {:induction false} CollectLayout(fs: seq<seq<string>>, gaps: seq<nat>)
    requires AreFrames(fs) && Separated(fs, gaps)
    ensures Collect(Layout(fs, gaps), "") == Joined(fs)
    decreases |fs|
  {
    hide Collect, Join, IsFrame;
    if fs == [] {
      assert Blank(gaps[0]) == Blank(gaps[0]) + [];
      CollectBlank(gaps[0], []);
      CollectNothing();
    } else {
      var rest := Layout(fs[1..], gaps[1..]);
      CollectBlank(gaps[0], fs[0] + rest);
      LayoutBegins(fs[1..], gaps[1..]);
      CollectFrame(fs[0], rest);
      CollectLayout(fs[1..], gaps[1..]);
    }
  }

  lemma CollectNothing()
    ensures Collect([], "") == []
  {
  }

  lemma {:induction false} LayoutLines(fs: seq<seq<string>>, gaps: seq<nat>)
    requires AreFrames(fs) && |gaps| == |fs| + 1
    ensures AreLines(Layout(fs, gaps))
    decreases |fs|
  {
    BlankLines(gaps[0]);
    if fs != [] {
      LayoutLines(fs[1..], gaps[1..]);
      assert IsFrame(fs[0]);
    }
  }

  lemma {:induction false} BlankLines(n: nat)
    ensures AreLines(Blank(n))
  {
    if n > 0 {
      BlankLines(n - 1);
    }
  }

  /** Splitting inverts joining: whatever frames were written, with any number of blank lines
      before and after them and at least one in between, they are read back exactly. */
  lemma FramesAreRecovered(fs: seq<seq<string>>, gaps: seq<nat>)
    requires AreFrames(fs) && Separated(fs, gaps)
    ensures Frames(Unlines(Layout(fs, gaps))) == Joined(fs)
  {
    hide Collect, Layout, Lines, Unlines;
    LayoutLines(fs, gaps);
    UnlinesRead(Layout(fs, gaps), "");
    assert Unlines(Layout(fs, gaps)) + "" == Unlines(Layout(fs, gaps));
    assert Layout(fs, gaps) + [] == Layout(fs, gaps);
    CollectLayout(fs, gaps);
  }

  /** The same when the text ends in the middle of its last line. */
  lemma FramesAreRecoveredUnended(fs: seq<seq<string>>, gaps: seq<nat>, ls: seq<string>, last: string)
    requires AreFrames(fs) && Separated(fs, gaps) && Layout(fs, gaps) == ls + [last] && last != ""
    ensures Frames(Unlines(ls) + last) == Joined(fs)
  {
    hide Collect, Layout, Lines, Unlines;
    LayoutLines(fs, gaps);
    var all := ls + [last];
    assert forall i | 0 <= i < |ls| :: ls[i] == all[i];
    assert last == all[|ls|];
    UnlinesRead(ls, last);
    CollectLayout(fs, gaps);
  }

  // ---------------------------------------------------------------- any text

  function NonEmpty(ls: seq<string>): seq<string>
    decreases |ls|
  {
    if ls == [] then [] else (if ls[0] == "" then [] else [ls[0]]) + NonEmpty(ls[1..])
  }

  /** All lines of all frames. */
  function AllLines(frames: seq<string>): seq<string>
    decreases |frames|
  {
    if frames == [] then [] else Lines(frames[0]) + AllLines(frames[1..])
  }

  /** A frame text that is made of one or more lines, none of them empty. */
  ghost predicate Solid(frame: string) {
    IsFrame(Lines(frame)) && frame == Join(Lines(frame))
  }

  ghost predicate AllSolid(frames: seq<string>) {
    forall i | 0 <= i < |frames| :: Solid(frames[i])
  }

  lemma {:induction false} LinesAreLines(s: string)
    ensures AreLines(Lines(s))
    decreases |s|
  {
    if s != "" {
      var e := LineEnd(s, 0);
      assert IsLine(s[..e]);
      if e < |s| {
        LinesAreLines(s[e + 1..]);
      }
    }
  }

  lemma {:induction false} JoinRead(f: seq<string>)
    requires IsFrame(f)
    ensures Lines(Join(f)) == f && Join(f) != "" && Solid(Join(f))
    decreases |f|
  {
    hide Lines, IsLine;
    if |f| == 1 {
      LastLine(f[0]);
    } else {
      JoinRead(f[1..]);
      LinesCons(f[0], Join(f[1..]));
      assert f == [f[0]] + f[1..];
    }
  }

  lemma {:induction false} JoinLast(f: seq<string>, line: string)
    requires f != []
    ensures Join(f + [line]) == Join(f) + "\n" + line
    decreases |f|
  {
    if |f| > 1 {
      assert (f + [line])[1..] == f[1..] + [line];
      JoinLast(f[1..], line);
    }
  }

  /** The current frame stays solid as it grows. */
  lemma SolidExtended(cur: string, line: string)
    requires (cur == "" || Solid(cur)) && IsLine(line) && line != ""
    ensures Solid(Extended(cur, line)) && Lines(Extended(cur, line)) == Lines(cur) + [line] && Extended(cur, line) != ""
  {
    assert Join([line]) == line;
    hide Lines, Join, IsLine;
    var f := if cur == "" then [] else Lines(cur);
    assert IsFrame(f + [line]);
    JoinRead(f + [line]);
    LastLine("");
    if cur == "" {
      JoinRead([line]);
      LastLine(line);
    } else {
      JoinLast(f, line);
    }
  }

  lemma {:induction false} CollectSurvives(ls: seq<string>, cur: string)
    requires AreLines(ls) && (cur == "" || Solid(cur))
    ensures AllSolid(Collect(ls, cur)) && AllLines(Collect(ls, cur)) == Lines(cur) + NonEmpty(ls)
    decreases |ls|
  {
    hide Lines, Solid, IsLine;
    LastLine("");
    if ls == [] {
      PushedSurvives(cur, []);
      assert Pushed(cur) + [] == Pushed(cur) == Collect(ls, cur);
      assert AllLines([]) == [] && NonEmpty(ls) == [];
    } else if ls[0] == "" {
      CollectSurvives(ls[1..], "");
      var more := Collect(ls[1..], "");
      assert Lines(cur) + (Lines("") + NonEmpty(ls[1..])) == Lines(cur) + NonEmpty(ls);
      PushedSurvives(cur, more);
    } else {
      assert IsLine(ls[0]);
      SolidExtended(cur, ls[0]);
      CollectSurvives(ls[1..], Extended(cur, ls[0]));
      assert Lines(cur) + [ls[0]] + NonEmpty(ls[1..]) == Lines(cur) + NonEmpty(ls);
    }
  }

  lemma PushedSurvives(cur: string, more: seq<string>)
    requires AllSolid(more) && (cur == "" || Solid(cur))
    ensures AllSolid(Pushed(cur) + more) && AllLines(Pushed(cur) + more) == Lines(cur) + AllLines(more)
  {
    hide Lines, Solid;
    LastLine("");
    if cur == "" {
      assert Pushed(cur) + more == more;
    } else {
      assert ([cur] + more)[1..] == more;
    }
  }

  /** On any text: the non-empty lines survive in order, all of them, and every frame is made of
      one or more non-empty lines. */
  lemma LinesSurvive(text: string)
    ensures AllLines(Frames(text)) == NonEmpty(Lines(text)) && AllSolid(Frames(text))
  {
    hide Lines, Collect, Solid, AllLines;
    LinesAreLines(text);
    CollectSurvives(Lines(text), "");
    LastLine("");
  }
}
