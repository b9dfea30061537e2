/**
 The text of a video as it is written before encryption: the texts of the frames with a blank line between
 them, then a marker and the audio; and what the reader makes of it.
 */
module VideoText {
  import opened Wrappers
  import opened FrameText
  import opened PixelText

  /** The frames with a blank line between two of them. */
  function Blanked(frames: seq<string>): string
    decreases |frames|
  {
    if frames == [] then ""
    else if |frames| == 1 then frames[0]
    else frames[0] + "\n\n" + Blanked(frames[1..])
  }

  /** What follows the frames. */
  function AudioPart(audio: string): string {
    if audio == "" then "" else "\n---AUDIO_START---\n" + audio
  }

  method JoinVideoText(frames: seq<string>, audio: string) returns (result: string)
    ensures result == Blanked(frames) + AudioPart(audio)
  {
    hide Blanked;
    result := "";
    BlankedEnds(frames);
    for i := 0 to |frames|
      invariant result + Blanked(frames[i..]) == Blanked(frames)
    {
      BlankedStep(result, frames, i);
      result := result + frames[i];
      if i < |frames| - 1 {
        result := result + "\n\n";
      }
    }
    BlankedEnds(frames);
    assert result == Blanked(frames);
    if audio != "" {
      assert result + ("\n---AUDIO_START---\n" + audio) == result + "\n---AUDIO_START---\n" + audio;
      result := result + "\n---AUDIO_START---\n";
      result := result + audio;
    }
  }

  lemma BlankedEnds(frames: seq<string>)
    ensures Blanked(frames[|frames|..]) == "" && frames[0..] == frames && "" + Blanked(frames) == Blanked(frames)
    ensures forall s: string :: s + Blanked(frames[|frames|..]) == s
  {
  }

  lemma BlankedStep(result: string, frames: seq<string>, i: nat)
    requires i < |frames|
    ensures result + Blanked(frames[i..]) ==
            result + frames[i] + (if i < |frames| - 1 then "\n\n" else "") + Blanked(frames[i + 1..])
  {
    assert frames[i..][1..] == frames[i + 1..];
  }

  // ---------------------------------------------------------------- markers and lines

  ghost predicate HasMarker(s: string) {
    exists i: nat :: MarkerAt(s, i)
  }

  ghost predicate SomeHas(ls: seq<string>) {
    exists k | 0 <= k < |ls| :: HasMarker(ls[k])
  }

  /** The marker holds no newline, so that it stands in one line. */
  lemma MarkerBefore(s: string, e: nat, i: nat)
    requires e < |s| && s[e] == '\n' && MarkerAt(s, i) && i <= e
    ensures i + |MARKER| <= e
  {
    var m := s[i..i + |MARKER|];
    assert forall k | 0 <= k < |m| :: m[k] != '\n';
  }

  lemma MarkerInPart(a: string, b: string, c: string, i: nat)
    ensures MarkerAt(b, i) ==> MarkerAt(a + b + c, |a| + i)
    ensures i + |MARKER| <= |b| && MarkerAt(a + b + c, |a| + i) ==> MarkerAt(b, i)
  {
    var s := a + b + c;
    if i + |MARKER| <= |b| {
      assert s[|a| + i..|a| + i + |MARKER|] == b[i..i + |MARKER|];
    }
  }

  lemma MarkerSplits(line: string, rest: string)
    requires IsLine(line)
    ensures HasMarker(line + "\n" + rest) <==> HasMarker(line) || HasMarker(rest)
  {
    hide MarkerAt;
    var s, n := line + "\n" + rest, |line|;
    if HasMarker(s) {
      var i: nat :| MarkerAt(s, i);
      MarkerFits(s, i);
      if i <= n {
        MarkerBefore(s, n, i);
        assert s == "" + line + ("\n" + rest);
        MarkerInPart("", line, "\n" + rest, i);
      } else {
        assert s == (line + "\n") + rest + "";
        MarkerInPart(line + "\n", rest, "", i - n - 1);
      }
    }
    if HasMarker(line) {
      var i: nat :| MarkerAt(line, i);
      assert s == "" + line + ("\n" + rest);
      MarkerInPart("", line, "\n" + rest, i);
    }
    if HasMarker(rest) {
      var i: nat :| MarkerAt(rest, i);
      assert s == (line + "\n") + rest + "";
      MarkerInPart(line + "\n", rest, "", i);
    }
  }

  lemma SomeSplits(a: seq<string>, b: seq<string>)
    ensures SomeHas(a + b) <==> SomeHas(a) || SomeHas(b)
  {
    hide HasMarker;
    var s := a + b;
    if SomeHas(s) {
      var k :| 0 <= k < |s| && HasMarker(s[k]);
      assert k < |a| ==> HasMarker(a[k]);
      assert k >= |a| ==> HasMarker(b[k - |a|]);
    }
    if SomeHas(a) {
      var k :| 0 <= k < |a| && HasMarker(a[k]);
      assert HasMarker(s[k]);
    }
    if SomeHas(b) {
      var k :| 0 <= k < |b| && HasMarker(b[k]);
      assert HasMarker(s[|a| + k]);
    }
  }

  lemma NothingHasMarker()
    ensures !HasMarker("")
  {
    forall i: nat ensures !MarkerAt("", i) {
      if MarkerAt("", i) {
        MarkerFits("", i);
      }
    }
  }

  /** A marker in a text is a marker in one of its lines. */
  lemma {:induction false} MarkerInLine(s: string)
    ensures HasMarker(s) <==> SomeHas(Lines(s))
    decreases |s|
  {
    hide HasMarker;
    if s == "" {
      NothingHasMarker();
    } else {
      var e := LineEnd(s, 0);
      var line := s[..e];
      OneHas(line);
      if e < |s| {
        var rest := s[e + 1..];
        assert s == line + "\n" + rest;
        MarkerSplits(line, rest);
        MarkerInLine(rest);
        SomeSplits([line], Lines(rest));
      } else {
        assert line == s && Lines(s) == [line];
      }
    }
  }

  lemma {:induction false} SomeNonEmpty(ls: seq<string>)
    ensures SomeHas(NonEmpty(ls)) <==> SomeHas(ls)
    decreases |ls|
  {
    hide HasMarker, SomeHas;
    if ls == [] {
      assert NonEmpty(ls) == ls;
    } else {
      SomeNonEmpty(ls[1..]);
      assert ls == [ls[0]] + ls[1..];
      SomeSplits([ls[0]], ls[1..]);
      if ls[0] == "" {
        OneHas("");
        NothingHasMarker();
        assert NonEmpty(ls) == NonEmpty(ls[1..]);
      } else {
        SomeSplits([ls[0]], NonEmpty(ls[1..]));
      }
    }
  }

  lemma OneHas(s: string)
    ensures SomeHas([s]) <==> HasMarker(s)
  {
    hide HasMarker;
    assert [s][0] == s;
  }

  lemma {:induction false} SomeFrame(frames: seq<string>)
    ensures SomeHas(AllLines(frames)) <==> SomeHas(frames)
    decreases |frames|
  {
    hide HasMarker, SomeHas, Lines;
    if frames == [] {
      assert AllLines(frames) == frames;
    } else {
      SomeFrame(frames[1..]);
      assert frames == [frames[0]] + frames[1..];
      SomeSplits([frames[0]], frames[1..]);
      OneHas(frames[0]);
      MarkerInLine(frames[0]);
      SomeSplits(Lines(frames[0]), AllLines(frames[1..]));
    }
  }

  /** The frames of a text hold the marker if and only if the text does. */
  lemma FramesKeepMarker(text: string)
    ensures SomeHas(Frames(text)) <==> HasMarker(text)
  {
    hide HasMarker, SomeHas, Lines, Frames, AllLines, NonEmpty;
    LinesSurvive(text);
    SomeFrame(Frames(text));
    SomeNonEmpty(Lines(text));
    MarkerInLine(text);
  }

  // ---------------------------------------------------------------- reading frames back

  /** The lines of the written frames. */
  function BlankedLines(frames: seq<string>): seq<string>
    decreases |frames|
  {
    if frames == [] then []
    else if |frames| == 1 then Lines(frames[0])
    else Lines(frames[0]) + ([""] + BlankedLines(frames[1..]))
  }

  lemma {:induction false} LinesOfJoin(f: seq<string>, t: string)
    requires IsFrame(f)
    ensures Lines(Join(f) + "\n" + t) == f + Lines(t)
    decreases |f|
  {
    hide Lines, IsLine;
    if |f| == 1 {
      LinesCons(f[0], t);
    } else {
      var more := Join(f[1..]) + "\n" + t;
      assert Join(f) + "\n" + t == f[0] + "\n" + more;
      LinesCons(f[0], more);
      LinesOfJoin(f[1..], t);
    }
  }

  lemma {:induction false} LinesOfBlanked(frames: seq<string>, end: string)
    requires AllSolid(frames) && frames != [] && (end == "" || end == "\n")
    ensures Lines(Blanked(frames) + end) == BlankedLines(frames)
    decreases |frames|
  {
    hide Lines, IsFrame, Join;
    var f := Lines(frames[0]);
    assert Solid(frames[0]);
    JoinRead(f);
    if |frames| == 1 {
      if end == "" {
        assert Blanked(frames) + end == Join(f);
      } else {
        assert Blanked(frames) + end == Join(f) + "\n" + "";
        LinesOfJoin(f, "");
        LastLine("");
      }
    } else {
      var rest := Blanked(frames[1..]) + end;
      var more := "" + "\n" + rest;
      assert Blanked(frames) + end == Join(f) + "\n" + more;
      LinesOfJoin(f, more);
      LinesCons("", rest);
      LinesOfBlanked(frames[1..], end);
    }
  }

  lemma {:induction false} CollectBlanked(frames: seq<string>)
    requires AllSolid(frames)
    ensures Collect(BlankedLines(frames), "") == frames
    decreases |frames|
  {
    hide Lines, IsFrame, Join;
    if frames != [] {
      var f := Lines(frames[0]);
      assert Solid(frames[0]);
      if |frames| == 1 {
        assert f == f + [];
        CollectFrame(f, []);
        CollectNothing();
        assert frames == [Join(f)];
      } else {
        var more := BlankedLines(frames[1..]);
        CollectFrame(f, [""] + more);
        assert ([""] + more)[1..] == more && ([""] + more)[0] == "";
        assert Pushed("") == [];
        CollectBlanked(frames[1..]);
        assert frames == [Join(f)] + frames[1..];
      }
    }
  }

  /** Written frames are read back if they are made of lines that are not empty. */
  lemma BlankedIsRead(frames: seq<string>, end: string)
    requires AllSolid(frames) && (end == "" || end == "\n")
    ensures Frames(Blanked(frames) + end) == frames
  {
    hide Lines, Collect, Solid, BlankedLines;
    CollectBlanked(frames);
    if frames == [] {
      LastLine("");
      LinesCons("", "");
      CollectBlank(1, []);
      CollectNothing();
      assert Blanked(frames) + end == if end == "" then "" else "" + "\n" + "";
      assert [""] + [] == Blank(1) + [];
    } else {
      LinesOfBlanked(frames, end);
    }
  }

  // ---------------------------------------------------------------- the whole text

  /** What the reader cuts the text into. */
  ghost predicate IsSplit(text: string, r: Parts) {
    && ((forall i: nat :: !FirstMarker(text, i)) ==> r == Parts(text, ""))
    && (forall i: nat | FirstMarker(text, i) :: PartsAt(text, i, r))
  }

  lemma {:induction false} FirstExists(text: string, i: nat) returns (k: nat)
    requires MarkerAt(text, i)
    ensures FirstMarker(text, k)
    decreases i
  {
    if FirstMarker(text, i) {
      k := i;
    } else {
      var j: nat :| j < i && MarkerAt(text, j);
      k := FirstExists(text, j);
    }
  }

  /** The part before the first marker holds none. */
  lemma VideoHasNoMarker(text: string, r: Parts)
    requires IsSplit(text, r) && r.Parts?
    ensures !HasMarker(r.video)
  {
    hide MarkerAt;
    if HasMarker(text) {
      var i: nat :| MarkerAt(text, i);
      var k := FirstExists(text, i);
      assert PartsAt(text, k, r);
      MarkerFits(text, k);
      var rest := MARKER + [text[k + |MARKER|]] + r.audio;
      assert text == "" + r.video + rest;
      if HasMarker(r.video) {
        var j: nat :| MarkerAt(r.video, j);
        MarkerInPart("", r.video, rest, j);
        MarkerFits(r.video, j);
      }
    }
  }

  /** Where the marker of a written text stands. */
  lemma WrittenMarker(video: string, audio: string)
    requires !HasMarker(video)
    ensures FirstMarker(video + "\n---AUDIO_START---\n" + audio, |video| + 1)
  {
    var text := video + "\n---AUDIO_START---\n" + audio;
    assert text[|video| + 1..|video| + 1 + |MARKER|] == MARKER;
    forall k: nat | k < |video| + 1 ensures !MarkerAt(text, k) {
      if MarkerAt(text, k) {
        MarkerBefore(text, |video|, k);
        var rest := "\n---AUDIO_START---\n" + audio;
        assert text == "" + video + rest;
        MarkerInPart("", video, rest, k);
      }
    }
  }

  /** The parts of a written text. */
  lemma WrittenParts(video: string, audio: string, r: Parts)
    requires !HasMarker(video) && IsSplit(video + AudioPart(audio), r)
    ensures r == Parts(if audio == "" then video else video + "\n", audio)
  {
    var text := video + AudioPart(audio);
    if audio == "" {
      assert text == video;
    } else {
      assert text == video + "\n---AUDIO_START---\n" + audio;
      WrittenMarker(video, audio);
      hide FirstMarker;
      var i := |video| + 1;
      assert PartsAt(text, i, r);
      assert |text| > i + |MARKER|;
      assert r.video == text[..i] == video + "\n";
      assert r.audio == text[i + |MARKER| + 1..] == audio;
    }
  }

  /** Writing and reading gives back frames and audio if and only if every frame text is made of lines that are not
      empty and no frame text holds the marker. */
  lemma RoundTripIff(frames: seq<string>, audio: string, r: Parts)
    requires IsSplit(Blanked(frames) + AudioPart(audio), r)
    ensures r.Parts? && Frames(r.video) == frames && r.audio == audio <==> AllSolid(frames) && !SomeHas(frames)
  {
    hide *;
    if r.Parts? && Frames(r.video) == frames {
      VideoHasNoMarker(Blanked(frames) + AudioPart(audio), r);
      LinesSurvive(r.video);
      FramesKeepMarker(r.video);
    }
    if AllSolid(frames) && !SomeHas(frames) {
      BlankedIsRead(frames, "");
      BlankedIsRead(frames, "\n");
      assert Blanked(frames) + "" == Blanked(frames);
      FramesKeepMarker(Blanked(frames));
      WrittenParts(Blanked(frames), audio, r);
    }
  }

  // ---------------------------------------------------------------- videos

  /** The pixels of all frames one after the other, in the size of the first frame. */
  function Assembled(texts: seq<string>): Image
    decreases |texts|
  {
    if texts == [] then NoImage()
    else
      var last := texts[|texts| - 1];
      var img, before := Decoded(Lines(last), NoImage()), Assembled(texts[..|texts| - 1]);
      if |texts| == 1 then img else before.(pixels := before.pixels + img.pixels)
  }

  /** What is made of the parts; nothing if the text ends with its marker. */
  function Picture(parts: Parts): Option<Image> {
    if parts.Parts? then Some(Assembled(Frames(parts.video))) else None
  }

  /** decryptVideo up to the writing of the picture. */
  method ReadVideo(text: string) returns (r: Option<Image>)
    ensures exists parts :: IsSplit(text, parts) && r == Picture(parts)
  {
    hide Decoded, Frames, Lines, MarkerAt;
    var parts := SplitParts(text);
    assert IsSplit(text, parts);
    if parts.OutOfRange? {
      return None;
    }
    var texts := RebuildFrames(parts.video);
    var all, width, height := [], 0, 0;
    for i := 0 to |texts|
      invariant Image(all, width, height) == Assembled(texts[..i])
    {
      var img := TextToPixel(texts[i]);
      assert texts[..i + 1][..i] == texts[..i] && texts[..i + 1][i] == texts[i];
      if i == 0 {
        width, height := img.width, img.height;
      }
      all := all + img.pixels;
    }
    assert texts[..|texts|] == texts;
    r := Some(Image(all, width, height));
  }

  /** All frames have this size. */
  ghost predicate Sized(frames: seq<seq<RGB>>, w: nat, h: nat) {
    forall i | 0 <= i < |frames| :: |frames[i]| == w * h
  }

  ghost function Texts(frames: seq<seq<RGB>>, w: nat, h: nat): (ts: seq<string>)
    requires Sized(frames, w, h)
    ensures |ts| == |frames| && forall i | 0 <= i < |frames| :: ts[i] == Text(frames[i], w, h)
  {
    seq(|frames|, i requires 0 <= i < |frames| => Text(frames[i], w, h))
  }

  function Flat(frames: seq<seq<RGB>>): seq<RGB> {
    if frames == [] then [] else Flat(frames[..|frames| - 1]) + frames[|frames| - 1]
  }

  ghost predicate PictureChars(s: string) {
    forall i | 0 <= i < |s| :: s[i] != '-'
  }

  lemma {:induction false} JoinChars(ls: seq<string>)
    requires forall i | 0 <= i < |ls| :: RowChars(ls[i])
    ensures PictureChars(Join(ls))
    decreases |ls|
  {
    if |ls| > 0 {
      assert RowChars(ls[0]);
      if |ls| > 1 {
        JoinChars(ls[1..]);
      }
    }
  }

  lemma NoDashNoMarker(s: string)
    requires PictureChars(s)
    ensures !HasMarker(s)
  {
    assert MARKER[0] == '-';
    forall i: nat ensures !MarkerAt(s, i) {
      assert i + |MARKER| <= |s| ==> s[i..i + |MARKER|][0] == s[i];
    }
  }

  /** The text of a picture with pixels is one that can be told from others. */
  lemma PictureIsSolid(pixels: seq<RGB>, w: nat, h: nat)
    requires |pixels| == w * h && w > 0 && h > 0
    ensures Solid(Text(pixels, w, h)) && !HasMarker(Text(pixels, w, h))
  {
    hide Rows, RowTexts, RowText, Join, HasMarker, PictureChars, RowChars, Solid;
    var rows := Rows(pixels, w, h);
    var ls := RowTexts(rows);
    RowsAreFrame(pixels, w, h);
    JoinRead(ls);
    forall y | 0 <= y < |ls| ensures RowChars(ls[y]) {
      RowIsLine(rows[y]);
    }
    JoinChars(ls);
    NoDashNoMarker(Join(ls));
  }

  lemma {:induction false} AssembledFrames(frames: seq<seq<RGB>>, w: nat, h: nat)
    requires Sized(frames, w, h) && w > 0 && h > 0 && frames != []
    ensures Assembled(Texts(frames, w, h)) == Image(ShownAll(Flat(frames)), w, h)
    decreases |frames|
  {
    hide Text, Shown, Decoded, Lines;
    var n := |frames| - 1;
    var last, before := frames[n], frames[..n];
    PictureIsRead(last, w, h);
    assert Texts(frames, w, h)[..n] == Texts(before, w, h);
    if n == 0 {
      assert Flat(frames) == [] + last;
    } else {
      AssembledFrames(before, w, h);
      assert ShownAll(Flat(frames)) == ShownAll(Flat(before)) + ShownAll(last);
    }
  }

  /** A video of pictures with pixels: the audio and the text of every frame are read back, and from them all pixels
      of all frames in the colours that are left of them, with the width and the height. */
  lemma VideoIsRead(frames: seq<seq<RGB>>, w: nat, h: nat, audio: string, r: Parts)
    requires Sized(frames, w, h) && w > 0 && h > 0 && frames != []
    requires IsSplit(Blanked(Texts(frames, w, h)) + AudioPart(audio), r)
    ensures r.Parts? && r.audio == audio && Frames(r.video) == Texts(frames, w, h)
    ensures Picture(r) == Some(Image(ShownAll(Flat(frames)), w, h))
  {
    hide IsSplit, Blanked, AudioPart, Text, Frames, Assembled, Flat, ShownAll, HasMarker, Solid;
    var ts := Texts(frames, w, h);
    forall i | 0 <= i < |frames| ensures Solid(ts[i]) && !HasMarker(ts[i]) {
      PictureIsSolid(frames[i], w, h);
    }
    RoundTripIff(ts, audio, r);
    AssembledFrames(frames, w, h);
  }
}
