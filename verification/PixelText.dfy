/**
 Pixels as text: every pixel is a short code of colour letters, every row a line of codes. What is read
 back is the same picture in few colours.
 */
module PixelText {
  import opened FrameText
  import Strtol

  type Byte = x: int | 0 <= x < 256

  datatype RGB = RGB(r: Byte, g: Byte, b: Byte)

  // ---------------------------------------------------------------- codes

  predicate IsBase(c: char) {
    c == 'R' || c == 'G' || c == 'B'
  }

  function Base(c: char): RGB
    requires IsBase(c)
  {
    match c
    case 'R' => RGB(255, 0, 0)
    case 'G' => RGB(0, 255, 0)
    case _ => RGB(0, 0, 255)
  }

  function Square(x: int): int { x * x }

  /** Less than 100 away. */
  predicate Near(c: RGB, d: RGB) {
    Square(c.r - d.r) + Square(c.g - d.g) + Square(c.b - d.b) < 10000
  }

  function Channel(c: RGB, letter: char): Byte {
    if letter == 'R' then c.r else if letter == 'G' then c.g else c.b
  }

  function Shade(channel: Byte): string {
    if channel > 200 then "L" else if channel < 55 then "D" else ""
  }

  predicate Dark(c: RGB) {
    c.r < 30 && c.g < 30 && c.b < 30
  }

  /** The code of a colour: that of the one base colour it is near to, or a mixture. */
  function Code(c: RGB): string {
    if Near(c, Base('R')) then if c.r > 200 then "RL" else "R"
    else if Near(c, Base('G')) then if c.g > 200 then "GL" else "G"
    else if Near(c, Base('B')) then if c.b > 200 then "BL" else "B"
    else if Dark(c) then "RGBD" else "RGB"
  }

  /** The base colours in the order of some hash table. */
  predicate IsOrder(order: seq<char>) {
    |order| == 3 && 'R' in order && 'G' in order && 'B' in order
  }

  lemma OrderHolds(order: seq<char>)
    requires IsOrder(order)
    ensures IsBase(order[0]) && IsBase(order[1]) && IsBase(order[2])
    ensures order[0] != order[1] && order[1] != order[2] && order[0] != order[2]
  {
    var i, j, k :| 0 <= i < 3 && 0 <= j < 3 && 0 <= k < 3 && order[i] == 'R' && order[j] == 'G' && order[k] == 'B';
  }

  lemma SmallSquare(x: int)
    requires Square(x) < 10000
    ensures -100 < x < 100
  {
    assert x >= 100 ==> x * x >= 100 * x >= 10000;
    assert x <= -100 ==> x * x >= -100 * x >= 10000;
  }

  /** Nearness shows in every channel. */
  lemma NearChannels(c: RGB, d: RGB)
    requires Near(c, d)
    ensures -100 < c.r - d.r < 100 && -100 < c.g - d.g < 100 && -100 < c.b - d.b < 100
  {
    SquareNotNegative(c.r - d.r);
    SquareNotNegative(c.g - d.g);
    SquareNotNegative(c.b - d.b);
    SmallSquare(c.r - d.r);
    SmallSquare(c.g - d.g);
    SmallSquare(c.b - d.b);
  }

  lemma SquareNotNegative(x: int)
    ensures Square(x) >= 0
  {
  }

  /** No colour is near to two base colours, and what is near to one is not dark in it. */
  lemma NearOne(c: RGB, l: char, m: char)
    requires IsBase(l) && Near(c, Base(l))
    ensures Channel(c, l) > 155 && (IsBase(m) && m != l ==> !Near(c, Base(m)))
  {
    NearChannels(c, Base(l));
    if IsBase(m) && m != l && Near(c, Base(m)) {
      NearChannels(c, Base(m));
    }
  }

  /** What one base colour adds to the code. */
  function LetterCode(c: RGB, l: char): string
    requires IsBase(l)
  {
    if Near(c, Base(l)) then [l] + Shade(Channel(c, l)) else ""
  }

  lemma CodeOfLetters(c: RGB, l: char, m: char, n: char)
    requires IsBase(l) && IsBase(m) && IsBase(n) && l != m && m != n && l != n
    ensures var code := LetterCode(c, l) + LetterCode(c, m) + LetterCode(c, n);
      Code(c) == if code == "" then if Dark(c) then "RGBD" else "RGB" else code
  {
    hide Near;
    if Near(c, Base(l)) { NearOne(c, l, m); NearOne(c, l, n); }
    if Near(c, Base(m)) { NearOne(c, m, l); NearOne(c, m, n); }
    if Near(c, Base(n)) { NearOne(c, n, l); NearOne(c, n, m); }
  }

  /** rgbToCode: the result does not depend on the order in which the table is walked. */
  method RgbToCode(color: RGB, order: seq<char>) returns (code: string)
    requires IsOrder(order)
    ensures code == Code(color)
  {
    hide Code, Near;
    OrderHolds(order);
    CodeOfLetters(color, order[0], order[1], order[2]);
    code := "";
    for i := 0 to |order|
      invariant i == 0 ==> code == ""
      invariant i == 1 ==> code == LetterCode(color, order[0])
      invariant i == 2 ==> code == LetterCode(color, order[0]) + LetterCode(color, order[1])
      invariant i == 3 ==>
        code == LetterCode(color, order[0]) + LetterCode(color, order[1]) + LetterCode(color, order[2])
    {
      var letter := order[i];
      if Near(color, Base(letter)) {
        var channel := if letter == 'R' then color.r else if letter == 'G' then color.g else color.b;
        code := code + ([letter] + Shade(channel));
      }
    }
    if code == "" {
      if color.r < 30 && color.g < 30 && color.b < 30 {
        return "RGBD";
      }
      return "RGB";
    }
  }

  // ---------------------------------------------------------------- colours

  /** Channels added up so far, and the number of letters. */
  datatype Mix = Mix(r: Byte, g: Byte, b: Byte, count: nat)

  /** How much of a base colour is added: half, all, or one and a half. */
  datatype Factor = Half | Whole | More

  function Add(x: Byte, base: Byte, f: Factor): Byte {
    var sum := match f
      case Half => (2 * x + base) / 2
      case Whole => x + base
      case More => (2 * x + 3 * base) / 2;
    if sum > 255 then 255 else sum
  }

  /** The factor of a letter, by what follows it. */
  function FactorOf(next: string): Factor {
    if next == "" then Whole else if next[0] == 'L' then More else if next[0] == 'D' then Half else Whole
  }

  function Mixed(m: Mix, letter: char, f: Factor): Mix
    requires IsBase(letter)
  {
    var d := Base(letter);
    Mix(Add(m.r, d.r, f), Add(m.g, d.g, f), Add(m.b, d.b, f), m.count + 1)
  }

  function MixAll(m: Mix, code: string): Mix
    decreases |code|
  {
    if code == "" then m
    else if !IsBase(code[0]) then MixAll(m, code[1..])
    else
      var f := FactorOf(code[1..]);
      MixAll(Mixed(m, code[0], f), if f == Whole then code[1..] else code[2..])
  }

  function Averaged(m: Mix): RGB {
    if m.count == 0 then RGB(0, 0, 0) else RGB(Part(m.r, m.count), Part(m.g, m.count), Part(m.b, m.count))
  }

  function Part(x: Byte, n: nat): Byte
    requires n > 0
  {
    PartFits(x, n);
    x / n
  }

  lemma PartFits(x: Byte, n: nat)
    requires n > 0
    ensures 0 <= x / n <= x
  {
    var q := x / n;
    assert q * n <= x;
    assert q > x ==> q * n > x;
  }

  /** The colour of a code. */
  function Colour(code: string): RGB {
    Averaged(MixAll(Mix(0, 0, 0, 0), code))
  }

  method CodeToRGB(code: string) returns (result: RGB)
    ensures result == Colour(code)
  {
    hide Add, Base, Averaged;
    var m := Mix(0, 0, 0, 0);
    var i := 0;
    assert code[0..] == code;
    while i < |code|
      invariant 0 <= i <= |code| && MixAll(m, code[i..]) == MixAll(Mix(0, 0, 0, 0), code)
      decreases |code| - i
    {
      var c := code[i];
      assert code[i..][1..] == code[i + 1..];
      if !IsBase(c) {
        i := i + 1;
        continue;
      }
      var factor, was := Whole, i;
      if i + 1 < |code| {
        assert code[i..][2..] == code[i + 2..];
        if code[i + 1] == 'L' {
          factor, i := More, i + 1;
        } else if code[i + 1] == 'D' {
          factor, i := Half, i + 1;
        }
      }
      assert factor == FactorOf(code[was + 1..]);
      m := Mixed(m, c, factor);
      i := i + 1;
    }
    result := Averaged(m);
  }

  /** What is left of a colour: the base colour near to it, or one of two greys. */
  function Shown(c: RGB): RGB {
    if Near(c, RGB(255, 0, 0)) then RGB(255, 0, 0)
    else if Near(c, RGB(0, 255, 0)) then RGB(0, 255, 0)
    else if Near(c, RGB(0, 0, 255)) then RGB(0, 0, 255)
    else if Dark(c) then RGB(85, 85, 42) else RGB(85, 85, 85)
  }

  lemma MixLetter(m: Mix, l: char, rest: string)
    requires IsBase(l)
    ensures FactorOf(rest) == Whole ==> MixAll(m, [l] + rest) == MixAll(Mixed(m, l, Whole), rest)
    ensures FactorOf(rest) != Whole ==> MixAll(m, [l] + rest) == MixAll(Mixed(m, l, FactorOf(rest)), rest[1..])
  {
    hide Mixed;
    var code := [l] + rest;
    assert code[1..] == rest && (rest != "" ==> code[2..] == rest[1..]);
  }

  lemma OneLetter(l: char)
    requires IsBase(l)
    ensures Colour([l]) == Base(l) && Colour([l] + "L") == Base(l)
  {
    var m := Mix(0, 0, 0, 0);
    MixLetter(m, l, "");
    MixLetter(m, l, "L");
    assert [l] + "" == [l] && "L"[1..] == "";
  }

  /** The mixture of all three letters, the last one with a factor of its own. */
  lemma Mixture(last: string)
    requires last == "" || last == "D"
    ensures MixAll(Mix(0, 0, 0, 0), "RGB" + last) == Mix(255, 255, if last == "" then 255 else 127, 3)
  {
    hide MixAll;
    var m, m1, m2 := Mix(0, 0, 0, 0), Mix(255, 0, 0, 1), Mix(255, 255, 0, 2);
    assert m1 == Mixed(m, 'R', Whole) && m2 == Mixed(m1, 'G', Whole);
    assert Mix(255, 255, if last == "" then 255 else 127, 3) == Mixed(m2, 'B', FactorOf(last));
    hide Mixed;
    assert "RGB" + last == ['R'] + ("GB" + last) && "GB" + last == ['G'] + ("B" + last) && "B" + last == ['B'] + last;
    MixLetter(m, 'R', "GB" + last);
    MixLetter(m1, 'G', "B" + last);
    MixLetter(m2, 'B', last);
    assert last != "" ==> last[1..] == "";
    MixNothing(Mix(255, 255, if last == "" then 255 else 127, 3));
  }

  lemma Mixtures()
    ensures Colour("RGB") == RGB(85, 85, 85) && Colour("RGBD") == RGB(85, 85, 42)
  {
    hide MixAll;
    Mixture("");
    Mixture("D");
    assert "RGB" + "" == "RGB" && "RGB" + "D" == "RGBD";
  }

  lemma MixNothing(m: Mix)
    ensures MixAll(m, "") == m
  {
  }

  /** Encoding a colour and decoding the code: a base colour for what is near to it, a grey for the rest. */
  lemma ColourOfCode(c: RGB)
    ensures Colour(Code(c)) == Shown(c)
  {
    hide Near, Colour;
    assert ['R'] + "L" == "RL" && ['G'] + "L" == "GL" && ['B'] + "L" == "BL";
    OneLetter('R');
    OneLetter('G');
    OneLetter('B');
    Mixtures();
  }

  /** Doing it again changes nothing if and only if the colour is not a dark one. */
  lemma ShownAgainIff(c: RGB)
    ensures Shown(Shown(c)) == Shown(c) <==> !Dark(c)
  {
    if Near(c, RGB(255, 0, 0)) { NearChannels(c, RGB(255, 0, 0)); }
    if Near(c, RGB(0, 255, 0)) { NearChannels(c, RGB(0, 255, 0)); }
    if Near(c, RGB(0, 0, 255)) { NearChannels(c, RGB(0, 0, 255)); }
  }

  // ---------------------------------------------------------------- a picture as text

  /** The codes of a row with a space between two of them. */
  function RowText(row: seq<RGB>): string
    decreases |row|
  {
    if row == [] then "" else if |row| == 1 then Code(row[0]) else Code(row[0]) + " " + RowText(row[1..])
  }

  lemma OneRowLess(w: nat, h: nat)
    ensures h > 0 ==> w * h == w + w * (h - 1)
  {
  }

  function Rows(pixels: seq<RGB>, w: nat, h: nat): (rows: seq<seq<RGB>>)
    requires |pixels| == w * h
    ensures |rows| == h && forall y | 0 <= y < h :: |rows[y]| == w
    decreases h
  {
    OneRowLess(w, h);
    if h == 0 then [] else [pixels[..w]] + Rows(pixels[w..], w, h - 1)
  }

  function RowTexts(rows: seq<seq<RGB>>): (ls: seq<string>)
    ensures |ls| == |rows| && forall y | 0 <= y < |rows| :: ls[y] == RowText(rows[y])
  {
    if rows == [] then [] else [RowText(rows[0])] + RowTexts(rows[1..])
  }

  /** The text of a picture: a line for every row. */
  function Text(pixels: seq<RGB>, w: nat, h: nat): string
    requires |pixels| == w * h
  {
    Join(RowTexts(Rows(pixels, w, h)))
  }

  /** Where row y begins. */
  function Begin(w: nat, y: nat): nat {
    if y == 0 then 0 else w + Begin(w, y - 1)
  }

  lemma {:induction false} BeginIs(w: nat, y: nat)
    ensures Begin(w, y) == y * w
  {
    if y > 0 {
      BeginIs(w, y - 1);
      OneRowLess(w, y);
    }
  }

  lemma RowsStep(pixels: seq<RGB>, w: nat, h: nat, y: nat)
    requires |pixels| == w * h && 0 < y < h
    ensures w <= |pixels| && |pixels[w..]| == w * (h - 1) && Rows(pixels, w, h)[y] == Rows(pixels[w..], w, h - 1)[y - 1]
  {
    OneRowLess(w, h);
  }

  lemma {:induction false} RowBegins(pixels: seq<RGB>, w: nat, h: nat, y: nat, x: nat)
    requires |pixels| == w * h && y < h && x < w
    ensures Begin(w, y) + x < |pixels| && Rows(pixels, w, h)[y][x] == pixels[Begin(w, y) + x]
    decreases h
  {
    hide Rows;
    if y == 0 {
      FirstRow(pixels, w, h);
    } else {
      RowsStep(pixels, w, h, y);
      RowBegins(pixels[w..], w, h - 1, y - 1, x);
    }
  }

  lemma RowAt(pixels: seq<RGB>, w: nat, h: nat, y: nat, x: nat)
    requires |pixels| == w * h && y < h && x < w
    ensures 0 <= y * w + x < |pixels| && Rows(pixels, w, h)[y][x] == pixels[y * w + x]
  {
    hide Rows;
    BeginIs(w, y);
    RowBegins(pixels, w, h, y, x);
  }

  lemma FirstRow(pixels: seq<RGB>, w: nat, h: nat)
    requires |pixels| == w * h && h > 0
    ensures w <= |pixels| && Rows(pixels, w, h)[0] == pixels[..w]
  {
    OneRowLess(w, h);
  }

  lemma RowStep(result: string, row: seq<RGB>, x: nat)
    requires x < |row|
    ensures result + RowText(row[x..]) ==
            result + Code(row[x]) + (if x < |row| - 1 then " " else "") + RowText(row[x + 1..])
  {
    hide Code;
    assert row[x..][1..] == row[x + 1..];
  }

  lemma RowEnds(result: string, row: seq<RGB>)
    ensures result + RowText(row[|row|..]) == result && row[0..] == row
  {
  }

  lemma JoinStep(result: string, ls: seq<string>, y: nat)
    requires y < |ls|
    ensures result + Join(ls[y..]) == result + ls[y] + (if y < |ls| - 1 then "\n" else "") + Join(ls[y + 1..])
  {
    assert ls[y..][1..] == ls[y + 1..];
  }

  lemma JoinEnds(result: string, ls: seq<string>)
    ensures result + Join(ls[|ls|..]) == result && ls[0..] == ls && "" + Join(ls) == Join(ls)
  {
  }

  method PixelToText(pixels: seq<RGB>, width: nat, height: nat, order: seq<char>) returns (result: string)
    requires |pixels| == width * height && IsOrder(order)
    ensures result == Text(pixels, width, height)
  {
    ghost var rows := Rows(pixels, width, height);
    ghost var ls := RowTexts(rows);
    hide Rows, RowTexts, RowText, Join, Code, IsOrder;
    result := "";
    JoinEnds("", ls);
    for y := 0 to height
      invariant result + Join(ls[y..]) == Join(ls)
    {
      JoinStep(result, ls, y);
      ghost var begun := result + ls[y];
      RowEnds(result, rows[y]);
      for x := 0 to width
        invariant result + RowText(rows[y][x..]) == begun
      {
        RowAt(pixels, width, height, y, x);
        RowStep(result, rows[y], x);
        var code := RgbToCode(pixels[y * width + x], order);
        result := result + code;
        if x < width - 1 {
          result := result + " ";
        }
      }
      RowEnds(result, rows[y]);
      if y < height - 1 {
        result := result + "\n";
      }
    }
    JoinEnds(result, ls);
  }

  // ---------------------------------------------------------------- reading a picture

  datatype Image = Image(pixels: seq<RGB>, width: nat, height: nat)

  function WordEnd(s: string, i: nat): (r: nat)
    requires i <= |s|
    ensures i <= r <= |s| && (r < |s| ==> Strtol.IsSpace(s[r])) && (i < |s| && !Strtol.IsSpace(s[i]) ==> i < r)
    decreases |s| - i
  {
    if i == |s| || Strtol.IsSpace(s[i]) then i else WordEnd(s, i + 1)
  }

  /** What stands between white space. */
  function Words(s: string): seq<string>
    decreases |s|
  {
    if s == "" then []
    else if Strtol.IsSpace(s[0]) then Words(s[1..])
    else
      var e := WordEnd(s, 0);
      [s[..e]] + Words(s[e..])
  }

  function Colours(codes: seq<string>): seq<RGB> {
    seq(|codes|, i requires 0 <= i < |codes| => Colour(codes[i]))
  }

  /** A further line of the text; the first line that is not empty gives the width. */
  function Added(img: Image, line: string): Image {
    if line == "" then img
    else
      var pixels := img.pixels + Colours(Words(line));
      Image(pixels, if img.width == 0 then |pixels| / (img.height + 1) else img.width, img.height + 1)
  }

  function Decoded(ls: seq<string>, img: Image): Image
    decreases |ls|
  {
    if ls == [] then img else Decoded(ls[1..], Added(img, ls[0]))
  }

  function NoImage(): Image { Image([], 0, 0) }

  method ReadCodes(line: string) returns (colours: seq<RGB>)
    ensures colours == Colours(Words(line))
  {
    hide Colour, WordEnd;
    colours := [];
    var i := 0;
    assert line[0..] == line;
    while i < |line|
      invariant 0 <= i <= |line| && colours + Colours(Words(line[i..])) == Colours(Words(line))
      decreases |line| - i
    {
      WordStep(line, i, colours);
      if Strtol.IsSpace(line[i]) {
        i := i + 1;
      } else {
        var e := WordEnd(line, i);
        var c := CodeToRGB(line[i..e]);
        colours := colours + [c];
        i := e;
      }
    }
    assert line[i..] == "";
  }

  lemma {:induction false} WordEndShift(s: string, pos: nat, i: nat)
    requires pos + i <= |s|
    ensures WordEnd(s[pos..], i) + pos == WordEnd(s, pos + i)
    decreases |s| - pos - i
  {
    if pos + i < |s| && !Strtol.IsSpace(s[pos + i]) {
      WordEndShift(s, pos, i + 1);
    }
  }

  lemma WordStep(s: string, i: nat, colours: seq<RGB>)
    requires i < |s|
    ensures Strtol.IsSpace(s[i]) ==> Words(s[i..]) == Words(s[i + 1..])
    ensures !Strtol.IsSpace(s[i]) ==>
      var e := WordEnd(s, i);
      colours + Colours(Words(s[i..])) == colours + [Colour(s[i..e])] + Colours(Words(s[e..]))
  {
    hide Colour, WordEnd, Strtol.IsSpace;
    WordEndShift(s, i, 0);
    var t, e := s[i..], WordEnd(s, i);
    assert t[1..] == s[i + 1..] && t[..e - i] == s[i..e] && t[e - i..] == s[e..];
  }

  method TextToPixel(text: string) returns (img: Image)
    ensures img == Decoded(Lines(text), NoImage())
  {
    hide Lines, LineEnd, Colours, Words;
    img := NoImage();
    var pos := 0;
    assert text[0..] == text;
    while pos < |text|
      invariant 0 <= pos <= |text| && Decoded(Lines(text[pos..]), img) == Decoded(Lines(text), NoImage())
    {
      var e := LineEnd(text, pos);
      FirstLine(text, pos);
      var line := text[pos..e];
      pos := if e < |text| then e + 1 else e;
      DecodedStep(line, Lines(text[pos..]), img);
      if line == "" {
        continue;
      }
      var colours := ReadCodes(line);
      var pixels := img.pixels + colours;
      var width := if img.width == 0 then |pixels| / (img.height + 1) else img.width;
      img := Image(pixels, width, img.height + 1);
    }
    LastLine("");
    assert text[pos..] == "";
  }

  lemma DecodedStep(line: string, rest: seq<string>, img: Image)
    ensures Decoded([line] + rest, img) == Decoded(rest, Added(img, line))
  {
    hide Added;
    assert ([line] + rest)[1..] == rest;
  }

  // ---------------------------------------------------------------- the round trip

  /** The letters of codes: no white space and no dash. */
  predicate CodeChar(c: char) {
    c == 'R' || c == 'G' || c == 'B' || c == 'L' || c == 'D'
  }

  lemma CodeIsWord(c: RGB)
    ensures Code(c) != "" && forall i | 0 <= i < |Code(c)| :: CodeChar(Code(c)[i])
  {
    hide Near;
  }

  predicate IsWord(w: string) {
    w != "" && forall i | 0 <= i < |w| :: !Strtol.IsSpace(w[i])
  }

  lemma {:induction false} WordEndOf(w: string, rest: string, i: nat)
    requires IsWord(w) && i <= |w| && (rest == "" || Strtol.IsSpace(rest[0]))
    ensures WordEnd(w + rest, i) == |w|
    decreases |w| - i
  {
    var s := w + rest;
    if i < |w| {
      assert s[i] == w[i];
      WordEndOf(w, rest, i + 1);
    } else {
      assert rest != "" ==> s[i] == rest[0];
    }
  }

  lemma WordsCons(w: string, rest: string)
    requires IsWord(w) && (rest == "" || Strtol.IsSpace(rest[0]))
    ensures Words(w + rest) == [w] + Words(rest)
  {
    hide Strtol.IsSpace, WordEnd;
    WordEndOf(w, rest, 0);
    var s := w + rest;
    assert s[0] == w[0] && s[..|w|] == w && s[|w|..] == rest;
  }

  function Codes(row: seq<RGB>): seq<string> {
    seq(|row|, i requires 0 <= i < |row| => Code(row[i]))
  }

  lemma {:induction false} WordsOfRow(row: seq<RGB>)
    ensures Words(RowText(row)) == Codes(row)
    decreases |row|
  {
    hide Code;
    if row != [] {
      var code := Code(row[0]);
      CodeIsWord(row[0]);
      if |row| == 1 {
        assert code + "" == code;
        WordsCons(code, "");
      } else {
        var rest := " " + RowText(row[1..]);
        assert RowText(row) == code + rest && rest[1..] == RowText(row[1..]) && rest[0] == ' ';
        WordsCons(code, rest);
        WordsOfRow(row[1..]);
        assert Codes(row) == [code] + Codes(row[1..]);
      }
    }
  }

  ghost predicate RowChars(s: string) {
    forall i | 0 <= i < |s| :: CodeChar(s[i]) || s[i] == ' '
  }

  lemma {:induction false} RowIsLine(row: seq<RGB>)
    ensures RowChars(RowText(row)) && IsLine(RowText(row)) && (RowText(row) == "" <==> row == [])
    decreases |row|
  {
    hide Code;
    if row != [] {
      CodeIsWord(row[0]);
      RowIsLine(row[1..]);
    }
  }

  /** The colours that are left of a picture. */
  function ShownAll(pixels: seq<RGB>): seq<RGB> {
    seq(|pixels|, i requires 0 <= i < |pixels| => Shown(pixels[i]))
  }

  lemma RowColours(row: seq<RGB>)
    ensures Colours(Words(RowText(row))) == ShownAll(row)
  {
    hide Colour, Code, Shown;
    WordsOfRow(row);
    forall i | 0 <= i < |row| ensures Colour(Codes(row)[i]) == Shown(row[i]) {
      ColourOfCode(row[i]);
    }
  }

  lemma RowAdded(row: seq<RGB>, img: Image)
    requires row != [] && (img == NoImage() || img.width == |row|)
    ensures Added(img, RowText(row)) == Image(img.pixels + ShownAll(row), |row|, img.height + 1)
  {
    hide Colours, Words, RowText, Shown;
    RowColours(row);
    RowIsLine(row);
    assert img == NoImage() ==> |img.pixels + ShownAll(row)| / 1 == |row|;
  }

  lemma RowTextsNext(pixels: seq<RGB>, w: nat, h: nat)
    requires |pixels| == w * h && h > 0
    ensures w <= |pixels| && |pixels[w..]| == w * (h - 1)
    ensures RowTexts(Rows(pixels, w, h)) == [RowText(pixels[..w])] + RowTexts(Rows(pixels[w..], w, h - 1))
  {
    hide RowText;
    OneRowLess(w, h);
    assert Rows(pixels, w, h)[1..] == Rows(pixels[w..], w, h - 1);
  }

  lemma ShownParts(pixels: seq<RGB>, w: nat)
    requires w <= |pixels|
    ensures ShownAll(pixels) == ShownAll(pixels[..w]) + ShownAll(pixels[w..])
  {
    hide Shown;
  }

  lemma {:induction false} DecodeRows(pixels: seq<RGB>, w: nat, h: nat, img: Image)
    requires |pixels| == w * h && w > 0 && (img == NoImage() || img.width == w)
    ensures Decoded(RowTexts(Rows(pixels, w, h)), img) ==
            Image(img.pixels + ShownAll(pixels), if h == 0 then img.width else w, img.height + h)
    decreases h
  {
    hide Added, RowText, Shown;
    if h == 0 {
      assert img.pixels + ShownAll(pixels) == img.pixels;
    } else {
      hide Rows, RowTexts, ShownAll, Decoded;
      RowTextsNext(pixels, w, h);
      var row, rest := pixels[..w], pixels[w..];
      var ls := RowTexts(Rows(rest, w, h - 1));
      ShownParts(pixels, w);
      DecodedStep(RowText(row), ls, img);
      RowAdded(row, img);
      DecodeRows(rest, w, h - 1, Added(img, RowText(row)));
      assert img.pixels + ShownAll(row) + ShownAll(rest) == img.pixels + ShownAll(pixels);
    }
  }

  /** The rows of a picture that is not empty are lines that are not empty. */
  lemma RowsAreFrame(pixels: seq<RGB>, w: nat, h: nat)
    requires |pixels| == w * h && w > 0 && h > 0
    ensures IsFrame(RowTexts(Rows(pixels, w, h)))
  {
    hide Rows, RowTexts, RowText, IsLine;
    var rows := Rows(pixels, w, h);
    var ls := RowTexts(rows);
    forall y | 0 <= y < h ensures IsLine(ls[y]) && ls[y] != "" {
      RowIsLine(rows[y]);
    }
  }

  /** Writing a picture and reading it gives back every pixel in its colour, and the width and height. */
  lemma PictureIsRead(pixels: seq<RGB>, w: nat, h: nat)
    requires |pixels| == w * h && w > 0 && h > 0
    ensures Decoded(Lines(Text(pixels, w, h)), NoImage()) == Image(ShownAll(pixels), w, h)
  {
    hide Rows, RowTexts, Join, Lines, Decoded, ShownAll;
    RowsAreFrame(pixels, w, h);
    JoinRead(RowTexts(Rows(pixels, w, h)));
    DecodeRows(pixels, w, h, NoImage());
    assert [] + ShownAll(pixels) == ShownAll(pixels);
  }

  // ---------------------------------------------------------------- empty pictures

  ghost predicate AllNewlines(s: string) {
    forall i | 0 <= i < |s| :: s[i] == '\n'
  }

  ghost predicate AllEmpty(ls: seq<string>) {
    forall i | 0 <= i < |ls| :: ls[i] == ""
  }

  lemma {:induction false} JoinOfEmpty(ls: seq<string>)
    requires AllEmpty(ls)
    ensures AllNewlines(Join(ls))
    decreases |ls|
  {
    if |ls| > 1 {
      JoinOfEmpty(ls[1..]);
    }
  }

  lemma {:induction false} NothingDecoded(s: string, img: Image)
    requires AllNewlines(s)
    ensures Decoded(Lines(s), img) == img
    decreases |s|
  {
    if s != "" {
      assert LineEnd(s, 0) == 0 && s[..0] == "";
      NothingDecoded(s[1..], img);
      DecodedStep("", Lines(s[1..]), img);
    }
  }

  /** A picture without pixels is read as one without width and height. */
  lemma NoPictureIsRead(w: nat, h: nat)
    requires w == 0 || h == 0
    ensures Decoded(Lines(Text([], w, h)), NoImage()) == NoImage()
  {
    hide Rows, RowTexts, Decoded, Lines;
    var rows := Rows([], w, h);
    forall y | 0 <= y < h ensures RowText(rows[y]) == "" {
      assert rows[y] == [];
    }
    JoinOfEmpty(RowTexts(rows));
    NothingDecoded(Text([], w, h), NoImage());
  }

  /** So the size of a picture is read back if and only if it has pixels, or neither width nor height. */
  lemma SizeIsReadIff(pixels: seq<RGB>, w: nat, h: nat)
    requires |pixels| == w * h
    ensures var img := Decoded(Lines(Text(pixels, w, h)), NoImage());
      && img.pixels == ShownAll(pixels)
      && (img.width == w && img.height == h <==> (w > 0 <==> h > 0))
  {
    hide Text, Decoded, Lines, Shown;
    if w > 0 && h > 0 {
      PictureIsRead(pixels, w, h);
    } else {
      assert pixels == [];
      NoPictureIsRead(w, h);
    }
  }
}
