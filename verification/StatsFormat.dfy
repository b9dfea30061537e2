/**
 The format of encoding statistics: literal text with escapes, and directives in
 braces, cut into components.
 */
module StatsFormat {
  import opened Wrappers

  datatype Stat =
    | FileIdx | StreamIdx | FrameNum | FrameNumIn | Timebase | TimebaseIn | Pts | PtsTime | PtsIn | PtsTimeIn
    | Dts | DtsTime | SampleNum | NbSamples | PktSize | Bitrate | AvgBitrate | Keyframe

  datatype Component = Literal(text: string) | Directive(stat: Stat)

  function Stats(): seq<Stat> {
    [FileIdx, StreamIdx, FrameNum, FrameNumIn, Timebase, TimebaseIn, Pts, PtsTime, PtsIn, PtsTimeIn,
     Dts, DtsTime, SampleNum, NbSamples, PktSize, Bitrate, AvgBitrate, Keyframe]
  }

  function Name(d: Stat): string {
    match d
    case FileIdx => "fidx"
    case StreamIdx => "sidx"
    case FrameNum => "n"
    case FrameNumIn => "ni"
    case Timebase => "tb"
    case TimebaseIn => "tbi"
    case Pts => "pts"
    case PtsTime => "t"
    case PtsIn => "ptsi"
    case PtsTimeIn => "ti"
    case Dts => "dts"
    case DtsTime => "dt"
    case SampleNum => "sn"
    case NbSamples => "samp"
    case PktSize => "size"
    case Bitrate => "br"
    case AvgBitrate => "abr"
    case Keyframe => "key"
  }

  /** Some statistics exist only before encoding, some only after. */
  predicate Allowed(pre: bool, d: Stat) {
    if pre then !(d.Dts? || d.DtsTime? || d.PktSize? || d.Bitrate? || d.AvgBitrate? || d.Keyframe?)
    else !(d.SampleNum? || d.NbSamples?)
  }

  /** The first table entry of this name, from entry i on. */
  function Lookup(name: string, i: nat): Option<Stat>
    requires i <= |Stats()|
    decreases |Stats()| - i
  {
    if i == |Stats()| then None else if name == Name(Stats()[i]) then Some(Stats()[i]) else Lookup(name, i + 1)
  }

  // ---------------------------------------------------------------- unescaping

  /** What was read, and the text from the delimiter on. */
  datatype Piece = Piece(text: string, rest: string)

  function Cons(c: char, p: Piece): Piece { Piece([c] + p.text, p.rest) }

  /** Up to the delimiter; a backslash makes the next character an ordinary one. */
  function Unescape(s: string, delim: char): (p: Piece)
    ensures |p.rest| <= |s| && (p.text == "" ==> p.rest == s) && (p.text != "" ==> |p.rest| < |s|)
    ensures p.rest != "" ==> p.rest[0] == delim
    ensures |p.text| + |p.rest| <= |s|
  {
    if s == "" then Piece("", "")
    else if s[0] == '\\' && |s| > 1 then Cons(s[1], Unescape(s[2..], delim))
    else if s[0] == delim then Piece("", s)
    else Cons(s[0], Unescape(s[1..], delim))
  }

  // ---------------------------------------------------------------- tokenizing

  function Literals(text: string): seq<Component> {
    if text == "" then [] else [Literal(text)]
  }

  /** The components of a format, None if it is malformed. */
  function Tokenize(pre: bool, s: string): Option<seq<Component>>
    decreases |s|
  {
    var lit := Unescape(s, '{');
    if lit.rest == "" then Some(Literals(lit.text))
    else
      var name := Unescape(lit.rest[1..], '}');
      var d := Lookup(name.text, 0);
      if name.text == "" || name.rest == "" || d.None? || !Allowed(pre, d.value) then None
      else
        var more := Tokenize(pre, name.rest[1..]);
        if more.None? then None else Some(Literals(lit.text) + [Directive(d.value)] + more.value)
  }

  /** The components stored, whether or not the format is accepted: of a directive that is unknown or
      not allowed here, an empty literal. */
  function Stored(pre: bool, s: string): seq<Component>
    decreases |s|
  {
    var lit := Unescape(s, '{');
    if lit.rest == "" then Literals(lit.text)
    else
      var name := Unescape(lit.rest[1..], '}');
      if name.text == "" || name.rest == "" then Literals(lit.text)
      else
        var d := Lookup(name.text, 0);
        if d.None? || !Allowed(pre, d.value) then Literals(lit.text) + [Literal("")]
        else Literals(lit.text) + [Directive(d.value)] + Stored(pre, name.rest[1..])
  }

  /** Of an accepted format exactly its components are stored. */
  lemma {:induction false} StoredIfAccepted(pre: bool, s: string)
    ensures var r := Tokenize(pre, s); r.Some? ==> Stored(pre, s) == r.value
    decreases |s|
  {
    hide Unescape, Lookup, Allowed;
    var lit := Unescape(s, '{');
    if lit.rest != "" {
      var name := Unescape(lit.rest[1..], '}');
      if name.rest != "" {
        StoredIfAccepted(pre, name.rest[1..]);
      }
    }
  }

  /** Reads into a buffer as long as the rest of the text; None stands for no text. */
  method ReadPiece(s: string, start: nat, delim: char) returns (val: Option<string>, next: nat)
    requires start <= |s|
    ensures start <= next <= |s|
    ensures var p := Unescape(s[start..], delim);
      && val == (if p.text == "" then None else Some(p.text))
      && s[next..] == p.rest
  {
    if start == |s| {
      return None, start;
    }
    var dst := new char[|s| - start + 1];
    var idx, i := Fill(dst, s, start, delim);
    if idx == 0 {
      return None, start;
    }
    val, next := Some(dst[..idx]), i;
  }

  /** The loop of unescape: the buffer is never too short. */
  method Fill(dst: array<char>, s: string, start: nat, delim: char) returns (idx: nat, i: nat)
    requires start < |s| && dst.Length == |s| - start + 1
    modifies dst
    ensures start <= i <= |s| && idx < dst.Length && (idx == 0 ==> i == start)
    ensures Unescape(s[start..], delim) == Piece(dst[..idx], s[i..])
  {
    hide Unescape, Behind;
    ghost var p, t := Unescape(s[start..], delim), "";
    idx, i := 0, start;
    BehindNothing(p);
    while i < |s|
      invariant start <= i <= |s| && idx <= i - start && (idx == 0 ==> i == start)
      invariant dst[..idx] == t && Behind(t, Unescape(s[i..], delim)) == p
      decreases |s| - i
    {
      UnescapeStep(s, i, delim, t);
      if s[i] == '\\' && i + 1 < |s| {
        i := i + 1;
      } else if s[i] == delim {
        break;
      }
      dst[idx] := s[i];
      t := t + [s[i]];
      idx, i := idx + 1, i + 1;
    }
    UnescapeEnd(s, i, delim);
    BehindNoMore(t, s[i..]);
  }

  /** A piece with text read before it. */
  ghost function Behind(t: string, p: Piece): Piece { Piece(t + p.text, p.rest) }

  lemma BehindNothing(p: Piece)
    ensures Behind("", p) == p
  {
  }

  lemma BehindNoMore(t: string, rest: string)
    ensures Behind(t, Piece("", rest)) == Piece(t, rest)
  {
  }

  lemma UnescapeEnd(s: string, i: nat, delim: char)
    requires i <= |s| && (i == |s| || (s[i] == delim && !(s[i] == '\\' && i + 1 < |s|)))
    ensures Unescape(s[i..], delim) == Piece("", s[i..])
  {
  }

  lemma UnescapeStep(s: string, i: nat, delim: char, t: string)
    requires i < |s|
    ensures s[i] == '\\' && i + 1 < |s| ==>
              Behind(t, Unescape(s[i..], delim)) == Behind(t + [s[i + 1]], Unescape(s[i + 2..], delim))
    ensures !(s[i] == '\\' && i + 1 < |s|) && s[i] != delim ==>
              Behind(t, Unescape(s[i..], delim)) == Behind(t + [s[i]], Unescape(s[i + 1..], delim))
  {
    assert s[i..][1..] == s[i + 1..];
    if i + 1 < |s| {
      assert s[i..][2..] == s[i + 2..];
    }
  }

  class EncStats {
    var components: seq<Component>

    constructor ()
      ensures components == []
    {
      components := [];
    }

    /** enc_stats_init up to the opening of the file. */
    method Init(pre: bool, spec: string) returns (ok: bool)
      modifies this
      ensures ok == Tokenize(pre, spec).Some?
      ensures components == old(components) + Stored(pre, spec)
    {
      hide Tokenize, Unescape, Lookup, Stored, Allowed;
      var next := 0;
      assert spec[0..] == spec;
      while next < |spec|
        invariant 0 <= next <= |spec|
        invariant Tokenize(pre, spec[next..]).Some? == Tokenize(pre, spec).Some?
        invariant components + Stored(pre, spec[next..]) == old(components) + Stored(pre, spec)
        decreases |spec| - next
      {
        TokenizeStep(pre, spec[next..]);
        StoredStep(pre, spec[next..], components);
        var val;
        val, next := ReadPiece(spec, next, '{');
        assert components + [] == components;
        if val.Some? {
          components := components + [Literal(val.value)];
        }
        if next == |spec| {
          break;
        }
        assert spec[next..][1..] == spec[next + 1..];
        ok, next := ReadDirective(pre, spec, next + 1);
        if !ok {
          return false;
        }
      }
      assert spec[next..] == "";
      NothingLeft(pre, components);
      ok := true;
    }

    /** The part inside braces, from its first character to behind the closing brace. */
    method ReadDirective(pre: bool, spec: string, start: nat) returns (ok: bool, next: nat)
      requires start <= |spec|
      modifies this
      ensures var name := Unescape(spec[start..], '}'); var d := Lookup(name.text, 0);
        && (ok <==> name.text != "" && name.rest != "" && d.Some? && Allowed(pre, d.value))
        && (name.text == "" || name.rest == "" ==> components == old(components))
        && (name.text != "" && name.rest != "" ==>
              components == old(components) + [if ok then Directive(d.value) else Literal("")])
        && (ok ==> start < next <= |spec| && spec[next..] == name.rest[1..])
    {
      hide Unescape, Lookup, Allowed;
      var val;
      val, next := ReadPiece(spec, start, '}');
      if val.None? || next == |spec| {
        return false, next;
      }
      assert spec[next..][1..] == spec[next + 1..];
      next := next + 1;
      components := components + [Literal("")];
      var d := FindStat(val.value);
      if d.None? || !Allowed(pre, d.value) {
        return false, next;
      }
      components := components[|components| - 1 := Directive(d.value)];
      return true, next;
    }
  }

  lemma TokenizeStep(pre: bool, s: string)
    ensures var lit := Unescape(s, '{');
      Tokenize(pre, s).Some? <==>
        (lit.rest == "" ||
         var name := Unescape(lit.rest[1..], '}');
         var d := Lookup(name.text, 0);
         name.text != "" && name.rest != "" && d.Some? && Allowed(pre, d.value) && Tokenize(pre, name.rest[1..]).Some?)
  {
    hide Lookup, Unescape, Allowed;
  }

  lemma StoredStep(pre: bool, s: string, cs: seq<Component>)
    ensures var lit := Unescape(s, '{');
      cs + Stored(pre, s) ==
      if lit.rest == "" then cs + Literals(lit.text)
      else
        var name := Unescape(lit.rest[1..], '}');
        var d := Lookup(name.text, 0);
        if name.text == "" || name.rest == "" then cs + Literals(lit.text)
        else if d.None? || !Allowed(pre, d.value) then cs + Literals(lit.text) + [Literal("")]
        else cs + Literals(lit.text) + [Directive(d.value)] + Stored(pre, name.rest[1..])
  {
    hide Lookup, Unescape, Allowed, Literals;
    var lit := Unescape(s, '{');
    if lit.rest != "" {
      var name := Unescape(lit.rest[1..], '}');
      var d := Lookup(name.text, 0);
      if name.text != "" && name.rest != "" && d.Some? {
        Associate(cs, Literals(lit.text), [Directive(d.value)], Stored(pre, name.rest[1..]));
      }
      Associate(cs, Literals(lit.text), [Literal("")], []);
    }
  }

  lemma Associate<T>(a: seq<T>, b: seq<T>, c: seq<T>, d: seq<T>)
    ensures a + (b + c + d) == a + b + c + d && a + (b + c) == a + b + c
  {
  }

  lemma NothingLeft(pre: bool, cs: seq<Component>)
    ensures Tokenize(pre, "") == Some([]) && cs + Stored(pre, "") == cs
  {
  }

  lemma TokenizeEmpty(pre: bool)
    ensures Tokenize(pre, "") == Some([])
  {
  }

  method FindStat(name: string) returns (r: Option<Stat>)
    ensures r == Lookup(name, 0)
  {
    hide Name;
    for i := 0 to |Stats()|
      invariant Lookup(name, 0) == Lookup(name, i)
    {
      if name == Name(Stats()[i]) {
        return Some(Stats()[i]);
      }
    }
    r := None;
  }

  // ---------------------------------------------------------------- writing a format

  function EscapeOne(c: char): string {
    if c == '\\' || c == '{' then ['\\', c] else [c]
  }

  function Escape(t: string): string {
    if t == "" then "" else EscapeOne(t[0]) + Escape(t[1..])
  }

  function Written(c: Component): string {
    match c
    case Literal(t) => Escape(t)
    case Directive(d) => "{" + (Name(d) + "}")
  }

  function Format(cs: seq<Component>): string {
    if cs == [] then "" else Written(cs[0]) + Format(cs[1..])
  }

  /** Literals are not empty and never adjacent, directives are allowed. */
  ghost predicate Normal(pre: bool, cs: seq<Component>) {
    && (forall i | 0 <= i < |cs| :: if cs[i].Literal? then cs[i].text != "" else Allowed(pre, cs[i].stat))
    && (forall i | 0 <= i < |cs| - 1 :: cs[i].Literal? ==> cs[i + 1].Directive?)
  }

  lemma EscapeOneIsRead(c: char, more: string)
    ensures Unescape(EscapeOne(c) + more, '{') == Cons(c, Unescape(more, '{'))
  {
    var s := EscapeOne(c) + more;
    if |EscapeOne(c)| == 2 {
      assert s[0] == '\\' && s[1] == c && s[2..] == more;
    } else {
      assert s[0] == c && s[1..] == more;
    }
  }

  lemma {:induction false} EscapeIsRead(t: string, rest: string)
    requires rest == "" || rest[0] == '{'
    ensures Unescape(Escape(t) + rest, '{') == Piece(t, rest)
  {
    hide EscapeOne, Unescape;
    if t == "" {
      assert Escape(t) + rest == rest && rest[0..] == rest;
      UnescapeEnd(rest, 0, '{');
    } else {
      var more := Escape(t[1..]) + rest;
      assert Escape(t) + rest == EscapeOne(t[0]) + more;
      EscapeOneIsRead(t[0], more);
      EscapeIsRead(t[1..], rest);
      assert [t[0]] + t[1..] == t;
    }
  }

  predicate Plain(n: string) {
    forall i | 0 <= i < |n| :: n[i] != '\\' && n[i] != '}'
  }

  lemma {:induction false} PlainIsRead(n: string, rest: string)
    requires Plain(n) && rest != "" && rest[0] == '}'
    ensures Unescape(n + rest, '}') == Piece(n, rest)
  {
    if n == "" {
      assert n + rest == rest;
    } else {
      assert (n + rest)[0] == n[0] && (n + rest)[1..] == n[1..] + rest;
      PlainIsRead(n[1..], rest);
      assert [n[0]] + n[1..] == n;
    }
  }

  lemma NameIsPlain(d: Stat)
    ensures Plain(Name(d)) && Name(d) != ""
  {
  }

  /** No two directives have the same name. */
  lemma NameIsFound(d: Stat)
    ensures Lookup(Name(d), 0) == Some(d)
  {
    LookupFrom(d, Place(d), 0);
  }

  function Place(d: Stat): (i: nat)
    ensures i < |Stats()| && Stats()[i] == d
  {
    match d
    case FileIdx => 0
    case StreamIdx => 1
    case FrameNum => 2
    case FrameNumIn => 3
    case Timebase => 4
    case TimebaseIn => 5
    case Pts => 6
    case PtsTime => 7
    case PtsIn => 8
    case PtsTimeIn => 9
    case Dts => 10
    case DtsTime => 11
    case SampleNum => 12
    case NbSamples => 13
    case PktSize => 14
    case Bitrate => 15
    case AvgBitrate => 16
    case Keyframe => 17
  }

  lemma {:induction false} LookupFrom(d: Stat, i: nat, k: nat)
    requires k <= i < |Stats()| && Stats()[i] == d
    ensures Lookup(Name(d), k) == Some(d)
    decreases i - k
  {
    if k < i {
      NamesDiffer(Stats()[k], d);
      LookupFrom(d, i, k + 1);
    }
  }

  lemma NamesDiffer(c: Stat, d: Stat)
    requires c != d
    ensures Name(c) != Name(d)
  {
  }

  /** A literal, or none, in front of a directive or the end. */
  lemma DirectiveIsRead(pre: bool, t: string, d: Stat, rest: string, more: seq<Component>)
    requires Allowed(pre, d) && Tokenize(pre, rest) == Some(more)
    ensures Tokenize(pre, Escape(t) + (Written(Directive(d)) + rest)) == Some(Literals(t) + [Directive(d)] + more)
  {
    hide Unescape, Escape, Lookup, Name, Allowed;
    var w := Written(Directive(d)) + rest;
    assert w == "{" + (Name(d) + ("}" + rest));
    assert w[0] == '{' && w[1..] == Name(d) + ("}" + rest);
    EscapeIsRead(t, w);
    NameIsPlain(d);
    PlainIsRead(Name(d), "}" + rest);
    assert ("}" + rest)[1..] == rest;
    NameIsFound(d);
  }

  lemma FormatNext(cs: seq<Component>)
    requires cs != []
    ensures Format(cs) == Written(cs[0]) + Format(cs[1..])
  {
  }

  lemma NormalRest(pre: bool, cs: seq<Component>, n: nat)
    requires Normal(pre, cs) && n <= |cs|
    ensures Normal(pre, cs[n..])
  {
  }

  lemma DirectiveFirst(pre: bool, d: Stat, rest: seq<Component>)
    requires Allowed(pre, d) && Tokenize(pre, Format(rest)) == Some(rest)
    ensures Tokenize(pre, Format([Directive(d)] + rest)) == Some([Directive(d)] + rest)
  {
    hide Tokenize, Unescape, Allowed, Written, Escape, Format;
    var cs := [Directive(d)] + rest;
    DirectiveIsRead(pre, "", d, Format(rest), rest);
    EscapeNothing();
    FormatNext(cs);
    assert cs[1..] == rest;
    assert Format(cs) == "" + (Written(cs[0]) + Format(rest));
    assert [] + [Directive(d)] + rest == cs;
  }

  lemma LiteralFirst(pre: bool, t: string, d: Stat, rest: seq<Component>)
    requires t != "" && Allowed(pre, d) && Tokenize(pre, Format(rest)) == Some(rest)
    ensures Tokenize(pre, Format([Literal(t), Directive(d)] + rest)) == Some([Literal(t), Directive(d)] + rest)
  {
    hide Tokenize, Unescape, Allowed, Written, Escape, Format;
    var cs := [Literal(t), Directive(d)] + rest;
    DirectiveIsRead(pre, t, d, Format(rest), rest);
    WrittenLiteral(t);
    FormatNext(cs);
    FormatNext(cs[1..]);
    assert cs[1..][1..] == rest && cs[1..][0] == Directive(d);
    assert [Literal(t)] + [Directive(d)] + rest == cs;
  }

  /** Every normal component list is what its written format is cut into. */
  lemma {:induction false} FormatRoundTrip(pre: bool, cs: seq<Component>)
    requires Normal(pre, cs)
    ensures Tokenize(pre, Format(cs)) == Some(cs)
    decreases |cs|
  {
    hide Tokenize, Allowed, Written;
    if cs == [] {
      TokenizeEmpty(pre);
    } else if cs[0].Directive? {
      var rest := cs[1..];
      NormalRest(pre, cs, 1);
      FormatRoundTrip(pre, rest);
      DirectiveFirst(pre, cs[0].stat, rest);
      assert cs == [cs[0]] + rest;
    } else if |cs| == 1 {
      LiteralIsRead(pre, cs[0].text);
      WrittenLiteral(cs[0].text);
      assert cs == [cs[0]] && Format(cs[1..]) == "";
      assert Format(cs) == Escape(cs[0].text);
    } else {
      var rest := cs[2..];
      NormalRest(pre, cs, 2);
      FormatRoundTrip(pre, rest);
      assert cs[0 + 1].Directive?;
      LiteralFirst(pre, cs[0].text, cs[1].stat, rest);
      assert cs == [cs[0], cs[1]] + rest;
    }
  }

  lemma EscapeNothing()
    ensures Escape("") == ""
  {
  }

  lemma WrittenLiteral(t: string)
    ensures Written(Literal(t)) == Escape(t)
  {
  }

  lemma LiteralIsRead(pre: bool, t: string)
    requires t != ""
    ensures Tokenize(pre, Escape(t)) == Some([Literal(t)])
  {
    EscapeIsRead(t, "");
    assert Escape(t) + "" == Escape(t);
  }

  /** Whatever is tokenized comes out normal. */
  lemma {:induction false} TokensAreNormal(pre: bool, s: string)
    ensures var r := Tokenize(pre, s); r.Some? ==> Normal(pre, r.value)
    decreases |s|
  {
    hide Unescape, Lookup, Allowed;
    var lit := Unescape(s, '{');
    if lit.rest != "" {
      var name := Unescape(lit.rest[1..], '}');
      if name.rest != "" {
        TokensAreNormal(pre, name.rest[1..]);
      }
    }
  }

  /** Writing the components of a format and cutting them again changes nothing. */
  lemma FormatIsCanonical(pre: bool, s: string)
    ensures var r := Tokenize(pre, s); r.Some? ==> Tokenize(pre, Format(r.value)) == r
  {
    hide Tokenize, Format;
    TokensAreNormal(pre, s);
    var r := Tokenize(pre, s);
    if r.Some? {
      FormatRoundTrip(pre, r.value);
    }
  }

  // ---------------------------------------------------------------- which names are accepted

  predicate Common(n: string) {
    n == "fidx" || n == "sidx" || n == "n" || n == "ni" || n == "tb" || n == "tbi" || n == "pts" || n == "t" ||
    n == "ptsi" || n == "ti"
  }

  /** Known only before encoding. */
  predicate BeforeOnly(n: string) {
    n == "sn" || n == "samp"
  }

  /** Known only of packets. */
  predicate AfterOnly(n: string) {
    n == "dts" || n == "dt" || n == "size" || n == "br" || n == "abr" || n == "key"
  }

  lemma {:induction false} LookupFails(n: string, i: nat)
    requires i <= |Stats()| && forall d: Stat :: Name(d) != n
    ensures Lookup(n, i) == None
    decreases |Stats()| - i
  {
    hide Name;
    if i < |Stats()| {
      LookupFails(n, i + 1);
    }
  }

  lemma NameKinds(d: Stat)
    ensures Common(Name(d)) || BeforeOnly(Name(d)) || AfterOnly(Name(d))
    ensures Allowed(true, d) <==> !AfterOnly(Name(d))
    ensures Allowed(false, d) <==> !BeforeOnly(Name(d))
  {
  }

  lemma NamesKnown(n: string) returns (d: Stat)
    requires Common(n) || BeforeOnly(n) || AfterOnly(n)
    ensures Name(d) == n
  {
    if {
      case n == "fidx" => d := FileIdx;
      case n == "sidx" => d := StreamIdx;
      case n == "n" => d := FrameNum;
      case n == "ni" => d := FrameNumIn;
      case n == "tb" => d := Timebase;
      case n == "tbi" => d := TimebaseIn;
      case n == "pts" => d := Pts;
      case n == "t" => d := PtsTime;
      case n == "ptsi" => d := PtsIn;
      case n == "ti" => d := PtsTimeIn;
      case n == "dts" => d := Dts;
      case n == "dt" => d := DtsTime;
      case n == "sn" => d := SampleNum;
      case n == "samp" => d := NbSamples;
      case n == "size" => d := PktSize;
      case n == "br" => d := Bitrate;
      case n == "abr" => d := AvgBitrate;
      case n == "key" => d := Keyframe;
    }
  }

  lemma BracesRead(pre: bool, n: string)
    requires Plain(n)
    ensures var s := "{" + (n + "}"); var d := Lookup(n, 0);
      Tokenize(pre, s) ==
        if n == "" || d.None? || !Allowed(pre, d.value) then None else Some([Directive(d.value)])
  {
    hide Lookup, Allowed;
    var s := "{" + (n + "}");
    assert s[0] == '{' && s[1..] == n + "}" && s[0..] == s;
    UnescapeEnd(s, 0, '{');
    PlainIsRead(n, "}");
    assert "}"[1..] == "";
    TokenizeEmpty(pre);
    hide Unescape;
    assert Literals("") == [];
    var d := Lookup(n, 0);
    assert d.Some? ==> [] + [Directive(d.value)] + [] == [Directive(d.value)];
  }

  /** A directive is accepted if and only if its name is one of ten, or one of two more before encoding and of six
      more after it. */
  lemma DirectiveAcceptedIff(pre: bool, n: string)
    requires Plain(n)
    ensures Tokenize(pre, "{" + (n + "}")).Some? <==> Common(n) || (if pre then BeforeOnly(n) else AfterOnly(n))
  {
    hide Tokenize, Lookup, Allowed, Name;
    BracesRead(pre, n);
    if Common(n) || BeforeOnly(n) || AfterOnly(n) {
      var d := NamesKnown(n);
      NameIsFound(d);
      NameKinds(d);
      assert !(Common(n) && BeforeOnly(n)) && !(Common(n) && AfterOnly(n)) && !(BeforeOnly(n) && AfterOnly(n));
    } else {
      forall d: Stat ensures Name(d) != n {
        NameKinds(d);
      }
      LookupFails(n, 0);
    }
  }

  /** The value on the input side is named as that of the encoder with an "i" behind, the average as the value with
      an "a" before. */
  lemma NamesInPairs()
    ensures Name(FrameNumIn) == Name(FrameNum) + "i" && Name(TimebaseIn) == Name(Timebase) + "i"
    ensures Name(PtsIn) == Name(Pts) + "i" && Name(PtsTimeIn) == Name(PtsTime) + "i"
    ensures Name(AvgBitrate) == "a" + Name(Bitrate) && "p" + Name(Dts)[1..] == Name(Pts)
  {
    assert "abr" == "a" + "br" && "dts"[1..] == "ts" && "p" + "ts" == "pts";
    assert "ni" == "n" + "i" && "tbi" == "tb" + "i" && "ptsi" == "pts" + "i" && "ti" == "t" + "i";
  }

  // ---------------------------------------------------------------- what is stored of a malformed format

  lemma DirectiveStored(pre: bool, t: string, d: Stat, rest: string)
    requires Allowed(pre, d)
    ensures Stored(pre, Escape(t) + (Written(Directive(d)) + rest)) == Literals(t) + [Directive(d)] + Stored(pre, rest)
  {
    hide Unescape, Escape, Lookup, Name, Allowed;
    var w := Written(Directive(d)) + rest;
    assert w == "{" + (Name(d) + ("}" + rest));
    assert w[0] == '{' && w[1..] == Name(d) + ("}" + rest);
    EscapeIsRead(t, w);
    NameIsPlain(d);
    PlainIsRead(Name(d), "}" + rest);
    assert ("}" + rest)[1..] == rest;
    NameIsFound(d);
  }

  lemma HeadStored(pre: bool, t: string, d: Stat, rest: seq<Component>, s: string)
    requires Allowed(pre, d) && Stored(pre, Format(rest) + s) == rest + Stored(pre, s)
    ensures var cs := Literals(t) + [Directive(d)] + rest; Stored(pre, Format(cs) + s) == cs + Stored(pre, s)
  {
    hide Stored, Allowed, Written, Escape, Format;
    var cs, w := Literals(t) + [Directive(d)] + rest, Written(Directive(d));
    DirectiveStored(pre, t, d, Format(rest) + s);
    EscapeNothing();
    WrittenLiteral(t);
    FormatNext(cs);
    assert t == "" ==> cs[0] == Directive(d) && cs[1..] == rest;
    assert t != "" ==> cs[0] == Literal(t) && cs[1..] == [Directive(d)] + rest && cs[1..][1..] == rest;
    FormatNext(cs[|Literals(t)|..]);
    assert Format(cs) == Escape(t) + (w + Format(rest));
    assert Format(cs) + s == Escape(t) + (w + (Format(rest) + s));
    Associate(Literals(t), [Directive(d)], rest, Stored(pre, s));
    assert Literals(t) + [Directive(d)] + (rest + Stored(pre, s)) == cs + Stored(pre, s);
  }

  /** The components before a directive are stored whatever follows it. */
  lemma {:induction false} StoredBehind(pre: bool, cs: seq<Component>, s: string)
    requires Normal(pre, cs) && (cs == [] || cs[|cs| - 1].Directive?)
    ensures Stored(pre, Format(cs) + s) == cs + Stored(pre, s)
    decreases |cs|
  {
    hide Stored, Allowed, Written;
    if cs == [] {
      assert Format(cs) + s == s && cs + Stored(pre, s) == Stored(pre, s);
    } else if cs[0].Directive? {
      NormalRest(pre, cs, 1);
      StoredBehind(pre, cs[1..], s);
      HeadStored(pre, "", cs[0].stat, cs[1..], s);
      assert cs == [] + [cs[0]] + cs[1..];
    } else {
      NormalRest(pre, cs, 2);
      StoredBehind(pre, cs[2..], s);
      assert cs[0 + 1].Directive?;
      HeadStored(pre, cs[0].text, cs[1].stat, cs[2..], s);
      assert cs == [cs[0]] + [cs[1]] + cs[2..];
    }
  }

  lemma {:induction false} Unclosed(n: string)
    requires Plain(n)
    ensures Unescape(n, '}') == Piece(n, "")
  {
    if n != "" {
      Unclosed(n[1..]);
      assert [n[0]] + n[1..] == n;
    }
  }

  /** Behind the components read until then, an unknown or forbidden directive leaves an empty literal; braces that
      are empty or not closed leave nothing. */
  lemma StoredUntilError(pre: bool, cs: seq<Component>, t: string, n: string, rest: string)
    requires Normal(pre, cs) && (cs == [] || cs[|cs| - 1].Directive?) && Plain(n)
    requires !(Common(n) || (if pre then BeforeOnly(n) else AfterOnly(n)))
    ensures Stored(pre, Format(cs) + (Escape(t) + ("{" + n))) == cs + Literals(t)
    ensures Stored(pre, Format(cs) + (Escape(t) + ("{" + (n + ("}" + rest))))) ==
            cs + (Literals(t) + if n == "" then [] else [Literal("")])
  {
    hide Tokenize, Unescape, Escape, Lookup, Allowed, Format;
    var open, closed := "{" + n, "{" + (n + ("}" + rest));
    StoredBehind(pre, cs, Escape(t) + open);
    StoredBehind(pre, cs, Escape(t) + closed);
    EscapeIsRead(t, open);
    EscapeIsRead(t, closed);
    assert open[1..] == n && closed[1..] == n + ("}" + rest);
    Unclosed(n);
    PlainIsRead(n, "}" + rest);
    BracesRead(pre, n);
    DirectiveAcceptedIff(pre, n);
    assert Literals(t) + [] == Literals(t);
  }
}
