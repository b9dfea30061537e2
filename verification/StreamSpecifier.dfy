/** Stream specifiers: colon-separated designators that select streams of a file. */
module StreamSpecifier {
  import opened Wrappers
  import Strtol

  datatype Media = Unknown | Video | Audio | Data | Subtitle | Attachment

  datatype StreamList = All | StreamId | Program | GroupId | GroupIdx

  datatype Specifier = Specifier(
    idx: int, list: StreamList, listId: int, media: Media, noApic: bool, usable: bool,
    disposition: bv32, metaKey: Option<string>, metaVal: Option<string>, remainder: Option<string>)

  function Initial(): Specifier {
    Specifier(-1, All, 0, Unknown, false, false, 0, None, None, None)
  }

  /** All bytes zero; zero is the code of Video. */
  function Cleared(): Specifier {
    Specifier(0, All, 0, Video, false, false, 0, None, None, None)
  }

  datatype Token = Token(text: string, used: nat)

  /** The library: the value of a disposition text, and the next token of a metadata designator. */
  datatype Library = Library(flags: string -> Option<bv32>, token: string -> Token)

  // ---------------------------------------------------------------- one pass of the loop

  predicate IsAlnum(c: char) {
    '0' <= c <= '9' || 'a' <= c <= 'z' || 'A' <= c <= 'Z'
  }

  predicate IsDigit(c: char) {
    '0' <= c <= '9'
  }

  predicate IsFlag(c: char) {
    IsAlnum(c) || c == '_' || c == '+'
  }

  predicate IsMedia(c: char) {
    c == 'v' || c == 'a' || c == 's' || c == 'd' || c == 't' || c == 'V'
  }

  function MediaOf(c: char): Media
    requires IsMedia(c)
  {
    match c
    case 'a' => Audio
    case 's' => Subtitle
    case 'd' => Data
    case 't' => Attachment
    case _ => Video
  }

  /** The text begins with these characters. */
  predicate Begins(s: string, p: string) {
    |p| <= |s| && s[..|p|] == p
  }

  function Skip(s: string, n: nat): (r: string)
    ensures |r| <= |s| && (0 < n && s != "" ==> |r| < |s|)
  {
    if n <= |s| then s[n..] else ""
  }

  function SkipColon(s: string): (r: string)
    ensures |r| <= |s|
  {
    if Begins(s, ":") then s[1..] else s
  }

  function FlagsEnd(s: string, i: nat): (r: nat)
    requires i <= |s|
    ensures i <= r <= |s|
    decreases |s| - i
  {
    if i < |s| && IsFlag(s[i]) then FlagsEnd(s, i + 1) else i
  }

  /** Conversion of a long to an int. */
  function ToInt(v: int): (r: int)
    ensures -0x8000_0000 <= r < 0x8000_0000 && (r - v) % 0x1_0000_0000 == 0
  {
    (v + 0x8000_0000) % 0x1_0000_0000 - 0x8000_0000
  }

  datatype Outcome = Fail | More(ss: Specifier, rest: string) | Stop(ss: Specifier, rest: string)

  /** A designator that names a list of streams by a number. */
  function Numbered(ss: Specifier, list: StreamList, s: string): (r: Outcome)
    ensures r.More? ==> |r.rest| < |s|
  {
    var n := Strtol.Parse(s);
    if ss.list != All || n.used == 0 then Fail
    else More(ss.(list := list, listId := n.value), SkipColon(Skip(s, n.used)))
  }

  function GroupStep(ss: Specifier, s: string): (r: Outcome)
    ensures r.More? ==> |r.rest| < |s|
  {
    if Begins(s, "#") then Numbered(ss, GroupId, s[1..])
    else if Begins(s, "i:") then Numbered(ss, GroupId, s[2..])
    else Numbered(ss, GroupIdx, s)
  }

  function DispositionStep(lib: Library, ss: Specifier, s: string): (r: Outcome)
    ensures r.More? ==> |r.rest| <= |s|
  {
    var len := FlagsEnd(s, 0);
    var flags := lib.flags(s[..len]);
    if ss.disposition != 0 || flags.None? then Fail
    else More(ss.(disposition := flags.value), SkipColon(s[len..]))
  }

  function IdStep(ss: Specifier, s: string): Outcome {
    var n := Strtol.Parse(s);
    if ss.list != All || n.used == 0 then Fail
    else Stop(ss.(list := StreamId, listId := n.value), Skip(s, n.used))
  }

  function MetadataStep(lib: Library, ss: Specifier, s: string): Outcome {
    var key := lib.token(s);
    var rest := Skip(s, key.used);
    if Begins(rest, ":") then
      var val := lib.token(rest[1..]);
      Stop(ss.(metaKey := Some(key.text), metaVal := Some(val.text)), Skip(rest[1..], val.used))
    else Stop(ss.(metaKey := Some(key.text)), rest)
  }

  function Step(lib: Library, ss: Specifier, s: string): (r: Outcome)
    requires s != ""
    ensures r.More? ==> |r.rest| < |s|
  {
    if IsDigit(s[0]) then
      var n := Strtol.Parse(s);
      Stop(ss.(idx := ToInt(n.value)), Skip(s, n.used))
    else if IsMedia(s[0]) && (|s| == 1 || !IsAlnum(s[1])) then
      if ss.media != Unknown then Fail
      else More(ss.(media := MediaOf(s[0]), noApic := s[0] == 'V' || ss.noApic), SkipColon(s[1..]))
    else if Begins(s, "g:") then GroupStep(ss, s[2..])
    else if Begins(s, "p:") then Numbered(ss, Program, s[2..])
    else if Begins(s, "disp:") then DispositionStep(lib, ss, s[5..])
    else LastStep(lib, ss, s)
  }

  /** The designators that end a specifier, and anything else. */
  function LastStep(lib: Library, ss: Specifier, s: string): (r: Outcome)
    requires s != ""
    ensures !r.More?
  {
    if Begins(s, "#") then IdStep(ss, s[1..])
    else if Begins(s, "i:") then IdStep(ss, s[2..])
    else if Begins(s, "m:") then MetadataStep(lib, ss, s[2..])
    else if s == "u" || Begins(s, "u:") then Stop(ss.(usable := true), s[1..])
    else Stop(ss, s)
  }

  /** What is left over is kept or refused. */
  function Finish(ss: Specifier, rest: string, allow: bool): Option<Specifier> {
    if rest == "" then Some(ss)
    else if allow then Some(ss.(remainder := Some(SkipColon(rest))))
    else None
  }

  /** The specifier of a text, None if it is malformed. */
  function Parse(lib: Library, ss: Specifier, s: string, allow: bool): Option<Specifier>
    decreases |s|
  {
    if s == "" then Some(ss)
    else
      match Step(lib, ss, s)
      case Fail => None
      case Stop(ss', rest) => Finish(ss', rest, allow)
      case More(ss', rest) => Parse(lib, ss', rest, allow)
  }

  class Spec {
    var idx: int
    var list: StreamList
    var listId: int
    var media: Media
    var noApic: bool
    var usable: bool
    var disposition: bv32
    var metaKey: Option<string>
    var metaVal: Option<string>
    var remainder: Option<string>

    ghost function Model(): Specifier
      reads this
    {
      Specifier(idx, list, listId, media, noApic, usable, disposition, metaKey, metaVal, remainder)
    }

    constructor ()
      ensures Model() == Cleared()
    {
      new;
      Zero();
    }

    /** stream_specifier_uninit. */
    method Zero()
      modifies this
      ensures Model() == Cleared()
    {
      idx, list, listId, media, noApic, usable := 0, All, 0, Video, false, false;
      disposition, metaKey, metaVal, remainder := 0, None, None, None;
    }

    /** stream_specifier_parse: on failure the specifier is cleared. */
    method ParseText(lib: Library, text: string, allow: bool) returns (ok: bool)
      modifies this
      ensures ok == Parse(lib, Initial(), text, allow).Some?
      ensures Model() == if ok then Parse(lib, Initial(), text, allow).value else Cleared()
    {
      hide Step, Parse, Finish;
      Zero();
      idx, media, list := -1, Unknown, All;
      var s := text;
      var more := true;
      InitialProgress();
      while more && s != ""
        invariant more ==> InProgress(Model()) && Parse(lib, Model(), s, allow) == Parse(lib, Initial(), text, allow)
        invariant !more ==> Finish(Model(), s, allow) == Parse(lib, Initial(), text, allow)
        decreases more, |s|
      {
        ParseUnfolds(lib, Model(), s, allow);
        StepProgress(lib, Model(), s);
        ok, more, s := ParseOne(lib, s);
        if !ok {
          Zero();
          return;
        }
      }
      FinishUnfolds(lib, Model(), s, allow);
      if s != "" {
        if !allow {
          Zero();
          return false;
        }
        remainder := Some(SkipColon(s));
      }
      ok := true;
    }

    /** One designator. */
    method ParseOne(lib: Library, text: string) returns (ok: bool, more: bool, s: string)
      requires text != "" && InProgress(Model())
      modifies this
      ensures var r := Step(lib, old(Model()), text);
        && ok == !r.Fail?
        && (ok ==> Model() == r.ss && s == r.rest && more == r.More?)
    {
      hide Strtol.Parse, GroupStep, Numbered, DispositionStep, LastStep, Skip, IsAlnum, InProgress;
      OnlyMore(lib, Model());
      s := text;
      if IsDigit(s[0]) {
        var n := Strtol.Parse(s);
        DigitIsNumber(s);
        assert n.used > 0;
        idx := ToInt(n.value);
        return true, false, Skip(s, n.used);
      } else if IsMedia(s[0]) && (|s| == 1 || !IsAlnum(s[1])) {
        if media != Unknown {
          return false, false, s;
        }
        match s[0] {
          case 'v' => media := Video;
          case 'a' => media := Audio;
          case 's' => media := Subtitle;
          case 'd' => media := Data;
          case 't' => media := Attachment;
          case _ => media, noApic := Video, true;
        }
        s := s[1..];
      } else if Begins(s, "g:") {
        ok, s := ParseGroup(s[2..]);
        return ok, true, s;
      } else if Begins(s, "p:") {
        ok, s := ParseNumbered(Program, s[2..]);
        return ok, true, s;
      } else if Begins(s, "disp:") {
        ok, s := ParseDisposition(lib, s[5..]);
        return ok, true, s;
      } else {
        ok, s := ParseLast(lib, s);
        return ok, false, s;
      }
      s := SkipColon(s);
      return true, true, s;
    }

    /** A list of streams and the number that names it. */
    method ParseNumbered(l: StreamList, text: string) returns (ok: bool, s: string)
      modifies this
      ensures var r := Numbered(old(Model()), l, text); ok == r.More? && (ok ==> Model() == r.ss && s == r.rest)
    {
      hide Strtol.Parse, Skip;
      s := text;
      if list != All {
        return false, s;
      }
      list := l;
      var n := Strtol.Parse(s);
      if n.used == 0 {
        return false, s;
      }
      listId := n.value;
      return true, SkipColon(Skip(s, n.used));
    }

    method ParseGroup(text: string) returns (ok: bool, s: string)
      modifies this
      ensures var r := GroupStep(old(Model()), text); ok == r.More? && (ok ==> Model() == r.ss && s == r.rest)
    {
      hide Numbered;
      if Begins(text, "#") || Begins(text, "i:") {
        ok, s := ParseNumbered(GroupId, if text[0] == 'i' then text[2..] else text[1..]);
      } else {
        ok, s := ParseNumbered(GroupIdx, text);
      }
    }

    method ParseDisposition(lib: Library, text: string) returns (ok: bool, s: string)
      modifies this
      ensures var r := DispositionStep(lib, old(Model()), text);
        ok == r.More? && (ok ==> Model() == r.ss && s == r.rest)
    {
      hide FlagsEnd;
      s := text;
      if disposition != 0 {
        return false, s;
      }
      var len := FlagsEnd(s, 0);
      var flags := lib.flags(s[..len]);
      if flags.None? {
        return false, s;
      }
      disposition := flags.value;
      return true, SkipColon(s[len..]);
    }

    /** A designator that ends the specifier. */
    method ParseLast(lib: Library, text: string) returns (ok: bool, s: string)
      requires text != "" && InProgress(Model())
      modifies this
      ensures var r := LastStep(lib, old(Model()), text);
        ok == !r.Fail? && (ok ==> Model() == r.ss && s == r.rest)
    {
      hide Strtol.Parse, Skip;
      s := text;
      if Begins(s, "#") || Begins(s, "i:") {
        if list != All {
          return false, s;
        }
        list := StreamId;
        s := if s[0] == 'i' then s[2..] else s[1..];
        var n := Strtol.Parse(s);
        if n.used == 0 {
          return false, s;
        }
        listId := n.value;
        s := Skip(s, n.used);
      } else if Begins(s, "m:") {
        assert metaKey.None? && metaVal.None?;
        s := s[2..];
        var key := lib.token(s);
        metaKey := Some(key.text);
        s := Skip(s, key.used);
        if Begins(s, ":") {
          s := s[1..];
          var val := lib.token(s);
          metaVal := Some(val.text);
          s := Skip(s, val.used);
        }
      } else if s == "u" || Begins(s, "u:") {
        usable := true;
        s := s[1..];
      }
      ok := true;
    }
  }

  /** These designators do not end the specifier. */
  lemma OnlyMore(lib: Library, ss: Specifier)
    ensures forall t :: !Numbered(ss, Program, t).Stop?
    ensures forall t :: !GroupStep(ss, t).Stop?
    ensures forall t :: !DispositionStep(lib, ss, t).Stop?
  {
    hide Strtol.Parse, FlagsEnd;
  }

  // ---------------------------------------------------------------- what the loop keeps

  /** The fields that only the last designator sets are still unset. */
  predicate InProgress(ss: Specifier) {
    ss.idx == -1 && ss.list != StreamId && !ss.usable && ss.metaKey.None? && ss.metaVal.None? && ss.remainder.None?
  }

  lemma InitialProgress()
    ensures InProgress(Initial())
  {
  }

  lemma StepProgress(lib: Library, ss: Specifier, s: string)
    requires s != "" && InProgress(ss)
    ensures var r := Step(lib, ss, s); r.More? ==> InProgress(r.ss)
    ensures var r := Step(lib, ss, s); r.Stop? ==> (r.ss.list == StreamId ==> r.ss.idx == -1)
  {
    hide Strtol.Parse, FlagsEnd;
  }

  lemma ParseUnfolds(lib: Library, ss: Specifier, s: string, allow: bool)
    requires s != ""
    ensures var r := Step(lib, ss, s);
      Parse(lib, ss, s, allow) ==
      if r.Fail? then None else if r.Stop? then Finish(r.ss, r.rest, allow) else Parse(lib, r.ss, r.rest, allow)
  {
    hide Step;
  }

  lemma FinishUnfolds(lib: Library, ss: Specifier, s: string, allow: bool)
    ensures s == "" ==> Parse(lib, ss, s, allow) == Some(ss) && Finish(ss, s, allow) == Some(ss)
    ensures s != "" ==> Finish(ss, s, allow) == if allow then Some(ss.(remainder := Some(SkipColon(s)))) else None
  {
  }

  lemma DigitIsNumber(s: string)
    requires s != "" && IsDigit(s[0])
    ensures Strtol.Parse(s).used > 0
  {
  }

  /** No text makes a specifier that asks for the n-th stream with a given ID. */
  lemma {:induction false} IdHasNoIndex(lib: Library, ss: Specifier, s: string, allow: bool)
    requires InProgress(ss)
    ensures var r := Parse(lib, ss, s, allow); r.Some? && r.value.list == StreamId ==> r.value.idx == -1
    decreases |s|
  {
    hide Step;
    if s != "" {
      StepProgress(lib, ss, s);
      var r := Step(lib, ss, s);
      if r.More? {
        IdHasNoIndex(lib, r.ss, r.rest, allow);
      }
    }
  }

  // ---------------------------------------------------------------- indices beyond int

  /** An index is kept as written exactly when it fits in an int; a larger one wraps around. */
  lemma IndexExactIff(lib: Library, ss: Specifier, s: string)
    requires s != "" && IsDigit(s[0])
    ensures Step(lib, ss, s).Stop?
    ensures Step(lib, ss, s).ss.idx == Strtol.Parse(s).value <==> Strtol.Parse(s).value <= 0x7fff_ffff
  {
  }

  /** The index 4294967295 wraps to "no index": the specifier is that of the empty text. */
  lemma WrappedIndexVanishes(lib: Library)
    ensures Parse(lib, Initial(), "4294967295", false) == Some(Initial())
  {
    hide Step, Parse;
    var s := "4294967295";
    WrappedIndexValue(s);
    WrappedIndexStep(lib, s);
    ParseUnfolds(lib, Initial(), s, false);
  }

  lemma WrappedIndexStep(lib: Library, s: string)
    requires s != "" && IsDigit(s[0]) && Strtol.Parse(s) == Strtol.Number(4294967295, |s|)
    ensures Step(lib, Initial(), s) == Stop(Initial(), "")
  {
  }

  lemma WrappedIndexValue(s: string)
    requires s == "4294967295"
    ensures Strtol.Parse(s) == Strtol.Number(4294967295, 10)
  {
    hide Strtol.Value, Strtol.SkipDigits;
    Strtol.Decimal(s, 0);
    Strtol.DecimalValues(s);
  }
}
