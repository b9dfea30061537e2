/**
 The command line as the report file shows it: arguments quoted where needed and
 joined by spaces on one line, from which the argument vector can be read back.
 */
module ArgQuote {
  import opened Wrappers

  /** A byte of a C string: anything but NUL. */
  type Byte = x: int | 1 <= x < 256 witness 1

  type Text = seq<Byte>

  // ASCII
  const NEWLINE: Byte := 10
  const SPACE: Byte := 32
  const QUOTE: Byte := 34
  const DOLLAR: Byte := 36
  const SLASH: Byte := 92
  const BACKTICK: Byte := 96
  const HEX: Byte := 120
  const TILDE: Byte := 126

  /** Printed as it is, without quotes: '+' to ':', '@' to 'Z', '_' and 'a' to 'z'. */
  predicate Safe(b: Byte) {
    43 <= b <= 58 || 64 <= b <= 90 || b == 95 || 97 <= b <= 122
  }

  predicate Escaped(b: Byte) {
    b == SLASH || b == QUOTE || b == DOLLAR || b == BACKTICK
  }

  predicate Printable(b: Byte) {
    SPACE <= b <= TILDE
  }

  /** '0' to '9' and 'a' to 'f'. */
  function HexDigit(n: nat): Byte
    requires n < 16
  {
    if n < 10 then 48 + n else 87 + n
  }

  /** One byte inside quotes. */
  function Quoted(b: Byte): Text {
    if Escaped(b) then [SLASH, b]
    else if !Printable(b) then [SLASH, HEX, HexDigit(b / 16), HexDigit(b % 16)]
    else [b]
  }

  function QuotedAll(a: Text): Text {
    if a == [] then [] else Quoted(a[0]) + QuotedAll(a[1..])
  }

  predicate AllSafe(a: Text) {
    forall i | 0 <= i < |a| :: Safe(a[i])
  }

  function Argument(a: Text): Text {
    if AllSafe(a) then a else [QUOTE] + QuotedAll(a) + [QUOTE]
  }

  /** The whole line. */
  function Line(argv: seq<Text>): Text {
    if argv == [] then []
    else if |argv| == 1 then Argument(argv[0]) + [NEWLINE]
    else Argument(argv[0]) + [SPACE] + Line(argv[1..])
  }

  lemma QuotedStep(text: Text, a: Text, p: nat)
    requires p < |a|
    ensures text + QuotedAll(a[p..]) == text + Quoted(a[p]) + QuotedAll(a[p + 1..])
  {
    hide Quoted;
    assert a[p..][1..] == a[p + 1..];
  }

  lemma LineStep(text: Text, argv: seq<Text>, i: nat)
    requires i < |argv|
    ensures text + Line(argv[i..]) ==
            text + Argument(argv[i]) + [if i < |argv| - 1 then SPACE else NEWLINE] + Line(argv[i + 1..])
  {
    hide Argument;
    assert argv[i..][1..] == argv[i + 1..];
  }

  lemma QuotedEnds(text: Text, a: Text)
    ensures text + QuotedAll(a[|a|..]) == text && a[0..] == a
  {
  }

  lemma LineEnds(text: Text, argv: seq<Text>)
    ensures text + Line(argv[|argv|..]) == text
  {
  }

  class Report {
    var text: Text

    constructor ()
      ensures text == []
    {
      text := [];
    }

    method DumpArgument(a: Text)
      modifies this
      ensures text == old(text) + Argument(a)
    {
      var p := 0;
      while p < |a| && Safe(a[p])
        invariant 0 <= p <= |a| && forall i | 0 <= i < p :: Safe(a[i])
      {
        p := p + 1;
      }
      if p == |a| {
        text := text + a;
        return;
      }
      DumpQuoted(a);
    }

    method DumpQuoted(a: Text)
      modifies this
      ensures text == old(text) + ([QUOTE] + QuotedAll(a) + [QUOTE])
    {
      hide QuotedAll, HexDigit;
      text := text + [QUOTE];
      ghost var all := text + QuotedAll(a);
      QuotedEnds(text, a);
      var p := 0;
      while p < |a|
        invariant 0 <= p <= |a|
        invariant text + QuotedAll(a[p..]) == all
      {
        var b := a[p];
        QuotedStep(text, a, p);
        if Escaped(b) {
          text := text + [SLASH, b];
        } else if b < SPACE || b > TILDE {
          text := text + [SLASH, HEX, HexDigit((b as int) / 16), HexDigit((b as int) % 16)];
        } else {
          text := text + [b];
        }
        p := p + 1;
      }
      QuotedEnds(text, a);
      assert text == all;
      text := text + [QUOTE];
    }

    method DumpCommandLine(argv: seq<Text>)
      modifies this
      ensures text == old(text) + Line(argv)
    {
      hide Line, Argument;
      var i := 0;
      ghost var all := text + Line(argv);
      assert argv[0..] == argv;
      while i < |argv|
        invariant 0 <= i <= |argv|
        invariant text + Line(argv[i..]) == all
      {
        LineStep(text, argv, i);
        DumpArgument(argv[i]);
        text := text + [if i < |argv| - 1 then SPACE else NEWLINE];
        i := i + 1;
      }
      LineEnds(text, argv);
    }
  }

  // ---------------------------------------------------------------- reading the line back

  function HexValue(b: Byte): Option<nat> {
    if 48 <= b <= 57 then Some(b - 48)
    else if 97 <= b <= 102 then Some(b - 87)
    else None
  }

  /** What was read, and the text behind it. */
  datatype Read = Failed | Read(arg: Text, rest: Text)

  function Cons(b: Byte, r: Read): Read {
    if r.Failed? then Failed else Read([b] + r.arg, r.rest)
  }

  /** Up to the closing quote. */
  function ReadQuoted(t: Text): (r: Read)
    ensures r.Read? ==> |r.rest| < |t|
  {
    if t == [] then Failed
    else if t[0] == QUOTE then Read([], t[1..])
    else if t[0] != SLASH then Cons(t[0], ReadQuoted(t[1..]))
    else if |t| >= 4 && t[1] == HEX then
      var h, l := HexValue(t[2]), HexValue(t[3]);
      if h.None? || l.None? || 16 * h.value + l.value == 0 then Failed
      else Cons(16 * h.value + l.value, ReadQuoted(t[4..]))
    else if |t| >= 2 then Cons(t[1], ReadQuoted(t[2..]))
    else Failed
  }

  /** Up to the next space or line end. */
  function ReadBare(t: Text): (r: Read)
    ensures r.Read? && |r.rest| <= |t|
  {
    if t == [] || t[0] == SPACE || t[0] == NEWLINE then Read([], t) else Cons(t[0], ReadBare(t[1..]))
  }

  function ReadArgument(t: Text): (r: Read)
    ensures r.Read? ==> |r.rest| <= |t|
  {
    if t != [] && t[0] == QUOTE then ReadQuoted(t[1..]) else ReadBare(t)
  }

  /** The argument vector of a line, None if it is not one that the report can hold. */
  function Decode(t: Text): Option<seq<Text>> {
    if t == [] then Some([]) else DecodeArgs(t)
  }

  function DecodeArgs(t: Text): Option<seq<Text>>
    decreases |t|
  {
    var r := ReadArgument(t);
    if r.Failed? || r.rest == [] then None
    else if r.rest == [NEWLINE] then Some([r.arg])
    else if r.rest[0] == SPACE then
      var more := DecodeArgs(r.rest[1..]);
      if more.None? then None else Some([r.arg] + more.value)
    else None
  }

  // ---------------------------------------------------------------- round trip

  lemma HexRoundTrip(b: Byte)
    ensures HexValue(HexDigit(b / 16)) == Some(b / 16) && HexValue(HexDigit(b % 16)) == Some(b % 16)
  {
  }

  lemma QuotedIsRead(b: Byte, t: Text)
    ensures ReadQuoted(Quoted(b) + t) == Cons(b, ReadQuoted(t))
  {
    var q := Quoted(b) + t;
    if Escaped(b) {
      assert q[0] == SLASH && q[1] == b && q[2..] == t;
    } else if !Printable(b) {
      HexRoundTrip(b);
      assert q[..4] == Quoted(b) && q[4..] == t;
      assert q[0] == SLASH && q[1] == HEX && q[2] == HexDigit(b / 16) && q[3] == HexDigit(b % 16);
    } else {
      assert q[0] == b && q[1..] == t;
    }
  }

  lemma {:induction false} QuotedAllIsRead(a: Text, t: Text)
    ensures ReadQuoted(QuotedAll(a) + [QUOTE] + t) == Read(a, t)
  {
    if a == [] {
      assert [QUOTE] + t == QuotedAll(a) + [QUOTE] + t;
      assert ([QUOTE] + t)[1..] == t;
    } else {
      var rest := QuotedAll(a[1..]) + [QUOTE] + t;
      assert QuotedAll(a) + [QUOTE] + t == Quoted(a[0]) + rest;
      QuotedIsRead(a[0], rest);
      QuotedAllIsRead(a[1..], t);
      assert [a[0]] + a[1..] == a;
    }
  }

  lemma {:induction false} BareIsRead(a: Text, t: Text)
    requires AllSafe(a) && t != [] && (t[0] == SPACE || t[0] == NEWLINE)
    ensures ReadBare(a + t) == Read(a, t)
  {
    if a == [] {
      assert a + t == t;
    } else {
      assert (a + t)[1..] == a[1..] + t;
      BareIsRead(a[1..], t);
      assert [a[0]] + a[1..] == a;
    }
  }

  /** An argument is read back from whatever follows it. */
  lemma ArgumentIsRead(a: Text, t: Text)
    requires t != [] && (t[0] == SPACE || t[0] == NEWLINE)
    ensures ReadArgument(Argument(a) + t) == Read(a, t)
  {
    hide QuotedAll, ReadQuoted, ReadBare;
    var p := Argument(a) + t;
    if AllSafe(a) {
      BareIsRead(a, t);
      assert p[0] == if a == [] then t[0] else a[0];
    } else {
      QuotedAllIsRead(a, t);
      assert p == [QUOTE] + (QuotedAll(a) + [QUOTE] + t);
      assert p[0] == QUOTE && p[1..] == QuotedAll(a) + [QUOTE] + t;
    }
  }

  /** The report holds the whole argument vector: every argument, empty ones included, in order. */
  lemma {:induction false} LineDecodes(argv: seq<Text>)
    ensures Decode(Line(argv)) == Some(argv)
  {
    if argv != [] {
      ArgsDecode(argv);
    }
  }

  lemma DecodeLast(t: Text, a: Text)
    requires ReadArgument(t) == Read(a, [NEWLINE])
    ensures DecodeArgs(t) == Some([a])
  {
    hide ReadArgument;
  }

  lemma DecodeNext(t: Text, a: Text, rest: Text, more: seq<Text>)
    requires ReadArgument(t) == Read(a, [SPACE] + rest) && DecodeArgs(rest) == Some(more)
    ensures DecodeArgs(t) == Some([a] + more)
  {
    hide ReadArgument;
    var r := [SPACE] + rest;
    assert r[0] == SPACE && r[1..] == rest;
  }

  lemma {:induction false} ArgsDecode(argv: seq<Text>)
    requires argv != []
    ensures Line(argv) != [] && DecodeArgs(Line(argv)) == Some(argv)
  {
    hide Argument, ReadArgument, DecodeArgs;
    var a := argv[0];
    if |argv| == 1 {
      assert argv == [a];
      ArgumentIsRead(a, [NEWLINE]);
      DecodeLast(Line(argv), a);
    } else {
      var rest := Line(argv[1..]);
      assert Line(argv) == Argument(a) + ([SPACE] + rest);
      ArgumentIsRead(a, [SPACE] + rest);
      ArgsDecode(argv[1..]);
      DecodeNext(Line(argv), a, rest, argv[1..]);
      assert [a] + argv[1..] == argv;
    }
  }

  /** No two argument vectors have the same report. */
  lemma LineInjective(x: seq<Text>, y: seq<Text>)
    requires Line(x) == Line(y)
    ensures x == y
  {
    LineDecodes(x);
    LineDecodes(y);
  }

  // ---------------------------------------------------------------- one printable line

  ghost predicate AllPrintable(t: Text) {
    forall i | 0 <= i < |t| :: Printable(t[i])
  }

  lemma {:induction false} QuotedPrintable(a: Text)
    ensures AllPrintable(QuotedAll(a))
  {
    if a != [] {
      QuotedPrintable(a[1..]);
      assert AllPrintable(Quoted(a[0]));
    }
  }

  ghost predicate OneLine(t: Text) {
    t != [] && t[|t| - 1] == NEWLINE && AllPrintable(t[..|t| - 1])
  }

  lemma PrintableLine(x: Text, y: Text)
    requires AllPrintable(x) && AllPrintable(y)
    ensures OneLine(x + y + [NEWLINE])
  {
    assert (x + y + [NEWLINE])[..|x + y|] == x + y;
  }

  /** Whatever the arguments hold, the report is one line of printable ASCII. */
  lemma {:induction false} LineIsPrintable(argv: seq<Text>)
    requires argv != []
    ensures OneLine(Line(argv))
  {
    hide QuotedAll;
    var a := argv[0];
    QuotedPrintable(a);
    assert AllPrintable(Argument(a));
    hide Argument;
    if |argv| == 1 {
      assert Line(argv) == [] + Argument(a) + [NEWLINE];
      PrintableLine([], Argument(a));
    } else {
      LineIsPrintable(argv[1..]);
      var more := Line(argv[1..]);
      var head := Argument(a) + [SPACE];
      assert more == more[..|more| - 1] + [NEWLINE];
      assert Line(argv) == head + more[..|more| - 1] + [NEWLINE];
      PrintableLine(head, more[..|more| - 1]);
    }
  }

  // ---------------------------------------------------------------- what a shell would make of it

  /** Letters, digits and a few signs. */
  predicate Ordinary(b: Byte) {
    var c := b as char;
    'a' <= c <= 'z' || 'A' <= c <= 'Z' || '0' <= c <= '9' ||
    c == '_' || c == '@' || c == '+' || c == ',' || c == '-' || c == '.' || c == '/' || c == ':'
  }

  /** An argument is printed as it is if and only if it is made of such characters. */
  lemma PrintedAsIsIff(a: Text)
    ensures Argument(a) == a <==> forall i | 0 <= i < |a| :: Ordinary(a[i])
  {
    hide QuotedAll;
    assert forall b: Byte :: Safe(b) <==> Ordinary(b);
    if !AllSafe(a) && Argument(a) == a {
      LongerQuoted(a);
    }
  }

  lemma {:induction false} LongerQuoted(a: Text)
    ensures |QuotedAll(a)| >= |a|
  {
    if a != [] {
      LongerQuoted(a[1..]);
    }
  }

  /** The bytes that no backslash stands before. */
  function Bare(t: Text): set<Byte> {
    if t == [] then {}
    else if t[0] == SLASH then if |t| == 1 then {} else Bare(t[2..])
    else {t[0]} + Bare(t[1..])
  }

  /** What has a meaning between quotes. */
  predicate Active(b: Byte) {
    b == DOLLAR || b == BACKTICK || b == QUOTE
  }

  lemma BareQuoted(b: Byte, t: Text, x: Byte)
    requires Active(x) && x in Bare(Quoted(b) + t)
    ensures x in Bare(t)
  {
    var q := Quoted(b) + t;
    if Escaped(b) {
      assert q[2..] == t;
    } else if Printable(b) {
      assert q[1..] == t;
    } else {
      var h, l := HexDigit(b / 16), HexDigit(b % 16);
      var r := [l] + t;
      assert q[2..] == [h] + r && ([h] + r)[1..] == r && r[1..] == t && r[0] == l;
      assert Bare(q) == Bare([h] + r) && Bare([h] + r) == {h} + Bare(r) && Bare(r) == {l} + Bare(t);
      assert !Active(h) && !Active(l);
    }
  }

  /** Between quotes, nothing that a shell would expand or that would end the quotes stands without a backslash. */
  lemma {:induction false} NothingExpands(a: Text, x: Byte)
    requires Active(x)
    ensures x !in Bare(QuotedAll(a))
  {
    hide Quoted, Bare;
    if a == [] {
      BareNothing();
    } else {
      NothingExpands(a[1..], x);
      if x in Bare(QuotedAll(a)) {
        BareQuoted(a[0], QuotedAll(a[1..]), x);
      }
    }
  }

  lemma BareNothing()
    ensures Bare([]) == {}
  {
  }
}
