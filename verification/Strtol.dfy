/** The C library's strtol with base 0, as far as it is used on specifiers. */
module Strtol {

  const LONG_MAX: int := 0x7fff_ffff_ffff_ffff

  /** The value, and how many characters were used; none if there is no number. */
  datatype Number = Number(value: int, used: nat)

  predicate IsSpace(c: char) {
    c == ' ' || '\t' <= c <= '\r'
  }

  /** 16 or more for anything but a digit or a letter up to 'f'. */
  function DigitValue(c: char): nat {
    if '0' <= c <= '9' then c as int - '0' as int
    else if 'a' <= c <= 'f' then c as int - 'a' as int + 10
    else if 'A' <= c <= 'F' then c as int - 'A' as int + 10
    else 16
  }

  function SkipSpaces(s: string, i: nat): (r: nat)
    requires i <= |s|
    ensures i <= r <= |s| && (r < |s| ==> !IsSpace(s[r]))
    decreases |s| - i
  {
    if i < |s| && IsSpace(s[i]) then SkipSpaces(s, i + 1) else i
  }

  function SkipDigits(s: string, i: nat, radix: nat): (r: nat)
    requires i <= |s|
    ensures i <= r <= |s| && (r < |s| ==> DigitValue(s[r]) >= radix)
    decreases |s| - i
  {
    if i < |s| && DigitValue(s[i]) < radix then SkipDigits(s, i + 1, radix) else i
  }

  function Value(s: string, i: nat, end: nat, radix: nat): nat
    requires i <= end <= |s|
    decreases end
  {
    if i == end then 0 else radix * Value(s, i, end - 1, radix) + DigitValue(s[end - 1])
  }

  predicate HexPrefix(s: string, i: nat) {
    i + 2 < |s| && s[i] == '0' && (s[i + 1] == 'x' || s[i + 1] == 'X') && DigitValue(s[i + 2]) < 16
  }

  function Radix(s: string, i: nat): nat {
    if HexPrefix(s, i) then 16 else if i < |s| && s[i] == '0' then 8 else 10
  }

  function Clamp(v: int): int {
    if v > LONG_MAX then LONG_MAX else if v < -LONG_MAX - 1 then -LONG_MAX - 1 else v
  }

  function Parse(s: string): (r: Number)
    ensures r.used <= |s|
  {
    var i := SkipSpaces(s, 0);
    var j := if i < |s| && (s[i] == '+' || s[i] == '-') then i + 1 else i;
    var k := if HexPrefix(s, j) then j + 2 else j;
    var end := SkipDigits(s, k, Radix(s, j));
    if end == k then Number(0, 0)
    else
      var v: int := Value(s, k, end, Radix(s, j));
      Number(Clamp(if i < j && s[i] == '-' then -v else v), end)
  }

  /** A number whose whole text is used. */
  predicate Whole(n: string) {
    n != "" && Parse(n).used == |n|
  }

  /** The number ends at the next colon or at the end. */
  predicate Ends(t: string) {
    t == "" || t[0] == ':'
  }

  lemma {:induction false} SpacesStop(n: string, t: string, i: nat)
    requires i <= |n| && SkipSpaces(n, i) < |n|
    ensures SkipSpaces(n + t, i) == SkipSpaces(n, i)
    decreases |n| - i
  {
    assert (n + t)[i] == n[i];
    if IsSpace(n[i]) {
      SpacesStop(n, t, i + 1);
    }
  }

  lemma {:induction false} DigitsStop(n: string, t: string, i: nat, radix: nat)
    requires i <= |n| && Ends(t) && radix <= 16
    ensures SkipDigits(n + t, i, radix) == SkipDigits(n, i, radix)
    decreases |n| - i
  {
    if i < |n| {
      assert (n + t)[i] == n[i];
      if DigitValue(n[i]) < radix {
        DigitsStop(n, t, i + 1, radix);
      }
    } else if t != "" {
      assert (n + t)[i] == ':';
    }
  }

  lemma {:induction false} ValueOfPrefix(n: string, t: string, i: nat, end: nat, radix: nat)
    requires i <= end <= |n|
    ensures Value(n + t, i, end, radix) == Value(n, i, end, radix)
    decreases end
  {
    if i < end {
      ValueOfPrefix(n, t, i, end - 1, radix);
    }
  }

  lemma HexPrefixStops(n: string, t: string, i: nat)
    requires i < |n| && Ends(t)
    ensures HexPrefix(n + t, i) == HexPrefix(n, i) && Radix(n + t, i) == Radix(n, i)
  {
    assert forall k | 0 <= k < |n| :: (n + t)[k] == n[k];
    assert t != "" ==> (n + t)[|n|] == ':';
  }

  /** What follows the number does not change it. */
  lemma NumberStops(n: string, t: string)
    requires Whole(n) && Ends(t)
    ensures Parse(n + t) == Parse(n)
  {
    hide Value, HexPrefix, Radix, SkipDigits, SkipSpaces, IsSpace, DigitValue;
    var i := SkipSpaces(n, 0);
    SpacesStop(n, t, 0);
    var j := if n[i] == '+' || n[i] == '-' then i + 1 else i;
    HexPrefixStops(n, t, j);
    RadixBounds(n, j);
    var k := if HexPrefix(n, j) then j + 2 else j;
    DigitsStop(n, t, k, Radix(n, j));
    ValueOfPrefix(n, t, k, |n|, Radix(n, j));
  }

  lemma RadixBounds(s: string, i: nat)
    ensures 2 <= Radix(s, i) <= 16 && (HexPrefix(s, i) ==> i + 2 < |s|)
  {
  }

  lemma {:induction false} Decimal(s: string, i: nat)
    requires i <= |s| && forall k | i <= k < |s| :: '0' <= s[k] <= '9'
    ensures SkipDigits(s, i, 10) == |s|
    decreases |s| - i
  {
    if i < |s| {
      Decimal(s, i + 1);
    }
  }

  lemma DecimalValues(s: string)
    requires s == "4294967295"
    ensures Value(s, 0, 10, 10) == 4294967295
  {
    assert Value(s, 0, 5, 10) == 42949;
  }

  // ---------------------------------------------------------------- writing numbers

  /** How a number may be written. */
  datatype Style = InTens | InEights | InSixteens(upper: bool)

  function RadixOf(style: Style): nat {
    match style
    case InTens => 10
    case InEights => 8
    case InSixteens(_) => 16
  }

  function Prefix(style: Style): string {
    match style
    case InTens => ""
    case InEights => "0"
    case InSixteens(upper) => if upper then "0X" else "0x"
  }

  function Digit(d: nat, upper: bool): char
    requires d < 16
  {
    (if upper then "0123456789ABCDEF" else "0123456789abcdef")[d]
  }

  /** The digits of n, without leading zeros. */
  function Digits(n: nat, radix: nat, upper: bool): string
    requires 2 <= radix <= 16
  {
    if n < radix then [Digit(n, upper)] else Digits(n / radix, radix, upper) + [Digit(n % radix, upper)]
  }

  lemma DigitIsRead(d: nat, upper: bool)
    requires d < 16
    ensures DigitValue(Digit(d, upper)) == d
  {
  }

  ghost predicate AllDigits(s: string, i: nat, radix: nat) {
    forall k | i <= k < |s| :: DigitValue(s[k]) < radix
  }

  lemma DivSmaller(n: nat, radix: nat)
    requires 2 <= radix <= n
    ensures 0 < n / radix < n && n / radix * radix + n % radix == n
  {
  }

  lemma DigitAppended(t: string, c: char, radix: nat)
    ensures Value(t + [c], 0, |t| + 1, radix) == radix * Value(t, 0, |t|, radix) + DigitValue(c)
  {
    hide DigitValue;
    ValueOfPrefix(t, [c], 0, |t|, radix);
  }

  /** s is the number n written in this radix. */
  ghost predicate Writes(s: string, n: nat, radix: nat) {
    s != "" && AllDigits(s, 0, radix) && Value(s, 0, |s|, radix) == n && (s[0] == '0' <==> n == 0)
  }

  lemma OneDigitWrites(d: nat, radix: nat, upper: bool)
    requires d < radix <= 16
    ensures Writes([Digit(d, upper)], d, radix)
  {
    hide DigitValue, Digit;
    var s := [Digit(d, upper)];
    DigitIsRead(d, upper);
    LeadingZero(d, upper);
    assert Value(s, 0, 0, radix) == 0;
    assert Value(s, 0, 1, radix) == radix * 0 + d;
  }

  lemma MoreWrites(t: string, m: nat, d: nat, radix: nat, upper: bool, n: nat)
    requires Writes(t, m, radix) && d < radix <= 16 && m > 0 && n == m * radix + d
    ensures Writes(t + [Digit(d, upper)], n, radix)
  {
    hide DigitValue, Digit, Value;
    DigitIsRead(d, upper);
    DigitAppended(t, Digit(d, upper), radix);
    assert radix * m == m * radix;
  }

  lemma {:induction false} DigitsWrite(n: nat, radix: nat, upper: bool)
    requires 2 <= radix <= 16
    ensures Writes(Digits(n, radix, upper), n, radix)
  {
    hide Writes, Digit;
    if n < radix {
      OneDigitWrites(n, radix, upper);
    } else {
      DivSmaller(n, radix);
      DigitsWrite(n / radix, radix, upper);
      MoreWrites(Digits(n / radix, radix, upper), n / radix, n % radix, radix, upper, n);
    }
  }

  lemma LeadingZero(d: nat, upper: bool)
    requires d < 16
    ensures Digit(d, upper) == '0' <==> d == 0
  {
  }

  lemma {:induction false} AllSkipped(s: string, i: nat, radix: nat)
    requires i <= |s| && AllDigits(s, i, radix)
    ensures SkipDigits(s, i, radix) == |s|
    decreases |s| - i
  {
    if i < |s| {
      AllSkipped(s, i + 1, radix);
    }
  }

  lemma {:induction false} ValueBehind(a: string, d: string, n: nat, radix: nat)
    requires n <= |d|
    ensures Value(a + d, |a|, |a| + n, radix) == Value(d, 0, n, radix)
  {
    if n > 0 {
      ValueBehind(a, d, n - 1, radix);
    }
  }

  /** Space, tab, newline, vertical tab, form feed and carriage return. */
  predicate White(s: string) {
    forall i | 0 <= i < |s| :: s[i] == ' ' || s[i] as int == 9 || s[i] as int == 10 || s[i] as int == 11 ||
      s[i] as int == 12 || s[i] as int == 13
  }

  lemma {:induction false} WhiteSkipped(w: string, t: string, i: nat)
    requires White(w) && i <= |w| && t != "" && !IsSpace(t[0])
    ensures SkipSpaces(w + t, i) == |w|
    decreases |w| - i
  {
    var s := w + t;
    if i < |w| {
      assert s[i] == w[i];
      WhiteSkipped(w, t, i + 1);
    } else {
      assert s[i] == t[0];
    }
  }

  predicate IsSign(sign: string) {
    sign == "" || sign == "+" || sign == "-"
  }

  /** v, or the nearest number that a long can hold. */
  predicate IsNearest(r: int, v: int) {
    if v > 0x7fff_ffff_ffff_ffff then r == 0x7fff_ffff_ffff_ffff
    else if v < -0x8000_0000_0000_0000 then r == -0x8000_0000_0000_0000
    else r == v
  }

  /** The text of a number in any of the styles. */
  function Body(style: Style, n: nat): string {
    Prefix(style) + Digits(n, RadixOf(style), style.InSixteens? && style.upper)
  }

  /** Where the digits begin, and how they are read. */
  lemma BodyBegins(a: string, style: Style, n: nat)
    ensures var s := a + Body(style, n);
      && |a| < |s| && '0' <= s[|a|] <= '9'
      && (HexPrefix(s, |a|) <==> style.InSixteens?)
      && (n > 0 || !style.InTens? ==> Radix(s, |a|) == RadixOf(style))
      && (n == 0 && style.InTens? ==> s == a + "0")
  {
    hide Value, Digits, DigitValue, Digit;
    var radix, upper := RadixOf(style), style.InSixteens? && style.upper;
    var d := Digits(n, radix, upper);
    var s := a + Body(style, n);
    DigitsWrite(n, radix, upper);
    assert forall i | 0 <= i < |d| :: s[|a| + |Prefix(style)| + i] == d[i];
    match style
    case InTens => TenDigits(d, n);
    case InEights =>
      assert s[|a|] == '0';
      EightDigits(d);
    case InSixteens(_) =>
      assert s[|a|] == '0' && s[|a| + 2] == d[0];
  }

  lemma TenDigits(d: string, n: nat)
    requires d == Digits(n, 10, false)
    ensures forall i | 0 <= i < |d| :: '0' <= d[i] <= '9'
    ensures n == 0 ==> d == "0"
  {
    hide Value;
    DigitsWrite(n, 10, false);
    assert forall c: char | DigitValue(c) < 10 :: '0' <= c <= '9';
    assert forall i | 0 <= i < |d| :: DigitValue(d[i]) < 10;
  }

  lemma EightDigits(d: string)
    requires AllDigits(d, 0, 8)
    ensures forall i | 0 <= i < |d| :: '0' <= d[i] <= '7'
  {
    assert forall i | 0 <= i < |d| :: DigitValue(d[i]) < 8;
  }

  /** Any number is read as it was written, in tens, eights or sixteens, with white space and a sign before it, and
      limited to the range of a long. */
  lemma NumberIsRead(white: string, sign: string, style: Style, n: nat)
    requires White(white) && IsSign(sign)
    ensures var s := white + sign + Body(style, n);
      Parse(s).used == |s| && IsNearest(Parse(s).value, if sign == "-" then -(n as int) else n)
  {
    hide *;
    var a, body := white + sign, Body(style, n);
    var s := a + body;
    BodyBegins(a, style, n);
    SignBegins(white, sign, body);
    BodyIsRead(a, style, n);
    Assembled(s, |white|, |a|, if style.InSixteens? then |a| + 2 else |a|, n);
    assert sign == "-" <==> |white| < |a| && s[|white|] == '-';
    NearestIs(if sign == "-" then -(n as int) else n);
  }

  lemma NearestIs(v: int)
    ensures IsNearest(Clamp(v), v)
  {
  }

  /** White space ends at the sign, or at the first digit. */
  lemma SignBegins(white: string, sign: string, body: string)
    requires White(white) && IsSign(sign) && body != "" && '0' <= body[0] <= '9'
    ensures var s := white + sign + body;
      var i, j := |white|, |white + sign|;
      SkipSpaces(s, 0) == i && (i < |s| && (s[i] == '+' || s[i] == '-') <==> i < j) && i <= j <= i + 1 && j < |s| &&
      (i < j ==> s[i] == sign[0])
  {
    hide SkipSpaces;
    var s, t := white + sign + body, sign + body;
    assert s == white + t;
    assert t[0] == if sign == "" then body[0] else sign[0];
    WhiteSkipped(white, t, 0);
    assert s[|white|] == t[0];
  }

  /** The pieces of a number put together. */
  lemma Assembled(s: string, i: nat, j: nat, k: nat, n: nat)
    requires SkipSpaces(s, 0) == i && j == (if i < |s| && (s[i] == '+' || s[i] == '-') then i + 1 else i)
    requires k == (if HexPrefix(s, j) then j + 2 else j) && k < |s|
    requires SkipDigits(s, k, Radix(s, j)) == |s| && Value(s, k, |s|, Radix(s, j)) == n
    ensures Parse(s) == Number(Clamp(if i < j && s[i] == '-' then -(n as int) else n), |s|)
  {
    hide SkipSpaces, SkipDigits, Value, HexPrefix, Radix, Clamp;
  }

  /** The digits behind whatever stands before. */
  lemma BodyIsRead(a: string, style: Style, n: nat)
    ensures var s := a + Body(style, n);
      var k := |a| + (if style.InSixteens? then 2 else 0);
      k < |s| && SkipDigits(s, k, Radix(s, |a|)) == |s| && Value(s, k, |s|, Radix(s, |a|)) == n
  {
    hide SkipDigits, Digits, HexPrefix, Radix, DigitValue;
    var s := a + Body(style, n);
    BodyBegins(a, style, n);
    var radix, upper := RadixOf(style), style.InSixteens? && style.upper;
    var d := Digits(n, radix, upper);
    DigitsWrite(n, radix, upper);
    if n == 0 && style.InTens? {
      RadixBounds(s, |a|);
      ZeroIsRead(a, Radix(s, |a|));
    } else if style.InEights? {
      assert s == a + ("0" + d);
      ZeroAndDigits(a, d);
    } else {
      assert s == (a + Prefix(style)) + d;
      DigitsBehind(a + Prefix(style), d, radix);
    }
  }

  lemma DigitsBehind(b: string, d: string, radix: nat)
    requires AllDigits(d, 0, radix)
    ensures var s := b + d; SkipDigits(s, |b|, radix) == |s| && Value(s, |b|, |s|, radix) == Value(d, 0, |d|, radix)
  {
    hide DigitValue;
    var s := b + d;
    ValueBehind(b, d, |d|, radix);
    forall k | |b| <= k < |s| ensures DigitValue(s[k]) < radix {
      assert s[k] == d[k - |b|];
    }
    AllSkipped(s, |b|, radix);
  }

  /** A zero before octal digits. */
  lemma ZeroAndDigits(a: string, d: string)
    requires AllDigits(d, 0, 8)
    ensures var s := a + ("0" + d); SkipDigits(s, |a|, 8) == |s| && Value(s, |a|, |s|, 8) == Value(d, 0, |d|, 8)
  {
    hide DigitValue;
    var e := "0" + d;
    ZeroDigit();
    forall k | 0 <= k < |e| ensures DigitValue(e[k]) < 8 {
      assert k > 0 ==> e[k] == d[k - 1];
    }
    DigitsBehind(a, e, 8);
    ZeroPrefix(d, |d|);
  }

  lemma ZeroDigit()
    ensures DigitValue('0') == 0
  {
  }

  lemma ZeroIsRead(a: string, radix: nat)
    requires radix >= 2
    ensures var s := a + "0"; SkipDigits(s, |a|, radix) == |s| && Value(s, |a|, |s|, radix) == 0
  {
    var s := a + "0";
    assert s[|a|] == '0';
    AllSkipped(s, |a|, radix);
    assert Value(s, |a|, |a|, radix) == 0;
  }

  lemma {:induction false} ZeroPrefix(d: string, n: nat)
    requires n <= |d|
    ensures Value("0" + d, 0, n + 1, 8) == Value(d, 0, n, 8)
  {
    var e := "0" + d;
    if n == 0 {
      assert Value(e, 0, 0, 8) == 0 && e[0] == '0';
    } else {
      ZeroPrefix(d, n - 1);
      assert e[n] == d[n - 1];
    }
  }
}
