/** Specifiers as lists of designators: the order in which they are written. */
module StreamDesignators {
  import opened Wrappers
  import Strtol
  import opened StreamSpecifier

  datatype Designator =
    | Medium(letter: char)
    | Group(prefix: string, number: string)
    | Prog(number: string)
    | Disp(flags: string)

  /** Letters, digits, '_' and '+'. */
  predicate FlagText(f: string) {
    forall i | 0 <= i < |f| ::
      'a' <= f[i] <= 'z' || 'A' <= f[i] <= 'Z' || '0' <= f[i] <= '9' || f[i] == '_' || f[i] == '+'
  }

  predicate Wellformed(d: Designator) {
    match d
    case Medium(c) => IsMedia(c)
    case Group(p, n) => (p == "" || p == "#" || p == "i:") && Strtol.Whole(n)
    case Prog(n) => Strtol.Whole(n)
    case Disp(f) => FlagText(f)
  }

  function Written(d: Designator): string {
    match d
    case Medium(c) => [c]
    case Group(p, n) => "g:" + (p + n)
    case Prog(n) => "p:" + n
    case Disp(f) => "disp:" + f
  }

  /** The designators, separated by colons, before the text t. */
  function Text(ds: seq<Designator>, t: string): string {
    if ds == [] then t
    else
      var rest := Text(ds[1..], t);
      Written(ds[0]) + (if rest == "" then "" else ":" + rest)
  }

  /** What a designator sets, None if it is refused. */
  function Apply(lib: Library, ss: Specifier, d: Designator): Option<Specifier> {
    match d
    case Medium(c) =>
      if ss.media != Unknown || !IsMedia(c) then None
      else Some(ss.(media := MediaOf(c), noApic := c == 'V' || ss.noApic))
    case Group(p, n) =>
      if ss.list != All then None
      else Some(ss.(list := if p == "" then GroupIdx else GroupId, listId := Strtol.Parse(n).value))
    case Prog(n) =>
      if ss.list != All then None else Some(ss.(list := Program, listId := Strtol.Parse(n).value))
    case Disp(f) =>
      if ss.disposition != 0 || lib.flags(f).None? then None else Some(ss.(disposition := lib.flags(f).value))
  }

  function ApplyAll(lib: Library, ss: Specifier, ds: seq<Designator>): Option<Specifier>
    decreases |ds|
  {
    if ds == [] then Some(ss)
    else
      var r := Apply(lib, ss, ds[0]);
      if r.None? then None else ApplyAll(lib, r.value, ds[1..])
  }

  // ---------------------------------------------------------------- parsing what is written

  function Outcome1(r: Option<Specifier>, t: string): Outcome {
    if r.None? then Fail else More(r.value, SkipColon(t))
  }

  lemma BeginsWith(p: string, t: string)
    ensures Begins(p + t, p) && (p + t)[|p|..] == t
  {
  }

  lemma NumberedStep(ss: Specifier, list: StreamList, n: string, t: string)
    requires Strtol.Whole(n) && Strtol.Ends(t)
    ensures Numbered(ss, list, n + t) ==
            if ss.list != All then Fail else More(ss.(list := list, listId := Strtol.Parse(n).value), SkipColon(t))
  {
    hide Strtol.Parse;
    Strtol.NumberStops(n, t);
    assert (n + t)[|n|..] == t;
  }

  /** A whole number begins like a number. */
  lemma NumberBegins(n: string)
    requires Strtol.Whole(n)
    ensures n[0] != '#' && n[0] != 'i'
  {
  }

  lemma {:induction false} FlagsStop(f: string, t: string, i: nat)
    requires i <= |f| && Strtol.Ends(t) && FlagText(f)
    ensures FlagsEnd(f + t, i) == |f|
    decreases |f| - i
  {
    if i < |f| {
      FlagsStop(f, t, i + 1);
    }
  }

  lemma GroupParsed(ss: Specifier, p: string, n: string, t: string)
    requires Wellformed(Group(p, n)) && Strtol.Ends(t)
    ensures GroupStep(ss, p + n + t) ==
            if ss.list != All then Fail
            else More(ss.(list := if p == "" then GroupIdx else GroupId, listId := Strtol.Parse(n).value), SkipColon(t))
  {
    hide Numbered, Strtol.Parse;
    var s := p + n + t;
    assert s == p + (n + t);
    NumberBegins(n);
    if p == "" {
      assert s == n + t && s[0] == n[0];
      NumberedStep(ss, GroupIdx, n, t);
    } else {
      BeginsWith(p, n + t);
      assert s[0] == p[0];
      NumberedStep(ss, GroupId, n, t);
    }
  }

  lemma MediumParsed(lib: Library, ss: Specifier, c: char, t: string)
    requires IsMedia(c) && Strtol.Ends(t)
    ensures Step(lib, ss, [c] + t) == Outcome1(Apply(lib, ss, Medium(c)), t)
  {
    hide Strtol.Parse, FlagsEnd, LastStep, GroupStep, Numbered, DispositionStep;
    var s := [c] + t;
    assert s[0] == c && s[1..] == t && (|s| > 1 ==> s[1] == ':');
  }

  lemma DispParsed(lib: Library, ss: Specifier, f: string, t: string)
    requires Wellformed(Disp(f)) && Strtol.Ends(t)
    ensures DispositionStep(lib, ss, f + t) == Outcome1(Apply(lib, ss, Disp(f)), t)
  {
    FlagsStop(f, t, 0);
    assert (f + t)[..|f|] == f && (f + t)[|f|..] == t;
  }

  lemma GroupWritten(lib: Library, ss: Specifier, p: string, n: string, t: string)
    requires Wellformed(Group(p, n)) && Strtol.Ends(t)
    ensures Step(lib, ss, "g:" + (p + n) + t) == Outcome1(Apply(lib, ss, Group(p, n)), t)
  {
    hide Strtol.Parse, LastStep, GroupStep, Numbered, DispositionStep, Strtol.Whole;
    var s := "g:" + (p + n) + t;
    assert s == "g:" + (p + n + t) && s[0] == 'g';
    BeginsWith("g:", p + n + t);
    GroupParsed(ss, p, n, t);
  }

  lemma ProgWritten(lib: Library, ss: Specifier, n: string, t: string)
    requires Wellformed(Prog(n)) && Strtol.Ends(t)
    ensures Step(lib, ss, "p:" + n + t) == Outcome1(Apply(lib, ss, Prog(n)), t)
  {
    hide Strtol.Parse, LastStep, GroupStep, Numbered, DispositionStep, Strtol.Whole;
    var s := "p:" + n + t;
    assert s == "p:" + (n + t) && s[0] == 'p';
    BeginsWith("p:", n + t);
    NumberedStep(ss, Program, n, t);
  }

  lemma DispWritten(lib: Library, ss: Specifier, f: string, t: string)
    requires Wellformed(Disp(f)) && Strtol.Ends(t)
    ensures Step(lib, ss, "disp:" + f + t) == Outcome1(Apply(lib, ss, Disp(f)), t)
  {
    hide Strtol.Parse, LastStep, GroupStep, Numbered, DispositionStep, Strtol.Whole;
    var s := "disp:" + f + t;
    assert s == "disp:" + (f + t) && s[0] == 'd' && s[1] == 'i';
    BeginsWith("disp:", f + t);
    DispParsed(lib, ss, f, t);
  }

  /** Every designator is read as a whole and does what it says. */
  lemma DesignatorParsed(lib: Library, ss: Specifier, d: Designator, t: string)
    requires Wellformed(d) && Strtol.Ends(t)
    ensures Written(d) != "" && Step(lib, ss, Written(d) + t) == Outcome1(Apply(lib, ss, d), t)
  {
    hide Step, Apply;
    match d
    case Medium(c) => MediumParsed(lib, ss, c, t);
    case Group(p, n) => GroupWritten(lib, ss, p, n, t);
    case Prog(n) => ProgWritten(lib, ss, n, t);
    case Disp(f) => DispWritten(lib, ss, f, t);
  }

  /** Parsing written designators applies them one after the other. */
  lemma {:induction false} DesignatorsParsed(lib: Library, ss: Specifier, ds: seq<Designator>, t: string, allow: bool)
    requires forall d | d in ds :: Wellformed(d)
    ensures var r := ApplyAll(lib, ss, ds);
      Parse(lib, ss, Text(ds, t), allow) == if r.None? then None else Parse(lib, r.value, t, allow)
    decreases |ds|
  {
    hide Step, Wellformed, Apply, Written;
    if ds != [] {
      var rest := Text(ds[1..], t);
      var tail := if rest == "" then "" else ":" + rest;
      assert ds[0] in ds;
      DesignatorParsed(lib, ss, ds[0], tail);
      assert SkipColon(tail) == rest;
      ParseUnfolds(lib, ss, Written(ds[0]) + tail, allow);
      var r := Apply(lib, ss, ds[0]);
      if r.Some? {
        DesignatorsParsed(lib, r.value, ds[1..], t, allow);
      }
    }
  }

  // ---------------------------------------------------------------- order

  /** Two dispositions of which exactly one is zero: the zero one does not block the other. */
  predicate Clash(lib: Library, x: Designator, y: Designator) {
    x.Disp? && y.Disp? && lib.flags(x.flags).Some? && lib.flags(y.flags).Some? &&
    (lib.flags(x.flags).value == 0) != (lib.flags(y.flags).value == 0)
  }

  ghost predicate ClashFree(lib: Library, ds: seq<Designator>) {
    forall x, y | x in ds && y in ds :: !Clash(lib, x, y)
  }

  function Then(lib: Library, r: Option<Specifier>, d: Designator): Option<Specifier> {
    if r.None? then None else Apply(lib, r.value, d)
  }

  lemma Commute(lib: Library, ss: Specifier, x: Designator, y: Designator)
    requires !Clash(lib, x, y)
    ensures Then(lib, Apply(lib, ss, x), y) == Then(lib, Apply(lib, ss, y), x)
  {
    hide Strtol.Parse;
  }

  lemma SwapFirst(lib: Library, ss: Specifier, x: Designator, y: Designator, ds: seq<Designator>)
    requires !Clash(lib, x, y)
    ensures ApplyAll(lib, ss, [x] + ([y] + ds)) == ApplyAll(lib, ss, [y] + ([x] + ds))
  {
    hide Apply;
    Commute(lib, ss, x, y);
    TwoFirst(lib, ss, x, y, ds);
    TwoFirst(lib, ss, y, x, ds);
  }

  lemma OneFirst(lib: Library, ss: Specifier, x: Designator, ds: seq<Designator>)
    ensures var r := Apply(lib, ss, x);
      ApplyAll(lib, ss, [x] + ds) == if r.None? then None else ApplyAll(lib, r.value, ds)
  {
    hide Apply;
    assert ([x] + ds)[1..] == ds;
  }

  lemma TwoFirst(lib: Library, ss: Specifier, x: Designator, y: Designator, ds: seq<Designator>)
    ensures var r := Then(lib, Apply(lib, ss, x), y);
      ApplyAll(lib, ss, [x] + ([y] + ds)) == if r.None? then None else ApplyAll(lib, r.value, ds)
  {
    hide Apply, ApplyAll;
    OneFirst(lib, ss, x, [y] + ds);
    var r := Apply(lib, ss, x);
    if r.Some? {
      OneFirst(lib, r.value, y, ds);
    }
  }

  lemma {:induction false} MoveFirst(lib: Library, ss: Specifier, pre: seq<Designator>, x: Designator,
                                     post: seq<Designator>)
    requires forall d | d in pre :: !Clash(lib, d, x)
    ensures ApplyAll(lib, ss, pre + ([x] + post)) == ApplyAll(lib, ss, [x] + (pre + post))
    decreases |pre|
  {
    hide Apply, ApplyAll, Clash;
    if pre == [] {
      assert pre + ([x] + post) == [x] + (pre + post);
    } else {
      var d, rest := pre[0], pre[1..];
      assert d in pre;
      assert pre + ([x] + post) == [d] + (rest + ([x] + post));
      assert pre + post == [d] + (rest + post);
      OneFirst(lib, ss, d, rest + ([x] + post));
      OneFirst(lib, ss, d, [x] + (rest + post));
      var r := Apply(lib, ss, d);
      if r.Some? {
        MoveFirst(lib, r.value, rest, x, post);
      }
      SwapFirst(lib, ss, d, x, rest + post);
    }
  }

  /** The first designator of one list, found in the other. */
  lemma TakeOut<T>(ds: seq<T>, es: seq<T>) returns (pre: seq<T>, post: seq<T>)
    requires ds != [] && multiset(ds) == multiset(es)
    ensures es == pre + ([ds[0]] + post) && multiset(ds[1..]) == multiset(pre + post)
    ensures forall d | d in pre :: d in ds
  {
    var x, rest := ds[0], ds[1..];
    SameMember(ds, es, x);
    var i :| 0 <= i < |es| && es[i] == x;
    pre, post := es[..i], es[i + 1..];
    assert es == pre + ([x] + post);
    assert ds == [x] + rest;
    Remainders(pre, x, post, rest);
    forall d | d in pre ensures d in ds {
      SameMember(ds, es, d);
    }
  }

  lemma SameMember<T>(ds: seq<T>, es: seq<T>, x: T)
    requires multiset(ds) == multiset(es)
    ensures x in ds <==> x in es
  {
    assert x in ds <==> x in multiset(ds);
  }

  lemma Remainders<T>(pre: seq<T>, x: T, post: seq<T>, rest: seq<T>)
    requires multiset([x] + rest) == multiset(pre + ([x] + post))
    ensures multiset(rest) == multiset(pre + post)
  {
    Middle(pre, x, post);
    Middle([], x, rest);
    assert [] + ([x] + rest) == [x] + rest && [] + rest == rest;
  }

  lemma Middle<T>(pre: seq<T>, x: T, post: seq<T>)
    ensures multiset(pre + ([x] + post)) - multiset{x} == multiset(pre + post)
  {
  }

  lemma {:induction false} ApplyPermuted(lib: Library, ss: Specifier, ds: seq<Designator>, es: seq<Designator>)
    requires multiset(ds) == multiset(es) && ClashFree(lib, ds)
    ensures ApplyAll(lib, ss, ds) == ApplyAll(lib, ss, es)
    decreases |ds|
  {
    hide Apply, ApplyAll, Clash;
    if ds == [] {
      assert |multiset(es)| == 0;
      assert es == [];
    } else {
      var x, rest := ds[0], ds[1..];
      var pre, post := TakeOut(ds, es);
      assert ds == [x] + rest && x in ds;
      MoveFirst(lib, ss, pre, x, post);
      OneFirst(lib, ss, x, rest);
      OneFirst(lib, ss, x, pre + post);
      var r := Apply(lib, ss, x);
      if r.Some? {
        assert forall d | d in rest :: d in ds;
        ApplyPermuted(lib, r.value, rest, pre + post);
      }
    }
  }

  /** Designators may be written in any order before any text: the parse is the same, refusals of
      repeated designators included, unless a zero disposition meets a non-zero one. */
  lemma DesignatorsPermute(lib: Library, ds: seq<Designator>, es: seq<Designator>, t: string, allow: bool)
    requires multiset(ds) == multiset(es) && ClashFree(lib, ds)
    requires forall d | d in ds :: Wellformed(d)
    ensures Parse(lib, Initial(), Text(ds, t), allow) == Parse(lib, Initial(), Text(es, t), allow)
  {
    hide ApplyAll, Text, Parse, Wellformed, Clash;
    ApplyPermuted(lib, Initial(), ds, es);
    forall d | d in es ensures Wellformed(d) {
      assert d in multiset(es) && d in multiset(ds);
    }
    DesignatorsParsed(lib, Initial(), ds, t, allow);
    DesignatorsParsed(lib, Initial(), es, t, allow);
  }

  /** For two designators the order matters exactly when they clash. */
  lemma OrderMattersIff(lib: Library, x: Designator, y: Designator)
    requires Wellformed(x) && Wellformed(y)
    ensures Parse(lib, Initial(), Text([x, y], ""), false) != Parse(lib, Initial(), Text([y, x], ""), false)
            <==> Clash(lib, x, y)
  {
    hide Text, Step, Wellformed, Strtol.Parse;
    DesignatorsParsed(lib, Initial(), [x, y], "", false);
    DesignatorsParsed(lib, Initial(), [y, x], "", false);
    TwoFirst(lib, Initial(), x, y, []);
    TwoFirst(lib, Initial(), y, x, []);
    assert [x, y] == [x] + ([y] + []) && [y, x] == [y] + ([x] + []);
    if !Clash(lib, x, y) {
      Commute(lib, Initial(), x, y);
    }
  }
}
