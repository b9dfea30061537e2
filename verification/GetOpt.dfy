/**
 The AT&T getopt: a parser of single-letter options that keeps its place between
 calls in two numbers, the word and the position inside it.
 */
module GetOpt {
  import opened Wrappers

  /** How the option string classes a letter: by its first occurrence, with or without ':'. */
  datatype Kind = Illegal | Flag | Takes

  function IndexOf(opts: string, c: char, i: nat): (r: Option<nat>)
    requires i <= |opts|
    ensures r.Some? ==> r.value < |opts| && opts[r.value] == c
    decreases |opts| - i
  {
    if i == |opts| then None else if opts[i] == c then Some(i) else IndexOf(opts, c, i + 1)
  }

  function KindOf(opts: string, c: char): Kind {
    var cp := IndexOf(opts, c, 0);
    if c == ':' || cp.None? then Illegal
    else if cp.value + 1 < |opts| && opts[cp.value + 1] == ':' then Takes
    else Flag
  }

  /** optind, sp and optarg; optopt is part of every result. */
  datatype State = State(optind: nat, sp: nat, optarg: Option<string>)

  /** The returned letter ('?' for an error), optopt and optarg after the call. */
  datatype Result = Result(ret: char, optopt: char, optarg: Option<string>)

  /** Not an option word: empty, without dash, or a lone dash. */
  predicate Operand(w: string) {
    w == "" || w[0] != '-' || |w| == 1
  }

  /** Inside a word the position is past the first letter and before the end. */
  predicate Valid(argv: seq<string>, s: State) {
    s.sp >= 1 && (s.sp > 1 ==> s.optind < |argv| && s.sp < |argv[s.optind]|)
  }

  /** One call: the new state and the result, None at the end of the options. */
  function Call(argv: seq<string>, opts: string, s: State): (State, Option<Result>)
    requires Valid(argv, s)
  {
    if s.sp == 1 && (s.optind >= |argv| || Operand(argv[s.optind])) then (s, None)
    else if s.sp == 1 && argv[s.optind] == "--" then (s.(optind := s.optind + 1), None)
    else
      var w := argv[s.optind];
      var c := w[s.sp];
      var next := if s.sp + 1 == |w| then s.(optind := s.optind + 1, sp := 1) else s.(sp := s.sp + 1);
      match KindOf(opts, c)
      case Illegal => (next, Some(Result('?', c, s.optarg)))
      case Flag => (next.(optarg := None), Some(Result(c, c, None)))
      case Takes =>
        if s.sp + 1 < |w| then
          (State(s.optind + 1, 1, Some(w[s.sp + 1..])), Some(Result(c, c, Some(w[s.sp + 1..]))))
        else if s.optind + 1 >= |argv| then
          (State(s.optind + 1, 1, s.optarg), Some(Result('?', c, s.optarg)))
        else
          (State(s.optind + 2, 1, Some(argv[s.optind + 1])), Some(Result(c, c, Some(argv[s.optind + 1]))))
  }

  class Scanner {
    const argv: seq<string>
    const opts: string
    var optind: nat
    var sp: nat
    var optopt: char
    var optarg: Option<string>

    ghost function Model(): State
      reads this
    {
      State(optind, sp, optarg)
    }

    constructor (argv: seq<string>, opts: string)
      ensures this.argv == argv && this.opts == opts && Model() == State(1, 1, None) && Valid(argv, Model())
    {
      this.argv, this.opts, optind, sp, optarg := argv, opts, 1, 1, None;
    }

    /** getopt; ret is None for EOF. */
    method GetOpt() returns (ret: Option<char>)
      requires Valid(argv, Model())
      modifies this
      ensures Valid(argv, Model())
      ensures var (s, r) := Call(argv, opts, old(Model()));
        Model() == s && if r.None? then ret.None? && optopt == old(optopt)
                        else ret == Some(r.value.ret) && optopt == r.value.optopt && optarg == r.value.optarg
    {
      if sp == 1 {
        if optind >= |argv| || argv[optind] == "" || argv[optind][0] != '-' || |argv[optind]| == 1 {
          return None;
        } else if argv[optind] == "--" {
          optind := optind + 1;
          return None;
        }
      }
      var c := argv[optind][sp];
      optopt := c;
      var cp := IndexOf(opts, c, 0);
      if c == ':' || cp.None? {
        sp := sp + 1;
        if sp == |argv[optind]| {
          optind, sp := optind + 1, 1;
        }
        return Some('?');
      }
      if cp.value + 1 < |opts| && opts[cp.value + 1] == ':' {
        if sp + 1 < |argv[optind]| {
          optarg := Some(argv[optind][sp + 1..]);
          optind := optind + 1;
        } else {
          optind := optind + 1;
          if optind >= |argv| {
            sp := 1;
            return Some('?');
          }
          optarg := Some(argv[optind]);
          optind := optind + 1;
        }
        sp := 1;
      } else {
        sp := sp + 1;
        if sp == |argv[optind]| {
          optind, sp := optind + 1, 1;
        }
        optarg := None;
      }
      return Some(c);
    }

    /** Calls getopt until it returns EOF: what it delivers and the operands it leaves are those of
        the scan. */
    method GetAll() returns (results: seq<Result>)
      requires Valid(argv, Model())
      modifies this
      ensures Valid(argv, Model()) && Scan(results, Drop(argv, optind)) == ScanOf(argv, opts, old(Model()))
    {
      hide Call, ScanOf;
      results := [];
      ghost var whole := ScanOf(argv, opts, Model());
      Onto0(whole);
      while true
        invariant Valid(argv, Model()) && Onto(results, ScanOf(argv, opts, Model())) == whole
        decreases |argv| - optind, if optind < |argv| then |argv[optind]| + 1 - sp else 0
      {
        ghost var s := Model();
        CallsMakeScan(argv, opts, s);
        CallAdvances(argv, opts, s);
        var ret := GetOpt();
        if ret.None? {
          OntoEnd(results, Drop(argv, optind));
          return;
        }
        ghost var (s', r) := Call(argv, opts, s);
        assert r.value == Result(ret.value, optopt, optarg) && s' == Model();
        OntoNext(results, Result(ret.value, optopt, optarg), ScanOf(argv, opts, Model()));
        results := results + [Result(ret.value, optopt, optarg)];
      }
    }
  }

  /** The scan from a state between two calls. */
  ghost function ScanOf(argv: seq<string>, opts: string, s: State): Scan
    requires Valid(argv, s)
  {
    ScanFrom(opts, Drop(argv, s.optind), s.sp, s.optarg)
  }

  /** Results delivered before those of a scan. */
  ghost function Onto(results: seq<Result>, s: Scan): Scan { Scan(results + s.results, s.operands) }

  lemma Onto0(s: Scan)
    ensures Onto([], s) == s
  {
  }

  lemma OntoNext(results: seq<Result>, r: Result, s: Scan)
    ensures Onto(results, Cons(r, s)) == Onto(results + [r], s)
  {
  }

  lemma OntoEnd(results: seq<Result>, operands: seq<string>)
    ensures Onto(results, Scan([], operands)) == Scan(results, operands)
  {
  }

  /** Every call that returns an option moves on, within bounds. */
  lemma CallAdvances(argv: seq<string>, opts: string, s: State)
    requires Valid(argv, s)
    ensures var (s', r) := Call(argv, opts, s);
      && Valid(argv, s')
      && (r.Some? ==> s.optind < |argv| && s'.optind <= |argv| &&
                      (s'.optind > s.optind || (s'.optind == s.optind && s'.sp == s.sp + 1)))
      && (r.None? ==> s'.optind <= s.optind + 1 && s'.sp == 1)
  {
  }

  // ---------------------------------------------------------------- whole scans

  /** All results of a scan, and the operands that remain. */
  datatype Scan = Scan(results: seq<Result>, operands: seq<string>)

  function Cons(r: Result, s: Scan): Scan { Scan([r] + s.results, s.operands) }

  /** The scan of the words args from position sp of the first one. */
  function ScanFrom(opts: string, args: seq<string>, sp: nat, optarg: Option<string>): Scan
    requires sp >= 1 && (sp > 1 ==> args != [] && sp < |args[0]|)
    decreases |args|, if args == [] then 0 else |args[0]| - sp
  {
    if sp == 1 && (args == [] || Operand(args[0])) then Scan([], args)
    else if sp == 1 && args[0] == "--" then Scan([], args[1..])
    else
      var w := args[0];
      var c := w[sp];
      match KindOf(opts, c)
      case Illegal =>
        Cons(Result('?', c, optarg),
             if sp + 1 == |w| then ScanFrom(opts, args[1..], 1, optarg) else ScanFrom(opts, args, sp + 1, optarg))
      case Flag =>
        Cons(Result(c, c, None),
             if sp + 1 == |w| then ScanFrom(opts, args[1..], 1, None) else ScanFrom(opts, args, sp + 1, None))
      case Takes =>
        if sp + 1 < |w| then
          Cons(Result(c, c, Some(w[sp + 1..])), ScanFrom(opts, args[1..], 1, Some(w[sp + 1..])))
        else if |args| == 1 then
          Cons(Result('?', c, optarg), ScanFrom(opts, [], 1, optarg))
        else
          Cons(Result(c, c, Some(args[1])), ScanFrom(opts, args[2..], 1, Some(args[1])))
  }

  /** One call takes one step of the scan. */
  lemma CallsMakeScan(argv: seq<string>, opts: string, s: State)
    requires Valid(argv, s)
    ensures var (s', r) := Call(argv, opts, s);
      && Valid(argv, s')
      && ScanOf(argv, opts, s) ==
         if r.Some? then Cons(r.value, ScanOf(argv, opts, s')) else Scan([], Drop(argv, s'.optind))
  {
    hide KindOf;
    if s.sp == 1 && (s.optind >= |argv| || Operand(argv[s.optind]) || argv[s.optind] == "--") {
      AtEnd(argv, opts, s);
    } else {
      InWord(argv, opts, s);
    }
  }

  lemma AtEnd(argv: seq<string>, opts: string, s: State)
    requires Valid(argv, s) && s.sp == 1 && (s.optind >= |argv| || Operand(argv[s.optind]) || argv[s.optind] == "--")
    ensures var (s', r) := Call(argv, opts, s);
      r.None? && Valid(argv, s') && ScanOf(argv, opts, s) == Scan([], Drop(argv, s'.optind))
  {
    hide KindOf;
    if s.optind < |argv| {
      var args := Drop(argv, s.optind);
      assert args[0] == argv[s.optind];
      assert args[1..] == Drop(argv, s.optind + 1);
    }
  }

  lemma InWord(argv: seq<string>, opts: string, s: State)
    requires Valid(argv, s) && s.optind < |argv| && (s.sp > 1 || OptionWord(argv[s.optind]))
    ensures var (s', r) := Call(argv, opts, s);
      r.Some? && Valid(argv, s') && ScanOf(argv, opts, s) == Cons(r.value, ScanOf(argv, opts, s'))
  {
    hide KindOf, Call, ScanOf;
    if KindOf(opts, argv[s.optind][s.sp]) == Takes {
      AtArgument(argv, opts, s);
    } else {
      AtFlag(argv, opts, s);
    }
  }

  lemma AtFlag(argv: seq<string>, opts: string, s: State)
    requires Valid(argv, s) && s.optind < |argv| && (s.sp > 1 || OptionWord(argv[s.optind]))
    requires KindOf(opts, argv[s.optind][s.sp]) != Takes
    ensures var (s', r) := Call(argv, opts, s);
      r.Some? && Valid(argv, s') && ScanOf(argv, opts, s) == Cons(r.value, ScanOf(argv, opts, s'))
  {
    hide KindOf;
    var args := Drop(argv, s.optind);
    assert args[0] == argv[s.optind];
    assert args[1..] == Drop(argv, s.optind + 1);
  }

  lemma AtArgument(argv: seq<string>, opts: string, s: State)
    requires Valid(argv, s) && s.optind < |argv| && (s.sp > 1 || OptionWord(argv[s.optind]))
    requires KindOf(opts, argv[s.optind][s.sp]) == Takes
    ensures var (s', r) := Call(argv, opts, s);
      r.Some? && Valid(argv, s') && ScanOf(argv, opts, s) == Cons(r.value, ScanOf(argv, opts, s'))
  {
    hide KindOf;
    var args := Drop(argv, s.optind);
    assert args[0] == argv[s.optind];
    assert args[1..] == Drop(argv, s.optind + 1);
    if |args| > 1 {
      assert args[2..] == Drop(argv, s.optind + 2) && args[1] == argv[s.optind + 1];
    } else {
      assert Drop(argv, s.optind + 1) == [];
    }
  }

  // ---------------------------------------------------------------- clusters and glued arguments

  /** A scan starts reading this word at its first letter. */
  predicate OptionWord(w: string) {
    !Operand(w) && w != "--"
  }

  /** What is left of a word decides the rest of the scan, not how the word began. */
  lemma {:induction false} SameRemainder(opts: string, v: string, i: nat, w: string, j: nat, post: seq<string>,
                                         optarg: Option<string>)
    requires 1 <= i < |v| && 1 <= j < |w| && v[i..] == w[j..]
    requires (i == 1 ==> OptionWord(v)) && (j == 1 ==> OptionWord(w))
    ensures ScanFrom(opts, [v] + post, i, optarg) == ScanFrom(opts, [w] + post, j, optarg)
    decreases |v| - i
  {
    hide KindOf;
    var c := v[i];
    assert w[j] == w[j..][0] == v[i..][0] == c;
    assert |v| - i == |w| - j;
    assert ([v] + post)[1..] == post && ([w] + post)[1..] == post;
    assert v[i + 1..] == v[i..][1..] == w[j..][1..] == w[j + 1..];
    if i + 1 < |v| {
      SameRemainder(opts, v, i + 1, w, j + 1, post, optarg);
      SameRemainder(opts, v, i + 1, w, j + 1, post, None);
    } else if post != [] {
      assert ([v] + post)[2..] == post[1..] && ([w] + post)[2..] == post[1..];
    }
  }

  lemma ClusterSplits(opts: string, a: char, rest: string, post: seq<string>, optarg: Option<string>)
    requires rest != "" && KindOf(opts, a) != Takes && a != '-' && rest != "-"
    ensures ScanFrom(opts, ["-" + [a] + rest] + post, 1, optarg) ==
            ScanFrom(opts, ["-" + [a], "-" + rest] + post, 1, optarg)
  {
    var w, h, t := "-" + [a] + rest, "-" + [a], "-" + rest;
    assert w[2..] == rest && t[1..] == rest && w[1] == a && h[1] == a;
    assert t != "--" by { assert "--"[1..] == "-"; }
    assert h != "--" && w != "--";
    assert ([h, t] + post)[1..] == [t] + post;
    SameRemainder(opts, w, 2, t, 1, post, optarg);
    SameRemainder(opts, w, 2, t, 1, post, None);
  }

  /** Splitting the first letter off a cluster leaves the whole scan unchanged if and only if
      the letter takes no argument and neither half becomes "--". */
  lemma ClusterSplitsIff(opts: string, a: char, rest: string, post: seq<string>, optarg: Option<string>)
    requires rest != ""
    ensures ScanFrom(opts, ["-" + [a] + rest] + post, 1, optarg) ==
            ScanFrom(opts, ["-" + [a], "-" + rest] + post, 1, optarg)
            <==> KindOf(opts, a) != Takes && a != '-' && rest != "-"
  {
    var w, h, t := "-" + [a] + rest, "-" + [a], "-" + rest;
    if KindOf(opts, a) != Takes && a != '-' && rest != "-" {
      ClusterSplits(opts, a, rest, post, optarg);
    } else if a == '-' {
      // the first half is "--" and ends the scan at once
      assert h == "--" && w[1] == a && w != "--";
      FirstResult(opts, w, post, optarg);
    } else {
      assert w[1] == a && h[1] == a && w != "--" && h != "--";
      var whole := ScanFrom(opts, [w] + post, 1, optarg);
      var split := ScanFrom(opts, [h, t] + post, 1, optarg);
      assert ([h, t] + post)[0] == h && ([h, t] + post)[1] == t && ([h, t] + post)[1..] == [t] + post;
      if KindOf(opts, a) == Takes {
        assert w[2..] == rest;
        assert rest != t;
        assert whole.results[0].optarg == Some(rest) && split.results[0].optarg == Some(t);
      } else {
        DashTail(opts, a, post, optarg);
      }
    }
  }

  /** A trailing dash is one more letter inside a cluster, but ends the scan as a word of its own. */
  lemma DashTail(opts: string, a: char, post: seq<string>, optarg: Option<string>)
    requires KindOf(opts, a) != Takes && a != '-'
    ensures |ScanFrom(opts, ["-" + [a] + "-"] + post, 1, optarg).results| >= 2
    ensures |ScanFrom(opts, ["-" + [a], "--"] + post, 1, optarg).results| == 1
  {
    hide KindOf;
    var w, h := "-" + [a] + "-", "-" + [a];
    assert w[1] == a && |w| == 3 && w != "--" && h[1] == a && h != "--";
    assert ([w] + post)[0] == w && ([h, "--"] + post)[0] == h;
    assert ([h, "--"] + post)[1..] == ["--"] + post;
    assert ScanFrom(opts, ["--"] + post, 1, optarg).results == [] &&
        ScanFrom(opts, ["--"] + post, 1, None).results == [];
    assert ScanFrom(opts, [w] + post, 2, optarg).results != [] && ScanFrom(opts, [w] + post, 2, None).results != [];
  }

  lemma FirstResult(opts: string, w: string, post: seq<string>, optarg: Option<string>)
    requires OptionWord(w)
    ensures ScanFrom(opts, [w] + post, 1, optarg).results != []
  {
  }

  /** Detaching a glued, non-empty argument leaves the whole scan unchanged if and only if the
      option letter is not '-'. */
  lemma ArgumentDetaches(opts: string, o: char, arg: string, post: seq<string>, optarg: Option<string>)
    requires KindOf(opts, o) == Takes && arg != ""
    ensures ScanFrom(opts, ["-" + [o] + arg] + post, 1, optarg) == ScanFrom(opts, ["-" + [o], arg] + post, 1, optarg)
            <==> o != '-'
  {
    var w, h := "-" + [o] + arg, "-" + [o];
    assert w[1] == o && h[1] == o && w[2..] == arg && w != "--";
    assert ([w] + post)[1..] == post && ([h, arg] + post)[2..] == post && ([h, arg] + post)[1] == arg;
    if o == '-' {
      assert h == "--";
      FirstResult(opts, w, post, optarg);
    } else {
      assert h != "--";
    }
  }

  /** One word per flag. */
  function Exploded(flags: string): seq<string> {
    if flags == "" then [] else ["-" + flags[..1]] + Exploded(flags[1..])
  }

  /** Splitting a whole cluster into single-letter words leaves the scan unchanged: every
      option, argument and error, in order, and the remaining operands. */
  lemma {:induction false} ClusterExplodes(opts: string, flags: string, tail: string, post: seq<string>,
                                           optarg: Option<string>)
    requires forall i | 0 <= i < |flags| :: KindOf(opts, flags[i]) != Takes && flags[i] != '-'
    requires tail != "" && tail != "-"
    ensures ScanFrom(opts, ["-" + flags + tail] + post, 1, optarg) ==
            ScanFrom(opts, Exploded(flags) + (["-" + tail] + post), 1, optarg)
    decreases |flags|
  {
    hide ScanFrom, KindOf;
    if flags == "" {
      assert "-" + flags + tail == "-" + tail;
      assert Exploded(flags) + (["-" + tail] + post) == ["-" + tail] + post;
    } else {
      var a, rest := flags[0], flags[1..] + tail;
      assert "-" + flags + tail == "-" + [a] + rest;
      assert rest != "-" by {
        if |flags| > 1 {
          assert rest[0] == flags[1];
        } else {
          assert rest == tail;
        }
      }
      ClusterSplits(opts, a, rest, post, optarg);
      assert flags[..1] == [a];
      var words := Exploded(flags[1..]) + (["-" + tail] + post);
      assert Exploded(flags) + (["-" + tail] + post) == ["-" + [a]] + words;
      assert ["-" + [a], "-" + rest] + post == ["-" + [a]] + (["-" + rest] + post);
      assert "-" + flags[1..] + tail == "-" + rest;
      SingleFlag(opts, a, ["-" + rest] + post, words, optarg);
      ClusterExplodes(opts, flags[1..], tail, post, optarg);
      ClusterExplodes(opts, flags[1..], tail, post, None);
    }
  }

  /** After a single-letter word the scan depends only on the words that follow. */
  lemma SingleFlag(opts: string, a: char, x: seq<string>, y: seq<string>, optarg: Option<string>)
    requires KindOf(opts, a) != Takes && a != '-'
    ensures ScanFrom(opts, x, 1, optarg) == ScanFrom(opts, y, 1, optarg) &&
            ScanFrom(opts, x, 1, None) == ScanFrom(opts, y, 1, None) ==>
            ScanFrom(opts, ["-" + [a]] + x, 1, optarg) == ScanFrom(opts, ["-" + [a]] + y, 1, optarg)
  {
    var h := "-" + [a];
    assert h[1] == a && h != "--";
    assert ([h] + x)[1..] == x && ([h] + y)[1..] == y;
  }

  // ---------------------------------------------------------------- in the middle of a command line

  /** The word's last letter takes its argument from the next word. */
  predicate NeedsNext(opts: string, w: string, i: nat)
    requires 1 <= i < |w|
    decreases |w| - i
  {
    if KindOf(opts, w[i]) == Takes then i + 1 == |w|
    else i + 1 < |w| && NeedsNext(opts, w, i + 1)
  }

  /** A scan reads exactly these words and then goes on at a word boundary. */
  predicate Boundary(opts: string, pre: seq<string>)
    decreases |pre|
  {
    pre == [] ||
    (OptionWord(pre[0]) &&
     if NeedsNext(opts, pre[0], 1) then |pre| > 1 && Boundary(opts, pre[2..]) else Boundary(opts, pre[1..]))
  }

  /** Words that scan alike, whatever optarg holds, scan alike after any words that end at a
      boundary: the rewritings above may be made anywhere among the options. */
  lemma {:induction false} RewriteAnywhere(opts: string, pre: seq<string>, x: seq<string>, y: seq<string>,
                                           optarg: Option<string>)
    requires Boundary(opts, pre)
    requires forall a :: ScanFrom(opts, x, 1, a) == ScanFrom(opts, y, 1, a)
    ensures ScanFrom(opts, pre + x, 1, optarg) == ScanFrom(opts, pre + y, 1, optarg)
    decreases |pre|
  {
    if pre == [] {
      assert pre + x == x && pre + y == y;
    } else {
      forall a ensures ScanFrom(opts, pre[1..] + x, 1, a) == ScanFrom(opts, pre[1..] + y, 1, a) ||
          NeedsNext(opts, pre[0], 1) {
        if !NeedsNext(opts, pre[0], 1) {
          RewriteAnywhere(opts, pre[1..], x, y, a);
        }
      }
      forall a ensures |pre| > 1 && NeedsNext(opts, pre[0], 1) ==>
                       ScanFrom(opts, pre[2..] + x, 1, a) == ScanFrom(opts, pre[2..] + y, 1, a) {
        if NeedsNext(opts, pre[0], 1) {
          RewriteAnywhere(opts, pre[2..], x, y, a);
        }
      }
      assert pre + x == [pre[0]] + (pre[1..] + x) && pre + y == [pre[0]] + (pre[1..] + y);
      InsideWord(opts, pre[0], 1, pre[1..], x, y, optarg);
    }
  }

  lemma {:induction false} InsideWord(opts: string, w: string, i: nat, pre: seq<string>, x: seq<string>, y: seq<string>,
                                      optarg: Option<string>)
    requires 1 <= i < |w| && (i == 1 ==> OptionWord(w))
    requires NeedsNext(opts, w, i) ==>
      pre != [] && forall a :: ScanFrom(opts, pre[1..] + x, 1, a) == ScanFrom(opts, pre[1..] + y, 1, a)
    requires !NeedsNext(opts, w, i) ==> forall a :: ScanFrom(opts, pre + x, 1, a) == ScanFrom(opts, pre + y, 1, a)
    ensures ScanFrom(opts, [w] + (pre + x), i, optarg) == ScanFrom(opts, [w] + (pre + y), i, optarg)
    decreases |w| - i
  {
    hide KindOf;
    assert ([w] + (pre + x))[1..] == pre + x && ([w] + (pre + y))[1..] == pre + y;
    if KindOf(opts, w[i]) == Takes {
      if i + 1 == |w| {
        assert ([w] + (pre + x))[2..] == pre[1..] + x && ([w] + (pre + y))[2..] == pre[1..] + y;
        assert ([w] + (pre + x))[1] == pre[0] == ([w] + (pre + y))[1];
      }
    } else if i + 1 < |w| {
      InsideWord(opts, w, i + 1, pre, x, y, optarg);
      InsideWord(opts, w, i + 1, pre, x, y, None);
    }
  }

  // ---------------------------------------------------------------- the option string

  lemma {:induction false} FirstIndex(p: string, c: char, q: string, i: nat)
    requires c !in p && i <= |p|
    ensures IndexOf(p + [c] + q, c, i) == Some(|p|)
    decreases |p| - i
  {
    var opts := p + [c] + q;
    if i < |p| {
      assert opts[i] == p[i] && p[i] in p;
      FirstIndex(p, c, q, i + 1);
    } else {
      assert opts[i] == c;
    }
  }

  lemma {:induction false} NoIndex(opts: string, c: char, i: nat)
    requires c !in opts && i <= |opts|
    ensures IndexOf(opts, c, i) == None
    decreases |opts| - i
  {
    if i < |opts| {
      NoIndex(opts, c, i + 1);
    }
  }

  /** A letter that is in the option string, first behind p and before q, takes an argument if and only if q begins
      with a colon; one that is not there is illegal, and so is the colon. */
  lemma KindWritten(p: string, c: char, q: string)
    requires c !in p && c != ':'
    ensures KindOf(p + [c] + q, c) == if q != "" && q[0] == ':' then Takes else Flag
    ensures KindOf(p, c) == Illegal && KindOf(p + [c] + q, ':') == Illegal
  {
    FirstIndex(p, c, q, 0);
    NoIndex(p, c, 0);
    assert q != "" ==> (p + [c] + q)[|p| + 1] == q[0];
  }
}
