/**
 Printing structured command lines back to arguments: what the splitter makes of
 the printed arguments is the structure that was printed.
 */
module CommandLinePrinter {
  import opened Wrappers
  import opened CommandLine

  /** The options recorded under a table row take an argument, those recorded by "no" do not. */
  predicate TakesArg(cfg: Config, o: Opt) {
    Find(cfg.options, o.key) == Some(o.def) && o.def < |cfg.options| &&
    (cfg.options[o.def].exit || HasArg(cfg.options[o.def]))
  }

  function PrintOpt(cfg: Config, o: Opt): seq<string> {
    ["-" + o.key] + if TakesArg(cfg, o) && o.val.Some? then [o.val.value] else []
  }

  function PrintOpts(cfg: Config, os: seq<Opt>): seq<string> {
    if os == [] then [] else PrintOpt(cfg, os[0]) + PrintOpts(cfg, os[1..])
  }

  function PrintLibrary(ls: seq<(string, string)>): seq<string> {
    if ls == [] then [] else ["-" + ls[0].0, ls[0].1] + PrintLibrary(ls[1..])
  }

  /** Groups of the first type are closed by a plain argument, guarded if it looks like an
      option; the others by their separator. */
  function PrintTerminator(cfg: Config, g: nat, arg: string): seq<string> {
    if g == 0 && arg != "--" then (if Plain(arg) then [arg] else ["--", arg])
    else if g < |cfg.separators| && cfg.separators[g].Some? then ["-" + cfg.separators[g].value, arg]
    else []
  }

  function PrintGroup(cfg: Config, g: Group): seq<string> {
    PrintOpts(cfg, g.opts) + PrintLibrary(g.library) + PrintTerminator(cfg, g.group, g.arg)
  }

  function PrintGroups(cfg: Config, gs: seq<Group>): seq<string> {
    if gs == [] then [] else PrintGroup(cfg, gs[0]) + PrintGroups(cfg, gs[1..])
  }

  /** The last option is an exiting one that found no word left for its argument. */
  predicate EndsBare(os: seq<Opt>) {
    os != [] && os[|os| - 1].val.None?
  }

  /** Everything a command line holds: global options, closed groups, and what follows the last of
      them. An option without argument has to come last. */
  function Print(cfg: Config, c: Context): seq<string> {
    var groups := PrintGroups(cfg, c.closed);
    var tail := PrintLibrary(c.library) + PrintOpts(cfg, c.opts);
    if EndsBare(c.globals) then groups + (tail + PrintOpts(cfg, c.globals))
    else PrintOpts(cfg, c.globals) + (groups + tail)
  }

  // ---------------------------------------------------------------- what can be printed

  /** "-" and the name is read as an option, not as a plain argument, a guard or a separator. */
  predicate OptionName(cfg: Config, key: string) {
    key != "" && key != "-" && Separator(cfg, key).None?
  }

  /** The libraries know nothing of this name. */
  ghost predicate Foreign(cfg: Config, key: string) {
    forall arg :: cfg.avOption(key, arg) == NotFound
  }

  ghost predicate PrintableOpt(cfg: Config, o: Opt) {
    && OptionName(cfg, o.key) && o.def < |cfg.options|
    && if Find(cfg.options, o.key).Some? then
         Find(cfg.options, o.key).value == o.def && if TakesArg(cfg, o) then o.val.Some? else o.val == Some("1")
       else
         && Negated(o.key) && Find(cfg.options, o.key[2..]) == Some(o.def) && cfg.options[o.def].kind.Bool?
         && o.val == Some("0") && Foreign(cfg, o.key)
  }

  /** An exiting option without argument. */
  predicate BareOpt(cfg: Config, o: Opt) {
    && OptionName(cfg, o.key) && Find(cfg.options, o.key) == Some(o.def)
    && o.def < |cfg.options| && cfg.options[o.def].exit && o.val.None?
  }

  /** Printable, and recorded per file or globally. */
  ghost predicate PrintableAs(cfg: Config, o: Opt, perFile: bool) {
    PrintableOpt(cfg, o) && o.def < |cfg.options| && cfg.options[o.def].perFile == perFile
  }

  predicate PrintableLibrary(cfg: Config, l: (string, string)) {
    OptionName(cfg, l.0) && Find(cfg.options, l.0).None? && cfg.avOption(l.0, l.1) == Accepted
  }

  predicate PrintableTerminator(cfg: Config, g: nat, arg: string) {
    (g == 0 && arg != "--") ||
    (g < |cfg.separators| && cfg.separators[g].Some? &&
     var s := cfg.separators[g].value; s != "" && s != "-" && Separator(cfg, s) == Some(g))
  }

  ghost predicate PrintableGroup(cfg: Config, g: Group) {
    && (forall i | 0 <= i < |g.opts| :: PrintableAs(cfg, g.opts[i], true))
    && (forall i | 0 <= i < |g.library| :: PrintableLibrary(cfg, g.library[i]))
    && PrintableTerminator(cfg, g.group, g.arg)
  }

  /** Options that may be printed at the end of the line: the last one may be bare. */
  ghost predicate PrintableTail(cfg: Config, os: seq<Opt>, perFile: bool) {
    forall i | 0 <= i < |os| ::
      if os[i].val.Some? then PrintableAs(cfg, os[i], perFile)
      else
        && i == |os| - 1 && BareOpt(cfg, os[i])
        && os[i].def < |cfg.options| && cfg.options[os[i].def].perFile == perFile
  }

  ghost predicate PrintableContext(cfg: Config, c: Context) {
    && PrintableTail(cfg, c.globals, false) && PrintableTail(cfg, c.opts, true)
    && !(EndsBare(c.globals) && EndsBare(c.opts))
    && (forall i | 0 <= i < |c.library| :: PrintableLibrary(cfg, c.library[i]))
    && (forall i | 0 <= i < |c.closed| :: PrintableGroup(cfg, c.closed[i]))
  }

  // ---------------------------------------------------------------- parsing into a context

  /** What the splitter leaves in the context c after the arguments args. */
  function Parse(cfg: Config, c: Context, args: seq<string>, guarded: bool): Result<Context, Error>
    decreases |args|
  {
    if args == [] then Ok(c)
    else
      match Read(cfg, args, guarded)
      case Guard => Parse(cfg, c, Drop(args, 1), true)
      case Emit(act, used) => Parse(cfg, Apply(cfg, c, act), Drop(args, used), false)
      case Reject(e) => Err(e)
  }

  lemma {:induction false} ParseIsSplit(cfg: Config, c: Context, args: seq<string>, pos: nat, guarded: bool)
    ensures Parse(cfg, c, args, guarded) ==
      (var r := Split(cfg, args, pos, guarded); if r.Ok? then Ok(Build(cfg, c, r.value)) else Err(r.error))
    decreases |args|
  {
    hide ReadOption;
    if args != [] {
      var r := Read(cfg, args, guarded);
      if r.Guard? {
        ParseIsSplit(cfg, c, Drop(args, 1), pos + 1, true);
      } else if r.Emit? {
        ParseIsSplit(cfg, Apply(cfg, c, r.act), Drop(args, r.used), pos + r.used, false);
        var rest := Split(cfg, Drop(args, r.used), pos + r.used, false);
        if rest.Ok? {
          assert ([Event(pos, r.act)] + rest.value)[1..] == rest.value;
        }
      }
    }
  }

  // ---------------------------------------------------------------- one printed item at a time

  lemma DashName(cfg: Config, key: string)
    requires OptionName(cfg, key)
    ensures !Plain("-" + key) && "-" + key != "--" && ("-" + key)[1..] == key
  {
    DashWord(key);
  }

  lemma ReadPrintedOpt(cfg: Config, o: Opt, rest: seq<string>)
    requires PrintableOpt(cfg, o)
    ensures var printed := PrintOpt(cfg, o); Read(cfg, printed + rest, false) == Emit(Record(o), |printed|)
  {
    DashName(cfg, o.key);
    var args := PrintOpt(cfg, o) + rest;
    assert args[0] == "-" + o.key;
    assert args[1..] == if TakesArg(cfg, o) then [o.val.value] + rest else rest;
  }

  lemma DropPrefix(a: seq<string>, b: seq<string>)
    ensures Drop(a + b, |a|) == b
  {
  }

  lemma ParsePrintedOpt(cfg: Config, c: Context, o: Opt, rest: seq<string>)
    requires PrintableOpt(cfg, o)
    ensures Parse(cfg, c, PrintOpt(cfg, o) + rest, false) == Parse(cfg, Apply(cfg, c, Record(o)), rest, false)
  {
    ReadPrintedOpt(cfg, o, rest);
    DropPrefix(PrintOpt(cfg, o), rest);
    hide Read;
  }

  lemma ParsePrintedLibrary(cfg: Config, c: Context, l: (string, string), rest: seq<string>)
    requires PrintableLibrary(cfg, l)
    ensures Parse(cfg, c, ["-" + l.0, l.1] + rest, false) == Parse(cfg, Apply(cfg, c, Library(l.0, l.1)), rest, false)
  {
    DashName(cfg, l.0);
    var args := ["-" + l.0, l.1] + rest;
    assert args[1..] == [l.1] + rest;
    DropPrefix(["-" + l.0, l.1], rest);
  }

  lemma ParsePrintedTerminator(cfg: Config, c: Context, g: nat, arg: string, rest: seq<string>)
    requires PrintableTerminator(cfg, g, arg)
    ensures Parse(cfg, c, PrintTerminator(cfg, g, arg) + rest, false) ==
            Parse(cfg, Apply(cfg, c, Finish(g, arg)), rest, false)
  {
    hide Find, Apply;
    var args := PrintTerminator(cfg, g, arg) + rest;
    if g == 0 && arg != "--" {
      if Plain(arg) {
        DropPrefix([arg], rest);
      } else {
        assert Drop(args, 1) == [arg] + rest;
        DropPrefix([arg], rest);
        assert Read(cfg, [arg] + rest, true) == Emit(Finish(0, arg), 1);
      }
    } else {
      var s := cfg.separators[g].value;
      DashWord(s);
      assert args[1..] == [arg] + rest;
      DropPrefix(["-" + s, arg], rest);
    }
  }

  // ---------------------------------------------------------------- whole lines

  lemma {:induction false} ParsePrintedOpts(cfg: Config, c: Context, os: seq<Opt>, perFile: bool, rest: seq<string>)
    requires forall i | 0 <= i < |os| :: PrintableAs(cfg, os[i], perFile)
    ensures Parse(cfg, c, PrintOpts(cfg, os) + rest, false) ==
            Parse(cfg, if perFile then c.(opts := c.opts + os) else c.(globals := c.globals + os), rest, false)
    decreases |os|
  {
    hide Parse, PrintOpt, PrintableOpt;
    if os == [] {
      assert [] + rest == rest && c.opts + [] == c.opts && c.globals + [] == c.globals;
    } else {
      var tail := PrintOpts(cfg, os[1..]) + rest;
      assert PrintOpts(cfg, os) + rest == PrintOpt(cfg, os[0]) + tail;
      ParsePrintedOpt(cfg, c, os[0], tail);
      assert c.opts + os == (c.opts + [os[0]]) + os[1..];
      assert c.globals + os == (c.globals + [os[0]]) + os[1..];
      ParsePrintedOpts(cfg, Apply(cfg, c, Record(os[0])), os[1..], perFile, rest);
    }
  }

  lemma PrintLibraryNext(ls: seq<(string, string)>, rest: seq<string>)
    requires ls != []
    ensures PrintLibrary(ls) + rest == ["-" + ls[0].0, ls[0].1] + (PrintLibrary(ls[1..]) + rest)
  {
  }

  lemma ParseNextLibrary(cfg: Config, c: Context, l: (string, string), rest: seq<string>)
    requires PrintableLibrary(cfg, l)
    ensures Parse(cfg, c, ["-" + l.0, l.1] + rest, false) == Parse(cfg, c.(library := c.library + [l]), rest, false)
  {
    hide Parse, PrintableLibrary;
    ParsePrintedLibrary(cfg, c, l, rest);
    assert (l.0, l.1) == l;
  }

  ghost predicate PrintableLibraries(cfg: Config, ls: seq<(string, string)>) {
    forall i | 0 <= i < |ls| :: PrintableLibrary(cfg, ls[i])
  }

  lemma LibrariesRest(cfg: Config, ls: seq<(string, string)>)
    requires PrintableLibraries(cfg, ls) && ls != []
    ensures PrintableLibrary(cfg, ls[0]) && PrintableLibraries(cfg, ls[1..])
  {
    hide PrintableLibrary;
  }

  lemma NoLibraries(cfg: Config, c: Context, rest: seq<string>)
    ensures Parse(cfg, c, PrintLibrary([]) + rest, false) == Parse(cfg, c.(library := c.library + []), rest, false)
  {
    hide Parse;
    assert [] + rest == rest && c.library + [] == c.library;
  }

  lemma Prepended<T>(a: seq<T>, b: seq<T>)
    requires b != []
    ensures a + b == (a + [b[0]]) + b[1..]
  {
  }

  lemma {:induction false} ParsePrintedLibraries(cfg: Config, c: Context, ls: seq<(string, string)>, rest: seq<string>)
    requires PrintableLibraries(cfg, ls)
    ensures Parse(cfg, c, PrintLibrary(ls) + rest, false) ==
            Parse(cfg, c.(library := c.library + ls), rest, false)
    decreases |ls|
  {
    hide *;
    if ls == [] {
      NoLibraries(cfg, c, rest);
    } else {
      var c1 := c.(library := c.library + [ls[0]]);
      LibrariesRest(cfg, ls);
      PrintLibraryNext(ls, rest);
      ParseNextLibrary(cfg, c, ls[0], PrintLibrary(ls[1..]) + rest);
      ParsePrintedLibraries(cfg, c1, ls[1..], rest);
      Prepended(c.library, ls);
    }
  }

  lemma ParsePrintedGroup(cfg: Config, c: Context, g: Group, rest: seq<string>)
    requires PrintableGroup(cfg, g) && c.opts == [] && c.library == []
    ensures Parse(cfg, c, PrintGroup(cfg, g) + rest, false) ==
            Parse(cfg, c.(closed := c.closed + [g]), rest, false)
  {
    hide Read, PrintOpts, PrintLibrary, PrintTerminator, PrintableAs, PrintableLibrary, PrintableTerminator, Parse;
    var t := PrintTerminator(cfg, g.group, g.arg) + rest;
    var l := PrintLibrary(g.library) + t;
    assert PrintGroup(cfg, g) + rest == PrintOpts(cfg, g.opts) + l;
    assert [] + g.opts == g.opts && [] + g.library == g.library;
    var c1 := c.(opts := g.opts);
    var c2 := c1.(library := g.library);
    ParsePrintedOpts(cfg, c, g.opts, true, l);
    ParsePrintedLibraries(cfg, c1, g.library, t);
    ParsePrintedTerminator(cfg, c2, g.group, g.arg, rest);
    assert Apply(cfg, c2, Finish(g.group, g.arg)) == c.(closed := c.closed + [g]);
  }

  lemma ParseNothing(cfg: Config, c: Context)
    ensures Parse(cfg, c, [], false) == Ok(c)
  {
  }

  lemma {:induction false} ParsePrintedGroups(cfg: Config, c: Context, gs: seq<Group>, rest: seq<string>)
    requires (forall i | 0 <= i < |gs| :: PrintableGroup(cfg, gs[i])) && c.opts == [] && c.library == []
    ensures Parse(cfg, c, PrintGroups(cfg, gs) + rest, false) == Parse(cfg, c.(closed := c.closed + gs), rest, false)
    decreases |gs|
  {
    hide Parse, PrintGroup, PrintableGroup;
    if gs == [] {
      assert [] + rest == rest && c.closed + [] == c.closed;
    } else {
      var tail := PrintGroups(cfg, gs[1..]) + rest;
      assert PrintGroups(cfg, gs) + rest == PrintGroup(cfg, gs[0]) + tail;
      ParsePrintedGroup(cfg, c, gs[0], tail);
      ParsePrintedGroups(cfg, c.(closed := c.closed + [gs[0]]), gs[1..], rest);
      assert c.closed + gs == (c.closed + [gs[0]]) + gs[1..];
    }
  }

  function Added(c: Context, os: seq<Opt>, perFile: bool): Context {
    if perFile then c.(opts := c.opts + os) else c.(globals := c.globals + os)
  }

  lemma {:induction false} PrintOptsAppend(cfg: Config, os: seq<Opt>, o: Opt)
    ensures PrintOpts(cfg, os + [o]) == PrintOpts(cfg, os) + PrintOpt(cfg, o)
    decreases |os|
  {
    hide PrintOpt;
    if os == [] {
      assert os + [o] == [o] && [o][1..] == [];
    } else {
      assert (os + [o])[1..] == os[1..] + [o];
      PrintOptsAppend(cfg, os[1..], o);
    }
  }

  /** A bare option is recovered at the end of the line. */
  lemma ParsePrintedBare(cfg: Config, c: Context, o: Opt)
    requires BareOpt(cfg, o)
    ensures Parse(cfg, c, PrintOpt(cfg, o), false) == Ok(Apply(cfg, c, Record(o)))
  {
    hide Find, Apply;
    var args := ["-" + o.key];
    assert PrintOpt(cfg, o) == args;
    DashName(cfg, o.key);
    assert args[1..] == [] && Drop(args, 2) == [];
    assert Read(cfg, args, false) == Emit(Record(o), 2);
  }

  lemma ParsePrintedTail(cfg: Config, c: Context, os: seq<Opt>, perFile: bool)
    requires PrintableTail(cfg, os, perFile)
    ensures Parse(cfg, c, PrintOpts(cfg, os), false) == Ok(Added(c, os, perFile))
  {
    hide Parse, PrintOpt, PrintOpts, PrintableOpt, BareOpt;
    if EndsBare(os) {
      var front, o := os[..|os| - 1], os[|os| - 1];
      assert os == front + [o];
      PrintOptsAppend(cfg, front, o);
      ParsePrintedOpts(cfg, c, front, perFile, PrintOpt(cfg, o));
      ParsePrintedBare(cfg, Added(c, front, perFile), o);
      assert c.opts + os == (c.opts + front) + [o] && c.globals + os == (c.globals + front) + [o];
    } else {
      ParsePrintedOpts(cfg, c, os, perFile, []);
      assert PrintOpts(cfg, os) + [] == PrintOpts(cfg, os);
      ParseNothing(cfg, Added(c, os, perFile));
    }
  }

  lemma ParsePrintedBefore(cfg: Config, c: Context, os: seq<Opt>, perFile: bool, rest: seq<string>)
    requires PrintableTail(cfg, os, perFile) && !EndsBare(os)
    ensures Parse(cfg, c, PrintOpts(cfg, os) + rest, false) == Parse(cfg, Added(c, os, perFile), rest, false)
  {
    hide Parse, PrintOpts, PrintableOpt, BareOpt;
    ParsePrintedOpts(cfg, c, os, perFile, rest);
  }

  /** Splitting a printed command line gives back what was printed: every option is in the group
      closed by the next terminator, in order, and what follows the last one is left over. */
  lemma PrintedLineIsRecovered(cfg: Config, c: Context, pos: nat)
    requires PrintableContext(cfg, c)
    ensures var r := Split(cfg, Print(cfg, c), pos, false);
      r.Ok? && Build(cfg, Nothing(), r.value) == c
  {
    ParseIsSplit(cfg, Nothing(), Print(cfg, c), pos, false);
    hide Split, Build;
    if EndsBare(c.globals) {
      GlobalsLast(cfg, c);
    } else {
      GlobalsFirst(cfg, c);
    }
  }

  lemma GlobalsFirst(cfg: Config, c: Context)
    requires PrintableContext(cfg, c) && !EndsBare(c.globals)
    ensures Parse(cfg, Nothing(), Print(cfg, c), false) == Ok(c)
  {
    hide Parse, PrintOpts, PrintGroups, PrintLibrary, PrintableTail, PrintableGroup, PrintableLibrary;
    var opts := PrintOpts(cfg, c.opts);
    var tail := PrintLibrary(c.library) + opts;
    ParsePrintedBefore(cfg, Nothing(), c.globals, false, PrintGroups(cfg, c.closed) + tail);
    var c1 := Context(c.globals, [], [], []);
    assert [] + c.globals == c.globals;
    ParsePrintedGroups(cfg, c1, c.closed, tail);
    var c2 := Context(c.globals, c.closed, [], []);
    assert [] + c.closed == c.closed;
    ParsePrintedLibraries(cfg, c2, c.library, opts);
    assert [] + c.library == c.library;
    ParsePrintedTail(cfg, Context(c.globals, c.closed, [], c.library), c.opts, true);
    assert [] + c.opts == c.opts;
  }

  lemma GlobalsLast(cfg: Config, c: Context)
    requires PrintableContext(cfg, c) && EndsBare(c.globals)
    ensures Parse(cfg, Nothing(), Print(cfg, c), false) == Ok(c)
  {
    hide Parse, PrintOpts, PrintGroups, PrintLibrary, PrintableTail, PrintableGroup, PrintableLibrary;
    var globals := PrintOpts(cfg, c.globals);
    var opts := PrintOpts(cfg, c.opts) + globals;
    var tail := PrintLibrary(c.library) + opts;
    assert Print(cfg, c) == PrintGroups(cfg, c.closed) + tail;
    ParsePrintedGroups(cfg, Nothing(), c.closed, tail);
    assert [] + c.closed == c.closed && [] + c.library == c.library && [] + c.opts == c.opts &&
        [] + c.globals == c.globals;
    ParsePrintedLibraries(cfg, Context([], c.closed, [], []), c.library, opts);
    ParsePrintedBefore(cfg, Context([], c.closed, [], c.library), c.opts, true, globals);
    ParsePrintedTail(cfg, Context([], c.closed, c.opts, c.library), c.globals, false);
  }

  // ---------------------------------------------------------------- everything split can be printed

  /** A name that negates a table option means nothing to the libraries. */
  ghost predicate NegationsAreForeign(cfg: Config) {
    forall name | Negated(name) && Find(cfg.options, name[2..]).Some? :: Foreign(cfg, name)
  }

  ghost predicate PrintableAction(cfg: Config, act: Action) {
    match act
    case Record(o) => o.def < |cfg.options| && if o.val.Some? then PrintableOpt(cfg, o) else BareOpt(cfg, o)
    case Library(key, arg) => PrintableLibrary(cfg, (key, arg))
    case Finish(g, arg) => PrintableTerminator(cfg, g, arg)
  }

  predicate IsBare(act: Action) {
    act.Record? && act.opt.val.None?
  }

  lemma ReadOptionIsPrintable(cfg: Config, name: string, rest: seq<string>)
    requires NegationsAreForeign(cfg) && name != "" && name != "-" && ReadOption(cfg, name, rest).Emit?
    ensures PrintableAction(cfg, ReadOption(cfg, name, rest).act)
    ensures IsBare(ReadOption(cfg, name, rest).act) ==> rest == [] && ReadOption(cfg, name, rest).used == 2
  {
  }

  lemma ReadIsPrintable(cfg: Config, args: seq<string>, guarded: bool)
    requires NegationsAreForeign(cfg) && args != [] && Read(cfg, args, guarded).Emit?
    ensures PrintableAction(cfg, Read(cfg, args, guarded).act)
    ensures IsBare(Read(cfg, args, guarded).act) ==> Drop(args, Read(cfg, args, guarded).used) == []
  {
    if !Plain(args[0]) && !guarded {
      var name := args[0][1..];
      assert args[0] == "-" + name;
      assert name != "" && name != "-";
      ReadOptionIsPrintable(cfg, name, args[1..]);
    }
  }

  /** Printable and without a bare option so far. */
  ghost predicate Unfinished(cfg: Config, c: Context) {
    PrintableContext(cfg, c) && !EndsBare(c.globals) && !EndsBare(c.opts)
  }

  lemma ApplyKeepsPrintable(cfg: Config, c: Context, act: Action)
    requires Unfinished(cfg, c) && PrintableAction(cfg, act)
    ensures if IsBare(act) then PrintableContext(cfg, Apply(cfg, c, act)) else Unfinished(cfg, Apply(cfg, c, act))
  {
    hide PrintableOpt, PrintableLibrary, PrintableTerminator, BareOpt, PrintableTail;
    if act.Record? {
      var perFile := cfg.options[act.opt.def].perFile;
      TailGrows(cfg, if perFile then c.opts else c.globals, act.opt);
    } else if act.Finish? {
      TailCloses(cfg, c.opts);
    }
  }

  lemma TailGrows(cfg: Config, os: seq<Opt>, o: Opt)
    requires o.def < |cfg.options| && PrintableTail(cfg, os, cfg.options[o.def].perFile) && !EndsBare(os)
    requires PrintableAction(cfg, Record(o))
    ensures PrintableTail(cfg, os + [o], cfg.options[o.def].perFile) && EndsBare(os + [o]) == o.val.None?
  {
    hide PrintableOpt, BareOpt;
  }

  /** Without a bare option the options may be printed anywhere. */
  lemma TailCloses(cfg: Config, os: seq<Opt>)
    requires PrintableTail(cfg, os, true) && !EndsBare(os)
    ensures (forall i | 0 <= i < |os| :: PrintableAs(cfg, os[i], true)) && PrintableTail(cfg, [], true)
  {
    hide PrintableOpt, BareOpt;
  }

  lemma {:induction false} ParseKeepsPrintable(cfg: Config, c: Context, args: seq<string>, guarded: bool)
    requires NegationsAreForeign(cfg) && Unfinished(cfg, c) && Parse(cfg, c, args, guarded).Ok?
    ensures PrintableContext(cfg, Parse(cfg, c, args, guarded).value)
    decreases |args|
  {
    hide ReadOption, Apply, PrintableContext, PrintableAction, NegationsAreForeign;
    if args != [] {
      var r := Read(cfg, args, guarded);
      if r.Guard? {
        ParseKeepsPrintable(cfg, c, Drop(args, 1), true);
      } else {
        ReadIsPrintable(cfg, args, guarded);
        ApplyKeepsPrintable(cfg, c, r.act);
        if !IsBare(r.act) {
          ParseKeepsPrintable(cfg, Apply(cfg, c, r.act), Drop(args, r.used), false);
        }
      }
    }
  }

  /** Printing what the splitter found in any command line, and splitting that, finds it again: the
      printed form is a normal form of the command line. */
  lemma PrintIsNormalForm(cfg: Config, args: seq<string>, pos: nat)
    requires NegationsAreForeign(cfg) && Split(cfg, args, pos, false).Ok?
    ensures var c := Build(cfg, Nothing(), Split(cfg, args, pos, false).value);
      var r := Split(cfg, Print(cfg, c), pos, false);
      r.Ok? && Build(cfg, Nothing(), r.value) == c
  {
    hide Split, Build, Print;
    ParseIsSplit(cfg, Nothing(), args, pos, false);
    ParseKeepsPrintable(cfg, Nothing(), args, false);
    PrintedLineIsRecovered(cfg, Build(cfg, Nothing(), Split(cfg, args, pos, false).value), pos);
  }

  /** The one output name that cannot be written is "--": no command line yields it. */
  lemma {:induction false} DoubleDashIsNoName(cfg: Config, c: Context, args: seq<string>, guarded: bool)
    requires cfg.separators != [] && cfg.separators[0].None? && Parse(cfg, c, args, guarded).Ok?
    requires forall i | 0 <= i < |c.closed| :: c.closed[i].group == 0 ==> c.closed[i].arg != "--"
    ensures var d := Parse(cfg, c, args, guarded).value;
      forall i | 0 <= i < |d.closed| :: d.closed[i].group == 0 ==> d.closed[i].arg != "--"
    decreases |args|
  {
    hide Find;
    if args != [] {
      var r := Read(cfg, args, guarded);
      if r.Guard? {
        DoubleDashIsNoName(cfg, c, Drop(args, 1), true);
      } else {
        DoubleDashIsNoName(cfg, Apply(cfg, c, r.act), Drop(args, r.used), false);
      }
    }
  }
}
