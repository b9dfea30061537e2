/**
 Splitting a command line into option groups.
 */
module CommandLine {
  import opened Wrappers

  datatype OptionType = Func | Bool | Valued

  /** A row of the option table; funcArg matters for functions only. */
  datatype OptionDef = OptionDef(name: string, kind: OptionType, funcArg: bool, exit: bool, perFile: bool)

  /** What the libraries say to an option that is not in the table. */
  datatype Verdict = Accepted | NotFound | Refused

  /** The option table, the separators of the group types (the first type is also closed by
      plain arguments), and the verdict of the libraries on an option and its argument. */
  datatype Config = Config(options: seq<OptionDef>, separators: seq<Option<string>>,
                           avOption: (string, string) -> Verdict)

  /** An option instance: table row, name as written, argument (missing only for exiting options). */
  datatype Opt = Opt(def: nat, key: string, val: Option<string>)

  datatype Action =
    | Record(opt: Opt)
    | Library(key: string, arg: string)
    | Finish(group: nat, arg: string)

  /** An action and the index of the argument that caused it. */
  datatype Event = Event(pos: nat, act: Action)

  datatype Error = MissingArgument | Invalid | UnknownOption

  // ---------------------------------------------------------------- names

  /** name is the table name, or the table name followed by a ':' and a specifier. */
  predicate Matches(name: string, def: OptionDef) {
    def.name <= name && (|name| == |def.name| || name[|def.name|] == ':')
  }

  function Unslashed(name: string): string {
    if |name| > 0 && name[0] == '/' then name[1..] else name
  }

  /** The first row from i on that matches. */
  function FindFrom(options: seq<OptionDef>, name: string, i: nat): (r: Option<nat>)
    requires i <= |options|
    ensures r.Some? ==> r.value < |options|
    decreases |options| - i
  {
    if i == |options| then None
    else if Matches(name, options[i]) then Some(i)
    else FindFrom(options, name, i + 1)
  }

  function Find(options: seq<OptionDef>, name: string): (r: Option<nat>)
    ensures r.Some? ==> r.value < |options|
  {
    FindFrom(options, Unslashed(name), 0)
  }

  /** The table is searched in order: a row is found iff some row matches, and it is the first. */
  lemma {:induction false} FindIsFirst(options: seq<OptionDef>, name: string, i: nat)
    requires i <= |options|
    ensures match FindFrom(options, name, i)
      case Some(k) => i <= k && Matches(name, options[k]) && forall j | i <= j < k :: !Matches(name, options[j])
      case None => forall j | i <= j < |options| :: !Matches(name, options[j])
    decreases |options| - i
  {
    if i < |options| && !Matches(name, options[i]) {
      FindIsFirst(options, name, i + 1);
    }
  }

  method FindOption(options: seq<OptionDef>, name: string) returns (r: Option<nat>)
    ensures r == Find(options, name)
  {
    var stripped := if |name| > 0 && name[0] == '/' then name[1..] else name;
    var i := 0;
    while i < |options|
      invariant i <= |options| && Find(options, name) == FindFrom(options, stripped, i)
    {
      if Matches(stripped, options[i]) {
        return Some(i);
      }
      i := i + 1;
    }
    return None;
  }

  predicate HasArg(def: OptionDef) {
    !def.kind.Bool? && (def.kind.Func? ==> def.funcArg)
  }

  function SeparatorFrom(seps: seq<Option<string>>, name: string, i: nat): (r: Option<nat>)
    requires i <= |seps|
    ensures r.Some? ==> r.value < |seps| && seps[r.value] == Some(name)
    decreases |seps| - i
  {
    if i == |seps| then None
    else if seps[i] == Some(name) then Some(i)
    else SeparatorFrom(seps, name, i + 1)
  }

  /** The group type that a separator closes. */
  function Separator(cfg: Config, name: string): Option<nat> {
    SeparatorFrom(cfg.separators, name, 0)
  }

  predicate Negated(name: string) {
    |name| >= 2 && name[0] == 'n' && name[1] == 'o'
  }

  // ---------------------------------------------------------------- the splitter, one argument at a time

  /** What one turn of the splitting loop does with the arguments that are left. */
  datatype Reading = Guard | Emit(act: Action, used: nat) | Reject(error: Error)

  /** An argument that closes a group of the first type by itself. */
  predicate Plain(arg: string) {
    arg == "" || arg[0] != '-' || arg == "-"
  }

  function Read(cfg: Config, args: seq<string>, guarded: bool): (r: Reading)
    requires args != []
    ensures r.Emit? ==> 0 < r.used <= 2
  {
    if args[0] == "--" then Guard
    else if Plain(args[0]) || guarded then Emit(Finish(0, args[0]), 1)
    else ReadOption(cfg, args[0][1..], args[1..])
  }

  function ReadOption(cfg: Config, name: string, rest: seq<string>): (r: Reading)
    ensures !r.Guard? && (r.Emit? ==> 0 < r.used <= 2)
  {
    var group := Separator(cfg, name);
    var def := Find(cfg.options, name);
    if group.Some? then
      if rest == [] then Reject(MissingArgument) else Emit(Finish(group.value, rest[0]), 2)
    else if def.Some? then
      if cfg.options[def.value].exit then
        Emit(Record(Opt(def.value, name, if rest == [] then None else Some(rest[0]))), 2)
      else if HasArg(cfg.options[def.value]) then
        if rest == [] then Reject(MissingArgument) else Emit(Record(Opt(def.value, name, Some(rest[0]))), 2)
      else Emit(Record(Opt(def.value, name, Some("1"))), 1)
    else if rest != [] && cfg.avOption(name, rest[0]) == Accepted then Emit(Library(name, rest[0]), 2)
    else if rest != [] && cfg.avOption(name, rest[0]) == Refused then Reject(Invalid)
    else
      var positive := if Negated(name) then Find(cfg.options, name[2..]) else None;
      if positive.Some? && cfg.options[positive.value].kind.Bool? then
        Emit(Record(Opt(positive.value, name, Some("0"))), 1)
      else Reject(UnknownOption)
  }

  function Prepend(es: seq<Event>, r: Result<seq<Event>, Error>): Result<seq<Event>, Error> {
    if r.Ok? then Ok(es + r.value) else r
  }

  /** Everything the splitter does with the arguments args, the first of which has index pos. */
  function Split(cfg: Config, args: seq<string>, pos: nat, guarded: bool): Result<seq<Event>, Error>
    decreases |args|
  {
    if args == [] then Ok([])
    else
      match Read(cfg, args, guarded)
      case Guard => Split(cfg, Drop(args, 1), pos + 1, true)
      case Emit(act, used) => Prepend([Event(pos, act)], Split(cfg, Drop(args, used), pos + used, false))
      case Reject(e) => Err(e)
  }

  // ---------------------------------------------------------------- the parse context

  /** A closed group: its type, the argument that closed it, its options. */
  datatype Group = Group(group: nat, arg: string, opts: seq<Opt>, library: seq<(string, string)>)

  datatype Context = Context(globals: seq<Opt>, closed: seq<Group>, opts: seq<Opt>, library: seq<(string, string)>)

  function Apply(cfg: Config, c: Context, act: Action): Context {
    match act
    case Record(o) =>
      if o.def < |cfg.options| && cfg.options[o.def].perFile then c.(opts := c.opts + [o])
      else c.(globals := c.globals + [o])
    case Library(key, arg) => c.(library := c.library + [(key, arg)])
    case Finish(g, arg) => c.(closed := c.closed + [Group(g, arg, c.opts, c.library)], opts := [], library := [])
  }

  function Build(cfg: Config, c: Context, es: seq<Event>): Context
    decreases |es|
  {
    if es == [] then c else Build(cfg, Apply(cfg, c, es[0].act), es[1..])
  }

  /** The groups of one type, in order: what the source keeps in a list per type. */
  function OfType(closed: seq<Group>, g: nat): seq<Group> {
    if closed == [] then []
    else
      var last := closed[|closed| - 1];
      OfType(closed[..|closed| - 1], g) + if last.group == g then [last] else []
  }

  function Nothing(): Context { Context([], [], [], []) }

  lemma {:induction false} BuildConcat(cfg: Config, c: Context, a: seq<Event>, b: seq<Event>)
    ensures Build(cfg, c, a + b) == Build(cfg, Build(cfg, c, a), b)
    decreases |a|
  {
    if a == [] {
      assert a + b == b;
    } else {
      assert (a + b)[1..] == a[1..] + b;
      BuildConcat(cfg, Apply(cfg, c, a[0].act), a[1..], b);
    }
  }

  /** "-" and a name is an option word. */
  lemma DashWord(s: string)
    ensures var w := "-" + s; w[1..] == s && (s != "" ==> !Plain(w)) && (s != "-" ==> w != "--")
  {
    var w := "-" + s;
    assert "--"[1..] == "-";
    assert w[0] == '-';
    assert w == "-" ==> |w| == 1;
  }

  // ---------------------------------------------------------------- the splitter itself

  class OptionParser {
    const cfg: Config
    var globalOpts: seq<Opt>
    var groups: seq<seq<Group>>
    var curOpts: seq<Opt>
    var curLibrary: seq<(string, string)>

    ghost predicate Represents(c: Context)
      reads this
    {
      globalOpts == c.globals && curOpts == c.opts && curLibrary == c.library &&
      |groups| == |cfg.separators| && forall g: nat | g < |groups| :: groups[g] == OfType(c.closed, g)
    }

    constructor (cfg: Config)
      ensures this.cfg == cfg && Represents(Nothing())
    {
      this.cfg := cfg;
      globalOpts, curOpts, curLibrary := [], [], [];
      groups := seq(|cfg.separators|, _ => []);
    }

    method FinishGroup(g: nat, arg: string, ghost c: Context)
      requires g < |cfg.separators| && Represents(c)
      modifies this
      ensures Represents(Apply(cfg, c, Finish(g, arg)))
    {
      ghost var closed := c.closed + [Group(g, arg, c.opts, c.library)];
      assert closed[..|closed| - 1] == c.closed;
      groups := groups[g := groups[g] + [Group(g, arg, curOpts, curLibrary)]];
      curOpts, curLibrary := [], [];
    }

    method AddOpt(o: Opt, ghost c: Context)
      requires o.def < |cfg.options| && Represents(c)
      modifies this
      ensures Represents(Apply(cfg, c, Record(o)))
    {
      if cfg.options[o.def].perFile {
        curOpts := curOpts + [o];
      } else {
        globalOpts := globalOpts + [o];
      }
    }

    /** One turn of the loop of split_commandline. */
    method ReadNext(args: seq<string>, guarded: bool, ghost c: Context) returns (r: Reading)
      requires args != [] && Represents(c) && cfg.separators != []
      modifies this
      ensures r == Read(cfg, args, guarded)
      ensures Represents(if r.Emit? then Apply(cfg, c, r.act) else c)
    {
      var opt := args[0];
      if opt == "--" {
        return Guard;
      }
      if opt == "" || opt[0] != '-' || |opt| == 1 || guarded {
        FinishGroup(0, opt, c);
        return Emit(Finish(0, opt), 1);
      }
      opt := opt[1..];
      var next: Option<string> := if |args| > 1 then Some(args[1]) else None;
      var group := Separator(cfg, opt);
      if group.Some? {
        if next.None? {
          return Reject(MissingArgument);
        }
        FinishGroup(group.value, next.value, c);
        return Emit(Finish(group.value, next.value), 2);
      }
      var def := FindOption(cfg.options, opt);
      if def.Some? {
        var arg, used := Some("1"), 1;
        if cfg.options[def.value].exit {
          arg, used := next, 2;
        } else if HasArg(cfg.options[def.value]) {
          if next.None? {
            return Reject(MissingArgument);
          }
          arg, used := next, 2;
        }
        AddOpt(Opt(def.value, opt, arg), c);
        return Emit(Record(Opt(def.value, opt, arg)), used);
      }
      if next.Some? {
        var verdict := cfg.avOption(opt, next.value);
        if verdict == Accepted {
          curLibrary := curLibrary + [(opt, next.value)];
          return Emit(Library(opt, next.value), 2);
        } else if verdict == Refused {
          return Reject(Invalid);
        }
      }
      if Negated(opt) {
        var positive := FindOption(cfg.options, opt[2..]);
        if positive.Some? && cfg.options[positive.value].kind.Bool? {
          AddOpt(Opt(positive.value, opt, Some("0")), c);
          return Emit(Record(Opt(positive.value, opt, Some("0"))), 1);
        }
      }
      return Reject(UnknownOption);
    }

    /** split_commandline on a fresh context: the context it leaves is the one built from the
        events of the whole command line, and it fails exactly when they do. */
    method SplitCommandLine(argv: seq<string>) returns (error: Option<Error>)
      requires argv != [] && cfg.separators != [] && Represents(Nothing())
      modifies this
      ensures match Split(cfg, argv[1..], 1, false)
        case Ok(es) => error == None && Represents(Build(cfg, Nothing(), es))
        case Err(e) => error == Some(e)
    {
      hide Read, ReadOption, Split, SplitSoFar, Apply;
      var optindex, guarded := 1, false;
      ghost var done: seq<Event> := [];
      ghost var whole := Split(cfg, argv[1..], 1, false);
      SplitStart(cfg, argv);
      while optindex < |argv|
        invariant 1 <= optindex
        invariant Represents(Build(cfg, Nothing(), done))
        invariant SplitSoFar(cfg, whole, argv, done, optindex, guarded)
        decreases |argv| - optindex
      {
        var r := ReadNext(argv[optindex..], guarded, Build(cfg, Nothing(), done));
        TurnKeeps(cfg, whole, argv, done, optindex, guarded, r);
        match r {
          case Guard =>
            optindex, guarded := optindex + 1, true;
          case Emit(act, used) =>
            BuildOneMore(cfg, Nothing(), done, Event(optindex, act));
            done := done + [Event(optindex, act)];
            optindex, guarded := optindex + used, false;
          case Reject(e) =>
            return Some(e);
        }
      }
      SplitDone(cfg, whole, argv, done, optindex, guarded);
      return None;
    }
  }

  /** The outcome of the whole command line is what is done and what the arguments left give. */
  ghost predicate SplitSoFar(cfg: Config, whole: Result<seq<Event>, Error>, argv: seq<string>, done: seq<Event>, i: nat,
                             guarded: bool) {
    whole == Prepend(done, Split(cfg, Drop(argv, i), i, guarded))
  }

  lemma SplitStart(cfg: Config, argv: seq<string>)
    requires argv != []
    ensures SplitSoFar(cfg, Split(cfg, argv[1..], 1, false), argv, [], 1, false)
  {
    PrependNothing(Split(cfg, argv[1..], 1, false));
  }

  lemma SplitDone(cfg: Config, whole: Result<seq<Event>, Error>, argv: seq<string>, done: seq<Event>, i: nat,
                  guarded: bool)
    requires |argv| <= i && SplitSoFar(cfg, whole, argv, done, i, guarded)
    ensures whole == Ok(done)
  {
    assert done + [] == done;
  }

  lemma TurnKeeps(cfg: Config, whole: Result<seq<Event>, Error>, argv: seq<string>, done: seq<Event>, i: nat,
                  guarded: bool, r: Reading)
    requires i < |argv| && r == Read(cfg, argv[i..], guarded) && SplitSoFar(cfg, whole, argv, done, i, guarded)
    ensures r.Guard? ==> SplitSoFar(cfg, whole, argv, done, i + 1, true)
    ensures r.Emit? ==> SplitSoFar(cfg, whole, argv, done + [Event(i, r.act)], i + r.used, false)
    ensures r.Reject? ==> whole == Err(r.error)
  {
    hide Read, ReadOption;
    DropDrop(argv, i, if r.Emit? then r.used else 1);
    if r.Emit? {
      PrependTwice(done, Event(i, r.act), Split(cfg, Drop(argv, i + r.used), i + r.used, false));
    }
  }

  lemma BuildOneMore(cfg: Config, c: Context, done: seq<Event>, e: Event)
    ensures Build(cfg, c, done + [e]) == Apply(cfg, Build(cfg, c, done), e.act)
  {
    BuildConcat(cfg, c, done, [e]);
  }

  lemma DropDrop(args: seq<string>, i: nat, n: nat)
    ensures Drop(Drop(args, i), n) == Drop(args, i + n)
  {
  }

  lemma PrependNothing(r: Result<seq<Event>, Error>)
    ensures Prepend([], r) == r
  {
    if r.Ok? {
      assert [] + r.value == r.value;
    }
  }

  lemma PrependTwice(a: seq<Event>, e: Event, r: Result<seq<Event>, Error>)
    ensures Prepend(a, Prepend([e], r)) == Prepend(a + [e], r)
  {
    if r.Ok? {
      assert a + ([e] + r.value) == (a + [e]) + r.value;
    }
  }
}
