/**
 The scanner that looks for one option in the command line before it is split. It knows
 neither separators nor library options nor "--", and walks over the words on its own: this
 is about when it finds what the splitter records.
 */
module OptionScanner {
  import opened Wrappers
  import opened CommandLine

  /** The row a scanner takes an option name for: as it stands, else without "no". */
  function Resolve(options: seq<OptionDef>, name: string): (r: Option<nat>)
    ensures r.Some? ==> r.value < |options|
  {
    var def := Find(options, name);
    if def.None? && Negated(name) then Find(options, name[2..]) else def
  }

  /** The first position at or after pos that the scanner takes for option name, 0 if none. */
  function Locate(options: seq<OptionDef>, args: seq<string>, pos: nat, name: string): nat
    decreases |args|
  {
    if args == [] then 0
    else if Plain(args[0]) then Locate(options, Drop(args, 1), pos + 1, name)
    else
      var cur := args[0][1..];
      var def := Resolve(options, cur);
      if (def.None? && cur == name) || (def.Some? && options[def.value].name == name) then pos
      else if def.None? || HasArg(options[def.value]) then Locate(options, Drop(args, 2), pos + 2, name)
      else Locate(options, Drop(args, 1), pos + 1, name)
  }

  method LocateOption(options: seq<OptionDef>, argv: seq<string>, name: string) returns (index: nat)
    requires argv != []
    ensures index == Locate(options, argv[1..], 1, name)
  {
    hide Find, Locate;
    var i := 1;
    while i < |argv|
      invariant 1 <= i
      invariant Locate(options, argv[1..], 1, name) == Locate(options, Drop(argv, i), i, name)
      decreases |argv| - i
    {
      LocateStep(options, argv, i, name);
      var cur := argv[i];
      if cur == "" || cur[0] != '-' || |cur| == 1 {
        i := i + 1;
        continue;
      }
      cur := cur[1..];
      var def := FindOption(options, cur);
      if def.None? && Negated(cur) {
        def := FindOption(options, cur[2..]);
      }
      if (def.None? && cur == name) || (def.Some? && options[def.value].name == name) {
        return i;
      }
      i := i + if def.None? || HasArg(options[def.value]) then 2 else 1;
    }
    assert Drop(argv, i) == [];
    LocateNothing(options, i, name);
    return 0;
  }

  lemma LocateNothing(options: seq<OptionDef>, pos: nat, name: string)
    ensures Locate(options, [], pos, name) == 0
  {
  }

  /** One word of the scan. */
  lemma LocateStep(options: seq<OptionDef>, argv: seq<string>, i: nat, name: string)
    requires i < |argv|
    ensures Plain(argv[i]) ==>
            Locate(options, Drop(argv, i), i, name) == Locate(options, Drop(argv, i + 1), i + 1, name)
    ensures !Plain(argv[i]) ==>
      var cur := argv[i][1..];
      var def := Resolve(options, cur);
      Locate(options, Drop(argv, i), i, name) ==
      if (def.None? && cur == name) || (def.Some? && options[def.value].name == name) then i
      else if def.None? || HasArg(options[def.value]) then Locate(options, Drop(argv, i + 2), i + 2, name)
      else Locate(options, Drop(argv, i + 1), i + 1, name)
  {
    hide Resolve, HasArg;
    DropDrop(argv, i, 1);
    DropDrop(argv, i, 2);
  }

  // ---------------------------------------------------------------- where the two may part

  /** The first position at which the splitter recorded an option of that name, 0 if none. */
  function FirstRecorded(options: seq<OptionDef>, es: seq<Event>, name: string): nat {
    if es == [] then 0
    else if es[0].act.Record? && es[0].act.opt.def < |options| && options[es[0].act.opt.def].name == name then es[0].pos
    else FirstRecorded(options, es[1..], name)
  }

  predicate Records(options: seq<OptionDef>, act: Action, name: string) {
    act.Record? && act.opt.def < |options| && options[act.opt.def].name == name
  }

  /** An option without argument to which the splitter gives the next word all the same: an exiting one. */
  predicate Swallows(options: seq<OptionDef>, r: Reading) {
    r.Emit? && r.act.Record? && r.act.opt.def < |options| && r.used == 2 && !HasArg(options[r.act.opt.def])
  }

  /** The position of the first word that the scanner reads as an option while the splitter takes
      it for an argument, as long as the option name has not been recorded: a word with a dash
      that follows a bare exiting option, or an even number of "--". */
  function Slip(cfg: Config, args: seq<string>, pos: nat, guarded: bool, name: string): Option<nat>
    decreases |args|
  {
    if args == [] then None
    else if args[0] == "--" then
      Slip(cfg, Drop(args, 2), pos + 2, |args| > 1 && args[1] == "--", name)
    else if guarded then
      if Plain(args[0]) then Slip(cfg, Drop(args, 1), pos + 1, false, name) else Some(pos)
    else
      var r := Read(cfg, args, false);
      if !r.Emit? || Records(cfg.options, r.act, name) then None
      else if Swallows(cfg.options, r) && |args| > 1 && !Plain(args[1]) then Some(pos + 1)
      else Slip(cfg, Drop(args, r.used), pos + r.used, false, name)
  }

  /** Neither a separator, nor "-", nor "no" and a name that the libraries get to see and accept
      can be taken for a table option. */
  ghost predicate Separate(cfg: Config) {
    && (forall s | Separator(cfg, s).Some? :: Resolve(cfg.options, s).None?)
    && Resolve(cfg.options, "-").None?
    && (forall s, arg | ClaimedByLibrary(cfg, s, arg) :: Find(cfg.options, s[2..]).None?)
  }

  predicate ClaimedByLibrary(cfg: Config, s: string, arg: string) {
    Negated(s) && Separator(cfg, s).None? && Find(cfg.options, s).None? && cfg.avOption(s, arg) == Accepted
  }

  // ---------------------------------------------------------------- until then they agree

  /** On an option word the scanner and the splitter see the same thing. */
  lemma SameReading(cfg: Config, args: seq<string>, r: Reading)
    requires Separate(cfg) && args != [] && !Plain(args[0]) && args[0] != "--"
    requires r == Read(cfg, args, false) && r.Emit?
    ensures var def := Resolve(cfg.options, args[0][1..]);
      && (r.act.Record? <==> def.Some?) && (def.Some? ==> def.value == r.act.opt.def)
      && (!Swallows(cfg.options, r) ==> r.used == if def.None? || HasArg(cfg.options[def.value]) then 2 else 1)
  {
    hide Find, Separator;
    var name := args[0][1..];
    if Find(cfg.options, name).None? && Separator(cfg, name).None? && |args| > 1 {
      assert args[1..][0] == args[1];
      assert Negated(name) && cfg.avOption(name, args[1]) == Accepted ==> ClaimedByLibrary(cfg, name, args[1]);
    }
  }

  lemma NamedIsFound(options: seq<OptionDef>, name: string, cur: string)
    requires Find(options, name).Some? && Resolve(options, cur).None?
    ensures cur != name
  {
  }

  /** One more event in front. */
  lemma FirstOf(options: seq<OptionDef>, e: Event, tail: seq<Event>, name: string)
    ensures FirstRecorded(options, [e] + tail, name) ==
            if Records(options, e.act, name) then e.pos else FirstRecorded(options, tail, name)
  {
    assert ([e] + tail)[1..] == tail;
  }

  /** What the splitter first records of an option, 0 if nothing. */
  ghost function Recorded(cfg: Config, args: seq<string>, pos: nat, guarded: bool, name: string): nat
    requires Split(cfg, args, pos, guarded).Ok?
  {
    FirstRecorded(cfg.options, Split(cfg, args, pos, guarded).value, name)
  }

  /** Both pass over "--" and the word after it. */
  lemma GuardStep(cfg: Config, args: seq<string>, pos: nat, guarded: bool, name: string)
    requires Resolve(cfg.options, "-").None? && Find(cfg.options, name).Some?
    requires args != [] && args[0] == "--" && Split(cfg, args, pos, guarded).Ok?
    ensures var double := |args| > 1 && args[1] == "--";
      && Split(cfg, Drop(args, 2), pos + 2, double).Ok?
      && Recorded(cfg, args, pos, guarded, name) == Recorded(cfg, Drop(args, 2), pos + 2, double, name)
      && Locate(cfg.options, args, pos, name) == Locate(cfg.options, Drop(args, 2), pos + 2, name)
  {
    hide Find, ReadOption;
    assert args[0][1..] == "-";
    NamedIsFound(cfg.options, name, "-");
    var tail := Drop(args, 1);
    assert Read(cfg, args, guarded) == Guard;
    DropDrop(args, 1, 1);
    if |args| > 1 && args[1] != "--" {
      assert Read(cfg, tail, true) == Emit(Finish(0, args[1]), 1);
      FirstOf(cfg.options, Event(pos + 1, Finish(0, args[1])), Split(cfg, Drop(args, 2), pos + 2, false).value, name);
    }
  }

  /** A turn of the splitter that emits something. */
  lemma EmitStep(cfg: Config, args: seq<string>, pos: nat, guarded: bool, name: string)
    requires args != [] && args[0] != "--" && Split(cfg, args, pos, guarded).Ok?
    ensures var r := Read(cfg, args, guarded);
      && r.Emit? && Split(cfg, Drop(args, r.used), pos + r.used, false).Ok?
      && Recorded(cfg, args, pos, guarded, name) ==
         if Records(cfg.options, r.act, name) then pos else Recorded(cfg, Drop(args, r.used), pos + r.used, false, name)
  {
    hide Find, ReadOption, FirstRecorded, Records;
    var r := Read(cfg, args, guarded);
    if r.Emit? && Split(cfg, Drop(args, r.used), pos + r.used, false).Ok? {
      FirstOf(cfg.options, Event(pos, r.act), Split(cfg, Drop(args, r.used), pos + r.used, false).value, name);
    }
  }

  /** The same word for the scanner. */
  lemma ScanStep(cfg: Config, args: seq<string>, pos: nat, name: string)
    requires Separate(cfg) && Find(cfg.options, name).Some? && args != [] && args[0] != "--"
    requires Read(cfg, args, false).Emit?
    ensures var r := Read(cfg, args, false);
      && (Records(cfg.options, r.act, name) ==> Locate(cfg.options, args, pos, name) == pos)
      && (!Records(cfg.options, r.act, name) ==>
            Locate(cfg.options, args, pos, name) ==
            if Swallows(cfg.options, r) then Locate(cfg.options, Drop(args, 1), pos + 1, name)
            else Locate(cfg.options, Drop(args, r.used), pos + r.used, name))
  {
    hide Find, ReadOption, Separate, Resolve;
    if !Plain(args[0]) {
      SameReading(cfg, args, Read(cfg, args, false));
      if Resolve(cfg.options, args[0][1..]).None? {
        NamedIsFound(cfg.options, name, args[0][1..]);
      }
    }
  }

  lemma NothingRecorded(options: seq<OptionDef>, name: string)
    ensures FirstRecorded(options, [], name) == 0
  {
  }

  lemma {:induction false} RecordedLater(cfg: Config, args: seq<string>, pos: nat, guarded: bool, name: string)
    requires Split(cfg, args, pos, guarded).Ok?
    ensures Recorded(cfg, args, pos, guarded, name) == 0 || Recorded(cfg, args, pos, guarded, name) >= pos
    decreases |args|
  {
    hide Read, Records, FirstRecorded;
    if args == [] {
      NothingRecorded(cfg.options, name);
    } else if args[0] == "--" {
      ReadGuard(cfg, args, guarded);
      RecordedLater(cfg, Drop(args, 1), pos + 1, true, name);
    } else {
      EmitStep(cfg, args, pos, guarded, name);
      var r := Read(cfg, args, guarded);
      RecordedLater(cfg, Drop(args, r.used), pos + r.used, false, name);
    }
  }

  lemma ReadGuard(cfg: Config, args: seq<string>, guarded: bool)
    requires args != [] && args[0] == "--"
    ensures Read(cfg, args, guarded) == Guard
  {
  }

  lemma ReadGuarded(cfg: Config, args: seq<string>, name: string)
    requires args != [] && args[0] != "--"
    ensures Read(cfg, args, true) == Emit(Finish(0, args[0]), 1) && !Records(cfg.options, Finish(0, args[0]), name)
  {
  }

  /** What was found in the rest of the words, k words on. */
  lemma Further(args: seq<string>, k: nat, n: nat)
    ensures Drop(Drop(args, k), n) == Drop(args, k + n)
    ensures n < |Drop(args, k)| ==> k + n < |args| && Drop(args, k)[n] == args[k + n]
  {
  }

  /** An argument taken from the next word makes no difference if that word is no option. */
  lemma SwallowedPlain(options: seq<OptionDef>, args: seq<string>, pos: nat, name: string)
    requires args != [] && (|args| == 1 || Plain(args[1]))
    ensures Locate(options, Drop(args, 1), pos + 1, name) == Locate(options, Drop(args, 2), pos + 2, name)
  {
    hide Resolve;
    DropDrop(args, 1, 1);
  }

  /** Without a slip the scanner finds an option where the splitter first recorded it, at; with a
      slip p it goes on from there, and whatever the splitter records of that option comes later. */
  ghost predicate Consistent(options: seq<OptionDef>, args: seq<string>, pos: nat, name: string, p: Option<nat>,
                             at: nat, found: nat) {
    if p.None? then found == at
    else
      && pos <= p.value < pos + |args| && !Plain(args[p.value - pos]) && (at == 0 || at > p.value)
      && found == Locate(options, Drop(args, p.value - pos), p.value, name)
  }

  ghost predicate UntilSlip(cfg: Config, args: seq<string>, pos: nat, guarded: bool, name: string)
    requires Split(cfg, args, pos, guarded).Ok?
  {
    Consistent(cfg.options, args, pos, name, Slip(cfg, args, pos, guarded, name),
               Recorded(cfg, args, pos, guarded, name), Locate(cfg.options, args, pos, name))
  }

  lemma Onward(options: seq<OptionDef>, args: seq<string>, pos: nat, name: string, k: nat, p: Option<nat>, at: nat,
               found: nat)
    requires Consistent(options, Drop(args, k), pos + k, name, p, at, found)
    ensures Consistent(options, args, pos, name, p, at, found)
  {
    hide Locate, Plain;
    if p.Some? {
      Further(args, k, p.value - pos - k);
    }
  }

  lemma {:induction false} ScanUntilSlip(cfg: Config, args: seq<string>, pos: nat, guarded: bool, name: string)
    requires Separate(cfg) && Find(cfg.options, name).Some? && Split(cfg, args, pos, guarded).Ok?
    ensures UntilSlip(cfg, args, pos, guarded, name)
    decreases |args|
  {
    hide Find, Read, Separate, Records, Swallows, FirstRecorded, Consistent, Split, Plain, Recorded, Locate;
    if args == [] {
      UntilNothing(cfg, pos, guarded, name);
    } else if args[0] == "--" {
      SeparateDash(cfg);
      GuardStep(cfg, args, pos, guarded, name);
      var double := |args| > 1 && args[1] == "--";
      ScanUntilSlip(cfg, Drop(args, 2), pos + 2, double, name);
      Onward(cfg.options, args, pos, name, 2, Slip(cfg, args, pos, guarded, name),
          Recorded(cfg, args, pos, guarded, name), Locate(cfg.options, args, pos, name));
    } else if guarded {
      GuardedWord(cfg, args, pos, name);
      if Plain(args[0]) {
        ScanUntilSlip(cfg, Drop(args, 1), pos + 1, false, name);
        Onward(cfg.options, args, pos, name, 1, Slip(cfg, args, pos, guarded, name),
            Recorded(cfg, args, pos, guarded, name), Locate(cfg.options, args, pos, name));
      }
    } else {
      var r := Read(cfg, args, false);
      EmitStep(cfg, args, pos, guarded, name);
      OptionWord(cfg, args, pos, name);
      if !Settles(cfg, args, r, name) {
        ScanUntilSlip(cfg, Drop(args, r.used), pos + r.used, false, name);
        Onward(cfg.options, args, pos, name, r.used, Slip(cfg, args, pos, guarded, name),
            Recorded(cfg, args, pos, guarded, name), Locate(cfg.options, args, pos, name));
      }
    }
  }

  lemma SeparateDash(cfg: Config)
    requires Separate(cfg)
    ensures Resolve(cfg.options, "-").None?
  {
  }

  lemma UntilNothing(cfg: Config, pos: nat, guarded: bool, name: string)
    ensures Split(cfg, [], pos, guarded).Ok? && UntilSlip(cfg, [], pos, guarded, name)
  {
  }

  /** After an even number of "--" the splitter takes any word, the scanner only one without dash. */
  lemma GuardedWord(cfg: Config, args: seq<string>, pos: nat, name: string)
    requires args != [] && args[0] != "--" && Split(cfg, args, pos, true).Ok?
    ensures !Plain(args[0]) ==> UntilSlip(cfg, args, pos, true, name)
    ensures Plain(args[0]) ==>
      && Split(cfg, Drop(args, 1), pos + 1, false).Ok?
      && Slip(cfg, args, pos, true, name) == Slip(cfg, Drop(args, 1), pos + 1, false, name)
      && Recorded(cfg, args, pos, true, name) == Recorded(cfg, Drop(args, 1), pos + 1, false, name)
      && Locate(cfg.options, args, pos, name) == Locate(cfg.options, Drop(args, 1), pos + 1, name)
  {
    hide Read, Records, Recorded, Split, Resolve;
    ReadGuarded(cfg, args, name);
    EmitStep(cfg, args, pos, true, name);
    RecordedLater(cfg, Drop(args, 1), pos + 1, false, name);
    assert Drop(args, 0) == args;
  }

  /** The option is recorded here, or the two part here. */
  predicate Settles(cfg: Config, args: seq<string>, r: Reading, name: string) {
    r.Emit? && (Records(cfg.options, r.act, name) || (Swallows(cfg.options, r) && |args| > 1 && !Plain(args[1])))
  }

  /** One turn of both on a word that is neither "--" nor guarded. */
  lemma OptionWord(cfg: Config, args: seq<string>, pos: nat, name: string)
    requires Separate(cfg) && Find(cfg.options, name).Some? && args != [] && args[0] != "--" &&
             Split(cfg, args, pos, false).Ok?
    ensures Read(cfg, args, false).Emit?
    ensures Settles(cfg, args, Read(cfg, args, false), name) ==> UntilSlip(cfg, args, pos, false, name)
    ensures var r := Read(cfg, args, false);
      !Settles(cfg, args, r, name) ==>
        && Slip(cfg, args, pos, false, name) == Slip(cfg, Drop(args, r.used), pos + r.used, false, name)
        && Locate(cfg.options, args, pos, name) == Locate(cfg.options, Drop(args, r.used), pos + r.used, name)
  {
    hide Find, Read, Separate, Records, FirstRecorded, Split, Plain, Recorded, Locate;
    var r := Read(cfg, args, false);
    EmitStep(cfg, args, pos, false, name);
    ScanStep(cfg, args, pos, name);
    if !Records(cfg.options, r.act, name) {
      RecordedLater(cfg, Drop(args, r.used), pos + r.used, false, name);
      if Swallows(cfg.options, r) && (|args| == 1 || Plain(args[1])) {
        SwallowedPlain(cfg.options, args, pos, name);
      }
    }
  }

  // ---------------------------------------------------------------- one command line

  /** Whenever the splitter succeeds and there is no slip before the option is recorded, the scanner
      finds it exactly where the splitter first recorded it, and nowhere if it did not. */
  lemma LocateAgrees(cfg: Config, args: seq<string>, pos: nat, name: string)
    requires Separate(cfg) && Find(cfg.options, name).Some? && Split(cfg, args, pos, false).Ok?
    requires Slip(cfg, args, pos, false, name).None?
    ensures Locate(cfg.options, args, pos, name) ==
            FirstRecorded(cfg.options, Split(cfg, args, pos, false).value, name)
  {
    hide Slip, Locate, Split;
    ScanUntilSlip(cfg, args, pos, false, name);
  }

  /** At a slip on a word that stands for the option itself they differ: the scanner finds that
      word, the splitter records the option later or never. */
  lemma SlipMisleads(cfg: Config, args: seq<string>, pos: nat, name: string)
    requires Separate(cfg) && Find(cfg.options, name).Some? && Split(cfg, args, pos, false).Ok? && pos > 0
    requires Slip(cfg, args, pos, false, name).Some?
    requires SlipNames(cfg, args, pos, name)
    ensures Locate(cfg.options, args, pos, name) == Slip(cfg, args, pos, false, name).value
    ensures Locate(cfg.options, args, pos, name) !=
            FirstRecorded(cfg.options, Split(cfg, args, pos, false).value, name)
  {
    hide Slip, Split, Find;
    ScanUntilSlip(cfg, args, pos, false, name);
    var p := Slip(cfg, args, pos, false, name).value;
    assert Drop(args, p - pos)[0] == args[p - pos];
  }

  /** The word of the slip stands for the option. */
  ghost predicate SlipNames(cfg: Config, args: seq<string>, pos: nat, name: string) {
    var p := Slip(cfg, args, pos, false, name);
    p.Some? && pos <= p.value < pos + |args| && args[p.value - pos] != "" &&
    var def := Resolve(cfg.options, args[p.value - pos][1..]);
    def.Some? && cfg.options[def.value].name == name
  }

  /** The first slip of the line, whatever is looked for; no row has the empty name. */
  function LineSlip(cfg: Config, args: seq<string>, pos: nat, guarded: bool): Option<nat> {
    Slip(cfg, args, pos, guarded, "")
  }

  ghost predicate NoEmptyName(cfg: Config) {
    forall k | 0 <= k < |cfg.options| :: cfg.options[k].name != ""
  }

  /** Until the first slip of the line nothing depends on the name: an option has its slip there, or
      was recorded before. */
  lemma {:induction false} FirstSlip(cfg: Config, args: seq<string>, pos: nat, guarded: bool, name: string)
    requires NoEmptyName(cfg) && Separate(cfg) && Find(cfg.options, name).Some? && Split(cfg, args, pos, guarded).Ok?
    ensures var p, q := LineSlip(cfg, args, pos, guarded), Slip(cfg, args, pos, guarded, name);
      && (q.Some? ==> p == q)
      && (q.None? && p.Some? ==> pos <= Recorded(cfg, args, pos, guarded, name) < p.value)
    decreases |args|
  {
    hide Find, Read, Separate, Swallows, Split, Plain, Recorded, Locate, Records, Slip;
    SlipUnfolds(cfg, args, pos, guarded, name);
    SlipUnfolds(cfg, args, pos, guarded, "");
    if args == [] {
    } else if args[0] == "--" {
      SeparateDash(cfg);
      GuardStep(cfg, args, pos, guarded, name);
      FirstSlip(cfg, Drop(args, 2), pos + 2, |args| > 1 && args[1] == "--", name);
    } else {
      var r := Read(cfg, args, guarded);
      EmitStep(cfg, args, pos, guarded, name);
      SlipBound(cfg, Drop(args, r.used), pos + r.used, false);
      FirstSlip(cfg, Drop(args, r.used), pos + r.used, false, name);
      NoneNamed(cfg, r);
      if guarded {
        ReadGuarded(cfg, args, name);
      }
    }
  }

  lemma NoneNamed(cfg: Config, r: Reading)
    requires NoEmptyName(cfg)
    ensures r.Emit? ==> !Records(cfg.options, r.act, "")
  {
  }

  lemma SlipRejected(cfg: Config, args: seq<string>, pos: nat, name: string)
    requires args != [] && args[0] != "--" && !Read(cfg, args, false).Emit?
    ensures Slip(cfg, args, pos, false, name).None?
  {
  }

  lemma SlipUnfolds(cfg: Config, args: seq<string>, pos: nat, guarded: bool, name: string)
    ensures args == [] ==> Slip(cfg, args, pos, guarded, name).None?
    ensures args != [] && args[0] == "--" ==>
      Slip(cfg, args, pos, guarded, name) == Slip(cfg, Drop(args, 2), pos + 2, |args| > 1 && args[1] == "--", name)
    ensures args != [] && args[0] != "--" && guarded ==>
      Slip(cfg, args, pos, guarded, name) ==
      if Plain(args[0]) then Slip(cfg, Drop(args, 1), pos + 1, false, name) else Some(pos)
    ensures args != [] && args[0] != "--" && !guarded && Read(cfg, args, false).Emit? ==>
      Slip(cfg, args, pos, guarded, name) ==
      var r := Read(cfg, args, false);
      if Records(cfg.options, r.act, name) then None
      else if Swallows(cfg.options, r) && |args| > 1 && !Plain(args[1]) then Some(pos + 1)
      else Slip(cfg, Drop(args, r.used), pos + r.used, false, name)
  {
    hide Read, Plain, Records, Swallows;
  }

  lemma {:induction false} SlipBound(cfg: Config, args: seq<string>, pos: nat, guarded: bool)
    ensures var p := LineSlip(cfg, args, pos, guarded); p.Some? ==> pos <= p.value
    decreases |args|
  {
    hide Read, Plain, Records, Swallows, Slip;
    SlipUnfolds(cfg, args, pos, guarded, "");
    if args == [] {
    } else if args[0] == "--" {
      SlipBound(cfg, Drop(args, 2), pos + 2, |args| > 1 && args[1] == "--");
    } else {
      var r := Read(cfg, args, false);
      SlipBound(cfg, Drop(args, 1), pos + 1, false);
      if r.Emit? {
        SlipBound(cfg, Drop(args, r.used), pos + r.used, false);
      } else {
        SlipRejected(cfg, args, pos, "");
      }
    }
  }

  /** On the option that the first slip's word stands for, scanner and splitter agree if and only if
      it was recorded before the slip. */
  lemma SlipAgreesIff(cfg: Config, args: seq<string>, pos: nat, d: nat)
    requires NoEmptyName(cfg) && Separate(cfg) && Split(cfg, args, pos, false).Ok? && pos > 0
    requires d < |cfg.options| && Find(cfg.options, cfg.options[d].name).Some?
    requires var p := LineSlip(cfg, args, pos, false);
      p.Some? && pos <= p.value < pos + |args| && args[p.value - pos] != "" &&
      Resolve(cfg.options, args[p.value - pos][1..]) == Some(d)
    ensures var p, name := LineSlip(cfg, args, pos, false).value, cfg.options[d].name;
      var recorded := FirstRecorded(cfg.options, Split(cfg, args, pos, false).value, name);
      Locate(cfg.options, args, pos, name) == recorded <==> 0 < recorded < p
  {
    hide Slip, Split, Find, Locate, FirstRecorded;
    var name := cfg.options[d].name;
    FirstSlip(cfg, args, pos, false, name);
    if Slip(cfg, args, pos, false, name).None? {
      LocateAgrees(cfg, args, pos, name);
    } else {
      ScanUntilSlip(cfg, args, pos, false, name);
      SlipMisleads(cfg, args, pos, name);
    }
  }

  predicate NoDoubleGuard(args: seq<string>) {
    forall i | 0 <= i < |args| - 1 :: !(args[i] == "--" && args[i + 1] == "--")
  }

  /** A bare exiting option is harmless at the end of the line and before a word without dash. */
  predicate Harmless(options: seq<OptionDef>, act: Action) {
    act.Record? && act.opt.def < |options| && options[act.opt.def].exit && !HasArg(options[act.opt.def]) ==>
      act.opt.val.None? || Plain(act.opt.val.value)
  }

  lemma SwallowedWord(cfg: Config, args: seq<string>)
    requires args != [] && args[0] != "--" && Swallows(cfg.options, Read(cfg, args, false))
    ensures var act := Read(cfg, args, false).act;
      && cfg.options[act.opt.def].exit && (act.opt.val == if |args| == 1 then None else Some(args[1]))
  {
    hide Find, Separator;
  }

  ghost predicate AllHarmless(options: seq<OptionDef>, es: seq<Event>, name: string) {
    forall e | e in es :: Harmless(options, e.act) || Records(options, e.act, name)
  }

  lemma HarmlessTail(options: seq<OptionDef>, e: Event, es: seq<Event>, name: string)
    requires AllHarmless(options, [e] + es, name)
    ensures AllHarmless(options, es, name) && (Harmless(options, e.act) || Records(options, e.act, name))
  {
    assert e in [e] + es;
    assert forall x | x in es :: x in [e] + es;
  }

  /** The events after a word, or after "--" and the word it guards. */
  lemma EventsAfterWord(cfg: Config, args: seq<string>, pos: nat, name: string)
    requires args != [] && args[0] != "--" && Split(cfg, args, pos, false).Ok?
    requires AllHarmless(cfg.options, Split(cfg, args, pos, false).value, name)
    ensures var r := Read(cfg, args, false);
      && r.Emit? && Split(cfg, Drop(args, r.used), pos + r.used, false).Ok?
      && AllHarmless(cfg.options, Split(cfg, Drop(args, r.used), pos + r.used, false).value, name)
      && (Harmless(cfg.options, r.act) || Records(cfg.options, r.act, name))
  {
    hide Read, Records, Harmless, AllHarmless;
    EmitStep(cfg, args, pos, false, name);
    var r := Read(cfg, args, false);
    HarmlessTail(cfg.options, Event(pos, r.act), Split(cfg, Drop(args, r.used), pos + r.used, false).value, name);
  }

  lemma EventsAfterGuard(cfg: Config, args: seq<string>, pos: nat, name: string)
    requires |args| > 1 && args[0] == "--" && args[1] != "--" && Split(cfg, args, pos, false).Ok?
    requires AllHarmless(cfg.options, Split(cfg, args, pos, false).value, name)
    ensures Split(cfg, Drop(args, 2), pos + 2, false).Ok?
    ensures AllHarmless(cfg.options, Split(cfg, Drop(args, 2), pos + 2, false).value, name)
  {
    hide Read, Records, Harmless, AllHarmless;
    ReadGuard(cfg, args, false);
    DropDrop(args, 1, 1);
    ReadGuarded(cfg, Drop(args, 1), name);
    HarmlessTail(cfg.options, Event(pos + 1, Finish(0, args[1])), Split(cfg, Drop(args, 2), pos + 2, false).value,
        name);
  }

  /** No slip without doubled guards if all exiting options without argument are harmless, up to
      the first record of the option. */
  lemma {:induction false} NoSlip(cfg: Config, args: seq<string>, pos: nat, name: string)
    requires NoDoubleGuard(args) && Split(cfg, args, pos, false).Ok?
    requires AllHarmless(cfg.options, Split(cfg, args, pos, false).value, name)
    ensures Slip(cfg, args, pos, false, name).None?
    decreases |args|
  {
    hide Read, Records, Swallows, Harmless, Plain, Slip, AllHarmless, Split;
    SlipUnfolds(cfg, args, pos, false, name);
    if args == [] {
    } else if args[0] == "--" {
      SlipUnfolds(cfg, [], pos + 2, false, name);
      if |args| > 1 {
        EventsAfterGuard(cfg, args, pos, name);
        NoSlip(cfg, Drop(args, 2), pos + 2, name);
      }
    } else {
      EventsAfterWord(cfg, args, pos, name);
      var r := Read(cfg, args, false);
      if Swallows(cfg.options, r) {
        HarmlessWord(cfg, args);
      }
      NoSlip(cfg, Drop(args, r.used), pos + r.used, name);
    }
  }

  lemma HarmlessWord(cfg: Config, args: seq<string>)
    requires args != [] && args[0] != "--" && Swallows(cfg.options, Read(cfg, args, false))
    ensures Harmless(cfg.options, Read(cfg, args, false).act) ==> |args| == 1 || Plain(args[1])
  {
    hide Read, Plain;
    SwallowedWord(cfg, args);
  }

  // ---------------------------------------------------------------- runs of "--"

  function Guards(n: nat): seq<string> {
    if n == 0 then [] else ["--"] + Guards(n - 1)
  }

  /** A run of n "--" before a word: an odd run guards it for both; an even one, two or more,
      makes a slip of it if it has a dash. */
  lemma {:induction false} GuardRun(cfg: Config, n: nat, w: string, rest: seq<string>, pos: nat, guarded: bool,
                                    name: string)
    requires w != "--" && (n > 0 || guarded)
    ensures Slip(cfg, Guards(n) + ([w] + rest), pos, guarded, name) ==
            if n % 2 == 0 && !Plain(w) then Some(pos + n) else Slip(cfg, rest, pos + n + 1, false, name)
  {
    hide Read, Plain, Slip;
    var args := Guards(n) + ([w] + rest);
    SlipUnfolds(cfg, args, pos, guarded, name);
    if n == 0 {
      assert args == [w] + rest && Drop(args, 1) == rest;
    } else if n == 1 {
      assert args == ["--"] + ([w] + rest);
      assert args[1] == w && Drop(args, 2) == rest;
    } else {
      assert Guards(n) == ["--"] + (["--"] + Guards(n - 2));
      assert args[0] == "--" && args[1] == "--" && Drop(args, 2) == Guards(n - 2) + ([w] + rest);
      GuardRun(cfg, n - 2, w, rest, pos + 2, true, name);
    }
  }

  /** An even run of "--" before an option word makes the two differ on that option. */
  lemma EvenGuardsMislead(cfg: Config, n: nat, w: string, rest: seq<string>, pos: nat)
    requires Separate(cfg) && n > 0 && n % 2 == 0 && pos > 0 && w != "--" && !Plain(w)
    requires Split(cfg, Guards(n) + ([w] + rest), pos, false).Ok?
    requires var def := Resolve(cfg.options, w[1..]); def.Some? && Find(cfg.options, cfg.options[def.value].name).Some?
    ensures var args, name := Guards(n) + ([w] + rest), cfg.options[Resolve(cfg.options, w[1..]).value].name;
      && Locate(cfg.options, args, pos, name) == pos + n
      && FirstRecorded(cfg.options, Split(cfg, args, pos, false).value, name) != pos + n
  {
    hide Slip, Locate, Split, Find, FirstRecorded;
    var args, name := Guards(n) + ([w] + rest), cfg.options[Resolve(cfg.options, w[1..]).value].name;
    GuardRun(cfg, n, w, rest, pos, false, name);
    GuardsLength(n);
    assert args[n] == ([w] + rest)[0] == w;
    SlipMisleads(cfg, args, pos, name);
  }

  lemma {:induction false} GuardsLength(n: nat)
    ensures |Guards(n)| == n
  {
    if n > 0 {
      GuardsLength(n - 1);
    }
  }

  // ---------------------------------------------------------------- all command lines of a table

  /** Every row has a name, and is found by it. */
  ghost predicate WellNamed(cfg: Config) {
    forall k | 0 <= k < |cfg.options| :: Named(cfg, k)
  }

  predicate Named(cfg: Config, k: nat)
    requires k < |cfg.options|
  {
    cfg.options[k].name != "" && Find(cfg.options, cfg.options[k].name) == Some(k)
  }

  /** Scanner and splitter agree on every option of the table. */
  ghost predicate AgreesOn(cfg: Config, args: seq<string>) {
    Split(cfg, args, 1, false).Ok? ==> forall k | 0 <= k < |cfg.options| :: SameOn(cfg, args, cfg.options[k].name)
  }

  ghost predicate SameOn(cfg: Config, args: seq<string>, name: string)
    requires Split(cfg, args, 1, false).Ok?
  {
    Locate(cfg.options, args, 1, name) == Recorded(cfg, args, 1, false, name)
  }

  predicate IsBareExit(def: OptionDef) {
    def.exit && !HasArg(def)
  }

  /** Nothing can be taken for a table option that is none, and exiting options take an argument,
      unless there is no other option they could hide. */
  ghost predicate Unambiguous(cfg: Config) {
    Separate(cfg) && (|cfg.options| <= 1 || forall k | 0 <= k < |cfg.options| :: !IsBareExit(cfg.options[k]))
  }

  lemma UnambiguousAgrees(cfg: Config, args: seq<string>)
    requires WellNamed(cfg) && Unambiguous(cfg) && NoDoubleGuard(args)
    ensures AgreesOn(cfg, args)
  {
    hide Find, Slip, Locate, Split, Separate;
    if Split(cfg, args, 1, false).Ok? {
      forall k | 0 <= k < |cfg.options| ensures SameOn(cfg, args, cfg.options[k].name) {
        assert Named(cfg, k);
        NoSlip(cfg, args, 1, cfg.options[k].name);
        LocateAgrees(cfg, args, 1, cfg.options[k].name);
      }
    }
  }

  /** A line of one event that records nothing, where the scanner finds row d. */
  lemma FoundForNothing(cfg: Config, args: seq<string>, act: Action, used: nat, d: nat)
    requires args != [] && args[0] != "--" && Read(cfg, args, false) == Emit(act, used) && |args| <= used
    requires !Plain(args[0]) && Resolve(cfg.options, args[0][1..]) == Some(d) && !act.Record?
    ensures !AgreesOn(cfg, args)
  {
    hide Find, Read;
    assert Drop(args, used) == [];
    assert Split(cfg, args, 1, false) == Prepend([Event(1, act)], Ok([]));
    assert [Event(1, act)] + [] == [Event(1, act)];
    FirstOf(cfg.options, Event(1, act), [], cfg.options[d].name);
    assert Locate(cfg.options, args, 1, cfg.options[d].name) == 1;
    assert !SameOn(cfg, args, cfg.options[d].name);
  }

  lemma EmptyIsNoRow(cfg: Config)
    requires WellNamed(cfg)
    ensures Resolve(cfg.options, "").None?
  {
    FindIsFirst(cfg.options, "", 0);
    var d := Find(cfg.options, "");
    assert d.Some? ==> Named(cfg, d.value);
  }

  /** A row named "-" is found in "--". */
  lemma DashMisleads(cfg: Config)
    requires Resolve(cfg.options, "-").Some?
    ensures !AgreesOn(cfg, ["--"]) && NoDoubleGuard(["--"])
  {
    hide Find;
    var args, d := ["--"], Resolve(cfg.options, "-").value;
    assert args[0][1..] == "-" && Drop(args, 1) == [];
    assert Split(cfg, args, 1, false) == Ok([]);
    assert Locate(cfg.options, args, 1, cfg.options[d].name) == 1;
    assert !SameOn(cfg, args, cfg.options[d].name);
  }

  /** A separator that is also an option is found where the splitter closes a group. */
  lemma SeparatorMisleads(cfg: Config, s: string)
    requires WellNamed(cfg) && Resolve(cfg.options, "-").None? && Separator(cfg, s).Some? &&
             Resolve(cfg.options, s).Some?
    ensures !AgreesOn(cfg, ["-" + s, "x"]) && NoDoubleGuard(["-" + s, "x"])
  {
    hide Find, Separator, Resolve;
    EmptyIsNoRow(cfg);
    DashWord(s);
    var args := ["-" + s, "x"];
    assert args[1..] == ["x"];
    FoundForNothing(cfg, args, Finish(Separator(cfg, s).value, "x"), 2, Resolve(cfg.options, s).value);
  }

  /** An option that the libraries accept is found as the negation of a table option. */
  lemma LibraryMisleads(cfg: Config, s: string, arg: string)
    requires ClaimedByLibrary(cfg, s, arg) && Find(cfg.options, s[2..]).Some?
    ensures !AgreesOn(cfg, ["-" + s, arg]) && NoDoubleGuard(["-" + s, arg])
  {
    hide Find, Separator;
    DashWord(s);
    var args := ["-" + s, arg];
    assert args[1..] == [arg];
    FoundForNothing(cfg, args, Library(s, arg), 2, Find(cfg.options, s[2..]).value);
  }

  /** An exiting option m without argument hides any other option n that follows it. */
  lemma ExitMisleads(cfg: Config, m: nat, n: nat)
    requires WellNamed(cfg) && Separate(cfg) && m < |cfg.options| && n < |cfg.options| && m != n &&
             IsBareExit(cfg.options[m])
    ensures var args := ["-" + cfg.options[m].name, "-" + cfg.options[n].name];
      !AgreesOn(cfg, args) && NoDoubleGuard(args)
  {
    var x, y := cfg.options[m].name, cfg.options[n].name;
    assert Named(cfg, m) && Named(cfg, n);
    assert x != y && x != "-" && y != "-" && Separator(cfg, x).None?;
    var args := ["-" + x, "-" + y];
    assert args[1..] == ["-" + y];
    DashWord(x);
    DashWord(y);
    hide Find, Separator;
    var act := Record(Opt(m, x, Some("-" + y)));
    assert Read(cfg, args, false) == Emit(act, 2);
    ExitScan(cfg, args, m, n, act);
  }

  lemma ExitScan(cfg: Config, args: seq<string>, m: nat, n: nat, act: Action)
    requires |args| == 2 && args[0] != "--" && Read(cfg, args, false) == Emit(act, 2) && act.Record? && act.opt.def == m
    requires m < |cfg.options| && n < |cfg.options| && cfg.options[m].name != cfg.options[n].name &&
             !HasArg(cfg.options[m])
    requires !Plain(args[0]) && Resolve(cfg.options, args[0][1..]) == Some(m)
    requires !Plain(args[1]) && Resolve(cfg.options, args[1][1..]) == Some(n)
    ensures !AgreesOn(cfg, args)
  {
    hide Find, Read, Resolve;
    var name := cfg.options[n].name;
    assert Drop(args, 2) == [] && Drop(args, 1) == [args[1]];
    assert Split(cfg, args, 1, false) == Prepend([Event(1, act)], Ok([]));
    FirstOf(cfg.options, Event(1, act), [], name);
    assert Locate(cfg.options, [args[1]], 2, name) == 2;
    assert Locate(cfg.options, args, 1, name) == 2;
    assert !SameOn(cfg, args, name);
  }

  /** Exactly for unambiguous tables scanner and splitter agree on every option of the table and
      every command line that can be split and doubles no "--". */
  lemma AgreementIff(cfg: Config)
    requires WellNamed(cfg)
    ensures (forall args | NoDoubleGuard(args) :: AgreesOn(cfg, args)) <==> Unambiguous(cfg)
  {
    hide AgreesOn, Find, Separator, Resolve;
    if Unambiguous(cfg) {
      forall args | NoDoubleGuard(args) ensures AgreesOn(cfg, args) {
        UnambiguousAgrees(cfg, args);
      }
    } else if Resolve(cfg.options, "-").Some? {
      DashMisleads(cfg);
    } else if s :| Separator(cfg, s).Some? && Resolve(cfg.options, s).Some? {
      SeparatorMisleads(cfg, s);
    } else if s, arg :| ClaimedByLibrary(cfg, s, arg) && Find(cfg.options, s[2..]).Some? {
      LibraryMisleads(cfg, s, arg);
    } else {
      var m :| 0 <= m < |cfg.options| && IsBareExit(cfg.options[m]);
      ExitMisleads(cfg, m, if m == 0 then 1 else 0);
    }
  }

  // ---------------------------------------------------------------- two command lines

  function Plainly(): Config {
    Config([OptionDef("y", Bool, false, false, false), OptionDef("h", Func, false, true, false)], [None],
           (key, arg) => NotFound)
  }

  /** "-- -- -y": the splitter takes "-y" for an output name, the scanner for an option. */
  lemma DoubleGuardMisleads()
    ensures var args := ["--", "--", "-y"];
      && Split(Plainly(), args, 1, false) == Ok([Event(3, Finish(0, "-y"))])
      && Locate(Plainly().options, args, 1, "y") == 3
  {
    var cfg, args := Plainly(), ["--", "--", "-y"];
    assert Drop(args, 1) == ["--", "-y"] && Drop(["--", "-y"], 1) == ["-y"] && Drop(["-y"], 1) == [];
    assert Split(cfg, ["-y"], 3, true) == Prepend([Event(3, Finish(0, "-y"))], Split(cfg, [], 4, false));
    assert Split(cfg, ["--", "-y"], 2, true) == Split(cfg, ["-y"], 3, true);
    assert Read(cfg, args, false) == Guard;
    assert [Event(3, Finish(0, "-y"))] + [] == [Event(3, Finish(0, "-y"))];
    assert Split(cfg, args, 1, false) == Split(cfg, ["--", "-y"], 2, true);
    assert Drop(args, 2) == ["-y"];
    assert "--"[1..] == "-" && "-y"[1..] == "y";
    assert !Matches("-", cfg.options[0]) && !Matches("-", cfg.options[1]);
    assert Find(cfg.options, "-") == None;
    assert Matches("y", cfg.options[0]) && Unslashed("y") == "y";
    assert Find(cfg.options, "y") == Some(0);
  }

  /** "-h -y" with an exiting "-h" that takes no argument: the splitter takes "-y" for its
      argument, the scanner for an option. */
  lemma ExitingOptionMisleads()
    ensures var args := ["-h", "-y"];
      && Split(Plainly(), args, 1, false) == Ok([Event(1, Record(Opt(1, "h", Some("-y"))))])
      && Locate(Plainly().options, args, 1, "y") == 2
  {
    var cfg, args := Plainly(), ["-h", "-y"];
    assert "-h"[1..] == "h" && "-y"[1..] == "y" && args[1..] == ["-y"];
    assert !Matches("h", cfg.options[0]) && Matches("h", cfg.options[1]) && Unslashed("h") == "h";
    assert FindFrom(cfg.options, "h", 1) == Some(1);
    assert Find(cfg.options, "h") == Some(1);
    assert Drop(args, 2) == [] && Drop(args, 1) == ["-y"];
    var e := Event(1, Record(Opt(1, "h", Some("-y"))));
    assert Read(cfg, args, false) == Emit(e.act, 2);
    assert [e] + [] == [e];
    assert Split(cfg, args, 1, false) == Prepend([e], Split(cfg, [], 3, false));
    assert Matches("y", cfg.options[0]) && Unslashed("y") == "y";
    assert Find(cfg.options, "y") == Some(0);
    assert Locate(cfg.options, ["-y"], 2, "y") == 2;
  }
}
