/**
 What the words of a command line mean, from their text: which row of the option table a name stands for, what is
 made of the words behind it, and in which order groups are kept.
 */
module CommandMeaning {
  import opened Wrappers
  import opened CommandLine
  import opened OptionScanner

  // ---------------------------------------------------------------- names

  /** The name of the row, alone or with a specifier behind a colon. */
  ghost predicate Names(def: OptionDef, name: string) {
    name == def.name || exists spec: string :: name == def.name + ":" + spec
  }

  lemma MatchesIff(name: string, def: OptionDef)
    ensures Matches(name, def) <==> Names(def, name)
  {
    if Matches(name, def) && |name| > |def.name| {
      assert name == def.name + ":" + name[|def.name| + 1..];
    }
  }

  /** A slash before the name is not part of it. */
  predicate IsSlashed(name: string, plain: string) {
    name == "/" + plain || (name == plain && (plain == "" || plain[0] != '/'))
  }

  /** A name stands for the first row that it names. */
  lemma FindMeans(options: seq<OptionDef>, name: string, plain: string)
    requires IsSlashed(name, plain)
    ensures match Find(options, name)
      case Some(k) => Names(options[k], plain) && forall j | 0 <= j < k :: !Names(options[j], plain)
      case None => forall j | 0 <= j < |options| :: !Names(options[j], plain)
  {
    hide FindFrom, Matches, Names;
    assert Unslashed(name) == plain;
    FindIsFirst(options, plain, 0);
    forall j | 0 <= j < |options| ensures Matches(plain, options[j]) <==> Names(options[j], plain) {
      MatchesIff(plain, options[j]);
    }
  }

  lemma {:induction false} SeparatorMeans(seps: seq<Option<string>>, name: string, i: nat)
    requires i <= |seps|
    ensures match SeparatorFrom(seps, name, i)
      case Some(k) => seps[k] == Some(name) && forall j | i <= j < k :: seps[j] != Some(name)
      case None => forall j | i <= j < |seps| :: seps[j] != Some(name)
    decreases |seps| - i
  {
    if i < |seps| && seps[i] != Some(name) {
      SeparatorMeans(seps, name, i + 1);
    }
  }

  // ---------------------------------------------------------------- one word

  function Next(rest: seq<string>): Option<string> {
    if rest == [] then None else Some(rest[0])
  }

  /** A name from the table that is no separator: exiting options take the next word if there is one, options with a
      value and functions with an argument need it, switches and functions without argument are set to "1". */
  lemma TableOptionIsRead(cfg: Config, name: string, rest: seq<string>, k: nat)
    requires Some(name) !in cfg.separators && Find(cfg.options, name) == Some(k)
    ensures var r := ReadOption(cfg, name, rest);
      match cfg.options[k]
      case OptionDef(_, _, _, true, _) => r == Emit(Record(Opt(k, name, Next(rest))), 2)
      case OptionDef(_, Bool, _, _, _) => r == Emit(Record(Opt(k, name, Some("1"))), 1)
      case OptionDef(_, Func, false, _, _) => r == Emit(Record(Opt(k, name, Some("1"))), 1)
      case _ => r == if rest == [] then Reject(MissingArgument) else Emit(Record(Opt(k, name, Some(rest[0]))), 2)
  {
    SeparatorMeans(cfg.separators, name, 0);
  }

  /** A name that is in no table: the libraries are asked with the next word; if they do not know it, a switch may
      have been meant, with "no" before it, which is set to "0". */
  lemma OtherOptionIsRead(cfg: Config, name: string, rest: seq<string>)
    requires Some(name) !in cfg.separators && Find(cfg.options, name).None?
    ensures var r := ReadOption(cfg, name, rest);
      var verdict := if rest == [] then NotFound else cfg.avOption(name, rest[0]);
      match verdict
      case Accepted => r == Emit(Library(name, rest[0]), 2)
      case Refused => r == Reject(Invalid)
      case NotFound =>
        && (forall positive, k: nat | name == "no" + positive && Find(cfg.options, positive) == Some(k) ::
              r == if cfg.options[k].kind == Bool then Emit(Record(Opt(k, name, Some("0"))), 1)
                   else Reject(UnknownOption))
        && ((forall positive | name == "no" + positive :: Find(cfg.options, positive).None?) ==>
              r == Reject(UnknownOption))
  {
    SeparatorMeans(cfg.separators, name, 0);
    if Negated(name) {
      assert name == "no" + name[2..];
    }
    forall positive | name == "no" + positive ensures Negated(name) && name[2..] == positive {
    }
  }

  /** A separator, the first with its name, closes its group with the next word. */
  lemma SeparatorIsRead(cfg: Config, name: string, rest: seq<string>, g: nat)
    requires g < |cfg.separators| && cfg.separators[g] == Some(name)
    requires forall j | 0 <= j < g :: cfg.separators[j] != Some(name)
    ensures ReadOption(cfg, name, rest) == if rest == [] then Reject(MissingArgument) else Emit(Finish(g, rest[0]), 2)
  {
    SeparatorMeans(cfg.separators, name, 0);
    assert Some(name) in cfg.separators;
  }

  // ---------------------------------------------------------------- groups

  /** The groups of a type stay in the order in which they were closed. */
  lemma {:induction false} OfTypeConcat(a: seq<Group>, b: seq<Group>, g: nat)
    ensures OfType(a + b, g) == OfType(a, g) + OfType(b, g)
    decreases |b|
  {
    if b == [] {
      assert a + b == a;
    } else {
      var n := |b| - 1;
      assert (a + b)[..|a + b| - 1] == a + b[..n];
      OfTypeConcat(a, b[..n], g);
    }
  }

  lemma OfTypeOne(x: Group, g: nat)
    ensures OfType([x], g) == if x.group == g then [x] else []
  {
    assert [x][..0] == [];
  }

  // ---------------------------------------------------------------- the scanner

  /** Behind plain words the scanner stops at the first word that stands for the name: as a row of that name, or
      literally if it stands for no row. */
  lemma {:induction false} LocateFinds(options: seq<OptionDef>, plain: seq<string>, cur: string, rest: seq<string>,
                                       pos: nat, name: string)
    requires (forall i | 0 <= i < |plain| :: Plain(plain[i])) && cur != ""
    requires match Resolve(options, cur) case Some(k) => options[k].name == name case None => cur == name
    ensures Locate(options, plain + ["-" + cur] + rest, pos, name) == pos + |plain|
    decreases |plain|
  {
    var args := plain + ["-" + cur] + rest;
    if plain == [] {
      DashWord(cur);
      assert args[0] == "-" + cur;
    } else {
      assert args[0] == plain[0] && Drop(args, 1) == plain[1..] + ["-" + cur] + rest;
      LocateFinds(options, plain[1..], cur, rest, pos + 1, name);
    }
  }
}
