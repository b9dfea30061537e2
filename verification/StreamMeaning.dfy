/**
 What the text of a stream specifier means: every designator says something about the streams of a
 file, and a stream matches if and only if it is all true of it.
 */
module StreamMeaning {
  import opened Wrappers
  import Strtol
  import opened StreamSpecifier
  import opened StreamDesignators
  import opened StreamMatch

  // ---------------------------------------------------------------- what a designator says

  /** All bits of the mask are set. */
  predicate BitsSet(disposition: bv32, mask: bv32) {
    disposition & mask == mask
  }

  /** Bit 10 marks an attached picture. */
  predicate PictureBit(disposition: bv32) {
    disposition & 1024 != 0
  }

  lemma BitsMean(d: bv32, m: bv32)
    ensures BitsSet(d, m) <==> HasAll(d, m)
    ensures PictureBit(d) <==> HasPicture(d)
  {
  }

  predicate IsLetter(c: char) {
    'a' <= c <= 'z' || 'A' <= c <= 'Z'
  }

  /** The same character, or a letter in upper and in lower case. */
  predicate SameLetter(x: char, y: char) {
    x == y || (IsLetter(x) && IsLetter(y) && (x as int - y as int == 32 || y as int - x as int == 32))
  }

  /** Equal but for upper and lower case. */
  predicate SameIgnoringCase(a: string, b: string) {
    |a| == |b| && forall i | 0 <= i < |a| :: SameLetter(a[i], b[i])
  }

  lemma KeysMean(a: string, b: string)
    ensures SameIgnoringCase(a, b) <==> SameKey(a, b)
  {
    if |a| == |b| {
      forall i | 0 <= i < |a| ensures Upper(a[i]) == Upper(b[i]) <==> SameLetter(a[i], b[i]) {
        LettersMean(a[i], b[i]);
      }
    }
  }

  lemma LettersMean(x: char, y: char)
    ensures Upper(x) == Upper(y) <==> SameLetter(x, y)
  {
  }

  /** The kind of stream a letter stands for; 'V' is video that is no attached picture. */
  predicate KindIs(letter: char, c: Stream) {
    (letter == 'v' ==> c.par.kind == Video) && (letter == 'a' ==> c.par.kind == Audio) &&
    (letter == 's' ==> c.par.kind == Subtitle) && (letter == 'd' ==> c.par.kind == Data) &&
    (letter == 't' ==> c.par.kind == Attachment) &&
    (letter == 'V' ==> c.par.kind == Video && !PictureBit(c.disposition))
  }

  /** Stream st belongs to the first bundle with this ID. */
  ghost predicate InBundle(bs: seq<Bundle>, id: int, st: nat) {
    exists i | 0 <= i < |bs| :: FirstWithId(bs, id, i) && st in bs[i].streams
  }

  predicate FirstWithId(bs: seq<Bundle>, id: int, i: nat)
    requires i < |bs|
  {
    bs[i].id == id && forall j | 0 <= j < i :: bs[j].id != id
  }

  /** What a designator says of stream st. */
  ghost predicate Says(lib: Library, d: Designator, f: File, st: nat)
    requires st < |f.streams|
  {
    match d
    case Medium(letter) => KindIs(letter, f.streams[st])
    case Group(prefix, number) =>
      var n := Strtol.Parse(number).value;
      if prefix == "" then 0 <= n < |f.groups| && st in f.groups[n].streams else InBundle(f.groups, n, st)
    case Prog(number) => InBundle(f.programs, Strtol.Parse(number).value, st)
    case Disp(flags) =>
      lib.flags(flags).Some? && BitsSet(f.streams[st].disposition, lib.flags(flags).value)
  }

  ghost predicate AllSay(lib: Library, ds: seq<Designator>, f: File, st: nat)
    requires st < |f.streams|
  {
    forall d | d in ds :: Says(lib, d, f, st)
  }

  /** How a specifier may end. */
  datatype Last =
    | Nothing
    | Index(number: string)
    | Identity(prefix: string, number: string)
    | Meta(body: string)
    | UsableOnly

  function LastText(l: Last): string {
    match l
    case Nothing => ""
    case Index(n) => n
    case Identity(p, n) => p + n
    case Meta(b) => "m:" + b
    case UsableOnly => "u"
  }

  /** The metadata designator: a key, and possibly a value behind a colon. */
  function MetaKey(lib: Library, body: string): string {
    lib.token(body).text
  }

  function MetaRest(lib: Library, body: string): string {
    Skip(body, lib.token(body).used)
  }

  function MetaValue(lib: Library, body: string): Option<string> {
    var rest := MetaRest(lib, body);
    if Begins(rest, ":") then Some(lib.token(rest[1..]).text) else None
  }

  /** The text is used up. */
  predicate LastWellformed(lib: Library, l: Last) {
    match l
    case Nothing => true
    case Index(n) => Strtol.Whole(n) && n != "" && IsDigit(n[0])
    case Identity(p, n) => (p == "#" || p == "i:") && Strtol.Whole(n)
    case Meta(b) =>
      var rest := MetaRest(lib, b);
      if Begins(rest, ":") then Skip(rest[1..], lib.token(rest[1..]).used) == "" else rest == ""
    case UsableOnly => true
  }

  /** Some tag has this key, whatever its case, and the first that has it this value, if one is asked for. */
  ghost predicate HasTag(metadata: seq<(string, string)>, key: string, value: Option<string>) {
    exists i | 0 <= i < |metadata| :: FirstTag(metadata, key, i) && (value.Some? ==> metadata[i].1 == value.value)
  }

  predicate FirstTag(metadata: seq<(string, string)>, key: string, i: nat)
    requires i < |metadata|
  {
    SameIgnoringCase(metadata[i].0, key) && forall j | 0 <= j < i :: !SameIgnoringCase(metadata[j].0, key)
  }

  /** Enough is known of the stream to decode it. */
  predicate IsUsable(p: Params) {
    p.kind != Unknown &&
    (p.kind == Audio ==> p.sampleRate != 0 && p.channels != 0 && p.knownFormat) &&
    (p.kind == Video ==> p.width != 0 && p.height != 0 && p.knownFormat)
  }

  /** What the end of a specifier says of a stream; an index says it of the list. */
  ghost predicate LastSays(lib: Library, l: Last, c: Stream) {
    match l
    case Nothing => true
    case Index(_) => true
    case Identity(_, number) => c.id == Strtol.Parse(number).value
    case Meta(body) => HasTag(c.metadata, MetaKey(lib, body), MetaValue(lib, body))
    case UsableOnly => IsUsable(c.par)
  }

  // ---------------------------------------------------------------- lists and tags

  lemma {:induction false} FindMeans(bs: seq<Bundle>, id: int, n: nat, st: nat)
    requires n <= |bs| && forall j | 0 <= j < n :: bs[j].id != id
    ensures st in Listed(Find(bs, id, n)) <==> InBundle(bs, id, st)
    decreases |bs| - n
  {
    if n < |bs| {
      if bs[n].id == id {
        assert FirstWithId(bs, id, n);
        forall i | 0 <= i < |bs| && FirstWithId(bs, id, i) ensures i == n {
        }
      } else {
        FindMeans(bs, id, n + 1, st);
      }
    }
  }

  lemma {:induction false} TagMeans(metadata: seq<(string, string)>, key: string, value: Option<string>, n: nat)
    requires n <= |metadata| && forall j | 0 <= j < n :: !SameIgnoringCase(metadata[j].0, key)
    ensures var tag := Tag(metadata, key, n);
      HasTag(metadata, key, value) <==> tag.Some? && (value.Some? ==> tag.value == value.value)
    decreases |metadata| - n
  {
    hide SameKey, SameIgnoringCase;
    if n < |metadata| {
      KeysMean(metadata[n].0, key);
      if SameKey(metadata[n].0, key) {
        assert FirstTag(metadata, key, n);
        forall i | 0 <= i < |metadata| && FirstTag(metadata, key, i) ensures i == n {
        }
      } else {
        TagMeans(metadata, key, value, n + 1);
      }
    }
  }

  // ---------------------------------------------------------------- specifiers

  /** In the chosen list, and fitting. */
  ghost predicate Selects(ss: Specifier, f: File, st: nat)
    requires st < |f.streams|
  {
    st in Chosen(ss, f) && Fits(ss, f.streams[st])
  }

  /** 'V' is remembered with its kind only. */
  predicate Coherent(ss: Specifier) {
    ss.media == Unknown ==> !ss.noApic
  }

  /** Metadata and usability. */
  predicate RestFits(ss: Specifier, c: Stream) {
    MetadataFits(ss, c) && (ss.usable ==> Usable(c.par))
  }

  predicate DispositionFits(mask: bv32, c: Stream) {
    mask == 0 || HasAll(c.disposition, mask)
  }

  lemma Parts(ss: Specifier, c: Stream)
    ensures Fits(ss, c) <==> MediaFits(ss, c) && RestFits(ss, c) && DispositionFits(ss.disposition, c)
  {
    hide MetadataFits, MediaFits, Usable, HasAll;
  }

  lemma SameRest(ss: Specifier, ss': Specifier, c: Stream)
    requires ss'.metaKey == ss.metaKey && ss'.metaVal == ss.metaVal && ss'.usable == ss.usable
    ensures RestFits(ss', c) == RestFits(ss, c)
  {
    hide Tag, Usable;
  }

  lemma SameList(ss: Specifier, ss': Specifier, f: File)
    requires ss'.list == ss.list && ss'.listId == ss.listId
    ensures Chosen(ss', f) == Chosen(ss, f)
  {
    hide Find, WithId, Upto, GroupAt;
  }

  lemma LetterFits(ss: Specifier, ss': Specifier, letter: char, c: Stream)
    requires IsMedia(letter) && ss.media == Unknown && !ss.noApic && ss'.media == MediaOf(letter)
    requires ss'.noApic == (letter == 'V')
    ensures MediaFits(ss', c) <==> KindIs(letter, c)
    ensures MediaFits(ss, c) && Coherent(ss')
  {
    BitsMean(c.disposition, 0);
    hide HasPicture, PictureBit;
  }

  lemma MediumMeans(lib: Library, ss: Specifier, letter: char, f: File, st: nat)
    requires st < |f.streams| && Coherent(ss) && Apply(lib, ss, Medium(letter)).Some?
    ensures var ss' := Apply(lib, ss, Medium(letter)).value;
      Coherent(ss') && (Selects(ss', f, st) <==> Selects(ss, f, st) && KindIs(letter, f.streams[st]))
  {
    var ss' := Apply(lib, ss, Medium(letter)).value;
    var c := f.streams[st];
    LetterFits(ss, ss', letter, c);
    hide MediaFits, RestFits, DispositionFits, Fits, Chosen, KindIs, MediaOf;
    SameList(ss, ss', f);
    SameRest(ss, ss', c);
    Parts(ss, c);
    Parts(ss', c);
  }

  lemma ListMeans(lib: Library, ss: Specifier, d: Designator, f: File, st: nat)
    requires st < |f.streams| && Coherent(ss) && Apply(lib, ss, d).Some? && (d.Group? || d.Prog?)
    ensures var ss' := Apply(lib, ss, d).value;
      Coherent(ss') && (Selects(ss', f, st) <==> Selects(ss, f, st) && Says(lib, d, f, st))
  {
    hide MediaFits, RestFits, DispositionFits, Fits, Strtol.Parse, Find, InBundle;
    var ss' := Apply(lib, ss, d).value;
    var c := f.streams[st];
    SameMedia(ss, ss', c);
    SameRest(ss, ss', c);
    Parts(ss, c);
    Parts(ss', c);
    assert Chosen(ss, f)[st] == st;
    FindMeans(f.programs, ss'.listId, 0, st);
    FindMeans(f.groups, ss'.listId, 0, st);
  }

  lemma SameMedia(ss: Specifier, ss': Specifier, c: Stream)
    requires ss'.media == ss.media && ss'.noApic == ss.noApic
    ensures MediaFits(ss', c) == MediaFits(ss, c)
  {
  }

  lemma ZeroMask(d: bv32)
    ensures HasAll(d, 0)
  {
  }

  lemma DispMeans(lib: Library, ss: Specifier, flags: string, f: File, st: nat)
    requires st < |f.streams| && Coherent(ss) && Apply(lib, ss, Disp(flags)).Some?
    ensures var ss' := Apply(lib, ss, Disp(flags)).value;
      Coherent(ss') && (Selects(ss', f, st) <==> Selects(ss, f, st) && Says(lib, Disp(flags), f, st))
  {
    hide MediaFits, RestFits, Fits, Chosen, HasAll, BitsSet;
    var ss' := Apply(lib, ss, Disp(flags)).value;
    var c := f.streams[st];
    SameList(ss, ss', f);
    SameMedia(ss, ss', c);
    SameRest(ss, ss', c);
    Parts(ss, c);
    Parts(ss', c);
    ZeroMask(c.disposition);
    BitsMean(c.disposition, ss'.disposition);
  }

  /** A designator that is accepted adds what it says. */
  lemma DesignatorMeans(lib: Library, ss: Specifier, d: Designator, f: File, st: nat)
    requires st < |f.streams| && Coherent(ss) && Apply(lib, ss, d).Some?
    ensures var ss' := Apply(lib, ss, d).value;
      Coherent(ss') && (Selects(ss', f, st) <==> Selects(ss, f, st) && Says(lib, d, f, st))
  {
    hide Selects, Apply, Coherent;
    match d
    case Medium(letter) => MediumMeans(lib, ss, letter, f, st);
    case Group(_, _) => ListMeans(lib, ss, d, f, st);
    case Prog(_) => ListMeans(lib, ss, d, f, st);
    case Disp(flags) => DispMeans(lib, ss, flags, f, st);
  }

  lemma {:induction false} DesignatorsMean(lib: Library, ss: Specifier, ds: seq<Designator>, f: File, st: nat)
    requires st < |f.streams| && Coherent(ss) && ApplyAll(lib, ss, ds).Some?
    ensures var ss' := ApplyAll(lib, ss, ds).value;
      Coherent(ss') && (Selects(ss', f, st) <==> Selects(ss, f, st) && AllSay(lib, ds, f, st))
    decreases |ds|
  {
    hide Selects, Apply, Says, Coherent;
    if ds != [] {
      var d, rest := ds[0], ds[1..];
      DesignatorMeans(lib, ss, d, f, st);
      DesignatorsMean(lib, Apply(lib, ss, d).value, rest, f, st);
      assert ds == [d] + rest;
      assert AllSay(lib, ds, f, st) <==> Says(lib, d, f, st) && AllSay(lib, rest, f, st);
    }
  }

  // ---------------------------------------------------------------- the end of a specifier

  lemma IdentityParsed(lib: Library, ss: Specifier, p: string, n: string)
    requires (p == "#" || p == "i:") && Strtol.Whole(n)
    ensures Parse(lib, ss, p + n, false) ==
            if ss.list != All then None else Some(ss.(list := StreamId, listId := Strtol.Parse(n).value))
  {
    hide Strtol.Parse, GroupStep, Numbered, DispositionStep, MetadataStep;
    var s := p + n;
    BeginsWith(p, n);
    assert s[0] == p[0];
    assert Skip(n, |n|) == "";
    ParseUnfolds(lib, ss, s, false);
  }

  lemma IndexParsed(lib: Library, ss: Specifier, n: string)
    requires Strtol.Whole(n) && n != "" && IsDigit(n[0])
    ensures Parse(lib, ss, n, false) == Some(ss.(idx := ToInt(Strtol.Parse(n).value)))
  {
    hide Strtol.Parse, GroupStep, Numbered, DispositionStep, LastStep;
    assert Skip(n, |n|) == "";
    ParseUnfolds(lib, ss, n, false);
  }

  /** What follows an index behind a colon is kept as the remainder, where one is allowed; else it is an error. */
  lemma RemainderKept(lib: Library, ss: Specifier, n: string, t: string)
    requires Strtol.Whole(n) && IsDigit(n[0])
    ensures Parse(lib, ss, n + ":" + t, true) ==
            Some(ss.(idx := ToInt(Strtol.Parse(n).value), remainder := Some(t)))
    ensures Parse(lib, ss, n + ":" + t, false) == None
  {
    hide Strtol.Parse, GroupStep, Numbered, DispositionStep, LastStep;
    var s, rest := n + ":" + t, ":" + t;
    assert s == n + rest && s[0] == n[0] && rest[0] == ':' && rest[..1] == ":" && rest[1..] == t;
    Strtol.NumberStops(n, rest);
    assert Skip(s, |n|) == rest;
    ParseUnfolds(lib, ss, s, true);
    ParseUnfolds(lib, ss, s, false);
  }

  lemma UsableParsed(lib: Library, ss: Specifier)
    ensures Parse(lib, ss, "u", false) == Some(ss.(usable := true))
  {
    hide Strtol.Parse, GroupStep, Numbered, DispositionStep, MetadataStep, IdStep;
    ParseUnfolds(lib, ss, "u", false);
  }

  lemma MetaParsed(lib: Library, ss: Specifier, b: string)
    requires LastWellformed(lib, Meta(b)) && ss.metaVal.None?
    ensures Parse(lib, ss, "m:" + b, false) == Some(ss.(metaKey := Some(MetaKey(lib, b)), metaVal := MetaValue(lib, b)))
  {
    hide Strtol.Parse, GroupStep, Numbered, DispositionStep, IdStep, Skip;
    var s := "m:" + b;
    BeginsWith("m:", b);
    assert s[0] == 'm';
    ParseUnfolds(lib, ss, s, false);
  }

  lemma IdentityMeans(lib: Library, ss: Specifier, p: string, n: string, f: File, st: nat)
    requires st < |f.streams| && LastWellformed(lib, Identity(p, n)) && Parse(lib, ss, p + n, false).Some?
    ensures var ss' := Parse(lib, ss, p + n, false).value;
      ss'.idx == ss.idx && (Selects(ss', f, st) <==> Selects(ss, f, st) && f.streams[st].id == Strtol.Parse(n).value)
  {
    IdentityParsed(lib, ss, p, n);
    hide Parse, MediaFits, DispositionFits, Fits, Strtol.Parse, RestFits;
    var ss' := Parse(lib, ss, p + n, false).value;
    var c := f.streams[st];
    SameRest(ss, ss', c);
    SameMedia(ss, ss', c);
    Parts(ss, c);
    Parts(ss', c);
    assert Chosen(ss, f)[st] == st;
  }

  lemma MetaMeans(lib: Library, ss: Specifier, b: string, f: File, st: nat)
    requires st < |f.streams| && LastWellformed(lib, Meta(b)) && ss.metaKey.None? && ss.metaVal.None?
    ensures Parse(lib, ss, "m:" + b, false).Some?
    ensures var ss' := Parse(lib, ss, "m:" + b, false).value;
      && ss'.idx == ss.idx
      && (Selects(ss', f, st) <==>
          Selects(ss, f, st) && HasTag(f.streams[st].metadata, MetaKey(lib, b), MetaValue(lib, b)))
  {
    MetaParsed(lib, ss, b);
    hide Parse, MediaFits, DispositionFits, Fits, MetaKey, MetaValue, HasTag, Chosen, Tag, Usable;
    var ss' := Parse(lib, ss, "m:" + b, false).value;
    var c := f.streams[st];
    SameList(ss, ss', f);
    TagMeans(c.metadata, MetaKey(lib, b), MetaValue(lib, b), 0);
    SameMedia(ss, ss', c);
    Parts(ss, c);
    Parts(ss', c);
  }

  lemma UsableMeans(lib: Library, ss: Specifier, f: File, st: nat)
    requires st < |f.streams| && !ss.usable
    ensures Parse(lib, ss, "u", false).Some?
    ensures var ss' := Parse(lib, ss, "u", false).value;
      ss'.idx == ss.idx && (Selects(ss', f, st) <==> Selects(ss, f, st) && IsUsable(f.streams[st].par))
  {
    UsableParsed(lib, ss);
    hide Parse, MediaFits, DispositionFits, Fits, Chosen, MetadataFits;
    var ss' := Parse(lib, ss, "u", false).value;
    var c := f.streams[st];
    SameList(ss, ss', f);
    SameMedia(ss, ss', c);
    SameTags(ss, ss', c);
    Parts(ss, c);
    Parts(ss', c);
  }

  lemma SameTags(ss: Specifier, ss': Specifier, c: Stream)
    requires ss'.metaKey == ss.metaKey && ss'.metaVal == ss.metaVal
    ensures MetadataFits(ss', c) == MetadataFits(ss, c)
  {
    hide Tag;
  }

  lemma IndexMeans(lib: Library, ss: Specifier, n: string, f: File, st: nat)
    requires st < |f.streams| && LastWellformed(lib, Index(n))
    ensures Parse(lib, ss, n, false).Some?
    ensures var ss' := Parse(lib, ss, n, false).value;
      ss' == ss.(idx := ToInt(Strtol.Parse(n).value)) && (Selects(ss', f, st) <==> Selects(ss, f, st))
  {
    IndexParsed(lib, ss, n);
    hide Parse, MediaFits, DispositionFits, Fits, Chosen, RestFits, Strtol.Parse, ToInt;
    var ss' := Parse(lib, ss, n, false).value;
    var c := f.streams[st];
    SameList(ss, ss', f);
    SameRest(ss, ss', c);
    SameMedia(ss, ss', c);
    Parts(ss, c);
    Parts(ss', c);
  }

  /** The end of a specifier adds what it says. */
  lemma LastMeans(lib: Library, ss: Specifier, l: Last, f: File, st: nat)
    requires st < |f.streams| && InProgress(ss) && LastWellformed(lib, l)
    requires Parse(lib, ss, LastText(l), false).Some?
    ensures var ss' := Parse(lib, ss, LastText(l), false).value;
      && (Selects(ss', f, st) <==> Selects(ss, f, st) && LastSays(lib, l, f.streams[st]))
      && ss'.idx == if l.Index? then ToInt(Strtol.Parse(l.number).value) else -1
  {
    hide Parse, Selects, Strtol.Parse, ToInt, HasTag, IsUsable;
    match l
    case Nothing => ParseNothing(lib, ss);
    case Index(n) => IndexMeans(lib, ss, n, f, st);
    case Identity(p, n) => IdentityMeans(lib, ss, p, n, f, st);
    case Meta(b) => MetaMeans(lib, ss, b, f, st);
    case UsableOnly => UsableMeans(lib, ss, f, st);
  }

  lemma ParseNothing(lib: Library, ss: Specifier)
    ensures Parse(lib, ss, "", false) == Some(ss)
  {
  }

  // ---------------------------------------------------------------- whole texts

  lemma {:induction false} AppliedInProgress(lib: Library, ss: Specifier, ds: seq<Designator>)
    requires InProgress(ss) && ApplyAll(lib, ss, ds).Some?
    ensures InProgress(ApplyAll(lib, ss, ds).value)
    decreases |ds|
  {
    hide Strtol.Parse;
    if ds != [] {
      AppliedInProgress(lib, Apply(lib, ss, ds[0]).value, ds[1..]);
    }
  }

  lemma InitialSelects(f: File, st: nat)
    requires st < |f.streams|
    ensures Coherent(Initial()) && InProgress(Initial()) && Selects(Initial(), f, st)
  {
    assert Chosen(Initial(), f)[st] == st;
  }

  /** The text of a specifier, as far as it selects single streams: it is parsed to one whose constraints are exactly
      what its designators and its end say. */
  lemma TextSelects(lib: Library, ds: seq<Designator>, l: Last, f: File, st: nat)
    requires (forall d | d in ds :: Wellformed(d)) && LastWellformed(lib, l) && st < |f.streams|
    requires Parse(lib, Initial(), Text(ds, LastText(l)), false).Some?
    ensures var ss := Parse(lib, Initial(), Text(ds, LastText(l)), false).value;
      && (Selects(ss, f, st) <==> AllSay(lib, ds, f, st) && LastSays(lib, l, f.streams[st]))
      && ss.idx == if l.Index? then ToInt(Strtol.Parse(l.number).value) else -1
  {
    hide Parse, Text, Wellformed, ApplyAll, Selects, AllSay, LastSays;
    hide Strtol.Parse, ToInt, Coherent, InProgress, LastWellformed, LastText;
    InitialSelects(f, st);
    DesignatorsParsed(lib, Initial(), ds, LastText(l), false);
    DesignatorsMean(lib, Initial(), ds, f, st);
    AppliedInProgress(lib, Initial(), ds);
    LastMeans(lib, ApplyAll(lib, Initial(), ds).value, l, f, st);
  }

  lemma MatchesSelects(ss: Specifier, f: File, st: nat)
    requires Valid(f) && st < |f.streams| && ss.idx < 0
    ensures Matches(ss, f, st) <==> Selects(ss, f, st)
  {
    hide Fits, Filtered, Chosen;
    ChosenInFile(ss, f);
    var l := Chosen(ss, f);
    FilteredMembers(ss, f, l, |l|, st);
    assert l[..|l|] == l;
  }

  /** A stream matches a text without index if and only if it is all true of it: every designator and the end. */
  lemma TextMeans(lib: Library, ds: seq<Designator>, l: Last, f: File, st: nat)
    requires (forall d | d in ds :: Wellformed(d)) && LastWellformed(lib, l) && !l.Index? && Valid(f)
    requires st < |f.streams|
    requires Parse(lib, Initial(), Text(ds, LastText(l)), false).Some?
    ensures Matches(Parse(lib, Initial(), Text(ds, LastText(l)), false).value, f, st) <==>
            AllSay(lib, ds, f, st) && LastSays(lib, l, f.streams[st])
  {
    hide Parse, Text, Wellformed, Matches, Selects, AllSay, LastSays, LastWellformed, LastText;
    TextSelects(lib, ds, l, f, st);
    MatchesSelects(Parse(lib, Initial(), Text(ds, LastText(l)), false).value, f, st);
  }

  /** A letter alone stands for the streams of its kind. */
  lemma LetterMeans(lib: Library, letter: char, f: File, st: nat)
    requires IsMedia(letter) && Valid(f) && st < |f.streams|
    ensures Parse(lib, Initial(), [letter], false).Some?
    ensures Matches(Parse(lib, Initial(), [letter], false).value, f, st) <==> KindIs(letter, f.streams[st])
  {
    var ds := [Medium(letter)];
    hide Matches, KindIs;
    assert Text(ds, "") == [letter] by {
      assert ds[1..] == [];
      assert [letter] + "" == [letter];
    }
    DesignatorsParsed(lib, Initial(), ds, "", false);
    assert ApplyAll(lib, Initial(), ds).Some? by {
      assert ds[1..] == [];
    }
    TextMeans(lib, ds, Nothing, f, st);
    assert Medium(letter) in ds;
    assert AllSay(lib, ds, f, st) <==> Says(lib, Medium(letter), f, st);
  }

  // ---------------------------------------------------------------- an index

  /** Of how many of the first n streams it is all true. */
  ghost function Before(lib: Library, ds: seq<Designator>, f: File, n: nat): nat
    requires n <= |f.streams|
  {
    if n == 0 then 0 else Before(lib, ds, f, n - 1) + One(AllSay(lib, ds, f, n - 1))
  }

  /** Only kinds and dispositions: the list is that of all streams. */
  predicate NoList(ds: seq<Designator>) {
    forall i | 0 <= i < |ds| :: ds[i].Medium? || ds[i].Disp?
  }

  lemma {:induction false} AllStreams(lib: Library, ss: Specifier, ds: seq<Designator>)
    requires NoList(ds) && ApplyAll(lib, ss, ds).Some?
    ensures ApplyAll(lib, ss, ds).value.list == ss.list
    decreases |ds|
  {
    if ds != [] {
      AllStreams(lib, Apply(lib, ss, ds[0]).value, ds[1..]);
    }
  }

  lemma IndexedSpecifier(lib: Library, ds: seq<Designator>, n: string)
    requires (forall d | d in ds :: Wellformed(d)) && LastWellformed(lib, Index(n)) && NoList(ds)
    requires Parse(lib, Initial(), Text(ds, n), false).Some?
    ensures Parse(lib, Initial(), Text(ds, n), false).value.list == All
  {
    hide Parse, Text, Wellformed, ApplyAll, Strtol.Parse, ToInt;
    DesignatorsParsed(lib, Initial(), ds, n, false);
    AllStreams(lib, Initial(), ds);
    IndexParsed(lib, ApplyAll(lib, Initial(), ds).value, n);
  }

  /** Among all streams, the filtered list is as long as the streams it is all true of. */
  lemma {:induction false} FilteredCount(lib: Library, ds: seq<Designator>, ss: Specifier, f: File, n: nat)
    requires Valid(f) && n <= |f.streams| && ss.list == All && InFile(f, Chosen(ss, f))
    requires forall j | 0 <= j < |f.streams| :: Fits(ss, f.streams[j]) <==> AllSay(lib, ds, f, j)
    ensures |Chosen(ss, f)| == |f.streams| && |Filtered(ss, f, Chosen(ss, f), n)| == Before(lib, ds, f, n)
  {
    hide Fits, AllSay;
    if n > 0 {
      FilteredCount(lib, ds, ss, f, n - 1);
      assert Chosen(ss, f)[n - 1] == n - 1;
    }
  }

  lemma NotYet(ss: Specifier, f: File, st: nat)
    requires Valid(f) && st < |f.streams| && ss.list == All && InFile(f, Chosen(ss, f))
    ensures |Chosen(ss, f)| == |f.streams| && st !in Filtered(ss, f, Chosen(ss, f), st)
  {
    hide Fits, Filtered;
    var l := Chosen(ss, f);
    FilteredMembers(ss, f, l, st, st);
  }

  /** An index n counts the streams that it is all true of: the stream that matches is the one with exactly n before
      it. */
  lemma IndexCounts(lib: Library, ds: seq<Designator>, n: string, f: File, st: nat)
    requires (forall d | d in ds :: Wellformed(d)) && LastWellformed(lib, Index(n)) && NoList(ds) && Valid(f)
    requires st < |f.streams|
    requires Parse(lib, Initial(), Text(ds, n), false).Some? && 0 <= Strtol.Parse(n).value <= 0x7fff_ffff
    ensures Matches(Parse(lib, Initial(), Text(ds, n), false).value, f, st) <==>
            AllSay(lib, ds, f, st) && Before(lib, ds, f, st) == Strtol.Parse(n).value
  {
    hide Parse, Text, Wellformed, AllSay, LastWellformed, Strtol.Parse, Fits, Before, Filtered, Selects;
    var ss := Parse(lib, Initial(), Text(ds, n), false).value;
    IndexedSpecifier(lib, ds, n);
    TextSelects(lib, ds, Index(n), f, st);
    ChosenInFile(ss, f);
    forall j | 0 <= j < |f.streams| ensures Fits(ss, f.streams[j]) <==> AllSay(lib, ds, f, j) {
      TextSelects(lib, ds, Index(n), f, j);
      InAll(ss, f, j);
    }
    FilteredCount(lib, ds, ss, f, st);
    NotYet(ss, f, st);
    InAll(ss, f, st);
    var l := Chosen(ss, f);
    if Fits(ss, f.streams[st]) {
      FoundAt(ss, f, l, st);
    } else {
      FilteredMembers(ss, f, l, |l|, st);
    }
  }

  lemma InAll(ss: Specifier, f: File, st: nat)
    requires st < |f.streams| && ss.list == All
    ensures (Selects(ss, f, st) <==> Fits(ss, f.streams[st])) && Chosen(ss, f)[st] == st
  {
    hide Fits;
    assert Chosen(ss, f)[st] == st;
  }

  /** "a:n" and the like: the stream of that kind with exactly n of the kind before it. */
  lemma NthOfKind(lib: Library, letter: char, n: string, f: File, st: nat)
    requires IsMedia(letter) && LastWellformed(lib, Index(n)) && 0 <= Strtol.Parse(n).value <= 0x7fff_ffff
    requires Valid(f) && st < |f.streams|
    ensures Parse(lib, Initial(), [letter] + ":" + n, false).Some?
    ensures Matches(Parse(lib, Initial(), [letter] + ":" + n, false).value, f, st) <==>
            KindIs(letter, f.streams[st]) && CountKind(letter, f, st) == Strtol.Parse(n).value
  {
    var ds := [Medium(letter)];
    hide Matches, KindIs, Strtol.Parse;
    assert n != "";
    assert Text(ds, n) == [letter] + ":" + n by {
      assert ds[1..] == [] && Text([], n) == n;
      assert [letter] + (":" + n) == [letter] + ":" + n;
    }
    DesignatorsParsed(lib, Initial(), ds, n, false);
    assert ApplyAll(lib, Initial(), ds).Some? by {
      assert ds[1..] == [];
    }
    IndexMeans(lib, ApplyAll(lib, Initial(), ds).value, n, f, st);
    IndexCounts(lib, ds, n, f, st);
    OneSays(lib, letter, f, st);
    CountsKind(lib, letter, f, st);
  }

  lemma OneSays(lib: Library, letter: char, f: File, st: nat)
    requires st < |f.streams|
    ensures AllSay(lib, [Medium(letter)], f, st) <==> KindIs(letter, f.streams[st])
  {
    hide KindIs;
    assert Medium(letter) in [Medium(letter)];
    assert Says(lib, Medium(letter), f, st) <==> KindIs(letter, f.streams[st]);
  }

  /** How many of the first n streams are of the kind. */
  function CountKind(letter: char, f: File, n: nat): nat
    requires n <= |f.streams|
  {
    if n == 0 then 0 else CountKind(letter, f, n - 1) + One(KindIs(letter, f.streams[n - 1]))
  }

  lemma {:induction false} CountsKind(lib: Library, letter: char, f: File, n: nat)
    requires n <= |f.streams|
    ensures Before(lib, [Medium(letter)], f, n) == CountKind(letter, f, n)
  {
    hide AllSay, KindIs;
    if n > 0 {
      CountsKind(lib, letter, f, n - 1);
      OneSays(lib, letter, f, n - 1);
    }
  }
}
