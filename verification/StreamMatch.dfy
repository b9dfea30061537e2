/** Which streams of a file a specifier selects. */
module StreamMatch {
  import opened Wrappers
  import opened StreamSpecifier

  const ATTACHED_PIC: bv32 := 0x400

  datatype Params = Params(kind: Media, sampleRate: int, channels: int, width: int, height: int, knownFormat: bool)

  datatype Stream = Stream(id: int, par: Params, disposition: bv32, metadata: seq<(string, string)>)

  /** A program or a stream group: some of the file's streams, by index. */
  datatype Bundle = Bundle(id: int, streams: seq<nat>)

  datatype File = File(streams: seq<Stream>, programs: seq<Bundle>, groups: seq<Bundle>)

  ghost predicate Within(b: Bundle, n: nat) {
    forall i | 0 <= i < |b.streams| :: b.streams[i] < n
  }

  ghost predicate Valid(f: File) {
    && (forall i | 0 <= i < |f.programs| :: Within(f.programs[i], |f.streams|))
    && (forall i | 0 <= i < |f.groups| :: Within(f.groups[i], |f.streams|))
  }

  // ---------------------------------------------------------------- one stream

  function Upper(c: char): char {
    if 'a' <= c <= 'z' then c - 'a' + 'A' else c
  }

  predicate SameKey(a: string, b: string) {
    |a| == |b| && forall i | 0 <= i < |a| :: Upper(a[i]) == Upper(b[i])
  }

  /** The first entry with this key, whatever its case. */
  function Tag(metadata: seq<(string, string)>, key: string, n: nat): Option<string>
    requires n <= |metadata|
    decreases |metadata| - n
  {
    if n == |metadata| then None
    else if SameKey(metadata[n].0, key) then Some(metadata[n].1)
    else Tag(metadata, key, n + 1)
  }

  predicate Usable(p: Params) {
    match p.kind
    case Audio => p.sampleRate != 0 && p.channels != 0 && p.knownFormat
    case Video => p.width != 0 && p.height != 0 && p.knownFormat
    case Unknown => false
    case _ => true
  }

  predicate HasPicture(disposition: bv32) {
    disposition & ATTACHED_PIC != 0
  }

  /** All bits of the mask are set. */
  predicate HasAll(disposition: bv32, mask: bv32) {
    disposition & mask == mask
  }

  predicate MediaFits(ss: Specifier, c: Stream) {
    ss.media == Unknown || (ss.media == c.par.kind && !(ss.noApic && HasPicture(c.disposition)))
  }

  predicate MetadataFits(ss: Specifier, c: Stream) {
    ss.metaKey.None? ||
    var tag := Tag(c.metadata, ss.metaKey.value, 0);
    tag.Some? && (ss.metaVal.None? || tag.value == ss.metaVal.value)
  }

  /** All constraints on the stream itself. */
  predicate Fits(ss: Specifier, c: Stream) {
    MediaFits(ss, c) && MetadataFits(ss, c) && (ss.usable ==> Usable(c.par)) &&
    (ss.disposition == 0 || HasAll(c.disposition, ss.disposition))
  }

  // ---------------------------------------------------------------- the meaning

  /** The first bundle with this ID. */
  function Find(bs: seq<Bundle>, id: int, n: nat): (r: Option<Bundle>)
    requires n <= |bs|
    ensures r.Some? ==> r.value in bs
    decreases |bs| - n
  {
    if n == |bs| then None else if bs[n].id == id then Some(bs[n]) else Find(bs, id, n + 1)
  }

  function Upto(n: nat): (r: seq<nat>)
    ensures |r| == n && forall i | 0 <= i < n :: r[i] == i
  {
    seq(n, i requires 0 <= i < n => i)
  }

  /** The streams with this ID among the first n. */
  function WithId(f: File, id: int, n: nat): (r: seq<nat>)
    requires n <= |f.streams|
    ensures forall x: nat :: x in r <==> x < n && f.streams[x].id == id
  {
    if n == 0 then [] else WithId(f, id, n - 1) + (if f.streams[n - 1].id == id then [n - 1] else [])
  }

  function Listed(b: Option<Bundle>): seq<nat> {
    if b.Some? then b.value.streams else []
  }

  function GroupAt(f: File, i: int): Option<Bundle> {
    if 0 <= i < |f.groups| then Some(f.groups[i]) else None
  }

  /** The list a specifier chooses. */
  function Chosen(ss: Specifier, f: File): seq<nat> {
    match ss.list
    case All => Upto(|f.streams|)
    case StreamId => WithId(f, ss.listId, |f.streams|)
    case Program => Listed(Find(f.programs, ss.listId, 0))
    case GroupId => Listed(Find(f.groups, ss.listId, 0))
    case GroupIdx => Listed(GroupAt(f, ss.listId))
  }

  ghost predicate InFile(f: File, l: seq<nat>) {
    forall i | 0 <= i < |l| :: l[i] < |f.streams|
  }

  lemma ChosenInFile(ss: Specifier, f: File)
    requires Valid(f)
    ensures InFile(f, Chosen(ss, f))
  {
    if ss.list == Program {
      var b := Find(f.programs, ss.listId, 0);
      assert b.Some? ==> Within(b.value, |f.streams|);
    } else if ss.list == GroupId {
      var b := Find(f.groups, ss.listId, 0);
      assert b.Some? ==> Within(b.value, |f.streams|);
    } else if ss.list == GroupIdx {
      var b := GroupAt(f, ss.listId);
      assert b.Some? ==> Within(b.value, |f.streams|);
    } else {
      var l := Chosen(ss, f);
      assert forall i | 0 <= i < |l| :: l[i] in l;
    }
  }

  /** The first n members of a list, filtered. */
  ghost function Filtered(ss: Specifier, f: File, l: seq<nat>, n: nat): seq<nat>
    requires InFile(f, l) && n <= |l|
  {
    if n == 0 then []
    else Filtered(ss, f, l, n - 1) + (if Fits(ss, f.streams[l[n - 1]]) then [l[n - 1]] else [])
  }

  ghost function Selected(ss: Specifier, f: File): seq<nat>
    requires Valid(f)
  {
    ChosenInFile(ss, f);
    Filtered(ss, f, Chosen(ss, f), |Chosen(ss, f)|)
  }

  /** Stream st is the first occurrence at position i. */
  ghost predicate FirstAt(l: seq<nat>, st: nat, i: int) {
    0 <= i < |l| && l[i] == st && st !in l[..i]
  }

  /** What the scan decides: without an index membership, with one the first occurrence. */
  ghost predicate Matches(ss: Specifier, f: File, st: nat)
    requires Valid(f)
  {
    if ss.idx < 0 then st in Selected(ss, f) else FirstAt(Selected(ss, f), st, ss.idx)
  }

  /** The simple meaning: filter the chosen list; with an index take that element. */
  ghost predicate Means(ss: Specifier, f: File, st: nat)
    requires Valid(f)
  {
    var l := Selected(ss, f);
    if ss.idx < 0 then st in l else ss.idx < |l| && l[ss.idx] == st
  }

  // ---------------------------------------------------------------- filtering

  lemma {:induction false} FilteredMembers(ss: Specifier, f: File, l: seq<nat>, n: nat, x: nat)
    requires InFile(f, l) && n <= |l|
    ensures x in Filtered(ss, f, l, n) <==> x in l[..n] && x < |f.streams| && Fits(ss, f.streams[x])
  {
    hide Fits;
    if n > 0 {
      FilteredMembers(ss, f, l, n - 1, x);
      assert l[..n] == l[..n - 1] + [l[n - 1]];
    }
  }

  lemma {:induction false} FilteredPrefix(ss: Specifier, f: File, l: seq<nat>, m: nat, n: nat)
    requires InFile(f, l) && m <= n <= |l|
    ensures Filtered(ss, f, l, m) <= Filtered(ss, f, l, n)
  {
    hide Fits;
    if m < n {
      FilteredPrefix(ss, f, l, m, n - 1);
    }
  }

  /** Finding the stream at place i of the list gives its place among the filtered ones. */
  lemma FoundAt(ss: Specifier, f: File, l: seq<nat>, i: nat)
    requires InFile(f, l) && i < |l| && Fits(ss, f.streams[l[i]]) && l[i] !in Filtered(ss, f, l, i)
    ensures var all := Filtered(ss, f, l, |l|); forall k :: FirstAt(all, l[i], k) <==> k == |Filtered(ss, f, l, i)|
    ensures l[i] in Filtered(ss, f, l, |l|)
  {
    hide Fits;
    var all, before := Filtered(ss, f, l, |l|), Filtered(ss, f, l, i);
    FilteredPrefix(ss, f, l, i + 1, |l|);
    assert Filtered(ss, f, l, i + 1) == before + [l[i]];
    assert all[..|before|] == before && all[|before|] == l[i];
    forall k ensures FirstAt(all, l[i], k) <==> k == |before| {
      if 0 <= k < |before| {
        assert all[k] == before[k];
        assert before[k] in before;
      } else if |before| < k < |all| {
        assert all[..k][|before|] == l[i];
      }
    }
  }

  // ---------------------------------------------------------------- the scan

  /** stream_specifier_match. The stream's own list index is st. */
  method Match(ss: Specifier, f: File, st: nat) returns (r: bool)
    requires Valid(f) && st < |f.streams| && (ss.list == StreamId ==> ss.idx < 0)
    ensures r == Matches(ss, f, st)
  {
    hide Fits, Filtered, Find;
    ChosenInFile(ss, f);
    match ss.list {
      case StreamId =>
        if f.streams[st].id != ss.listId {
          FilteredMembers(ss, f, Chosen(ss, f), |Chosen(ss, f)|, st);
          return false;
        }
        r := ScanAll(ss, f, st, st);
      case All =>
        r := ScanAll(ss, f, st, if ss.idx >= 0 then 0 else st);
      case Program =>
        var p := FindBundle(f.programs, ss.listId);
        if p.None? {
          NothingListed(ss, f);
          return false;
        }
        r := ScanList(ss, f, st, p.value.streams);
      case _ =>
        var g := if ss.list == GroupIdx then GroupAt(f, ss.listId) else None;
        if ss.list == GroupId {
          g := FindBundle(f.groups, ss.listId);
        }
        if g.None? {
          NothingListed(ss, f);
          return false;
        }
        r := ScanList(ss, f, st, g.value.streams);
    }
  }

  lemma NothingListed(ss: Specifier, f: File)
    requires Valid(f) && Chosen(ss, f) == []
    ensures Selected(ss, f) == []
  {
  }

  method FindBundle(bs: seq<Bundle>, id: int) returns (r: Option<Bundle>)
    ensures r == Find(bs, id, 0)
  {
    for i := 0 to |bs|
      invariant Find(bs, id, 0) == Find(bs, id, i)
    {
      if bs[i].id == id {
        return Some(bs[i]);
      }
    }
    r := None;
  }

  /** Over the members of a program or a group. */
  method ScanList(ss: Specifier, f: File, st: nat, l: seq<nat>) returns (r: bool)
    requires Valid(f) && st < |f.streams| && l == Chosen(ss, f)
    ensures r == Matches(ss, f, st)
  {
    hide Fits, Filtered, Chosen;
    ChosenInFile(ss, f);
    var matched := 0;
    FilteredNone(ss, f, l);
    for i := 0 to |l|
      invariant matched == |Filtered(ss, f, l, i)| && st !in Filtered(ss, f, l, i)
    {
      FilteredNext(ss, f, l, i);
      if Fits(ss, f.streams[l[i]]) {
        if l[i] == st {
          FoundAt(ss, f, l, i);
          return ss.idx < 0 || ss.idx == matched;
        }
        matched := matched + 1;
      }
    }
    r := false;
  }

  lemma FilteredNone(ss: Specifier, f: File, l: seq<nat>)
    requires InFile(f, l)
    ensures Filtered(ss, f, l, 0) == []
  {
  }

  lemma FilteredNext(ss: Specifier, f: File, l: seq<nat>, i: nat)
    requires InFile(f, l) && i < |l|
    ensures Filtered(ss, f, l, i + 1) == Filtered(ss, f, l, i) + (if Fits(ss, f.streams[l[i]]) then [l[i]] else [])
  {
  }

  /** Over all streams of the file up to st; without an index only st itself is looked at. */
  method ScanAll(ss: Specifier, f: File, st: nat, start: nat) returns (r: bool)
    requires Valid(f) && st < |f.streams| && start == (if ss.idx >= 0 then 0 else st)
    requires ss.list == All || (ss.list == StreamId && ss.idx < 0 && f.streams[st].id == ss.listId)
    ensures r == Matches(ss, f, st)
  {
    hide Fits, Filtered;
    ChosenInFile(ss, f);
    ghost var l := Chosen(ss, f);
    FilteredMembers(ss, f, l, |l|, st);
    assert l[..|l|] == l;
    assert st in l by {
      assert ss.list == All ==> l[st] == st;
    }
    var matched := 0;
    FilteredNone(ss, f, l);
    for i := start to st + 1
      invariant ss.idx >= 0 ==> matched == |Filtered(ss, f, l, i)| && st !in Filtered(ss, f, l, i)
      invariant i == st + 1 ==> !Fits(ss, f.streams[st])
    {
      if ss.idx >= 0 {
        FilteredNext(ss, f, l, i);
      }
      if Fits(ss, f.streams[i]) {
        if i == st {
          if ss.idx >= 0 {
            FoundAt(ss, f, l, i);
          }
          return ss.idx < 0 || ss.idx == matched;
        }
        matched := matched + 1;
      }
    }
    assert st !in Selected(ss, f);
    r := false;
  }

  // ---------------------------------------------------------------- the scan against the meaning

  /** The scan and the simple meaning agree unless the indexed element already occurs earlier. */
  lemma MatchesMeansIff(ss: Specifier, f: File, st: nat)
    requires Valid(f)
    ensures (Matches(ss, f, st) <==> Means(ss, f, st)) <==>
            var l := Selected(ss, f); !(0 <= ss.idx < |l| && l[ss.idx] == st && st in l[..ss.idx])
  {
  }

  ghost predicate Distinct(l: seq<nat>) {
    forall i, j | 0 <= i < j < |l| :: l[i] != l[j]
  }

  lemma {:induction false} FilteredDistinct(ss: Specifier, f: File, l: seq<nat>, n: nat)
    requires InFile(f, l) && Distinct(l) && n <= |l|
    ensures Distinct(Filtered(ss, f, l, n))
  {
    hide Fits;
    if n > 0 {
      FilteredDistinct(ss, f, l, n - 1);
      FilteredMembers(ss, f, l, n - 1, l[n - 1]);
      assert l[n - 1] !in l[..n - 1];
      var before := Filtered(ss, f, l, n - 1);
      assert forall i | 0 <= i < |before| :: before[i] in before;
    }
  }

  /** On a list without repetitions the scan is the simple meaning. */
  lemma MatchesMeans(ss: Specifier, f: File, st: nat)
    requires Valid(f) && Distinct(Chosen(ss, f))
    ensures Matches(ss, f, st) <==> Means(ss, f, st)
  {
    hide Chosen, Filtered;
    ChosenInFile(ss, f);
    FilteredDistinct(ss, f, Chosen(ss, f), |Chosen(ss, f)|);
    MatchesMeansIff(ss, f, st);
  }

  /** The list of all streams has no repetitions, nor have the streams with one ID. */
  lemma {:induction false} WholeFileDistinct(f: File, id: int, n: nat)
    requires n <= |f.streams|
    ensures Distinct(Upto(n)) && Distinct(WithId(f, id, n))
  {
    if n > 0 {
      WholeFileDistinct(f, id, n - 1);
      var l := WithId(f, id, n - 1);
      assert forall i | 0 <= i < |l| :: l[i] in l;
    }
  }

  /** An indexed specifier selects at most one stream, in every file. */
  lemma IndexSelectsOne(ss: Specifier, f: File, x: nat, y: nat)
    requires Valid(f) && ss.idx >= 0 && Matches(ss, f, x) && Matches(ss, f, y)
    ensures x == y
  {
    hide Selected;
  }

  /** Without repetitions it selects one exactly when the filtered list is long enough. */
  lemma IndexSelectsIff(ss: Specifier, f: File)
    requires Valid(f) && Distinct(Chosen(ss, f)) && ss.idx >= 0
    ensures (exists st :: Matches(ss, f, st)) <==> ss.idx < |Selected(ss, f)|
  {
    hide Selected, Chosen;
    if ss.idx < |Selected(ss, f)| {
      var st := Selected(ss, f)[ss.idx];
      MatchesMeans(ss, f, st);
      assert Matches(ss, f, st);
    }
  }

  /** The assertion of the scan never fails on a parsed specifier. */
  method MatchText(lib: Library, text: string, f: File, st: nat) returns (r: Option<bool>)
    requires Valid(f) && st < |f.streams|
    ensures var ss := Parse(lib, Initial(), text, false);
      r == if ss.None? then None else Some(Matches(ss.value, f, st))
  {
    var ss := Parse(lib, Initial(), text, false);
    if ss.None? {
      return None;
    }
    InitialProgress();
    IdHasNoIndex(lib, Initial(), text, false);
    var m := Match(ss.value, f, st);
    r := Some(m);
  }
}
