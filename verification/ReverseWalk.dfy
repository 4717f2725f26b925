/** The recursive walk that builds the mirror, with everything outside it that may go wrong:
    where it stops, what it leaves behind, and what its result says about the mirror. */
module ReverseWalk {
  import opened Bytes
  import opened Wrappers
  import opened CStrings
  import opened ReverseFile
  import opened ReverseTree

  /** How the calls for one entry end, up to the copying: all succeed, the mirrored entry
      cannot be created, or a file is created and a later call fails. */
  datatype Outcome = Made | Refused | LeftEmpty

  /** What becomes of one byte of a copy: the results of fread, fwrite and fclose are not
      looked at. */
  datatype Fate = Kept | Lost | Garbled(b: Byte)

  /** What the surroundings answer at a path, the names from the root of the walk: whether a
      directory opens, after how many entries readdir returns NULL too early (if it does), how
      the calls for an entry end, what becomes of byte k of a file, and what malloc left in
      the byte behind a reversed name. */
  datatype World = World(
    opens: seq<string> -> bool,
    lists: seq<string> -> Option<nat>,
    makes: seq<string> -> Outcome,
    fates: (seq<string>, nat) -> Fate,
    behind: seq<string> -> char)

  /** The result of a walk, or that it has used a name without a terminator: what happens
      then is not defined. */
  datatype Status = Zero | One | Undefined

  /** The mirror a walk leaves, and how it ended. */
  datatype Left = Left(mirror: seq<Entry>, status: Status)

  /** What is left of the bytes a copy should write. */
  function OnDisk(bytes: seq<Byte>, path: seq<string>, w: World): seq<Byte> {
    if bytes == [] then [] else
    var n := |bytes| - 1;
    OnDisk(bytes[..n], path, w) +
    match w.fates(path, n)
    case Kept => [bytes[n]]
    case Lost => []
    case Garbled(b) => [b]
  }

  /** readdir yields entry k. */
  predicate Yields(path: seq<string>, k: nat, w: World) {
    w.lists(path).None? || k < w.lists(path).value
  }

  /** What one entry adds, and whether the walk goes on after it (Zero). The result of a
      subdirectory's own walk is dropped. */
  function EntryLeft(e: Entry, path: seq<string>, w: World): Left
    decreases e, 2
  {
    var p, name := path + [e.name], Reversed(e.name);
    if Skipped(e) then Left([], Zero)
    else if w.behind(p) != NUL then Left([], Undefined)
    else
      match e.node
      case File(bytes) =>
        (match w.makes(p)
         case Made => Left([Entry(name, File(OnDisk(Reversed(bytes), p, w)))], Zero)
         case LeftEmpty => Left([Entry(name, File([]))], One)
         case Refused => Left([], One))
      case Dir(entries) =>
        if !w.makes(p).Made? then Left([], One) else
        var inner := Inside(entries, p, w);
        Left([Entry(name, Dir(inner.mirror))], if inner.status.Undefined? then Undefined else Zero)
      case Other => Left([], Zero)
  }

  /** Reading on after k entries, these being the rest: up to the first entry whose calls fail
      or the end of what readdir yields. */
  function Walked(entries: seq<Entry>, k: nat, path: seq<string>, w: World): Left
    decreases entries, 0
  {
    if entries == [] || !Yields(path, k, w) then Left([], Zero) else
    var first := EntryLeft(entries[0], path, w);
    if !first.status.Zero? then first else
    var rest := Walked(entries[1..], k + 1, path, w);
    Left(first.mirror + rest.mirror, rest.status)
  }

  function Inside(entries: seq<Entry>, path: seq<string>, w: World): Left
    decreases entries, 1
  {
    if w.opens(path) then Walked(entries, 0, path, w) else Left([], One)
  }

  // ----- the walk itself -----

  /** Names read from a directory are C strings. */
  predicate CNames(entries: seq<Entry>) {
    forall i :: 0 <= i < |entries| ==>
      NUL !in entries[i].name && (entries[i].node.Dir? ==> CNames(entries[i].node.entries))
  }

  /** Everything created so far is named after one of the first i entries. */
  predicate NamedAfter(mirror: seq<Entry>, entries: seq<Entry>, i: nat)
    requires i <= |entries|
  {
    forall m :: 0 <= m < |mirror| ==> exists k :: 0 <= k < i && Reversed(entries[k].name) == mirror[m].name
  }

  lemma StillFree(mirror: seq<Entry>, entries: seq<Entry>, i: nat)
    requires UniqueNames(entries) && i < |entries| && NamedAfter(mirror, entries, i)
    ensures !Has(mirror, Reversed(entries[i].name))
  {
    if Has(mirror, Reversed(entries[i].name)) {
      var m :| 0 <= m < |mirror| && mirror[m].name == Reversed(entries[i].name);
      var k :| 0 <= k < i && Reversed(entries[k].name) == mirror[m].name;
      ReversedInjective(entries[k].name, entries[i].name);
    }
  }

  /** mkdir or fopen of a new name in the mirror directory. */
  method Make(dir: seq<Entry>, e: Entry) returns (more: seq<Entry>)
    requires !Has(dir, e.name)
    ensures more == dir + [e]
  {
    more := dir + [e];
  }

  /** The name as sprintf finds it in a buffer that malloc returned with `last` behind it. */
  method NewName(name: string, last: char) returns (r: Option<string>)
    requires NUL !in name
    ensures r == if last == NUL then Some(Reversed(name)) else None
  {
    var res := new char[|name| + 1](_ => last);
    ReverseName(name, res);
    NameReadBack(name, last);
    r := ReadBack(res[..]);
  }

  /** With this much created, reading on from entry i completes the walk. */
  predicate Sofar(mirror: seq<Entry>, entries: seq<Entry>, i: nat, path: seq<string>, w: World)
    requires i <= |entries|
  {
    var rest := Walked(entries[i..], i, path, w);
    Walked(entries, 0, path, w) == Left(mirror + rest.mirror, rest.status)
  }

  /** Reading on from entry i that readdir yields. */
  lemma WalkedFrom(entries: seq<Entry>, i: nat, path: seq<string>, w: World)
    requires i < |entries| && Yields(path, i, w)
    ensures var one, rest := EntryLeft(entries[i], path, w), Walked(entries[i + 1..], i + 1, path, w);
            Walked(entries[i..], i, path, w) ==
            if one.status.Zero? then Left(one.mirror + rest.mirror, rest.status) else one
  {
    assert entries[i..][1..] == entries[i + 1..];
  }

  /** One entry: the end of the walk, or added to the mirror. */
  lemma SofarNext(mirror: seq<Entry>, entries: seq<Entry>, i: nat, path: seq<string>, w: World)
    requires i < |entries| && Sofar(mirror, entries, i, path, w) && Yields(path, i, w)
    ensures var one := EntryLeft(entries[i], path, w);
            if one.status.Zero? then Sofar(mirror + one.mirror, entries, i + 1, path, w)
            else Walked(entries, 0, path, w) == Left(mirror + one.mirror, one.status)
  {
    WalkedFrom(entries, i, path, w);
    var one, rest := EntryLeft(entries[i], path, w), Walked(entries[i + 1..], i + 1, path, w);
    assert mirror + (one.mirror + rest.mirror) == (mirror + one.mirror) + rest.mirror;
  }

  lemma SofarStarts(entries: seq<Entry>, path: seq<string>, w: World)
    ensures Sofar([], entries, 0, path, w)
  {
    assert entries[0..] == entries;
  }

  lemma SofarEnds(mirror: seq<Entry>, entries: seq<Entry>, i: nat, path: seq<string>, w: World)
    requires i <= |entries| && Sofar(mirror, entries, i, path, w) && (i == |entries| || !Yields(path, i, w))
    ensures Walked(entries, 0, path, w) == Left(mirror, Zero)
  {
  }

  /** reverse_inside: read the directory entry by entry, recurse into subdirectories, and
      create every mirrored entry under a name that is still free. */
  method ReverseInside(entries: seq<Entry>, path: seq<string>, w: World) returns (mirror: seq<Entry>, status: Status)
    requires UniqueNames(entries) && CNames(entries)
    ensures Left(mirror, status) == Inside(entries, path, w)
    decreases entries, 1
  {
    if !w.opens(path) { return [], One; }
    mirror, status := [], Zero;
    var i := 0;
    SofarStarts(entries, path, w);
    while i < |entries| && Yields(path, i, w)
      invariant 0 <= i <= |entries| && NamedAfter(mirror, entries, i)
      invariant status.Zero? && Sofar(mirror, entries, i, path, w)
    {
      SofarNext(mirror, entries, i, path, w);
      mirror, status := ReverseEntry(mirror, entries, i, path, w);
      if !status.Zero? { return; }
      i := i + 1;
    }
    SofarEnds(mirror, entries, i, path, w);
  }

  /** One entry: its mirrored name is still free. */
  method ReverseEntry(mirror: seq<Entry>, entries: seq<Entry>, i: nat, path: seq<string>, w: World)
    returns (more: seq<Entry>, status: Status)
    requires UniqueNames(entries) && CNames(entries) && i < |entries| && NamedAfter(mirror, entries, i)
    ensures var one := EntryLeft(entries[i], path, w); more == mirror + one.mirror && status == one.status
    ensures NamedAfter(more, entries, i + 1)
    decreases entries, 0
  {
    var e, p := entries[i], path + [entries[i].name];
    more, status := mirror, Zero;
    if Skipped(e) { return; }
    StillFree(mirror, entries, i);
    var name := NewName(e.name, w.behind(p));
    if name.None? { return mirror, Undefined; }
    match e.node {
      case Dir(sub) =>
        if !w.makes(p).Made? { return mirror, One; }
        var inner, result := ReverseInside(sub, p, w);
        more := Make(mirror, Entry(name.value, Dir(inner)));
        status := if result.Undefined? then Undefined else Zero;
      case File(bytes) =>
        if w.makes(p).Refused? { return mirror, One; }
        if w.makes(p).LeftEmpty? {
          more := Make(mirror, Entry(name.value, File([])));
          return more, One;
        }
        var reversed := ReverseContents(bytes);
        more := Make(mirror, Entry(name.value, File(OnDisk(reversed, p, w))));
      case Other =>
    }
  }

  // ----- when the walk is complete -----

  lemma {:induction false} KeptOnDisk(bytes: seq<Byte>, path: seq<string>, w: World)
    requires forall k :: 0 <= k < |bytes| ==> w.fates(path, k).Kept?
    ensures OnDisk(bytes, path, w) == bytes
  {
    if bytes != [] { KeptOnDisk(bytes[..|bytes| - 1], path, w); }
  }

  lemma {:induction false} LostOnDisk(bytes: seq<Byte>, path: seq<string>, w: World)
    requires forall k :: 0 <= k < |bytes| ==> w.fates(path, k).Lost?
    ensures OnDisk(bytes, path, w) == []
  {
    if bytes != [] { LostOnDisk(bytes[..|bytes| - 1], path, w); }
  }

  /** Bytes that were never written are all that shortens a copy; where none is, byte k is the
      one written or whatever it was garbled to. */
  lemma {:induction false} DamagedOnDisk(bytes: seq<Byte>, path: seq<string>, w: World)
    requires forall k :: 0 <= k < |bytes| ==> !w.fates(path, k).Lost?
    ensures |OnDisk(bytes, path, w)| == |bytes|
    ensures forall k :: 0 <= k < |bytes| ==>
              OnDisk(bytes, path, w)[k] == match w.fates(path, k) case Garbled(b) => b case _ => bytes[k]
  {
    if bytes != [] { DamagedOnDisk(bytes[..|bytes| - 1], path, w); }
  }

  /** Nothing goes wrong with this entry, nor anywhere below it. */
  predicate EntryWell(e: Entry, path: seq<string>, w: World)
    decreases e, 1
  {
    var p := path + [e.name];
    !Skipped(e) ==>
      && w.behind(p) == NUL && w.makes(p).Made?
      && (e.node.File? ==> forall k :: 0 <= k < |e.node.bytes| ==> w.fates(p, k).Kept?)
      && (e.node.Dir? ==> AllWell(e.node.entries, p, w))
  }

  predicate AllWell(entries: seq<Entry>, path: seq<string>, w: World)
    decreases entries, 2
  {
    w.opens(path) && forall i :: 0 <= i < |entries| ==> Yields(path, i, w) && EntryWell(entries[i], path, w)
  }

  /** The mirror of a single entry. */
  function MirrorEntry(e: Entry): seq<Entry> {
    if Skipped(e) then [] else [Entry(Reversed(e.name), MirrorNode(e.node))]
  }

  lemma {:induction false} EntryComplete(e: Entry, path: seq<string>, w: World)
    requires EntryWell(e, path, w)
    ensures EntryLeft(e, path, w) == Left(MirrorEntry(e), Zero)
    decreases e, 2
  {
    if !Skipped(e) {
      var p := path + [e.name];
      match e.node
      case File(bytes) => KeptOnDisk(Reversed(bytes), p, w);
      case Dir(entries) => CompleteWhenAllWell(entries, p, w);
      case Other =>
    }
  }

  lemma {:induction false} WalkedComplete(entries: seq<Entry>, k: nat, path: seq<string>, w: World)
    requires forall j :: k <= j < k + |entries| ==> Yields(path, j, w)
    requires forall i :: 0 <= i < |entries| ==> EntryWell(entries[i], path, w)
    ensures Walked(entries, k, path, w) == Left(Mirror(entries), Zero)
    decreases entries, 0
  {
    if entries != [] {
      var rest := entries[1..];
      assert forall i :: 0 <= i < |rest| ==> rest[i] == entries[i + 1];
      EntryComplete(entries[0], path, w);
      WalkedComplete(rest, k + 1, path, w);
    }
  }

  /** When nothing goes wrong the walk leaves exactly the mirror image and returns 0. */
  lemma {:induction false} CompleteWhenAllWell(entries: seq<Entry>, path: seq<string>, w: World)
    requires AllWell(entries, path, w)
    ensures Inside(entries, path, w) == Left(Mirror(entries), Zero)
    decreases entries, 1
  {
    WalkedComplete(entries, 0, path, w);
  }

  // ----- what the result says -----

  /** The calls for this entry end well, and no name in it is used without a terminator. */
  predicate EntryGoesOn(e: Entry, path: seq<string>, w: World) {
    var p := path + [e.name];
    !Skipped(e) ==>
      && w.behind(p) == NUL && w.makes(p).Made?
      && (e.node.Dir? ==> !Inside(e.node.entries, p, w).status.Undefined?)
  }

  lemma {:induction false} WalkedResult(entries: seq<Entry>, k: nat, path: seq<string>, w: World)
    ensures Walked(entries, k, path, w).status.Zero? <==>
            forall i :: 0 <= i < |entries| && AllYielded(path, k, i, w) ==> EntryGoesOn(entries[i], path, w)
  {
    if entries != [] && Yields(path, k, w) {
      var rest := entries[1..];
      WalkedResult(rest, k + 1, path, w);
      assert forall i :: 1 <= i < |entries| ==> entries[i] == rest[i - 1];
      assert EntryLeft(entries[0], path, w).status.Zero? <==> EntryGoesOn(entries[0], path, w);
    }
  }

  /** readdir yields the i entries after the first k, and one more. */
  predicate AllYielded(path: seq<string>, k: nat, i: nat, w: World) {
    Yields(path, k + i, w)
  }

  /** The walk returns 0 if and only if the directory opens and the calls for those of its own
      entries that readdir yields succeed: failing further down, ending the listing early and
      damaging a copy are not reported. */
  lemma ResultIff(entries: seq<Entry>, path: seq<string>, w: World)
    ensures Inside(entries, path, w).status.Zero? <==>
            w.opens(path) && forall i :: 0 <= i < |entries| && Yields(path, i, w) ==> EntryGoesOn(entries[i], path, w)
  {
    WalkedResult(entries, 0, path, w);
    assert forall i: nat :: AllYielded(path, 0, i, w) <==> Yields(path, i, w);
  }

  // ----- names without a terminator -----

  /** Every name buffer a walk over the whole tree uses had a zero byte in the last place. */
  predicate AllTerminated(entries: seq<Entry>, path: seq<string>, behind: seq<string> -> char)
    decreases entries
  {
    forall i :: 0 <= i < |entries| && !Skipped(entries[i]) ==>
      && behind(path + [entries[i].name]) == NUL
      && (entries[i].node.Dir? ==> AllTerminated(entries[i].node.entries, path + [entries[i].name], behind))
  }

  lemma {:induction false} TerminatedIsDefined(entries: seq<Entry>, k: nat, path: seq<string>, w: World)
    requires AllTerminated(entries, path, w.behind)
    ensures !Walked(entries, k, path, w).status.Undefined?
  {
    if entries != [] {
      var e, rest := entries[0], entries[1..];
      assert forall i :: 0 <= i < |rest| ==> rest[i] == entries[i + 1];
      TerminatedIsDefined(rest, k + 1, path, w);
      if !Skipped(e) && e.node.Dir? { TerminatedIsDefined(e.node.entries, 0, path + [e.name], w); }
      assert !EntryLeft(e, path, w).status.Undefined?;
    }
  }

  /** A file system on which every call succeeds. */
  function Perfect(behind: seq<string> -> char): World {
    World(_ => true, _ => None, _ => Made, (p, k) => Kept, behind)
  }

  lemma {:induction false} DefinedIsTerminated(entries: seq<Entry>, k: nat, path: seq<string>,
                                               behind: seq<string> -> char)
    requires !Walked(entries, k, path, Perfect(behind)).status.Undefined?
    ensures AllTerminated(entries, path, behind)
  {
    var w := Perfect(behind);
    if entries != [] {
      var e, rest := entries[0], entries[1..];
      var p := path + [e.name];
      assert Yields(path, k, w);
      assert EntryLeft(e, path, w).status.Zero?;
      DefinedIsTerminated(rest, k + 1, path, behind);
      if !Skipped(e) && e.node.Dir? { DefinedIsTerminated(e.node.entries, 0, p, behind); }
      assert forall i :: 1 <= i < |entries| ==> entries[i] == rest[i - 1];
    }
  }

  /** Whatever else happens, the walk only uses reversed names, if and only if every byte behind
      a name was zero. */
  lemma DefinedIff(entries: seq<Entry>, path: seq<string>, behind: seq<string> -> char)
    ensures (forall w: World :: !Inside(entries, path, w.(behind := behind)).status.Undefined?)
            <==> AllTerminated(entries, path, behind)
  {
    if AllTerminated(entries, path, behind) {
      forall w: World ensures !Inside(entries, path, w.(behind := behind)).status.Undefined? {
        TerminatedIsDefined(entries, 0, path, w.(behind := behind));
      }
    } else {
      var w := Perfect(behind);
      if !Inside(entries, path, w.(behind := behind)).status.Undefined? {
        DefinedIsTerminated(entries, 0, path, behind);
      }
    }
  }

  // ----- what a result of 0 is worth -----

  /** Which of the failures that the walk does not notice can happen. */
  datatype Unnoticed = Unnoticed(listings: bool, contents: bool)

  ghost predicate Allowed(w: World, u: Unnoticed) {
    && (!u.listings ==> forall p :: w.lists(p).None?)
    && (!u.contents ==> forall p, k: nat :: w.fates(p, k).Kept?)
  }

  /** Whenever the walk returns 0, the mirror is complete. */
  ghost predicate ResultTrusted(entries: seq<Entry>, path: seq<string>, u: Unnoticed) {
    forall w :: Allowed(w, u) && Inside(entries, path, w).status.Zero? ==>
      Inside(entries, path, w).mirror == Mirror(entries)
  }

  /** The tree has nothing that could go missing unnoticed. */
  predicate NothingToLose(entries: seq<Entry>, u: Unnoticed) {
    if u.listings then Mirror(entries) == []
    else forall i :: 0 <= i < |entries| ==> SafeEntry(entries[i], u)
  }

  /** No bytes if contents can be damaged, and in any case nothing to mirror below. */
  predicate SafeEntry(e: Entry, u: Unnoticed) {
    !Skipped(e) ==>
      && (e.node.File? && u.contents ==> e.node.bytes == [])
      && (e.node.Dir? ==> Mirror(e.node.entries) == [])
  }

  lemma {:induction false} NothingToMirror(entries: seq<Entry>, k: nat, path: seq<string>, w: World)
    requires Mirror(entries) == []
    ensures Walked(entries, k, path, w) == Left([], Zero)
  {
    if entries != [] { NothingToMirror(entries[1..], k + 1, path, w); }
  }

  lemma SafeEntryComplete(e: Entry, path: seq<string>, w: World, u: Unnoticed)
    requires Allowed(w, u) && SafeEntry(e, u) && EntryLeft(e, path, w).status.Zero?
    ensures EntryLeft(e, path, w).mirror == MirrorEntry(e)
  {
    if !Skipped(e) {
      match e.node
      case File(bytes) => if !u.contents { KeptOnDisk(Reversed(bytes), path + [e.name], w); }
      case Dir(entries) => NothingToMirror(entries, 0, path + [e.name], w);
      case Other =>
    }
  }

  lemma {:induction false} SafeIsTrusted(entries: seq<Entry>, k: nat, path: seq<string>, w: World, u: Unnoticed)
    requires !u.listings && NothingToLose(entries, u) && Allowed(w, u) && Walked(entries, k, path, w).status.Zero?
    ensures Walked(entries, k, path, w).mirror == Mirror(entries)
  {
    if entries != [] {
      var rest := entries[1..];
      assert forall i :: 0 <= i < |rest| ==> rest[i] == entries[i + 1];
      SafeEntryComplete(entries[0], path, w, u);
      SafeIsTrusted(rest, k + 1, path, w, u);
    }
  }

  /** The worst unnoticed world at one path: every listing stops at once, or every byte is
      lost, or a directory does not open. */
  function Worst(u: Unnoticed, shut: seq<string>): World {
    World(p => p != shut, _ => if u.listings then Some(0) else None, _ => Made,
          (p, k) => if u.contents then Lost else Kept, _ => NUL)
  }

  lemma WorstEntry(e: Entry, path: seq<string>, w: World, u: Unnoticed)
    requires w == Worst(u, path + [e.name]) && !u.listings && !SafeEntry(e, u)
    ensures EntryLeft(e, path, w).status.Zero? && EntryLeft(e, path, w).mirror != MirrorEntry(e)
  {
    var p := path + [e.name];
    if e.node.File? {
      LostOnDisk(Reversed(e.node.bytes), p, w);
      assert EntryLeft(e, path, w).mirror[0].node == File([]);
      assert MirrorEntry(e)[0].node == File(Reversed(e.node.bytes));
    } else {
      assert EntryLeft(e, path, w).mirror[0].node == Dir([]);
      assert MirrorEntry(e)[0].node == Dir(Mirror(e.node.entries));
    }
  }

  lemma {:induction false} AlwaysTerminated(entries: seq<Entry>, path: seq<string>, behind: seq<string> -> char)
    requires forall p :: behind(p) == NUL
    ensures AllTerminated(entries, path, behind)
    decreases entries
  {
    forall i | 0 <= i < |entries| && entries[i].node.Dir?
      ensures AllTerminated(entries[i].node.entries, path + [entries[i].name], behind)
    {
      AlwaysTerminated(entries[i].node.entries, path + [entries[i].name], behind);
    }
  }

  /** In that world the walk still returns 0. */
  lemma WorstIsZero(entries: seq<Entry>, path: seq<string>, shut: seq<string>, u: Unnoticed)
    requires path != shut
    ensures Inside(entries, path, Worst(u, shut)).status.Zero? && Allowed(Worst(u, shut), u)
  {
    var w := Worst(u, shut);
    forall i | 0 <= i < |entries| ensures EntryGoesOn(entries[i], path, w) {
      var e := entries[i];
      if e.node.Dir? {
        AlwaysTerminated(e.node.entries, path + [e.name], w.behind);
        TerminatedIsDefined(e.node.entries, 0, path + [e.name], w);
      }
    }
    ResultIff(entries, path, w);
  }

  lemma {:induction false} EachMirrored(entries: seq<Entry>, k: nat, path: seq<string>, w: World, i: nat)
    requires w.lists(path).None? && Walked(entries, k, path, w) == Left(Mirror(entries), Zero)
    requires i < |entries|
    ensures EntryLeft(entries[i], path, w).mirror == MirrorEntry(entries[i])
  {
    var first, rest := EntryLeft(entries[0], path, w).mirror, Walked(entries[1..], k + 1, path, w).mirror;
    assert Mirror(entries) == MirrorEntry(entries[0]) + Mirror(entries[1..]);
    assert |first| == |MirrorEntry(entries[0])|;
    assert first == (first + rest)[..|first|] && rest == (first + rest)[|first|..];
    if i > 0 { EachMirrored(entries[1..], k + 1, path, w, i - 1); }
  }

  /** Every way to lose something unnoticed is found by a world of the kind allowed. */
  lemma NothingIsTrusted(entries: seq<Entry>, path: seq<string>, u: Unnoticed) returns (w: World)
    requires !NothingToLose(entries, u)
    ensures Allowed(w, u) && Inside(entries, path, w).status.Zero?
    ensures Inside(entries, path, w).mirror != Mirror(entries)
  {
    if u.listings {
      w := Worst(u, path + [""]);
      WorstIsZero(entries, path, path + [""], u);
    } else {
      var i :| 0 <= i < |entries| && !SafeEntry(entries[i], u);
      var shut := path + [entries[i].name];
      w := Worst(u, shut);
      WorstIsZero(entries, path, shut, u);
      WorstEntry(entries[i], path, w, u);
      if Inside(entries, path, w).mirror == Mirror(entries) {
        EachMirrored(entries, 0, path, w, i);
        assert false;
      }
    }
  }

  /** What a result of 0 guarantees, for every choice of the failures the walk does not notice.
      With listings that may end early, it guarantees the mirror if and only if there is
      nothing to mirror; with copies that may be damaged, if and only if no mirrored file
      holds a byte and no mirrored subdirectory has anything to mirror; with neither, if and
      only if no mirrored subdirectory has. */
  lemma ResultTrustedIff(entries: seq<Entry>, path: seq<string>, u: Unnoticed)
    ensures ResultTrusted(entries, path, u) <==> NothingToLose(entries, u)
  {
    if NothingToLose(entries, u) {
      forall w | Allowed(w, u) && Inside(entries, path, w).status.Zero?
        ensures Inside(entries, path, w).mirror == Mirror(entries)
      {
        if u.listings { NothingToMirror(entries, 0, path, w); } else { SafeIsTrusted(entries, 0, path, w, u); }
      }
    } else {
      var w := NothingIsTrusted(entries, path, u);
    }
  }
}
