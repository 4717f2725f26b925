/** Mirroring a directory tree: names and contents backwards, entries whose name begins with
    a dot and entries that are neither files nor directories left out. */
module ReverseTree {
  import opened Bytes
  import opened ReverseFile

  datatype Node = File(bytes: seq<Byte>) | Dir(entries: seq<Entry>) | Other

  datatype Entry = Entry(name: string, node: Node)

  const DOT: char := '.'

  predicate BeginsWithDot(name: string) {
    name != "" && name[0] == DOT
  }

  predicate EndsWithDot(name: string) {
    name != "" && name[|name| - 1] == DOT
  }

  predicate Skipped(e: Entry) {
    BeginsWithDot(e.name) || e.node.Other?
  }

  predicate Has(entries: seq<Entry>, name: string) {
    exists i :: 0 <= i < |entries| && entries[i].name == name
  }

  /** The mirror image of a directory, in reading order. */
  function Mirror(entries: seq<Entry>): seq<Entry> {
    if entries == [] then [] else
    var e := entries[0];
    (if Skipped(e) then [] else [Entry(Reversed(e.name), MirrorNode(e.node))]) + Mirror(entries[1..])
  }

  function MirrorNode(node: Node): Node {
    match node
    case File(bytes) => File(Reversed(bytes))
    case Dir(entries) => Dir(Mirror(entries))
    case Other => Other
  }

  /** Names are unique within every directory, as a file system guarantees. */
  predicate UniqueNames(entries: seq<Entry>) {
    && (forall i, j :: 0 <= i < j < |entries| ==> entries[i].name != entries[j].name)
    && (forall i :: 0 <= i < |entries| && entries[i].node.Dir? ==> UniqueNames(entries[i].node.entries))
  }

  // ----- the mirror's names -----

  lemma {:induction false} MirrorNames(entries: seq<Entry>, name: string)
    requires Has(Mirror(entries), name)
    ensures Has(entries, Reversed(name))
  {
    var e, m := entries[0], Mirror(entries);
    var i :| 0 <= i < |m| && m[i].name == name;
    if !Skipped(e) && i == 0 {
      ReversedTwice(e.name);
      assert entries[0].name == Reversed(name);
    } else {
      var rest := Mirror(entries[1..]);
      assert m[i] == rest[if Skipped(e) then i else i - 1];
      assert Has(rest, name);
      MirrorNames(entries[1..], name);
      var k :| 0 <= k < |entries[1..]| && entries[1..][k].name == Reversed(name);
      assert entries[k + 1].name == Reversed(name);
    }
  }

  /** The mirrored node of an original one: every byte of a file at the opposite place, every
      directory mirrored in turn. */
  predicate Mirrors(original: Node, copy: Node) {
    match original
    case File(bytes) =>
      copy.File? && |copy.bytes| == |bytes| &&
      forall k :: 0 <= k < |bytes| ==> copy.bytes[k] == bytes[|bytes| - 1 - k]
    case Dir(entries) => copy == Dir(Mirror(entries))
    case Other => false
  }

  /** What one pass copies: the files and directories whose name does not begin with a dot. */
  predicate Copied(e: Entry) {
    (e.node.File? || e.node.Dir?) && (e.name == "" || e.name[0] != '.')
  }

  /** Where an entry's mirror image stands. */
  lemma {:induction false} MirrorOf(entries: seq<Entry>, i: nat) returns (m: nat)
    requires i < |entries| && Copied(entries[i])
    ensures m < |Mirror(entries)| && Mirror(entries)[m].name == Reversed(entries[i].name)
    ensures Mirrors(entries[i].node, Mirror(entries)[m].node)
  {
    var e := entries[0];
    if i == 0 {
      m := 0;
      assert Mirror(entries)[0] == Entry(Reversed(e.name), MirrorNode(e.node));
    } else {
      m := MirrorOf(entries[1..], i - 1);
      assert Mirror(entries)[m + (if Skipped(e) then 0 else 1)] == Mirror(entries[1..])[m];
      m := m + if Skipped(e) then 0 else 1;
    }
  }

  /** And which entry one is the image of. */
  lemma {:induction false} OriginalOf(entries: seq<Entry>, m: nat) returns (i: nat)
    requires m < |Mirror(entries)|
    ensures i < |entries| && Copied(entries[i]) && Mirror(entries)[m].name == Reversed(entries[i].name)
  {
    var skip := Skipped(entries[0]);
    if !skip && m == 0 {
      i := 0;
    } else {
      i := OriginalOf(entries[1..], if skip then m else m - 1);
      i := i + 1;
    }
  }

  /** One pass, entry by entry: the mirror has an entry with the reversed name if and only if
      the directory has one that is a file or a directory and does not begin with a dot. */
  lemma MirrorIff(entries: seq<Entry>, name: string)
    ensures Has(Mirror(entries), Reversed(name)) <==>
            exists i :: 0 <= i < |entries| && entries[i].name == name && Copied(entries[i])
    ensures UniqueNames(entries) ==>
              forall i, m :: 0 <= i < |entries| && Copied(entries[i]) && entries[i].name == name &&
                             0 <= m < |Mirror(entries)| && Mirror(entries)[m].name == Reversed(name) ==>
                               Mirrors(entries[i].node, Mirror(entries)[m].node)
  {
    if exists i :: 0 <= i < |entries| && entries[i].name == name && Copied(entries[i]) {
      var i :| 0 <= i < |entries| && entries[i].name == name && Copied(entries[i]);
      var m := MirrorOf(entries, i);
    }
    if Has(Mirror(entries), Reversed(name)) {
      var m :| 0 <= m < |Mirror(entries)| && Mirror(entries)[m].name == Reversed(name);
      var i := OriginalOf(entries, m);
      ReversedInjective(entries[i].name, name);
    }
    if UniqueNames(entries) {
      MirrorUnique(entries);
      forall i, m | 0 <= i < |entries| && Copied(entries[i]) && entries[i].name == name &&
                    0 <= m < |Mirror(entries)| && Mirror(entries)[m].name == Reversed(name)
        ensures Mirrors(entries[i].node, Mirror(entries)[m].node)
      {
        var k := MirrorOf(entries, i);
        OneOfThatName(Mirror(entries), k, m);
      }
    }
  }

  lemma OneOfThatName(entries: seq<Entry>, i: nat, j: nat)
    requires UniqueNames(entries) && i < |entries| && j < |entries| && entries[i].name == entries[j].name
    ensures i == j
  {
  }

  /** The mirror is again a directory with unique names. */
  lemma {:induction false} MirrorUnique(entries: seq<Entry>)
    requires UniqueNames(entries)
    ensures UniqueNames(Mirror(entries))
  {
    if entries != [] {
      var e, rest := entries[0], entries[1..];
      assert UniqueNames(rest) by {
        assert forall i :: 0 <= i < |rest| ==> rest[i] == entries[i + 1];
      }
      MirrorUnique(rest);
      if e.node.Dir? { MirrorUnique(e.node.entries); }
      if !Skipped(e) {
        var m := Mirror(entries);
        var r := Reversed(e.name);
        ReversedTwice(e.name);
        assert forall k :: 0 <= k < |rest| ==> rest[k].name == entries[k + 1].name;
        if Has(Mirror(rest), r) {
          MirrorNames(rest, r);
        }
        assert forall i :: 1 <= i < |m| ==> m[i] == Mirror(rest)[i - 1];
      }
    }
  }

  // ----- the round trip -----

  /** What two mirrorings cannot bring back. */
  predicate Lost(e: Entry) {
    Skipped(e) || EndsWithDot(e.name)
  }

  function Pruned(entries: seq<Entry>): seq<Entry> {
    if entries == [] then [] else
    var e := entries[0];
    (if Lost(e) then [] else [Entry(e.name, PrunedNode(e.node))]) + Pruned(entries[1..])
  }

  function PrunedNode(node: Node): Node {
    match node
    case Dir(entries) => Dir(Pruned(entries))
    case _ => node
  }

  /** Mirroring twice gives the original tree without the entries whose name begins or ends
      with a dot and without those that are neither file nor directory. */
  lemma {:induction false} MirrorTwice(entries: seq<Entry>)
    ensures Mirror(Mirror(entries)) == Pruned(entries)
  {
    if entries != [] {
      var e, rest := entries[0], entries[1..];
      MirrorTwice(rest);
      if !Skipped(e) {
        ReversedTwice(e.name);
        match e.node {
          case Dir(sub) => MirrorTwice(sub);
          case File(bytes) => ReversedTwice(bytes);
          case Other =>
        }
        assert BeginsWithDot(Reversed(e.name)) <==> EndsWithDot(e.name);
        assert Mirror(entries)[1..] == Mirror(rest);
      } else {
        assert Mirror(entries) == Mirror(rest);
      }
    }
  }

  predicate Clean(entries: seq<Entry>) {
    forall i :: 0 <= i < |entries| ==>
      !Lost(entries[i]) && (entries[i].node.Dir? ==> Clean(entries[i].node.entries))
  }

  lemma {:induction false} PrunedShorter(entries: seq<Entry>)
    ensures |Pruned(entries)| <= |entries|
  {
    if entries != [] { PrunedShorter(entries[1..]); }
  }

  lemma {:induction false} PrunedIff(entries: seq<Entry>)
    ensures Pruned(entries) == entries <==> Clean(entries)
  {
    if entries != [] {
      var e, rest := entries[0], entries[1..];
      PrunedIff(rest);
      PrunedShorter(rest);
      if e.node.Dir? { PrunedIff(e.node.entries); }
      assert forall i :: 0 <= i < |rest| ==> rest[i] == entries[i + 1];
      assert Clean(entries) <==> !Lost(e) && (e.node.Dir? ==> Clean(e.node.entries)) && Clean(rest);
      if !Lost(e) {
        assert Pruned(entries)[1..] == Pruned(rest);
        assert Pruned(entries) == entries <==> PrunedNode(e.node) == e.node && Pruned(rest) == rest;
      }
    }
  }

  /** Mirroring a tree twice gives it back exactly when it holds only files and directories
      and no name in it begins or ends with a dot. */
  lemma RoundTripIff(entries: seq<Entry>)
    ensures Mirror(Mirror(entries)) == entries <==> Clean(entries)
  {
    MirrorTwice(entries);
    PrunedIff(entries);
  }
}
