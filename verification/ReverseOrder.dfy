/** The mirror as a set of named entries: readdir may list a directory in any order, and the
    two passes of a round trip need not agree on it. */
module ReverseOrder {
  import opened Bytes
  import opened ReverseFile
  import opened ReverseTree

  /** A node without the order in which directories were listed. */
  datatype Shape = FileShape(bytes: seq<Byte>) | DirShape(entries: map<string, Shape>) | OtherShape

  function View(entries: seq<Entry>): map<string, Shape> {
    if entries == [] then map[] else View(entries[1..])[entries[0].name := ViewNode(entries[0].node)]
  }

  function ViewNode(node: Node): Shape {
    match node
    case File(bytes) => FileShape(bytes)
    case Dir(entries) => DirShape(View(entries))
    case Other => OtherShape
  }

  lemma UniqueRest(entries: seq<Entry>)
    requires UniqueNames(entries) && entries != []
    ensures UniqueNames(entries[1..]) && !Has(entries[1..], entries[0].name)
  {
    assert forall i :: 0 <= i < |entries| - 1 ==> entries[1..][i] == entries[i + 1];
  }

  lemma {:induction false} ViewNames(entries: seq<Entry>, name: string)
    ensures name in View(entries) <==> Has(entries, name)
  {
    if entries != [] {
      ViewNames(entries[1..], name);
      if Has(entries[1..], name) {
        var i :| 0 <= i < |entries| - 1 && entries[1..][i].name == name;
        assert entries[i + 1].name == name;
      }
      if Has(entries, name) && entries[0].name != name {
        var i :| 0 <= i < |entries| && entries[i].name == name;
        assert entries[1..][i - 1].name == name;
      }
    }
  }

  lemma {:induction false} ViewAt(entries: seq<Entry>, i: nat)
    requires UniqueNames(entries) && i < |entries|
    ensures entries[i].name in View(entries)
    ensures View(entries)[entries[i].name] == ViewNode(entries[i].node)
  {
    if i > 0 {
      UniqueRest(entries);
      ViewAt(entries[1..], i - 1);
    }
  }

  /** Where a name of the view stands in the listing. */
  lemma Find(entries: seq<Entry>, name: string) returns (i: nat)
    requires UniqueNames(entries) && name in View(entries)
    ensures i < |entries| && entries[i].name == name && View(entries)[name] == ViewNode(entries[i].node)
  {
    ViewNames(entries, name);
    i :| 0 <= i < |entries| && entries[i].name == name;
    ViewAt(entries, i);
  }

  /** Entries of two listings of one directory that have the same name look the same. */
  lemma Partner(a: seq<Entry>, b: seq<Entry>, i: nat) returns (j: nat)
    requires UniqueNames(a) && UniqueNames(b) && View(a) == View(b) && i < |a|
    ensures j < |b| && b[j].name == a[i].name && ViewNode(b[j].node) == ViewNode(a[i].node)
  {
    ViewAt(a, i);
    j := Find(b, a[i].name);
  }

  /** A mirrored entry comes from one that is not skipped. */
  lemma {:induction false} Origin(entries: seq<Entry>, m: nat) returns (i: nat)
    requires m < |Mirror(entries)|
    ensures i < |entries| && !Skipped(entries[i])
    ensures Mirror(entries)[m] == Entry(Reversed(entries[i].name), MirrorNode(entries[i].node))
  {
    var skip := Skipped(entries[0]);
    if !skip && m == 0 {
      i := 0;
    } else {
      i := Origin(entries[1..], if skip then m else m - 1);
      i := i + 1;
    }
  }

  /** Every entry that is not skipped is mirrored. */
  lemma {:induction false} Image(entries: seq<Entry>, i: nat) returns (m: nat)
    requires i < |entries| && !Skipped(entries[i])
    ensures m < |Mirror(entries)|
    ensures Mirror(entries)[m] == Entry(Reversed(entries[i].name), MirrorNode(entries[i].node))
  {
    if i == 0 {
      m := 0;
    } else {
      m := Image(entries[1..], i - 1);
      if !Skipped(entries[0]) { m := m + 1; }
    }
  }

  lemma MirrorLooksUp(a: seq<Entry>, b: seq<Entry>, name: string)
    requires UniqueNames(a) && UniqueNames(b) && View(a) == View(b)
    requires name in View(Mirror(a))
    ensures name in View(Mirror(b)) && View(Mirror(b))[name] == View(Mirror(a))[name]
    decreases a, 1
  {
    MirrorUnique(a);
    MirrorUnique(b);
    var m := Find(Mirror(a), name);
    var i := Origin(a, m);
    var j := Partner(a, b, i);
    var n := Image(b, j);
    ViewAt(Mirror(b), n);
    SameMirrorNode(a[i].node, b[j].node);
  }

  lemma SameMirrorNode(x: Node, y: Node)
    requires ViewNode(x) == ViewNode(y)
    requires x.Dir? ==> UniqueNames(x.entries)
    requires y.Dir? ==> UniqueNames(y.entries)
    ensures ViewNode(MirrorNode(x)) == ViewNode(MirrorNode(y))
    decreases x
  {
    if x.Dir? { SameMirror(x.entries, y.entries); }
  }

  /** The mirror of a directory does not depend on the order of reading it, as a set of
      named entries, at any depth. */
  lemma {:induction false} SameMirror(a: seq<Entry>, b: seq<Entry>)
    requires UniqueNames(a) && UniqueNames(b) && View(a) == View(b)
    ensures View(Mirror(a)) == View(Mirror(b))
    decreases a, 2
  {
    forall name | name in View(Mirror(a))
      ensures name in View(Mirror(b)) && View(Mirror(b))[name] == View(Mirror(a))[name]
    {
      MirrorLooksUp(a, b, name);
    }
    forall name | name in View(Mirror(b)) ensures name in View(Mirror(a)) {
      MirrorHas(b, a, name);
    }
  }

  lemma MirrorHas(b: seq<Entry>, a: seq<Entry>, name: string)
    requires UniqueNames(a) && UniqueNames(b) && View(a) == View(b)
    requires name in View(Mirror(b))
    ensures name in View(Mirror(a))
  {
    MirrorUnique(b);
    MirrorUnique(a);
    var m := Find(Mirror(b), name);
    var j := Origin(b, m);
    var i := Partner(b, a, j);
    var n := Image(a, i);
    ViewAt(Mirror(a), n);
  }

  // ----- the round trip in any order -----

  lemma {:induction false} PrunedOrigin(entries: seq<Entry>, p: nat) returns (i: nat)
    requires p < |Pruned(entries)|
    ensures i < |entries| && !Lost(entries[i])
    ensures Pruned(entries)[p] == Entry(entries[i].name, PrunedNode(entries[i].node))
  {
    var lost := Lost(entries[0]);
    if !lost && p == 0 {
      i := 0;
    } else {
      i := PrunedOrigin(entries[1..], if lost then p else p - 1);
      i := i + 1;
    }
  }

  /** A tree that looks as if nothing had been pruned holds nothing to prune. */
  lemma {:induction false} PrunedLooksClean(entries: seq<Entry>)
    requires UniqueNames(entries) && UniqueNames(Pruned(entries)) && View(Pruned(entries)) == View(entries)
    ensures Clean(entries)
    decreases entries
  {
    forall i | 0 <= i < |entries|
      ensures !Lost(entries[i]) && (entries[i].node.Dir? ==> Clean(entries[i].node.entries))
    {
      ViewAt(entries, i);
      var p := Find(Pruned(entries), entries[i].name);
      var k := PrunedOrigin(entries, p);
      OneOfThatName(entries, i, k);
      var node := entries[i].node;
      if node.Dir? {
        MirrorUnique(node.entries);
        MirrorUnique(Mirror(node.entries));
        MirrorTwice(node.entries);
        PrunedLooksClean(node.entries);
      }
    }
  }

  lemma {:induction false} CleanInAnyOrder(a: seq<Entry>, b: seq<Entry>)
    requires UniqueNames(a) && UniqueNames(b) && View(a) == View(b) && Clean(b)
    ensures Clean(a)
    decreases a
  {
    forall i | 0 <= i < |a| ensures !Lost(a[i]) && (a[i].node.Dir? ==> Clean(a[i].node.entries)) {
      var j := Partner(a, b, i);
      if a[i].node.Dir? { CleanInAnyOrder(a[i].node.entries, b[j].node.entries); }
    }
  }

  /** Whatever order the first pass lists the tree in, and whatever order the second lists
      the mirror in, the result is the original tree if and only if that holds only files and
      directories and no name in it begins or ends with a dot. */
  lemma RoundTripInAnyOrder(tree: seq<Entry>, first: seq<Entry>, second: seq<Entry>)
    requires UniqueNames(tree) && UniqueNames(first) && UniqueNames(second)
    requires View(first) == View(tree) && View(second) == View(Mirror(first))
    ensures View(Mirror(second)) == View(tree) <==> Clean(tree)
  {
    MirrorUnique(first);
    MirrorUnique(Mirror(first));
    SameMirror(second, Mirror(first));
    MirrorTwice(first);
    if Clean(tree) {
      CleanInAnyOrder(first, tree);
      PrunedIff(first);
    }
    if View(Mirror(second)) == View(tree) {
      PrunedLooksClean(first);
      CleanInAnyOrder(tree, first);
    }
  }
}
