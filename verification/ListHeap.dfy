/** The list of strings in the heap: nodes with a fixed 100-byte buffer each, inserted at the
    front, their contents exchanged in place. */
module ListHeap {
  import opened Wrappers
  import opened CStrings
  import opened Inversions

  const MAX_LEN: nat := 100

  /** What strncpy leaves in a 100-byte buffer: the string cut off after 100 characters, or
      padded with zero bytes. */
  function Stored(str: string): (buf: seq<char>)
    ensures |buf| == MAX_LEN
    ensures forall k :: 0 <= k < MAX_LEN ==> buf[k] == if k < |str| then str[k] else NUL
  {
    seq(MAX_LEN, k requires k >= 0 => if k < |str| then str[k] else NUL)
  }

  /** The part of a string that a node keeps. */
  function Kept(str: string): string {
    if |str| <= MAX_LEN then str else str[..MAX_LEN]
  }

  lemma CStringOfStored(str: string)
    requires NUL !in str
    ensures CString(Stored(str)) == Kept(str) && Stored(Kept(str)) == Stored(str)
    ensures NUL !in Kept(str)
  {
    assert Stored(str) == Kept(str) + seq(MAX_LEN - |Kept(str)|, _ => NUL);
    CStringOfPrefix(Kept(str), seq(MAX_LEN - |Kept(str)|, _ => NUL));
  }

  /** A string stored with strncpy is read back unchanged if and only if it is shorter than
      100 characters; otherwise nothing stops the reader inside the buffer. */
  lemma StoredRoundTripIff(str: string)
    requires NUL !in str
    ensures ReadBack(Stored(str)) == Some(str) <==> |str| < 100
    ensures ReadBack(Stored(str)) == None <==> |str| >= 100
  {
    CStringOfStored(str);
    if |str| < MAX_LEN { assert Stored(str)[|str|] == NUL; }
  }

  /** strncpy(dst, src, 100) between two buffers: copy up to the zero byte, if any, then pad. */
  method StrNCopy(dst: array<char>, src: array<char>)
    requires dst.Length == src.Length == MAX_LEN && dst != src
    modifies dst
    ensures dst[..] == Stored(CString(src[..]))
  {
    ghost var str := CString(src[..]);
    var i := 0;
    assert forall k :: 0 <= k < |str| ==> src[..][k] == src[k];
    while i < MAX_LEN && src[i] != NUL
      invariant 0 <= i <= |str|
      invariant forall k :: 0 <= k < |str| ==> src[k] == str[k]
      invariant forall k :: 0 <= k < i ==> dst[k] == str[k]
    {
      dst[i] := src[i];
      i := i + 1;
    }
    assert i == |str|;
    while i < MAX_LEN
      invariant |str| <= i <= MAX_LEN
      invariant forall k :: 0 <= k < |str| ==> dst[k] == str[k]
      invariant forall k :: |str| <= k < i ==> dst[k] == NUL
    {
      dst[i] := NUL;
      i := i + 1;
    }
  }

  class Node {
    const value: array<char>
    var next: Node?

    constructor (str: string)
      ensures fresh(value) && value.Length == MAX_LEN && value[..] == Stored(str) && next == null
    {
      value := new char[MAX_LEN](k requires k >= 0 => if k < |str| then str[k] else NUL);
      next := null;
    }
  }

  /** A node whose buffer holds this string. */
  predicate Shows(node: Node, text: string)
    reads node.value
  {
    node.value.Length == MAX_LEN && NUL !in text && |text| <= MAX_LEN && node.value[..] == Stored(text)
  }

  /** Whatever the two buffers hold, each ends up with the other's string. */
  method ExchangeBuffers(a: Node, b: Node)
    requires a.value.Length == b.value.Length == MAX_LEN && a.value != b.value
    modifies a.value, b.value
    ensures a.value[..] == Stored(CString(old(b.value[..])))
    ensures b.value[..] == Stored(CString(old(a.value[..])))
  {
    var tmp := new char[MAX_LEN];
    StrNCopy(tmp, a.value);
    ghost var x := CString(a.value[..]);
    StrNCopy(a.value, b.value);
    StrNCopy(b.value, tmp);
    CStringOfStored(x);
  }

  /** The same for two nodes of the list. */
  method ExchangeShown(a: Node, b: Node, ghost x: string, ghost y: string)
    requires a.value != b.value && Shows(a, x) && Shows(b, y)
    modifies a.value, b.value
    ensures Shows(a, y) && Shows(b, x)
  {
    CStringOfStored(x);
    CStringOfStored(y);
    ExchangeBuffers(a, b);
  }

  /** No node and no buffer occurs twice. */
  predicate Separate(spine: seq<Node>) {
    forall i, j :: 0 <= i < j < |spine| ==> spine[i] != spine[j] && spine[i].value != spine[j].value
  }

  predicate Apart(node: Node, spine: seq<Node>) {
    forall i :: 0 <= i < |spine| ==> spine[i] != node && spine[i].value != node.value
  }

  lemma SeparatePush(node: Node, spine: seq<Node>)
    requires Separate(spine) && Apart(node, spine)
    ensures Separate([node] + spine)
  {
  }

  class List {
    var first: Node?
    ghost var spine: seq<Node>     // the chain from `first`
    ghost var items: seq<string>   // the strings along it

    ghost predicate Chain()
      reads this, spine
    {
      && (forall i :: 0 <= i < |spine| - 1 ==> spine[i].next == spine[i + 1])
      && (spine == [] ==> first == null)
      && (spine != [] ==> first == spine[0] && spine[|spine| - 1].next == null)
    }

    ghost function Buffers(): set<object>
      reads this
    {
      set n | n in spine :: n.value
    }

    ghost predicate Valid()
      reads this, spine, Buffers()
    {
      && Chain()
      && |items| == |spine|
      && Separate(spine)
      && (forall i :: 0 <= i < |spine| ==> Shows(spine[i], items[i]))
    }

    constructor ()
      ensures Valid() && items == []
    {
      first := null;
      spine, items := [], [];
    }

    /** The new node goes in front of the chain. */
    method Prepend(node: Node)
      requires Chain() && node !in spine && node.next == null
      modifies this`first, this`spine, node`next
      ensures Chain() && spine == [node] + old(spine)
    {
      if first == null {
        first := node;
      } else {
        node.next := first;
        first := node;
      }
      spine := [node] + spine;
    }

    method InsertNode(node: Node, ghost text: string)
      requires Valid() && Apart(node, spine) && Shows(node, text) && node.next == null
      modifies this, node`next
      ensures Valid() && items == [text] + old(items) && spine == [node] + old(spine)
    {
      SeparatePush(node, spine);
      Prepend(node);
      items := [text] + items;
    }

    /** list_insert: the new string stands first, the others keep their order. */
    method Insert(str: string)
      requires Valid() && NUL !in str
      modifies this
      ensures Valid() && items == [Kept(str)] + old(items)
      ensures |spine| > 0 && fresh(spine[0]) && fresh(spine[0].value) && spine[1..] == old(spine)
    {
      var node := new Node(str);
      CStringOfStored(str);
      InsertNode(node, Kept(str));
    }

    /** list_swap on two nodes of the list: their strings change places, the chain and every
        other string stay; a node swapped with itself changes nothing. */
    method Swap(a: Node, b: Node, ghost i: nat, ghost j: nat)
      requires Valid() && i < |spine| && j < |spine| && a == spine[i] && b == spine[j]
      modifies this`items, a.value, b.value
      ensures Valid() && items == old(items)[i := old(items)[j]][j := old(items)[i]]
      ensures j == i + 1 ==> items == SwapAt(old(items), i)
    {
      if a == b { return; }
      ExchangeShown(a, b, items[i], items[j]);
      items := items[i := items[j]][j := items[i]];
      forall k | 0 <= k < |spine| && k != i && k != j ensures Shows(spine[k], items[k]) {
        assert spine[k].value != a.value && spine[k].value != b.value;
        assert old(Shows(spine[k], items[k]));
      }
    }
  }
}
