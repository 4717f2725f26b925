/** The linked queue in the heap: `first`, `last`, `next`, `count` and the statistics
    fields, updated in place as every variant of the queue does inside its lock. */
module QueueHeap {
  import opened Wrappers
  import opened QueueData

  class QNode {
    var val: int
    var next: QNode?

    constructor (val: int)
      ensures this.val == val && next == null
    {
      this.val := val;
      next := null;
    }
  }

  /** `next` leads from each node to its successor and ends with null. */
  ghost predicate Chained(nodes: seq<QNode>)
    reads nodes
  {
    && (forall i :: 0 <= i < |nodes| - 1 ==> nodes[i].next == nodes[i + 1])
    && (nodes != [] ==> nodes[|nodes| - 1].next == null)
  }

  class Queue {
    var first: QNode?
    var last: QNode?
    var count: int
    var maxCount: int
    var addAttempts: nat
    var getAttempts: nat
    var addCount: nat
    var getCount: nat

    ghost var spine: seq<QNode>   // the chain from `first`, in order
    ghost var items: seq<int>     // the values along the spine
    ghost var freed: set<QNode>   // nodes given back to the allocator

    /** The chain is acyclic, has exactly `count` nodes, none of them freed, and `last` is
        its final node; `last` may be stale (even freed) when the chain is empty. */
    ghost predicate Valid()
      reads this, spine
    {
      0 <= count == |spine| <= maxCount && Linked()
    }

    ghost predicate Linked()
      reads this, spine
    {
      && |items| == |spine|
      && (forall i :: 0 <= i < |spine| ==> spine[i].val == items[i])
      && (forall i, j :: 0 <= i < j < |spine| ==> spine[i] != spine[j])
      && (forall i :: 0 <= i < |spine| ==> spine[i] !in freed)
      && Chained(spine)
      && (spine == [] ==> first == null)
      && (spine != [] ==> first == spine[0] && last == spine[|spine| - 1])
    }

    ghost function Data(): QueueState
      reads this, spine
      requires Valid()
    {
      QueueState(items, maxCount, addAttempts, getAttempts, addCount, getCount)
    }

    constructor (maxCount: nat)
      ensures Valid() && Data() == Fresh(maxCount) && freed == {}
    {
      first, last := null, null;
      this.maxCount, count := maxCount, 0;
      addAttempts, getAttempts, addCount, getCount := 0, 0, 0, 0;
      spine, items, freed := [], [], {};
    }

    /** The insertion every variant performs once it knows there is room. */
    method Link(val: int)
      requires Valid() && !Full(Data())
      modifies this, last
      ensures Valid() && Data() == Append(old(Data()), val)
      ensures |spine| == |old(spine)| + 1 && old(spine) == spine[..|old(spine)|]
      ensures fresh(spine[|old(spine)|]) && freed == old(freed)
    {
      var node := new QNode(val);
      Attach(node);
      count := count + 1;
      addCount := addCount + 1;
    }

    /** Hang a node that is not in the chain behind the last one. */
    method Attach(node: QNode)
      requires Valid() && node !in spine && node !in freed && node.next == null
      modifies this`first, this`last, this`spine, this`items, last
      ensures spine == old(spine) + [node] && items == old(items) + [node.val]
      ensures Linked() && node.val == old(node.val)
    {
      if first == null {
        first, last := node, node;
      } else {
        assert last == spine[|spine| - 1] && last !in freed;
        last.next := node;
        last := last.next;
      }
      spine, items := spine + [node], items + [node.val];
    }

    /** The removal every variant performs once it knows the chain is not empty. */
    method Unlink() returns (val: int)
      requires Valid() && Data().items != []
      modifies this
      ensures Valid() && Data() == DropFirst(old(Data())) && val == old(Data()).items[0]
      ensures spine == old(spine)[1..] && freed == old(freed) + {old(spine)[0]}
    {
      var tmp := first;
      assert tmp !in freed;
      val := tmp.val;
      first := first.next;
      freed := freed + {tmp};
      spine, items := spine[1..], items[1..];
      count := count - 1;
      getCount := getCount + 1;
    }

    /** The baseline `queue_add`: the C assertion holds, and a full queue is refused. */
    method QueueAdd(val: int) returns (ok: bool)
      requires Valid()
      modifies this, last
      ensures Valid() && (Data(), ok) == BaselineAdd(old(Data()), val)
    {
      addAttempts := addAttempts + 1;
      assert count <= maxCount;
      if count == maxCount {
        return false;
      }
      Link(val);
      return true;
    }

    /** The baseline `queue_get`: an empty queue is refused and leaves `val` unset. */
    method QueueGet() returns (ok: bool, val: int)
      requires Valid()
      modifies this
      ensures Valid()
      ensures (Data(), if ok then Some(val) else None) == BaselineGet(old(Data()))
    {
      val := -1;
      getAttempts := getAttempts + 1;
      assert count >= 0;
      if count == 0 {
        return false, val;
      }
      val := Unlink();
      return true, val;
    }

    /** The list walk of `queue_destroy`: every node of the chain is freed exactly once, in
        order, and no node is read after it was freed. */
    method Destroy() returns (walk: seq<QNode>)
      requires Valid()
      modifies this`freed
      ensures walk == spine && freed == old(freed) + (set n | n in spine)
    {
      walk := [];
      var current := first;
      while current != null
        invariant |walk| <= |spine| && walk == spine[..|walk|]
        invariant current == if |walk| < |spine| then spine[|walk|] else null
        invariant freed == old(freed) + (set n | n in walk)
        decreases |spine| - |walk|
      {
        var tmp := current;
        assert current !in freed;
        current := current.next;
        freed := freed + {tmp};
        walk := walk + [tmp];
      }
    }
  }
}
