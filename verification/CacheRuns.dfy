/** Whole runs of the proxy cache: any mixture of its operations, and a download from its first
    chunk to completion. */
module CacheRuns {
  import opened Bytes
  import opened CacheValues
  import opened CacheLru
  import opened CacheHeap
  import CacheEntryProtocol

  // ----- any mixture of operations -----

  /** Delete(n) is deleteEntry with the pointer that request n was given, whether or not the
      entry is still in the list. */
  datatype Op = Request(url: string, now: int) | Evict | Delete(n: nat) | CleanUp

  /** The list in its callers' terms: an entry is named by the request that created it;
      `ids` are the names along the list and `handles` what each request was given. */
  datatype View = View(recs: seq<Rec>, ids: seq<nat>, handles: seq<nat>)

  /** The list holds each name and each URL once, and a name is the request that made it. */
  predicate Ok(v: View) {
    && |v.recs| == |v.ids| <= CACHE_MAX_SIZE
    && Distinct(v.recs)
    && (forall i, j :: 0 <= i < j < |v.ids| ==> v.ids[i] != v.ids[j])
    && (forall k :: 0 <= k < |v.ids| ==> v.ids[k] < |v.handles| && v.handles[v.ids[k]] == v.ids[k])
    && (forall n :: 0 <= n < |v.handles| ==> v.handles[n] <= n && v.handles[v.handles[n]] == v.handles[n])
  }

  function Place(ids: seq<nat>, id: nat): (k: nat)
    requires id in ids
    ensures k < |ids| && ids[k] == id
  {
    if ids[0] == id then 0 else 1 + Place(ids[1..], id)
  }

  function Dropped(v: View, k: nat): View
    requires |v.recs| == |v.ids| && k < |v.ids|
  {
    View(Without(v.recs, k), Without(v.ids, k), v.handles)
  }

  function Requests(v: View, url: string, now: int): View
    requires |v.recs| == |v.ids|
  {
    if Cached(v.recs, url) then
      var k := Index(v.recs, url);
      View(v.recs[k := Rec(url, now)], v.ids, v.handles + [v.ids[k]])
    else
      View(Added(v.recs, url, now), [|v.handles|] + Room(v.ids, v.recs), v.handles + [|v.handles|])
  }

  function Apply(v: View, op: Op): View
    requires |v.recs| == |v.ids|
  {
    match op
    case Request(url, now) => Requests(v, url, now)
    case Evict => if v.recs == [] then v else Dropped(v, Oldest(v.recs))
    case Delete(n) =>
      if n < |v.handles| && v.handles[n] in v.ids then Dropped(v, Place(v.ids, v.handles[n])) else v
    case CleanUp => View([], [], v.handles)
  }

  function After(ops: seq<Op>): (v: View)
    ensures Ok(v)
  {
    if ops == [] then View([], [], []) else
    var v := After(ops[..|ops| - 1]);
    ApplyOk(v, ops[|ops| - 1]);
    Apply(v, ops[|ops| - 1])
  }

  lemma DroppedOk(v: View, k: nat)
    requires Ok(v) && k < |v.ids|
    ensures Ok(Dropped(v, k))
  {
    WithoutParts(v.ids, k);
    WithoutMembers(v.recs, k);
  }

  lemma HitOk(v: View, url: string, now: int)
    requires Ok(v) && Cached(v.recs, url)
    ensures Ok(Requests(v, url, now))
  {
    ReplaceMembers(v.recs, Index(v.recs, url), Rec(url, now));
  }

  lemma MissOk(v: View, url: string, now: int)
    requires Ok(v) && !Cached(v.recs, url)
    ensures Ok(Requests(v, url, now))
  {
    var full := |v.recs| >= CACHE_MAX_SIZE;
    if full { DroppedOk(v, Oldest(v.recs)); }
    var room := if full then Dropped(v, Oldest(v.recs)) else v;
    assert Ok(room);
    assert forall k :: 0 <= k < |room.recs| ==> room.recs[k] in v.recs;
    assert Requests(v, url, now) ==
           View([Rec(url, now)] + room.recs, [|v.handles|] + room.ids, v.handles + [|v.handles|]);
  }

  lemma ApplyOk(v: View, op: Op)
    requires Ok(v)
    ensures Ok(Apply(v, op))
  {
    match op
    case Request(url, now) => if Cached(v.recs, url) { HitOk(v, url, now); } else { MissOk(v, url, now); }
    case Evict => if v.recs != [] { DroppedOk(v, Oldest(v.recs)); }
    case Delete(n) =>
      if n < |v.handles| && v.handles[n] in v.ids { DroppedOk(v, Place(v.ids, v.handles[n])); }
    case CleanUp =>
  }

  /** `handles` are the pointers the requests were given and `spine` the entries along the
      list: equal pointers have equal names. */
  predicate Named(handles: seq<CacheEntry>, spine: seq<CacheEntry>, ids: seq<nat>, names: seq<nat>) {
    && |handles| == |names| && |ids| == |spine|
    && (forall n :: 0 <= n < |handles| ==> names[n] < |handles| && handles[n] == handles[names[n]])
    && (forall k :: 0 <= k < |ids| ==> ids[k] < |handles| && spine[k] == handles[ids[k]])
    && (forall m, n :: 0 <= m < |handles| && 0 <= n < |handles| && handles[m] == handles[n] ==>
          names[m] == names[n])
  }

  lemma NamedHit(handles: seq<CacheEntry>, spine: seq<CacheEntry>, ids: seq<nat>, names: seq<nat>, k: nat)
    requires Named(handles, spine, ids, names) && k < |ids|
    requires names[ids[k]] == ids[k]
    ensures Named(handles + [spine[k]], spine, ids, names + [ids[k]])
  {
  }

  lemma NamedMiss(handles: seq<CacheEntry>, spine: seq<CacheEntry>, ids: seq<nat>, names: seq<nat>, e: CacheEntry)
    requires Named(handles, spine, ids, names) && e !in handles
    ensures Named(handles + [e], [e] + spine, [|names|] + ids, names + [|names|])
  {
  }

  lemma NamedDropped(handles: seq<CacheEntry>, spine: seq<CacheEntry>, ids: seq<nat>, names: seq<nat>, k: nat)
    requires Named(handles, spine, ids, names) && k < |ids|
    ensures Named(handles, Without(spine, k), Without(ids, k), names)
  {
  }

  /** The linked list and the pointers its callers hold are as the view says, and every entry
      ever created is in the list or freed. */
  ghost predicate Shows(c: Cache, handles: seq<CacheEntry>, v: View)
    reads c, c.spine
  {
    && c.Valid() && c.recs == v.recs
    && Named(handles, c.spine, v.ids, v.handles)
    && c.Made() == (set e | e in handles)
  }

  lemma SetOfPush<T>(s: seq<T>, x: T)
    ensures (set e | e in s + [x]) == (set e | e in s) + {x}
  {
  }

  lemma SpineNamed(c: Cache, handles: seq<CacheEntry>, v: View)
    requires Shows(c, handles, v)
    ensures forall k :: 0 <= k < |c.spine| ==> c.spine[k] in handles
  {
  }

  /** The entry a request is given and the list after it. */
  lemma NamedRequest(handles: seq<CacheEntry>, spine: seq<CacheEntry>, v: View, url: string, now: int,
                     entry: CacheEntry, after: seq<CacheEntry>)
    requires Ok(v) && Named(handles, spine, v.ids, v.handles)
    requires Cached(v.recs, url) ==> after == spine && entry == spine[Index(v.recs, url)]
    requires !Cached(v.recs, url) ==> entry !in handles && after == [entry] + Room(spine, v.recs)
    ensures Named(handles + [entry], after, Requests(v, url, now).ids, Requests(v, url, now).handles)
  {
    if Cached(v.recs, url) {
      NamedHit(handles, spine, v.ids, v.handles, Index(v.recs, url));
    } else {
      if |v.recs| >= CACHE_MAX_SIZE { NamedDropped(handles, spine, v.ids, v.handles, Oldest(v.recs)); }
      NamedMiss(handles, Room(spine, v.recs), Room(v.ids, v.recs), v.handles, entry);
    }
  }

  method RequestStep(c: Cache, handles: seq<CacheEntry>, ghost v: View, url: string, now: int)
    returns (more: seq<CacheEntry>)
    requires Ok(v) && Shows(c, handles, v)
    modifies c, c.Entries()`next, c.Entries()`lastAccessTime
    ensures Shows(c, more, Requests(v, url, now))
    ensures forall e :: e in more ==> e in handles || fresh(e)
  {
    SpineNamed(c, handles, v);
    ghost var spine := c.spine;
    var entry := c.Lookup(url, now);
    more := handles + [entry];
    SetOfPush(handles, entry);
    NamedRequest(handles, spine, v, url, now, entry, c.spine);
    assert c.Made() == (set e | e in more);
    assert c.recs == Requests(v, url, now).recs;
  }

  method EvictStep(c: Cache, handles: seq<CacheEntry>, ghost v: View)
    requires Ok(v) && Shows(c, handles, v)
    modifies c, c.Entries()`next
    ensures Shows(c, handles, Apply(v, Evict))
  {
    if v.recs != [] { NamedDropped(handles, c.spine, v.ids, v.handles, Oldest(v.recs)); }
    c.RemoveOldest();
  }

  /** The pointer is in the list exactly when its name is. */
  lemma HandleInList(handles: seq<CacheEntry>, spine: seq<CacheEntry>, v: View, n: nat)
    requires Ok(v) && Named(handles, spine, v.ids, v.handles) && n < |handles|
    ensures v.handles[n] in v.ids ==> spine[Place(v.ids, v.handles[n])] == handles[n]
    ensures v.handles[n] !in v.ids ==> handles[n] !in spine
  {
    if handles[n] in spine {
      var k :| 0 <= k < |spine| && spine[k] == handles[n];
      assert v.ids[k] == v.handles[n];
    }
  }

  method DeleteStep(c: Cache, handles: seq<CacheEntry>, ghost v: View, n: nat)
    requires Ok(v) && Shows(c, handles, v)
    modifies c, c.Entries()`next
    ensures Shows(c, handles, Apply(v, Delete(n)))
  {
    if n < |handles| {
      HandleInList(handles, c.spine, v, n);
      ghost var spine := c.spine;
      c.DeleteEntry(handles[n]);
      if v.handles[n] in v.ids {
        NamedDropped(handles, spine, v.ids, v.handles, Place(v.ids, v.handles[n]));
      }
    }
  }

  method CleanUpStep(c: Cache, handles: seq<CacheEntry>, ghost v: View)
    requires Ok(v) && Shows(c, handles, v)
    modifies c
    ensures Shows(c, handles, Apply(v, CleanUp))
  {
    c.CleanUp();
    assert |c.spine| == 0;
  }

  method ApplyStep(c: Cache, handles: seq<CacheEntry>, ghost v: View, op: Op) returns (more: seq<CacheEntry>)
    requires Ok(v) && Shows(c, handles, v)
    modifies c, c.Entries()`next, c.Entries()`lastAccessTime
    ensures Shows(c, more, Apply(v, op))
    ensures forall e :: e in more ==> e in handles || fresh(e)
  {
    more := handles;
    match op
    case Request(url, now) => more := RequestStep(c, handles, v, url, now);
    case Evict => EvictStep(c, handles, v);
    case Delete(n) => DeleteStep(c, handles, v, n);
    case CleanUp => CleanUpStep(c, handles, v);
  }

  /** Any sequence of operations on the linked list, from an empty cache: the size is the
      length of the chain, the list is what the operations on values give, every pointer a
      request was given is the entry of that name, and no entry is lost or freed twice. */
  method Perform(ops: seq<Op>) returns (c: Cache, handles: seq<CacheEntry>)
    ensures Shows(c, handles, After(ops))
    ensures c.size == |After(ops).recs| <= 5
  {
    c := new Cache();
    handles := [];
    var n := 0;
    assert ops[..0] == [];
    while n < |ops|
      invariant 0 <= n <= |ops| && fresh(c) && Shows(c, handles, After(ops[..n]))
      invariant forall e :: e in handles ==> fresh(e)
    {
      ghost var v := After(ops[..n]);
      SpineNamed(c, handles, v);
      handles := ApplyStep(c, handles, v, ops[n]);
      n := n + 1;
      assert ops[..n][..n - 1] == ops[..n - 1];
    }
    assert ops[..n] == ops;
  }

  // ----- one download -----

  function Contents(chunks: seq<array<Byte>>): seq<seq<Byte>>
    reads chunks
  {
    seq(|chunks|, i requires 0 <= i < |chunks| reads chunks => chunks[i][..])
  }

  /** The downloader's loop on the heap: the entry ends up complete with all chunks in order,
      which is what the machine's readers send. */
  method Download(entry: CacheEntry, chunks: seq<array<Byte>>)
    requires entry.ValidData()
    modifies entry`data, entry`downloadedSize, entry`isComplete
    ensures entry.ValidData() && entry.isComplete
    ensures entry.Bytes() == old(entry.Bytes()) + CacheEntryProtocol.Flatten(Contents(chunks))
  {
    ghost var all := Contents(chunks);
    var k := 0;
    while k < |chunks|
      invariant 0 <= k <= |chunks| && entry.ValidData() && Contents(chunks) == all
      invariant entry.Bytes() == old(entry.Bytes()) + CacheEntryProtocol.Flatten(all[..k])
    {
      CacheEntryProtocol.FlattenNext(all, k);
      entry.InsertData(chunks[k]);
      k := k + 1;
    }
    assert all[..k] == all;
    entry.MarkComplete();
  }
}
