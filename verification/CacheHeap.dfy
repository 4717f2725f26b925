/** The proxy cache in the heap: a linked list of entries behind a head pointer and a size,
    with the pointer-chasing loops of the original. */
module CacheHeap {
  import opened Bytes
  import opened CacheValues

  class CacheEntry {
    const url: string
    var data: array<Byte>
    var downloadedSize: nat
    var isComplete: bool
    var lastAccessTime: int
    var next: CacheEntry?

    constructor (url: string, now: int)
      ensures this.url == url && lastAccessTime == now && next == null
      ensures ValidData() && Bytes() == [] && !isComplete && fresh(data)
    {
      this.url, lastAccessTime, next := url, now, null;
      data, downloadedSize, isComplete := new Byte[0], 0, false;
    }

    ghost predicate ValidData()
      reads this
    {
      downloadedSize == data.Length
    }

    ghost function Bytes(): seq<Byte>
      reads this, data
    {
      data[..]
    }

    /** cacheInsertData: the chunk goes behind the bytes already stored. */
    method InsertData(chunk: array<Byte>)
      requires ValidData()
      modifies this`data, this`downloadedSize
      ensures ValidData() && fresh(data) && Bytes() == old(Bytes()) + chunk[..]
      ensures downloadedSize == old(downloadedSize) + chunk.Length
    {
      var newData := new Byte[downloadedSize + chunk.Length];
      forall i | 0 <= i < downloadedSize { newData[i] := data[i]; }
      forall i | 0 <= i < chunk.Length { newData[downloadedSize + i] := chunk[i]; }
      data := newData;
      downloadedSize := downloadedSize + chunk.Length;
    }

    /** cacheMarkComplete; the broadcast is in the machine. */
    method MarkComplete()
      requires ValidData()
      modifies this`isComplete
      ensures isComplete && ValidData() && Bytes() == old(Bytes())
    {
      isComplete := true;
    }
  }

  /** Unlinking entry k and freeing it loses no entry. */
  lemma NoneLost(spine: seq<CacheEntry>, k: nat, freed: set<CacheEntry>)
    requires k < |spine|
    ensures (set e | e in Without(spine, k)) + (freed + {spine[k]}) == (set e | e in spine) + freed
  {
    assert spine == spine[..k] + [spine[k]] + spine[k + 1..];
  }

  class Cache {
    var head: CacheEntry?
    var size: nat

    ghost var spine: seq<CacheEntry>   // the entries from `head`, in order
    ghost var recs: seq<Rec>           // their URLs and access times
    ghost var freed: set<CacheEntry>

    ghost function Entries(): set<CacheEntry>
      reads this
    {
      set e | e in spine
    }

    /** Every entry ever created: in the list or freed. */
    ghost function Made(): set<CacheEntry>
      reads this
    {
      Entries() + freed
    }

    /** Acyclic, and ends with null. */
    ghost predicate Chain()
      reads this, spine
    {
      && (forall i, j :: 0 <= i < j < |spine| ==> spine[i] != spine[j])
      && (forall i :: 0 <= i < |spine| - 1 ==> spine[i].next == spine[i + 1])
      && (spine == [] ==> head == null)
      && (spine != [] ==> head == spine[0] && spine[|spine| - 1].next == null)
    }

    /** Exactly `size` entries in the chain, none of them freed. */
    ghost predicate Valid()
      reads this, spine
    {
      && Chain()
      && size == |spine| == |recs|
      && (forall i :: 0 <= i < |spine| ==>
            spine[i] !in freed && recs[i] == Rec(spine[i].url, spine[i].lastAccessTime))
    }

    constructor ()
      ensures Valid() && recs == [] && Made() == {}
    {
      head, size := null, 0;
      spine, recs, freed := [], [], {};
    }

    /** `previous` is the entry before entry k, if any: the chain now goes past entry k. */
    method Bypass(previous: CacheEntry?, entry: CacheEntry, ghost k: nat)
      requires Chain() && k < |spine| && entry == spine[k]
      requires previous == if k == 0 then null else spine[k - 1]
      modifies this`head, this`spine, spine`next
      ensures Chain() && spine == Without(old(spine), k)
    {
      if previous != null {
        previous.next := entry.next;
      } else {
        head := entry.next;
      }
      spine := Without(spine, k);
    }

    /** The unlinking both removals share. */
    method Unlink(previous: CacheEntry?, entry: CacheEntry, ghost k: nat)
      requires Valid() && k < |spine| && entry == spine[k]
      requires previous == if k == 0 then null else spine[k - 1]
      modifies this, spine`next
      ensures Valid() && recs == Without(old(recs), k) && spine == Without(old(spine), k)
      ensures freed == old(freed) + {entry}
    {
      Bypass(previous, entry, k);
      freed := freed + {entry};
      recs := Without(recs, k);
      size := size - 1;
    }

    /** removeOldest, run with the cache lock already held. */
    method RemoveOldest()
      requires Valid()
      modifies this, spine`next
      ensures Valid() && Made() == old(Made())
      ensures old(recs) == [] ==> recs == [] && spine == []
      ensures old(recs) != [] ==>
                && recs == Without(old(recs), Oldest(old(recs)))
                && spine == Without(old(spine), Oldest(old(recs)))
    {
      if head == null { return; }
      var entry: CacheEntry?, previous: CacheEntry? := head, null;
      var oldest, prevOldest: CacheEntry? := head, null;
      ghost var i, k := 0, 0;
      while entry != null
        invariant 0 <= i <= |spine| && k < |spine| && (k < i || i == k == 0)
        invariant entry == if i < |spine| then spine[i] else null
        invariant previous == if i == 0 then null else spine[i - 1]
        invariant oldest == spine[k] && prevOldest == if k == 0 then null else spine[k - 1]
        invariant forall j :: 0 <= j < i ==> recs[k].time <= recs[j].time
        invariant forall j :: 0 <= j < k ==> recs[k].time < recs[j].time
        decreases |spine| - i
      {
        if entry.lastAccessTime < oldest.lastAccessTime {
          oldest, prevOldest, k := entry, previous, i;
        }
        previous, entry, i := entry, entry.next, i + 1;
      }
      OldestIsUnique(recs, k, Oldest(recs));
      NoneLost(spine, k, freed);
      Unlink(prevOldest, oldest, k);
    }

    /** getCacheEntry: the first entry with this URL, its access time refreshed; null if none. */
    method GetEntry(url: string, now: int) returns (found: CacheEntry?)
      requires Valid()
      modifies this`recs, spine`lastAccessTime
      ensures Valid()
      ensures found != null <==> Cached(old(recs), url)
      ensures found == null ==> recs == old(recs)
      ensures found != null ==>
                && found == spine[Index(old(recs), url)] && found.url == url
                && recs == old(recs)[Index(old(recs), url) := Rec(url, now)]
    {
      var entry := head;
      ghost var i := 0;
      while entry != null
        invariant 0 <= i <= |spine| && entry == if i < |spine| then spine[i] else null
        invariant forall j :: 0 <= j < i ==> recs[j].url != url
        invariant recs == old(recs) && Valid()
        decreases |spine| - i
      {
        if entry.url == url {
          assert IsAt(recs, url, i) && recs[i].url == url;
          entry.lastAccessTime := now;
          recs := recs[i := Rec(url, now)];
          return entry;
        }
        entry, i := entry.next, i + 1;
      }
      return null;
    }

    /** A full cache loses its oldest entry. */
    method MakeRoom()
      requires Valid()
      modifies this, spine`next
      ensures Valid() && Made() == old(Made())
      ensures spine == Room(old(spine), old(recs)) && recs == Room(old(recs), old(recs))
      ensures size <= old(size) && (old(size) <= CACHE_MAX_SIZE ==> size < CACHE_MAX_SIZE)
    {
      if size >= CACHE_MAX_SIZE {
        RemoveOldest();
      }
    }

    /** addNewEntry, with room made first when the cache is full. */
    method AddNewEntry(url: string, now: int) returns (entry: CacheEntry)
      requires Valid()
      modifies this, spine`next
      ensures Valid() && recs == Added(old(recs), url, now)
      ensures fresh(entry) && entry.url == url && entry.lastAccessTime == now
      ensures Made() == old(Made()) + {entry}
      ensures spine == [entry] + Room(old(spine), old(recs))
      ensures size <= old(size) + 1 && (old(size) <= CACHE_MAX_SIZE ==> size <= CACHE_MAX_SIZE)
    {
      MakeRoom();
      entry := new CacheEntry(url, now);
      PushFront(entry);
    }

    method PushFront(entry: CacheEntry)
      requires Valid() && entry !in spine && entry !in freed
      modifies this, entry`next
      ensures Valid() && spine == [entry] + old(spine) && size == old(size) + 1
      ensures recs == [Rec(entry.url, entry.lastAccessTime)] + old(recs)
      ensures Made() == old(Made()) + {entry}
    {
      Prepend(entry);
      size := size + 1;
      recs := [Rec(entry.url, entry.lastAccessTime)] + recs;
    }

    method Prepend(entry: CacheEntry)
      requires Chain() && entry !in spine
      modifies this`head, this`spine, entry`next
      ensures Chain() && spine == [entry] + old(spine)
    {
      entry.next := head;
      head := entry;
      spine := [entry] + spine;
    }

    /** deleteEntry: exactly this entry goes, or nothing when it is not in the list. */
    method DeleteEntry(entry: CacheEntry)
      requires Valid()
      modifies this, spine`next
      ensures Valid() && entry !in spine && Made() == old(Made())
      ensures entry !in old(spine) ==> spine == old(spine) && recs == old(recs)
      ensures forall k :: 0 <= k < |old(spine)| && old(spine)[k] == entry ==>
                recs == Without(old(recs), k) && spine == Without(old(spine), k)
    {
      var current: CacheEntry?, previous: CacheEntry? := head, null;
      ghost var i := 0;
      while current != null
        invariant 0 <= i <= |spine| && current == if i < |spine| then spine[i] else null
        invariant previous == if i == 0 then null else spine[i - 1]
        invariant entry !in spine[..i]
        invariant spine == old(spine) && recs == old(recs) && freed == old(freed) && Valid()
        decreases |spine| - i
      {
        if current == entry {
          NoneLost(spine, i, freed);
          Unlink(previous, current, i);
          break;
        }
        previous, current, i := current, current.next, i + 1;
      }
    }

    /** cacheCleanUp: every entry is freed once, its successor read before. */
    method CleanUp()
      requires Valid()
      modifies this
      ensures Valid() && recs == [] && freed == old(freed) + (set e | e in old(spine))
      ensures Made() == old(Made())
    {
      var current := head;
      ghost var i := 0;
      while current != null
        invariant 0 <= i <= |spine| && current == if i < |spine| then spine[i] else null
        invariant spine == old(spine) && freed == old(freed) + (set e | e in spine[..i])
        invariant forall j :: 0 <= j < |spine| - 1 ==> spine[j].next == spine[j + 1]
        invariant forall j, l :: 0 <= j < l < |spine| ==> spine[j] != spine[l]
        decreases |spine| - i
      {
        assert current !in freed;
        var next := current.next;
        freed := freed + {current};
        current, i := next, i + 1;
      }
      head, size := null, 0;
      spine, recs := [], [];
    }

    /** The lookup of handleRequest: get the entry, or add it. */
    method Lookup(url: string, now: int) returns (entry: CacheEntry)
      requires Valid()
      modifies this, Entries()`next, Entries()`lastAccessTime
      ensures Valid() && recs == Requested(old(recs), url, now)
      ensures entry.url == url && entry.lastAccessTime == now
      ensures Cached(old(recs), url) ==>
                spine == old(spine) && entry == spine[Index(old(recs), url)] && Made() == old(Made())
      ensures !Cached(old(recs), url) ==>
                && fresh(entry) && Made() == old(Made()) + {entry}
                && spine == [entry] + Room(old(spine), old(recs))
    {
      var found := GetEntry(url, now);
      if found == null {
        entry := AddNewEntry(url, now);
      } else {
        entry := found;
        assert recs[Index(old(recs), url)] == Rec(entry.url, entry.lastAccessTime);
      }
    }

    /** The same as written: addNewEntry holds the cache's mutex when it calls removeOldest,
        which takes it again, so a miss on a full cache never returns (null here). */
    method LookupAsWritten(url: string, now: int) returns (entry: CacheEntry?)
      requires Valid()
      modifies this, Entries()`next, Entries()`lastAccessTime
      ensures Valid()
      ensures entry == null <==> !Cached(old(recs), url) && old(size) >= CACHE_MAX_SIZE
      ensures entry == null ==> recs == old(recs) && spine == old(spine) && Made() == old(Made())
      ensures entry != null ==>
                && recs == Requested(old(recs), url, now) && Made() == old(Made()) + {entry}
                && entry.url == url && entry.lastAccessTime == now
      ensures Cached(old(recs), url) ==> spine == old(spine) && entry == spine[Index(old(recs), url)]
      ensures entry != null && !Cached(old(recs), url) ==> fresh(entry) && spine == [entry] + old(spine)
    {
      entry := GetEntry(url, now);
      if entry == null {
        if size < CACHE_MAX_SIZE {
          entry := AddNewEntry(url, now);
        }
      } else {
        assert recs[Index(old(recs), url)] == Rec(entry.url, entry.lastAccessTime);
      }
    }

    /** Request n of a history. */
    method LookupNext(h: seq<Rec>, n: nat) returns (entry: CacheEntry)
      requires Valid() && n < |h| && recs == CacheAfter(h[..n])
      modifies this, Entries()`next, Entries()`lastAccessTime
      ensures Valid() && recs == CacheAfter(h[..n + 1])
      ensures entry in spine && entry.url == h[n].url
      ensures fresh(Entries() - old(Entries()))
    {
      CacheAfterNext(h, n);
      entry := Lookup(h[n].url, h[n].time);
      assert entry in spine by {
        assert entry == spine[if Cached(old(recs), h[n].url) then Index(old(recs), h[n].url) else 0];
      }
    }
  }

  /** A history of requests, one lookup after the other, from an empty cache. */
  method Serve(h: seq<Rec>) returns (c: Cache)
    ensures c.Valid() && c.recs == CacheAfter(h)
  {
    c := new Cache();
    assert CacheAfter(h[..0]) == [];
    var n := 0;
    while n < |h|
      invariant 0 <= n <= |h| && c.Valid() && fresh(c)
      invariant fresh(c.Entries())
      invariant c.recs == CacheAfter(h[..n])
    {
      var entry := c.LookupNext(h, n);
      n := n + 1;
    }
    assert h[..n] == h;
  }
}
