/** The cache list as a value: the entries' URLs and access times in list order, with the
    operations as plain functions, and what least-recently-used means. */
module CacheValues {
  const CACHE_MAX_SIZE: nat := 5

  datatype Rec = Rec(url: string, time: int)

  function Without<T>(s: seq<T>, k: nat): seq<T>
    requires k < |s|
  {
    s[..k] + s[k + 1..]
  }

  /** k has the least time, and is the first in list order to have it. */
  predicate IsOldest(recs: seq<Rec>, k: nat) {
    && k < |recs|
    && (forall i :: 0 <= i < |recs| ==> recs[k].time <= recs[i].time)
    && (forall i :: 0 <= i < k ==> recs[k].time < recs[i].time)
  }

  function Oldest(recs: seq<Rec>): (k: nat)
    requires recs != []
    ensures IsOldest(recs, k)
  {
    var n := |recs| - 1;
    if n == 0 then 0 else
    var k := Oldest(recs[..n]);
    assert forall i :: 0 <= i < n ==> recs[..n][i] == recs[i];
    if recs[n].time < recs[k].time then n else k
  }

  lemma OldestIsUnique(recs: seq<Rec>, j: nat, k: nat)
    requires IsOldest(recs, j) && IsOldest(recs, k)
    ensures j == k
  {
    assert recs[j].time <= recs[k].time && recs[k].time <= recs[j].time;
  }

  predicate IsAt(recs: seq<Rec>, url: string, k: nat) {
    k < |recs| && recs[k].url == url && forall i :: 0 <= i < k ==> recs[i].url != url
  }

  predicate Cached(recs: seq<Rec>, url: string) {
    exists k :: 0 <= k < |recs| && recs[k].url == url
  }

  function Index(recs: seq<Rec>, url: string): (k: nat)
    requires Cached(recs, url)
    ensures IsAt(recs, url, k)
  {
    if recs[0].url == url then 0 else
    assert Cached(recs[1..], url) by {
      var k :| 0 <= k < |recs| && recs[k].url == url;
      assert recs[1..][k - 1] == recs[k];
    }
    var k := 1 + Index(recs[1..], url);
    assert forall i :: 1 <= i < |recs| ==> recs[1..][i - 1] == recs[i];
    k
  }

  /** A list that runs parallel to `recs`, without its place of the oldest entry if the cache
      is full. */
  function Room<T>(s: seq<T>, recs: seq<Rec>): seq<T>
    requires |s| == |recs|
  {
    if |recs| >= CACHE_MAX_SIZE then Without(s, Oldest(recs)) else s
  }

  /** addNewEntry: make room if the cache is full, then put the new entry in front. */
  function Added(recs: seq<Rec>, url: string, now: int): seq<Rec> {
    [Rec(url, now)] + Room(recs, recs)
  }

  /** One request: refresh the entry if it is there, add it otherwise. */
  function Requested(recs: seq<Rec>, url: string, now: int): seq<Rec> {
    if Cached(recs, url) then recs[Index(recs, url) := Rec(url, now)] else Added(recs, url, now)
  }

  /** The cache after a history of requests, oldest first. */
  function CacheAfter(h: seq<Rec>): seq<Rec> {
    if h == [] then [] else
    Requested(CacheAfter(h[..|h| - 1]), h[|h| - 1].url, h[|h| - 1].time)
  }

  lemma CacheAfterNext(h: seq<Rec>, n: nat)
    requires n < |h|
    ensures CacheAfter(h[..n + 1]) == Requested(CacheAfter(h[..n]), h[n].url, h[n].time)
  {
    assert h[..n + 1][..n] == h[..n];
  }
}
