/** The cache as written, where addNewEntry calls removeOldest with the cache's mutex held:
    which runs reach their end. */
module CacheWritten {
  import opened Wrappers
  import opened CacheValues
  import opened CacheLru
  import opened CacheHeap
  import opened CacheRuns

  /** One operation when addNewEntry calls removeOldest with the cache's mutex held: a miss
      on a full cache never returns. */
  function Written(v: View, op: Op): Option<View>
    requires |v.recs| == |v.ids|
  {
    if op.Request? && !Cached(v.recs, op.url) && |v.recs| >= CACHE_MAX_SIZE then None else Some(Apply(v, op))
  }

  /** A run of the code as written: nothing after an operation that blocks is carried out. */
  function AsWritten(ops: seq<Op>): (r: Option<View>)
    ensures r.Some? ==> Ok(r.value)
  {
    if ops == [] then Some(View([], [], [])) else
    var before := AsWritten(ops[..|ops| - 1]);
    if before.None? then None else
    ApplyOk(before.value, ops[|ops| - 1]);
    Written(before.value, ops[|ops| - 1])
  }

  /** The URLs that have an entry if none is ever evicted, each with the request that made
      it, and the entry each request was given: no list, no order, no times and no limit. */
  datatype Living = Living(urls: map<string, nat>, handles: seq<nat>)

  function Lives(l: Living, op: Op): Living {
    match op
    case Request(url, _) =>
      if url in l.urls then Living(l.urls, l.handles + [l.urls[url]])
      else Living(l.urls[url := |l.handles|], l.handles + [|l.handles|])
    case Evict => l
    case Delete(n) =>
      if n < |l.handles| then Living(map u | u in l.urls && l.urls[u] != l.handles[n] :: l.urls[u], l.handles)
      else l
    case CleanUp => Living(map[], l.handles)
  }

  function Live(ops: seq<Op>): Living {
    if ops == [] then Living(map[], []) else Lives(Live(ops[..|ops| - 1]), ops[|ops| - 1])
  }

  // ----- a list and the living URLs -----

  /** The list has an entry for exactly these URLs, under these names. */
  ghost predicate Lists(recs: seq<Rec>, ids: seq<nat>, urls: map<string, nat>) {
    && |recs| == |ids| && Distinct(recs) && urls.Keys == Urls(recs)
    && forall k :: 0 <= k < |recs| ==> recs[k].url in urls && urls[recs[k].url] == ids[k]
  }

  lemma ListsSize(recs: seq<Rec>, ids: seq<nat>, urls: map<string, nat>)
    requires Lists(recs, ids, urls)
    ensures |urls| == |recs|
    ensures forall u :: u in urls <==> Cached(recs, u)
  {
    UrlsSize(recs);
    assert |urls| == |urls.Keys|;
    forall u ensures u in urls <==> Cached(recs, u) {
      assert u in urls <==> u in urls.Keys;
      UrlsCached(recs, u);
    }
  }

  lemma HitUrls(recs: seq<Rec>, k: nat, x: Rec)
    requires k < |recs| && recs[k].url == x.url
    ensures Urls(recs[k := x]) == Urls(recs)
  {
    UrlsOfThree(recs[..k], recs[k], recs[k + 1..]);
    UrlsOfThree(recs[..k], x, recs[k + 1..]);
    SplitAt(recs, k);
    assert recs[k := x] == (recs[..k] + [x]) + recs[k + 1..];
  }

  lemma ListsHit(recs: seq<Rec>, ids: seq<nat>, urls: map<string, nat>, k: nat, x: Rec)
    requires Lists(recs, ids, urls) && k < |recs| && recs[k].url == x.url
    ensures Lists(recs[k := x], ids, urls)
  {
    HitUrls(recs, k, x);
    ReplaceMembers(recs, k, x);
  }

  lemma DistinctPush(recs: seq<Rec>, x: Rec)
    requires Distinct(recs) && x.url !in Urls(recs)
    ensures Distinct([x] + recs) && Urls([x] + recs) == Urls(recs) + {x.url}
  {
    UrlsConcat([x], recs);
    assert Urls([x]) == {x.url};
    UrlsCached(recs, x.url);
  }

  lemma ListsMiss(recs: seq<Rec>, ids: seq<nat>, urls: map<string, nat>, x: Rec, id: nat)
    requires Lists(recs, ids, urls) && x.url !in urls
    ensures Lists([x] + recs, [id] + ids, urls[x.url := id])
  {
    assert x.url !in urls.Keys;
    DistinctPush(recs, x);
    assert urls[x.url := id].Keys == urls.Keys + {x.url};
  }

  lemma DroppedUrls(recs: seq<Rec>, k: nat)
    requires Distinct(recs) && k < |recs|
    ensures Urls(Without(recs, k)) == Urls(recs) - {recs[k].url}
  {
    WithoutUrls(recs, k);
    NotListedTwice(recs, k);
  }

  lemma NotListedTwice(recs: seq<Rec>, k: nat)
    requires Distinct(recs) && k < |recs|
    ensures recs[k].url !in Urls(Without(recs, k))
  {
    var rest, url := Without(recs, k), recs[k].url;
    WithoutMembers(recs, k);
    UrlsCached(rest, url);
    assert forall i :: 0 <= i < |rest| ==> rest[i] in rest;
  }

  lemma ListsDrop(recs: seq<Rec>, ids: seq<nat>, urls: map<string, nat>, k: nat)
    requires Lists(recs, ids, urls) && k < |recs|
    ensures Lists(Without(recs, k), Without(ids, k), map u | u in urls && u != recs[k].url :: urls[u])
  {
    DroppedUrls(recs, k);
    WithoutMembers(recs, k);
    WithoutParts(recs, k);
    WithoutParts(ids, k);
    var fewer := map u | u in urls && u != recs[k].url :: urls[u];
    assert fewer.Keys == urls.Keys - {recs[k].url};
    forall i | 0 <= i < |recs| - 1
      ensures Without(recs, k)[i].url in fewer && fewer[Without(recs, k)[i].url] == Without(ids, k)[i]
    {
      assert recs[if i < k then i else i + 1].url in urls;
    }
  }

  /** Removing by name is removing by URL, since no two entries have a name in common. */
  lemma SameRemoval(recs: seq<Rec>, ids: seq<nat>, urls: map<string, nat>, k: nat)
    requires Lists(recs, ids, urls) && k < |recs|
    requires forall i, j :: 0 <= i < j < |ids| ==> ids[i] != ids[j]
    ensures (map u | u in urls && urls[u] != ids[k] :: urls[u]) == map u | u in urls && u != recs[k].url :: urls[u]
  {
    forall u | u in urls ensures urls[u] != ids[k] <==> u != recs[k].url {
      ListsSize(recs, ids, urls);
      var i := Index(recs, u);
      assert urls[u] == ids[i];
    }
  }

  lemma NoRemoval(recs: seq<Rec>, ids: seq<nat>, urls: map<string, nat>, id: nat)
    requires Lists(recs, ids, urls) && id !in ids
    ensures (map u | u in urls && urls[u] != id :: urls[u]) == urls
  {
    forall u | u in urls ensures urls[u] != id {
      ListsSize(recs, ids, urls);
      var i := Index(recs, u);
      assert urls[u] == ids[i];
    }
  }

  // ----- steps -----

  ghost predicate ShowsLiving(v: View, l: Living) {
    l.handles == v.handles && Lists(v.recs, v.ids, l.urls)
  }

  lemma RequestLives(v: View, l: Living, url: string, now: int)
    requires ShowsLiving(v, l) && Written(v, Request(url, now)).Some?
    ensures ShowsLiving(Requests(v, url, now), Lives(l, Request(url, now)))
  {
    ListsSize(v.recs, v.ids, l.urls);
    if Cached(v.recs, url) {
      ListsHit(v.recs, v.ids, l.urls, Index(v.recs, url), Rec(url, now));
    } else {
      ListsMiss(v.recs, v.ids, l.urls, Rec(url, now), |v.handles|);
    }
  }

  lemma DeleteLives(v: View, l: Living, n: nat)
    requires Ok(v) && ShowsLiving(v, l)
    ensures ShowsLiving(Apply(v, Delete(n)), Lives(l, Delete(n)))
  {
    if n < |v.handles| {
      if v.handles[n] in v.ids {
        var k := Place(v.ids, v.handles[n]);
        ListsDrop(v.recs, v.ids, l.urls, k);
        SameRemoval(v.recs, v.ids, l.urls, k);
      } else {
        NoRemoval(v.recs, v.ids, l.urls, v.handles[n]);
      }
    }
  }

  /** An operation that does not block keeps list and living URLs together. */
  lemma StepLives(v: View, l: Living, op: Op)
    requires Ok(v) && ShowsLiving(v, l) && !op.Evict? && Written(v, op).Some?
    ensures ShowsLiving(Apply(v, op), Lives(l, op))
  {
    match op
    case Request(url, now) => RequestLives(v, l, url, now);
    case Delete(n) => DeleteLives(v, l, n);
    case CleanUp => assert Urls([]) == {};
  }

  /** An operation blocks exactly when it would make a sixth URL live. */
  lemma BlocksAtSixth(v: View, l: Living, op: Op)
    requires Ok(v) && ShowsLiving(v, l) && !op.Evict?
    ensures Written(v, op).Some? <==> |Lives(l, op).urls| <= CACHE_MAX_SIZE
  {
    ListsSize(v.recs, v.ids, l.urls);
    if Written(v, op).Some? {
      StepLives(v, l, op);
      ApplyOk(v, op);
      var after := Apply(v, op);
      ListsSize(after.recs, after.ids, Lives(l, op).urls);
    }
  }

  // ----- runs -----

  /** removeOldest has no caller but addNewEntry. */
  predicate NoEvict(ops: seq<Op>) {
    forall i :: 0 <= i < |ops| ==> !ops[i].Evict?
  }

  /** At no time more than five URLs live. */
  predicate NeverSix(ops: seq<Op>) {
    forall n :: 0 <= n <= |ops| ==> |Live(ops[..n]).urls| <= 5
  }

  lemma NeverSixNext(ops: seq<Op>)
    requires ops != []
    ensures NeverSix(ops) <==> NeverSix(ops[..|ops| - 1]) && |Live(ops).urls| <= CACHE_MAX_SIZE
  {
    var before := ops[..|ops| - 1];
    assert ops[..|ops|] == ops;
    assert forall n :: 0 <= n < |ops| ==> before[..n] == ops[..n];
    if NeverSix(before) && |Live(ops).urls| <= CACHE_MAX_SIZE {
      forall n | 0 <= n <= |ops| ensures |Live(ops[..n]).urls| <= CACHE_MAX_SIZE {
        if n < |ops| { assert before[..n] == ops[..n]; }
      }
    }
  }

  /** The code as written reaches the end of a run of requests, deletions and clean-ups if and
      only if never more than five URLs are live, and then its list is what the operations on
      values give. */
  lemma {:induction false} AsWrittenIff(ops: seq<Op>)
    requires NoEvict(ops)
    ensures AsWritten(ops).Some? <==> NeverSix(ops)
    ensures AsWritten(ops).Some? ==> AsWritten(ops).value == After(ops) && ShowsLiving(After(ops), Live(ops))
  {
    if ops == [] {
      assert Urls([]) == {};
    } else {
      var n := |ops| - 1;
      AsWrittenIff(ops[..n]);
      NeverSixNext(ops);
      if AsWritten(ops[..n]).Some? {
        var v, l := After(ops[..n]), Live(ops[..n]);
        BlocksAtSixth(v, l, ops[n]);
        if Written(v, ops[n]).Some? { StepLives(v, l, ops[n]); }
      }
    }
  }

  /** Operation n is a request that misses while the list before it is full. */
  predicate BlocksAt(ops: seq<Op>, n: nat)
    requires n < |ops|
  {
    Written(After(ops[..n]), ops[n]).None?
  }

  predicate NeverBlocks(ops: seq<Op>) {
    forall n :: 0 <= n < |ops| ==> !BlocksAt(ops, n)
  }

  lemma BlocksSame(ops: seq<Op>, k: nat, n: nat)
    requires n < k <= |ops|
    ensures BlocksAt(ops[..k], n) <==> BlocksAt(ops, n)
  {
    assert ops[..k][..n] == ops[..n];
  }

  lemma NeverBlocksNext(ops: seq<Op>)
    requires ops != []
    ensures NeverBlocks(ops) <==> NeverBlocks(ops[..|ops| - 1]) && !BlocksAt(ops, |ops| - 1)
  {
    var last := |ops| - 1;
    if NeverBlocks(ops[..last]) && !BlocksAt(ops, last) {
      forall n | 0 <= n < |ops| ensures !BlocksAt(ops, n) {
        if n < last { BlocksSame(ops, last, n); }
      }
    }
    if NeverBlocks(ops) {
      forall n | 0 <= n < last ensures !BlocksAt(ops[..last], n) {
        BlocksSame(ops, last, n);
      }
    }
  }

  /** The same said of the list, for any operations. */
  lemma {:induction false} AsWrittenMisses(ops: seq<Op>)
    ensures AsWritten(ops).Some? <==> NeverBlocks(ops)
    ensures AsWritten(ops).Some? ==> AsWritten(ops).value == After(ops)
  {
    if ops != [] {
      AsWrittenMisses(ops[..|ops| - 1]);
      NeverBlocksNext(ops);
    }
  }

  // ----- histories of requests only -----

  function Calls(h: seq<Rec>): seq<Op> {
    seq(|h|, i requires 0 <= i < |h| => Request(h[i].url, h[i].time))
  }

  lemma UrlsGrow(h: seq<Rec>)
    requires h != []
    ensures |Urls(h[..|h| - 1])| <= |Urls(h)|
  {
    if h[|h| - 1].url in Urls(h[..|h| - 1]) {
      assert Urls(h) == Urls(h[..|h| - 1]);
    }
  }

  lemma {:induction false} MoreUrls(h: seq<Rec>, n: nat)
    requires n <= |h|
    ensures |Urls(h[..n])| <= |Urls(h)|
    decreases |h|
  {
    if n == |h| {
      assert h[..n] == h;
    } else {
      assert h[..|h| - 1][..n] == h[..n];
      MoreUrls(h[..|h| - 1], n);
      UrlsGrow(h);
    }
  }

  lemma CallsNext(h: seq<Rec>, n: nat)
    requires n <= |h|
    ensures Calls(h)[..n] == Calls(h[..n])
  {
  }

  lemma {:induction false} CallsLive(h: seq<Rec>)
    ensures Live(Calls(h)).urls.Keys == Urls(h)
  {
    if h != [] {
      CallsNext(h, |h| - 1);
      CallsLive(h[..|h| - 1]);
    }
  }

  lemma {:induction false} CallsAfter(h: seq<Rec>)
    ensures After(Calls(h)).recs == CacheAfter(h)
  {
    if h != [] {
      CallsNext(h, |h| - 1);
      CallsAfter(h[..|h| - 1]);
    }
  }

  lemma LiveAt(h: seq<Rec>, n: nat)
    requires n <= |h|
    ensures |Live(Calls(h)[..n]).urls| == |Urls(h[..n])| <= |Urls(h)|
  {
    CallsNext(h, n);
    CallsLive(h[..n]);
    MoreUrls(h, n);
    assert |Live(Calls(h[..n])).urls| == |Live(Calls(h[..n])).urls.Keys|;
  }

  lemma HistoryNeverSix(h: seq<Rec>)
    ensures NeverSix(Calls(h)) <==> |Urls(h)| <= 5
  {
    forall n | 0 <= n <= |h| ensures |Live(Calls(h)[..n]).urls| == |Urls(h[..n])| <= |Urls(h)| {
      LiveAt(h, n);
    }
    assert h[..|h|] == h;
  }

  /** Without deletions: the code as written serves a history to its end if and only if it
      asks for at most five different URLs, and then leaves the cache of the value functions. */
  lemma HistoryIff(h: seq<Rec>)
    ensures AsWritten(Calls(h)).Some? <==> |Urls(h)| <= 5
    ensures AsWritten(Calls(h)).Some? ==> AsWritten(Calls(h)).value.recs == CacheAfter(h)
  {
    AsWrittenIff(Calls(h));
    HistoryNeverSix(h);
    CallsAfter(h);
  }

  // ----- on the linked list -----

  /** A request as written: the pointer it is given joins those handed out so far. */
  method HandOut(c: Cache, handles: seq<CacheEntry>, url: string, now: int) returns (entry: CacheEntry?)
    requires c.Valid() && forall k :: 0 <= k < |c.spine| ==> c.spine[k] in handles
    modifies c, c.Entries()`next, c.Entries()`lastAccessTime
    ensures c.Valid()
    ensures entry == null <==> !Cached(old(c.recs), url) && |old(c.recs)| >= CACHE_MAX_SIZE
    ensures entry == null ==> c.recs == old(c.recs) && c.spine == old(c.spine) && c.Made() == old(c.Made())
    ensures entry != null ==> c.recs == Requested(old(c.recs), url, now) && c.Made() == old(c.Made()) + {entry}
    ensures Cached(old(c.recs), url) ==>
              c.spine == old(c.spine) && entry == c.spine[Index(old(c.recs), url)] && entry in handles
    ensures entry != null && !Cached(old(c.recs), url) ==> fresh(entry) && c.spine == [entry] + old(c.spine)
  {
    entry := c.LookupAsWritten(url, now);
  }

  method RequestAsWritten(c: Cache, handles: seq<CacheEntry>, ghost v: View, url: string, now: int)
    returns (more: seq<CacheEntry>, ok: bool)
    requires Ok(v) && Shows(c, handles, v)
    modifies c, c.Entries()`next, c.Entries()`lastAccessTime
    ensures ok <==> Written(v, Request(url, now)).Some?
    ensures ok ==> Shows(c, more, Requests(v, url, now))
    ensures !ok ==> Shows(c, more, v)
    ensures forall e :: e in more ==> e in handles || fresh(e)
  {
    SpineNamed(c, handles, v);
    ghost var spine := c.spine;
    var entry := HandOut(c, handles, url, now);
    more, ok := handles, false;
    if entry != null {
      more, ok := handles + [entry], true;
      ShowsServed(c, handles, spine, v, url, now, entry);
    }
  }

  /** What the list shows once a request has been served. */
  lemma ShowsServed(c: Cache, handles: seq<CacheEntry>, spine: seq<CacheEntry>, v: View, url: string, now: int,
                    entry: CacheEntry)
    requires Ok(v) && Named(handles, spine, v.ids, v.handles) && Written(v, Request(url, now)).Some?
    requires Cached(v.recs, url) ==> c.spine == spine && entry == spine[Index(v.recs, url)]
    requires !Cached(v.recs, url) ==> entry !in handles && c.spine == [entry] + spine
    requires c.Valid() && c.recs == Requested(v.recs, url, now)
    requires c.Made() == (set e | e in handles) + {entry}
    ensures Shows(c, handles + [entry], Requests(v, url, now))
  {
    NamedRequest(handles, spine, v, url, now, entry, c.spine);
    SetOfPush(handles, entry);
  }

  method StepAsWritten(c: Cache, handles: seq<CacheEntry>, ghost v: View, op: Op)
    returns (more: seq<CacheEntry>, ok: bool)
    requires Ok(v) && Shows(c, handles, v)
    modifies c, c.Entries()`next, c.Entries()`lastAccessTime
    ensures ok <==> Written(v, op).Some?
    ensures ok ==> Shows(c, more, Apply(v, op))
    ensures !ok ==> Shows(c, more, v)
    ensures forall e :: e in more ==> e in handles || fresh(e)
  {
    if op.Request? {
      more, ok := RequestAsWritten(c, handles, v, op.url, op.now);
    } else {
      more := ApplyStep(c, handles, v, op);
      ok := true;
    }
  }

  /** How far the code as written gets: every operation before `done` is carried out, and the
      next one blocks, if there is one. */
  predicate StopsAt(ops: seq<Op>, done: nat) {
    && done <= |ops| && AsWritten(ops[..done]).Some?
    && (done < |ops| ==> AsWritten(ops[..done + 1]).None?)
  }

  /** The next operation of a run that has not blocked. */
  lemma AsWrittenNext(ops: seq<Op>, n: nat)
    requires n < |ops| && AsWritten(ops[..n]) == Some(After(ops[..n]))
    ensures After(ops[..n + 1]) == Apply(After(ops[..n]), ops[n])
    ensures Written(After(ops[..n]), ops[n]).Some? ==>
              AsWritten(ops[..n + 1]) == Some(After(ops[..n + 1]))
    ensures Written(After(ops[..n]), ops[n]).None? ==> StopsAt(ops, n)
  {
    assert ops[..n + 1][..n] == ops[..n];
  }

  /** Operation n of a run that has not blocked, on the linked list. */
  method NextAsWritten(c: Cache, handles: seq<CacheEntry>, ops: seq<Op>, n: nat)
    returns (more: seq<CacheEntry>, next: nat)
    requires n < |ops| && AsWritten(ops[..n]) == Some(After(ops[..n])) && Shows(c, handles, After(ops[..n]))
    modifies c, c.Entries()`next, c.Entries()`lastAccessTime
    ensures n <= next <= n + 1 && AsWritten(ops[..next]) == Some(After(ops[..next]))
    ensures Shows(c, more, After(ops[..next])) && (next == n ==> StopsAt(ops, n))
    ensures forall e :: e in more ==> e in handles || fresh(e)
  {
    AsWrittenNext(ops, n);
    var ok;
    more, ok := StepAsWritten(c, handles, After(ops[..n]), ops[n]);
    next := if ok then n + 1 else n;
  }

  /** Any run on the linked list as written, up to the operation that blocks: the list is what
      the operations on values give, and without evictions it gets to the end if and only if
      never more than five URLs are live. */
  method PerformAsWritten(ops: seq<Op>) returns (c: Cache, handles: seq<CacheEntry>, done: nat)
    ensures StopsAt(ops, done) && Shows(c, handles, After(ops[..done]))
    ensures NoEvict(ops) ==> (done == |ops| <==> NeverSix(ops))
  {
    c := new Cache();
    handles, done := [], 0;
    var ok := true;
    assert ops[..0] == [];
    while ok && done < |ops|
      invariant done <= |ops| && fresh(c) && Shows(c, handles, After(ops[..done]))
      invariant forall e :: e in handles ==> fresh(e)
      invariant AsWritten(ops[..done]) == Some(After(ops[..done]))
      invariant !ok ==> StopsAt(ops, done)
      decreases |ops| - done, ok
    {
      SpineNamed(c, handles, After(ops[..done]));
      var next;
      handles, next := NextAsWritten(c, handles, ops, done);
      done, ok := next, next > done;
    }
    StopsIff(ops, done);
  }

  lemma StopsIff(ops: seq<Op>, done: nat)
    requires StopsAt(ops, done)
    ensures NoEvict(ops) ==> (done == |ops| <==> NeverSix(ops))
  {
    NeverResumes(ops, done);
    if NoEvict(ops) { AsWrittenIff(ops); }
  }

  /** What has blocked stays blocked. */
  lemma {:induction false} NeverResumes(ops: seq<Op>, done: nat)
    requires StopsAt(ops, done)
    ensures AsWritten(ops).Some? <==> done == |ops|
  {
    if done == |ops| {
      assert ops[..done] == ops;
    } else {
      BlockedForGood(ops, done + 1);
    }
  }

  lemma {:induction false} BlockedForGood(ops: seq<Op>, n: nat)
    requires n <= |ops| && AsWritten(ops[..n]).None?
    ensures AsWritten(ops).None?
  {
    if n == |ops| {
      assert ops[..n] == ops;
    } else {
      assert ops[..|ops| - 1][..n] == ops[..n];
      BlockedForGood(ops[..|ops| - 1], n);
    }
  }
}
