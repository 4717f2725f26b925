/** When the cache is a least-recently-used cache: for histories with any access times, equal
    ones and decreasing ones included. */
module CacheAgreement {
  import opened CacheValues
  import opened CacheLru

  /** After n requests the cache is, up to order, the first five of the distinct URLs in order
      of recency, each once, with the time of its last request. */
  ghost predicate AgreesAt(h: seq<Rec>, n: nat)
    requires n <= |h|
  {
    Agree(CacheAfter(h[..n]), Top(Recent(h[..n])))
  }

  /** If request n misses while the cache is full, the record evicted is the least recent. */
  predicate EvictsLast(h: seq<Rec>, n: nat)
    requires n < |h|
  {
    var recs := CacheAfter(h[..n]);
    !Cached(recs, h[n].url) && |recs| >= CACHE_MAX_SIZE ==> VictimIsLast(recs, Top(Recent(h[..n])))
  }

  predicate AlwaysEvictsLast(h: seq<Rec>) {
    forall n :: 0 <= n < |h| ==> EvictsLast(h, n)
  }

  lemma RecentNext(h: seq<Rec>, n: nat)
    requires n < |h|
    ensures Recent(h[..n + 1]) == [h[n]] + Rest(Recent(h[..n]), h[n].url)
  {
    assert h[..n + 1][..n] == h[..n];
  }

  /** One request keeps the agreement if and only if it evicts the least recent record, or
      nothing. */
  lemma NextAgrees(h: seq<Rec>, n: nat)
    requires n < |h| && AgreesAt(h, n)
    ensures AgreesAt(h, n + 1) <==> EvictsLast(h, n)
  {
    var recs, r, x := CacheAfter(h[..n]), Recent(h[..n]), h[n];
    CacheAfterNext(h, n);
    RecentNext(h, n);
    RecentDistinct(h[..n]);
    assert Rec(x.url, x.time) == x;
    if Cached(recs, x.url) {
      HitAgrees(recs, r, x);
    } else if |recs| < CACHE_MAX_SIZE {
      MissWithRoom(recs, r, x);
    } else {
      if EvictsLast(h, n) { MissWhenFull(recs, r, x); }
      if AgreesAt(h, n + 1) { MissShowsVictim(recs, r, x); }
    }
  }

  lemma {:induction false} AgreesUpTo(h: seq<Rec>, n: nat)
    requires n <= |h| && AlwaysEvictsLast(h)
    ensures AgreesAt(h, n)
  {
    if n > 0 {
      AgreesUpTo(h, n - 1);
      NextAgrees(h, n - 1);
    }
  }

  /** Cache and recency order agree throughout a history, at any times, if and only if every
      miss on a full cache evicts the least recent record. */
  lemma LruAgreementIff(h: seq<Rec>)
    ensures (forall n :: 0 <= n <= |h| ==> AgreesAt(h, n)) <==> AlwaysEvictsLast(h)
  {
    if AlwaysEvictsLast(h) {
      forall n | 0 <= n <= |h| ensures AgreesAt(h, n) { AgreesUpTo(h, n); }
    }
    if forall n :: 0 <= n <= |h| ==> AgreesAt(h, n) {
      forall n | 0 <= n < |h| ensures EvictsLast(h, n) {
        assert AgreesAt(h, n + 1);
        NextAgrees(h, n);
      }
    }
  }

  // ----- the same said of URLs -----

  /** Whatever was evicted, a record in the cache is the last request for its URL. */
  lemma {:induction false} CacheInRecent(h: seq<Rec>)
    ensures Distinct(CacheAfter(h)) && |CacheAfter(h)| <= 5
    ensures forall y :: y in CacheAfter(h) ==> y in Recent(h)
  {
    if h != [] {
      var n := |h| - 1;
      CacheInRecent(h[..n]);
      RecentDistinct(h[..n]);
      RequestInRecent(CacheAfter(h[..n]), Recent(h[..n]), h[n]);
    }
  }

  lemma RequestInRecent(recs: seq<Rec>, r: seq<Rec>, x: Rec)
    requires Distinct(recs) && |recs| <= CACHE_MAX_SIZE && Distinct(r) && forall y :: y in recs ==> y in r
    ensures var after := Requested(recs, x.url, x.time);
            && Distinct(after) && |after| <= CACHE_MAX_SIZE
            && forall y :: y in after ==> y in [x] + Rest(r, x.url)
  {
    RestMembers(r, x.url);
    assert Rec(x.url, x.time) == x;
    if Cached(recs, x.url) {
      ReplaceMembers(recs, Index(recs, x.url), x);
    } else {
      MissInRecent(recs, r, x);
    }
  }

  lemma RoomMembers(recs: seq<Rec>)
    requires Distinct(recs)
    ensures Distinct(Room(recs, recs)) && forall y :: y in Room(recs, recs) ==> y in recs
  {
    if |recs| >= CACHE_MAX_SIZE { WithoutMembers(recs, Oldest(recs)); }
  }

  lemma MissInRecent(recs: seq<Rec>, r: seq<Rec>, x: Rec)
    requires Distinct(recs) && Distinct(r) && !Cached(recs, x.url) && forall y :: y in recs ==> y in r
    ensures Distinct([x] + Room(recs, recs))
    ensures forall y :: y in [x] + Room(recs, recs) ==> y in [x] + Rest(r, x.url)
  {
    RestMembers(r, x.url);
    RoomMembers(recs);
    var room := Room(recs, recs);
    forall i | 0 <= i < |room| ensures room[i].url != x.url && room[i] in Rest(r, x.url) {
      assert room[i] in recs;
    }
  }

  /** The cache holds the URLs that were requested and followed by fewer than five others. */
  ghost predicate CachesRecent(h: seq<Rec>, n: nat)
    requires n <= |h|
  {
    forall url :: Cached(CacheAfter(h[..n]), url) <==> Cached(h[..n], url) && |Since(h[..n], url)| < 5
  }

  lemma TopIsRecent(h: seq<Rec>, url: string)
    ensures Cached(Top(Recent(h)), url) <==> Cached(h, url) && |Since(h, url)| < 5
  {
    RecentUrls(h);
    UrlsCached(h, url);
    UrlsCached(Recent(h), url);
    if Cached(Recent(h), url) { TopRank(h, url); }
    if Cached(Top(Recent(h)), url) { IndexInTop(Recent(h), url); }
  }

  /** Records with the same URLs out of one order are the same records. */
  lemma SameUrlsAgree(recs: seq<Rec>, r: seq<Rec>)
    requires Distinct(recs) && Distinct(r) && forall y :: y in recs ==> y in r
    requires forall url :: Cached(recs, url) <==> Cached(Top(r), url)
    ensures Agree(recs, Top(r))
  {
    var t := Top(r);
    TopOf(r);
    SameMembers(recs, r);
    forall u ensures u in Urls(recs) <==> u in Urls(t) {
      UrlsCached(recs, u);
      UrlsCached(t, u);
    }
    assert Urls(recs) == Urls(t);
    UrlsSize(recs);
    UrlsSize(t);
  }

  lemma SameMembers(recs: seq<Rec>, r: seq<Rec>)
    requires Distinct(recs) && Distinct(r) && forall y :: y in recs ==> y in r
    requires forall url :: Cached(recs, url) <==> Cached(Top(r), url)
    ensures forall y :: y in recs <==> y in Top(r)
  {
    var t := Top(r);
    forall y | y in recs ensures y in t {
      var k :| 0 <= k < |recs| && recs[k] == y;
      assert Cached(recs, y.url);
      var p :| 0 <= p < |t| && t[p].url == y.url;
      assert r[p] == t[p] && y in r;
    }
    forall y | y in t ensures y in recs {
      var p :| 0 <= p < |t| && t[p] == y;
      assert Cached(t, y.url);
      var k :| 0 <= k < |recs| && recs[k].url == y.url;
      assert recs[k] in r && r[p] == y;
    }
  }

  lemma CachesRecentIff(h: seq<Rec>, n: nat)
    requires n <= |h|
    ensures CachesRecent(h, n) <==> AgreesAt(h, n)
  {
    var recs, r := CacheAfter(h[..n]), Recent(h[..n]);
    CacheInRecent(h[..n]);
    RecentDistinct(h[..n]);
    forall url ensures Cached(Top(r), url) <==> Cached(h[..n], url) && |Since(h[..n], url)| < 5 {
      TopIsRecent(h[..n], url);
    }
    if CachesRecent(h, n) { SameUrlsAgree(recs, r); }
    if AgreesAt(h, n) {
      forall url ensures Cached(recs, url) <==> Cached(Top(r), url) { AgreeCached(recs, Top(r), url); }
    }
  }

  /** Throughout a history, at any times: a URL is cached exactly when it was requested and fewer
      than five other URLs have been requested since, if and only if every miss on a full cache
      evicts the least recent record. No URL is ever cached twice, nor more than five. */
  lemma CachedIff(h: seq<Rec>)
    ensures (forall n :: 0 <= n <= |h| ==> CachesRecent(h, n)) <==> AlwaysEvictsLast(h)
    ensures Distinct(CacheAfter(h)) && |CacheAfter(h)| <= 5
  {
    CacheInRecent(h);
    LruAgreementIff(h);
    forall n | 0 <= n <= |h| ensures CachesRecent(h, n) <==> AgreesAt(h, n) {
      CachesRecentIff(h, n);
    }
  }

  // ----- times -----

  /** The clock never goes back. */
  predicate NonDecreasing(h: seq<Rec>) {
    forall i, j :: 0 <= i < j < |h| ==> h[i].time <= h[j].time
  }

  predicate Increasing(h: seq<Rec>) {
    forall i, j :: 0 <= i < j < |h| ==> h[i].time < h[j].time
  }

  lemma {:induction false} RecentDescends(h: seq<Rec>)
    requires NonDecreasing(h)
    ensures Descending(Recent(h))
  {
    if h != [] {
      var n := |h| - 1;
      RecentDescends(h[..n]);
      RecentDistinct(h[..n]);
      RestMembers(Recent(h[..n]), h[n].url);
      var rest := Rest(Recent(h[..n]), h[n].url);
      forall i | 0 <= i < |rest| ensures rest[i].time <= h[n].time {
        assert rest[i] in rest && rest[i] in h[..n];
      }
    }
  }

  /** Where the least recent record stands in the list of a full cache. */
  lemma LastStands(h: seq<Rec>, n: nat) returns (k: nat)
    requires n < |h| && AgreesAt(h, n) && |CacheAfter(h[..n])| >= CACHE_MAX_SIZE
    ensures var recs, t := CacheAfter(h[..n]), Top(Recent(h[..n]));
            k < |recs| && t != [] && recs[k] == t[|t| - 1]
  {
    var recs, t := CacheAfter(h[..n]), Top(Recent(h[..n]));
    assert t[|t| - 1] in recs;
    k :| 0 <= k < |recs| && recs[k] == t[|t| - 1];
  }

  /** With a clock that never goes back, a miss on a full cache that agrees so far goes wrong
      exactly when a record nearer the head than the least recent one is as old. */
  lemma TieIff(h: seq<Rec>, n: nat, k: nat)
    requires NonDecreasing(h) && n < |h| && AgreesAt(h, n)
    requires !Cached(CacheAfter(h[..n]), h[n].url) && |CacheAfter(h[..n])| >= CACHE_MAX_SIZE
    requires var recs, t := CacheAfter(h[..n]), Top(Recent(h[..n]));
             k < |recs| && t != [] && recs[k] == t[|t| - 1]
    ensures AgreesAt(h, n + 1) <==> NoTieAt(CacheAfter(h[..n]), k)
  {
    NextAgrees(h, n);
    RecentDescends(h[..n]);
    TopOf(Recent(h[..n]));
    VictimIff(CacheAfter(h[..n]), Top(Recent(h[..n])), k);
  }

  lemma InHistory(h: seq<Rec>, y: Rec) returns (a: nat)
    requires y in Recent(h)
    ensures a < |h| && h[a] == y
  {
    RecentDistinct(h);
    a :| 0 <= a < |h| && h[a] == y;
  }

  /** No record in front of the least recent one is as old. */
  predicate NoTieAt(recs: seq<Rec>, k: nat)
    requires k < |recs|
  {
    forall i :: 0 <= i < k ==> recs[i].time > recs[k].time
  }

  lemma OldestTime(recs: seq<Rec>, t: seq<Rec>, k: nat, i: nat)
    requires Agree(recs, t) && Descending(t) && t != []
    requires k < |recs| && recs[k] == t[|t| - 1] && i < |recs|
    ensures recs[i].time >= recs[k].time
  {
    assert recs[i] in t;
    var p :| 0 <= p < |t| && t[p] == recs[i];
  }

  lemma NoTies(h: seq<Rec>, k: nat)
    requires Increasing(h) && Agree(CacheAfter(h), Top(Recent(h))) && Top(Recent(h)) != []
    requires k < |CacheAfter(h)| && CacheAfter(h)[k] == Top(Recent(h))[|Top(Recent(h))| - 1]
    ensures NoTieAt(CacheAfter(h), k)
  {
    var recs := CacheAfter(h);
    RecentDescends(h);
    forall i | 0 <= i < k ensures recs[i].time > recs[k].time {
      OldestTime(recs, Top(Recent(h)), k, i);
      TwoCached(h, i, k);
      TimesDiffer(h, recs[i], recs[k]);
    }
  }

  lemma TwoCached(h: seq<Rec>, i: nat, k: nat)
    requires i < k < |CacheAfter(h)|
    ensures var recs := CacheAfter(h); recs[i] != recs[k] && recs[i] in Recent(h) && recs[k] in Recent(h)
  {
    CacheInRecent(h);
    assert CacheAfter(h)[i] in CacheAfter(h) && CacheAfter(h)[k] in CacheAfter(h);
  }

  lemma TimesDiffer(h: seq<Rec>, y: Rec, z: Rec)
    requires Increasing(h) && y != z && y in Recent(h) && z in Recent(h)
    ensures y.time != z.time
  {
    var a := InHistory(h, y);
    var b := InHistory(h, z);
    assert if a < b then h[a].time < h[b].time else h[b].time < h[a].time;
  }

  /** With strictly increasing times there are no ties. */
  lemma IncreasingNext(h: seq<Rec>, m: nat)
    requires Increasing(h) && m < |h| && AgreesAt(h, m)
    ensures AgreesAt(h, m + 1)
  {
    NextAgrees(h, m);
    if !EvictsLast(h, m) { NoTieNext(h, m); }
  }

  lemma NoTieNext(h: seq<Rec>, m: nat)
    requires Increasing(h) && m < |h| && AgreesAt(h, m)
    requires !Cached(CacheAfter(h[..m]), h[m].url) && |CacheAfter(h[..m])| >= CACHE_MAX_SIZE
    ensures AgreesAt(h, m + 1)
  {
    var k := LastStands(h, m);
    NoTies(h[..m], k);
    TieIff(h, m, k);
  }

  lemma {:induction false} IncreasingAgrees(h: seq<Rec>, n: nat)
    requires Increasing(h) && n <= |h|
    ensures AgreesAt(h, n)
  {
    if n > 0 {
      IncreasingAgrees(h, n - 1);
      IncreasingNext(h, n - 1);
    }
  }

  /** So then cache and recency order always agree. */
  lemma LruAgreement(h: seq<Rec>)
    requires Increasing(h)
    ensures AlwaysEvictsLast(h) && Agree(CacheAfter(h), Top(Recent(h)))
  {
    forall n | 0 <= n <= |h| ensures AgreesAt(h, n) { IncreasingAgrees(h, n); }
    LruAgreementIff(h);
    assert h[..|h|] == h;
    assert AgreesAt(h, |h|);
  }

  /** Requests for five URLs at most fill the cache without evicting anything. */
  lemma {:induction false} Filling(h: seq<Rec>, n: nat)
    requires Distinct(h) && n <= |h| && n <= CACHE_MAX_SIZE
    ensures AgreesAt(h, n) && |CacheAfter(h[..n])| == n
    ensures n > 0 ==> CacheAfter(h[..n])[0] == h[n - 1]
    ensures n < |h| ==> !Cached(CacheAfter(h[..n]), h[n].url)
  {
    if n > 0 {
      Filling(h, n - 1);
      CacheAfterNext(h, n - 1);
      NextAgrees(h, n - 1);
    }
    if n < |h| { NotCachedYet(h, n); }
  }

  lemma NotCachedYet(h: seq<Rec>, n: nat)
    requires Distinct(h) && n < |h|
    ensures !Cached(CacheAfter(h[..n]), h[n].url)
  {
    var recs := CacheAfter(h[..n]);
    CacheInRecent(h[..n]);
    forall k | 0 <= k < |recs| ensures recs[k].url != h[n].url {
      assert recs[k] in recs;
      var a := InHistory(h[..n], recs[k]);
    }
  }

  /** Six URLs requested within one second break the agreement: the fifth is evicted, not the
      first. */
  lemma SixAtOnce(h: seq<Rec>)
    requires |h| == CACHE_MAX_SIZE + 1 && Distinct(h)
    requires forall i, j :: 0 <= i < j < |h| ==> h[i].time == h[j].time
    ensures !AgreesAt(h, |h|)
  {
    var n := CACHE_MAX_SIZE;
    Filling(h, n);
    var k := LastStands(h, n);
    FirstIsLast(h, n);
    var recs := CacheAfter(h[..n]);
    CacheInRecent(h[..n]);
    assert recs[0] in recs && recs[k] in recs;
    var a := InHistory(h[..n], recs[0]);
    var b := InHistory(h[..n], recs[k]);
    TieIff(h, n, k);
  }

  /** The least recent of distinct URLs is the first one requested. */
  lemma {:induction false} FirstIsLast(h: seq<Rec>, n: nat)
    requires Distinct(h) && 0 < n <= |h|
    ensures |Recent(h[..n])| == n && Recent(h[..n])[n - 1] == h[0]
  {
    RecentNext(h, n - 1);
    if n > 1 {
      FirstIsLast(h, n - 1);
      RecentDistinct(h[..n - 1]);
    }
    var r, url := Recent(h[..n - 1]), h[n - 1].url;
    forall i | 0 <= i < |r| ensures r[i].url != url {
      assert r[i] in r;
      var a := InHistory(h[..n - 1], r[i]);
    }
  }
}
