/** Recency: the distinct URLs of a history in the order of their last requests, what one
    request does to that order and to the cache, and how many URLs were requested since. */
module CacheLru {
  import opened CacheValues

  function Rest(recs: seq<Rec>, url: string): seq<Rec> {
    if Cached(recs, url) then Without(recs, Index(recs, url)) else recs
  }

  /** The distinct URLs of the history with their last request, most recent first. */
  function Recent(h: seq<Rec>): seq<Rec> {
    if h == [] then [] else
    [h[|h| - 1]] + Rest(Recent(h[..|h| - 1]), h[|h| - 1].url)
  }

  predicate Distinct(recs: seq<Rec>) {
    forall i, j :: 0 <= i < j < |recs| ==> recs[i].url != recs[j].url
  }

  /** Never a newer record behind an older one. */
  predicate Descending(recs: seq<Rec>) {
    forall i, j :: 0 <= i < j < |recs| ==> recs[i].time >= recs[j].time
  }

  function Top(recs: seq<Rec>): seq<Rec> {
    if |recs| <= CACHE_MAX_SIZE then recs else recs[..CACHE_MAX_SIZE]
  }

  // ----- removing one record -----

  lemma WithoutParts<T>(s: seq<T>, k: nat)
    requires k < |s|
    ensures |Without(s, k)| == |s| - 1
    ensures forall i :: 0 <= i < k ==> Without(s, k)[i] == s[i]
    ensures forall i :: k <= i < |s| - 1 ==> Without(s, k)[i] == s[i + 1]
  {
  }

  /** Without one record, distinct records stay so, and exactly its URL is gone. */
  lemma WithoutMembers(recs: seq<Rec>, k: nat)
    requires k < |recs| && Distinct(recs)
    ensures Distinct(Without(recs, k))
    ensures Descending(recs) ==> Descending(Without(recs, k))
    ensures forall y :: y in Without(recs, k) <==> y in recs && y.url != recs[k].url
  {
    WithoutParts(recs, k);
    var w := Without(recs, k);
    forall y | y in recs && y.url != recs[k].url ensures y in w {
      var i :| 0 <= i < |recs| && recs[i] == y;
      assert if i < k then w[i] == y else w[i - 1] == y;
    }
    forall y | y in w ensures y in recs && y.url != recs[k].url {
      var i :| 0 <= i < |w| && w[i] == y;
      assert if i < k then recs[i] == y else recs[i + 1] == y;
    }
  }

  lemma RestMembers(recs: seq<Rec>, url: string)
    requires Distinct(recs)
    ensures Distinct(Rest(recs, url))
    ensures Descending(recs) ==> Descending(Rest(recs, url))
    ensures forall y :: y in Rest(recs, url) <==> y in recs && y.url != url
  {
    if Cached(recs, url) { WithoutMembers(recs, Index(recs, url)); }
  }

  lemma {:induction false} RecentDistinct(h: seq<Rec>)
    ensures Distinct(Recent(h))
    ensures forall y :: y in Recent(h) ==> y in h
  {
    if h != [] {
      var n := |h| - 1;
      RecentDistinct(h[..n]);
      RestMembers(Recent(h[..n]), h[n].url);
      forall y | y in Recent(h[..n]) ensures y in h {
        assert y in h[..n];
      }
    }
  }

  // ----- the cache is the top of the recency order -----

  /** The same records, each once, in any order. */
  ghost predicate Agree(recs: seq<Rec>, t: seq<Rec>) {
    Distinct(recs) && |recs| == |t| && forall y :: y in recs <==> y in t
  }

  lemma TopOf(r: seq<Rec>)
    ensures Distinct(r) ==> Distinct(Top(r))
    ensures Descending(r) ==> Descending(Top(r))
  {
  }

  lemma AgreeCached(recs: seq<Rec>, t: seq<Rec>, url: string)
    requires Agree(recs, t)
    ensures Cached(recs, url) <==> Cached(t, url)
  {
    if Cached(recs, url) {
      var k :| 0 <= k < |recs| && recs[k].url == url;
      assert recs[k] in t;
    }
    if Cached(t, url) {
      var k :| 0 <= k < |t| && t[k].url == url;
      assert t[k] in recs;
    }
  }

  /** Overwriting a record with a newer one of the same URL. */
  lemma ReplaceMembers(recs: seq<Rec>, k: nat, x: Rec)
    requires k < |recs| && Distinct(recs) && recs[k].url == x.url
    ensures Distinct(recs[k := x])
    ensures forall y :: y in recs[k := x] <==> y == x || (y in recs && y.url != x.url)
  {
    var w := recs[k := x];
    forall y | y == x || (y in recs && y.url != x.url) ensures y in w {
      if y == x {
        assert w[k] == x;
      } else {
        var i :| 0 <= i < |recs| && recs[i] == y;
        assert w[i] == y;
      }
    }
  }

  /** The place of a cached URL is the same in the whole order and in its top. */
  lemma IndexInTop(r: seq<Rec>, url: string)
    requires Cached(Top(r), url)
    ensures Cached(r, url) && Index(r, url) == Index(Top(r), url)
  {
    var p := Index(Top(r), url);
    assert r[p] == Top(r)[p];
  }

  lemma TopOfMoved(r: seq<Rec>, x: Rec, p: nat)
    requires p < |Top(r)|
    ensures Top([x] + Without(r, p)) == [x] + Without(Top(r), p)
  {
  }

  lemma FrontMembers(x: Rec, a: seq<Rec>, b: seq<Rec>)
    requires forall y :: y in a <==> y == x || y in b
    ensures forall y :: y in a <==> y in [x] + b
  {
  }

  /** A hit moves the record to the front of the recency order. */
  lemma HitAgrees(recs: seq<Rec>, r: seq<Rec>, x: Rec)
    requires Agree(recs, Top(r)) && Distinct(r) && Cached(recs, x.url)
    ensures Agree(recs[Index(recs, x.url) := x], Top([x] + Rest(r, x.url)))
  {
    TopOf(r);
    var t := Top(r);
    AgreeCached(recs, t, x.url);
    IndexInTop(r, x.url);
    HitMembers(recs, t, Index(recs, x.url), Index(r, x.url), x);
    TopOfMoved(r, x, Index(r, x.url));
  }

  lemma HitMembers(recs: seq<Rec>, t: seq<Rec>, k: nat, p: nat, x: Rec)
    requires Agree(recs, t) && Distinct(t) && k < |recs| && p < |t|
    requires recs[k].url == t[p].url == x.url
    ensures Agree(recs[k := x], [x] + Without(t, p))
  {
    WithoutMembers(t, p);
    ReplaceMembers(recs, k, x);
    FrontMembers(x, recs[k := x], Without(t, p));
  }

  /** The record evicted next is the least recent of those cached. */
  predicate VictimIsLast(recs: seq<Rec>, t: seq<Rec>) {
    recs != [] && t != [] && recs[Oldest(recs)] == t[|t| - 1]
  }

  /** With times that never go back, the victim is the least recent record exactly when no
      record nearer the head of the list is as old: the strict comparison in the search for the
      oldest keeps the first of several. */
  lemma VictimIff(recs: seq<Rec>, t: seq<Rec>, k: nat)
    requires Agree(recs, t) && Descending(t) && t != [] && k < |recs| && recs[k] == t[|t| - 1]
    ensures VictimIsLast(recs, t) <==> forall i :: 0 <= i < k ==> recs[i].time > recs[k].time
  {
    forall i | 0 <= i < |recs| ensures recs[k].time <= recs[i].time {
      assert recs[i] in t;
      var p :| 0 <= p < |t| && t[p] == recs[i];
    }
    if forall i :: 0 <= i < k ==> recs[i].time > recs[k].time {
      OldestIsUnique(recs, k, Oldest(recs));
    }
    if VictimIsLast(recs, t) {
      assert recs[Oldest(recs)].url == recs[k].url;
    }
  }

  lemma MissWithRoom(recs: seq<Rec>, r: seq<Rec>, x: Rec)
    requires Agree(recs, Top(r)) && !Cached(recs, x.url) && |recs| < CACHE_MAX_SIZE
    ensures Agree(Added(recs, x.url, x.time), Top([x] + Rest(r, x.url)))
  {
    AgreeCached(recs, Top(r), x.url);
    assert Top(r) == r;
    assert Top([x] + r) == [x] + r;
  }

  lemma VictimMembers(recs: seq<Rec>, t: seq<Rec>, k: nat, x: Rec)
    requires Agree(recs, t) && Distinct(t) && k < |recs| && t != [] && recs[k] == t[|t| - 1]
    requires forall y :: y in recs ==> y.url != x.url
    ensures Agree([x] + Without(recs, k), [x] + t[..|t| - 1])
  {
    WithoutMembers(recs, k);
    WithoutMembers(t, |t| - 1);
    assert Without(t, |t| - 1) == t[..|t| - 1];
    AgreeFront(Without(recs, k), t[..|t| - 1], x);
  }

  lemma AgreeFront(a: seq<Rec>, b: seq<Rec>, x: Rec)
    requires Agree(a, b) && forall y :: y in a ==> y.url != x.url
    ensures Agree([x] + a, [x] + b)
  {
    FrontMembers(x, [x] + a, a);
    FrontMembers(x, [x] + b, b);
  }

  lemma TopOfPushed(r: seq<Rec>, x: Rec, p: nat)
    requires CACHE_MAX_SIZE - 1 <= p <= |r|
    ensures |r| >= CACHE_MAX_SIZE ==> Top([x] + r) == [x] + r[..CACHE_MAX_SIZE - 1]
    ensures CACHE_MAX_SIZE <= p < |r| ==> Top([x] + Without(r, p)) == [x] + r[..CACHE_MAX_SIZE - 1]
  {
  }

  /** A miss on a full cache takes the last record from the top of the recency order. */
  lemma TopAfterMiss(r: seq<Rec>, x: Rec)
    requires |r| >= CACHE_MAX_SIZE && !Cached(Top(r), x.url)
    ensures Top([x] + Rest(r, x.url)) == [x] + Top(r)[..CACHE_MAX_SIZE - 1]
  {
    var p := if Cached(r, x.url) then Index(r, x.url) else CACHE_MAX_SIZE;
    assert forall i :: 0 <= i < |Top(r)| ==> r[i] == Top(r)[i] && Top(r)[i].url != x.url;
    TopOfPushed(r, x, p);
    assert Top(r)[..CACHE_MAX_SIZE - 1] == r[..CACHE_MAX_SIZE - 1];
  }

  lemma MissWhenFull(recs: seq<Rec>, r: seq<Rec>, x: Rec)
    requires Agree(recs, Top(r)) && Distinct(r) && VictimIsLast(recs, Top(r))
    requires !Cached(recs, x.url) && |recs| >= CACHE_MAX_SIZE
    ensures Agree(Added(recs, x.url, x.time), Top([x] + Rest(r, x.url)))
  {
    TopOf(r);
    AgreeCached(recs, Top(r), x.url);
    VictimMembers(recs, Top(r), Oldest(recs), x);
    TopAfterMiss(r, x);
  }

  /** Conversely, if cache and recency order still agree after it, that was the one evicted. */
  lemma MissShowsVictim(recs: seq<Rec>, r: seq<Rec>, x: Rec)
    requires Agree(recs, Top(r)) && Distinct(r)
    requires !Cached(recs, x.url) && |recs| >= CACHE_MAX_SIZE
    requires Agree(Added(recs, x.url, x.time), Top([x] + Rest(r, x.url)))
    ensures VictimIsLast(recs, Top(r))
  {
    TopOf(r);
    AgreeCached(recs, Top(r), x.url);
    TopAfterMiss(r, x);
    LastIsGone(recs, Top(r), Oldest(recs), x);
  }

  lemma LastIsGone(recs: seq<Rec>, t: seq<Rec>, k: nat, x: Rec)
    requires Agree(recs, t) && Distinct(t) && k < |recs| && t != [] && !Cached(recs, x.url)
    requires Agree([x] + Without(recs, k), [x] + t[..|t| - 1])
    ensures recs[k] == t[|t| - 1]
  {
    var last := t[|t| - 1];
    WithoutMembers(recs, k);
    assert last in recs;
    assert last !in t[..|t| - 1] && last != x;
    assert last !in [x] + t[..|t| - 1];
    assert forall y :: y in Without(recs, k) ==> y in [x] + Without(recs, k);
  }

  // ----- the same, without an order: how many other URLs since the last request -----

  /** The URLs requested after the last request for this one. */
  function Since(h: seq<Rec>, url: string): set<string> {
    if h == [] || h[|h| - 1].url == url then {} else
    Since(h[..|h| - 1], url) + {h[|h| - 1].url}
  }

  function Urls(recs: seq<Rec>): set<string> {
    if recs == [] then {} else Urls(recs[..|recs| - 1]) + {recs[|recs| - 1].url}
  }

  lemma {:induction false} UrlsConcat(a: seq<Rec>, b: seq<Rec>)
    ensures Urls(a + b) == Urls(a) + Urls(b)
  {
    if b == [] {
      assert a + b == a;
    } else {
      var n := |b| - 1;
      assert (a + b)[..|a + b| - 1] == a + b[..n];
      UrlsConcat(a, b[..n]);
    }
  }

  lemma {:induction false} UrlsCached(recs: seq<Rec>, url: string)
    ensures url in Urls(recs) <==> Cached(recs, url)
  {
    if recs != [] {
      var n := |recs| - 1;
      UrlsCached(recs[..n], url);
      if Cached(recs[..n], url) {
        var k :| 0 <= k < n && recs[..n][k].url == url;
        assert recs[k].url == url;
      }
      if Cached(recs, url) && recs[n].url != url {
        var k :| 0 <= k < |recs| && recs[k].url == url;
        assert recs[..n][k].url == url;
      }
    }
  }

  lemma {:induction false} UrlsSize(recs: seq<Rec>)
    requires Distinct(recs)
    ensures |Urls(recs)| == |recs|
  {
    if recs != [] {
      var n := |recs| - 1;
      UrlsSize(recs[..n]);
      UrlsCached(recs[..n], recs[n].url);
    }
  }

  lemma WithoutUrls(recs: seq<Rec>, k: nat)
    requires k < |recs|
    ensures Urls(Without(recs, k)) + {recs[k].url} == Urls(recs)
  {
    UrlsOfThree(recs[..k], recs[k], recs[k + 1..]);
    SplitAt(recs, k);
  }

  lemma SplitAt<T>(s: seq<T>, k: nat)
    requires k < |s|
    ensures (s[..k] + [s[k]]) + s[k + 1..] == s
    ensures s[..k] + s[k + 1..] == Without(s, k)
  {
  }

  lemma UrlsOfThree(low: seq<Rec>, x: Rec, high: seq<Rec>)
    ensures Urls((low + [x]) + high) == Urls(low + high) + {x.url}
  {
    UrlsConcat(low + [x], high);
    UrlsConcat(low, [x]);
    UrlsConcat(low, high);
    assert Urls([x]) == {x.url};
  }

  lemma {:induction false} RecentUrls(h: seq<Rec>)
    ensures Urls(Recent(h)) == Urls(h)
  {
    if h != [] {
      var n := |h| - 1;
      RecentUrls(h[..n]);
      var before, u := Recent(h[..n]), h[n].url;
      UrlsConcat([h[n]], Rest(before, u));
      assert Urls([h[n]]) == {u};
      if Cached(before, u) { WithoutUrls(before, Index(before, u)); }
    }
  }

  lemma ShiftedByOne(before: seq<Rec>, x: Rec, p: nat)
    requires 0 < p <= |before|
    ensures Urls(([x] + before)[..p]) == Urls(before[..p - 1]) + {x.url}
  {
    assert ([x] + before)[..p] == [x] + before[..p - 1];
    UrlsConcat([x], before[..p - 1]);
    assert Urls([x]) == {x.url};
  }

  /** Above the place x was taken from. */
  lemma MovedFromBelow(before: seq<Rec>, x: Rec, k: nat, p: nat)
    requires k < p < |before| && before[k].url == x.url
    ensures Urls(([x] + Without(before, k))[..p]) == Urls(before[..p]) + {x.url}
  {
    WithoutUrls(before[..p], k);
    assert ([x] + Without(before, k))[..p] == [x] + Without(before[..p], k);
    UrlsConcat([x], Without(before[..p], k));
    assert Urls([x]) == {x.url};
  }

  lemma MovedToFront(before: seq<Rec>, x: Rec, k: nat, p: nat)
    requires k < |before| && before[k].url == x.url && 0 < p < |before|
    ensures var r, q := [x] + Without(before, k), if k < p then p else p - 1;
            && |r| == |before| && r[p] == before[q] && Urls(r[..p]) == Urls(before[..q]) + {x.url}
  {
    WithoutParts(before, k);
    if k < p {
      MovedFromBelow(before, x, k, p);
    } else {
      assert ([x] + Without(before, k))[..p] == ([x] + before)[..p];
      ShiftedByOne(before, x, p);
    }
  }

  /** Below the place a URL is taken from, the order shifts by one; above it, not. */
  lemma ShiftedUrls(before: seq<Rec>, x: Rec, p: nat)
    requires 0 < p < |[x] + Rest(before, x.url)|
    ensures var r := [x] + Rest(before, x.url);
            var q := if Cached(before, x.url) && Index(before, x.url) < p then p else p - 1;
            && q < |before| && r[p] == before[q] && Urls(r[..p]) == Urls(before[..q]) + {x.url}
  {
    if Cached(before, x.url) {
      WithoutParts(before, Index(before, x.url));
      MovedToFront(before, x, Index(before, x.url), p);
    } else {
      ShiftedByOne(before, x, p);
    }
  }

  /** A URL's place in the recency order is made of the URLs requested since. */
  lemma {:induction false} RankIsSince(h: seq<Rec>, p: nat)
    requires p < |Recent(h)|
    ensures Since(h, Recent(h)[p].url) == Urls(Recent(h)[..p])
  {
    var n := |h| - 1;
    RecentDistinct(h);
    RecentDistinct(h[..n]);
    if p > 0 {
      var before := Recent(h[..n]);
      ShiftedUrls(before, h[n], p);
      var q := if Cached(before, h[n].url) && Index(before, h[n].url) < p then p else p - 1;
      RankIsSince(h[..n], q);
      assert Recent(h)[0].url != Recent(h)[p].url;
    }
  }

  lemma TopIff(r: seq<Rec>, url: string)
    requires Cached(r, url)
    ensures Cached(Top(r), url) <==> Index(r, url) < CACHE_MAX_SIZE
  {
    var p := Index(r, url);
    if p < |Top(r)| { assert Top(r)[p].url == url; }
    if Cached(Top(r), url) { IndexInTop(r, url); }
  }

  /** Being among the first five means fewer than five URLs since. */
  lemma TopRank(h: seq<Rec>, url: string)
    requires Cached(Recent(h), url)
    ensures Cached(Top(Recent(h)), url) <==> |Since(h, url)| < CACHE_MAX_SIZE
  {
    var r := Recent(h);
    RecentDistinct(h);
    TopIff(r, url);
    RankIsSince(h, Index(r, url));
    PrefixSize(r, Index(r, url));
  }

  lemma PrefixSize(r: seq<Rec>, p: nat)
    requires Distinct(r) && p <= |r|
    ensures |Urls(r[..p])| == p
  {
    UrlsSize(r[..p]);
  }
}
