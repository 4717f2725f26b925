/** The sign of a rearrangement, counted as the parity of its inversions. */
module Inversions {

  function Smaller(s: seq<nat>, x: nat): nat {
    if s == [] then 0 else (if s[0] < x then 1 else 0) + Smaller(s[1..], x)
  }

  /** The number of pairs that stand in the wrong order. */
  function InversionCount(s: seq<nat>): nat {
    if s == [] then 0 else Smaller(s[1..], s[0]) + InversionCount(s[1..])
  }

  function SwapAt<T>(s: seq<T>, i: nat): seq<T>
    requires i + 1 < |s|
  {
    s[i := s[i + 1]][i + 1 := s[i]]
  }

  lemma SwapAtTail<T>(s: seq<T>, i: nat)
    requires 0 < i && i + 1 < |s|
    ensures SwapAt(s, i)[0] == s[0] && SwapAt(s, i)[1..] == SwapAt(s[1..], i - 1)
  {
  }

  lemma {:induction false} SmallerSwap(s: seq<nat>, i: nat, x: nat)
    requires i + 1 < |s|
    ensures Smaller(SwapAt(s, i), x) == Smaller(s, x)
  {
    if i == 0 {
      assert SwapAt(s, 0)[1..][1..] == s[1..][1..];
    } else {
      SwapAtTail(s, i);
      SmallerSwap(s[1..], i - 1, x);
    }
  }

  lemma FirstTwo(s: seq<nat>)
    requires |s| >= 2
    ensures InversionCount(s) == (if s[1] < s[0] then 1 else 0)
                                 + Smaller(s[2..], s[0]) + Smaller(s[2..], s[1]) + InversionCount(s[2..])
  {
    var t := s[1..];
    assert t[1..] == s[2..];
    assert Smaller(t, s[0]) == (if t[0] < s[0] then 1 else 0) + Smaller(t[1..], s[0]);
    assert InversionCount(t) == Smaller(t[1..], t[0]) + InversionCount(t[1..]);
  }

  /** Exchanging two different neighbours creates or removes exactly one inversion. */
  lemma {:induction false} AdjacentSwap(s: seq<nat>, i: nat)
    requires i + 1 < |s| && s[i] != s[i + 1]
    ensures InversionCount(SwapAt(s, i)) ==
            if s[i] < s[i + 1] then InversionCount(s) + 1 else InversionCount(s) - 1
  {
    if i == 0 {
      FirstTwo(s);
      FirstTwo(SwapAt(s, 0));
      assert SwapAt(s, 0)[2..] == s[2..];
    } else {
      SwapAtTail(s, i);
      SmallerSwap(s[1..], i - 1, s[0]);
      AdjacentSwap(s[1..], i - 1);
    }
  }

  lemma SwapKeepsMultiset<T>(s: seq<T>, i: nat)
    requires i + 1 < |s|
    ensures multiset(SwapAt(s, i)) == multiset(s)
  {
    assert s == s[..i] + [s[i], s[i + 1]] + s[i + 2..];
    assert SwapAt(s, i) == s[..i] + [s[i + 1], s[i]] + s[i + 2..];
  }

  lemma {:induction false} NoneSmaller(s: seq<nat>, x: nat)
    requires forall i :: 0 <= i < |s| ==> x <= s[i]
    ensures Smaller(s, x) == 0
  {
    if s != [] { NoneSmaller(s[1..], x); }
  }

  /** An increasing sequence has no inversions. */
  lemma {:induction false} SortedHasNone(s: seq<nat>)
    requires forall i, j :: 0 <= i < j < |s| ==> s[i] <= s[j]
    ensures InversionCount(s) == 0
  {
    if s != [] {
      NoneSmaller(s[1..], s[0]);
      SortedHasNone(s[1..]);
    }
  }
}
