/** What the list machine guarantees in every reachable state. */
module ListTheorems {
  import opened Wrappers
  import opened Counting
  import opened Inversions
  import opened ListMachine
  import opened ListInvariant

  // ----- deadlock freedom -----

  /** The one locking order: a thread only waits for a lock above all those it holds. */
  lemma LocksInOrder(s: State, t: nat, l: nat)
    requires Wellformed(s) && t < |s.threads|
    requires Holds(|s.cells|, s.threads[t].pc, l) && Wants(|s.cells|, s.threads[t].pc).Some?
    ensures l < Wants(|s.cells|, s.threads[t].pc).value < |s.locks|
  {
    assert GoodPc(|s.cells|, s.threads[t].role, s.threads[t].pc);
  }

  /** Thread t is kept waiting by thread u. */
  predicate WaitsFor(s: State, t: nat, u: nat)
    requires Wellformed(s)
  {
    && t < |s.threads| && u < |s.threads|
    && Blocked(s, t) && s.locks[Wants(|s.cells|, s.threads[t].pc).value] == Some(u)
  }

  predicate WaitChain(s: State, path: seq<nat>)
    requires Wellformed(s)
  {
    forall i :: 0 <= i < |path| - 1 ==> WaitsFor(s, path[i], path[i + 1])
  }

  lemma {:induction false} ChainEnds(s: State, t: nat) returns (path: seq<nat>)
    requires Wellformed(s) && InvOwner(s) && t < |s.threads| && Blocked(s, t)
    ensures |path| >= 2 && path[0] == t && WaitChain(s, path)
    ensures path[|path| - 1] < |s.threads| && !Blocked(s, path[|path| - 1])
    decreases |s.locks| - Wants(|s.cells|, s.threads[t].pc).value
  {
    var n := |s.cells|;
    assert GoodPc(n, s.threads[t].role, s.threads[t].pc);
    var l := Wants(n, s.threads[t].pc).value;
    var u := s.locks[l].value;
    assert Holds(n, s.threads[u].pc, l);
    if Blocked(s, u) {
      LocksInOrder(s, u, l);
      var rest := ChainEnds(s, u);
      path := [t] + rest;
      assert forall i :: 1 <= i < |path| ==> path[i] == rest[i - 1];
    } else {
      path := [t, u];
    }
  }

  /** A thread that is not blocked really moves. */
  lemma UnblockedMoves(s: State, t: nat, coin: bool)
    requires Wellformed(s) && t < |s.threads| && !Blocked(s, t)
    ensures Step(s, t, coin).threads[t].pc != s.threads[t].pc
  {
    assert GoodPc(|s.cells|, s.threads[t].role, s.threads[t].pc);
  }

  /** No deadlock, on any list and for any number of threads of each role: from every
      blocked thread the chain of who waits for whom ends at a lock holder that can move. */
  lemma DeadlockFree(roles: seq<Role>, strings: seq<string>, schedule: seq<(nat, bool)>, t: nat)
    returns (path: seq<nat>)
    requires strings != [] && t < |roles|
    ensures var s := Exec(Start(roles, strings), schedule);
            && t < |s.threads|
            && path != [] && path[0] == t && WaitChain(s, path)
            && (Blocked(s, t) ==> |path| >= 2)
            && var last := path[|path| - 1];
               && last < |s.threads| && !Blocked(s, last)
               && (forall coin: bool :: Step(s, last, coin).threads[last].pc != s.threads[last].pc)
  {
    AlwaysInv(roles, strings, schedule);
    var s := Exec(Start(roles, strings), schedule);
    ExecSizes(Start(roles, strings), schedule);
    if Blocked(s, t) { path := ChainEnds(s, t); } else { path := [t]; }
    var last := path[|path| - 1];
    forall coin: bool ensures Step(s, last, coin).threads[last].pc != s.threads[last].pc {
      UnblockedMoves(s, last, coin);
    }
  }

  lemma {:induction false} ExecSizes(s: State, schedule: seq<(nat, bool)>)
    requires Wellformed(s)
    ensures var e := Exec(s, schedule);
            |e.threads| == |s.threads| && |e.cells| == |s.cells|
  {
    if schedule != [] {
      var n := |schedule| - 1;
      ExecSizes(s, schedule[..n]);
      StepWellformed(Exec(s, schedule[..n]), schedule[n].0, schedule[n].1);
    }
  }

  // ----- conservation -----

  /** Nothing is lost, duplicated or torn: the text is always a rearrangement of the strings
      inserted, and every node not caught inside a locked swap shows its text. */
  lemma Conservation(roles: seq<Role>, strings: seq<string>, schedule: seq<(nat, bool)>)
    requires strings != []
    ensures var s := Exec(Start(roles, strings), schedule);
            && |s.cells| == |strings|
            && multiset(s.text) == multiset(Start(roles, strings).cells)
            && (forall i :: 0 <= i < |s.cells| ==> s.cells[i] == s.text[i] || MidSwap(s, i))
            && ((forall t :: 0 <= t < |s.threads| ==> !s.threads[t].pc.CopyB?) ==>
                  multiset(s.cells) == multiset(Start(roles, strings).cells))
  {
    AlwaysInv(roles, strings, schedule);
    ExecSizes(Start(roles, strings), schedule);
    var s := Exec(Start(roles, strings), schedule);
    if forall t :: 0 <= t < |s.threads| ==> !s.threads[t].pc.CopyB? {
      assert forall i :: 0 <= i < |s.cells| ==> !MidSwap(s, i);
      assert s.cells == s.text;
    }
  }

  /** Every comparison is of two strings that stand next to each other in the text at that
      moment: no scanner ever sees a half-done swap. */
  lemma UntornComparison(roles: seq<Role>, strings: seq<string>, schedule: seq<(nat, bool)>, t: nat, coin: bool)
    requires strings != [] && t < |roles|
    requires t < |Exec(Start(roles, strings), schedule).threads|
    requires Exec(Start(roles, strings), schedule).threads[t].pc.ReadB?
    ensures var s := Exec(Start(roles, strings), schedule);
            var i, seen, seen' := s.threads[t].pc.i, s.threads[t].seen, Step(s, t, coin).threads[t].seen;
            && i + 1 < |s.text| && |seen| == i
            && seen' == seen + [(s.text[i].str, s.text[i + 1].str)]
  {
    AlwaysInv(roles, strings, schedule);
    var s := Exec(Start(roles, strings), schedule);
    var th := s.threads[t];
    assert GoodPc(|s.cells|, th.role, th.pc) && LocalText(s, th.pc) && PassOk(|s.cells|, th);
    UnderLock(s, t, th.pc.i + 1);
  }

  /** Each pass compares exactly n - 1 pairs, and `count` is how many of them matched. */
  lemma PassLength(roles: seq<Role>, strings: seq<string>, schedule: seq<(nat, bool)>, t: nat)
    requires strings != []
    requires t < |Exec(Start(roles, strings), schedule).threads|
    ensures var th := Exec(Start(roles, strings), schedule).threads[t];
            th.role.Scanner? && th.pc.StatLock? ==>
              && |th.seen| == |strings| - 1
              && th.count == MatchCount(th.role.kind, th.seen)
  {
    AlwaysInv(roles, strings, schedule);
    ExecSizes(Start(roles, strings), schedule);
    var s := Exec(Start(roles, strings), schedule);
    assert PassOk(|s.cells|, s.threads[t]);
  }

  // ----- statistics and parity -----

  /** No statistics update is lost: every finished pass or swap is in its counter, or its
      thread is still on the way to the store. */
  lemma StatisticsExact(roles: seq<Role>, strings: seq<string>, schedule: seq<(nat, bool)>, k: nat)
    requires strings != [] && k < 4
    ensures var s := Exec(Start(roles, strings), schedule);
            s.counters[k] + Count(s.threads, Pending(k)) == s.done[k]
  {
    AlwaysInv(roles, strings, schedule);
  }

  /** The sign of the rearrangement from the strings inserted to the strings now is the
      parity of swap_attempts, counting swappers that have swapped but not yet stored. */
  lemma SwapParity(roles: seq<Role>, strings: seq<string>, schedule: seq<(nat, bool)>)
    requires strings != []
    ensures SameParity(Exec(Start(roles, strings), schedule))
  {
    AlwaysInv(roles, strings, schedule);
    ParityOf(Exec(Start(roles, strings), schedule), Start(roles, strings).text);
  }

  predicate SameParity(s: State) {
    && |s.counters| > SWAPS
    && InversionCount(Ids(s.text)) % 2 == (s.counters[SWAPS] + Count(s.threads, Pending(SWAPS))) % 2
  }

  lemma ParityOf(s: State, original: seq<Cell>)
    requires Inv(s, original)
    ensures SameParity(s)
  {
    assert s.counters[SWAPS] + Count(s.threads, Pending(SWAPS)) == s.done[SWAPS];
  }

  /** No swapper between its last strncpy and its store, and none in mid-swap. */
  predicate NoSwapUnderway(s: State) {
    forall t :: 0 <= t < |s.threads| ==> !s.threads[t].pc.CopyB? && !Pending(SWAPS)(s.threads[t])
  }

  lemma OrderedIsEven(s: State, original: seq<Cell>)
    requires Inv(s, original) && NoSwapUnderway(s)
    requires forall i, j :: 0 <= i < j < |s.cells| ==> s.cells[i].id <= s.cells[j].id
    ensures s.counters[SWAPS] % 2 == 0
  {
    ParityOf(s, original);
    CountNone(s.threads, Pending(SWAPS));
    assert forall i :: 0 <= i < |s.cells| ==> !MidSwap(s, i);
    assert s.cells == s.text;
    SortedHasNone(Ids(s.text));
  }

  /** So when no swapper is at work and the list is back in its original order, the counter
      is even; with an odd counter some string is out of place. */
  lemma BackInOrderMeansEven(roles: seq<Role>, strings: seq<string>, schedule: seq<(nat, bool)>)
    requires strings != []
    ensures var s := Exec(Start(roles, strings), schedule);
            s.cells == Start(roles, strings).cells && NoSwapUnderway(s) ==> s.counters[SWAPS] % 2 == 0
  {
    AlwaysInv(roles, strings, schedule);
    var s := Exec(Start(roles, strings), schedule);
    if s.cells == Start(roles, strings).cells && NoSwapUnderway(s) {
      OrderedIsEven(s, Start(roles, strings).text);
    }
  }

  /** The line printed under all four spinlocks is one consistent snapshot: nobody else is
      inside a counter update, so each number counts every update whose store has begun. */
  lemma PrintedSnapshot(roles: seq<Role>, strings: seq<string>, schedule: seq<(nat, bool)>, t: nat, u: nat)
    requires strings != []
    requires t < |Exec(Start(roles, strings), schedule).threads|
    requires u < |Exec(Start(roles, strings), schedule).threads|
    requires Exec(Start(roles, strings), schedule).threads[t].pc.Printing?
    ensures var pc := Exec(Start(roles, strings), schedule).threads[u].pc;
            !pc.StatLoad? && !pc.StatStore? && !pc.StatUnlock? && (pc.Printing? ==> u == t)
  {
    AlwaysInv(roles, strings, schedule);
    var s := Exec(Start(roles, strings), schedule);
    var n, pc := |s.cells|, s.threads[u].pc;
    assert GoodPc(n, s.threads[u].role, pc);
    if pc.StatLoad? || pc.StatStore? || pc.StatUnlock? {
      Exclusive(s, t, u, n + pc.k);
    }
    if pc.Printing? { Exclusive(s, t, u, n); }
  }
}
