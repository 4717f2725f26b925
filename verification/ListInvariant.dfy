/** What every step of the list machine keeps. */
module ListInvariant {
  import opened Wrappers
  import opened Counting
  import opened Inversions
  import opened ListMachine

  /** The owner fields say exactly what the program counters say. */
  predicate InvOwner(s: State)
    requires Wellformed(s)
  {
    && (forall l :: 0 <= l < |s.locks| && s.locks[l].Some? ==> s.locks[l].value < |s.threads|)
    && (forall t, l :: 0 <= t < |s.threads| && 0 <= l < |s.locks| ==>
                         (s.locks[l] == Some(t) <==> Holds(|s.cells|, s.threads[t].pc, l)))
  }

  /** Node i is between the two strncpy of list_swap that overwrite its pair. */
  predicate MidSwap(s: State, i: nat)
    requires Wellformed(s) && i < |s.cells|
  {
    && s.locks[i].Some? && s.locks[i].value < |s.threads|
    && s.threads[s.locks[i].value].pc.CopyB? && s.threads[s.locks[i].value].pc.i == i
  }

  /** What a thread has read under its locks is still there. */
  predicate LocalText(s: State, pc: Pc)
    requires Wellformed(s)
  {
    match pc
    case ReadB(i, x) => i + 1 < |s.text| && x == s.text[i].str
    case CopyA(i, tmp) => i + 1 < |s.text| && tmp == s.text[i]
    case CopyB(i, tmp) => i + 1 < |s.text| && tmp == s.text[i] && s.cells[i] == s.text[i + 1]
    case _ => true
  }

  predicate InvText(s: State)
    requires Wellformed(s)
  {
    && (forall i :: 0 <= i < |s.cells| ==> s.cells[i] == s.text[i] || MidSwap(s, i))
    && (forall t :: 0 <= t < |s.threads| ==> LocalText(s, s.threads[t].pc))
  }

  /** Finished passes or swaps that are not in counter k yet. */
  function Pending(k: nat): Thread -> bool {
    (th: Thread) => (th.pc.StatLock? || th.pc.StatLoad? || th.pc.StatStore?) && th.pc.k == k
  }

  predicate InvCounters(s: State)
    requires Wellformed(s)
  {
    && (forall k :: 0 <= k < 4 ==> s.counters[k] + Count(s.threads, Pending(k)) == s.done[k])
    && (forall t :: 0 <= t < |s.threads| && s.threads[t].pc.StatStore? ==>
                      s.threads[t].pc.k < 4 && s.threads[t].pc.r == s.counters[s.threads[t].pc.k])
  }

  function Ids(text: seq<Cell>): seq<nat> {
    seq(|text|, i requires 0 <= i < |text| => text[i].id)
  }

  predicate InvOrder(s: State, original: seq<Cell>)
    requires Wellformed(s)
  {
    && multiset(s.text) == multiset(original)
    && (forall i, j :: 0 <= i < j < |s.text| ==> s.text[i].id != s.text[j].id)
    && InversionCount(Ids(s.text)) % 2 == s.done[SWAPS] % 2
  }

  function MatchCount(kind: Kind, seen: seq<(string, string)>): nat {
    if seen == [] then 0 else
    var (x, y) := seen[|seen| - 1];
    MatchCount(kind, seen[..|seen| - 1]) + Bit(Matches(kind, x, y))
  }

  /** A scanner has compared one pair per node it has left behind. */
  predicate PassOk(n: nat, th: Thread) {
    th.role.Scanner? ==>
      && th.count == MatchCount(th.role.kind, th.seen)
      && match th.pc
         case AtNode(i) => |th.seen| == i
         case LockA(i) => |th.seen| == i
         case LockB(i) => |th.seen| == i
         case ReadA(i) => |th.seen| == i
         case ReadB(i, _) => |th.seen| == i
         case UnlockA(i) => |th.seen| == i + 1
         case UnlockB(i) => |th.seen| == i + 1
         case StatLock(_, _) => |th.seen| == n - 1
         case StatLoad(_, _) => |th.seen| == n - 1
         case StatStore(_, _, _) => |th.seen| == n - 1
         case _ => true
  }

  predicate InvPass(s: State)
    requires Wellformed(s)
  {
    forall t :: 0 <= t < |s.threads| ==> PassOk(|s.cells|, s.threads[t])
  }

  ghost predicate Inv(s: State, original: seq<Cell>) {
    && Wellformed(s)
    && InvOwner(s) && InvText(s) && InvCounters(s) && InvOrder(s, original) && InvPass(s)
  }

  // ----- the owner fields -----

  /** The set of locks a thread holds grows by what it takes and shrinks by what it frees. */
  lemma HoldsMoves(s: State, t: nat, coin: bool, l: nat)
    requires Wellformed(s) && t < |s.threads|
    ensures var n, pc := |s.cells|, s.threads[t].pc;
            Holds(n, NextPc(s, t, coin), l) <==>
            (Wants(n, pc) == Some(l) || (Holds(n, pc, l) && Frees(n, pc) != Some(l)))
  {
    assert GoodPc(|s.cells|, s.threads[t].role, s.threads[t].pc);
  }

  lemma FreesOwn(s: State, t: nat, l: nat)
    requires Wellformed(s) && t < |s.threads|
    ensures Frees(|s.cells|, s.threads[t].pc) == Some(l) ==> Holds(|s.cells|, s.threads[t].pc, l)
    ensures Wants(|s.cells|, s.threads[t].pc) == Some(l) ==> l < |s.locks|
  {
    assert GoodPc(|s.cells|, s.threads[t].role, s.threads[t].pc);
  }

  lemma OwnerKept(s: State, t: nat, coin: bool)
    requires Wellformed(s) && InvOwner(s) && t < |s.threads| && !Blocked(s, t)
    ensures Wellformed(Step(s, t, coin)) && InvOwner(Step(s, t, coin))
  {
    StepWellformed(s, t, coin);
    var s' := Step(s, t, coin);
    var n := |s.cells|;
    forall u, l | 0 <= u < |s.threads| && 0 <= l < |s.locks|
      ensures s'.locks[l] == Some(u) <==> Holds(n, s'.threads[u].pc, l)
    {
      HoldsMoves(s, t, coin, l);
      FreesOwn(s, t, l);
      assert s.locks[l] == Some(u) <==> Holds(n, s.threads[u].pc, l);
      assert s.locks[l] == Some(t) <==> Holds(n, s.threads[t].pc, l);
    }
  }

  /** Two threads never hold the same lock. */
  lemma Exclusive(s: State, t: nat, u: nat, l: nat)
    requires Wellformed(s) && InvOwner(s)
    requires t < |s.threads| && u < |s.threads| && l < |s.locks|
    requires Holds(|s.cells|, s.threads[t].pc, l) && Holds(|s.cells|, s.threads[u].pc, l)
    ensures t == u
  {
    assert s.locks[l] == Some(t) && s.locks[l] == Some(u);
  }

  // ----- the contents -----

  /** Reading or copying under the lock sees the text. */
  lemma UnderLock(s: State, t: nat, i: nat)
    requires Wellformed(s) && InvOwner(s) && InvText(s) && t < |s.threads| && i < |s.cells|
    requires Holds(|s.cells|, s.threads[t].pc, i)
    requires s.threads[t].pc.CopyB? ==> s.threads[t].pc.i != i
    ensures s.cells[i] == s.text[i]
  {
    assert s.locks[i] == Some(t);
  }

  lemma OthersText(s: State, t: nat, coin: bool, u: nat)
    requires Wellformed(s) && InvOwner(s) && InvText(s)
    requires t < |s.threads| && !Blocked(s, t) && u < |s.threads| && u != t
    ensures Wellformed(Step(s, t, coin)) && LocalText(Step(s, t, coin), s.threads[u].pc)
  {
    StepWellformed(s, t, coin);
    var n, pc, pu := |s.cells|, s.threads[t].pc, s.threads[u].pc;
    assert LocalText(s, pu) && GoodPc(n, s.threads[u].role, pu) && GoodPc(n, s.threads[t].role, pc);
    if (pc.CopyA? || pc.CopyB?) && (pu.ReadB? || pu.CopyA? || pu.CopyB?) {
      if InPair(pu.i, pc.i) { Exclusive(s, t, u, pu.i); }
      if InPair(pu.i + 1, pc.i) { Exclusive(s, t, u, pu.i + 1); }
    }
  }

  /** What a thread reads or copies under its locks is the text. */
  lemma ReadsText(s: State, t: nat)
    requires Wellformed(s) && InvOwner(s) && InvText(s) && t < |s.threads|
    ensures var pc := s.threads[t].pc;
            && (pc.ReadA? || pc.CopyTmp? ==> pc.i < |s.cells| && s.cells[pc.i] == s.text[pc.i])
            && (pc.CopyA? ==> pc.i + 1 < |s.cells| && s.cells[pc.i + 1] == s.text[pc.i + 1])
  {
    var pc := s.threads[t].pc;
    assert GoodPc(|s.cells|, s.threads[t].role, pc);
    if pc.ReadA? || pc.CopyTmp? { UnderLock(s, t, pc.i); }
    if pc.CopyA? { UnderLock(s, t, pc.i + 1); }
  }

  lemma OwnText(s: State, t: nat, coin: bool)
    requires Wellformed(s) && InvOwner(s) && InvText(s) && t < |s.threads| && !Blocked(s, t)
    ensures Wellformed(Step(s, t, coin)) && LocalText(Step(s, t, coin), Step(s, t, coin).threads[t].pc)
  {
    StepWellformed(s, t, coin);
    ReadsText(s, t);
    var pc := s.threads[t].pc;
    assert GoodPc(|s.cells|, s.threads[t].role, pc) && LocalText(s, pc);
  }

  lemma CellKept(s: State, t: nat, coin: bool, i: nat)
    requires Wellformed(s) && InvOwner(s) && InvText(s) && t < |s.threads| && !Blocked(s, t)
    requires i < |s.cells|
    ensures var s' := Step(s, t, coin);
            Wellformed(s') && (s'.cells[i] == s'.text[i] || MidSwap(s', i))
  {
    StepWellformed(s, t, coin);
    var s', n, pc := Step(s, t, coin), |s.cells|, s.threads[t].pc;
    assert GoodPc(n, s.threads[t].role, pc) && LocalText(s, pc);
    HoldsMoves(s, t, coin, i);
    FreesOwn(s, t, i);
    assert s.locks[i] == Some(t) <==> Holds(n, pc, i);
    if pc.CopyA? && i == pc.i {
      assert s'.locks[i] == Some(t);
    }
    if pc.CopyB? && i == pc.i + 1 {
      UnderLock(s, t, i);
    }
  }

  lemma TextKept(s: State, t: nat, coin: bool)
    requires Wellformed(s) && InvOwner(s) && InvText(s) && t < |s.threads| && !Blocked(s, t)
    ensures Wellformed(Step(s, t, coin)) && InvText(Step(s, t, coin))
  {
    StepWellformed(s, t, coin);
    var s' := Step(s, t, coin);
    forall i | 0 <= i < |s'.cells| ensures s'.cells[i] == s'.text[i] || MidSwap(s', i) {
      CellKept(s, t, coin, i);
    }
    forall u | 0 <= u < |s'.threads| ensures LocalText(s', s'.threads[u].pc) {
      if u == t { OwnText(s, t, coin); } else { OthersText(s, t, coin, u); }
    }
  }

  // ----- the counters -----

  lemma CounterSum(s: State, t: nat, coin: bool, k: nat)
    requires Wellformed(s) && InvCounters(s) && t < |s.threads| && !Blocked(s, t) && k < 4
    ensures var s' := Step(s, t, coin);
            |s'.counters| == |s'.done| == 4 && s'.counters[k] + Count(s'.threads, Pending(k)) == s'.done[k]
  {
    var th, th' := s.threads[t], NextThread(s, t, coin);
    assert GoodPc(|s.cells|, th.role, th.pc);
    CountUpdate(s.threads, t, th', Pending(k));
    assert s.counters[k] + Count(s.threads, Pending(k)) == s.done[k];
    assert NextCounters(s, t)[k] + Bit(Pending(k)(th')) - Bit(Pending(k)(th)) - s.counters[k]
        == NextDone(s, t)[k] - s.done[k];
  }

  /** counter++ loses nothing: the value loaded is still there when it is stored. */
  lemma LoadedValue(s: State, t: nat, coin: bool, u: nat)
    requires Wellformed(s) && InvOwner(s) && InvCounters(s) && t < |s.threads| && !Blocked(s, t)
    requires u < |s.threads| && Step(s, t, coin).threads[u].pc.StatStore?
    ensures var s' := Step(s, t, coin);
            var pc' := s'.threads[u].pc;
            |s'.counters| == 4 && pc'.k < 4 && pc'.r == s'.counters[pc'.k]
  {
    var pc, pu := s.threads[t].pc, s.threads[u].pc;
    assert GoodPc(|s.cells|, s.threads[t].role, pc);
    if u != t && pc.StatStore? && pu.k == pc.k {
      Exclusive(s, t, u, |s.cells| + pc.k);
    }
  }

  lemma CountersKept(s: State, t: nat, coin: bool)
    requires Wellformed(s) && InvOwner(s) && InvCounters(s) && t < |s.threads| && !Blocked(s, t)
    ensures Wellformed(Step(s, t, coin)) && InvCounters(Step(s, t, coin))
  {
    StepWellformed(s, t, coin);
    var s' := Step(s, t, coin);
    forall k | 0 <= k < 4 ensures s'.counters[k] + Count(s'.threads, Pending(k)) == s'.done[k] {
      CounterSum(s, t, coin, k);
    }
    forall u | 0 <= u < |s.threads| && s'.threads[u].pc.StatStore?
      ensures s'.threads[u].pc.k < 4 && s'.threads[u].pc.r == s'.counters[s'.threads[u].pc.k]
    {
      LoadedValue(s, t, coin, u);
    }
  }

  // ----- the order -----

  lemma OrderKept(s: State, t: nat, coin: bool, original: seq<Cell>)
    requires Wellformed(s) && InvOrder(s, original) && t < |s.threads| && !Blocked(s, t)
    ensures Wellformed(Step(s, t, coin)) && InvOrder(Step(s, t, coin), original)
  {
    StepWellformed(s, t, coin);
    var pc := s.threads[t].pc;
    assert GoodPc(|s.cells|, s.threads[t].role, pc);
    if pc.CopyB? {
      SwapKeepsMultiset(s.text, pc.i);
      AdjacentSwap(Ids(s.text), pc.i);
      assert Ids(SwapAt(s.text, pc.i)) == SwapAt(Ids(s.text), pc.i);
    }
  }

  // ----- the passes -----

  lemma PassKept(s: State, t: nat, coin: bool)
    requires Wellformed(s) && InvPass(s) && t < |s.threads| && !Blocked(s, t)
    ensures Wellformed(Step(s, t, coin)) && InvPass(Step(s, t, coin))
  {
    StepWellformed(s, t, coin);
    var th, th' := s.threads[t], NextThread(s, t, coin);
    assert GoodPc(|s.cells|, th.role, th.pc) && PassOk(|s.cells|, th);
    if th.pc.ReadB? {
      assert th'.seen[..|th'.seen| - 1] == th.seen;
    }
    assert PassOk(|s.cells|, th');
  }

  // ----- every run -----

  lemma StepKeepsInv(s: State, t: nat, coin: bool, original: seq<Cell>)
    requires Inv(s, original)
    ensures Inv(Step(s, t, coin), original)
  {
    if t < |s.threads| && !Blocked(s, t) {
      OwnerKept(s, t, coin);
      TextKept(s, t, coin);
      CountersKept(s, t, coin);
      OrderKept(s, t, coin, original);
      PassKept(s, t, coin);
    }
  }

  lemma StartInv(roles: seq<Role>, strings: seq<string>)
    requires strings != []
    ensures Inv(Start(roles, strings), Start(roles, strings).text)
  {
    var s := Start(roles, strings);
    forall k | 0 <= k < 4 ensures Count(s.threads, Pending(k)) == 0 {
      CountNone(s.threads, Pending(k));
    }
    SortedHasNone(Ids(s.text));
  }

  /** The invariant holds after every interleaving of any threads on any list. */
  lemma {:induction false} AlwaysInv(roles: seq<Role>, strings: seq<string>, schedule: seq<(nat, bool)>)
    requires strings != []
    ensures Inv(Exec(Start(roles, strings), schedule), Start(roles, strings).text)
  {
    if schedule == [] {
      StartInv(roles, strings);
    } else {
      var n := |schedule| - 1;
      AlwaysInv(roles, strings, schedule[..n]);
      StepKeepsInv(Exec(Start(roles, strings), schedule[..n]), schedule[n].0, schedule[n].1,
                   Start(roles, strings).text);
    }
  }
}
