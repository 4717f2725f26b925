/** What a thread of the list program does when it runs by itself: whole passes of scanners and
    swappers, and every rearrangement of the list. */
module ListRuns {
  import opened Wrappers
  import opened Counting
  import opened Inversions
  import opened ListMachine
  import opened ListInvariant
  import opened ListTheorems

  ghost predicate Reaches(s: State, e: State)
    requires Wellformed(s)
  {
    exists schedule :: Exec(s, schedule) == e
  }

  lemma ReachesSelf(s: State)
    requires Wellformed(s)
    ensures Reaches(s, s)
  {
    assert Exec(s, []) == s;
  }

  lemma Then(s: State, m: State, t: nat, coin: bool)
    requires Wellformed(s) && Reaches(s, m) && Wellformed(m)
    ensures Reaches(s, Step(m, t, coin))
  {
    var schedule :| Exec(s, schedule) == m;
    assert (schedule + [(t, coin)])[..|schedule|] == schedule;
    assert Exec(s, schedule + [(t, coin)]) == Step(m, t, coin);
  }

  // ----- one thread by itself -----

  /** All other threads are where they began, and exactly the locks of t are held. */
  predicate Alone(s: State, t: nat) {
    && Wellformed(s) && t < |s.threads| && !s.threads[t].role.Printer?
    && (forall u :: 0 <= u < |s.threads| && u != t ==> s.threads[u].pc.Begin? || s.threads[u].pc == PrintLock(0))
    && (forall l :: 0 <= l < |s.locks| ==>
          s.locks[l] == if Holds(|s.cells|, s.threads[t].pc, l) then Some(t) else None)
  }

  /** By itself t is never blocked, and it goes on holding what it should. */
  lemma StaysAlone(s: State, t: nat, coin: bool)
    requires Alone(s, t)
    ensures !Blocked(s, t) && Alone(Step(s, t, coin), t)
  {
    var n, pc := |s.cells|, s.threads[t].pc;
    if Wants(n, pc).Some? {
      FreesOwn(s, t, Wants(n, pc).value);
      if Holds(n, pc, Wants(n, pc).value) { LocksInOrder(s, t, Wants(n, pc).value); }
    }
    StepWellformed(s, t, coin);
    forall l | 0 <= l < |s.locks|
      ensures NextLocks(s, t)[l] == if Holds(n, NextPc(s, t, coin), l) then Some(t) else None
    {
      HoldsMoves(s, t, coin, l);
      FreesOwn(s, t, l);
    }
  }

  /** What t sees of a state. */
  datatype Local = Local(th: Thread, cells: seq<Cell>, counters: seq<nat>)

  predicate Sees(now: State, t: nat, l: Local) {
    Alone(now, t) && now.threads[t] == l.th && now.cells == l.cells && now.counters == l.counters
  }

  /** Some schedule leads to a state in which t is alone and sees this. */
  ghost predicate Can(s: State, t: nat, l: Local)
    requires Wellformed(s)
  {
    exists now :: Reaches(s, now) && Sees(now, t, l)
  }

  lemma Moves(s: State, now: State, t: nat, coin: bool, l: Local)
    requires Wellformed(s) && Reaches(s, now) && Alone(now, t)
    requires l == Local(NextThread(now, t, coin), NextCells(now, t), NextCounters(now, t))
    ensures Can(s, t, l)
  {
    StaysAlone(now, t, coin);
    Then(s, now, t, coin);
    assert Sees(Step(now, t, coin), t, l);
  }

  lemma Sane(now: State, t: nat, l: Local)
    requires Sees(now, t, l)
    ensures |l.counters| == 4 && |l.cells| >= 1 && GoodPc(|l.cells|, l.th.role, l.th.pc) && !l.th.role.Printer?
  {
  }

  predicate ByLength(kind: Kind, p: (string, string)) {
    match kind
    case Increasing => |p.0| < |p.1|
    case Decreasing => |p.0| > |p.1|
    case Equal => |p.0| == |p.1|
  }

  function With(l: Local, pc: Pc): Local {
    l.(th := l.th.(pc := pc))
  }

  /** The counter a scanner of this kind adds to: inc_iters, dec_iters, eq_iters. */
  function OwnCounter(kind: Kind): nat {
    match kind case Increasing => 0 case Decreasing => 1 case Equal => 2
  }

  /** A step of a thread by itself, in terms of what it sees. */
  predicate StepsTo(l: Local, coin: bool, after: Local) {
    var n, role := |l.cells|, l.th.role;
    match l.th.pc
    case Begin => after == With(l, AtFirst)
    case AtFirst => after == l.(th := Thread(role, AtNode(0), [], 0))
    case AtNode(i) =>
      after == With(l, if i + 1 < n then LockA(i)
                       else if role.Scanner? then StatLock(OwnCounter(role.kind), 0) else Begin)
    case LockA(i) => after == With(l, LockB(i))
    case LockB(i) => after == With(l, if role.Scanner? then ReadA(i) else Toss(i))
    case ReadA(i) => i < n && after == With(l, ReadB(i, l.cells[i].str))
    case ReadB(i, x) =>
      i + 1 < n && role.Scanner? &&
      var p := (x, l.cells[i + 1].str);
      after == l.(th := Thread(role, UnlockA(i), l.th.seen + [p], l.th.count + Bit(ByLength(role.kind, p))))
    case Toss(i) => after == With(l, if coin then CopyTmp(i) else UnlockA(i))
    case CopyTmp(i) => i < n && after == With(l, CopyA(i, l.cells[i]))
    case CopyA(i, tmp) => i + 1 < n && after == With(l, CopyB(i, tmp)).(cells := l.cells[i := l.cells[i + 1]])
    case CopyB(i, tmp) => i + 1 < n && after == With(l, StatLock(3, i)).(cells := l.cells[i + 1 := tmp])
    case UnlockA(i) => after == With(l, UnlockB(i))
    case UnlockB(i) => after == With(l, AtNode(i + 1))
    case StatLock(k, i) => after == With(l, StatLoad(k, i))
    case StatLoad(k, i) => k < |l.counters| && after == With(l, StatStore(k, i, l.counters[k]))
    case StatStore(k, i, r) =>
      k < |l.counters| && after == With(l, StatUnlock(k, i)).(counters := l.counters[k := r + 1])
    case StatUnlock(k, i) => after == With(l, if k == 3 then UnlockA(i) else Begin)
    case _ => false
  }

  lemma Goes(s: State, t: nat, l: Local, coin: bool, after: Local)
    requires Wellformed(s) && Can(s, t, l) && StepsTo(l, coin, after)
    ensures Can(s, t, after)
  {
    var now :| Reaches(s, now) && Sees(now, t, l);
    Sane(now, t, l);
    Moves(s, now, t, coin, after);
  }

  /** Whatever a thread can come to see, it can also see one step later. */
  ghost predicate Closed(can: Local -> bool) {
    forall l, coin, after {:trigger StepsTo(l, coin, after)} :: can(l) && StepsTo(l, coin, after) ==> can(after)
  }

  ghost function CanOf(s: State, t: nat): Local -> bool
    requires Wellformed(s)
  {
    (l: Local) => Can(s, t, l)
  }

  lemma CanIsClosed(s: State, t: nat)
    requires Wellformed(s)
    ensures Closed(CanOf(s, t))
  {
    forall l, coin, after | CanOf(s, t)(l) && StepsTo(l, coin, after) ensures CanOf(s, t)(after) {
      Goes(s, t, l, coin, after);
    }
  }

  lemma One(can: Local -> bool, l: Local, coin: bool, after: Local)
    requires Closed(can) && can(l) && StepsTo(l, coin, after)
    ensures can(after)
  {
  }

  // ----- pieces of a pass -----

  lemma Begins(can: Local -> bool, l: Local)
    requires Closed(can) && can(l) && l.th.pc.Begin?
    ensures can(l.(th := Thread(l.th.role, AtNode(0), [], 0)))
  {
    One(can, l, false, With(l, AtFirst));
    One(can, With(l, AtFirst), false, l.(th := Thread(l.th.role, AtNode(0), [], 0)));
  }

  /** Taking both locks of a pair. */
  lemma LocksPair(can: Local -> bool, l: Local, i: nat)
    requires Closed(can) && can(l) && l.th.pc == AtNode(i) && i + 1 < |l.cells|
    ensures can(With(l, if l.th.role.Scanner? then ReadA(i) else Toss(i)))
  {
    One(can, l, false, With(l, LockA(i)));
    One(can, With(l, LockA(i)), false, With(With(l, LockA(i)), LockB(i)));
    One(can, With(l, LockB(i)), false, With(With(l, LockB(i)), if l.th.role.Scanner? then ReadA(i) else Toss(i)));
  }

  lemma UnlocksPair(can: Local -> bool, l: Local, i: nat)
    requires Closed(can) && can(l) && l.th.pc == UnlockA(i)
    ensures can(With(l, AtNode(i + 1)))
  {
    One(can, l, false, With(l, UnlockB(i)));
    One(can, With(l, UnlockB(i)), false, With(With(l, UnlockB(i)), AtNode(i + 1)));
  }

  /** counter++ under its spinlock. */
  lemma Counts(can: Local -> bool, l: Local, k: nat, i: nat)
    requires Closed(can) && can(l) && l.th.pc == StatLock(k, i) && k < |l.counters|
    ensures can(With(l, if k == 3 then UnlockA(i) else Begin).(counters := l.counters[k := l.counters[k] + 1]))
  {
    One(can, l, false, With(l, StatLoad(k, i)));
    One(can, With(l, StatLoad(k, i)), false, With(With(l, StatLoad(k, i)), StatStore(k, i, l.counters[k])));
    var stored := With(l, StatUnlock(k, i)).(counters := l.counters[k := l.counters[k] + 1]);
    One(can, With(l, StatStore(k, i, l.counters[k])), false, stored);
    One(can, stored, false, With(stored, if k == 3 then UnlockA(i) else Begin));
  }

  // ----- passes of a swapper -----

  function Exchange(cells: seq<Cell>, i: nat): (r: seq<Cell>)
    requires i + 1 < |cells|
    ensures |r| == |cells|
  {
    seq(|cells|, k requires 0 <= k < |cells| =>
      if k == i then cells[i + 1] else if k == i + 1 then cells[i] else cells[k])
  }

  /** The list after the exchanges drawn for its first pairs. */
  function Exchanged(cells: seq<Cell>, coins: seq<bool>): (r: seq<Cell>)
    requires |coins| < |cells| || coins == []
    ensures |r| == |cells|
  {
    if coins == [] then cells else
    var k := |coins| - 1;
    var before := Exchanged(cells, coins[..k]);
    if coins[k] then Exchange(before, k) else before
  }

  lemma Exchanges(can: Local -> bool, l: Local, i: nat)
    requires Closed(can) && can(l) && l.th.pc == CopyTmp(i) && i + 1 < |l.cells| && |l.counters| == 4
    ensures can(Local(l.th.(pc := UnlockA(i)), Exchange(l.cells, i), l.counters[3 := l.counters[3] + 1]))
  {
    var tmp := l.cells[i];
    One(can, l, false, With(l, CopyA(i, tmp)));
    var half := With(l, CopyB(i, tmp)).(cells := l.cells[i := l.cells[i + 1]]);
    One(can, With(l, CopyA(i, tmp)), false, half);
    assert half.cells[i + 1 := tmp] == Exchange(l.cells, i);
    One(can, half, false, With(l, StatLock(3, i)).(cells := Exchange(l.cells, i)));
    Counts(can, With(l, StatLock(3, i)).(cells := Exchange(l.cells, i)), 3, i);
  }

  lemma SwapperNode(can: Local -> bool, l: Local, i: nat, coin: bool)
    requires Closed(can) && can(l) && l.th.pc == AtNode(i) && i + 1 < |l.cells| && |l.counters| == 4
    requires l.th.role.Swapper?
    ensures var after := if coin then Exchange(l.cells, i) else l.cells;
            can(Local(l.th.(pc := AtNode(i + 1)), after, l.counters[3 := l.counters[3] + Bit(coin)]))
  {
    LocksPair(can, l, i);
    var both := With(l, Toss(i));
    One(can, both, coin, With(both, if coin then CopyTmp(i) else UnlockA(i)));
    if coin {
      Exchanges(can, With(l, CopyTmp(i)), i);
      UnlocksPair(can, Local(l.th.(pc := UnlockA(i)), Exchange(l.cells, i), l.counters[3 := l.counters[3] + 1]), i);
    } else {
      UnlocksPair(can, With(l, UnlockA(i)), i);
      assert l.counters[3 := l.counters[3] + 0] == l.counters;
    }
  }

  function Heads(coins: seq<bool>): nat {
    if coins == [] then 0 else Heads(coins[..|coins| - 1]) + Bit(coins[|coins| - 1])
  }

  /** A swapper on the way through the list exchanges exactly the pairs it draws for, one after
      the other, and counts each of them. */
  lemma {:induction false} SwapperWalks(can: Local -> bool, l: Local, coins: seq<bool>)
    requires Closed(can) && can(l) && l.th.pc == AtNode(0) && l.th.role.Swapper?
    requires |coins| < |l.cells| && |l.counters| == 4
    ensures can(Local(l.th.(pc := AtNode(|coins|)), Exchanged(l.cells, coins),
                            l.counters[3 := l.counters[3] + Heads(coins)]))
  {
    if coins == [] {
      assert l.counters[3 := l.counters[3] + 0] == l.counters;
    } else {
      var k := |coins| - 1;
      SwapperWalks(can, l, coins[..k]);
      var counted := l.counters[3 := l.counters[3] + Heads(coins[..k])];
      SwapperNode(can, Local(l.th.(pc := AtNode(k)), Exchanged(l.cells, coins[..k]), counted), k, coins[k]);
      assert counted[3 := counted[3] + Bit(coins[k])] == l.counters[3 := l.counters[3] + Heads(coins)];
    }
  }

  /** A whole pass of a swapper by itself, from its first lock back to it: any draws, and the
      pairs drawn for are exchanged one after the other, each counted in swap_attempts. */
  lemma SwapperPass(can: Local -> bool, l: Local, coins: seq<bool>)
    requires Closed(can) && can(l) && l.th.pc.Begin? && l.th.role.Swapper?
    requires |coins| + 1 == |l.cells| && |l.counters| == 4
    ensures can(Local(Thread(Swapper, Begin, [], 0), Exchanged(l.cells, coins),
                            l.counters[3 := l.counters[3] + Heads(coins)]))
  {
    Begins(can, l);
    var first := l.(th := Thread(Swapper, AtNode(0), [], 0));
    SwapperWalks(can, first, coins);
    var last := Local(first.th.(pc := AtNode(|coins|)), Exchanged(l.cells, coins),
                      l.counters[3 := l.counters[3] + Heads(coins)]);
    One(can, last, false, With(last, Begin));
  }

  // ----- passes of a scanner -----

  /** The first k pairs of neighbours of a list, in order. */
  function Neighbours(cells: seq<Cell>, k: nat): seq<(string, string)>
    requires k < |cells|
  {
    seq(k, i requires 0 <= i < k => (cells[i].str, cells[i + 1].str))
  }

  function ByLengthOf(kind: Kind): ((string, string)) -> bool {
    (p: (string, string)) => ByLength(kind, p)
  }

  lemma ScannerNode(can: Local -> bool, l: Local, i: nat)
    requires Closed(can) && can(l) && l.th.pc == AtNode(i) && i + 1 < |l.cells| && l.th.role.Scanner?
    ensures var p := (l.cells[i].str, l.cells[i + 1].str);
            can(l.(th := Thread(l.th.role, AtNode(i + 1), l.th.seen + [p],
                                      l.th.count + Bit(ByLength(l.th.role.kind, p)))))
  {
    LocksPair(can, l, i);
    var x := l.cells[i].str;
    One(can, With(l, ReadA(i)), false, With(With(l, ReadA(i)), ReadB(i, x)));
    var p := (x, l.cells[i + 1].str);
    var seen := Thread(l.th.role, UnlockA(i), l.th.seen + [p], l.th.count + Bit(ByLength(l.th.role.kind, p)));
    One(can, With(l, ReadB(i, x)), false, l.(th := seen));
    UnlocksPair(can, l.(th := seen), i);
  }

  function Scanned(l: Local, k: nat): Thread
    requires l.th.role.Scanner? && k < |l.cells|
  {
    var pairs := Neighbours(l.cells, k);
    Thread(l.th.role, AtNode(k), pairs, Count(pairs, ByLengthOf(l.th.role.kind)))
  }

  /** One more pair. */
  lemma ScannedNext(l: Local, k: nat)
    requires l.th.role.Scanner? && k + 1 < |l.cells|
    ensures var th, p := Scanned(l, k), (l.cells[k].str, l.cells[k + 1].str);
            Scanned(l, k + 1) ==
            Thread(l.th.role, AtNode(k + 1), th.seen + [p], th.count + Bit(ByLength(l.th.role.kind, p)))
  {
    var pairs, p := Neighbours(l.cells, k + 1), (l.cells[k].str, l.cells[k + 1].str);
    assert pairs[..k] == Neighbours(l.cells, k) && pairs[k] == p;
    assert pairs == Neighbours(l.cells, k) + [p];
  }

  lemma ScannerNext(can: Local -> bool, l: Local, k: nat)
    requires Closed(can) && l.th.role.Scanner? && k + 1 < |l.cells| && can(l.(th := Scanned(l, k)))
    ensures can(l.(th := Scanned(l, k + 1)))
  {
    ScannerNode(can, l.(th := Scanned(l, k)), k);
    ScannedNext(l, k);
  }

  lemma {:induction false} ScannerWalks(can: Local -> bool, l: Local, k: nat)
    requires Closed(can) && can(l) && l.th.role.Scanner? && k < |l.cells|
    requires l.th == Thread(l.th.role, AtNode(0), [], 0)
    ensures can(l.(th := Scanned(l, k)))
  {
    if k == 0 {
      assert l.(th := Scanned(l, 0)) == l;
    } else {
      ScannerWalks(can, l, k - 1);
      ScannerNext(can, l, k - 1);
    }
  }

  /** A whole pass of a scanner by itself: it compares every two neighbours, in order, its local
      counter is the number that stand as its kind asks, and of the four counters exactly its
      own grows by one. */
  lemma ScannerPass(can: Local -> bool, l: Local)
    requires Closed(can) && can(l) && l.th.pc.Begin? && l.th.role.Scanner?
    requires |l.counters| == 4 && |l.cells| >= 1
    ensures var k := OwnCounter(l.th.role.kind);
            can(Local(Scanned(l, |l.cells| - 1).(pc := Begin), l.cells, l.counters[k := l.counters[k] + 1]))
  {
    Begins(can, l);
    var first := l.(th := Thread(l.th.role, AtNode(0), [], 0));
    ScannerWalks(can, first, |l.cells| - 1);
    var last := l.(th := Scanned(l, |l.cells| - 1));
    var k := OwnCounter(l.th.role.kind);
    One(can, last, false, With(last, StatLock(k, 0)));
    Counts(can, With(last, StatLock(k, 0)), k, 0);
  }

  /** Said of the machine: from any state a schedule leads to in which t is alone and begins. */
  lemma SwapperAlone(s: State, t: nat, l: Local, coins: seq<bool>)
    requires Wellformed(s) && l.th.pc.Begin? && l.th.role.Swapper? && |coins| + 1 == |l.cells| && |l.counters| == 4
    requires CanOf(s, t)(l)
    ensures CanOf(s, t)(Local(Thread(Swapper, Begin, [], 0), Exchanged(l.cells, coins),
                              l.counters[3 := l.counters[3] + Heads(coins)]))
  {
    CanIsClosed(s, t);
    SwapperPass(CanOf(s, t), l, coins);
  }

  lemma ScannerAlone(s: State, t: nat, l: Local)
    requires Wellformed(s) && l.th.pc.Begin? && l.th.role.Scanner? && |l.counters| == 4 && |l.cells| >= 1
    requires CanOf(s, t)(l)
    ensures var k := OwnCounter(l.th.role.kind);
            CanOf(s, t)(Local(Scanned(l, |l.cells| - 1).(pc := Begin), l.cells, l.counters[k := l.counters[k] + 1]))
  {
    CanIsClosed(s, t);
    ScannerPass(CanOf(s, t), l);
  }

  // ----- every rearrangement -----

  /** Draws that exchange the pair at i and no other. */
  function Only(n: nat, i: nat): seq<bool> {
    seq(n, k => k == i)
  }

  lemma {:induction false} OneExchange(cells: seq<Cell>, i: nat, m: nat)
    requires i + 1 < |cells| && m < |cells|
    ensures Exchanged(cells, Only(|cells| - 1, i)[..m]) == if m <= i then cells else Exchange(cells, i)
  {
    if m > 0 {
      var coins := Only(|cells| - 1, i);
      assert coins[..m][..m - 1] == coins[..m - 1];
      OneExchange(cells, i, m - 1);
    }
  }

  /** The swapper t can have come back to the beginning of its loop with this list. */
  ghost predicate CanShow(s: State, t: nat, cells: seq<Cell>)
    requires Wellformed(s)
  {
    exists counters: seq<nat> :: |counters| == 4 && Can(s, t, Local(Thread(Swapper, Begin, [], 0), cells, counters))
  }

  lemma SwapsPair(s: State, t: nat, cells: seq<Cell>, i: nat)
    requires Wellformed(s) && CanShow(s, t, cells) && i + 1 < |cells|
    ensures CanShow(s, t, Exchange(cells, i))
  {
    var counters: seq<nat> :| |counters| == 4 && Can(s, t, Local(Thread(Swapper, Begin, [], 0), cells, counters));
    var coins := Only(|cells| - 1, i);
    OneExchange(cells, i, |coins|);
    assert coins[..|coins|] == coins;
    SwapperAlone(s, t, Local(Thread(Swapper, Begin, [], 0), cells, counters), coins);
    assert |counters[3 := counters[3] + Heads(coins)]| == 4;
  }

  /** Whatever list can be shown, so can it with two neighbours exchanged. */
  ghost predicate ClosedUnderExchange(shows: seq<Cell> -> bool) {
    forall cells, i: nat {:trigger SwapAt(cells, i)} :: i + 1 < |cells| && shows(cells) ==> shows(SwapAt(cells, i))
  }

  /** Bringing the string at p forward to k, one exchange after the other. */
  lemma {:induction false} BringsForward(shows: seq<Cell> -> bool, cells: seq<Cell>, k: nat, p: nat)
    returns (after: seq<Cell>)
    requires ClosedUnderExchange(shows) && shows(cells) && k <= p < |cells|
    ensures shows(after) && |after| == |cells| && multiset(after) == multiset(cells)
    ensures after[..k] == cells[..k] && after[k] == cells[p]
    decreases p
  {
    after := cells;
    if k < p {
      SwapKeepsMultiset(cells, p - 1);
      after := BringsForward(shows, SwapAt(cells, p - 1), k, p - 1);
    }
  }

  lemma SomewhereBehind<T>(a: seq<T>, b: seq<T>, k: nat) returns (p: nat)
    requires k < |a| == |b| && a[..k] == b[..k] && multiset(a) == multiset(b)
    ensures k <= p < |a| && a[p] == b[k]
  {
    assert a == a[..k] + a[k..] && b == b[..k] + b[k..];
    assert multiset(a) == multiset(a[..k]) + multiset(a[k..]);
    assert multiset(b) == multiset(b[..k]) + multiset(b[k..]);
    var x := b[k];
    assert b[k..][0] == x && multiset(b[k..])[x] >= 1;
    assert multiset(a)[x] == multiset(a[..k])[x] + multiset(a[k..])[x];
    assert multiset(b)[x] == multiset(b[..k])[x] + multiset(b[k..])[x];
    assert x in multiset(a[k..]);
    p :| 0 <= p < |a[k..]| && a[k..][p] == b[k];
    p := p + k;
  }

  lemma {:induction false} Rearranges(shows: seq<Cell> -> bool, cells: seq<Cell>, target: seq<Cell>, k: nat)
    requires ClosedUnderExchange(shows) && shows(cells) && multiset(cells) == multiset(target)
    requires k <= |cells| == |target| && cells[..k] == target[..k]
    ensures shows(target)
    decreases |target| - k
  {
    if k == |target| {
      assert cells[..k] == cells && target[..k] == target;
    } else {
      var p := SomewhereBehind(cells, target, k);
      var after := BringsForward(shows, cells, k, p);
      assert after[..k + 1] == after[..k] + [after[k]];
      assert target[..k + 1] == target[..k] + [target[k]];
      Rearranges(shows, after, target, k + 1);
    }
  }

  ghost function ShowsOf(s: State, t: nat): seq<Cell> -> bool
    requires Wellformed(s)
  {
    (cells: seq<Cell>) => CanShow(s, t, cells)
  }

  lemma ShowsIsClosed(s: State, t: nat)
    requires Wellformed(s)
    ensures ClosedUnderExchange(ShowsOf(s, t))
  {
    forall cells, i: nat | i + 1 < |cells| && ShowsOf(s, t)(cells) ensures ShowsOf(s, t)(SwapAt(cells, i)) {
      SwapsPair(s, t, cells, i);
      assert Exchange(cells, i) == SwapAt(cells, i);
    }
  }

  /** Some schedule leads to this list, with no swap under way at the end. */
  ghost predicate CanBecome(roles: seq<Role>, strings: seq<string>, target: seq<Cell>)
    requires strings != []
  {
    exists e :: Reaches(Start(roles, strings), e) && e.cells == target && NoSwapUnderway(e)
  }

  lemma SameLengths(a: seq<Cell>, b: seq<Cell>)
    requires multiset(a) == multiset(b)
    ensures |a| == |b|
  {
    assert |multiset(a)| == |a| && |multiset(b)| == |b|;
  }

  lemma SwapperReaches(roles: seq<Role>, strings: seq<string>, t: nat, target: seq<Cell>)
    requires strings != [] && t < |roles| && roles[t].Swapper?
    requires multiset(target) == multiset(Start(roles, strings).cells)
    ensures CanBecome(roles, strings, target)
  {
    var s := Start(roles, strings);
    ReachesSelf(s);
    SameLengths(target, s.cells);
    assert Sees(s, t, Local(Thread(Swapper, Begin, [], 0), s.cells, [0, 0, 0, 0]));
    assert CanShow(s, t, s.cells);
    ShowsIsClosed(s, t);
    Rearranges(ShowsOf(s, t), s.cells, target, 0);
    var counters: seq<nat> :| |counters| == 4 && Can(s, t, Local(Thread(Swapper, Begin, [], 0), target, counters));
    var e :| Reaches(s, e) && Sees(e, t, Local(Thread(Swapper, Begin, [], 0), target, counters));
    assert NoSwapUnderway(e);
  }

  /** Without a swapper nothing in the list ever changes. */
  lemma {:induction false} Unchanged(roles: seq<Role>, strings: seq<string>, schedule: seq<(nat, bool)>)
    requires strings != [] && forall t :: 0 <= t < |roles| ==> !roles[t].Swapper?
    ensures var s, e := Start(roles, strings), Exec(Start(roles, strings), schedule);
            && e.cells == s.cells
            && forall t :: 0 <= t < |e.threads| ==> !e.threads[t].role.Swapper?
  {
    if schedule != [] {
      var n := |schedule| - 1;
      Unchanged(roles, strings, schedule[..n]);
      var before, t := Exec(Start(roles, strings), schedule[..n]), schedule[n].0;
      if t < |before.threads| { assert GoodPc(|before.cells|, before.threads[t].role, before.threads[t].pc); }
    }
  }

  /** With a swapper among the threads every rearrangement of the list can come about, whatever
      the other threads are; without one, none but the list itself, so all of them only if it
      has one node. */
  lemma CanRearrangeIff(roles: seq<Role>, strings: seq<string>)
    requires strings != []
    ensures (forall target :: multiset(target) == multiset(Start(roles, strings).cells) ==>
               CanBecome(roles, strings, target)) <==>
            |strings| == 1 || exists t :: 0 <= t < |roles| && roles[t].Swapper?
  {
    var s := Start(roles, strings);
    if t :| 0 <= t < |roles| && roles[t].Swapper? {
      forall target | multiset(target) == multiset(s.cells) ensures CanBecome(roles, strings, target) {
        SwapperReaches(roles, strings, t, target);
      }
    } else if |strings| == 1 {
      forall target | multiset(target) == multiset(s.cells) ensures CanBecome(roles, strings, target) {
        OnlyOne(roles, strings, target);
      }
    } else {
      NeverSwapped(roles, strings);
      SwapKeepsMultiset(s.cells, 0);
    }
  }

  lemma OnlyOne(roles: seq<Role>, strings: seq<string>, target: seq<Cell>)
    requires |strings| == 1 && multiset(target) == multiset(Start(roles, strings).cells)
    ensures CanBecome(roles, strings, target)
  {
    var s := Start(roles, strings);
    ReachesSelf(s);
    SameLengths(target, s.cells);
    assert target[0] in multiset(s.cells);
    assert target == s.cells;
  }

  lemma NeverSwapped(roles: seq<Role>, strings: seq<string>)
    requires |strings| >= 2 && forall t :: 0 <= t < |roles| ==> !roles[t].Swapper?
    ensures !CanBecome(roles, strings, SwapAt(Start(roles, strings).cells, 0))
  {
    var s := Start(roles, strings);
    forall e | Reaches(s, e) ensures e.cells != SwapAt(s.cells, 0) {
      var schedule :| Exec(s, schedule) == e;
      Unchanged(roles, strings, schedule);
    }
  }
}
