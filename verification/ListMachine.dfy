/** The list with one lock per node as a step machine: any number of scanning threads of the
    three kinds, any number of swapping threads, and printers, on a list of any length. */
module ListMachine {
  import opened Wrappers
  import opened Inversions

  /** A buffer's contents. `id` is auxiliary: the position at which this text started. */
  datatype Cell = Cell(id: nat, str: string)

  datatype Kind = Increasing | Decreasing | Equal

  datatype Role = Scanner(kind: Kind) | Swapper | Printer

  datatype Pc =
    | Begin                          // about to lock first->sync
    | AtFirst                        // holds it; about to read list->first and unlock
    | AtNode(i: nat)                 // testing `current && current->next`
    | LockA(i: nat)                  // about to lock current
    | LockB(i: nat)                  // holds current; about to lock current->next
    | ReadA(i: nat)                  // both held; about to read the first string
    | ReadB(i: nat, x: string)       // about to read the second and compare
    | Toss(i: nat)                   // both held; about to call rand()
    | CopyTmp(i: nat)                // the three strncpy of list_swap
    | CopyA(i: nat, tmp: Cell)
    | CopyB(i: nat, tmp: Cell)
    | StatLock(k: nat, i: nat)       // about to lock statistics spinlock k
    | StatLoad(k: nat, i: nat)       // counter++ is a load ...
    | StatStore(k: nat, i: nat, r: nat)  // ... and a store
    | StatUnlock(k: nat, i: nat)
    | UnlockA(i: nat)
    | UnlockB(i: nat)
    | PrintLock(k: nat)              // holds spinlocks 0..k
    | Printing
    | PrintUnlock(k: nat)            // holds spinlocks k..4

  /** `seen` and `count` are a scanner's pairs and its local counter in this pass. */
  datatype Thread = Thread(role: Role, pc: Pc, seen: seq<(string, string)>, count: nat)

  /** Locks 0..n are the nodes', n..n+4 the spinlocks of the counters inc, dec, eq, swap.
      `text` and `done` are auxiliary: the list with unfinished swaps undone, and how many
      passes and swaps of each kind have been finished. */
  datatype State = State(
    threads: seq<Thread>, locks: seq<Option<nat>>, cells: seq<Cell>, counters: seq<nat>,
    text: seq<Cell>, done: seq<nat>)

  const SWAPS: nat := 3

  function KindIndex(kind: Kind): nat {
    match kind case Increasing => 0 case Decreasing => 1 case Equal => 2
  }

  predicate Matches(kind: Kind, x: string, y: string) {
    match kind
    case Increasing => |x| < |y|
    case Decreasing => |x| > |y|
    case Equal => |x| == |y|
  }

  // ----- locks and program counters -----

  /** The lock a thread is about to take. */
  function Wants(n: nat, pc: Pc): Option<nat> {
    match pc
    case Begin => Some(0)
    case LockA(i) => Some(i)
    case LockB(i) => Some(i + 1)
    case StatLock(k, _) => Some(n + k)
    case PrintLock(k) => Some(n + k)
    case _ => None
  }

  /** The lock a thread is about to release. */
  function Frees(n: nat, pc: Pc): Option<nat> {
    match pc
    case AtFirst => Some(0)
    case StatUnlock(k, _) => Some(n + k)
    case UnlockA(i) => Some(i)
    case UnlockB(i) => Some(i + 1)
    case PrintUnlock(k) => Some(n + k)
    case _ => None
  }

  predicate InPair(l: nat, i: nat) {
    l == i || l == i + 1
  }

  /** Exactly the locks a thread holds at each point of its program. */
  predicate Holds(n: nat, pc: Pc, l: nat) {
    match pc
    case AtFirst => l == 0
    case LockB(i) => l == i
    case ReadA(i) => InPair(l, i)
    case ReadB(i, _) => InPair(l, i)
    case Toss(i) => InPair(l, i)
    case CopyTmp(i) => InPair(l, i)
    case CopyA(i, _) => InPair(l, i)
    case CopyB(i, _) => InPair(l, i)
    case StatLock(k, i) => k == SWAPS && InPair(l, i)
    case StatLoad(k, i) => l == n + k || (k == SWAPS && InPair(l, i))
    case StatStore(k, i, _) => l == n + k || (k == SWAPS && InPair(l, i))
    case StatUnlock(k, i) => l == n + k || (k == SWAPS && InPair(l, i))
    case UnlockA(i) => InPair(l, i)
    case UnlockB(i) => l == i + 1
    case PrintLock(k) => n <= l < n + k
    case Printing => n <= l < n + 4
    case PrintUnlock(k) => n + k <= l < n + 4
    case _ => false
  }

  /** Program counters that make sense on a list of n nodes for a thread of this role. */
  predicate GoodPc(n: nat, role: Role, pc: Pc) {
    match pc
    case Begin => !role.Printer?
    case AtFirst => !role.Printer?
    case AtNode(i) => !role.Printer? && i < n
    case LockA(i) => !role.Printer? && i + 1 < n
    case LockB(i) => !role.Printer? && i + 1 < n
    case ReadA(i) => role.Scanner? && i + 1 < n
    case ReadB(i, _) => role.Scanner? && i + 1 < n
    case Toss(i) => role.Swapper? && i + 1 < n
    case CopyTmp(i) => role.Swapper? && i + 1 < n
    case CopyA(i, _) => role.Swapper? && i + 1 < n
    case CopyB(i, _) => role.Swapper? && i + 1 < n
    case StatLock(k, i) => StatPc(n, role, k, i)
    case StatLoad(k, i) => StatPc(n, role, k, i)
    case StatStore(k, i, _) => StatPc(n, role, k, i)
    case StatUnlock(k, i) => StatPc(n, role, k, i)
    case UnlockA(i) => !role.Printer? && i + 1 < n
    case UnlockB(i) => !role.Printer? && i + 1 < n
    case PrintLock(k) => role.Printer? && k < 4
    case Printing => role.Printer?
    case PrintUnlock(k) => role.Printer? && k < 4
  }

  predicate StatPc(n: nat, role: Role, k: nat, i: nat) {
    match role
    case Scanner(kind) => k == KindIndex(kind)
    case Swapper => k == SWAPS && i + 1 < n
    case Printer => false
  }

  // ----- one step -----

  predicate Wellformed(s: State) {
    && |s.cells| == |s.text| >= 1
    && |s.locks| == |s.cells| + 4
    && |s.counters| == |s.done| == 4
    && forall t :: 0 <= t < |s.threads| ==> GoodPc(|s.cells|, s.threads[t].role, s.threads[t].pc)
  }

  predicate Blocked(s: State, t: nat)
    requires Wellformed(s) && t < |s.threads|
  {
    var w := Wants(|s.cells|, s.threads[t].pc);
    w.Some? && s.locks[w.value].Some?
  }

  function NextPc(s: State, t: nat, coin: bool): Pc
    requires Wellformed(s) && t < |s.threads|
  {
    var n, th := |s.cells|, s.threads[t];
    assert GoodPc(n, th.role, th.pc);
    match th.pc
    case Begin => AtFirst
    case AtFirst => AtNode(0)
    case AtNode(i) =>
      if i + 1 < n then LockA(i)
      else if th.role.Scanner? then StatLock(KindIndex(th.role.kind), 0) else Begin
    case LockA(i) => LockB(i)
    case LockB(i) => if th.role.Scanner? then ReadA(i) else Toss(i)
    case ReadA(i) => ReadB(i, s.cells[i].str)
    case ReadB(i, _) => UnlockA(i)
    case Toss(i) => if coin then CopyTmp(i) else UnlockA(i)
    case CopyTmp(i) => CopyA(i, s.cells[i])
    case CopyA(i, tmp) => CopyB(i, tmp)
    case CopyB(i, _) => StatLock(SWAPS, i)
    case StatLock(k, i) => StatLoad(k, i)
    case StatLoad(k, i) => StatStore(k, i, s.counters[k])
    case StatStore(k, i, _) => StatUnlock(k, i)
    case StatUnlock(k, i) => if k == SWAPS then UnlockA(i) else Begin
    case UnlockA(i) => UnlockB(i)
    case UnlockB(i) => AtNode(i + 1)
    case PrintLock(k) => if k < 3 then PrintLock(k + 1) else Printing
    case Printing => PrintUnlock(0)
    case PrintUnlock(k) => if k < 3 then PrintUnlock(k + 1) else PrintLock(0)
  }

  function NextThread(s: State, t: nat, coin: bool): Thread
    requires Wellformed(s) && t < |s.threads|
  {
    var th := s.threads[t];
    assert GoodPc(|s.cells|, th.role, th.pc);
    var moved := th.(pc := NextPc(s, t, coin));
    match th.pc
    case AtFirst => moved.(seen := [], count := 0)
    case ReadB(i, x) =>
      var y := s.cells[i + 1].str;
      moved.(seen := th.seen + [(x, y)],
             count := if Matches(th.role.kind, x, y) then th.count + 1 else th.count)
    case _ => moved
  }

  function NextLocks(s: State, t: nat): seq<Option<nat>>
    requires Wellformed(s) && t < |s.threads|
  {
    var n, pc := |s.cells|, s.threads[t].pc;
    assert GoodPc(n, s.threads[t].role, pc);
    if Wants(n, pc).Some? then s.locks[Wants(n, pc).value := Some(t)]
    else if Frees(n, pc).Some? then s.locks[Frees(n, pc).value := None]
    else s.locks
  }

  function NextCells(s: State, t: nat): seq<Cell>
    requires Wellformed(s) && t < |s.threads|
  {
    var pc := s.threads[t].pc;
    assert GoodPc(|s.cells|, s.threads[t].role, pc);
    match pc
    case CopyA(i, _) => s.cells[i := s.cells[i + 1]]
    case CopyB(i, tmp) => s.cells[i + 1 := tmp]
    case _ => s.cells
  }

  function NextCounters(s: State, t: nat): seq<nat>
    requires Wellformed(s) && t < |s.threads|
  {
    var pc := s.threads[t].pc;
    assert GoodPc(|s.cells|, s.threads[t].role, pc);
    if pc.StatStore? then s.counters[pc.k := pc.r + 1] else s.counters
  }

  function NextText(s: State, t: nat): seq<Cell>
    requires Wellformed(s) && t < |s.threads|
  {
    var pc := s.threads[t].pc;
    assert GoodPc(|s.cells|, s.threads[t].role, pc);
    if pc.CopyB? then SwapAt(s.text, pc.i) else s.text
  }

  /** A pass is finished when its scanner leaves the list, a swap with its last strncpy. */
  function NextDone(s: State, t: nat): seq<nat>
    requires Wellformed(s) && t < |s.threads|
  {
    var th := s.threads[t];
    assert GoodPc(|s.cells|, th.role, th.pc);
    if th.pc.CopyB? then s.done[SWAPS := s.done[SWAPS] + 1]
    else if th.pc.AtNode? && th.pc.i + 1 == |s.cells| && th.role.Scanner? then
      var k := KindIndex(th.role.kind);
      s.done[k := s.done[k] + 1]
    else s.done
  }

  /** Thread t runs one step; a blocked thread stays where it is. */
  function Step(s: State, t: nat, coin: bool): State
    requires Wellformed(s)
  {
    if t >= |s.threads| || Blocked(s, t) then s
    else State(s.threads[t := NextThread(s, t, coin)], NextLocks(s, t), NextCells(s, t),
               NextCounters(s, t), NextText(s, t), NextDone(s, t))
  }

  predicate Walking(pc: Pc) {
    pc.Begin? || pc.AtFirst? || pc.AtNode? || pc.LockA? || pc.LockB? || pc.UnlockA? || pc.UnlockB?
  }

  predicate AtPair(pc: Pc) {
    pc.ReadA? || pc.ReadB? || pc.Toss? || pc.CopyTmp? || pc.CopyA? || pc.CopyB?
  }

  lemma WalkingGoes(s: State, t: nat, coin: bool)
    requires Wellformed(s) && t < |s.threads| && Walking(s.threads[t].pc)
    ensures GoodPc(|s.cells|, s.threads[t].role, NextPc(s, t, coin))
  {
    assert GoodPc(|s.cells|, s.threads[t].role, s.threads[t].pc);
  }

  lemma PairGoes(s: State, t: nat, coin: bool)
    requires Wellformed(s) && t < |s.threads| && AtPair(s.threads[t].pc)
    ensures GoodPc(|s.cells|, s.threads[t].role, NextPc(s, t, coin))
  {
    assert GoodPc(|s.cells|, s.threads[t].role, s.threads[t].pc);
  }

  lemma CounterGoes(s: State, t: nat, coin: bool)
    requires Wellformed(s) && t < |s.threads| && !Walking(s.threads[t].pc) && !AtPair(s.threads[t].pc)
    ensures GoodPc(|s.cells|, s.threads[t].role, NextPc(s, t, coin))
  {
    assert GoodPc(|s.cells|, s.threads[t].role, s.threads[t].pc);
  }

  lemma SizesKept(s: State, t: nat, coin: bool)
    requires Wellformed(s) && t < |s.threads|
    ensures |NextLocks(s, t)| == |s.locks| && |NextCells(s, t)| == |s.cells| && |NextText(s, t)| == |s.text|
    ensures |NextCounters(s, t)| == |NextDone(s, t)| == 4
    ensures NextThread(s, t, coin).role == s.threads[t].role && NextThread(s, t, coin).pc == NextPc(s, t, coin)
  {
    assert GoodPc(|s.cells|, s.threads[t].role, s.threads[t].pc);
  }

  lemma StepWellformed(s: State, t: nat, coin: bool)
    requires Wellformed(s)
    ensures Wellformed(Step(s, t, coin))
    ensures var s' := Step(s, t, coin);
            |s'.threads| == |s.threads| && |s'.cells| == |s.cells|
  {
    if t < |s.threads| && !Blocked(s, t) {
      SizesKept(s, t, coin);
      if Walking(s.threads[t].pc) { WalkingGoes(s, t, coin); }
      else if AtPair(s.threads[t].pc) { PairGoes(s, t, coin); }
      else { CounterGoes(s, t, coin); }
    }
  }

  /** Any interleaving, with any outcomes of rand(). */
  function Exec(s: State, schedule: seq<(nat, bool)>): (e: State)
    requires Wellformed(s)
    ensures Wellformed(e)
  {
    if schedule == [] then s else
    var before := Exec(s, schedule[..|schedule| - 1]);
    var (t, coin) := schedule[|schedule| - 1];
    StepWellformed(before, t, coin);
    Step(before, t, coin)
  }

  function FirstPc(role: Role): Pc {
    if role.Printer? then PrintLock(0) else Begin
  }

  /** Any threads on any non-empty list of strings. */
  function Start(roles: seq<Role>, strings: seq<string>): (s: State)
    requires strings != []
    ensures Wellformed(s)
  {
    var cells := seq(|strings|, i requires 0 <= i < |strings| => Cell(i, strings[i]));
    State(seq(|roles|, t requires 0 <= t < |roles| => Thread(roles[t], FirstPc(roles[t]), [], 0)),
          seq(|strings| + 4, _ => None), cells, [0, 0, 0, 0], cells, [0, 0, 0, 0])
  }
}
