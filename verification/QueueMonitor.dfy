/** The four locked queues as one step machine: any number of threads, each calling
    `queue_add`, `queue_get` or `queue_print_stats` any number of times. Between two steps
    of one thread any other thread may run, a waiter may wake spuriously, and a thread
    that has just arrived may take the lock before a woken one. */
module QueueMonitor {
  import opened QueueData

  /** The directories cond, mutex, sem and spinlock. Only the first one blocks. */
  datatype Variant = CondVar | Mutex | Semaphore | SpinLock

  datatype Op = Add(v: int) | Get | PrintStats

  datatype Ret =
    | Done(val: int)            // the value added, or the value removed
    | Refused                   // return code 0 of the non-blocking variants
    | Line(size: int, addAttempts: int, getAttempts: int, addCount: int, getCount: int)

  datatype Pc =
    | Idle
    | Locking(op: Op)           // about to take the lock
    | Entered(op: Op)           // lock held; about to count the attempt, or to print
    | Testing(op: Op)           // lock held; about to test for full or empty
    | Asleep(op: Op)            // in pthread_cond_wait, lock released
    | Woken(op: Op)             // signalled or woken spuriously; must retake the lock
    | Acting(op: Op)            // lock held, test passed; about to link or unlink a node
    | Signalling(op: Op, ret: Ret)  // lock held; about to signal the other condition
    | Unlocking(op: Op, ret: Ret)   // lock held; about to release it
    | Returning(op: Op, ret: Ret)   // lock released; about to return

  datatype Event =
    | Called(t: nat, op: Op)
    | Committed(t: nat, op: Op, ret: Ret)
    | Returned(t: nat, op: Op, ret: Ret)

  datatype State = State(variant: Variant, pcs: seq<Pc>, word: int, q: QueueState, log: seq<Event>)

  datatype Action =
    | Call(t: nat, op: Op)
    | Run(t: nat, pick: nat)    // `pick` is the waiter a signal wakes, when there is one
    | Spurious(t: nat)

  // ----- the lock word -----

  function FreeWord(v: Variant): int {
    if v.Semaphore? then 1 else 0
  }

  predicate CanTake(v: Variant, word: int) {
    if v.Semaphore? then word > 0 else word == 0
  }

  function Take(v: Variant, word: int, t: nat): int {
    match v
    case Semaphore => word - 1
    case SpinLock => 1
    case _ => t + 1             // a pthread mutex records its owner
  }

  function Release(v: Variant, word: int): int {
    if v.Semaphore? then word + 1 else 0
  }

  // ----- one step -----

  predicate MustWait(q: QueueState, op: Op) {
    match op
    case Add(_) => Full(q)
    case Get => q.items == []
    case PrintStats => false
  }

  function CountAttempt(q: QueueState, op: Op): QueueState {
    match op
    case Add(_) => CountAddAttempt(q)
    case Get => CountGetAttempt(q)
    case PrintStats => q
  }

  function StatsLine(q: QueueState): Ret {
    Line(|q.items|, q.addAttempts, q.getAttempts, q.addCount, q.getCount)
  }

  /** The pthread_cond_t that an operation of this kind signals: its sleepers. */
  predicate WaitsForSignalOf(pc: Pc, op: Op) {
    (op.Add? && pc == Asleep(Get)) || (op.Get? && pc.Asleep? && pc.op.Add?)
  }

  predicate NobodyWaits(s: State, op: Op) {
    forall i :: 0 <= i < |s.pcs| ==> !WaitsForSignalOf(s.pcs[i], op)
  }

  /** A thread that can run now: it is inside a call, awake, and finds the lock free if it
      needs it. (A thread at Acting never finds the queue wrong; see GoodPc.) */
  predicate Ready(s: State, t: nat)
    requires t < |s.pcs|
  {
    match s.pcs[t]
    case Idle => false
    case Asleep(_) => false
    case Locking(_) => CanTake(s.variant, s.word)
    case Woken(_) => CanTake(s.variant, s.word)
    case Acting(op) => !op.PrintStats? && !MustWait(s.q, op)
    case _ => true
  }

  /** What the operation returns when its node has been linked or unlinked. */
  function ActRet(q: QueueState, op: Op): Ret {
    if op.Add? then Done(op.v) else if q.items != [] then Done(q.items[0]) else Refused
  }

  function NextPc(s: State, t: nat): Pc
    requires t < |s.pcs|
  {
    match s.pcs[t]
    case Locking(op) => Entered(op)
    case Entered(op) => if op.PrintStats? then Unlocking(op, StatsLine(s.q)) else Testing(op)
    case Testing(op) =>
      if !MustWait(s.q, op) then Acting(op)
      else if s.variant.CondVar? then Asleep(op) else Unlocking(op, Refused)
    case Woken(op) => Testing(op)
    case Acting(op) =>
      if s.variant.CondVar? then Signalling(op, ActRet(s.q, op)) else Unlocking(op, ActRet(s.q, op))
    case Signalling(op, ret) => Unlocking(op, ret)
    case Unlocking(op, ret) => Returning(op, ret)
    case pc => Idle
  }

  function NextWord(s: State, t: nat): int
    requires t < |s.pcs|
  {
    match s.pcs[t]
    case Locking(_) => Take(s.variant, s.word, t)
    case Woken(_) => Take(s.variant, s.word, t)
    case Testing(op) =>
      if MustWait(s.q, op) && s.variant.CondVar? then Release(s.variant, s.word) else s.word
    case Unlocking(_, _) => Release(s.variant, s.word)
    case _ => s.word
  }

  function NextQueue(s: State, t: nat): QueueState
    requires t < |s.pcs|
  {
    match s.pcs[t]
    case Entered(op) => CountAttempt(s.q, op)
    case Acting(op) =>
      if op.Add? then Append(s.q, op.v) else if s.q.items != [] then DropFirst(s.q) else s.q
    case _ => s.q
  }

  function NextLog(s: State, t: nat): seq<Event>
    requires t < |s.pcs|
  {
    match s.pcs[t]
    case Entered(op) => if op.PrintStats? then s.log + [Committed(t, op, StatsLine(s.q))] else s.log
    case Testing(op) =>
      if MustWait(s.q, op) && !s.variant.CondVar? then s.log + [Committed(t, op, Refused)] else s.log
    case Acting(op) => s.log + [Committed(t, op, ActRet(s.q, op))]
    case Returning(op, ret) => s.log + [Returned(t, op, ret)]
    case _ => s.log
  }

  /** pthread_cond_signal wakes one sleeper of the other condition, if there is one. */
  predicate Wakes(s: State, t: nat, pick: nat)
    requires t < |s.pcs|
  {
    s.pcs[t].Signalling? && pick < |s.pcs| && pick != t && WaitsForSignalOf(s.pcs[pick], s.pcs[t].op)
  }

  function RunStep(s: State, t: nat, pick: nat): State
    requires t < |s.pcs|
  {
    if !Ready(s, t) then s
    else if Wakes(s, t, pick) then
      s.(pcs := s.pcs[t := NextPc(s, t)][pick := Woken(s.pcs[pick].op)])
    else if s.pcs[t].Signalling? && !NobodyWaits(s, s.pcs[t].op) then s
    else
      State(s.variant, s.pcs[t := NextPc(s, t)], NextWord(s, t), NextQueue(s, t), NextLog(s, t))
  }

  function Step(s: State, a: Action): State {
    if a.t >= |s.pcs| then s else
    match a
    case Call(t, op) =>
      if s.pcs[t].Idle?
      then s.(pcs := s.pcs[t := Locking(op)], log := s.log + [Called(t, op)]) else s
    case Run(t, pick) => RunStep(s, t, pick)
    case Spurious(t) =>
      if s.pcs[t].Asleep? then s.(pcs := s.pcs[t := Woken(s.pcs[t].op)]) else s
  }

  function Start(variant: Variant, threads: nat, maxCount: nat): State {
    State(variant, seq(threads, _ => Idle), FreeWord(variant), Fresh(maxCount), [])
  }

  /** Any interleaving: actions that are not possible when their turn comes do nothing. */
  function Exec(s: State, actions: seq<Action>): State {
    if actions == [] then s else Step(Exec(s, actions[..|actions| - 1]), actions[|actions| - 1])
  }

  // ----- who is where -----

  predicate Holds(pc: Pc) {
    pc.Entered? || pc.Testing? || pc.Acting? || pc.Signalling? || pc.Unlocking?
  }

  /** Past the attempt counter and not yet committed. */
  predicate PendingAdd(pc: Pc) {
    (pc.Testing? || pc.Asleep? || pc.Woken? || pc.Acting?) && pc.op.Add?
  }

  predicate PendingGet(pc: Pc) {
    (pc.Testing? || pc.Asleep? || pc.Woken? || pc.Acting?) && pc.op.Get?
  }

  predicate AsleepAdder(pc: Pc) { pc.Asleep? && pc.op.Add? }
  predicate AsleepGetter(pc: Pc) { pc.Asleep? && pc.op.Get? }
  predicate WokenAdder(pc: Pc) { pc.Woken? && pc.op.Add? }
  predicate WokenGetter(pc: Pc) { pc.Woken? && pc.op.Get? }

}
