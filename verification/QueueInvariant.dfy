/** What every step of the queue machine keeps, for every variant. */
module QueueInvariant {
  import opened Wrappers
  import opened Counting
  import opened QueueData
  import opened QueueMonitor

  // ----- the parts of the invariant -----

  /** The lock word says how many threads are inside: none or one. */
  predicate InvLock(s: State) {
    && Count(s.pcs, Holds) <= 1
    && (CanTake(s.variant, s.word) <==> Count(s.pcs, Holds) == 0)
    && (s.variant.Semaphore? ==> 0 <= s.word <= 1)
  }

  /** A pthread mutex is released by the thread that took it. */
  predicate InvOwner(s: State) {
    s.variant.CondVar? || s.variant.Mutex? ==>
      forall i :: 0 <= i < |s.pcs| && Holds(s.pcs[i]) ==> s.word == i + 1
  }

  predicate GoodPc(s: State, pc: Pc) {
    match pc
    case Testing(op) => !op.PrintStats?
    case Asleep(op) => !op.PrintStats? && s.variant.CondVar?
    case Woken(op) => !op.PrintStats? && s.variant.CondVar?
    case Acting(op) => !op.PrintStats? && !MustWait(s.q, op)
    case Signalling(op, ret) => !op.PrintStats? && s.variant.CondVar? && ret.Done?
    case Unlocking(op, ret) => (op.PrintStats? <==> ret.Line?) && (s.variant.CondVar? ==> !ret.Refused?)
    case Returning(op, ret) => (op.PrintStats? <==> ret.Line?) && (s.variant.CondVar? ==> !ret.Refused?)
    case _ => true
  }

  predicate InvShape(s: State) {
    && |s.q.items| <= s.q.maxCount
    && forall i :: 0 <= i < |s.pcs| ==> GoodPc(s, s.pcs[i])
  }

  /** Credits towards a sleeping getter: getters that will look at the queue before they
      sleep again, and an adder that is about to signal. */
  predicate GetterCredit(pc: Pc) {
    match pc
    case Woken(op) => op.Get?
    case Testing(op) => op.Get?
    case Acting(op) => op.Get?
    case Signalling(op, _) => op.Add?
    case _ => false
  }

  predicate AdderCredit(pc: Pc) {
    match pc
    case Woken(op) => op.Add?
    case Testing(op) => op.Add?
    case Acting(op) => op.Add?
    case Signalling(op, _) => op.Get?
    case _ => false
  }

  /** No lost wakeup, in the form that every step keeps. */
  predicate InvGetterWake(s: State) {
    Count(s.pcs, AsleepGetter) > 0 ==> |s.q.items| <= Count(s.pcs, GetterCredit)
  }

  predicate InvAdderWake(s: State) {
    Count(s.pcs, AsleepAdder) > 0 ==> s.q.maxCount - |s.q.items| <= Count(s.pcs, AdderCredit)
  }

  /** One committed operation against the sequential baseline: same return, next state. */
  function ApplyCommit(q: QueueState, op: Op, ret: Ret): Option<QueueState> {
    match op
    case Add(v) =>
      var (q1, ok) := BaselineAdd(q, v);
      if ret == (if ok then Done(v) else Refused) then Some(q1) else None
    case Get =>
      var (q1, r) := BaselineGet(q);
      if ret == (if r.Some? then Done(r.value) else Refused) then Some(q1) else None
    case PrintStats =>
      if ret.Line? && ret.size == |q.items| && ret.addCount == q.addCount && ret.getCount == q.getCount
         && ret.addAttempts >= q.addAttempts && ret.getAttempts >= q.getAttempts
      then Some(q) else None
  }

  /** The committed operations, run one after the other on the baseline queue. */
  function Replay(log: seq<Event>, q: QueueState): Option<QueueState> {
    if log == [] then Some(q) else
    var before := Replay(log[..|log| - 1], q);
    var e := log[|log| - 1];
    if before.Some? && e.Committed? then ApplyCommit(before.value, e.op, e.ret) else before
  }

  /** The shared queue is the baseline queue, except for the attempts already counted by
      threads whose operation has not been committed yet. */
  predicate Ahead(q: QueueState, base: QueueState, adds: nat, gets: nat) {
    q == base.(addAttempts := base.addAttempts + adds, getAttempts := base.getAttempts + gets)
  }

  predicate InvReplay(s: State) {
    var base := Replay(s.log, Fresh(s.q.maxCount));
    base.Some? && Ahead(s.q, base.value, Count(s.pcs, PendingAdd), Count(s.pcs, PendingGet))
  }

  /** What one thread's own events say it is doing. */
  datatype Phase = Out | InCall(op: Op) | Complete(op: Op, ret: Ret) | Broken

  function PhaseStep(p: Phase, e: Event): Phase {
    match e
    case Called(_, op) => if p.Out? then InCall(op) else Broken
    case Committed(_, op, ret) => if p == InCall(op) then Complete(op, ret) else Broken
    case Returned(_, op, ret) => if p == Complete(op, ret) then Out else Broken
  }

  function PhaseOf(log: seq<Event>, t: nat): Phase {
    if log == [] then Out else
    var before := PhaseOf(log[..|log| - 1], t);
    var e := log[|log| - 1];
    if e.t == t then PhaseStep(before, e) else before
  }

  function PcPhase(pc: Pc): Phase {
    match pc
    case Idle => Out
    case Locking(op) => InCall(op)
    case Entered(op) => InCall(op)
    case Testing(op) => InCall(op)
    case Asleep(op) => InCall(op)
    case Woken(op) => InCall(op)
    case Acting(op) => InCall(op)
    case Signalling(op, ret) => Complete(op, ret)
    case Unlocking(op, ret) => Complete(op, ret)
    case Returning(op, ret) => Complete(op, ret)
  }

  predicate InvPhase(s: State) {
    forall i :: 0 <= i < |s.pcs| ==> PhaseOf(s.log, i) == PcPhase(s.pcs[i])
  }

  ghost predicate Inv(s: State) {
    InvLock(s) && InvOwner(s) && InvShape(s) && InvGetterWake(s) && InvAdderWake(s) && InvReplay(s) && InvPhase(s)
  }

  // ----- how counts move -----

  /** The thread a step changes besides the one that runs: the waiter a signal wakes. */
  function Picked(s: State, a: Action): nat
    requires a.t < |s.pcs|
  {
    if a.Run? && Wakes(s, a.t, a.pick) then a.pick else a.t
  }

  lemma StepPcs(s: State, a: Action)
    requires a.t < |s.pcs|
    ensures var s' := Step(s, a);
            && |s'.pcs| == |s.pcs| && Picked(s, a) < |s.pcs|
            && s'.pcs == s.pcs[a.t := s'.pcs[a.t]][Picked(s, a) := s'.pcs[Picked(s, a)]]
            && s'.variant == s.variant && s'.q.maxCount == s.q.maxCount
  {
  }

  lemma CountAfter(s: State, a: Action, p: Pc -> bool)
    requires a.t < |s.pcs|
    ensures var s', w := Step(s, a), Picked(s, a);
            && |s'.pcs| == |s.pcs|
            && Count(s'.pcs, p) == Count(s.pcs, p) - Bit(p(s.pcs[a.t])) + Bit(p(s'.pcs[a.t]))
                                   + (if w == a.t then 0 else Bit(p(s'.pcs[w])) - Bit(p(s.pcs[w])))
  {
    StepPcs(s, a);
    var s', w := Step(s, a), Picked(s, a);
    CountUpdate(s.pcs, a.t, s'.pcs[a.t], p);
    CountUpdate(s.pcs[a.t := s'.pcs[a.t]], w, s'.pcs[w], p);
  }

  /** At most one thread is inside. */
  lemma Alone(s: State, i: nat, j: nat)
    requires InvLock(s) && i < |s.pcs| && j < |s.pcs| && Holds(s.pcs[i]) && Holds(s.pcs[j])
    ensures i == j
  {
    if i < j { CountAtLeastTwo(s.pcs, i, j, Holds); }
    if j < i { CountAtLeastTwo(s.pcs, j, i, Holds); }
  }

  // ----- each part is kept -----

  lemma LockKept(s: State, a: Action)
    requires InvLock(s) && InvShape(s)
    ensures InvLock(Step(s, a))
  {
    if a.t < |s.pcs| {
      CountAfter(s, a, Holds);
      if Holds(s.pcs[a.t]) { CountAtLeastOne(s.pcs, a.t, Holds); }
    }
  }

  lemma OwnerKept(s: State, a: Action)
    requires InvLock(s) && InvShape(s) && InvOwner(s)
    ensures InvOwner(Step(s, a))
  {
    if a.t < |s.pcs| {
      StepPcs(s, a);
      var s' := Step(s, a);
      forall i | 0 <= i < |s.pcs| && i != a.t && Holds(s'.pcs[i])
        ensures Holds(s.pcs[i]) && !Holds(s.pcs[a.t]) && !CanTake(s.variant, s.word)
      {
        CountAtLeastOne(s.pcs, i, Holds);
        if Holds(s.pcs[a.t]) { Alone(s, i, a.t); }
      }
    }
  }

  lemma ShapeKept(s: State, a: Action)
    requires Inv(s)
    ensures InvShape(Step(s, a))
  {
    var s' := Step(s, a);
    if a.t < |s.pcs| {
      StepPcs(s, a);
      forall i | 0 <= i < |s'.pcs| ensures GoodPc(s', s'.pcs[i]) {
        assert GoodPc(s, s.pcs[i]) && GoodPc(s, s.pcs[a.t]);
        if i != a.t && s.pcs[i].Acting? && Holds(s.pcs[a.t]) {
          Alone(s, i, a.t);
        }
      }
    }
  }

  lemma NobodyAsleep(s: State, op: Op)
    requires NobodyWaits(s, op)
    ensures op.Add? ==> Count(s.pcs, AsleepGetter) == 0
    ensures op.Get? ==> Count(s.pcs, AsleepAdder) == 0
  {
    CountNone(s.pcs, AsleepGetter);
    CountNone(s.pcs, AsleepAdder);
    assert forall i :: 0 <= i < |s.pcs| ==> !WaitsForSignalOf(s.pcs[i], op);
  }

  lemma NobodySleeps(s: State)
    requires InvShape(s) && !s.variant.CondVar?
    ensures Count(s.pcs, AsleepGetter) == Count(s.pcs, AsleepAdder) == 0
  {
    forall i | 0 <= i < |s.pcs| ensures !s.pcs[i].Asleep? {
      assert GoodPc(s, s.pcs[i]);
    }
    CountNone(s.pcs, AsleepGetter);
    CountNone(s.pcs, AsleepAdder);
  }

  lemma GetterWakeKept(s: State, a: Action)
    requires InvLock(s) && InvShape(s) && InvGetterWake(s)
    ensures InvGetterWake(Step(s, a))
  {
    if a.t < |s.pcs| {
      assert GoodPc(s, s.pcs[a.t]);
      CountAfter(s, a, AsleepGetter);
      if !s.variant.CondVar? { NobodySleeps(s); }
      CountAfter(s, a, GetterCredit);
      if s.pcs[a.t].Signalling? && NobodyWaits(s, s.pcs[a.t].op) { NobodyAsleep(s, s.pcs[a.t].op); }
    }
  }

  lemma AdderWakeKept(s: State, a: Action)
    requires InvLock(s) && InvShape(s) && InvAdderWake(s)
    ensures InvAdderWake(Step(s, a))
  {
    if a.t < |s.pcs| {
      assert GoodPc(s, s.pcs[a.t]);
      CountAfter(s, a, AsleepAdder);
      if !s.variant.CondVar? { NobodySleeps(s); }
      CountAfter(s, a, AdderCredit);
      if s.pcs[a.t].Signalling? && NobodyWaits(s, s.pcs[a.t].op) { NobodyAsleep(s, s.pcs[a.t].op); }
    }
  }

  lemma ReplayPush(log: seq<Event>, e: Event, q: QueueState)
    ensures Replay(log + [e], q) ==
            (var before := Replay(log, q);
             if before.Some? && e.Committed? then ApplyCommit(before.value, e.op, e.ret) else before)
  {
    assert (log + [e])[..|log|] == log;
  }

  lemma CommitAgrees(q: QueueState, base: QueueState, op: Op, adds: nat, gets: nat)
    requires Ahead(q, base, adds, gets) && |q.items| <= q.maxCount && !op.PrintStats?
    requires adds >= Bit(op.Add?) && gets >= Bit(op.Get?)
    ensures var ret := if MustWait(q, op) then Refused else ActRet(q, op);
            var q' := if MustWait(q, op) then q else if op.Add? then Append(q, op.v) else DropFirst(q);
            var base' := ApplyCommit(base, op, ret);
            base'.Some? && Ahead(q', base'.value, adds - Bit(op.Add?), gets - Bit(op.Get?))
  {
  }

  /** Steps that commit nothing: the threads between attempt and commit stay in step with
      the attempt counters. */
  lemma ReplayQuiet(s: State, a: Action)
    requires InvShape(s) && InvReplay(s) && a.t < |s.pcs| && Step(s, a).log == s.log
    ensures InvReplay(Step(s, a))
  {
    CountAfter(s, a, PendingAdd);
    CountAfter(s, a, PendingGet);
    assert GoodPc(s, s.pcs[a.t]);
  }

  predicate Refuses(s: State, a: Action)
    requires a.t < |s.pcs|
  {
    a.Run? && s.pcs[a.t].Testing? && MustWait(s.q, s.pcs[a.t].op)
  }

  lemma ReplayRefuse(s: State, a: Action)
    requires InvShape(s) && InvReplay(s) && a.t < |s.pcs| && Step(s, a).log != s.log && Refuses(s, a)
    ensures InvReplay(Step(s, a))
  {
    CountAfter(s, a, PendingAdd);
    CountAfter(s, a, PendingGet);
    var op, q0 := s.pcs[a.t].op, Fresh(s.q.maxCount);
    assert GoodPc(s, s.pcs[a.t]);
    ReplayPush(s.log, Committed(a.t, op, Refused), q0);
    CommitAgrees(s.q, Replay(s.log, q0).value, op, Count(s.pcs, PendingAdd), Count(s.pcs, PendingGet));
    assert Step(s, a).log == s.log + [Committed(a.t, op, Refused)];
  }

  lemma ReplayAct(s: State, a: Action)
    requires InvShape(s) && InvReplay(s) && a.t < |s.pcs| && a.Run? && s.pcs[a.t].Acting?
    ensures InvReplay(Step(s, a))
  {
    var op, q0 := s.pcs[a.t].op, Fresh(s.q.maxCount);
    assert GoodPc(s, s.pcs[a.t]);
    ActCounts(s, a);
    ReplayPush(s.log, Committed(a.t, op, ActRet(s.q, op)), q0);
    CommitAgrees(s.q, Replay(s.log, q0).value, op, Count(s.pcs, PendingAdd), Count(s.pcs, PendingGet));
  }

  /** Linking or unlinking takes its thread out of the pending ones. */
  lemma ActCounts(s: State, a: Action)
    requires a.t < |s.pcs| && a.Run? && s.pcs[a.t].Acting? && GoodPc(s, s.pcs[a.t])
    ensures var s', op := Step(s, a), s.pcs[a.t].op;
            && Count(s.pcs, PendingAdd) == Count(s'.pcs, PendingAdd) + Bit(op.Add?)
            && Count(s.pcs, PendingGet) == Count(s'.pcs, PendingGet) + Bit(op.Get?)
            && s'.log == s.log + [Committed(a.t, op, ActRet(s.q, op))]
            && s'.q == (if op.Add? then Append(s.q, op.v) else DropFirst(s.q))
  {
    CountAfter(s, a, PendingAdd);
    CountAfter(s, a, PendingGet);
  }

  lemma ReplayOther(s: State, a: Action)
    requires InvShape(s) && InvReplay(s) && a.t < |s.pcs| && Step(s, a).log != s.log
    requires !Refuses(s, a) && !(a.Run? && s.pcs[a.t].Acting?)
    ensures InvReplay(Step(s, a))
  {
    CountAfter(s, a, PendingAdd);
    CountAfter(s, a, PendingGet);
    assert GoodPc(s, s.pcs[a.t]);
    var s' := Step(s, a);
    var e := s'.log[|s.log|];
    assert s'.log == s.log + [e];
    ReplayPush(s.log, e, Fresh(s.q.maxCount));
  }

  lemma ReplayKept(s: State, a: Action)
    requires InvShape(s) && InvReplay(s)
    ensures InvReplay(Step(s, a))
  {
    if a.t < |s.pcs| {
      if Step(s, a).log == s.log { ReplayQuiet(s, a); }
      else if a.Run? && s.pcs[a.t].Acting? { ReplayAct(s, a); }
      else if Refuses(s, a) { ReplayRefuse(s, a); }
      else { ReplayOther(s, a); }
    }
  }

  lemma PhasePush(log: seq<Event>, e: Event, t: nat)
    ensures PhaseOf(log + [e], t) ==
            if e.t == t then PhaseStep(PhaseOf(log, t), e) else PhaseOf(log, t)
  {
    assert (log + [e])[..|log|] == log;
  }

  /** The event a step logs is the next one its thread's phase expects. */
  lemma MoverPhase(s: State, a: Action)
    requires InvShape(s) && a.t < |s.pcs|
    ensures var s' := Step(s, a);
            |s'.pcs| == |s.pcs| &&
            if s'.log == s.log then PcPhase(s'.pcs[a.t]) == PcPhase(s.pcs[a.t])
            else && |s'.log| > |s.log| && s'.log == s.log + [s'.log[|s.log|]]
                 && s'.log[|s.log|].t == a.t
                 && PcPhase(s'.pcs[a.t]) == PhaseStep(PcPhase(s.pcs[a.t]), s'.log[|s.log|])
  {
    assert GoodPc(s, s.pcs[a.t]);
  }

  /** No other thread's phase changes, not even that of the waiter a signal wakes. */
  lemma OtherPhase(s: State, a: Action, i: nat)
    requires a.t < |s.pcs| && i < |s.pcs| && i != a.t
    ensures |Step(s, a).pcs| == |s.pcs| && PcPhase(Step(s, a).pcs[i]) == PcPhase(s.pcs[i])
  {
    StepPcs(s, a);
  }

  lemma PhaseKept(s: State, a: Action)
    requires InvShape(s) && InvPhase(s)
    ensures InvPhase(Step(s, a))
  {
    if a.t < |s.pcs| {
      var s' := Step(s, a);
      MoverPhase(s, a);
      forall i | 0 <= i < |s'.pcs| ensures PhaseOf(s'.log, i) == PcPhase(s'.pcs[i]) {
        if i != a.t { OtherPhase(s, a, i); }
        if s'.log != s.log { PhasePush(s.log, s'.log[|s.log|], i); }
      }
    }
  }

  lemma StepKeepsInv(s: State, a: Action)
    requires Inv(s)
    ensures Inv(Step(s, a))
  {
    LockKept(s, a);
    OwnerKept(s, a);
    ShapeKept(s, a);
    GetterWakeKept(s, a);
    AdderWakeKept(s, a);
    ReplayKept(s, a);
    PhaseKept(s, a);
  }

  lemma StartInv(variant: Variant, threads: nat, maxCount: nat)
    ensures Inv(Start(variant, threads, maxCount))
  {
    var s := Start(variant, threads, maxCount);
    CountNone(s.pcs, Holds);
    CountNone(s.pcs, AsleepGetter);
    CountNone(s.pcs, AsleepAdder);
    CountNone(s.pcs, PendingAdd);
    CountNone(s.pcs, PendingGet);
  }

  ghost predicate Reachable(s: State) {
    exists variant: Variant, threads: nat, maxCount: nat, actions: seq<Action> ::
      s == Exec(Start(variant, threads, maxCount), actions)
  }

  lemma {:induction false} ExecKeepsInv(s: State, actions: seq<Action>)
    requires Inv(s)
    ensures Inv(Exec(s, actions))
    ensures var e := Exec(s, actions);
            e.variant == s.variant && |e.pcs| == |s.pcs| && e.q.maxCount == s.q.maxCount
  {
    if actions != [] {
      var n := |actions| - 1;
      ExecKeepsInv(s, actions[..n]);
      var mid := Exec(s, actions[..n]);
      StepKeepsInv(mid, actions[n]);
      if actions[n].t < |mid.pcs| { StepPcs(mid, actions[n]); }
    }
  }

  /** The invariant holds after every interleaving of any number of threads. */
  lemma AlwaysInv(s: State)
    requires Reachable(s)
    ensures Inv(s)
  {
    var variant: Variant, threads: nat, maxCount: nat, actions: seq<Action> :|
      s == Exec(Start(variant, threads, maxCount), actions);
    StartInv(variant, threads, maxCount);
    ExecKeepsInv(Start(variant, threads, maxCount), actions);
  }
}
