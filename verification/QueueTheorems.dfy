/** What the queue machine guarantees in every reachable state. */
module QueueTheorems {
  import opened Wrappers
  import opened Counting
  import opened QueueData
  import opened QueueMonitor
  import opened QueueInvariant

  predicate LockFree(s: State) {
    forall i :: 0 <= i < |s.pcs| ==> !Holds(s.pcs[i])
  }

  /** All four locks exclude: never two threads between lock and unlock, the lock word is
      free exactly when nobody is there, and an owned mutex is unlocked by its owner. */
  lemma MutualExclusion(s: State)
    requires Reachable(s)
    ensures forall i, j :: 0 <= i < |s.pcs| && 0 <= j < |s.pcs| && Holds(s.pcs[i]) && Holds(s.pcs[j]) ==> i == j
    ensures CanTake(s.variant, s.word) <==> LockFree(s)
    ensures s.variant.CondVar? || s.variant.Mutex? ==>
              forall i :: 0 <= i < |s.pcs| && Holds(s.pcs[i]) ==> s.word == i + 1
  {
    AlwaysInv(s);
    forall i, j | 0 <= i < |s.pcs| && 0 <= j < |s.pcs| && Holds(s.pcs[i]) && Holds(s.pcs[j]) ensures i == j {
      Alone(s, i, j);
    }
    CountNone(s.pcs, Holds);
  }

  // ----- no lost wakeup -----

  /** Whenever the mutex is free: while a getter sleeps, no more items wait than there are
      getters already woken; while an adder sleeps, no more room than woken adders. */
  lemma NoLostWakeup(s: State)
    requires Reachable(s) && LockFree(s)
    ensures (exists i :: 0 <= i < |s.pcs| && AsleepGetter(s.pcs[i])) ==>
              |s.q.items| <= Count(s.pcs, WokenGetter)
    ensures (exists i :: 0 <= i < |s.pcs| && AsleepAdder(s.pcs[i])) ==>
              s.q.maxCount - |s.q.items| <= Count(s.pcs, WokenAdder)
  {
    AlwaysInv(s);
    CountNone(s.pcs, AsleepGetter);
    CountNone(s.pcs, AsleepAdder);
    CountMonotone(s.pcs, GetterCredit, WokenGetter);
    CountMonotone(s.pcs, AdderCredit, WokenAdder);
  }

  predicate Resting(s: State) {
    forall i :: 0 <= i < |s.pcs| ==> s.pcs[i].Idle? || s.pcs[i].Asleep?
  }

  /** When nobody is on the move, getters sleep only on an empty queue and adders only on a
      full one; with room for one item they never sleep at the same time. */
  lemma RestingIsJustified(s: State)
    requires Reachable(s) && Resting(s)
    ensures (exists i :: 0 <= i < |s.pcs| && AsleepGetter(s.pcs[i])) ==> s.q.items == []
    ensures (exists i :: 0 <= i < |s.pcs| && AsleepAdder(s.pcs[i])) ==> Full(s.q)
    ensures s.q.maxCount >= 1 ==>
              !(exists i, j :: 0 <= i < |s.pcs| && 0 <= j < |s.pcs|
                               && AsleepGetter(s.pcs[i]) && AsleepAdder(s.pcs[j]))
  {
    AlwaysInv(s);
    NoLostWakeup(s);
    CountNone(s.pcs, WokenGetter);
    CountNone(s.pcs, WokenAdder);
  }

  lemma SignalCanRun(s: State, t: nat) returns (pick: nat)
    requires Inv(s) && t < |s.pcs| && s.pcs[t].Signalling?
    ensures Step(s, Run(t, pick)).pcs != s.pcs
  {
    pick := t;
    if !NobodyWaits(s, s.pcs[t].op) {
      pick :| 0 <= pick < |s.pcs| && WaitsForSignalOf(s.pcs[pick], s.pcs[t].op);
    }
    var s' := Step(s, Run(t, pick));
    assert s'.pcs[t] == Unlocking(s.pcs[t].op, s.pcs[t].ret);
  }

  /** The machine never gets stuck: some thread can run exactly when not all are resting. */
  lemma Progress(s: State)
    requires Reachable(s)
    ensures Resting(s) <==> forall t: nat, pick: nat :: Step(s, Run(t, pick)).pcs == s.pcs
  {
    AlwaysInv(s);
    if !Resting(s) {
      MutualExclusion(s);
      var t: nat :| t < |s.pcs| && !s.pcs[t].Idle? && !s.pcs[t].Asleep?;
      if !LockFree(s) {
        t :| 0 <= t < |s.pcs| && Holds(s.pcs[t]);
      }
      var pick := t;
      if s.pcs[t].Signalling? {
        pick := SignalCanRun(s, t);
      } else {
        assert GoodPc(s, s.pcs[t]);
        assert Step(s, Run(t, pick)).pcs[t] == NextPc(s, t) != s.pcs[t];
      }
      assert Step(s, Run(t, pick)).pcs != s.pcs;
    }
  }

  // ----- linearizability -----

  function Added(log: seq<Event>): seq<int> {
    if log == [] then [] else
    var e := log[|log| - 1];
    Added(log[..|log| - 1]) + (if e.Committed? && e.op.Add? && e.ret.Done? then [e.ret.val] else [])
  }

  function Gotten(log: seq<Event>): seq<int> {
    if log == [] then [] else
    var e := log[|log| - 1];
    Gotten(log[..|log| - 1]) + (if e.Committed? && e.op.Get? && e.ret.Done? then [e.ret.val] else [])
  }

  predicate Fifo(q: QueueState, added: seq<int>, gotten: seq<int>) {
    && added == gotten + q.items
    && q.addCount == |added| && q.getCount == |gotten|
    && |q.items| <= q.maxCount
  }

  lemma CommitIsFifo(q: QueueState, added: seq<int>, gotten: seq<int>, op: Op, ret: Ret)
    requires Fifo(q, added, gotten) && ApplyCommit(q, op, ret).Some?
    ensures ApplyCommit(q, op, ret).value.maxCount == q.maxCount
    ensures Fifo(ApplyCommit(q, op, ret).value,
                 added + (if op.Add? && ret.Done? then [ret.val] else []),
                 gotten + (if op.Get? && ret.Done? then [ret.val] else []))
  {
  }

  lemma {:induction false} ReplayIsFifo(log: seq<Event>, maxCount: nat)
    requires Replay(log, Fresh(maxCount)).Some?
    ensures var q := Replay(log, Fresh(maxCount)).value;
            Fifo(q, Added(log), Gotten(log)) && q.maxCount == maxCount
  {
    if log != [] {
      var before, e := log[..|log| - 1], log[|log| - 1];
      ReplayIsFifo(before, maxCount);
      if e.Committed? {
        CommitIsFifo(Replay(before, Fresh(maxCount)).value, Added(before), Gotten(before), e.op, e.ret);
      }
    }
  }

  /** Linearizability of every run: the operations in commit order are a run of the baseline
      queue with the same return values, ending in the same queue; each thread's events are
      call, commit, return with one operation and one result. So the values got, followed
      by the queue, are always the values added. */
  lemma Linearizable(s: State)
    requires Reachable(s)
    ensures var base := Replay(s.log, Fresh(s.q.maxCount));
            && base.Some?
            && base.value.items == s.q.items
            && base.value.addCount == s.q.addCount && base.value.getCount == s.q.getCount
    ensures forall t :: 0 <= t < |s.pcs| ==> PhaseOf(s.log, t) == PcPhase(s.pcs[t])
    ensures Added(s.log) == Gotten(s.log) + s.q.items
  {
    AlwaysInv(s);
    ReplayIsFifo(s.log, s.q.maxCount);
  }

  /** In the mutex, semaphore and spinlock variants, whenever the lock is free the shared
      queue, statistics included, is exactly the result of a sequential baseline run. */
  lemma SequentialWhenFree(s: State)
    requires Reachable(s) && LockFree(s) && !s.variant.CondVar?
    ensures Replay(s.log, Fresh(s.q.maxCount)) == Some(s.q)
  {
    AlwaysInv(s);
    forall i | 0 <= i < |s.pcs| ensures !PendingAdd(s.pcs[i]) && !PendingGet(s.pcs[i]) {
      assert GoodPc(s, s.pcs[i]);
    }
    CountNone(s.pcs, PendingAdd);
    CountNone(s.pcs, PendingGet);
  }

  predicate Quiet(log: seq<Event>, t: nat, lo: nat, hi: nat)
    requires hi <= |log|
  {
    forall k :: lo <= k < hi ==> log[k].t != t
  }

  /** Every return was committed once, after its call, with the value it returns. */
  lemma {:induction false} PhaseHistory(log: seq<Event>, t: nat) returns (call: nat, commit: nat)
    requires !PhaseOf(log, t).Broken? && !PhaseOf(log, t).Out?
    ensures var p := PhaseOf(log, t);
            && call < |log| && log[call] == Called(t, p.op)
            && (p.InCall? ==> Quiet(log, t, call + 1, |log|))
            && (p.Complete? ==> call < commit < |log| && log[commit] == Committed(t, p.op, p.ret)
                                && Quiet(log, t, call + 1, commit) && Quiet(log, t, commit + 1, |log|))
  {
    var n := |log| - 1;
    var before := PhaseOf(log[..n], t);
    if log[n].t == t && log[n].Called? {
      call, commit := n, n;
    } else {
      call, commit := PhaseHistory(log[..n], t);
      if log[n].t == t { commit := n; }
      assert forall k :: 0 <= k < n ==> log[..n][k] == log[k];
    }
  }

  lemma {:induction false} PrefixNotBroken(log: seq<Event>, n: nat, t: nat)
    requires n <= |log| && !PhaseOf(log, t).Broken?
    ensures !PhaseOf(log[..n], t).Broken?
    decreases |log|
  {
    if n < |log| {
      assert log[..|log| - 1][..n] == log[..n];
      PrefixNotBroken(log[..|log| - 1], n, t);
    } else {
      assert log[..n] == log;
    }
  }

  /** Each operation takes effect between its call and its return: for every return in any
      run there is exactly that thread's call, then its commit with the same result, and
      nothing else of that thread in between. */
  lemma CommitInsideCall(s: State, k: nat) returns (call: nat, commit: nat)
    requires Reachable(s) && k < |s.log| && s.log[k].Returned? && s.log[k].t < |s.pcs|
    ensures var e := s.log[k];
            && call < commit < k
            && s.log[call] == Called(e.t, e.op) && s.log[commit] == Committed(e.t, e.op, e.ret)
            && Quiet(s.log, e.t, call + 1, commit) && Quiet(s.log, e.t, commit + 1, k)
  {
    AlwaysInv(s);
    var t := s.log[k].t;
    assert PhaseOf(s.log, t) == PcPhase(s.pcs[t]);
    PrefixNotBroken(s.log, k + 1, t);
    PrefixNotBroken(s.log, k, t);
    assert s.log[..k + 1][..k] == s.log[..k];
    call, commit := PhaseHistory(s.log[..k], t);
  }

  // ----- statistics -----

  predicate RefusedAdd(e: Event) { e.Committed? && e.op.Add? && e.ret.Refused? }
  predicate RefusedGet(e: Event) { e.Committed? && e.op.Get? && e.ret.Refused? }

  lemma {:induction false} ReplayAttempts(log: seq<Event>, maxCount: nat)
    requires Replay(log, Fresh(maxCount)).Some?
    ensures var q := Replay(log, Fresh(maxCount)).value;
            && q.addAttempts == q.addCount + Count(log, RefusedAdd)
            && q.getAttempts == q.getCount + Count(log, RefusedGet)
  {
    if log != [] {
      ReplayAttempts(log[..|log| - 1], maxCount);
    }
  }

  predicate WaitingAdder(pc: Pc) { AsleepAdder(pc) || WokenAdder(pc) }
  predicate WaitingGetter(pc: Pc) { AsleepGetter(pc) || WokenGetter(pc) }

  /** The four statistics counters whenever the lock is free, in every variant: successes
      differ by the size; attempts exceed successes by the refused calls so far plus the
      callers asleep or woken. */
  lemma Statistics(s: State)
    requires Reachable(s) && LockFree(s)
    ensures s.q.addCount - s.q.getCount == |s.q.items| <= s.q.maxCount
    ensures s.q.addCount == |Added(s.log)| && s.q.getCount == |Gotten(s.log)|
    ensures s.q.addAttempts - s.q.addCount == Count(s.log, RefusedAdd) + Count(s.pcs, WaitingAdder)
    ensures s.q.getAttempts - s.q.getCount == Count(s.log, RefusedGet) + Count(s.pcs, WaitingGetter)
  {
    AlwaysInv(s);
    ReplayIsFifo(s.log, s.q.maxCount);
    ReplayAttempts(s.log, s.q.maxCount);
    CountMonotone(s.pcs, PendingAdd, WaitingAdder);
    CountMonotone(s.pcs, WaitingAdder, PendingAdd);
    CountMonotone(s.pcs, PendingGet, WaitingGetter);
    CountMonotone(s.pcs, WaitingGetter, PendingGet);
  }

  lemma NoRefusalStep(s: State, a: Action)
    requires InvShape(s) && s.variant.CondVar?
    ensures var s' := Step(s, a);
            && Count(s'.log, RefusedAdd) == Count(s.log, RefusedAdd)
            && Count(s'.log, RefusedGet) == Count(s.log, RefusedGet)
  {
    var s' := Step(s, a);
    if a.t < |s.pcs| && s'.log != s.log {
      MoverPhase(s, a);
      assert GoodPc(s, s.pcs[a.t]);
      assert s'.log[..|s'.log| - 1] == s.log;
    }
  }

  lemma {:induction false} NoRefusalYet(s: State, actions: seq<Action>)
    requires Inv(s) && s.variant.CondVar? && Count(s.log, RefusedAdd) == Count(s.log, RefusedGet) == 0
    ensures var e := Exec(s, actions); Count(e.log, RefusedAdd) == Count(e.log, RefusedGet) == 0
  {
    if actions != [] {
      var n := |actions| - 1;
      NoRefusalYet(s, actions[..n]);
      ExecKeepsInv(s, actions[..n]);
      NoRefusalStep(Exec(s, actions[..n]), actions[n]);
    }
  }

  /** With condition variables no call is ever refused; in the other variants none waits. */
  lemma RefuseOrWait(s: State)
    requires Reachable(s)
    ensures s.variant.CondVar? ==> Count(s.log, RefusedAdd) == Count(s.log, RefusedGet) == 0
    ensures !s.variant.CondVar? ==> Count(s.pcs, WaitingAdder) == Count(s.pcs, WaitingGetter) == 0
  {
    AlwaysInv(s);
    var variant: Variant, threads: nat, maxCount: nat, actions: seq<Action> :|
      s == Exec(Start(variant, threads, maxCount), actions);
    StartInv(variant, threads, maxCount);
    ExecKeepsInv(Start(variant, threads, maxCount), actions);
    if variant.CondVar? {
      NoRefusalYet(Start(variant, threads, maxCount), actions);
    } else {
      NobodyWaitsWithout(s);
    }
  }

  /** In the non-blocking variants no thread is ever asleep or woken. */
  lemma NobodyWaitsWithout(s: State)
    requires InvShape(s) && !s.variant.CondVar?
    ensures Count(s.pcs, WaitingAdder) == Count(s.pcs, WaitingGetter) == 0
  {
    forall i | 0 <= i < |s.pcs| ensures !s.pcs[i].Asleep? && !s.pcs[i].Woken? {
      assert GoodPc(s, s.pcs[i]);
    }
    CountNone(s.pcs, WaitingAdder);
    CountNone(s.pcs, WaitingGetter);
  }

  /** What queue_print_stats prints, in terms of the operations committed before it and of the
      callers waiting at that moment. */
  predicate Prints(log: seq<Event>, adders: nat, getters: nat, ret: Ret) {
    && ret.Line?
    && ret.size == |Added(log)| - |Gotten(log)|
    && ret.addCount == |Added(log)| && ret.getCount == |Gotten(log)|
    && ret.addAttempts == |Added(log)| + Count(log, RefusedAdd) + adders
    && ret.getAttempts == |Gotten(log)| + Count(log, RefusedGet) + getters
  }

  /** While somebody is about to print, everybody else is out, asleep, woken or at the lock. */
  lemma OnlyWaiting(s: State, t: nat)
    requires Inv(s) && t < |s.pcs| && s.pcs[t] == Entered(PrintStats)
    ensures Count(s.pcs, PendingAdd) == Count(s.pcs, WaitingAdder)
    ensures Count(s.pcs, PendingGet) == Count(s.pcs, WaitingGetter)
  {
    forall i | 0 <= i < |s.pcs| ensures !s.pcs[i].Testing? && !s.pcs[i].Acting? {
      if Holds(s.pcs[i]) { Alone(s, i, t); }
    }
    CountMonotone(s.pcs, PendingAdd, WaitingAdder);
    CountMonotone(s.pcs, WaitingAdder, PendingAdd);
    CountMonotone(s.pcs, PendingGet, WaitingGetter);
    CountMonotone(s.pcs, WaitingGetter, PendingGet);
  }

  lemma PrintStep(s: State, a: Action)
    requires Inv(s) && |Step(s, a).log| == |s.log| + 1
    requires Step(s, a).log[|s.log|].Committed? && Step(s, a).log[|s.log|].op.PrintStats?
    ensures Step(s, a).log[..|s.log|] == s.log
    ensures Prints(s.log, Count(s.pcs, WaitingAdder), Count(s.pcs, WaitingGetter), Step(s, a).log[|s.log|].ret)
  {
    assert GoodPc(s, s.pcs[a.t]);
    assert s.pcs[a.t] == Entered(PrintStats);
    OnlyWaiting(s, a.t);
    ReplayIsFifo(s.log, s.q.maxCount);
    ReplayAttempts(s.log, s.q.maxCount);
  }

  lemma LogGrows(s: State, a: Action)
    ensures s.log == Step(s, a).log || (|Step(s, a).log| == |s.log| + 1 && Step(s, a).log[..|s.log|] == s.log)
  {
  }

  /** The moment in a run at which event k was logged. */
  lemma {:induction false} Logged(s: State, actions: seq<Action>, k: nat) returns (m: nat)
    requires |s.log| <= k < |Exec(s, actions).log|
    ensures m < |actions| && |Exec(s, actions[..m]).log| == k
    ensures |Step(Exec(s, actions[..m]), actions[m]).log| == k + 1
    ensures Step(Exec(s, actions[..m]), actions[m]).log == Exec(s, actions).log[..k + 1]
  {
    var n := |actions| - 1;
    var before := Exec(s, actions[..n]);
    LogGrows(before, actions[n]);
    if k < |before.log| {
      m := Logged(s, actions[..n], k);
      assert actions[..n][..m] == actions[..m];
      assert Exec(s, actions).log[..k + 1] == before.log[..k + 1];
    } else {
      m := n;
      assert Exec(s, actions).log[..k + 1] == Exec(s, actions).log;
    }
  }

  /** Every line printed in any run: size and successes are those of the operations committed
      before it, attempts exceed the successes by the refusals before it and the callers
      waiting at that moment, of whom there are none in the non-blocking variants. */
  lemma PrintedLine(variant: Variant, threads: nat, maxCount: nat, actions: seq<Action>, k: nat) returns (m: nat)
    requires var log := Exec(Start(variant, threads, maxCount), actions).log;
             k < |log| && log[k].Committed? && log[k].op.PrintStats?
    ensures m < |actions|
    ensures var s, log := Exec(Start(variant, threads, maxCount), actions[..m]),
                          Exec(Start(variant, threads, maxCount), actions).log;
            && s.log == log[..k]
            && Prints(log[..k], Count(s.pcs, WaitingAdder), Count(s.pcs, WaitingGetter), log[k].ret)
            && (!variant.CondVar? ==> Prints(log[..k], 0, 0, log[k].ret))
  {
    var start := Start(variant, threads, maxCount);
    m := Logged(start, actions, k);
    var s := Exec(start, actions[..m]);
    StartInv(variant, threads, maxCount);
    ExecKeepsInv(start, actions[..m]);
    assert Step(s, actions[m]).log[k] == Exec(start, actions).log[k];
    PrintStep(s, actions[m]);
    assert s.log == Exec(start, actions).log[..k + 1][..k];
    VariantKept(start, actions[..m]);
    if !variant.CondVar? { NobodyWaitsWithout(s); }
  }

  lemma {:induction false} VariantKept(s: State, actions: seq<Action>)
    ensures Exec(s, actions).variant == s.variant
  {
    if actions != [] { VariantKept(s, actions[..|actions| - 1]); }
  }

  /** The two C assertions and what they stand for. The count that C keeps is the successful
      adds minus the successful gets: it is between 0 and the capacity at every attempt, and
      a thread about to unlink finds it positive, one about to link below the capacity. */
  lemma AssertionsHold(s: State, t: nat)
    requires Reachable(s) && t < |s.pcs|
    ensures 0 <= s.q.addCount - s.q.getCount <= s.q.maxCount
    ensures s.pcs[t].Acting? && s.pcs[t].op.Get? ==> s.q.addCount - s.q.getCount >= 1 && s.q.items != []
    ensures s.pcs[t].Acting? && s.pcs[t].op.Add? ==> s.q.addCount - s.q.getCount < s.q.maxCount
  {
    AlwaysInv(s);
    ReplayIsFifo(s.log, s.q.maxCount);
    assert GoodPc(s, s.pcs[t]);
  }
}
