/** What the queue machine can do: whenever the lock is free, an idle thread can carry out any
    operation by itself, with the result of the sequential queue. */
module QueueRuns {
  import opened Counting
  import opened QueueData
  import opened QueueMonitor
  import opened QueueInvariant
  import opened QueueTheorems

  predicate OnlyRuns(actions: seq<Action>, t: nat) {
    forall i :: 0 <= i < |actions| ==> actions[i].Run? && actions[i].t == t
  }

  /** No step of the run is the return of thread t. */
  predicate StaysInCall(s: State, actions: seq<Action>, t: nat)
    requires t < |s.pcs|
  {
    forall n :: 0 <= n < |actions| ==>
      t < |Exec(s, actions[..n]).pcs| && !Exec(s, actions[..n]).pcs[t].Returning?
  }

  /** Thread t alone leads from s to e without returning from its call. */
  ghost predicate Works(s: State, e: State, t: nat) {
    t < |s.pcs| && exists actions :: OnlyRuns(actions, t) && StaysInCall(s, actions, t) && Exec(s, actions) == e
  }

  lemma WorksSelf(s: State, t: nat)
    requires t < |s.pcs|
    ensures Works(s, s, t)
  {
    assert OnlyRuns([], t) && StaysInCall(s, [], t) && Exec(s, []) == s;
  }

  lemma WorksOn(s: State, now: State, t: nat, pick: nat)
    requires Works(s, now, t) && t < |now.pcs| && !now.pcs[t].Returning?
    ensures Works(s, Step(now, Run(t, pick)), t)
  {
    var actions :| OnlyRuns(actions, t) && StaysInCall(s, actions, t) && Exec(s, actions) == now;
    var more := actions + [Run(t, pick)];
    assert more[..|actions|] == actions;
    forall n | 0 <= n < |more| ensures t < |Exec(s, more[..n]).pcs| && !Exec(s, more[..n]).pcs[t].Returning? {
      if n < |actions| { assert more[..n] == actions[..n]; }
    }
    assert OnlyRuns(more, t) && StaysInCall(s, more, t) && Exec(s, more) == Step(now, Run(t, pick));
  }

  /** Wherever thread t can get without returning, it can also get one step further. */
  ghost predicate Going(works: State -> bool, t: nat) {
    forall now, pick {:trigger Step(now, Run(t, pick))} ::
      works(now) && t < |now.pcs| && !now.pcs[t].Returning? ==> works(Step(now, Run(t, pick)))
  }

  ghost function WorksFrom(s: State, t: nat): State -> bool {
    (now: State) => Works(s, now, t)
  }

  lemma WorksGoesOn(s: State, t: nat)
    ensures Going(WorksFrom(s, t), t)
  {
    forall now, pick | WorksFrom(s, t)(now) && t < |now.pcs| && !now.pcs[t].Returning?
      ensures WorksFrom(s, t)(Step(now, Run(t, pick)))
    {
      WorksOn(s, now, t, pick);
    }
  }

  /** One step of a thread that is ready and not about to signal. */
  lemma RunOne(works: State -> bool, now: State, t: nat) returns (next: State)
    requires Going(works, t) && works(now) && t < |now.pcs| && Ready(now, t)
    requires !now.pcs[t].Signalling? && !now.pcs[t].Returning?
    ensures works(next)
    ensures next == State(now.variant, now.pcs[t := NextPc(now, t)], NextWord(now, t), NextQueue(now, t),
                          NextLog(now, t))
  {
    next := Step(now, Run(t, t));
  }

  /** Signalling wakes one sleeper of the other kind, if there is one. */
  predicate SameButOneWoken(before: seq<Pc>, after: seq<Pc>, t: nat) {
    && |after| == |before|
    && forall u :: 0 <= u < |before| && u != t ==>
         after[u] == before[u] || (before[u].Asleep? && after[u] == Woken(before[u].op))
  }

  lemma Signals(works: State -> bool, now: State, t: nat) returns (next: State)
    requires Going(works, t) && works(now) && t < |now.pcs| && now.pcs[t].Signalling?
    ensures works(next) && SameButOneWoken(now.pcs, next.pcs, t)
    ensures next.pcs[t] == Unlocking(now.pcs[t].op, now.pcs[t].ret)
    ensures next == now.(pcs := next.pcs)
    ensures (exists u :: 0 <= u < |now.pcs| && WaitsForSignalOf(now.pcs[u], now.pcs[t].op)) ==>
              exists u :: 0 <= u < |now.pcs| && WaitsForSignalOf(now.pcs[u], now.pcs[t].op) && next.pcs[u].Woken?
  {
    var pick := t;
    if !NobodyWaits(now, now.pcs[t].op) {
      pick :| 0 <= pick < |now.pcs| && WaitsForSignalOf(now.pcs[pick], now.pcs[t].op);
    }
    next := Step(now, Run(t, pick));
  }

  /** The sequential queue after the operation, and what it returns. */
  function Alone(q: QueueState, op: Op): (QueueState, Ret) {
    match op
    case Add(v) => var (q1, ok) := BaselineAdd(q, v); (q1, if ok then Done(v) else Refused)
    case Get => var (q1, r) := BaselineGet(q); (q1, if r.Some? then Done(r.value) else Refused)
    case PrintStats => (q, Line(|q.items|, q.addAttempts, q.getAttempts, q.addCount, q.getCount))
  }

  /** The call has taken effect, the lock is released, and only the return is left. */
  predicate Finishes(s: State, e: State, t: nat, op: Op)
    requires t < |s.pcs|
  {
    var (q, ret) := Alone(s.q, op);
    && e.variant == s.variant && e.word == FreeWord(s.variant) && e.q == q
    && e.log == s.log + [Committed(t, op, ret)]
    && SameButOneWoken(s.pcs, e.pcs, t) && e.pcs[t] == Returning(op, ret)
  }

  /** The call has found nothing to do, released the lock and sleeps. */
  predicate Sleeps(s: State, e: State, t: nat, op: Op)
    requires t < |s.pcs|
  {
    && e == State(s.variant, s.pcs[t := Asleep(op)], FreeWord(s.variant), CountAttempt(s.q, op), s.log)
  }

  lemma PrintsAlone(works: State -> bool, now: State, t: nat) returns (next: State)
    requires Going(works, t) && works(now) && t < |now.pcs| && now.pcs[t] == Entered(PrintStats)
    requires now.word == Take(now.variant, FreeWord(now.variant), t)
    ensures works(next) && Finishes(now, next, t, PrintStats)
  {
    var s1 := RunOne(works, now, t);
    next := RunOne(works, s1, t);
    assert next.pcs == now.pcs[t := next.pcs[t]];
  }

  lemma RefusedAlone(works: State -> bool, now: State, t: nat) returns (next: State)
    requires Going(works, t) && works(now) && t < |now.pcs| && now.pcs[t].Testing?
    requires MustWait(now.q, now.pcs[t].op) && !now.variant.CondVar?
    requires now.word == Take(now.variant, FreeWord(now.variant), t)
    ensures works(next)
    ensures var op := now.pcs[t].op;
            next == State(now.variant, now.pcs[t := Returning(op, Refused)], FreeWord(now.variant), now.q,
                          now.log + [Committed(t, op, Refused)])
  {
    var s1 := RunOne(works, now, t);
    next := RunOne(works, s1, t);
    assert next.pcs == now.pcs[t := next.pcs[t]];
  }

  /** From the passed test over the node operation and the signal to the released lock. */
  lemma ActsAlone(works: State -> bool, now: State, t: nat) returns (next: State)
    requires Going(works, t) && works(now) && t < |now.pcs| && now.pcs[t].Testing?
    requires !now.pcs[t].op.PrintStats? && !MustWait(now.q, now.pcs[t].op)
    requires now.word == Take(now.variant, FreeWord(now.variant), t)
    ensures works(next)
    ensures var op := now.pcs[t].op;
            && next.variant == now.variant && next.word == FreeWord(now.variant)
            && next.q == (if op.Add? then Append(now.q, op.v) else DropFirst(now.q))
            && next.log == now.log + [Committed(t, op, ActRet(now.q, op))]
            && SameButOneWoken(now.pcs, next.pcs, t) && next.pcs[t] == Returning(op, ActRet(now.q, op))
  {
    var s1 := RunOne(works, now, t);
    var s2 := RunOne(works, s1, t);
    var s3 := s2;
    if now.variant.CondVar? { s3 := Signals(works, s2, t); }
    next := RunOne(works, s3, t);
  }

  lemma GoesAlone(works: State -> bool, s: State, t: nat) returns (e: State)
    requires Going(works, t) && works(s)
    requires t < |s.pcs| && s.pcs[t].Locking? && s.word == FreeWord(s.variant)
    ensures var op := s.pcs[t].op;
            works(e) && if s.variant.CondVar? && MustWait(s.q, op) then Sleeps(s, e, t, op)
                        else Finishes(s, e, t, op)
  {
    var op := s.pcs[t].op;
    var s1 := RunOne(works, s, t);
    if op.PrintStats? {
      e := PrintsAlone(works, s1, t);
    } else {
      var s2 := RunOne(works, s1, t);
      if !MustWait(s.q, op) {
        e := ActsAlone(works, s2, t);
      } else if s.variant.CondVar? {
        e := RunOne(works, s2, t);
        assert e.pcs == s.pcs[t := Asleep(op)];
      } else {
        e := RefusedAlone(works, s2, t);
      }
    }
  }

  /** A call at the free lock, alone: it completes with the result of the sequential queue, or
      sleeps if it has to wait and may. */
  lemma WorksAlone(s: State, t: nat) returns (e: State)
    requires t < |s.pcs| && s.pcs[t].Locking? && s.word == FreeWord(s.variant)
    ensures var op := s.pcs[t].op;
            Works(s, e, t) && if s.variant.CondVar? && MustWait(s.q, op) then Sleeps(s, e, t, op)
                              else Finishes(s, e, t, op)
  {
    WorksSelf(s, t);
    WorksGoesOn(s, t);
    e := GoesAlone(WorksFrom(s, t), s, t);
  }

  ghost predicate Reaches(s: State, e: State) {
    exists actions :: Exec(s, actions) == e
  }

  lemma {:induction false} ExecConcat(s: State, a: seq<Action>, b: seq<Action>)
    ensures Exec(s, a + b) == Exec(Exec(s, a), b)
  {
    if b == [] {
      assert a + b == a;
    } else {
      var n := |b| - 1;
      var both := a + b;
      assert both[..|both| - 1] == a + b[..n] && both[|both| - 1] == b[n];
      ExecConcat(s, a, b[..n]);
    }
  }

  lemma CallWorkReturn(s: State, a: Action, actions: seq<Action>, b: Action)
    ensures var now := Exec(Step(s, a), actions);
            Reaches(s, now) && Reaches(s, Step(now, b))
  {
    var now := Exec(Step(s, a), actions);
    assert Exec(s, [a]) == Step(s, a) by { assert [a][..0] == []; }
    ExecConcat(s, [a], actions);
    assert ([a] + actions + [b])[..|actions| + 1] == [a] + actions;
    assert Exec(s, [a] + actions) == now && Exec(s, [a] + actions + [b]) == Step(now, b);
  }

  predicate ReturnedFrom(s: State, e: State, t: nat, op: Op)
    requires t < |s.pcs|
  {
    var (q, ret) := Alone(s.q, op);
    && e.q == q && e.log == s.log + [Called(t, op), Committed(t, op, ret), Returned(t, op, ret)]
    && SameButOneWoken(s.pcs, e.pcs, t) && e.pcs[t].Idle?
  }

  lemma Returns(s: State, now: State, t: nat, op: Op)
    requires t < |s.pcs| && LockFree(s) && s.pcs[t].Idle?
    requires Finishes(Step(s, Call(t, op)), now, t, op)
    ensures var e := Step(now, Run(t, t));
            e.variant == s.variant && LockFree(e) && ReturnedFrom(s, e, t, op)
  {
    var e := Step(now, Run(t, t));
    assert SameButOneWoken(s.pcs, e.pcs, t);
    forall u | 0 <= u < |e.pcs| ensures !Holds(e.pcs[u]) {
      assert !Holds(s.pcs[u]);
    }
    var ret := Alone(s.q, op).1;
    assert e.log == s.log + [Called(t, op), Committed(t, op, ret), Returned(t, op, ret)];
  }

  /** Whenever the lock is free, whatever the others are doing, an idle thread can do a whole
      call: its three events follow at once, with the result and the statistics of the
      sequential queue, unless the call has to wait on a condition variable. */
  lemma CompletesAlone(s: State, t: nat, op: Op) returns (e: State)
    requires Reachable(s) && LockFree(s) && t < |s.pcs| && s.pcs[t].Idle?
    ensures Reaches(s, e) && LockFree(e) && e.variant == s.variant
    ensures if s.variant.CondVar? && MustWait(s.q, op)
            then e.pcs == s.pcs[t := Asleep(op)] && e.log == s.log + [Called(t, op)]
            else ReturnedFrom(s, e, t, op)
  {
    AlwaysInv(s);
    MutualExclusion(s);
    var called := Step(s, Call(t, op));
    var now := WorksAlone(called, t);
    var actions :| OnlyRuns(actions, t) && StaysInCall(called, actions, t) && Exec(called, actions) == now;
    CallWorkReturn(s, Call(t, op), actions, Run(t, t));
    if s.variant.CondVar? && MustWait(s.q, op) {
      e := now;
      assert e.pcs == s.pcs[t := Asleep(op)];
    } else {
      e := Step(now, Run(t, t));
      Returns(s, now, t, op);
    }
  }

  // ----- every wait ends in a signal or a spurious wakeup -----

  predicate Sleeping(pc: Pc) {
    pc.Asleep?
  }

  /** A thread goes to sleep on a condition variable. */
  predicate FallsAsleep(s: State, a: Action) {
    a.t < |s.pcs| == |Step(s, a).pcs| && !Sleeping(s.pcs[a.t]) && Sleeping(Step(s, a).pcs[a.t])
  }

  /** A successful operation completes its signal while a thread sleeps on that condition. */
  predicate SignalHeard(s: State, a: Action) {
    && a.t < |s.pcs| == |Step(s, a).pcs| && s.pcs[a.t].Signalling? && !NobodyWaits(s, s.pcs[a.t].op)
    && Step(s, a).pcs[a.t].Unlocking?
  }

  predicate WakesSpuriously(s: State, a: Action) {
    a.Spurious? && a.t < |s.pcs| && Sleeping(s.pcs[a.t])
  }

  function FallsIn(s: State, actions: seq<Action>): nat {
    if actions == [] then 0 else
    var n := |actions| - 1;
    FallsIn(s, actions[..n]) + Bit(FallsAsleep(Exec(s, actions[..n]), actions[n]))
  }

  function SignalsIn(s: State, actions: seq<Action>): nat {
    if actions == [] then 0 else
    var n := |actions| - 1;
    SignalsIn(s, actions[..n]) + Bit(SignalHeard(Exec(s, actions[..n]), actions[n]))
  }

  function SpuriousIn(s: State, actions: seq<Action>): nat {
    if actions == [] then 0 else
    var n := |actions| - 1;
    SpuriousIn(s, actions[..n]) + Bit(WakesSpuriously(Exec(s, actions[..n]), actions[n]))
  }

  lemma SleepersStep(s: State, a: Action)
    ensures Count(Step(s, a).pcs, Sleeping) ==
            Count(s.pcs, Sleeping) + Bit(FallsAsleep(s, a)) - Bit(SignalHeard(s, a)) - Bit(WakesSpuriously(s, a))
  {
    if a.t < |s.pcs| {
      var s' := Step(s, a);
      if a.Run? && Ready(s, a.t) && Wakes(s, a.t, a.pick) {
        var one := s.pcs[a.t := NextPc(s, a.t)];
        CountUpdate(s.pcs, a.t, NextPc(s, a.t), Sleeping);
        CountUpdate(one, a.pick, Woken(s.pcs[a.pick].op), Sleeping);
      } else {
        assert |s'.pcs| == |s.pcs| && s'.pcs == s.pcs[a.t := s'.pcs[a.t]];
        CountUpdate(s.pcs, a.t, s'.pcs[a.t], Sleeping);
      }
    }
  }

  /** In every run, from any state: the threads asleep are those that fell asleep, less one for
      each signal sent while somebody slept on that condition and one for each spurious
      wakeup. */
  lemma {:induction false} SleepersCounted(s: State, actions: seq<Action>)
    ensures Count(Exec(s, actions).pcs, Sleeping) + SignalsIn(s, actions) + SpuriousIn(s, actions) ==
            Count(s.pcs, Sleeping) + FallsIn(s, actions)
  {
    if actions != [] {
      var n := |actions| - 1;
      SleepersCounted(s, actions[..n]);
      SleepersStep(Exec(s, actions[..n]), actions[n]);
    }
  }
}
