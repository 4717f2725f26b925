/** When the clients of the hand-made locks can still finish: from every reachable state, and
    what a waiting client can do. */
module CustomLockFinish {
  import opened Counting
  import opened CustomLock
  import opened CustomLockRuns

  // ----- runs in which nothing happens but what the program does -----

  predicate Plain(actions: seq<Action>) {
    forall i :: 0 <= i < |actions| ==>
      !actions[i].WaitFails? && !actions[i].WakeFails? && !actions[i].Spurious?
  }

  /** Some run without failing futex calls and without spurious returns. */
  ghost predicate Plainly(s: State, e: State) {
    exists actions :: Plain(actions) && Exec(s, actions) == e
  }

  lemma PlainlySelf(s: State)
    ensures Plainly(s, s)
  {
    assert Plain([]) && Exec(s, []) == s;
  }

  lemma PlainlyThen(s: State, m: State, a: Action)
    requires Plainly(s, m) && Plain([a])
    ensures Plainly(s, Step(m, a))
  {
    var actions :| Plain(actions) && Exec(s, actions) == m;
    assert (actions + [a])[..|actions|] == actions && a == [a][0];
    assert Plain(actions + [a]) && Exec(s, actions + [a]) == Step(m, a);
  }

  // ----- the work left -----

  /** How far a client is from the end of all its iterations. */
  function Weight(form: Form, iterations: nat, c: Client): int {
    14 * (iterations - c.done) -
    match c.pc
    case Rest => 0
    case TestSet => 2
    case WaitCall => if form.Spin? then 1 else 4
    case Asleep => 5
    case SetTid => 3
    case Load => 4
    case Store(_) => 5
    case CheckTid(_) => 6
    case ClearTid => 7
    case ClearFlag(_) => 8
    case WakeCall => 9
  }

  function WeightOf(form: Form, iterations: nat): Client -> int {
    (c: Client) => Weight(form, iterations, c)
  }

  function Work(s: State): int {
    Sum(s.clients, WeightOf(s.form, s.iterations))
  }

  /** Reachable, still running, and nobody unlocks without having locked. */
  predicate Live(s: State) {
    Inv(s) && !s.aborted && !HasRogue(|s.clients|, s.rogues)
  }

  lemma WorkNotNegative(s: State)
    requires Live(s)
    ensures Work(s) >= 0
  {
    forall t | 0 <= t < |s.clients| ensures Weight(s.form, s.iterations, s.clients[t]) >= 0 {
      assert GoodClient(s, t);
    }
    SumNotNegative(s.clients, WeightOf(s.form, s.iterations));
  }

  lemma WorkAfter(s: State, a: Action)
    requires a.t < |s.clients|
    ensures var s', w := Step(s, a), Picked(s, a);
            && w < |s.clients| == |s'.clients| && s'.form == s.form && s'.iterations == s.iterations
            && var f := WeightOf(s.form, s.iterations);
               Work(s') == Work(s) - f(s.clients[a.t]) + f(s'.clients[a.t])
                           + (if w == a.t then 0 else f(s'.clients[w]) - f(s.clients[w]))
  {
    StepClients(s, a);
    var s', w := Step(s, a), Picked(s, a);
    var f := WeightOf(s.form, s.iterations);
    var one := s.clients[w := s'.clients[w]];
    SumUpdate(s.clients, w, s'.clients[w], f);
    SumUpdate(one, a.t, s'.clients[a.t], f);
    assert s'.clients == one[a.t := s'.clients[a.t]];
    assert w != a.t ==> one[a.t] == s.clients[a.t];
  }

  // ----- when there is no way on -----

  /** The mutex is free, somebody is on the way to sleep on it or asleep, and nobody else has
      anything left to do: the only steps left put more of them to sleep. */
  predicate Doomed(s: State) {
    && s.form.Futex? && !s.flag
    && (exists t :: 0 <= t < |s.clients| && Waiting(s.clients[t]))
    && (forall t :: 0 <= t < |s.clients| ==> Waiting(s.clients[t]) || s.clients[t] == Client(Rest, s.iterations))
  }

  /** A step that brings everybody nearer to the end and spoils nothing. */
  predicate Helps(s: State, a: Action) {
    Plain([a]) && Work(Step(s, a)) < Work(s) && !Step(s, a).aborted && !Doomed(Step(s, a))
  }

  lemma InsideHelps(s: State, t: nat)
    requires Live(s) && t < |s.clients| && Inside(s.clients[t])
    ensures Helps(s, Run(t, t))
  {
    assert GoodClient(s, t);
    WorkAfter(s, Run(t, t));
    CountAtLeastOne(s.clients, t, Inside);
    var s' := Step(s, Run(t, t));
    assert s.form.Futex? ==> s'.clients[t] != Client(Rest, s.iterations) && !Waiting(s'.clients[t]);
  }

  /** With the lock free: taking it, or beginning to. */
  lemma OutsideHelps(s: State, t: nat)
    requires Live(s) && !s.flag && t < |s.clients|
    requires s.clients[t].pc.TestSet? || CanIterate(s, t) || (s.form.Spin? && s.clients[t].pc.WaitCall?)
    ensures Helps(s, if s.clients[t].pc.Rest? then Begin(t) else Run(t, t))
  {
    assert GoodClient(s, t);
    var a := if s.clients[t].pc.Rest? then Begin(t) else Run(t, t);
    WorkAfter(s, a);
    assert !Waiting(Step(s, a).clients[t]) && !Step(s, a).clients[t].pc.Rest?;
  }

  /** About to wake: first let somebody fall asleep who is about to, so that it is woken. */
  lemma WakeHelps(s: State, t: nat) returns (a: Action)
    requires Live(s) && s.form.Futex? && !s.flag && t < |s.clients| && s.clients[t].pc.WakeCall?
    ensures Helps(s, a)
  {
    if p :| 0 <= p < |s.clients| && s.clients[p].pc.Asleep? {
      a := Run(t, p);
      WorkAfter(s, a);
      assert Step(s, a).clients[p].pc.TestSet?;
    } else if u :| 0 <= u < |s.clients| && s.clients[u].pc.WaitCall? {
      a := Run(u, u);
      WorkAfter(s, a);
      assert Step(s, a).clients[t].pc.WakeCall?;
    } else {
      a := Run(t, t);
      WorkAfter(s, a);
      var s' := Step(s, a);
      assert forall i :: 0 <= i < |s'.clients| ==> !Waiting(s'.clients[i]);
    }
  }

  lemma SomeStepHelps(s: State) returns (a: Action)
    requires Live(s) && !Doomed(s) && !Finished(s)
    ensures Helps(s, a)
  {
    if s.flag {
      var t := CountWitness(s.clients, Inside);
      InsideHelps(s, t);
      a := Run(t, t);
    } else {
      CountNone(s.clients, Inside);
      var t := SomebodyWorks(s);
      assert GoodClient(s, t);
      if s.clients[t].pc.WakeCall? {
        a := WakeHelps(s, t);
      } else {
        OutsideHelps(s, t);
        a := if s.clients[t].pc.Rest? then Begin(t) else Run(t, t);
      }
    }
  }

  /** Somebody who has not finished and is not waiting on the mutex. */
  lemma SomebodyWorks(s: State) returns (t: nat)
    requires Live(s) && !Doomed(s) && !Finished(s) && !s.flag
    ensures t < |s.clients| && s.clients[t] != Client(Rest, s.iterations)
    ensures s.form.Futex? ==> !Waiting(s.clients[t])
  {
    t :| 0 <= t < |s.clients| && s.clients[t] != Client(Rest, s.iterations);
    if s.form.Futex? && Waiting(s.clients[t]) {
      t :| 0 <= t < |s.clients| && !Waiting(s.clients[t]) && s.clients[t] != Client(Rest, s.iterations);
    }
  }

  lemma LiveStep(s: State, a: Action)
    requires Live(s) && !Step(s, a).aborted
    ensures Live(Step(s, a)) && Step(s, a).iterations == s.iterations && Step(s, a).form == s.form
  {
    StepKeepsInv(s, a);
    if a.t < |s.clients| { StepClients(s, a); }
  }

  lemma {:induction false} CanFinish(s: State, now: State) returns (e: State)
    requires Plainly(s, now) && Live(now) && !Doomed(now)
    ensures Plainly(s, e) && Finished(e)
    decreases Work(now)
  {
    if Finished(now) {
      e := now;
    } else {
      var a := SomeStepHelps(now);
      WorkNotNegative(now);
      LiveStep(now, a);
      PlainlyThen(s, now, a);
      e := CanFinish(s, Step(now, a));
    }
  }

  lemma DoomedStep(s: State, a: Action)
    requires Live(s) && Doomed(s) && Plain([a])
    ensures Doomed(Step(s, a)) && Live(Step(s, a))
  {
    assert a == [a][0];
    StepKeepsInv(s, a);
    if a.t < |s.clients| {
      StepClients(s, a);
      var t :| 0 <= t < |s.clients| && Waiting(s.clients[t]);
      assert Waiting(Step(s, a).clients[t]);
    }
  }

  lemma {:induction false} DoomedStays(s: State, actions: seq<Action>)
    requires Live(s) && Doomed(s) && Plain(actions)
    ensures Doomed(Exec(s, actions)) && Live(Exec(s, actions))
  {
    if actions != [] {
      var n := |actions| - 1;
      assert forall i :: 0 <= i < n ==> actions[..n][i] == actions[i];
      DoomedStays(s, actions[..n]);
      DoomedStep(Exec(s, actions[..n]), actions[n]);
    }
  }

  lemma ReachableIsLive(form: Form, threads: nat, iterations: nat, rogues: set<nat>, s: State)
    requires !HasRogue(threads, rogues) && Reaches(Start(form, threads, iterations, rogues), s) && !s.aborted
    ensures Live(s)
  {
    var start := Start(form, threads, iterations, rogues);
    var actions :| FailuresOf(actions, true, true) && Exec(start, actions) == s;
    StartInv(form, threads, iterations, rogues);
    AlwaysInv(start, actions);
  }

  /** From every reachable state, under either lock: all clients can still finish, by their own
      steps alone, if and only if the state is not doomed. */
  lemma CanFinishIff(form: Form, threads: nat, iterations: nat, rogues: set<nat>, s: State)
    requires !HasRogue(threads, rogues) && Reaches(Start(form, threads, iterations, rogues), s) && !s.aborted
    ensures (exists e :: Plainly(s, e) && Finished(e)) <==> !Doomed(s)
  {
    ReachableIsLive(form, threads, iterations, rogues, s);
    if Doomed(s) {
      forall e | Plainly(s, e) ensures !Finished(e) {
        var actions :| Plain(actions) && Exec(s, actions) == e;
        DoomedStays(s, actions);
      }
    } else {
      PlainlySelf(s);
      var e := CanFinish(s, s);
    }
  }

  // ----- spurious returns -----

  lemma {:induction false} ExecConcat(s: State, a: seq<Action>, b: seq<Action>)
    ensures Exec(s, a + b) == Exec(Exec(s, a), b)
  {
    if b == [] {
      assert a + b == a;
    } else {
      var n := |b| - 1;
      var both := a + b;
      assert both[..|both| - 1] == a + b[..n] && both[|both| - 1] == b[n];
      ExecConcat(s, a, b[..n]);
    }
  }

  lemma QuietlyThenPlainly(s: State, m: State, e: State)
    requires Quietly(s, m) && Plainly(m, e)
    ensures Quietly(s, e)
  {
    var a :| FailuresOf(a, false, false) && Exec(s, a) == m;
    var b :| Plain(b) && Exec(m, b) == e;
    ExecConcat(s, a, b);
    assert FailuresOf(a + b, false, false);
  }

  /** A waiter falls asleep on the free mutex and returns from FUTEX_WAIT for no reason. */
  lemma SpuriousRescues(s: State) returns (m: State)
    requires Live(s) && Doomed(s)
    ensures Quietly(s, m) && Live(m) && !Doomed(m)
  {
    ReachesSelf(s);
    var t :| 0 <= t < |s.clients| && Waiting(s.clients[t]);
    m := s;
    if s.clients[t].pc.WaitCall? {
      m := Step(s, Run(t, t));
      Then(s, s, Run(t, t));
      LiveStep(s, Run(t, t));
    }
    var asleep := m;
    m := Step(asleep, Spurious(t));
    Then(s, asleep, Spurious(t));
    LiveStep(asleep, Spurious(t));
    assert m.clients[t].pc.TestSet?;
  }

  /** With spurious returns nothing is ever lost for good. */
  lemma CanFinishWithSpurious(form: Form, threads: nat, iterations: nat, rogues: set<nat>, s: State)
    returns (e: State)
    requires !HasRogue(threads, rogues) && Reaches(Start(form, threads, iterations, rogues), s) && !s.aborted
    ensures Quietly(s, e) && Finished(e)
  {
    ReachableIsLive(form, threads, iterations, rogues, s);
    var m := s;
    ReachesSelf(s);
    if Doomed(s) { m := SpuriousRescues(s); }
    PlainlySelf(m);
    e := CanFinish(m, m);
    QuietlyThenPlainly(s, m, e);
  }

  // ----- doomed and stranded -----

  /** A stranded state is a doomed one in which everybody who waits is asleep already. */
  lemma StrandedIsDoomed(threads: nat, iterations: nat, rogues: set<nat>, s: State)
    requires Reaches(Start(Futex, threads, iterations, rogues), s) && !s.aborted
    ensures Stranded(s) <==> Doomed(s) && forall t :: 0 <= t < |s.clients| ==> !s.clients[t].pc.WaitCall?
  {
    var start := Start(Futex, threads, iterations, rogues);
    var actions :| FailuresOf(actions, true, true) && Exec(start, actions) == s;
    StartInv(Futex, threads, iterations, rogues);
    AlwaysInv(start, actions);
    if Stranded(s) {
      StrandedOnFreeLock(threads, iterations, rogues, s);
      var t :| 0 <= t < |s.clients| && s.clients[t].pc.Asleep?;
      assert Waiting(s.clients[t]);
    }
  }

  /** Doom comes before the sleep: once the last unlock has found nobody to wake, a client that
      is about to call FUTEX_WAIT is lost, although nobody is asleep yet. */
  lemma DoomedAwake(threads: nat, iterations: nat) returns (s: State)
    requires threads >= 2 && iterations >= 1
    ensures Reaches(Start(Futex, threads, iterations, {}), s) && !s.aborted
    ensures Doomed(s) && !Stranded(s) && NobodyAsleep(s)
  {
    var start := Start(Futex, threads, iterations, {});
    var now := ToLastRound(start);
    s := LastLockDooms(start, now);
    Widen(start, s, true, true);
    assert s.clients[1].pc.WaitCall?;
    assert forall t :: 0 <= t < |s.clients| && t != 1 ==> s.clients[t] == Client(Rest, iterations);
  }

  // ----- a lock that is taken is tried again -----

  lemma HolderStep(s: State, h: nat)
    requires Live(s) && s.form.Futex? && h < |s.clients| && Inside(s.clients[h])
    ensures var next := Step(s, Run(h, h));
            && Live(next) && next.form.Futex? && next.iterations == s.iterations
            && next.clients == s.clients[h := Client(next.clients[h].pc, s.clients[h].done)]
            && if s.clients[h].pc.ClearFlag? then next.clients[h].pc.WakeCall? && !next.flag
               else Inside(next.clients[h]) && Weight(s.form, s.iterations, next.clients[h]) <
                                               Weight(s.form, s.iterations, s.clients[h])
  {
    assert GoodClient(s, h);
    StepClients(s, Run(h, h));
    LiveStep(s, Run(h, h));
  }

  /** The holder goes on until it has freed the mutex and is about to wake somebody. */
  lemma {:induction false} HolderGoesOn(s: State, now: State, h: nat) returns (e: State)
    requires Plainly(s, now) && Live(now) && now.form.Futex? && h < |now.clients| && Inside(now.clients[h])
    ensures Plainly(s, e) && Live(e) && e.form.Futex? && !e.flag
    ensures e.clients == now.clients[h := Client(WakeCall, now.clients[h].done)]
    decreases Weight(now.form, now.iterations, now.clients[h])
  {
    assert GoodClient(now, h);
    HolderStep(now, h);
    PlainlyThen(s, now, Run(h, h));
    e := Step(now, Run(h, h));
    if !now.clients[h].pc.ClearFlag? { e := HolderGoesOn(s, e, h); }
  }

  /** A client that wants the mutex and is not asleep tries again as soon as it runs: it can
      have the mutex while the previous holder has not woken anybody yet, and without a step
      of anybody else. */
  lemma CanOvertake(s: State, h: nat, t: nat) returns (e: State)
    requires Live(s) && s.form.Futex? && h < |s.clients| && t < |s.clients| && Inside(s.clients[h]) && t != h
    requires s.clients[t].pc.WaitCall? || s.clients[t].pc.TestSet? || CanIterate(s, t)
    ensures Plainly(s, e) && |e.clients| == |s.clients|
    ensures e.flag && Inside(e.clients[t]) && e.clients[h].pc.WakeCall?
    ensures e.clients == s.clients[h := e.clients[h]][t := e.clients[t]]
    ensures e.clients[h].done == s.clients[h].done && e.clients[t].done == s.clients[t].done
  {
    PlainlySelf(s);
    CountAtLeastOne(s.clients, h, Inside);
    var s1 := s;
    if !s.clients[t].pc.TestSet? {
      var a := if s.clients[t].pc.Rest? then Begin(t) else Run(t, t);
      s1 := Step(s, a);
      PlainlyThen(s, s, a);
      LiveStep(s, a);
    }
    assert s1.clients == s.clients[t := Client(TestSet, s.clients[t].done)];
    var s2 := HolderGoesOn(s, s1, h);
    e := Step(s2, Run(t, t));
    PlainlyThen(s, s2, Run(t, t));
    assert e.clients == s2.clients[t := Client(SetTid, s.clients[t].done)];
  }

  // ----- every sleep ends in a wake call or a spurious return -----

  predicate Sleeping(c: Client) {
    c.pc.Asleep?
  }

  /** A client falls asleep in FUTEX_WAIT. */
  predicate FallsAsleep(s: State, a: Action) {
    a.t < |s.clients| == |Step(s, a).clients| && !Sleeping(s.clients[a.t]) && Sleeping(Step(s, a).clients[a.t])
  }

  /** An unlock completes its FUTEX_WAKE while somebody sleeps. */
  predicate WakesSomebody(s: State, a: Action) {
    && a.t < |s.clients| == |Step(s, a).clients| && !NobodyAsleep(s)
    && s.clients[a.t].pc.WakeCall? && Step(s, a).clients[a.t].pc.Rest?
  }

  /** FUTEX_WAIT returns to a sleeper for no reason. */
  predicate ReturnsSpuriously(s: State, a: Action) {
    a.Spurious? && !s.aborted && a.t < |s.clients| && Sleeping(s.clients[a.t])
  }

  function FallsIn(s: State, actions: seq<Action>): nat {
    if actions == [] then 0 else
    var n := |actions| - 1;
    FallsIn(s, actions[..n]) + Bit(FallsAsleep(Exec(s, actions[..n]), actions[n]))
  }

  function WakesIn(s: State, actions: seq<Action>): nat {
    if actions == [] then 0 else
    var n := |actions| - 1;
    WakesIn(s, actions[..n]) + Bit(WakesSomebody(Exec(s, actions[..n]), actions[n]))
  }

  function SpuriousIn(s: State, actions: seq<Action>): nat {
    if actions == [] then 0 else
    var n := |actions| - 1;
    SpuriousIn(s, actions[..n]) + Bit(ReturnsSpuriously(Exec(s, actions[..n]), actions[n]))
  }

  lemma SleepersStep(s: State, a: Action)
    ensures Count(Step(s, a).clients, Sleeping) ==
            Count(s.clients, Sleeping) + Bit(FallsAsleep(s, a))
            - Bit(WakesSomebody(s, a)) - Bit(ReturnsSpuriously(s, a))
  {
    if a.t < |s.clients| {
      StepClients(s, a);
      var s', w := Step(s, a), Picked(s, a);
      var one := s.clients[w := s'.clients[w]];
      CountUpdate(s.clients, w, s'.clients[w], Sleeping);
      CountUpdate(one, a.t, s'.clients[a.t], Sleeping);
      assert s'.clients == one[a.t := s'.clients[a.t]];
      assert w != a.t ==> one[a.t] == s.clients[a.t];
    }
  }

  /** In every run, from any state: the clients asleep are those that fell asleep, less one for
      each unlock that found somebody asleep and one for each spurious return. */
  lemma {:induction false} SleepersCounted(s: State, actions: seq<Action>)
    ensures Count(Exec(s, actions).clients, Sleeping) + WakesIn(s, actions) + SpuriousIn(s, actions) ==
            Count(s.clients, Sleeping) + FallsIn(s, actions)
  {
    if actions != [] {
      var n := |actions| - 1;
      SleepersCounted(s, actions[..n]);
      SleepersStep(Exec(s, actions[..n]), actions[n]);
    }
  }
}
