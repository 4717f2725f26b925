/** What can happen under the hand-made locks: for each fault, exactly when some run shows
    it. The runs are built from steps and whole iterations that other clients leave alone. */
module CustomLockRuns {
  import opened Counting
  import opened CustomLock

  /** Some run in which only futex calls of the given kinds fail leads from s to e. */
  ghost predicate ReachesWith(s: State, e: State, waits: bool, wakes: bool) {
    exists actions :: FailuresOf(actions, waits, wakes) && Exec(s, actions) == e
  }

  ghost predicate Reaches(s: State, e: State) {
    ReachesWith(s, e, true, true)
  }

  /** Some run without failing futex calls. */
  ghost predicate Quietly(s: State, e: State) {
    ReachesWith(s, e, false, false)
  }

  lemma Widen(s: State, e: State, waits: bool, wakes: bool)
    requires Quietly(s, e)
    ensures ReachesWith(s, e, waits, wakes) && Reaches(s, e)
  {
    var actions :| FailuresOf(actions, false, false) && Exec(s, actions) == e;
    assert FailuresOf(actions, waits, wakes) && FailuresOf(actions, true, true);
  }

  lemma ReachesSelf(s: State)
    ensures Quietly(s, s)
  {
    assert FailuresOf([], false, false) && Exec(s, []) == s;
  }

  lemma ThenFails(s: State, m: State, a: Action, waits: bool, wakes: bool)
    requires Quietly(s, m) && FailuresOf([a], waits, wakes)
    ensures ReachesWith(s, Step(m, a), waits, wakes)
  {
    var actions :| FailuresOf(actions, false, false) && Exec(s, actions) == m;
    assert (actions + [a])[..|actions|] == actions && a == [a][0];
    assert FailuresOf(actions + [a], waits, wakes) && Exec(s, actions + [a]) == Step(m, a);
  }

  lemma Then(s: State, m: State, a: Action)
    requires Quietly(s, m) && !a.WaitFails? && !a.WakeFails?
    ensures Quietly(s, Step(m, a))
  {
    ThenFails(s, m, a, false, false);
  }

  // ----- whole iterations -----

  /** The lock is free and nobody is inside FUTEX_WAIT. */
  predicate Calm(s: State) {
    !s.flag && !s.aborted && (s.form.Futex? ==> s.tid == 0 && NobodyAsleep(s))
  }

  predicate CanIterate(s: State, t: nat) {
    t < |s.clients| && s.clients[t].pc.Rest? && s.clients[t].done < s.iterations
  }

  /** One iteration under the spinlock up to the store, with the lock found free. */
  lemma ToStore(s: State, now: State, t: nat) returns (next: State)
    requires Quietly(s, now) && now.form.Spin? && !now.flag && !now.aborted && CanIterate(now, t)
    ensures Quietly(s, next) && next == Goto(now.(flag := true), t, Store(now.counter))
  {
    var s1 := Step(now, Begin(t));
    var s2 := Step(s1, Run(t, 0));
    next := Step(s2, Run(t, 0));
    Then(s, now, Begin(t));
    Then(s, s1, Run(t, 0));
    Then(s, s2, Run(t, 0));
  }

  lemma DoStore(s: State, now: State, t: nat) returns (next: State)
    requires Quietly(s, now) && t < |now.clients|
    requires now.form.Spin? && !now.aborted && now.clients[t].pc.Store?
    ensures Quietly(s, next)
    ensures next == Goto(now.(counter := now.clients[t].pc.r + 1), t, ClearFlag(true))
  {
    next := Step(now, Run(t, 0));
    Then(s, now, Run(t, 0));
  }

  lemma SpinLeaves(s: State, now: State, t: nat) returns (next: State)
    requires Quietly(s, now) && t < |now.clients|
    requires now.form.Spin? && !now.aborted && now.clients[t].pc == ClearFlag(true)
    ensures Quietly(s, next) && next == Finish(now.(flag := false), t)
  {
    next := Step(now, Run(t, 0));
    Then(s, now, Run(t, 0));
  }

  lemma HolderStores(s: State, now: State, t: nat) returns (next: State)
    requires Quietly(s, now) && t < |now.clients|
    requires now.form.Futex? && !now.aborted && now.clients[t].pc.Load?
    ensures Quietly(s, next) && next == Goto(now.(counter := now.counter + 1), t, CheckTid(true))
  {
    var s1 := Step(now, Run(t, 0));
    next := Step(s1, Run(t, 0));
    Then(s, now, Run(t, 0));
    Then(s, s1, Run(t, 0));
  }

  /** Client t takes the mutex, increments and is about to clear the flag. */
  lemma HolderWorks(s: State, now: State, t: nat) returns (next: State)
    requires Quietly(s, now) && t < |now.clients|
    requires now.form.Futex? && !now.aborted && now.clients[t].pc.SetTid?
    ensures Quietly(s, next)
    ensures next == Goto(now.(tid := 0, counter := now.counter + 1), t, ClearFlag(true))
  {
    var s1 := Step(now, Run(t, 0));
    Then(s, now, Run(t, 0));
    var s2 := HolderStores(s, s1, t);
    next := HolderUnlocks(s, s2, t);
  }

  lemma HolderUnlocks(s: State, now: State, t: nat) returns (next: State)
    requires Quietly(s, now) && t < |now.clients|
    requires now.form.Futex? && !now.aborted && now.clients[t].pc.CheckTid? && now.tid == t + 1
    ensures Quietly(s, next) && next == Goto(now.(tid := 0), t, ClearFlag(true))
  {
    var s1 := Step(now, Run(t, 0));
    next := Step(s1, Run(t, 0));
    Then(s, now, Run(t, 0));
    Then(s, s1, Run(t, 0));
  }

  lemma HolderFrees(s: State, now: State, t: nat) returns (next: State)
    requires Quietly(s, now) && t < |now.clients|
    requires now.form.Futex? && !now.aborted && now.clients[t].pc == ClearFlag(true)
    ensures Quietly(s, next) && next == Goto(now.(flag := false), t, WakeCall)
  {
    next := Step(now, Run(t, 0));
    Then(s, now, Run(t, 0));
  }

  /** Then it frees the mutex, finds nobody to wake and returns. */
  lemma HolderLeaves(s: State, now: State, t: nat) returns (next: State)
    requires Quietly(s, now) && t < |now.clients|
    requires now.form.Futex? && !now.aborted && now.clients[t].pc == ClearFlag(true) && NobodyAsleep(now)
    ensures Quietly(s, next) && next == Finish(now.(flag := false), t)
  {
    var s1 := HolderFrees(s, now, t);
    assert forall i :: 0 <= i < |s1.clients| && i != t ==> s1.clients[i] == now.clients[i];
    assert s1.clients[t].pc.WakeCall? && NobodyAsleep(s1);
    next := Step(s1, Run(t, 0));
    Then(s, s1, Run(t, 0));
    assert !(0 < |s1.clients| && 0 != t && s1.clients[0].pc.Asleep?);
    assert next == Finish(s1, t);
  }

  lemma Enters(s: State, now: State, t: nat) returns (next: State)
    requires Quietly(s, now) && now.form.Futex? && !now.aborted && !now.flag && CanIterate(now, t)
    ensures Quietly(s, next) && next == Goto(now.(flag := true), t, SetTid)
  {
    var s1 := Step(now, Begin(t));
    next := Step(s1, Run(t, 0));
    Then(s, now, Begin(t));
    Then(s, s1, Run(t, 0));
  }

  lemma SpinIteration(s: State, now: State, t: nat) returns (next: State)
    requires Quietly(s, now) && Calm(now) && now.form.Spin? && CanIterate(now, t)
    ensures Quietly(s, next) && next == Finish(now.(counter := now.counter + 1), t)
  {
    var s1 := ToStore(s, now, t);
    var s2 := DoStore(s, s1, t);
    next := SpinLeaves(s, s2, t);
  }

  lemma FutexIteration(s: State, now: State, t: nat) returns (next: State)
    requires Quietly(s, now) && Calm(now) && now.form.Futex? && CanIterate(now, t)
    ensures Quietly(s, next) && next == Finish(now.(counter := now.counter + 1), t)
  {
    var s1 := Enters(s, now, t);
    var s2 := HolderWorks(s, s1, t);
    assert forall i :: 0 <= i < |s2.clients| && i != t ==> s2.clients[i] == now.clients[i];
    assert NobodyAsleep(s2);
    next := HolderLeaves(s, s2, t);
  }

  /** What the increments stored so far exceed the counter by. */
  function Missing(s: State): int {
    Total(s.clients) - s.counter
  }

  /** One undisturbed iteration of client t. */
  lemma OneIteration(s: State, now: State, t: nat) returns (next: State)
    requires Quietly(s, now) && Calm(now) && CanIterate(now, t)
    ensures Quietly(s, next) && Calm(next) && Missing(next) == Missing(now)
    ensures next == Finish(now.(counter := now.counter + 1), t)
  {
    if now.form.Spin? { next := SpinIteration(s, now, t); } else { next := FutexIteration(s, now, t); }
    TotalUpdate(now.clients, t, next.clients[t]);
    assert forall i :: 0 <= i < |next.clients| && i != t ==> next.clients[i] == now.clients[i];
  }

  /** Neither the program nor the deficit has changed. */
  predicate SameProgram(now: State, next: State) {
    && next.form == now.form && next.iterations == now.iterations && next.rogues == now.rogues
    && |next.clients| == |now.clients| && Missing(next) == Missing(now)
  }

  /** Undisturbed iterations of client t, until `k` of its iterations are done. */
  lemma {:induction false} Iterations(s: State, now: State, t: nat, k: nat) returns (next: State)
    requires Quietly(s, now) && Calm(now) && t < |now.clients| && now.clients[t].pc.Rest?
    requires now.clients[t].done <= k <= now.iterations
    ensures Quietly(s, next) && Calm(next) && SameProgram(now, next)
    ensures next.clients == now.clients[t := Client(Rest, k)]
    decreases k - now.clients[t].done
  {
    if now.clients[t].done == k {
      next := now;
    } else {
      next := OneIteration(s, now, t);
      next := Iterations(s, next, t, k);
    }
  }

  /** Clients u and above run all their iterations, one after the other. */
  lemma {:induction false} OthersFinish(s: State, now: State, u: nat) returns (next: State)
    requires Quietly(s, now) && u <= |now.clients| && Calm(now)
    requires forall t :: u <= t < |now.clients| ==> now.clients[t].pc.Rest? && now.clients[t].done <= now.iterations
    ensures Quietly(s, next) && Calm(next) && SameProgram(now, next)
    ensures forall t :: 0 <= t < u ==> next.clients[t] == now.clients[t]
    ensures forall t :: u <= t < |now.clients| ==> next.clients[t] == Client(Rest, now.iterations)
    decreases |now.clients| - u
  {
    next := now;
    if u < |now.clients| {
      next := Iterations(s, now, u, now.iterations);
      next := OthersFinish(s, next, u + 1);
    }
  }

  // ----- a rogue under the spinlock -----

  lemma RogueClears(s: State, now: State, t: nat) returns (next: State)
    requires Quietly(s, now) && t < |now.clients| && t in now.rogues
    requires now.form.Spin? && !now.aborted && now.clients[t].pc.Rest?
    ensures Quietly(s, next) && next == now.(flag := false)
  {
    var s1 := Step(now, Rogue(t));
    next := Step(s1, Run(t, 0));
    Then(s, now, Rogue(t));
    Then(s, s1, Run(t, 0));
    assert next.clients == now.clients;
  }

  /** Client a has loaded the counter when the rogue r clears the flag and locks as well. */
  lemma BothLoad(s: State, now: State, r: nat, a: nat) returns (next: State)
    requires Quietly(s, now) && now.form.Spin? && !now.flag && !now.aborted
    requires r in now.rogues && r != a && CanIterate(now, r) && CanIterate(now, a)
    ensures Quietly(s, next)
    ensures next == Goto(Goto(now.(flag := true), a, Store(now.counter)), r, Store(now.counter))
  {
    var s1 := ToStore(s, now, a);
    var s2 := RogueClears(s, s1, r);
    next := ToStore(s, s2, r);
  }

  lemma BothStore(s: State, now: State, r: nat, a: nat, c: nat) returns (next: State)
    requires Quietly(s, now) && now.form.Spin? && !now.aborted
    requires r < |now.clients| && a < |now.clients| && r != a
    requires now.clients[r].pc == now.clients[a].pc == Store(c)
    ensures Quietly(s, next)
    ensures next == Finish(Finish(now.(counter := c + 1, flag := false), a), r)
  {
    var s1 := DoStore(s, now, r);
    var s2 := DoStore(s, s1, a);
    var s3 := SpinLeaves(s, s2, a);
    next := SpinLeaves(s, s3, r);
    assert next.clients == Finish(Finish(now, a), r).clients;
  }

  lemma BothFinish(now: State, r: nat, a: nat)
    requires r < |now.clients| && a < |now.clients| && r != a
    requires now.clients[r].pc.Rest? && now.clients[a].pc.Rest?
    ensures Missing(Finish(Finish(now.(counter := now.counter + 1), a), r)) == Missing(now) + 1
  {
    var one := Finish(now, a).clients;
    TotalUpdate(now.clients, a, one[a]);
    assert one[r] == now.clients[r];
    TotalUpdate(one, r, Client(Rest, one[r].done + 1));
  }

  /** Where the two were on the way does not show in the end. */
  lemma SameEnd(now: State, r: nat, a: nat, c: nat)
    requires r < |now.clients| && a < |now.clients| && r != a && !now.flag
    ensures var both := Goto(Goto(now.(flag := true), a, Store(c)), r, Store(c));
            Finish(Finish(both.(counter := c + 1, flag := false), a), r)
            == Finish(Finish(now.(counter := c + 1), a), r)
  {
    var both := Goto(Goto(now, a, Store(c)), r, Store(c));
    assert Finish(Finish(both, a), r).clients == Finish(Finish(now, a), r).clients;
  }

  /** Both load the same value, and both store. */
  lemma Race(s: State, now: State, r: nat, a: nat) returns (next: State)
    requires Quietly(s, now) && now.form.Spin? && !now.flag && !now.aborted
    requires r in now.rogues && r != a && CanIterate(now, r) && CanIterate(now, a)
    ensures Quietly(s, next) && next == Finish(Finish(now.(counter := now.counter + 1), a), r)
  {
    var both := BothLoad(s, now, r, a);
    SameEnd(now, r, a, now.counter);
    next := BothStore(s, both, r, a, now.counter);
  }

  /** The run that loses an update under the spinlock: after it the lock is free again, both
      have finished an iteration, and the counter has grown by one. */
  lemma RogueLosesUpdate(s: State, now: State, r: nat, a: nat) returns (next: State)
    requires Quietly(s, now) && now.form.Spin? && !now.flag && !now.aborted
    requires r in now.rogues && r != a && CanIterate(now, r) && CanIterate(now, a)
    ensures Quietly(s, next)
    ensures next == Finish(Finish(now.(counter := now.counter + 1), a), r)
    ensures Missing(next) == Missing(now) + 1
  {
    next := Race(s, now, r, a);
    BothFinish(now, r, a);
  }

  /** Everybody then finishes, and the counter is one short. */
  lemma LosingRun(s: State, r: nat, a: nat) returns (e: State)
    requires s.form.Spin? && Calm(s) && r in s.rogues && r != a && CanIterate(s, r) && CanIterate(s, a)
    requires forall t :: 0 <= t < |s.clients| ==> s.clients[t] == Client(Rest, 0)
    requires Missing(s) == 0
    ensures Reaches(s, e) && Finished(e) && e.counter == |s.clients| * s.iterations - 1
    ensures e.counter != Total(e.clients)
  {
    ReachesSelf(s);
    e := RogueLosesUpdate(s, s, r, a);
    e := OthersFinish(s, e, 0);
    TotalFinished(e.clients, s.iterations);
    Widen(s, e, true, true);
  }

  /** One client at most, or nothing to do: nobody else can use what a rogue frees. */
  predicate Undisputed(s: State) {
    && s.form.Spin? && s.counter == Total(s.clients) && (|s.clients| <= 1 || s.iterations == 0)
    && forall t :: 0 <= t < |s.clients| ==> Harmless(s, s.clients[t])
  }

  predicate Harmless(s: State, c: Client) {
    && !c.pc.SetTid? && !c.pc.CheckTid? && !c.pc.ClearTid? && !c.pc.WakeCall? && !c.pc.Asleep?
    && (c.pc.Store? ==> c.pc.r == s.counter)
    && (s.iterations == 0 ==> c.pc.Rest? || c.pc == ClearFlag(false))
  }

  lemma UndisputedStep(s: State, a: Action)
    requires Undisputed(s)
    ensures Undisputed(Step(s, a))
  {
    if a.t < |s.clients| {
      CountsAfter(s, a);
      StepClients(s, a);
      assert Harmless(s, s.clients[a.t]);
      forall t | 0 <= t < |s.clients| && t != a.t ensures Harmless(Step(s, a), Step(s, a).clients[t]) {
        assert Harmless(s, s.clients[t]);
      }
    }
  }

  lemma {:induction false} UndisputedRun(s: State, actions: seq<Action>)
    requires Undisputed(s)
    ensures Undisputed(Exec(s, actions)) && |Exec(s, actions).clients| == |s.clients|
    ensures Exec(s, actions).iterations == s.iterations
  {
    if actions != [] {
      var n := |actions| - 1;
      UndisputedRun(s, actions[..n]);
      UndisputedStep(Exec(s, actions[..n]), actions[n]);
      if actions[n].t < |s.clients| { StepClients(Exec(s, actions[..n]), actions[n]); }
    }
  }

  /** When no update can be lost: the futex mutex checks its owner; under the spinlock it
      takes a rogue, another client and something to do. */
  predicate UpdatesSafe(form: Form, threads: nat, iterations: nat, rogues: set<nat>) {
    form.Futex? || !HasRogue(threads, rogues) || threads <= 1 || iterations == 0
  }

  lemma UpdatesSurvive(form: Form, threads: nat, iterations: nat, rogues: set<nat>, s: State)
    requires UpdatesSafe(form, threads, iterations, rogues)
    requires Reaches(Start(form, threads, iterations, rogues), s)
    ensures s.counter == Total(s.clients) && (Finished(s) ==> s.counter == threads * iterations)
  {
    var start := Start(form, threads, iterations, rogues);
    var actions :| FailuresOf(actions, true, true) && Exec(start, actions) == s;
    StartInv(form, threads, iterations, rogues);
    if Safe(start) { AlwaysInv(start, actions); } else { UndisputedRun(start, actions); }
    if Finished(s) { TotalFinished(s.clients, s.iterations); }
  }

  lemma SomebodyLoses(form: Form, threads: nat, iterations: nat, rogues: set<nat>) returns (e: State)
    requires !UpdatesSafe(form, threads, iterations, rogues)
    ensures Reaches(Start(form, threads, iterations, rogues), e)
    ensures Finished(e) && e.counter == threads * iterations - 1 && e.counter != Total(e.clients)
  {
    var r :| r in rogues && r < threads;
    StartInv(form, threads, iterations, rogues);
    e := LosingRun(Start(form, threads, iterations, rogues), r, if r == 0 then 1 else 0);
  }

  /** For every start: in every reachable state the counter is the number of increments
      stored, if and only if the form is futex, or no client is a rogue, or there is nobody
      or nothing to compete for. */
  lemma UpdatesSurviveIff(form: Form, threads: nat, iterations: nat, rogues: set<nat>)
    ensures (forall s :: Reaches(Start(form, threads, iterations, rogues), s) ==> s.counter == Total(s.clients))
            <==> UpdatesSafe(form, threads, iterations, rogues)
  {
    if UpdatesSafe(form, threads, iterations, rogues) {
      forall s | Reaches(Start(form, threads, iterations, rogues), s) ensures s.counter == Total(s.clients) {
        UpdatesSurvive(form, threads, iterations, rogues, s);
      }
    } else {
      var e := SomebodyLoses(form, threads, iterations, rogues);
    }
  }

  /** Every program start: each run in which all clients finish ends with T times N in the
      counter, under the same condition and no other. */
  lemma FinalCounterIff(form: Form, threads: nat, iterations: nat, rogues: set<nat>)
    ensures (forall s :: Reaches(Start(form, threads, iterations, rogues), s) && Finished(s) ==>
               s.counter == threads * iterations)
            <==> UpdatesSafe(form, threads, iterations, rogues)
  {
    if UpdatesSafe(form, threads, iterations, rogues) {
      forall s | Reaches(Start(form, threads, iterations, rogues), s) && Finished(s)
        ensures s.counter == threads * iterations
      {
        UpdatesSurvive(form, threads, iterations, rogues, s);
      }
    } else {
      var e := SomebodyLoses(form, threads, iterations, rogues);
    }
  }

  // ----- the stranded waiter -----

  /** Somebody is asleep, and everybody is asleep or has finished. */
  predicate Stranded(s: State) {
    && !s.aborted
    && (exists t :: 0 <= t < |s.clients| && s.clients[t].pc.Asleep?)
    && (forall t :: 0 <= t < |s.clients| ==> s.clients[t].pc.Asleep? || s.clients[t] == Client(Rest, s.iterations))
  }

  lemma StrandedStays(s: State, t: nat, pick: nat)
    requires Stranded(s)
    ensures Step(s, Run(t, pick)) == s && Step(s, Begin(t)) == s
  {
    if t < |s.clients| {
      assert s.clients[t].pc.Asleep? || s.clients[t] == Client(Rest, s.iterations);
    }
  }

  lemma StrandedIsFree(s: State)
    requires Inv(s) && s.form.Futex? && Stranded(s)
    ensures !s.flag && s.tid == 0
  {
    CountNone(s.clients, Inside);
    TidNamesInside(s);
  }

  /** A stranded waiter sleeps on a free mutex, and no client has a step of its own left. */
  lemma StrandedOnFreeLock(threads: nat, iterations: nat, rogues: set<nat>, s: State)
    requires Reaches(Start(Futex, threads, iterations, rogues), s) && Stranded(s)
    ensures !s.flag && s.tid == 0
    ensures forall t: nat, pick: nat :: Step(s, Run(t, pick)) == s && Step(s, Begin(t)) == s
  {
    var actions :| FailuresOf(actions, true, true) && Exec(Start(Futex, threads, iterations, rogues), actions) == s;
    StartInv(Futex, threads, iterations, rogues);
    AlwaysInv(Start(Futex, threads, iterations, rogues), actions);
    StrandedIsFree(s);
    forall t: nat, pick: nat ensures Step(s, Run(t, pick)) == s && Step(s, Begin(t)) == s {
      StrandedStays(s, t, pick);
    }
  }

  /** Client 1 finds the mutex taken by client 0. */
  lemma TwoContend(s: State, now: State) returns (next: State)
    requires Quietly(s, now) && Calm(now) && |now.clients| >= 2
    requires now.form.Futex? && CanIterate(now, 0) && now.clients[1] == Client(Rest, 0)
    ensures Quietly(s, next)
    ensures next == now.(flag := true,
                         clients := now.clients[0 := now.clients[0].(pc := SetTid)][1 := Client(WaitCall, 0)])
  {
    var s1 := Enters(s, now, 0);
    var s2 := Step(s1, Begin(1));
    next := Step(s2, Run(1, 0));
    Then(s, s1, Begin(1));
    Then(s, s2, Run(1, 0));
    assert next.clients == now.clients[0 := now.clients[0].(pc := SetTid)][1 := Client(WaitCall, 0)];
  }

  /** Client 0 finishes while client 1 is about to wait. */
  lemma HolderFinishes(s: State, now: State) returns (next: State)
    requires Quietly(s, now) && |now.clients| >= 2 && NobodyAsleep(now)
    requires now.form.Futex? && !now.aborted && now.clients[0].pc.SetTid? && now.clients[1].pc.WaitCall?
    ensures Quietly(s, next)
    ensures next == now.(tid := 0, flag := false, counter := now.counter + 1,
                         clients := now.clients[0 := Client(Rest, now.clients[0].done + 1)])
  {
    var s1 := HolderWorks(s, now, 0);
    assert NobodyAsleep(s1);
    next := HolderLeaves(s, s1, 0);
    assert next.clients == now.clients[0 := Client(Rest, now.clients[0].done + 1)];
  }

  /** Everybody but client 1 has finished, and client 0 just before it. */
  predicate LastRound(s: State) {
    && s.form.Futex? && Calm(s) && |s.clients| >= 2 && s.iterations > 0
    && s.clients[0] == Client(Rest, s.iterations - 1) && s.clients[1] == Client(Rest, 0)
    && forall t :: 2 <= t < |s.clients| ==> s.clients[t] == Client(Rest, s.iterations)
  }

  /** Client 1 finds the mutex taken by client 0, which then finishes. */
  lemma LastLockDooms(s: State, now: State) returns (next: State)
    requires Quietly(s, now) && LastRound(now)
    ensures Quietly(s, next) && next.form.Futex? && !next.flag && !next.aborted && next.iterations == now.iterations
    ensures next.clients == now.clients[0 := Client(Rest, now.iterations)][1 := Client(WaitCall, 0)]
  {
    var s1 := TwoContend(s, now);
    next := HolderFinishes(s, s1);
    assert next.clients == now.clients[0 := Client(Rest, now.iterations)][1 := Client(WaitCall, 0)];
  }

  /** Only then it calls FUTEX_WAIT. */
  lemma LastLockStrands(s: State, now: State) returns (next: State)
    requires Quietly(s, now) && LastRound(now)
    ensures Quietly(s, next) && Stranded(next)
  {
    var s1 := LastLockDooms(s, now);
    next := Step(s1, Run(1, 0));
    Then(s, s1, Run(1, 0));
    assert next.clients == now.clients[0 := Client(Rest, now.iterations)][1 := Client(Asleep, 0)];
    assert next.clients[1].pc.Asleep?;
  }

  lemma ToLastRound(s: State) returns (e: State)
    requires s.form.Futex? && Calm(s) && |s.clients| >= 2 && s.iterations > 0
    requires forall t :: 0 <= t < |s.clients| ==> s.clients[t] == Client(Rest, 0)
    ensures Quietly(s, e) && LastRound(e) && |e.clients| == |s.clients| && e.iterations == s.iterations
  {
    ReachesSelf(s);
    var s1 := OthersFinish(s, s, 2);
    e := Iterations(s, s1, 0, s.iterations - 1);
  }

  lemma StrandingRun(s: State) returns (e: State)
    requires s.form.Futex? && Calm(s) && |s.clients| >= 2 && s.iterations > 0
    requires forall t :: 0 <= t < |s.clients| ==> s.clients[t] == Client(Rest, 0)
    ensures Reaches(s, e) && Stranded(e)
  {
    var s2 := ToLastRound(s);
    e := LastLockStrands(s, s2);
    Widen(s, e, true, true);
  }

  /** A single client, or clients without iterations, never even reach the wait. */
  lemma {:induction false} NobodyWaits(s: State, actions: seq<Action>)
    requires Inv(s) && Safe(s) && s.form.Futex? && (|s.clients| <= 1 || s.iterations == 0)
    requires forall t :: 0 <= t < |s.clients| ==> !Waiting(s.clients[t])
    ensures var e := Exec(s, actions); forall t :: 0 <= t < |e.clients| ==> !Waiting(e.clients[t])
  {
    if actions != [] {
      var n := |actions| - 1;
      NobodyWaits(s, actions[..n]);
      AlwaysInv(s, actions[..n]);
      NobodyStartsToWait(Exec(s, actions[..n]), actions[n]);
    }
  }

  lemma NobodyStartsToWait(s: State, a: Action)
    requires Inv(s) && s.form.Futex? && (|s.clients| <= 1 || s.iterations == 0)
    requires forall t :: 0 <= t < |s.clients| ==> !Waiting(s.clients[t])
    ensures var e := Step(s, a); forall t :: 0 <= t < |e.clients| ==> !Waiting(e.clients[t])
  {
    if a.t < |s.clients| {
      StepClients(s, a);
      assert GoodClient(s, a.t);
      if s.flag && |s.clients| == 1 {
        var t := CountWitness(s.clients, Inside);
        assert t == a.t;
      }
    }
  }

  /** A waiter can be left asleep on a free mutex exactly when there are two clients and
      something to do: FUTEX_WAIT is called with expected value 0, so it sleeps only once the
      lock is free, and the wake may be over by then. */
  lemma CanStrandIff(threads: nat, iterations: nat, rogues: set<nat>)
    ensures (exists s :: Reaches(Start(Futex, threads, iterations, rogues), s) && Stranded(s))
            <==> threads >= 2 && iterations >= 1
  {
    var start := Start(Futex, threads, iterations, rogues);
    if threads >= 2 && iterations >= 1 {
      var e := StrandingRun(start);
    } else {
      StartInv(Futex, threads, iterations, rogues);
      forall s | Reaches(start, s) ensures !Stranded(s) {
        var actions :| FailuresOf(actions, true, true) && Exec(start, actions) == s;
        AlwaysInv(start, actions);
        NobodyWaits(start, actions);
        assert forall t :: 0 <= t < |s.clients| ==> !Waiting(s.clients[t]);
      }
    }
  }

  // ----- aborts -----

  /** When a run can abort in which only failures of the given kinds happen: a rogue aborts by
      itself, a failing wait needs somebody to wait for, a failing wake only an unlock. */
  predicate CanAbort(form: Form, threads: nat, iterations: nat, rogues: set<nat>, waits: bool, wakes: bool) {
    && form.Futex?
    && (|| HasRogue(threads, rogues)
        || (waits && threads >= 2 && iterations >= 1)
        || (wakes && threads >= 1 && iterations >= 1))
  }

  lemma RogueAborts(s: State, r: nat) returns (e: State)
    requires s.form.Futex? && !s.aborted && s.tid == 0
    requires r in s.rogues && r < |s.clients| && s.clients[r].pc.Rest?
    ensures Quietly(s, e) && e.aborted
  {
    ReachesSelf(s);
    var s1 := Step(s, Rogue(r));
    e := Step(s1, Run(r, 0));
    Then(s, s, Rogue(r));
    Then(s, s1, Run(r, 0));
  }

  /** Client 1 finds the mutex taken, and its FUTEX_WAIT fails. */
  lemma WaitAborts(s: State, wakes: bool) returns (e: State)
    requires s.form.Futex? && Calm(s) && |s.clients| >= 2 && CanIterate(s, 0) && s.clients[1] == Client(Rest, 0)
    ensures ReachesWith(s, e, true, wakes) && e.aborted
  {
    ReachesSelf(s);
    var s1 := TwoContend(s, s);
    assert s1.clients[1].pc.WaitCall?;
    e := Step(s1, WaitFails(1));
    ThenFails(s, s1, WaitFails(1), true, wakes);
  }

  /** Client 0 takes and frees the mutex, and its FUTEX_WAKE fails. */
  lemma WakeAborts(s: State, waits: bool) returns (e: State)
    requires s.form.Futex? && Calm(s) && CanIterate(s, 0)
    ensures ReachesWith(s, e, waits, true) && e.aborted
  {
    ReachesSelf(s);
    var s1 := Enters(s, s, 0);
    var s2 := HolderWorks(s, s1, 0);
    var s3 := HolderFrees(s, s2, 0);
    e := Step(s3, WakeFails(0));
    ThenFails(s, s3, WakeFails(0), waits, true);
  }

  /** The other direction: in a run with these failures only, an abort has a cause. */
  lemma {:induction false} NoAbort(s: State, actions: seq<Action>, waits: bool, wakes: bool)
    requires Inv(s) && Safe(s) && s.form.Futex? && !s.aborted && FailuresOf(actions, waits, wakes)
    requires forall t :: 0 <= t < |s.clients| ==> !Waiting(s.clients[t])
    requires !CanAbort(s.form, |s.clients|, s.iterations, s.rogues, waits, wakes)
    ensures !Exec(s, actions).aborted
  {
    if actions != [] {
      var n := |actions| - 1;
      assert forall i :: 0 <= i < n ==> actions[..n][i] == actions[i];
      NoAbort(s, actions[..n], waits, wakes);
      AlwaysInv(s, actions[..n]);
      var mid, a := Exec(s, actions[..n]), actions[n];
      if Step(mid, a).aborted {
        AbortStep(mid, a);
        if a.WaitFails? { NobodyWaits(s, actions[..n]); }
        assert false;
      }
    }
  }

  /** The spinlock has no owner to check and no call that fails. */
  predicate Unchecked(s: State) {
    s.form.Spin? && !s.aborted && forall t :: 0 <= t < |s.clients| ==> !s.clients[t].pc.CheckTid?
  }

  lemma SpinStep(s: State, a: Action)
    requires Unchecked(s)
    ensures Unchecked(Step(s, a))
  {
    if a.t < |s.clients| { StepClients(s, a); }
  }

  lemma {:induction false} SpinNeverAborts(s: State, actions: seq<Action>)
    requires Unchecked(s)
    ensures Unchecked(Exec(s, actions))
  {
    if actions != [] {
      var n := |actions| - 1;
      SpinNeverAborts(s, actions[..n]);
      SpinStep(Exec(s, actions[..n]), actions[n]);
    }
  }

  lemma AbortingRun(form: Form, threads: nat, iterations: nat, rogues: set<nat>, waits: bool, wakes: bool)
    returns (e: State)
    requires CanAbort(form, threads, iterations, rogues, waits, wakes)
    ensures ReachesWith(Start(form, threads, iterations, rogues), e, waits, wakes) && e.aborted
  {
    var start := Start(form, threads, iterations, rogues);
    if HasRogue(threads, rogues) {
      var r :| r in rogues && r < threads;
      e := RogueAborts(start, r);
      Widen(start, e, waits, wakes);
    } else if wakes {
      e := WakeAborts(start, waits);
    } else {
      e := WaitAborts(start, wakes);
    }
  }

  /** For every start and every choice of which futex calls may fail: some run aborts if and
      only if `CanAbort` says so. */
  lemma CanAbortIff(form: Form, threads: nat, iterations: nat, rogues: set<nat>, waits: bool, wakes: bool)
    ensures (exists s :: ReachesWith(Start(form, threads, iterations, rogues), s, waits, wakes) && s.aborted)
            <==> CanAbort(form, threads, iterations, rogues, waits, wakes)
  {
    var start := Start(form, threads, iterations, rogues);
    if CanAbort(form, threads, iterations, rogues, waits, wakes) {
      var e := AbortingRun(form, threads, iterations, rogues, waits, wakes);
    } else {
      StartInv(form, threads, iterations, rogues);
      forall s | ReachesWith(start, s, waits, wakes) ensures !s.aborted {
        var actions :| FailuresOf(actions, waits, wakes) && Exec(start, actions) == s;
        if form.Spin? { SpinNeverAborts(start, actions); } else { NoAbort(start, actions, waits, wakes); }
      }
    }
  }

  /** With no failing futex call, it is the owner check alone that aborts. */
  lemma CanAbortWithoutFailureIff(threads: nat, iterations: nat, rogues: set<nat>)
    ensures (exists s :: Quietly(Start(Futex, threads, iterations, rogues), s) && s.aborted)
            <==> HasRogue(threads, rogues)
  {
    CanAbortIff(Futex, threads, iterations, rogues, false, false);
  }
}
