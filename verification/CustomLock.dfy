/** The hand-made spinlock and futex mutex with its owner field, one atomic step at a time,
    and the clients that increment a shared counter under them with a separate load and
    store. Some clients may also call unlock without having locked. */
module CustomLock {
  import opened Counting

  datatype Form = Spin | Futex

  datatype Pc =
    | Rest                      // between iterations
    | TestSet                   // about to run atomic_flag_test_and_set
    | WaitCall                  // found it set; about to sched_yield or FUTEX_WAIT
    | Asleep                    // inside FUTEX_WAIT
    | SetTid                    // has the flag; about to store m->tid
    | Load                      // about to load shared_counter
    | Store(r: nat)             // about to store r + 1
    | CheckTid(entered: bool)   // about to compare m->tid; `entered`: it did lock
    | ClearTid                  // about to store m->tid = 0
    | ClearFlag(entered: bool)  // about to run atomic_flag_clear
    | WakeCall                  // about to FUTEX_WAKE one sleeper

  datatype Client = Client(pc: Pc, done: nat)

  /** `tid` is 0 or the thread's number plus one. `rogues` may unlock without locking. */
  datatype State = State(
    form: Form, rogues: set<nat>, iterations: nat,
    flag: bool, tid: nat, counter: nat, aborted: bool, clients: seq<Client>)

  datatype Action =
    | Begin(t: nat)             // next iteration: call lock
    | Rogue(t: nat)             // call unlock without lock
    | Run(t: nat, pick: nat)    // `pick` is the sleeper FUTEX_WAKE wakes
    | Spurious(t: nat)          // FUTEX_WAIT returns 0 without a wake
    | WaitFails(t: nat)         // FUTEX_WAIT returns -1 with an errno other than EAGAIN
    | WakeFails(t: nat)         // FUTEX_WAKE returns -1

  predicate NobodyAsleep(s: State) {
    forall i :: 0 <= i < |s.clients| ==> !s.clients[i].pc.Asleep?
  }

  predicate Waiting(c: Client) {
    c.pc.WaitCall? || c.pc.Asleep?
  }

  function Goto(s: State, t: nat, pc: Pc): State
    requires t < |s.clients|
  {
    s.(clients := s.clients[t := s.clients[t].(pc := pc)])
  }

  function Finish(s: State, t: nat): State
    requires t < |s.clients|
  {
    s.(clients := s.clients[t := Client(Rest, s.clients[t].done + 1)])
  }

  function Wake(s: State, t: nat, pick: nat): State
    requires t < |s.clients|
  {
    if pick < |s.clients| && pick != t && s.clients[pick].pc.Asleep? then Finish(Goto(s, pick, TestSet), t)
    else if NobodyAsleep(s) then Finish(s, t)
    else s
  }

  function RunStep(s: State, t: nat, pick: nat): State
    requires t < |s.clients|
  {
    match s.clients[t].pc
    case Rest => s
    case Asleep => s
    case TestSet =>
      if s.flag then Goto(s, t, WaitCall)
      else Goto(s.(flag := true), t, if s.form.Futex? then SetTid else Load)
    case WaitCall =>
      // FUTEX_WAIT is called with expected value 0: it sleeps only if the word is 0 by now
      if s.form.Futex? && !s.flag then Goto(s, t, Asleep) else Goto(s, t, TestSet)
    case SetTid => Goto(s.(tid := t + 1), t, Load)
    case Load => Goto(s, t, Store(s.counter))
    case Store(r) =>
      Goto(s.(counter := r + 1), t, if s.form.Futex? then CheckTid(true) else ClearFlag(true))
    case CheckTid(entered) => if s.tid != t + 1 then s.(aborted := true) else Goto(s, t, ClearTid)
    case ClearTid => Goto(s.(tid := 0), t, ClearFlag(true))
    case ClearFlag(entered) =>
      if s.form.Futex? then Goto(s.(flag := false), t, WakeCall)
      else if entered then Finish(s.(flag := false), t)
      else Goto(s.(flag := false), t, Rest)
    case WakeCall => Wake(s, t, pick)
  }

  /** abort() ends the whole process: nothing moves after it. */
  function Step(s: State, a: Action): State {
    if s.aborted || a.t >= |s.clients| then s else
    match a
    case Begin(t) =>
      if s.clients[t].pc.Rest? && s.clients[t].done < s.iterations then Goto(s, t, TestSet) else s
    case Rogue(t) =>
      if s.clients[t].pc.Rest? && t in s.rogues
      then Goto(s, t, if s.form.Futex? then CheckTid(false) else ClearFlag(false)) else s
    case Run(t, pick) => RunStep(s, t, pick)
    case Spurious(t) => if s.clients[t].pc.Asleep? then Goto(s, t, TestSet) else s
    case WaitFails(t) => if s.form.Futex? && Waiting(s.clients[t]) then s.(aborted := true) else s
    case WakeFails(t) => if s.form.Futex? && s.clients[t].pc.WakeCall? then s.(aborted := true) else s
  }

  function Exec(s: State, actions: seq<Action>): State {
    if actions == [] then s else Step(Exec(s, actions[..|actions| - 1]), actions[|actions| - 1])
  }

  function Start(form: Form, threads: nat, iterations: nat, rogues: set<nat>): State {
    State(form, rogues, iterations, false, 0, 0, false, seq(threads, _ => Client(Rest, 0)))
  }

  // ----- the invariant -----

  /** Between the successful test-and-set and the clearing of the flag. */
  predicate Inside(c: Client) {
    c.pc.SetTid? || c.pc.Load? || c.pc.Store? || c.pc == CheckTid(true) || c.pc.ClearTid?
    || c.pc == ClearFlag(true)
  }

  /** The stretch in which m->tid names this client. */
  predicate OwnsTid(c: Client) {
    c.pc.Load? || c.pc.Store? || c.pc == CheckTid(true) || c.pc.ClearTid?
  }

  /** Increments this client has stored. */
  function Stored(c: Client): nat {
    c.done + Bit(c.pc == CheckTid(true) || c.pc.ClearTid? || c.pc == ClearFlag(true) || c.pc.WakeCall?)
  }

  function Total(clients: seq<Client>): nat {
    if clients == [] then 0 else Stored(clients[|clients| - 1]) + Total(clients[..|clients| - 1])
  }

  predicate GoodClient(s: State, t: nat)
    requires t < |s.clients|
  {
    var c := s.clients[t];
    && c.done <= s.iterations
    && (c.pc.Rest? || c.pc == CheckTid(false) || c.pc == ClearFlag(false) || c.done < s.iterations)
    && (s.form.Spin? ==> c.pc.Rest? || c.pc.TestSet? || c.pc.WaitCall? || c.pc.Load? || c.pc.Store? || c.pc.ClearFlag?)
    && (c.pc.Store? ==> c.pc.r == s.counter)
    && (s.form.Futex? ==> (s.tid == t + 1 <==> OwnsTid(c)))
    && (c.pc == CheckTid(false) || c.pc == ClearFlag(false) ==> t in s.rogues)
    && (s.form.Futex? ==> c.pc != ClearFlag(false))
  }

  predicate Inv(s: State) {
    && Count(s.clients, Inside) == Bit(s.flag)
    && (forall t :: 0 <= t < |s.clients| ==> GoodClient(s, t))
    && s.tid <= |s.clients|
    && s.counter == Total(s.clients)
  }

  /** A rogue that exists as a client. */
  predicate HasRogue(threads: nat, rogues: set<nat>) {
    exists r :: r in rogues && r < threads
  }

  /** The lock is used correctly, or checks who uses it. */
  predicate Safe(s: State) {
    s.form.Futex? || !HasRogue(|s.clients|, s.rogues)
  }

  lemma {:induction false} TotalUpdate(clients: seq<Client>, t: nat, c: Client)
    requires t < |clients|
    ensures Total(clients[t := c]) == Total(clients) - Stored(clients[t]) + Stored(c)
  {
    var n := |clients| - 1;
    if t == n {
      assert clients[t := c][..n] == clients[..n];
    } else {
      assert clients[t := c][..n] == clients[..n][t := c];
      TotalUpdate(clients[..n], t, c);
    }
  }

  lemma {:induction false} TotalFinished(clients: seq<Client>, n: nat)
    requires forall t :: 0 <= t < |clients| ==> Stored(clients[t]) == n
    ensures Total(clients) == |clients| * n
  {
    if clients != [] {
      var k := |clients| - 1;
      TotalFinished(clients[..k], n);
      assert |clients| * n == k * n + n;
    }
  }

  /** The other client a step changes: the sleeper that is woken. */
  function Picked(s: State, a: Action): nat
    requires a.t < |s.clients|
  {
    if a.Run? && s.clients[a.t].pc.WakeCall? && a.pick < |s.clients| && s.clients[a.pick].pc.Asleep?
    then a.pick else a.t
  }

  lemma StepClients(s: State, a: Action)
    requires a.t < |s.clients|
    ensures var s', w := Step(s, a), Picked(s, a);
            && |s'.clients| == |s.clients| && w < |s.clients|
            && s'.clients == s.clients[w := s'.clients[w]][a.t := s'.clients[a.t]]
            && s'.form == s.form && s'.rogues == s.rogues && s'.iterations == s.iterations
            && (w != a.t && s'.clients[w] != s.clients[w] ==>
                  s'.clients[w] == s.clients[w].(pc := TestSet))
  {
  }

  lemma CountsAfter(s: State, a: Action)
    requires a.t < |s.clients|
    ensures var s' := Step(s, a);
            && Count(s'.clients, Inside) ==
               Count(s.clients, Inside) - Bit(Inside(s.clients[a.t])) + Bit(Inside(s'.clients[a.t]))
            && Total(s'.clients) == Total(s.clients) - Stored(s.clients[a.t]) + Stored(s'.clients[a.t])
  {
    StepClients(s, a);
    var s', w := Step(s, a), Picked(s, a);
    CountUpdate(s.clients, w, s'.clients[w], Inside);
    CountUpdate(s.clients[w := s'.clients[w]], a.t, s'.clients[a.t], Inside);
    TotalUpdate(s.clients, w, s'.clients[w]);
    TotalUpdate(s.clients[w := s'.clients[w]], a.t, s'.clients[a.t]);
  }

  lemma Alone(s: State, t: nat, u: nat)
    requires Inv(s) && t < |s.clients| && u < |s.clients| && Inside(s.clients[t]) && Inside(s.clients[u])
    ensures t == u
  {
    if t < u { CountAtLeastTwo(s.clients, t, u, Inside); }
    if u < t { CountAtLeastTwo(s.clients, u, t, Inside); }
  }

  lemma MoverKept(s: State, a: Action)
    requires Inv(s) && Safe(s) && a.t < |s.clients|
    ensures var s' := Step(s, a);
            |s'.clients| == |s.clients| && GoodClient(s', a.t) && s'.tid <= |s.clients|
  {
    StepClients(s, a);
    assert GoodClient(s, a.t);
  }

  lemma OtherKept(s: State, a: Action, u: nat)
    requires Inv(s) && Safe(s) && a.t < |s.clients| && u < |s.clients| && u != a.t
    ensures var s' := Step(s, a); |s'.clients| == |s.clients| && GoodClient(s', u)
  {
    StepClients(s, a);
    assert GoodClient(s, u) && GoodClient(s, a.t);
    if Inside(s.clients[u]) {
      CountAtLeastOne(s.clients, u, Inside);
      if Inside(s.clients[a.t]) { Alone(s, a.t, u); }
    }
  }

  /** The flag says whether somebody is inside, and every store is in the counter. */
  lemma TotalsKept(s: State, a: Action)
    requires Inv(s) && Safe(s) && a.t < |s.clients|
    ensures var s' := Step(s, a);
            Count(s'.clients, Inside) == Bit(s'.flag) && s'.counter == Total(s'.clients)
  {
    CountsAfter(s, a);
    assert GoodClient(s, a.t);
    if Inside(s.clients[a.t]) { CountAtLeastOne(s.clients, a.t, Inside); }
  }

  lemma StepKeepsInv(s: State, a: Action)
    requires Inv(s) && Safe(s)
    ensures Inv(Step(s, a)) && Safe(Step(s, a))
  {
    if a.t < |s.clients| {
      StepClients(s, a);
      TotalsKept(s, a);
      MoverKept(s, a);
      forall u | 0 <= u < |s.clients| && u != a.t ensures GoodClient(Step(s, a), u) {
        OtherKept(s, a, u);
      }
    }
  }

  lemma {:induction false} AlwaysInv(s: State, actions: seq<Action>)
    requires Inv(s) && Safe(s)
    ensures var e := Exec(s, actions);
            && Inv(e) && Safe(e)
            && e.form == s.form && e.rogues == s.rogues && e.iterations == s.iterations
            && |e.clients| == |s.clients|
  {
    if actions != [] {
      var n := |actions| - 1;
      AlwaysInv(s, actions[..n]);
      var mid := Exec(s, actions[..n]);
      StepKeepsInv(mid, actions[n]);
      if actions[n].t < |mid.clients| { StepClients(mid, actions[n]); }
    }
  }

  lemma {:induction false} StartInv(form: Form, threads: nat, iterations: nat, rogues: set<nat>)
    ensures Inv(Start(form, threads, iterations, rogues))
  {
    var s := Start(form, threads, iterations, rogues);
    CountNone(s.clients, Inside);
    TotalFinished(s.clients, 0);
  }

  // ----- what it guarantees -----

  lemma TidNamesInside(s: State)
    requires Inv(s) && s.form.Futex?
    ensures s.tid != 0 ==> s.flag && s.tid <= |s.clients| && Inside(s.clients[s.tid - 1])
  {
    if s.tid != 0 {
      assert GoodClient(s, s.tid - 1);
      CountAtLeastOne(s.clients, s.tid - 1, Inside);
    }
  }

  /** Mutual exclusion, and the owner field is 0 or names the client inside. */
  lemma OwnerField(form: Form, threads: nat, iterations: nat, rogues: set<nat>, actions: seq<Action>)
    requires form.Futex?
    ensures var s := Exec(Start(form, threads, iterations, rogues), actions);
            && (forall t, u | 0 <= t < |s.clients| && 0 <= u < |s.clients| ::
                  Inside(s.clients[t]) && Inside(s.clients[u]) ==> t == u)
            && (s.tid != 0 ==> s.flag && s.tid <= |s.clients| && Inside(s.clients[s.tid - 1]))
  {
    StartInv(form, threads, iterations, rogues);
    AlwaysInv(Start(form, threads, iterations, rogues), actions);
    var s := Exec(Start(form, threads, iterations, rogues), actions);
    forall t, u | 0 <= t < |s.clients| && 0 <= u < |s.clients| && Inside(s.clients[t]) && Inside(s.clients[u])
      ensures t == u { Alone(s, t, u); }
    TidNamesInside(s);
  }

  /** mutex_unlock by a client that did not lock always aborts and leaves the flag alone; by
      one that did lock, it never aborts. */
  lemma UnlockChecksOwner(form: Form, threads: nat, iterations: nat, rogues: set<nat>, actions: seq<Action>,
                          t: nat, pick: nat)
    requires form.Futex?
    requires var s := Exec(Start(form, threads, iterations, rogues), actions);
             t < |s.clients| && s.clients[t].pc.CheckTid? && !s.aborted
    ensures var s := Exec(Start(form, threads, iterations, rogues), actions);
            var s' := Step(s, Run(t, pick));
            && s'.flag == s.flag && s'.tid == s.tid
            && (s'.aborted <==> !s.clients[t].pc.entered)
  {
    StartInv(form, threads, iterations, rogues);
    AlwaysInv(Start(form, threads, iterations, rogues), actions);
    var s := Exec(Start(form, threads, iterations, rogues), actions);
    assert GoodClient(s, t);
  }

  predicate Finished(s: State) {
    forall t :: 0 <= t < |s.clients| ==> s.clients[t] == Client(Rest, s.iterations)
  }

  /** When all clients have finished, under either lock, no increment has been lost. */
  lemma NoLostUpdate(form: Form, threads: nat, iterations: nat, rogues: set<nat>, actions: seq<Action>)
    requires form.Futex? || !HasRogue(threads, rogues)
    ensures var s := Exec(Start(form, threads, iterations, rogues), actions);
            Finished(s) ==> s.counter == threads * iterations
  {
    StartInv(form, threads, iterations, rogues);
    AlwaysInv(Start(form, threads, iterations, rogues), actions);
    var s := Exec(Start(form, threads, iterations, rogues), actions);
    if Finished(s) { TotalFinished(s.clients, iterations); }
  }

  // ----- who aborts -----

  /** The futex calls that fail in a run are of the kinds allowed. */
  predicate FailuresOf(actions: seq<Action>, waits: bool, wakes: bool) {
    forall i :: 0 <= i < |actions| ==> (actions[i].WaitFails? ==> waits) && (actions[i].WakeFails? ==> wakes)
  }

  lemma AbortStep(s: State, a: Action)
    requires Inv(s) && Safe(s) && !s.aborted && Step(s, a).aborted
    ensures s.form.Futex? && (a.WaitFails? || a.WakeFails? || HasRogue(|s.clients|, s.rogues))
    ensures a.WaitFails? ==> a.t < |s.clients| && Waiting(s.clients[a.t])
    ensures a.WakeFails? ==> a.t < |s.clients| && s.clients[a.t].done < s.iterations
  {
    assert GoodClient(s, a.t);
  }

  /** In every run, an abort comes from a FUTEX_WAIT or a FUTEX_WAKE that failed or from a
      rogue, and only in the futex form. */
  lemma {:induction false} AbortCause(s: State, actions: seq<Action>)
    requires Inv(s) && Safe(s) && !s.aborted && Exec(s, actions).aborted
    ensures s.form.Futex? && (!FailuresOf(actions, false, false) || HasRogue(|s.clients|, s.rogues))
  {
    var n := |actions| - 1;
    var mid := Exec(s, actions[..n]);
    AlwaysInv(s, actions[..n]);
    if mid.aborted {
      AbortCause(s, actions[..n]);
      if FailuresOf(actions, false, false) {
        assert forall i :: 0 <= i < n ==> actions[..n][i] == actions[i];
      }
    } else {
      AbortStep(mid, actions[n]);
    }
  }
}
