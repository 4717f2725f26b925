/** The user-level scheduler: a table of at most fifteen saved contexts, switched round
    robin, and the program that runs counted loops on it. */
module UserScheduler {
  const MAX_THREADS: nat := 16

  /** Where a thread's own loop `for (i = 0; i < K; i++) { print; schedule(); }` stands. */
  datatype Context =
    | AtTest(t: nat, i: nat)      // about to test i < K
    | InCall(t: nat, i: nat)      // inside schedule(), called in iteration i

  /** The table as a value; `cpu` is the context that is running, slot `cur` is stale. */
  datatype Table = Table(contexts: seq<Context>, cur: nat, cpu: Context)

  predicate Ok(s: Table) {
    s.cur < |s.contexts| < MAX_THREADS
  }

  /** uthread_create: one slot of the sixteen is never used. */
  function Created(s: Table, c: Context): Table {
    if |s.contexts| >= MAX_THREADS - 1 then s else s.(contexts := s.contexts + [c])
  }

  /** Who comes after `cur` in a ring of n. */
  function Following(cur: nat, n: nat): nat {
    if cur + 1 == n then 0 else cur + 1
  }

  /** schedule: save the running context in its slot, load the next one. */
  function Switched(s: Table): Table
    requires Ok(s)
  {
    var saved := s.contexts[s.cur := s.cpu];
    var next := Following(s.cur, |saved|);
    Table(saved, next, saved[next])
  }

  lemma PositiveMultiple(k: int, n: nat)
    requires k > 0
    ensures k * n >= n
  {
    assert k * n == (k - 1) * n + n;
  }

  /** Two multiples of n less than n apart are equal. */
  lemma SameMultiple(a: int, b: int, n: nat)
    requires a * n - b * n < n && b * n - a * n < n
    ensures a == b
  {
    if a > b {
      assert (a - b) * n == a * n - b * n;
      PositiveMultiple(a - b, n);
    } else if a < b {
      assert (b - a) * n == b * n - a * n;
      PositiveMultiple(b - a, n);
    }
  }

  /** n * q + r with r below n has quotient q and remainder r. */
  lemma QuotientUnique(q: nat, r: nat, n: nat)
    requires r < n
    ensures (q * n + r) / n == q && (q * n + r) % n == r
  {
    var x := q * n + r;
    assert x == (x / n) * n + x % n;
    SameMultiple(x / n, q, n);
  }

  /** The remainder goes round the ring. */
  lemma NextTurn(x: nat, n: nat)
    requires n > 0
    ensures (x + 1) % n == Following(x % n, n)
  {
    var q, r := x / n, x % n;
    if r + 1 == n {
      assert x + 1 == (q + 1) * n + 0;
      QuotientUnique(q + 1, 0, n);
    } else {
      assert x + 1 == q * n + (r + 1);
      QuotientUnique(q, r + 1, n);
    }
  }

  lemma NextSlot(cur: nat, n: nat)
    requires cur < n
    ensures (cur + 1) % n == Following(cur, n)
  {
    QuotientUnique(0, cur, n);
    NextTurn(cur, n);
  }

  class Scheduler {
    const threads: array<Context>
    var threadCount: nat
    var curThread: nat
    var cpu: Context

    ghost predicate Valid()
      reads this
    {
      threads.Length == MAX_THREADS && curThread < threadCount < MAX_THREADS
    }

    ghost function View(): Table
      reads this, threads
      requires Valid()
    {
      Table(threads[..threadCount], curThread, cpu)
    }

    /** scheduler_init: the running thread becomes thread 0. */
    constructor (main: Context)
      ensures Valid() && fresh(threads) && View() == Table([main], 0, main)
    {
      threads := new Context[MAX_THREADS](_ => main);
      curThread, threadCount, cpu := 0, 1, main;
    }

    method Create(c: Context) returns (ok: bool)
      requires Valid()
      modifies this`threadCount, threads
      ensures Valid() && View() == Created(old(View()), c)
      ensures ok == (old(threadCount) < 15)
    {
      if threadCount >= MAX_THREADS - 1 {
        return false;
      }
      threads[threadCount] := c;
      threadCount := threadCount + 1;
      return true;
    }

    method Schedule()
      requires Valid()
      modifies this`curThread, this`cpu, threads
      ensures Valid() && View() == Switched(old(View()))
    {
      threads[curThread] := cpu;
      NextSlot(curThread, threadCount);
      curThread := (curThread + 1) % threadCount;
      cpu := threads[curThread];
    }
  }

  // ----- bounded waiting -----

  datatype Event =
    | Create(c: Context)
    | Schedule
    | Work(c: Context)            // the running thread gets on with its own code

  function After(s: Table, events: seq<Event>): (r: Table)
    requires Ok(s)
    ensures Ok(r) && |r.contexts| >= |s.contexts|
  {
    if events == [] then s else
    var before := After(s, events[..|events| - 1]);
    match events[|events| - 1]
    case Create(c) => Created(before, c)
    case Schedule => Switched(before)
    case Work(c) => before.(cpu := c)
  }

  function Schedules(events: seq<Event>): nat {
    if events == [] then 0 else
    Schedules(events[..|events| - 1]) + if events[|events| - 1].Schedule? then 1 else 0
  }

  /** An upper bound on the schedule calls before thread j runs again, growth included. */
  function Distance(s: Table, j: nat): nat
    requires Ok(s) && j < |s.contexts|
  {
    if s.cur < j then j - s.cur else MAX_THREADS - 1 - s.cur + j
  }

  /** Every schedule call that does not reach j brings it closer, also across the wrap. */
  lemma DistanceShrinks(s: Table, j: nat)
    requires Ok(s) && j < |s.contexts|
    ensures Distance(s, j) > 0
    ensures Switched(s).cur == j || Distance(Switched(s), j) < Distance(s, j)
  {
  }

  lemma {:induction false} RunsWithin(s: Table, events: seq<Event>, j: nat) returns (k: nat)
    requires Ok(s) && j < |s.contexts| && Schedules(events) >= 1
    ensures k <= |events|
    ensures || (After(s, events[..k]).cur == j && Schedules(events[..k]) >= 1)
            || (k == |events| && Distance(After(s, events), j) + Schedules(events) <= Distance(s, j))
    ensures Schedules(events[..k]) <= Distance(s, j)
  {
    var n := |events| - 1;
    assert events[..n + 1] == events;
    var before := events[..n];
    var mid := After(s, before);
    if Schedules(before) == 0 {
      CurStays(s, before);
      DistanceShrinks(mid, j);
      k := n + 1;
    } else {
      k := RunsWithin(s, before, j);
      assert before[..k] == events[..k];
      if !(After(s, events[..k]).cur == j && Schedules(events[..k]) >= 1) {
        if events[n].Schedule? { DistanceShrinks(mid, j); }
        k := n + 1;
      }
    }
  }

  lemma {:induction false} CurStays(s: Table, events: seq<Event>)
    requires Ok(s) && Schedules(events) == 0
    ensures After(s, events).cur == s.cur
  {
    if events != [] {
      CurStays(s, events[..|events| - 1]);
    }
  }

  /** However creations and schedule calls are mixed, every thread in the table is running
      again after at most fifteen more schedule calls. */
  lemma BoundedWaiting(s: Table, events: seq<Event>, j: nat) returns (k: nat)
    requires Ok(s) && j < |s.contexts| && Schedules(events) >= 15
    ensures k <= |events| && 1 <= Schedules(events[..k]) <= 15
    ensures After(s, events[..k]).cur == j
  {
    k := RunsWithin(s, events, j);
    assert events[..|events|] == events;
    assert Distance(s, j) <= 15;
  }

  /** The same run on the scheduler itself: creations, schedule calls and whatever the running
      thread does in between, in any order. */
  method Play(s: Scheduler, events: seq<Event>)
    requires s.Valid()
    modifies s, s.threads
    ensures s.Valid() && s.View() == After(old(s.View()), events)
  {
    var n := 0;
    while n < |events|
      invariant 0 <= n <= |events| && s.Valid()
      invariant s.View() == After(old(s.View()), events[..n])
    {
      assert events[..n + 1][..n] == events[..n];
      match events[n] {
        case Create(c) => var ok := s.Create(c);
        case Schedule => s.Schedule();
        case Work(c) => s.cpu := c;
      }
      n := n + 1;
    }
    assert events[..n] == events;
  }

  function Creations(events: seq<Event>): nat {
    if events == [] then 0 else
    Creations(events[..|events| - 1]) + if events[|events| - 1].Create? then 1 else 0
  }

  /** Every creation adds one thread, until there are fifteen. */
  lemma {:induction false} TableGrows(s: Table, events: seq<Event>)
    requires Ok(s)
    ensures |After(s, events).contexts| ==
            if |s.contexts| + Creations(events) <= 15 then |s.contexts| + Creations(events) else 15
  {
    if events != [] { TableGrows(s, events[..|events| - 1]); }
  }

  /** Without creations the turns go round exactly: turn k belongs to (cur + k) mod n. */
  lemma {:induction false} ExactRotation(s: Table, events: seq<Event>)
    requires Ok(s) && forall i :: 0 <= i < |events| ==> !events[i].Create?
    ensures |After(s, events).contexts| == |s.contexts|
    ensures After(s, events).cur == (s.cur + Schedules(events)) % |s.contexts|
  {
    if events == [] {
      QuotientUnique(0, s.cur, |s.contexts|);
    } else {
      var n := |events| - 1;
      assert !events[n].Create?;
      ExactRotation(s, events[..n]);
      if events[n].Schedule? { NextTurn(s.cur + Schedules(events[..n]), |s.contexts|); }
    }
  }

  // ----- saved contexts -----

  /** While another thread runs, a saved context is not touched. */
  lemma {:induction false} SlotKept(s: Table, events: seq<Event>, j: nat)
    requires Ok(s) && j < |s.contexts|
    requires forall k :: 0 <= k < |events| ==> After(s, events[..k]).cur != j
    ensures After(s, events).contexts[j] == s.contexts[j]
  {
    if events != [] {
      var n := |events| - 1;
      assert forall k :: 0 <= k < n ==> events[..n][..k] == events[..k];
      SlotKept(s, events[..n], j);
      assert After(s, events[..n]).cur != j;
    }
  }

  /** A thread that calls schedule() goes on, on its next turn, exactly where it was. */
  lemma ResumesWhereItLeft(s: Table, events: seq<Event>)
    requires Ok(s) && |s.contexts| > 1 && events != [] && events[|events| - 1].Schedule?
    requires forall k :: 0 <= k < |events| ==> After(Switched(s), events[..k]).cur != s.cur
    requires After(Switched(s), events).cur == s.cur
    ensures After(Switched(s), events).cpu == s.cpu
  {
    var n := |events| - 1;
    assert forall k :: 0 <= k < n ==> events[..n][..k] == events[..k];
    SlotKept(Switched(s), events[..n], s.cur);
    assert After(Switched(s), events[..n]).cur != s.cur;
  }

  // ----- the whole run -----

  /** The first `len` prints of an endless round robin over n threads. */
  function RoundRobin(n: nat, len: nat): seq<(nat, nat)>
    requires n > 0
  {
    seq(len, p requires 0 <= p < len => (p % n, p / n))
  }

  /** The thread whose loop ends first: fewest iterations, then lowest number. */
  predicate EndsFirst(loops: seq<nat>, f: nat) {
    && f < |loops|
    && (forall u :: 0 <= u < |loops| ==> loops[u] >= loops[f])
    && (forall u :: 0 <= u < f ==> loops[u] > loops[f])
  }

  /** Where thread u stands while thread t is about to test its loop in round r. */
  function Suspended(u: nat, t: nat, r: nat): Context {
    if u < t then InCall(u, r) else if r == 0 then AtTest(u, 0) else InCall(u, r - 1)
  }

  /** How many prints n threads make in r rounds. */
  function InRounds(n: nat, r: nat): nat {
    if r == 0 then 0 else InRounds(n, r - 1) + n
  }

  lemma {:induction false} RoundsMultiply(n: nat, r: nat)
    ensures InRounds(n, r) == r * n
  {
    if r > 0 { RoundsMultiply(n, r - 1); }
  }

  lemma RoundRobinPush(n: nat, r: nat, t: nat)
    requires t < n
    ensures RoundRobin(n, InRounds(n, r) + t) + [(t, r)] == RoundRobin(n, InRounds(n, r) + t + 1)
  {
    RoundsMultiply(n, r);
    QuotientUnique(r, t, n);
  }

  method SetUp(loops: seq<nat>) returns (s: Scheduler)
    requires 1 <= |loops| < MAX_THREADS
    ensures s.Valid() && fresh(s) && fresh(s.threads)
    ensures s.View() == Table(seq(|loops|, (u: nat) => AtTest(u, 0)), 0, AtTest(0, 0))
  {
    s := new Scheduler(AtTest(0, 0));
    var u := 1;
    while u < |loops|
      invariant 1 <= u <= |loops| && s.Valid() && fresh(s) && fresh(s.threads)
      invariant s.View() == Table(seq(u, (v: nat) => AtTest(v, 0)), 0, AtTest(0, 0))
    {
      var ok := s.Create(AtTest(u, 0));
      assert ok;
      u := u + 1;
    }
  }

  /** Every thread but t is saved where it stands while t is about to test in round r. */
  ghost predicate Parked(s: Scheduler, t: nat, r: nat)
    reads s, s.threads
  {
    && s.Valid() && t == s.curThread && s.cpu == AtTest(t, r)
    && forall u :: 0 <= u < s.threadCount && u != t ==> s.threads[u] == Suspended(u, t, r)
  }

  /** The rest of an iteration after the print: schedule(), and the next thread goes on with
      its i++ and its test, or starts its routine. */
  method Turn(s: Scheduler, t: nat, r: nat) returns (next: nat, round: nat)
    requires Parked(s, t, r)
    modifies s`curThread, s`cpu, s.threads
    ensures Parked(s, next, round)
    ensures next == Following(t, s.threadCount) && round == if next == 0 then r + 1 else r
  {
    ghost var before := s.threads[..s.threadCount];
    s.cpu := InCall(t, r);
    s.Schedule();
    assert s.threads[..s.threadCount] == before[t := InCall(t, r)];
    assert forall u :: 0 <= u < s.threadCount ==> s.threads[u] == s.threads[..s.threadCount][u];
    next := s.curThread;
    round := if next == 0 then r + 1 else r;
    if s.cpu.InCall? {
      s.cpu := AtTest(s.cpu.t, s.cpu.i + 1);
    }
  }

  /** main creates the other threads and all run their counted loops: thread u prints and
      yields loops[u] times. The run ends when the first loop ends, because returning from
      main, or from a routine without uc_link, ends the process. That loop is main's exactly
      when no other loop is shorter. */
  method RunToFirstReturn(loops: seq<nat>) returns (out: seq<(nat, nat)>, f: nat, s: Scheduler)
    requires 1 <= |loops| < MAX_THREADS
    ensures EndsFirst(loops, f)
    ensures f == 0 <==> forall u :: 0 <= u < |loops| ==> loops[0] <= loops[u]
    ensures out == RoundRobin(|loops|, InRounds(|loops|, loops[f]) + f)
    ensures s.threadCount == |loops| && Parked(s, f, loops[f])
  {
    var n := |loops|;
    s := SetUp(loops);
    assert forall u :: 0 <= u < n ==> s.threads[u] == s.View().contexts[u];
    out := [];
    var r := 0;
    f := 0;
    while r < loops[f]
      invariant f < n && s.threadCount == n && fresh(s) && fresh(s.threads)
      invariant Parked(s, f, r)
      invariant forall u :: 0 <= u < n ==> loops[u] >= r
      invariant forall u :: 0 <= u < f ==> loops[u] > r
      invariant out == RoundRobin(n, InRounds(n, r) + f)
      decreases loops[0] - r, n - f
    {
      RoundRobinPush(n, r, f);
      out := out + [(f, r)];
      f, r := Turn(s, f, r);
    }
    MainFirstIff(loops, f);
  }

  lemma MainFirstIff(loops: seq<nat>, f: nat)
    requires EndsFirst(loops, f)
    ensures f == 0 <==> forall u :: 0 <= u < |loops| ==> loops[0] <= loops[u]
  {
    if f != 0 { assert loops[0] > loops[f]; }
  }

  /** K rounds of n threads: k * n prints, and print r * n + t is thread t's iteration r. */
  lemma RoundsInOrder(n: nat, k: nat, r: nat, t: nat)
    requires t < n && r < k
    ensures InRounds(n, k) == k * n && r * n + t < k * n
    ensures RoundRobin(n, InRounds(n, k))[r * n + t] == (t, r)
  {
    RoundsMultiply(n, k);
    QuotientUnique(r, t, n);
    assert k * n == r * n + (k - r) * n;
    PositiveMultiple(k - r, n);
  }

  /** The program of main.c: equal loops give exactly K full rounds, and main ends first,
      with every other thread still suspended inside its last schedule call. */
  method RunEqualLoops(n: nat, k: nat) returns (out: seq<(nat, nat)>, s: Scheduler)
    requires 1 <= n < MAX_THREADS
    ensures out == RoundRobin(n, InRounds(n, k))
    ensures s.threadCount == n && Parked(s, 0, k)
  {
    var f;
    out, f, s := RunToFirstReturn(seq(n, _ => k));
  }
}
