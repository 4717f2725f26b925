/** What the test program can do: which positions of writer and reader are reached, and that
    every gap, if there were one, would be counted. */
module QueueHarnessRuns {
  import opened Counting
  import opened QueueMonitor
  import opened QueueInvariant
  import opened QueueTheorems
  import opened QueueRuns
  import opened QueueHarness

  // ----- the error line -----

  /** The checks of a run that find a value other than the one expected. */
  function Gaps(h: Harness, actions: seq<HAction>): nat
    requires |h.m.pcs| >= 2
  {
    if actions == [] then 0 else
    var before := HExec(h, actions[..|actions| - 1]);
    Gaps(h, actions[..|actions| - 1]) +
    Bit(actions[|actions| - 1].ReaderChecks? && before.r.RBack? && before.r.ok && before.r.val != before.r.expected)
  }

  /** From any state, also from one that no run reaches, each such check prints one error line
      and nothing else does. */
  lemma {:induction false} ErrorsAreGaps(h: Harness, actions: seq<HAction>)
    requires |h.m.pcs| >= 2
    ensures HExec(h, actions).errors == h.errors + Gaps(h, actions)
  {
    if actions != [] { ErrorsAreGaps(h, actions[..|actions| - 1]); }
  }

  // ----- positions -----

  ghost predicate HReachable(variant: Variant, threads: nat, maxCount: nat, h: Harness)
    requires threads >= 2
  {
    exists actions :: HExec(HStart(variant, threads, maxCount), actions) == h
  }

  lemma HThen(variant: Variant, threads: nat, maxCount: nat, h: Harness, a: HAction)
    requires threads >= 2 && HReachable(variant, threads, maxCount, h) && |h.m.pcs| >= 2
    ensures HReachable(variant, threads, maxCount, HStep(h, a))
  {
    var actions :| HExec(HStart(variant, threads, maxCount), actions) == h;
    assert (actions + [a])[..|actions|] == actions;
    assert HExec(HStart(variant, threads, maxCount), actions + [a]) == HStep(h, a);
  }

  /** Inside a call the test program leaves the queue machine alone. */
  lemma HStepInCall(h: Harness, a: Action)
    requires 2 <= |h.m.pcs| && a.Run? && a.t < |h.m.pcs| && !h.m.pcs[a.t].Returning?
    ensures HStep(h, Machine(a)) == h.(m := Step(h.m, a)) && |Step(h.m, a).pcs| == |h.m.pcs|
  {
    HStepSize(h, Machine(a));
  }

  lemma {:induction false} HWorks(variant: Variant, threads: nat, maxCount: nat, h: Harness, t: nat,
                                  actions: seq<Action>)
    requires threads >= 2 && HReachable(variant, threads, maxCount, h) && 2 <= |h.m.pcs| && t < |h.m.pcs|
    requires OnlyRuns(actions, t) && StaysInCall(h.m, actions, t)
    ensures |Exec(h.m, actions).pcs| == |h.m.pcs|
    ensures HReachable(variant, threads, maxCount, h.(m := Exec(h.m, actions)))
  {
    if actions != [] {
      var n := |actions| - 1;
      ShorterWork(h.m, actions, t);
      HWorks(variant, threads, maxCount, h, t, actions[..n]);
      var mid := h.(m := Exec(h.m, actions[..n]));
      HStepInCall(mid, actions[n]);
      HThen(variant, threads, maxCount, mid, Machine(actions[n]));
    } else {
      assert h.(m := Exec(h.m, actions)) == h;
    }
  }

  lemma ShorterWork(s: State, actions: seq<Action>, t: nat)
    requires actions != [] && t < |s.pcs| && OnlyRuns(actions, t) && StaysInCall(s, actions, t)
    ensures var n := |actions| - 1;
            && OnlyRuns(actions[..n], t) && StaysInCall(s, actions[..n], t)
            && actions[n].Run? && actions[n].t == t
            && t < |Exec(s, actions[..n]).pcs| && !Exec(s, actions[..n]).pcs[t].Returning?
  {
    var n := |actions| - 1;
    forall i | 0 <= i < n ensures actions[..n][..i] == actions[..i] && actions[..n][i] == actions[i] {
    }
  }

  /** Nobody is in a call, the writer is about to add i and the reader expects e. */
  predicate Between(h: Harness, i: int, e: int) {
    && |h.m.pcs| >= 2 && h.w == WCall(i) && h.r == RCall(e)
    && h.m.word == FreeWord(h.m.variant)
    && forall t :: 0 <= t < |h.m.pcs| ==> h.m.pcs[t].Idle?
  }

  /** One whole call by the writer or the reader, up to its return. */
  lemma HCall(variant: Variant, threads: nat, maxCount: nat, h: Harness, t: nat, op: Op) returns (next: Harness)
    requires threads >= 2 && HReachable(variant, threads, maxCount, h) && 2 <= |h.m.pcs| && t < |h.m.pcs|
    requires h.m.pcs[t] == Locking(op) && h.m.word == FreeWord(h.m.variant) && !MustWait(h.m.q, op)
    ensures HReachable(variant, threads, maxCount, next)
    ensures next == h.(m := next.m) && Finishes(h.m, next.m, t, op)
  {
    var e := WorksAlone(h.m, t);
    var actions :| OnlyRuns(actions, t) && StaysInCall(h.m, actions, t) && Exec(h.m, actions) == e;
    HWorks(variant, threads, maxCount, h, t, actions);
    next := h.(m := e);
  }

  lemma WriterAddsOne(variant: Variant, threads: nat, maxCount: nat, h: Harness, i: int, e: int) returns (next: Harness)
    requires threads >= 2 && HReachable(variant, threads, maxCount, h) && Between(h, i, e)
    requires |h.m.q.items| < h.m.q.maxCount
    ensures HReachable(variant, threads, maxCount, next) && Between(next, i + 1, e)
    ensures next.m.q.items == h.m.q.items + [i] && next.m.q.maxCount == h.m.q.maxCount
  {
    var h1 := HStep(h, WriterCalls);
    HThen(variant, threads, maxCount, h, WriterCalls);
    var h2 := HCall(variant, threads, maxCount, h1, 0, Add(i));
    var h3 := HStep(h2, Machine(Run(0, 0)));
    HThen(variant, threads, maxCount, h2, Machine(Run(0, 0)));
    next := HStep(h3, WriterLoops);
    HThen(variant, threads, maxCount, h3, WriterLoops);
  }

  lemma ReaderGetsOne(variant: Variant, threads: nat, maxCount: nat, h: Harness, i: int, e: int) returns (next: Harness)
    requires threads >= 2 && HReachable(variant, threads, maxCount, h) && Between(h, i, e)
    requires h.m.q.items != [] && h.m.q.items[0] == e
    ensures HReachable(variant, threads, maxCount, next) && Between(next, i, e + 1)
    ensures next.m.q.items == h.m.q.items[1..] && next.m.q.maxCount == h.m.q.maxCount
  {
    var h1 := HStep(h, ReaderCalls);
    HThen(variant, threads, maxCount, h, ReaderCalls);
    var h2 := HCall(variant, threads, maxCount, h1, 1, Get);
    var h3 := HStep(h2, Machine(Run(1, 1)));
    HThen(variant, threads, maxCount, h2, Machine(Run(1, 1)));
    var h4 := HStep(h3, ReaderChecks);
    HThen(variant, threads, maxCount, h3, ReaderChecks);
    next := HStep(h4, ReaderLoops);
    HThen(variant, threads, maxCount, h4, ReaderLoops);
  }

  /** A call that is refused, up to its return. */
  lemma HRefused(variant: Variant, threads: nat, maxCount: nat, h: Harness, t: nat, op: Op) returns (next: Harness)
    requires threads >= 2 && HReachable(variant, threads, maxCount, h) && 2 <= |h.m.pcs| && t < |h.m.pcs|
    requires h.m.pcs[t] == Locking(op) && h.m.word == FreeWord(h.m.variant)
    requires MustWait(h.m.q, op) && !h.m.variant.CondVar?
    ensures HReachable(variant, threads, maxCount, next)
    ensures next == h.(m := next.m) && Finishes(h.m, next.m, t, op)
  {
    var e := WorksAlone(h.m, t);
    var actions :| OnlyRuns(actions, t) && StaysInCall(h.m, actions, t) && Exec(h.m, actions) == e;
    HWorks(variant, threads, maxCount, h, t, actions);
    next := h.(m := e);
  }

  /** The writer whose value is refused tries the same value again, and nothing is lost. */
  lemma WriterRetries(variant: Variant, threads: nat, maxCount: nat, h: Harness, i: int, e: int) returns (next: Harness)
    requires threads >= 2 && HReachable(variant, threads, maxCount, h) && Between(h, i, e)
    requires !h.m.variant.CondVar? && |h.m.q.items| == h.m.q.maxCount
    ensures HReachable(variant, threads, maxCount, next) && Between(next, i, e)
    ensures next.m.q == h.m.q.(addAttempts := h.m.q.addAttempts + 1)
  {
    var h1 := HStep(h, WriterCalls);
    HThen(variant, threads, maxCount, h, WriterCalls);
    var h2 := HRefused(variant, threads, maxCount, h1, 0, Add(i));
    var h3 := HStep(h2, Machine(Run(0, 0)));
    HThen(variant, threads, maxCount, h2, Machine(Run(0, 0)));
    next := HStep(h3, WriterLoops);
    HThen(variant, threads, maxCount, h3, WriterLoops);
  }

  /** The reader that is refused asks again, expecting the same value. */
  lemma ReaderRetries(variant: Variant, threads: nat, maxCount: nat, h: Harness, i: int, e: int) returns (next: Harness)
    requires threads >= 2 && HReachable(variant, threads, maxCount, h) && Between(h, i, e)
    requires !h.m.variant.CondVar? && h.m.q.items == []
    ensures HReachable(variant, threads, maxCount, next) && Between(next, i, e)
    ensures next.m.q == h.m.q.(getAttempts := h.m.q.getAttempts + 1)
  {
    var h1 := HStep(h, ReaderCalls);
    HThen(variant, threads, maxCount, h, ReaderCalls);
    var h2 := HRefused(variant, threads, maxCount, h1, 1, Get);
    var h3 := HStep(h2, Machine(Run(1, 1)));
    HThen(variant, threads, maxCount, h2, Machine(Run(1, 1)));
    next := HStep(h3, ReaderChecks);
    HThen(variant, threads, maxCount, h3, ReaderChecks);
  }

  lemma {:induction false} MaxCountKept(variant: Variant, threads: nat, maxCount: nat, actions: seq<HAction>)
    requires threads >= 2
    ensures HExec(HStart(variant, threads, maxCount), actions).m.q.maxCount == maxCount
  {
    if actions != [] { MaxCountKept(variant, threads, maxCount, actions[..|actions| - 1]); }
  }

  /** The integers between two positions of a state nobody is in a call in. */
  lemma ItemsBetween(variant: Variant, threads: nat, maxCount: nat, h: Harness, i: int, e: int)
    requires threads >= 2 && HReachable(variant, threads, maxCount, h) && h.w == WCall(i) && h.r == RCall(e)
    ensures 0 <= e <= i && h.m.q.items == seq(i - e, k => e + k)
    ensures |h.m.q.items| <= h.m.q.maxCount == maxCount
  {
    var actions :| HExec(HStart(variant, threads, maxCount), actions) == h;
    HAlways(variant, threads, maxCount, actions);
    ReaderNeverSeesAGap(variant, threads, maxCount, actions);
    MaxCountKept(variant, threads, maxCount, actions);
  }

  lemma {:induction false} Positions(variant: Variant, threads: nat, maxCount: nat, i: nat, e: nat) returns (h: Harness)
    requires threads >= 2 && e <= i <= e + maxCount && (maxCount == 0 ==> i == 0)
    ensures HReachable(variant, threads, maxCount, h) && Between(h, i, e)
    decreases i + e
  {
    if i == 0 {
      h := HStart(variant, threads, maxCount);
      assert HExec(h, []) == h;
    } else if i - 1 >= e {
      h := Positions(variant, threads, maxCount, i - 1, e);
      ItemsBetween(variant, threads, maxCount, h, i - 1, e);
      h := WriterAddsOne(variant, threads, maxCount, h, i - 1, e);
    } else {
      h := Positions(variant, threads, maxCount, i, e - 1);
      ItemsBetween(variant, threads, maxCount, h, i, e - 1);
      h := ReaderGetsOne(variant, threads, maxCount, h, i, e - 1);
    }
  }

  /** The writer comes to add i while the reader expects e, in any of the four variants, if and
      only if the reader is not ahead and the writer at most the capacity ahead; with no
      capacity neither of them ever gets anywhere. */
  lemma PositionsIff(variant: Variant, threads: nat, maxCount: nat, i: int, e: int)
    requires threads >= 2
    ensures (exists h :: HReachable(variant, threads, maxCount, h) && h.w == WCall(i) && h.r == RCall(e)) <==>
            0 <= e <= i <= e + maxCount && (maxCount == 0 ==> i == 0)
  {
    if 0 <= e <= i <= e + maxCount && (maxCount == 0 ==> i == 0) {
      var h := Positions(variant, threads, maxCount, i, e);
    }
    forall h | HReachable(variant, threads, maxCount, h) && h.w == WCall(i) && h.r == RCall(e)
      ensures 0 <= e <= i <= e + maxCount && (maxCount == 0 ==> i == 0)
    {
      ItemsBetween(variant, threads, maxCount, h, i, e);
      if maxCount == 0 { NothingAdded(variant, threads, h); }
    }
  }

  /** Without capacity nothing is ever added. */
  lemma NothingAdded(variant: Variant, threads: nat, h: Harness)
    requires threads >= 2 && HReachable(variant, threads, 0, h) && h.w.WCall?
    ensures h.w.i == 0
  {
    var actions :| HExec(HStart(variant, threads, 0), actions) == h;
    NeverAdds(variant, threads, actions);
    HAlways(variant, threads, 0, actions);
  }

  lemma {:induction false} NeverAdds(variant: Variant, threads: nat, actions: seq<HAction>)
    requires threads >= 2
    ensures Added(HExec(HStart(variant, threads, 0), actions).m.log) == []
  {
    if actions != [] {
      var n := |actions| - 1;
      var before := HExec(HStart(variant, threads, 0), actions[..n]);
      NeverAdds(variant, threads, actions[..n]);
      HAlways(variant, threads, 0, actions[..n]);
      MaxCountKept(variant, threads, 0, actions[..n]);
      NeverAddsStep(before, actions[n]);
    }
  }

  lemma NeverAddsStep(h: Harness, a: HAction)
    requires |h.m.pcs| >= 2 && Inv(h.m) && h.m.q.maxCount == 0 && Added(h.m.log) == []
    ensures Added(HStep(h, a).m.log) == []
  {
    match a
    case WriterCalls => if h.w.WCall? { CallHistory(h.m, Call(0, Add(h.w.i))); }
    case ReaderCalls => if h.r.RCall? { CallHistory(h.m, Call(1, Get)); }
    case Machine(ma) =>
      if ma.t < |h.m.pcs| {
        if ma.Run? {
          assert GoodPc(h.m, h.m.pcs[ma.t]);
          HistoryStep(h.m, ma);
        } else {
          CallHistory(h.m, ma);
        }
      }
    case _ =>
  }
}
