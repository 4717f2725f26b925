/** What the statistics of the list program count, in terms of the schedule alone: which steps
    of which threads add one, and to which of the four counters. */
module ListCounts {
  import opened Counting
  import opened ListMachine
  import opened ListInvariant

  // ----- events of a run -----

  /** A swapper draws an odd number. */
  predicate DrawsTrue(s: State, t: nat, coin: bool)
    requires Wellformed(s)
  {
    t < |s.threads| && !Blocked(s, t) && s.threads[t].pc.Toss? && coin
  }

  /** A scanner of this kind finds no next node. */
  predicate LeavesList(s: State, t: nat, kind: Kind)
    requires Wellformed(s)
  {
    && t < |s.threads| && !Blocked(s, t)
    && s.threads[t].role == Scanner(kind) && s.threads[t].pc == AtNode(|s.cells| - 1)
  }

  /** How often the swappers of a run draw an odd number. */
  function Draws(s: State, schedule: seq<(nat, bool)>): nat
    requires Wellformed(s)
  {
    if schedule == [] then 0 else
    var (t, coin) := schedule[|schedule| - 1];
    Draws(s, schedule[..|schedule| - 1]) + Bit(DrawsTrue(Exec(s, schedule[..|schedule| - 1]), t, coin))
  }

  /** How many passes the scanners of this kind finish in a run. */
  function Passes(s: State, schedule: seq<(nat, bool)>, kind: Kind): nat
    requires Wellformed(s)
  {
    if schedule == [] then 0 else
    Passes(s, schedule[..|schedule| - 1], kind) +
    Bit(LeavesList(Exec(s, schedule[..|schedule| - 1]), schedule[|schedule| - 1].0, kind))
  }

  // ----- who has not stored yet -----

  predicate BeforeStore(pc: Pc) {
    pc.StatLock? || pc.StatLoad? || pc.StatStore?
  }

  /** Between the draw and the store of swap_attempts. */
  predicate Swapping(th: Thread) {
    th.role.Swapper? && (th.pc.CopyTmp? || th.pc.CopyA? || th.pc.CopyB? || BeforeStore(th.pc))
  }

  function FinishingKind(kind: Kind): Thread -> bool {
    (th: Thread) => th.role == Scanner(kind) && BeforeStore(th.pc)
  }

  lemma OwnDraw(s: State, t: nat, coin: bool)
    requires Wellformed(s) && InvCounters(s) && t < |s.threads| && !Blocked(s, t)
    ensures |NextCounters(s, t)| == 4
    ensures NextCounters(s, t)[3] + Bit(Swapping(NextThread(s, t, coin))) ==
            s.counters[3] + Bit(Swapping(s.threads[t])) + Bit(DrawsTrue(s, t, coin))
  {
    assert GoodPc(|s.cells|, s.threads[t].role, s.threads[t].pc);
  }

  lemma DrawStep(s: State, t: nat, coin: bool)
    requires Wellformed(s) && InvCounters(s)
    ensures var s' := Step(s, t, coin);
            && Wellformed(s')
            && s'.counters[3] + Count(s'.threads, Swapping) ==
               s.counters[3] + Count(s.threads, Swapping) + Bit(DrawsTrue(s, t, coin))
  {
    StepWellformed(s, t, coin);
    if t < |s.threads| && !Blocked(s, t) {
      OwnDraw(s, t, coin);
      CountUpdate(s.threads, t, NextThread(s, t, coin), Swapping);
    }
  }

  /** The three counters of kinds, out of a list of four. */
  function OfKind(counters: seq<nat>, kind: Kind): nat
    requires |counters| == 4
  {
    match kind
    case Increasing => counters[0]
    case Decreasing => counters[1]
    case Equal => counters[2]
  }

  lemma OwnPass(s: State, t: nat, coin: bool, kind: Kind)
    requires Wellformed(s) && InvCounters(s) && t < |s.threads| && !Blocked(s, t)
    ensures |NextCounters(s, t)| == 4
    ensures OfKind(NextCounters(s, t), kind) + Bit(FinishingKind(kind)(NextThread(s, t, coin))) ==
            OfKind(s.counters, kind) + Bit(FinishingKind(kind)(s.threads[t])) + Bit(LeavesList(s, t, kind))
  {
    assert GoodPc(|s.cells|, s.threads[t].role, s.threads[t].pc);
  }

  lemma PassStep(s: State, t: nat, coin: bool, kind: Kind)
    requires Wellformed(s) && InvCounters(s)
    ensures var s' := Step(s, t, coin);
            && Wellformed(s')
            && OfKind(s'.counters, kind) + Count(s'.threads, FinishingKind(kind)) ==
               OfKind(s.counters, kind) + Count(s.threads, FinishingKind(kind)) + Bit(LeavesList(s, t, kind))
  {
    StepWellformed(s, t, coin);
    if t < |s.threads| && !Blocked(s, t) {
      OwnPass(s, t, coin, kind);
      CountUpdate(s.threads, t, NextThread(s, t, coin), FinishingKind(kind));
    }
  }

  /** swap_attempts, plus the swappers that have drawn and not stored yet, is exactly the number
      of odd numbers drawn. */
  lemma {:induction false} SwapsCounted(roles: seq<Role>, strings: seq<string>, schedule: seq<(nat, bool)>)
    requires strings != []
    ensures var s := Exec(Start(roles, strings), schedule);
            s.counters[3] + Count(s.threads, Swapping) == Draws(Start(roles, strings), schedule)
  {
    if schedule == [] {
      CountNone(Start(roles, strings).threads, Swapping);
    } else {
      var n := |schedule| - 1;
      SwapsCounted(roles, strings, schedule[..n]);
      AlwaysInv(roles, strings, schedule[..n]);
      DrawStep(Exec(Start(roles, strings), schedule[..n]), schedule[n].0, schedule[n].1);
    }
  }

  lemma {:induction false} KindCounted(roles: seq<Role>, strings: seq<string>, schedule: seq<(nat, bool)>, kind: Kind)
    requires strings != []
    ensures var start, s := Start(roles, strings), Exec(Start(roles, strings), schedule);
            OfKind(s.counters, kind) + Count(s.threads, FinishingKind(kind)) == Passes(start, schedule, kind)
  {
    if schedule == [] {
      CountNone(Start(roles, strings).threads, FinishingKind(kind));
    } else {
      var n := |schedule| - 1;
      KindCounted(roles, strings, schedule[..n], kind);
      AlwaysInv(roles, strings, schedule[..n]);
      PassStep(Exec(Start(roles, strings), schedule[..n]), schedule[n].0, schedule[n].1, kind);
    }
  }

  /** inc_iters, dec_iters and eq_iters, plus the scanners of that kind that have not stored yet,
      are exactly the passes finished by the scanners of that kind. */
  lemma PassesCounted(roles: seq<Role>, strings: seq<string>, schedule: seq<(nat, bool)>)
    requires strings != []
    ensures var start, s := Start(roles, strings), Exec(Start(roles, strings), schedule);
            && s.counters[0] + Count(s.threads, FinishingKind(Increasing)) == Passes(start, schedule, Increasing)
            && s.counters[1] + Count(s.threads, FinishingKind(Decreasing)) == Passes(start, schedule, Decreasing)
            && s.counters[2] + Count(s.threads, FinishingKind(Equal)) == Passes(start, schedule, Equal)
  {
    KindCounted(roles, strings, schedule, Increasing);
    KindCounted(roles, strings, schedule, Decreasing);
    KindCounted(roles, strings, schedule, Equal);
  }

  // ----- what a scanner counts -----

  predicate Shorter(p: (string, string)) { |p.0| < |p.1| }
  predicate Longer(p: (string, string)) { |p.0| > |p.1| }
  predicate SameLength(p: (string, string)) { |p.0| == |p.1| }

  lemma {:induction false} MatchesByLength(seen: seq<(string, string)>)
    ensures MatchCount(Increasing, seen) == Count(seen, Shorter)
    ensures MatchCount(Decreasing, seen) == Count(seen, Longer)
    ensures MatchCount(Equal, seen) == Count(seen, SameLength)
  {
    if seen != [] { MatchesByLength(seen[..|seen| - 1]); }
  }

  /** At the end of a pass the local counter of inc_thread is the number of neighbours whose
      first was shorter, of dec_thread longer, of eq_thread as long. */
  lemma CountByLength(roles: seq<Role>, strings: seq<string>, schedule: seq<(nat, bool)>, t: nat)
    requires strings != [] && t < |Exec(Start(roles, strings), schedule).threads|
    ensures var th := Exec(Start(roles, strings), schedule).threads[t];
            && (th.role == Scanner(Increasing) ==> th.count == Count(th.seen, Shorter))
            && (th.role == Scanner(Decreasing) ==> th.count == Count(th.seen, Longer))
            && (th.role == Scanner(Equal) ==> th.count == Count(th.seen, SameLength))
  {
    AlwaysInv(roles, strings, schedule);
    var s := Exec(Start(roles, strings), schedule);
    assert PassOk(|s.cells|, s.threads[t]);
    MatchesByLength(s.threads[t].seen);
  }
}
