/** Runs of the cache entry as a whole: when one can end with a reader asleep, how much work
    a state has left, and that everyone who arrived is served. */
module CacheEntryRuns {
  import opened Bytes
  import opened Wrappers
  import opened Counting
  import opened CacheEntryProtocol

  // ----- a download that was given up -----

  /** At rest with a reader asleep. */
  predicate SleepsForGood(s: State) {
    Quiet(s) && exists r :: 0 <= r < |s.readers| && s.readers[r].pc.Asleep?
  }

  ghost predicate CanStrand(s: State) {
    exists actions :: SleepsForGood(Exec(s, actions))
  }

  lemma ExecPush(s: State, actions: seq<Action>, a: Action)
    ensures Exec(s, actions + [a]) == Step(Exec(s, actions), a)
  {
    assert (actions + [a])[..|actions|] == actions;
  }

  /** The download is given up, then reader 0 arrives, finds the entry incomplete and sleeps. */
  lemma StrandingRun(s: State) returns (actions: seq<Action>)
    requires s.down == Next(0) && s.lock == None && !s.isComplete && |s.readers| >= 1
    requires forall r :: 0 <= r < |s.readers| ==> s.readers[r].pc.Away?
    ensures SleepsForGood(Exec(s, actions))
  {
    var one := [] + [GiveUp];
    var two := one + [Arrive(0)];
    var three := two + [Read(0)];
    actions := three + [Read(0)];
    ExecPush(s, [], GiveUp);
    ExecPush(s, one, Arrive(0));
    ExecPush(s, two, Read(0));
    ExecPush(s, three, Read(0));
    var e := Exec(s, actions);
    assert e.readers == s.readers[0 := s.readers[0].(pc := Asleep)] && e.down.GaveUp?;
    assert e.readers[0].pc.Asleep?;
  }

  /** A run can come to rest with a reader asleep if and only if there is a reader: all it
      takes is that the download is given up. */
  lemma CanStrandIff(chunks: seq<seq<Byte>>, readers: nat)
    ensures CanStrand(Start(chunks, readers)) <==> readers >= 1
  {
    if readers >= 1 {
      var actions := StrandingRun(Start(chunks, readers));
      assert SleepsForGood(Exec(Start(chunks, readers), actions));
    } else if CanStrand(Start(chunks, readers)) {
      var actions :| SleepsForGood(Exec(Start(chunks, readers), actions));
      AlwaysInv(chunks, readers, actions);
      assert false;
    }
  }

  // ----- how much work is left -----

  /** An upper bound on the steps a reader still has to make by itself. */
  function Weight(pc: Pc, complete: bool): nat {
    match pc
    case Away => 8
    case Locking => if complete then 4 else 7
    case Woken => if complete then 4 else 7
    case Testing => if complete then 3 else 6
    case Asleep => 5
    case Sending => 2
    case Leaving => 1
    case Gone => 0
  }

  function Weights(readers: seq<Reader>, complete: bool): nat {
    if readers == [] then 0 else
    Weights(readers[..|readers| - 1], complete) + Weight(readers[|readers| - 1].pc, complete)
  }

  function DownloadLeft(s: State): int {
    match s.down
    case Next(k) => 4 * (|s.chunks| - k) + 4
    case Copy(k) => 4 * (|s.chunks| - k) + 3
    case Size(k) => 4 * (|s.chunks| - k) + 2
    case Unlock(k) => 4 * (|s.chunks| - k) + 1
    case Mark => 3
    case Broadcast => 2
    case LastUnlock => 1
    case Finished => 0
    case GaveUp => 0
  }

  function Measure(s: State): int {
    DownloadLeft(s) + Weights(s.readers, s.isComplete)
  }

  lemma {:induction false} WeightsUpdate(readers: seq<Reader>, r: nat, x: Reader, complete: bool)
    requires r < |readers|
    ensures Weights(readers[r := x], complete) ==
            Weights(readers, complete) - Weight(readers[r].pc, complete) + Weight(x.pc, complete)
  {
    var n := |readers| - 1;
    if r == n {
      assert readers[r := x][..n] == readers[..n];
    } else {
      assert readers[r := x][..n] == readers[..n][r := x];
      WeightsUpdate(readers[..n], r, x, complete);
    }
  }

  lemma {:induction false} WeightsLess(a: seq<Reader>, b: seq<Reader>, ca: bool, cb: bool)
    requires |a| == |b| && forall r :: 0 <= r < |a| ==> Weight(a[r].pc, ca) <= Weight(b[r].pc, cb)
    ensures Weights(a, ca) <= Weights(b, cb)
  {
    if a != [] {
      WeightsLess(a[..|a| - 1], b[..|b| - 1], ca, cb);
    }
  }

  lemma {:induction false} WeightsBound(readers: seq<Reader>, complete: bool)
    ensures Weights(readers, complete) <= 8 * |readers|
  {
    if readers != [] { WeightsBound(readers[..|readers| - 1], complete); }
  }

  lemma DownloadWorks(s: State)
    requires Inv(s) && DownloadStep(s) != s
    ensures Measure(DownloadStep(s)) < Measure(s)
  {
    var s' := DownloadStep(s);
    WeightsLess(s'.readers, s.readers, s'.isComplete, s.isComplete);
  }

  /** A reader's step changes only that reader, and not whether the entry is complete. */
  lemma OnlyOneReader(s: State, a: Action)
    requires Inv(s) && !a.Download? && !a.GiveUp? && Step(s, a) != s
    ensures a.r < |s.readers| == |Step(s, a).readers|
    ensures Step(s, a).readers == s.readers[a.r := Step(s, a).readers[a.r]]
    ensures Step(s, a).isComplete == s.isComplete && DownloadLeft(Step(s, a)) == DownloadLeft(s)
  {
  }

  lemma ReaderLighter(s: State, a: Action)
    requires Inv(s) && !a.Download? && !a.GiveUp? && a.r < |s.readers| && Step(s, a) != s
    ensures |Step(s, a).readers| == |s.readers|
    ensures var was, now := Weight(s.readers[a.r].pc, s.isComplete), Weight(Step(s, a).readers[a.r].pc, s.isComplete);
            if a.Spurious? then now <= was + 2 else now < was
  {
    assert GoodReader(s, a.r);
  }

  lemma ReaderWorks(s: State, a: Action)
    requires Inv(s) && !a.Download? && !a.GiveUp? && Step(s, a) != s
    ensures if a.Spurious? then Measure(Step(s, a)) <= Measure(s) + 2 else Measure(Step(s, a)) < Measure(s)
  {
    OnlyOneReader(s, a);
    ReaderLighter(s, a);
    WeightsUpdate(s.readers, a.r, Step(s, a).readers[a.r], s.isComplete);
  }

  /** Every step that changes anything, spurious wakeups apart, uses up some of the work. */
  lemma StepWorks(s: State, a: Action)
    requires Inv(s) && Step(s, a) != s
    ensures if a.Spurious? then Measure(Step(s, a)) <= Measure(s) + 2 else Measure(Step(s, a)) < Measure(s)
  {
    if a.Download? { DownloadWorks(s); }
    else if !a.GiveUp? { ReaderWorks(s, a); }
  }

  lemma MeasureNotNegative(s: State)
    requires Inv(s)
    ensures Measure(s) >= 0
  {
  }

  /** The actions of a run that change the state, and the spurious wakeups among them. */
  function Moves(s: State, actions: seq<Action>): nat {
    if actions == [] then 0 else
    var before := actions[..|actions| - 1];
    Moves(s, before) + Bit(Step(Exec(s, before), actions[|actions| - 1]) != Exec(s, before))
  }

  function Wakeups(s: State, actions: seq<Action>): nat {
    if actions == [] then 0 else
    var before, a := actions[..|actions| - 1], actions[|actions| - 1];
    Wakeups(s, before) + Bit(a.Spurious? && Step(Exec(s, before), a) != Exec(s, before))
  }

  /** No run can go on for ever: it makes at most as many moves as there is work in its first
      state, plus three for every spurious wakeup. */
  lemma {:induction false} BoundedWork(s: State, actions: seq<Action>)
    requires Inv(s)
    ensures Inv(Exec(s, actions))
    ensures Moves(s, actions) + Measure(Exec(s, actions)) <= Measure(s) + 3 * Wakeups(s, actions)
  {
    if actions != [] {
      var n := |actions| - 1;
      BoundedWork(s, actions[..n]);
      var mid := Exec(s, actions[..n]);
      StepKeepsInv(mid, actions[n]);
      if Step(mid, actions[n]) != mid { StepWorks(mid, actions[n]); }
    }
  }

  lemma {:induction false} NoneAsleepLater(s: State, actions: seq<Action>)
    requires Inv(s) && s.down.Finished?
    ensures Inv(Exec(s, actions)) && Exec(s, actions).down.Finished?
    ensures |Exec(s, actions).readers| == |s.readers| && Wakeups(s, actions) == 0
  {
    if actions != [] {
      var n := |actions| - 1;
      NoneAsleepLater(s, actions[..n]);
      var mid, a := Exec(s, actions[..n]), actions[n];
      StepKeepsInv(mid, a);
      if a.Spurious? && a.r < |mid.readers| { assert GoodReader(mid, a.r); }
    }
  }

  /** From the end of the download on, at most eight moves per reader are left in any
      schedule, and when they are made every reader that arrived has sent and gone. */
  lemma EveryoneIsServed(chunks: seq<seq<Byte>>, readers: nat, before: seq<Action>, after: seq<Action>)
    requires Exec(Start(chunks, readers), before).down.Finished?
    ensures var s := Exec(Start(chunks, readers), before);
            var e := Exec(s, after);
            && Moves(s, after) <= 8 * readers
            && (Quiet(e) <==> AllDone(e))
            && forall r :: 0 <= r < |e.readers| && e.readers[r].pc.Gone? ==> e.readers[r].sent == Payload(chunks)
  {
    AlwaysInv(chunks, readers, before);
    var s := Exec(Start(chunks, readers), before);
    var e := Exec(s, after);
    BoundedWork(s, after);
    NoneAsleepLater(s, after);
    MeasureNotNegative(e);
    WeightsBound(s.readers, s.isComplete);
    ChunksKept(s, after);
    if Quiet(e) { QuietIsDone(e); }
    forall r | 0 <= r < |e.readers| && e.readers[r].pc.Gone? ensures e.readers[r].sent == Payload(chunks) {
      assert GoodReader(e, r);
    }
  }

  lemma {:induction false} ChunksKept(s: State, actions: seq<Action>)
    requires Inv(s)
    ensures Inv(Exec(s, actions)) && Exec(s, actions).chunks == s.chunks
  {
    if actions != [] {
      var n := |actions| - 1;
      ChunksKept(s, actions[..n]);
      StepKeepsInv(Exec(s, actions[..n]), actions[n]);
    }
  }

  // ----- every wait ends in the broadcast or a spurious wakeup -----

  predicate Sleeping(rd: Reader) {
    rd.pc.Asleep?
  }

  predicate FallsAsleep(s: State, a: Action) {
    && a.Read? && a.r < |s.readers| == |Step(s, a).readers|
    && !Sleeping(s.readers[a.r]) && Sleeping(Step(s, a).readers[a.r])
  }

  predicate WakesSpuriously(s: State, a: Action) {
    a.Spurious? && a.r < |s.readers| && Sleeping(s.readers[a.r])
  }

  /** How many readers the broadcast finds asleep. */
  function Heard(s: State, a: Action): nat {
    if a.Download? && s.down.Broadcast? then Count(s.readers, Sleeping) else 0
  }

  function FallsIn(s: State, actions: seq<Action>): nat {
    if actions == [] then 0 else
    var n := |actions| - 1;
    FallsIn(s, actions[..n]) + Bit(FallsAsleep(Exec(s, actions[..n]), actions[n]))
  }

  function HeardIn(s: State, actions: seq<Action>): nat {
    if actions == [] then 0 else
    var n := |actions| - 1;
    HeardIn(s, actions[..n]) + Heard(Exec(s, actions[..n]), actions[n])
  }

  function SpuriousIn(s: State, actions: seq<Action>): nat {
    if actions == [] then 0 else
    var n := |actions| - 1;
    SpuriousIn(s, actions[..n]) + Bit(WakesSpuriously(Exec(s, actions[..n]), actions[n]))
  }

  lemma SleepersStep(s: State, a: Action)
    ensures Count(Step(s, a).readers, Sleeping) ==
            Count(s.readers, Sleeping) + Bit(FallsAsleep(s, a)) - Heard(s, a) - Bit(WakesSpuriously(s, a))
  {
    var s' := Step(s, a);
    if a.Download? && s.down.Broadcast? {
      CountNone(s'.readers, Sleeping);
    } else if !a.Download? && !a.GiveUp? && a.r < |s.readers| {
      assert |s'.readers| == |s.readers| && s'.readers == s.readers[a.r := s'.readers[a.r]];
      CountUpdate(s.readers, a.r, s'.readers[a.r], Sleeping);
    }
  }

  /** In every run, from any state: the readers asleep are those that fell asleep, less those
      the broadcast found asleep and one for each spurious wakeup. */
  lemma {:induction false} SleepersCounted(s: State, actions: seq<Action>)
    ensures Count(Exec(s, actions).readers, Sleeping) + HeardIn(s, actions) + SpuriousIn(s, actions) ==
            Count(s.readers, Sleeping) + FallsIn(s, actions)
  {
    if actions != [] {
      var n := |actions| - 1;
      SleepersCounted(s, actions[..n]);
      SleepersStep(Exec(s, actions[..n]), actions[n]);
    }
  }
}
