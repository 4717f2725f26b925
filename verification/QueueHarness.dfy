/** The test program around the queue: thread 0 is the writer, thread 1 the reader, and any
    further threads print statistics. The writer's `i++` and the reader's comparison and
    `expected = val + 1` are separate steps outside the lock. */
module QueueHarness {
  import opened QueueMonitor
  import opened QueueInvariant
  import opened QueueTheorems

  datatype Writer =
    | WCall(i: int)               // about to call queue_add(q, i)
    | WInside(i: int)
    | WBack(i: int, ok: bool)     // returned; about to retry or to do i++

  datatype Reader =
    | RCall(expected: int)
    | RInside(expected: int)
    | RBack(expected: int, ok: bool, val: int)  // about to retry or to compare
    | RSet(expected: int, val: int)             // about to do expected = val + 1

  datatype Harness = Harness(m: State, w: Writer, r: Reader, errors: nat)

  datatype HAction =
    | WriterCalls
    | WriterLoops
    | ReaderCalls
    | ReaderChecks
    | ReaderLoops
    | Machine(a: Action)

  function HStep(h: Harness, a: HAction): Harness
    requires |h.m.pcs| >= 2
  {
    match a
    case WriterCalls =>
      if h.w.WCall?
      then h.(m := Step(h.m, Call(0, Add(h.w.i))), w := WInside(h.w.i)) else h
    case WriterLoops =>
      if h.w.WBack? then h.(w := WCall(if h.w.ok then h.w.i + 1 else h.w.i)) else h
    case ReaderCalls =>
      if h.r.RCall?
      then h.(m := Step(h.m, Call(1, Get)), r := RInside(h.r.expected)) else h
    case ReaderChecks =>
      if !h.r.RBack? then h
      else if !h.r.ok then h.(r := RCall(h.r.expected))
      else h.(r := RSet(h.r.expected, h.r.val),
              errors := if h.r.expected != h.r.val then h.errors + 1 else h.errors)
    case ReaderLoops =>
      if h.r.RSet? then h.(r := RCall(h.r.val + 1)) else h
    case Machine(a) =>
      if a.Call? && (a.t < 2 || !a.op.PrintStats?) then h else
      var h1 := h.(m := Step(h.m, a));
      if a.Run? && a.t == 0 && h.m.pcs[0].Returning? && h.w.WInside?
      then h1.(w := WBack(h.w.i, !h.m.pcs[0].ret.Refused?))
      else if a.Run? && a.t == 1 && h.m.pcs[1].Returning? && h.r.RInside?
      then h1.(r := RBack(h.r.expected, !h.m.pcs[1].ret.Refused?,
                          if h.m.pcs[1].ret.Done? then h.m.pcs[1].ret.val else -1))
      else h1
  }

  function HStart(variant: Variant, threads: nat, maxCount: nat): Harness {
    Harness(Start(variant, threads, maxCount), WCall(0), RCall(0), 0)
  }

  lemma HStepSize(h: Harness, a: HAction)
    requires |h.m.pcs| >= 2
    ensures |HStep(h, a).m.pcs| == |h.m.pcs|
  {
  }

  function HExec(h: Harness, actions: seq<HAction>): (e: Harness)
    requires |h.m.pcs| >= 2
    ensures |e.m.pcs| == |h.m.pcs|
  {
    if actions == [] then h else
    var before := HExec(h, actions[..|actions| - 1]);
    HStepSize(before, actions[|actions| - 1]);
    HStep(before, actions[|actions| - 1])
  }

  // ----- the invariant -----

  function Iota(n: nat): seq<int> {
    seq(n, i => i)
  }

  predicate Succeeded(pc: Pc) {
    var p := PcPhase(pc);
    p.Complete? && p.ret.Done?
  }

  /** How many values the writer's own variables say it has added. */
  function WriterPosition(h: Harness): int
    requires |h.m.pcs| >= 2
  {
    match h.w
    case WCall(i) => i
    case WInside(i) => if Succeeded(h.m.pcs[0]) then i + 1 else i
    case WBack(i, ok) => if ok then i + 1 else i
  }

  /** How many values the reader's own variables say it has removed. */
  function ReaderPosition(h: Harness): int
    requires |h.m.pcs| >= 2
  {
    match h.r
    case RCall(expected) => expected
    case RInside(expected) => if Succeeded(h.m.pcs[1]) then expected + 1 else expected
    case RBack(expected, ok, val) => if ok then expected + 1 else expected
    case RSet(_, val) => val + 1
  }

  predicate Client(pc: Pc, inside: bool, op: Op) {
    match PcPhase(pc)
    case Out => !inside
    case InCall(o) => inside && o == op
    case Complete(o, _) => inside && o == op
    case Broken => false
  }

  predicate HWriter(h: Harness) {
    && |h.m.pcs| >= 2
    && Client(h.m.pcs[0], h.w.WInside?, Add(h.w.i))
    && 0 <= WriterPosition(h) && Added(h.m.log) == Iota(WriterPosition(h))
  }

  predicate HReader(h: Harness) {
    && |h.m.pcs| >= 2
    && Client(h.m.pcs[1], h.r.RInside?, Get)
    && |Gotten(h.m.log)| == ReaderPosition(h)
    && (Succeeded(h.m.pcs[1]) ==> PcPhase(h.m.pcs[1]).ret.val == h.r.expected)
    && (h.r.RBack? && h.r.ok ==> h.r.val == h.r.expected)
    && h.errors == 0
  }

  predicate HPrinters(h: Harness) {
    forall t :: 2 <= t < |h.m.pcs| ==> Client(h.m.pcs[t], !PcPhase(h.m.pcs[t]).Out?, PrintStats)
  }

  predicate HInv(h: Harness) {
    HWriter(h) && HReader(h) && HPrinters(h)
  }

  // ----- it is kept -----

  lemma LogPush(log: seq<Event>, e: Event)
    ensures Added(log + [e]) ==
            Added(log) + (if e.Committed? && e.op.Add? && e.ret.Done? then [e.ret.val] else [])
    ensures Gotten(log + [e]) ==
            Gotten(log) + (if e.Committed? && e.op.Get? && e.ret.Done? then [e.ret.val] else [])
  {
    assert (log + [e])[..|log|] == log;
  }

  /** What one step of a running thread does to the two histories. */
  lemma HistoryStep(s: State, a: Action)
    requires Inv(s) && a.t < |s.pcs| && a.Run?
    ensures var s', pc := Step(s, a), s.pcs[a.t];
            && Added(s'.log) == Added(s.log) + (if pc.Acting? && pc.op.Add? then [pc.op.v] else [])
            && Gotten(s'.log) == Gotten(s.log) + (if pc.Acting? && pc.op.Get? then [s.q.items[0]] else [])
  {
    assert GoodPc(s, s.pcs[a.t]);
    if s.pcs[a.t].Acting? {
      LogPush(s.log, Committed(a.t, s.pcs[a.t].op, ActRet(s.q, s.pcs[a.t].op)));
    } else {
      OtherHistory(s, a);
    }
  }

  lemma OtherHistory(s: State, a: Action)
    requires InvShape(s) && a.t < |s.pcs| && a.Run? && !s.pcs[a.t].Acting?
    ensures Added(Step(s, a).log) == Added(s.log) && Gotten(Step(s, a).log) == Gotten(s.log)
  {
    MoverPhase(s, a);
    var s' := Step(s, a);
    assert GoodPc(s, s.pcs[a.t]);
    if s'.log != s.log {
      var e := s'.log[|s.log|];
      LogPush(s.log, e);
    }
  }

  /** Calling, and waking spuriously, leave the histories alone. */
  lemma CallHistory(s: State, a: Action)
    requires a.t < |s.pcs| && !a.Run?
    ensures Added(Step(s, a).log) == Added(s.log) && Gotten(Step(s, a).log) == Gotten(s.log)
  {
    if a.Call? { LogPush(s.log, Called(a.t, a.op)); }
  }

  /** The front of the queue is the next integer the reader waits for. */
  lemma FrontIsNext(h: Harness)
    requires Inv(h.m) && HInv(h) && h.m.q.items != []
    ensures h.m.q.items[0] == |Gotten(h.m.log)|
  {
    ReplayIsFifo(h.m.log, h.m.q.maxCount);
    assert Added(h.m.log)[|Gotten(h.m.log)|] == h.m.q.items[0];
  }

  lemma CallProgress(s: State, a: Action)
    requires InvShape(s) && a.t < |s.pcs| && a.Run?
    ensures var p, p' := PcPhase(s.pcs[a.t]), PcPhase(Step(s, a).pcs[a.t]);
            && (p.Out? ==> p'.Out?)
            && (p.InCall? ==> p' == p || (p'.Complete? && p'.op == p.op))
            && (p.InCall? && p'.Complete? && p'.ret.Done? ==> s.pcs[a.t].Acting?)
            && (p.InCall? && s.pcs[a.t].Acting? ==> p'.Complete? && p'.ret == ActRet(s.q, p.op) && p'.ret.Done?)
            && (p.Complete? ==> p' == p || (p'.Out? && s.pcs[a.t].Returning?))
            && (s.pcs[a.t].Returning? ==> p'.Out?)
  {
    assert GoodPc(s, s.pcs[a.t]);
  }

  lemma IotaGrows(n: nat)
    ensures Iota(n) + [n] == Iota(n + 1)
  {
  }

  lemma PrintersKept(h: Harness, a: Action)
    requires Inv(h.m) && HInv(h)
    ensures HPrinters(HStep(h, Machine(a)))
  {
    if a.t < |h.m.pcs| && HStep(h, Machine(a)) != h {
      StepPcs(h.m, a);
      if a.Run? { CallProgress(h.m, a); }
      forall i | 2 <= i < |h.m.pcs| && i != a.t { OtherPhase(h.m, a, i); }
    }
  }

  lemma WriterMoves(h: Harness, a: Action)
    requires Inv(h.m) && HInv(h) && a.Run? && a.t == 0
    ensures HWriter(HStep(h, Machine(a))) && HReader(HStep(h, Machine(a)))
  {
    assert GoodPc(h.m, h.m.pcs[0]);
    CallProgress(h.m, a);
    HistoryStep(h.m, a);
    OtherPhase(h.m, a, 1);
    IotaGrows(WriterPosition(h));
  }

  lemma ReaderTakes(h: Harness, a: Action)
    requires Inv(h.m) && HInv(h) && a.Run? && a.t == 1 && h.m.pcs[1].Acting?
    ensures HReader(HStep(h, Machine(a)))
  {
    assert GoodPc(h.m, h.m.pcs[1]);
    CallProgress(h.m, a);
    HistoryStep(h.m, a);
    FrontIsNext(h);
  }

  lemma ReaderMoves(h: Harness, a: Action)
    requires Inv(h.m) && HInv(h) && a.Run? && a.t == 1 && !h.m.pcs[1].Acting?
    ensures HReader(HStep(h, Machine(a)))
  {
    assert GoodPc(h.m, h.m.pcs[1]);
    CallProgress(h.m, a);
    OtherHistory(h.m, a);
  }

  lemma ReaderAddsNothing(h: Harness, a: Action)
    requires Inv(h.m) && HInv(h) && a.Run? && a.t == 1
    ensures Added(Step(h.m, a).log) == Added(h.m.log)
  {
    assert GoodPc(h.m, h.m.pcs[1]);
    HistoryStep(h.m, a);
  }

  /** What the writer's side depends on. */
  lemma WriterFrame(h: Harness, e: Harness)
    requires HWriter(h) && e.w == h.w && |e.m.pcs| >= 2
    requires PcPhase(e.m.pcs[0]) == PcPhase(h.m.pcs[0]) && Added(e.m.log) == Added(h.m.log)
    ensures HWriter(e)
  {
  }

  /** What the reader's side depends on. */
  lemma ReaderFrame(h: Harness, e: Harness)
    requires HReader(h) && e.r == h.r && e.errors == h.errors && |e.m.pcs| >= 2
    requires PcPhase(e.m.pcs[1]) == PcPhase(h.m.pcs[1]) && Gotten(e.m.log) == Gotten(h.m.log)
    ensures HReader(e)
  {
  }

  lemma ReaderLeavesWriter(h: Harness, a: Action)
    requires Inv(h.m) && HInv(h) && a.Run? && a.t == 1
    ensures HWriter(HStep(h, Machine(a)))
  {
    ReaderAddsNothing(h, a);
    OtherPhase(h.m, a, 0);
    WriterFrame(h, HStep(h, Machine(a)));
  }

  lemma PrinterAddsNothing(h: Harness, a: Action)
    requires Inv(h.m) && HInv(h) && 2 <= a.t < |h.m.pcs| && a.Run?
    ensures Added(Step(h.m, a).log) == Added(h.m.log) && Gotten(Step(h.m, a).log) == Gotten(h.m.log)
  {
    assert Client(h.m.pcs[a.t], !PcPhase(h.m.pcs[a.t]).Out?, PrintStats);
    HistoryStep(h.m, a);
  }

  /** A sleeper that wakes is in the same call as before. */
  lemma SpuriousPhase(s: State, a: Action, i: nat)
    requires a.Spurious? && a.t < |s.pcs| && i < |s.pcs|
    ensures |Step(s, a).pcs| == |s.pcs| && PcPhase(Step(s, a).pcs[i]) == PcPhase(s.pcs[i])
  {
    if i != a.t { OtherPhase(s, a, i); }
  }

  lemma PrinterMoves(h: Harness, a: Action)
    requires Inv(h.m) && HInv(h) && (a.t >= 2 || a.Spurious?)
    ensures HWriter(HStep(h, Machine(a))) && HReader(HStep(h, Machine(a)))
  {
    if a.t < |h.m.pcs| && HStep(h, Machine(a)) != h {
      if a.Run? { PrinterAddsNothing(h, a); } else { CallHistory(h.m, a); }
      if a.Spurious? {
        SpuriousPhase(h.m, a, 0);
        SpuriousPhase(h.m, a, 1);
      } else {
        OtherPhase(h.m, a, 0);
        OtherPhase(h.m, a, 1);
      }
      WriterFrame(h, HStep(h, Machine(a)));
      ReaderFrame(h, HStep(h, Machine(a)));
    }
  }

  lemma CallPhase(s: State, a: Action)
    requires a.Call? && a.t < |s.pcs| && PcPhase(s.pcs[a.t]).Out?
    ensures |Step(s, a).pcs| == |s.pcs| && PcPhase(Step(s, a).pcs[a.t]) == InCall(a.op)
  {
  }

  lemma WriterCallsKept(h: Harness)
    requires Inv(h.m) && HInv(h) && h.w.WCall?
    ensures HWriter(HStep(h, WriterCalls)) && HReader(HStep(h, WriterCalls))
  {
    var c := Call(0, Add(h.w.i));
    CallPhase(h.m, c);
    CallHistory(h.m, c);
    OtherPhase(h.m, c, 1);
    ReaderFrame(h, HStep(h, WriterCalls));
  }

  lemma ReaderCallsKept(h: Harness)
    requires Inv(h.m) && HInv(h) && h.r.RCall?
    ensures HWriter(HStep(h, ReaderCalls)) && HReader(HStep(h, ReaderCalls))
  {
    var c := Call(1, Get);
    CallPhase(h.m, c);
    CallHistory(h.m, c);
    OtherPhase(h.m, c, 0);
    WriterFrame(h, HStep(h, ReaderCalls));
  }

  lemma CallLeavesPrinters(h: Harness, a: HAction)
    requires HInv(h) && !a.Machine?
    ensures HPrinters(HStep(h, a))
  {
    var c := if a.WriterCalls? then Call(0, Add(h.w.i)) else Call(1, Get);
    forall i | 2 <= i < |h.m.pcs| { OtherPhase(h.m, c, i); }
  }

  lemma ClientMoves(h: Harness, a: HAction)
    requires Inv(h.m) && HInv(h) && !a.Machine?
    ensures HInv(HStep(h, a))
  {
    CallLeavesPrinters(h, a);
    if a.WriterCalls? && h.w.WCall? { WriterCallsKept(h); }
    if a.ReaderCalls? && h.r.RCall? { ReaderCallsKept(h); }
  }

  lemma HInvKept(h: Harness, a: HAction)
    requires Inv(h.m) && HInv(h)
    ensures Inv(HStep(h, a).m) && HInv(HStep(h, a))
  {
    match a
    case Machine(ma) =>
      StepKeepsInv(h.m, ma);
      PrintersKept(h, ma);
      if ma.t >= 2 || ma.Spurious? { PrinterMoves(h, ma); }
      else if ma.Run? && ma.t == 0 { WriterMoves(h, ma); }
      else if ma.Run? {
        if h.m.pcs[1].Acting? { ReaderTakes(h, ma); } else { ReaderMoves(h, ma); }
        ReaderLeavesWriter(h, ma);
      }
    case WriterCalls =>
      StepKeepsInv(h.m, Call(0, Add(h.w.i)));
      ClientMoves(h, a);
    case ReaderCalls =>
      StepKeepsInv(h.m, Call(1, Get));
      ClientMoves(h, a);
    case _ =>
      ClientMoves(h, a);
  }

  lemma {:induction false} HAlways(variant: Variant, threads: nat, maxCount: nat, actions: seq<HAction>)
    requires threads >= 2
    ensures var h := HExec(HStart(variant, threads, maxCount), actions); Inv(h.m) && HInv(h)
  {
    if actions == [] {
      StartInv(variant, threads, maxCount);
    } else {
      var n := |actions| - 1;
      HAlways(variant, threads, maxCount, actions[..n]);
      HInvKept(HExec(HStart(variant, threads, maxCount), actions[..n]), actions[n]);
    }
  }

  /** In all four variants, whatever the interleaving, the reader never prints its error
      line, and the queue holds exactly the integers between the reader's position and the
      writer's. */
  lemma ReaderNeverSeesAGap(variant: Variant, threads: nat, maxCount: nat, actions: seq<HAction>)
    requires threads >= 2
    ensures var h := HExec(HStart(variant, threads, maxCount), actions);
            && h.errors == 0 && (h.r.RBack? && h.r.ok ==> h.r.val == h.r.expected)
            && 0 <= ReaderPosition(h) <= WriterPosition(h)
            && h.m.q.items == seq(WriterPosition(h) - ReaderPosition(h), i => ReaderPosition(h) + i)
  {
    HAlways(variant, threads, maxCount, actions);
    var h := HExec(HStart(variant, threads, maxCount), actions);
    ReplayIsFifo(h.m.log, h.m.q.maxCount);
    IotaSplit(Gotten(h.m.log), h.m.q.items, WriterPosition(h));
  }

  lemma IotaSplit(front: seq<int>, back: seq<int>, n: nat)
    requires front + back == Iota(n)
    ensures back == seq(n - |front|, i => |front| + i)
  {
    forall i | 0 <= i < |back| ensures back[i] == |front| + i {
      assert (front + back)[|front| + i] == back[i];
    }
  }
}
