/** The life of one cache entry: one downloader appends chunks and then marks the entry
    complete, or gives up before the first chunk; any number of readers wait for completion
    on the entry's condition variable and send what they find. Every lock, copy, size update,
    broadcast and wait is a step of its own. */
module CacheEntryProtocol {
  import opened Bytes
  import opened Wrappers

  datatype Downloader =
    | Next(k: nat)              // chunk k, or completion after the last one; needs the lock
    | Copy(k: nat)              // lock held; about to realloc and memcpy
    | Size(k: nat)              // about to add the length
    | Unlock(k: nat)
    | Mark                      // lock held; about to set isComplete
    | Broadcast
    | LastUnlock
    | Finished
    | GaveUp                    // no host, socket or connection: returned early

  datatype Pc =
    | Away                      // has not reached the wait loop yet
    | Locking
    | Testing                   // lock held; about to test isComplete
    | Asleep
    | Woken                     // must retake the lock
    | Sending                   // lock held
    | Leaving                   // lock held; about to unlock
    | Gone

  datatype Reader = Reader(pc: Pc, sent: Option<seq<Byte>>)

  /** `lock` is held by the downloader (0) or by reader r (r + 1). */
  datatype State = State(
    chunks: seq<seq<Byte>>, lock: Option<nat>, down: Downloader, readers: seq<Reader>,
    data: seq<Byte>, downloadedSize: nat, isComplete: bool)

  datatype Action =
    | Arrive(r: nat)
    | Download
    | GiveUp
    | Read(r: nat)
    | Spurious(r: nat)

  function Flatten(chunks: seq<seq<Byte>>): seq<Byte> {
    if chunks == [] then [] else Flatten(chunks[..|chunks| - 1]) + chunks[|chunks| - 1]
  }

  function WakeAll(readers: seq<Reader>): seq<Reader> {
    seq(|readers|, r requires 0 <= r < |readers| =>
      if readers[r].pc.Asleep? then readers[r].(pc := Woken) else readers[r])
  }

  function DownloadStep(s: State): State {
    match s.down
    case Next(k) =>
      if s.lock.Some? then s
      else s.(lock := Some(0), down := if k < |s.chunks| then Copy(k) else Mark)
    case Copy(k) => if k >= |s.chunks| then s else s.(data := s.data + s.chunks[k], down := Size(k))
    case Size(k) =>
      if k >= |s.chunks| then s
      else s.(downloadedSize := s.downloadedSize + |s.chunks[k]|, down := Unlock(k))
    case Unlock(k) => s.(lock := None, down := Next(k + 1))
    case Mark => s.(isComplete := true, down := Broadcast)
    case Broadcast => s.(readers := WakeAll(s.readers), down := LastUnlock)
    case LastUnlock => s.(lock := None, down := Finished)
    case Finished => s
    case GaveUp => s
  }

  function Goto(s: State, r: nat, pc: Pc): State
    requires r < |s.readers|
  {
    s.(readers := s.readers[r := s.readers[r].(pc := pc)])
  }

  function ReadStep(s: State, r: nat): State
    requires r < |s.readers|
  {
    match s.readers[r].pc
    case Away => s
    case Locking => if s.lock.Some? then s else Goto(s.(lock := Some(r + 1)), r, Testing)
    case Testing => if s.isComplete then Goto(s, r, Sending) else Goto(s.(lock := None), r, Asleep)
    case Asleep => s
    case Woken => if s.lock.Some? then s else Goto(s.(lock := Some(r + 1)), r, Testing)
    case Sending =>
      var sent := if 0 < s.downloadedSize <= |s.data| then Some(s.data[..s.downloadedSize]) else None;
      s.(readers := s.readers[r := Reader(Leaving, sent)])
    case Leaving => Goto(s.(lock := None), r, Gone)
    case Gone => s
  }

  function Step(s: State, a: Action): State {
    match a
    case Download => DownloadStep(s)
    case GiveUp => if s.down == Next(0) then s.(down := GaveUp) else s
    case Arrive(r) => if r < |s.readers| && s.readers[r].pc.Away? then Goto(s, r, Locking) else s
    case Read(r) => if r < |s.readers| then ReadStep(s, r) else s
    case Spurious(r) => if r < |s.readers| && s.readers[r].pc.Asleep? then Goto(s, r, Woken) else s
  }

  function Start(chunks: seq<seq<Byte>>, readers: nat): State {
    State(chunks, None, Next(0), seq(readers, _ => Reader(Away, None)), [], 0, false)
  }

  function Exec(s: State, actions: seq<Action>): State {
    if actions == [] then s else Step(Exec(s, actions[..|actions| - 1]), actions[|actions| - 1])
  }

  // ----- the invariant -----

  predicate DownHolds(d: Downloader) {
    !d.Next? && !d.Finished? && !d.GaveUp?
  }

  predicate ReadHolds(pc: Pc) {
    pc.Testing? || pc.Sending? || pc.Leaving?
  }

  /** How many chunks are in `data`. */
  function Stored(s: State): nat {
    match s.down
    case Next(k) => k
    case Copy(k) => k
    case Size(k) => k + 1
    case Unlock(k) => k + 1
    case GaveUp => 0
    case _ => |s.chunks|
  }

  predicate InvDown(s: State) {
    && (s.lock == Some(0) <==> DownHolds(s.down))
    && (s.lock.Some? ==> s.lock.value <= |s.readers|)
    && (s.down.Copy? || s.down.Size? || s.down.Unlock? ==> s.down.k < |s.chunks|)
    && Stored(s) <= |s.chunks| && s.data == Flatten(s.chunks[..Stored(s)])
    && |s.data| == s.downloadedSize + (if s.down.Size? then |s.chunks[s.down.k]| else 0)
    && (s.isComplete <==> s.down.Broadcast? || s.down.LastUnlock? || s.down.Finished?)
  }

  /** What a reader has to send once the download is complete. */
  function Payload(chunks: seq<seq<Byte>>): Option<seq<Byte>> {
    if Flatten(chunks) == [] then None else Some(Flatten(chunks))
  }

  predicate GoodReader(s: State, r: nat)
    requires r < |s.readers|
  {
    var rd := s.readers[r];
    && (s.lock == Some(r + 1) <==> ReadHolds(rd.pc))
    && (rd.pc.Asleep? ==> !s.isComplete || s.down.Broadcast?)
    && (rd.pc.Sending? ==> s.isComplete)
    && (rd.pc.Leaving? || rd.pc.Gone? ==> s.isComplete && rd.sent == Payload(s.chunks))
  }

  predicate Inv(s: State) {
    InvDown(s) && forall r :: 0 <= r < |s.readers| ==> GoodReader(s, r)
  }

  lemma FlattenNext(chunks: seq<seq<Byte>>, k: nat)
    requires k < |chunks|
    ensures Flatten(chunks[..k + 1]) == Flatten(chunks[..k]) + chunks[k]
  {
    assert chunks[..k + 1][..k] == chunks[..k];
  }

  lemma GiveUpKeepsInv(s: State)
    requires Inv(s)
    ensures Inv(Step(s, GiveUp))
  {
    forall r | 0 <= r < |s.readers| ensures GoodReader(Step(s, GiveUp), r) {
      assert GoodReader(s, r);
    }
  }

  lemma DownloadKeepsInv(s: State)
    requires Inv(s)
    ensures Inv(DownloadStep(s))
  {
    var s' := DownloadStep(s);
    if s.down.Copy? { FlattenNext(s.chunks, s.down.k); }
    forall r | 0 <= r < |s'.readers| ensures GoodReader(s', r) {
      assert GoodReader(s, r);
    }
  }

  lemma SendsPayload(s: State, r: nat)
    requires Inv(s) && r < |s.readers| && s.readers[r].pc.Sending?
    ensures ReadStep(s, r).readers[r] == Reader(Leaving, Payload(s.chunks))
  {
    assert GoodReader(s, r);
    assert s.chunks[..|s.chunks|] == s.chunks;
    assert s.data[..s.downloadedSize] == s.data;
  }

  lemma OtherReader(s: State, a: Action, u: nat)
    requires Inv(s) && !a.Download? && !a.GiveUp? && a.r < |s.readers| && u < |s.readers| && u != a.r
    ensures |Step(s, a).readers| == |s.readers| && GoodReader(Step(s, a), u)
  {
    assert GoodReader(s, u) && GoodReader(s, a.r);
  }

  lemma OwnReader(s: State, a: Action)
    requires Inv(s) && !a.Download? && !a.GiveUp? && a.r < |s.readers|
    ensures |Step(s, a).readers| == |s.readers| && GoodReader(Step(s, a), a.r)
  {
    assert GoodReader(s, a.r);
    if s.readers[a.r].pc.Sending? { SendsPayload(s, a.r); }
  }

  lemma DownloadUntouched(s: State, a: Action)
    requires Inv(s) && !a.Download? && !a.GiveUp? && a.r < |s.readers|
    ensures InvDown(Step(s, a))
  {
    assert GoodReader(s, a.r);
  }

  lemma ReaderKeepsInv(s: State, a: Action)
    requires Inv(s) && !a.Download? && !a.GiveUp?
    ensures Inv(Step(s, a))
  {
    if a.r < |s.readers| {
      OwnReader(s, a);
      DownloadUntouched(s, a);
      forall u | 0 <= u < |s.readers| && u != a.r ensures GoodReader(Step(s, a), u) {
        OtherReader(s, a, u);
      }
    }
  }

  /** What no step changes, and what none changes once the entry is complete. */
  lemma StepKeepsData(s: State, a: Action)
    requires InvDown(s)
    ensures Step(s, a).chunks == s.chunks && |Step(s, a).readers| == |s.readers|
    ensures s.isComplete ==> Step(s, a).isComplete
    ensures s.isComplete ==> Step(s, a).data == s.data && Step(s, a).downloadedSize == s.downloadedSize
  {
  }

  lemma StepKeepsInv(s: State, a: Action)
    requires Inv(s)
    ensures Inv(Step(s, a)) && Step(s, a).chunks == s.chunks && |Step(s, a).readers| == |s.readers|
    ensures s.isComplete ==> Step(s, a).isComplete
    ensures s.isComplete ==> Step(s, a).data == s.data && Step(s, a).downloadedSize == s.downloadedSize
  {
    StepKeepsData(s, a);
    if a.Download? { DownloadKeepsInv(s); }
    else if a.GiveUp? { GiveUpKeepsInv(s); }
    else { ReaderKeepsInv(s, a); }
  }

  lemma {:induction false} AlwaysInv(chunks: seq<seq<Byte>>, readers: nat, actions: seq<Action>)
    ensures var s := Exec(Start(chunks, readers), actions);
            Inv(s) && s.chunks == chunks && |s.readers| == readers
  {
    if actions != [] {
      var n := |actions| - 1;
      AlwaysInv(chunks, readers, actions[..n]);
      StepKeepsInv(Exec(Start(chunks, readers), actions[..n]), actions[n]);
    }
  }

  // ----- what it guarantees -----

  /** Whoever has sent has sent all chunks in order, or nothing if there were no bytes. */
  lemma ReadersSendEverything(chunks: seq<seq<Byte>>, readers: nat, actions: seq<Action>, r: nat)
    requires r < readers
    ensures var s := Exec(Start(chunks, readers), actions);
            && r < |s.readers|
            && (s.readers[r].pc.Leaving? || s.readers[r].pc.Gone? ==>
                  s.isComplete && s.readers[r].sent == Payload(chunks))
  {
    AlwaysInv(chunks, readers, actions);
    assert GoodReader(Exec(Start(chunks, readers), actions), r);
  }

  /** downloadedSize is the number of bytes stored whenever the entry's lock is free, and
      the bytes are always whole chunks in order. */
  lemma SizeMatchesData(chunks: seq<seq<Byte>>, readers: nat, actions: seq<Action>)
    ensures var s := Exec(Start(chunks, readers), actions);
            && Stored(s) <= |chunks| && s.data == Flatten(chunks[..Stored(s)])
            && (s.lock == None ==> s.downloadedSize == |s.data|)
            && (s.isComplete ==> s.data == Flatten(chunks) && s.downloadedSize == |s.data|)
  {
    AlwaysInv(chunks, readers, actions);
    assert chunks[..|chunks|] == chunks;
  }

  /** Once isComplete is set, nothing that happens later changes the entry. */
  lemma {:induction false} FrozenWhenComplete(s: State, actions: seq<Action>)
    requires Inv(s) && s.isComplete
    ensures var e := Exec(s, actions);
            Inv(e) && e.isComplete && e.data == s.data && e.downloadedSize == s.downloadedSize
  {
    if actions != [] {
      var n := |actions| - 1;
      FrozenWhenComplete(s, actions[..n]);
      StepKeepsInv(Exec(s, actions[..n]), actions[n]);
    }
  }

  /** Nobody can take a step of its own accord. */
  predicate Quiet(s: State) {
    && DownloadStep(s) == s
    && forall r :: 0 <= r < |s.readers| ==> ReadStep(s, r) == s
  }

  predicate AllDone(s: State) {
    && s.down.Finished?
    && forall r :: 0 <= r < |s.readers| ==> s.readers[r].pc.Away? || s.readers[r].pc.Gone?
  }

  /** The download was given up: whoever has arrived sleeps for good. */
  predicate Stranded(s: State) {
    && s.down.GaveUp?
    && forall r :: 0 <= r < |s.readers| ==> s.readers[r].pc.Away? || s.readers[r].pc.Asleep?
  }

  /** After the broadcast no reader is asleep. The machine comes to rest in two ways only:
      the download has finished and every reader that arrived has gone, or it was given up
      and every reader that arrived is asleep. */
  lemma NoReaderLeftBehind(chunks: seq<seq<Byte>>, readers: nat, actions: seq<Action>)
    ensures var s := Exec(Start(chunks, readers), actions);
            && (s.down.LastUnlock? || s.down.Finished? ==>
                  forall r :: 0 <= r < |s.readers| ==> !s.readers[r].pc.Asleep?)
            && (Quiet(s) <==> AllDone(s) || Stranded(s))
  {
    AlwaysInv(chunks, readers, actions);
    var s := Exec(Start(chunks, readers), actions);
    forall r | 0 <= r < |s.readers|
      ensures s.down.LastUnlock? || s.down.Finished? ==> !s.readers[r].pc.Asleep?
    {
      assert GoodReader(s, r);
    }
    if Quiet(s) {
      QuietIsDone(s);
    }
  }

  /** A reader inside, or at the lock while it is free, can move. */
  lemma ReaderMoves(s: State, r: nat)
    requires Inv(s) && r < |s.readers|
    requires ReadHolds(s.readers[r].pc) || (s.lock == None && (s.readers[r].pc.Locking? || s.readers[r].pc.Woken?))
    ensures ReadStep(s, r).readers[r].pc != s.readers[r].pc
  {
  }

  lemma QuietIsDone(s: State)
    requires Inv(s) && Quiet(s)
    ensures AllDone(s) || Stranded(s)
  {
    if s.lock.Some? && s.lock.value > 0 {
      assert GoodReader(s, s.lock.value - 1);
      ReaderMoves(s, s.lock.value - 1);
    }
    forall r | 0 <= r < |s.readers|
      ensures s.readers[r].pc.Away? || (if s.down.Finished? then s.readers[r].pc.Gone? else s.readers[r].pc.Asleep?)
    {
      assert GoodReader(s, r) && ReadStep(s, r) == s;
      var pc := s.readers[r].pc;
      if ReadHolds(pc) || (s.lock == None && (pc.Locking? || pc.Woken?)) { ReaderMoves(s, r); }
    }
  }
}
