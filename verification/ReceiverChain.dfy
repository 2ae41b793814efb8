/** The decoder's reference chain: over every run it is unbroken exactly as long as no dependent frame reaches the
    decoder while a delivered one is missing, and a delivered frame goes missing exactly when it cannot be assembled or
    has no body. */
module ReceiverChain {
  import opened Base
  import D = Datagram
  import R = Reassembly
  import RS = ReassemblySafety
  import opened VideoReceiver
  import opened ReceiverSafety
  import opened ReceiverStore

  // ---------------------------------------------------------------- chains

  /** Everything the decoder has taken or will find queued. */
  function Reached(s: State): seq<AccessUnit> {
    s.popped + s.queue
  }

  function LastSeq(us: seq<AccessUnit>): Option<u32> {
    if us == [] then None else Some(us[|us| - 1].frameSeq)
  }

  /** Each unit is a keyframe or directly follows the unit before it; so the first is a keyframe. */
  predicate Chained(us: seq<AccessUnit>) {
    us == []
    || var front, u := us[..|us| - 1], us[|us| - 1];
       Chained(front) && (u.keyframe || LastSeq(front) == Some(u.frameSeq - 1))
  }

  lemma {:induction false} ExtendChain(us: seq<AccessUnit>, u: AccessUnit)
    requires Chained(us)
    ensures Chained(us + [u]) <==> u.keyframe || LastSeq(us) == Some(u.frameSeq - 1)
  {
    assert (us + [u])[..|us|] == us;
  }

  lemma {:induction false} CutChain(us: seq<AccessUnit>, n: nat)
    requires Chained(us) && n <= |us|
    ensures Chained(us[..n])
  {
    if n < |us| {
      CutChain(us[..|us| - 1], n);
      assert us[..|us| - 1][..n] == us[..n];
    } else {
      assert us[..n] == us;
    }
  }

  lemma {:induction false} ChainedAt(us: seq<AccessUnit>, i: nat)
    requires Chained(us) && i < |us|
    ensures us[i].keyframe || (i > 0 && us[i - 1].frameSeq == us[i].frameSeq - 1)
  {
    if i < |us| - 1 {
      ChainedAt(us[..|us| - 1], i);
    }
  }

  /** The chain is unbroken after every step. */
  predicate AlwaysChained(s: State, steps: seq<Step>) {
    Chained(Reached(Run(s, steps))) && (steps == [] || AlwaysChained(s, steps[..|steps| - 1]))
  }

  // ---------------------------------------------------------------- losing a delivered frame

  /** The step feeds a datagram upon which the reassembler delivers a frame, and hands no unit over. */
  predicate Loses(s: State, step: Step) {
    step.BeginFeed? && s.handoff.Idle? &&
    var s' := FeedBegin(s, step.datagram, step.now);
    s'.handoff.Idle? && s'.reasm.lastDecoded != s.reasm.lastDecoded
  }

  predicate EverLoses(s: State, steps: seq<Step>) {
    steps != [] && (EverLoses(s, steps[..|steps| - 1]) || Loses(Run(s, steps[..|steps| - 1]), steps[|steps| - 1]))
  }

  /** The step lets a keyframe through to the decoder. */
  predicate Resyncs(s: State, step: Step) {
    step.EndFeed? && s.handoff.Ready? && s.handoff.unit.keyframe
  }

  /** Since the last keyframe that was let through, a delivered frame has been lost. */
  predicate Missing(s: State, steps: seq<Step>) {
    steps != [] &&
    var before, step := Run(s, steps[..|steps| - 1]), steps[|steps| - 1];
    Loses(before, step) || (!Resyncs(before, step) && Missing(s, steps[..|steps| - 1]))
  }

  /** The step lets a dependent unit through to the decoder. */
  predicate Depends(s: State, step: Step) {
    step.EndFeed? && s.handoff.Ready? && !s.awaitingKeyframe && !s.handoff.unit.keyframe
  }

  /** At some step a dependent unit goes through while a delivered frame is missing. */
  predicate EverStrands(s: State, steps: seq<Step>) {
    steps != [] &&
    var front := steps[..|steps| - 1];
    EverStrands(s, front) || (Depends(Run(s, front), steps[|steps| - 1]) && Missing(s, front))
  }

  // ---------------------------------------------------------------- what a run keeps

  /** The decoder's newest unit is the newest frame delivered, or the predecessor of the unit in hand. */
  predicate Synced(s: State) {
    match s.handoff
    case Idle => LastSeq(Reached(s)) == s.reasm.lastDecoded
    case Ready(u, _) => u.keyframe || LastSeq(Reached(s)) == Some(u.frameSeq - 1)
  }

  /** The decoder's newest unit is older than that. */
  predicate Behind(s: State) {
    match s.handoff
    case Idle =>
      && s.reasm.lastDecoded.Some?
      && (LastSeq(Reached(s)).Some? ==> LastSeq(Reached(s)).value < s.reasm.lastDecoded.value)
    case Ready(u, _) => u.keyframe || LastSeq(Reached(s)) != Some(u.frameSeq - 1)
  }

  predicate Tracks(s: State, missing: bool) {
    && Chained(Reached(s))
    && (s.awaitingKeyframe || if missing then Behind(s) else Synced(s))
  }

  lemma {:induction false} ReachedUpTo(s: State)
    requires Safe(s) && LastSeq(Reached(s)).Some?
    ensures s.reasm.lastDecoded.Some? && LastSeq(Reached(s)).value <= s.reasm.lastDecoded.value
  {
    var u := Reached(s)[|Reached(s)| - 1];
    assert u in s.popped + s.queue + Held(s);
  }

  lemma {:induction false} NoUnitTracks(s: State, s': State, missing: bool)
    requires Safe(s) && Tracks(s, missing) && s.handoff.Idle? && NoUnit(s, s')
    ensures Tracks(s', missing || s'.reasm.lastDecoded != s.reasm.lastDecoded)
  {
    assert Reached(s') == Reached(s);
    if LastSeq(Reached(s)).Some? {
      ReachedUpTo(s);
    }
  }

  lemma {:induction false} NewUnitTracks(s: State, s': State, missing: bool)
    requires Safe(s) && Tracks(s, missing) && s.handoff.Idle? && NewUnit(s, s')
    ensures Tracks(s', missing)
  {
    if |s.queue| >= 2 {
      assert Reached(s') == Reached(s)[..|s.popped|];
      CutChain(Reached(s), |s.popped|);
    } else {
      assert Reached(s') == Reached(s);
    }
  }

  lemma {:induction false} BeginTracks(s: State, s': State, missing: bool)
    requires Safe(s) && Tracks(s, missing) && s.handoff.Idle? && (NoUnit(s, s') || NewUnit(s, s'))
    ensures Tracks(s', (s'.handoff.Idle? && s'.reasm.lastDecoded != s.reasm.lastDecoded) || missing)
  {
    if NoUnit(s, s') {
      NoUnitTracks(s, s', missing);
    } else {
      NewUnitTracks(s, s', missing);
    }
  }

  lemma {:induction false} FeedTracks(s: State, datagram: seq<u8>, now: int, missing: bool)
    requires Safe(s) && Tracks(s, missing) && s.handoff.Idle?
    ensures Tracks(FeedBegin(s, datagram, now), Loses(s, BeginFeed(datagram, now)) || missing)
  {
    FeedBeginCases(s, datagram, now);
    BeginTracks(s, FeedBegin(s, datagram, now), missing);
  }

  /** Letting a unit through keeps the chain unless it is dependent and a frame is missing, and then breaks it. */
  lemma {:induction false} EndTracks(s: State, missing: bool)
    requires Tracks(s, missing) && s.handoff.Ready? && HeldIsNewest(s)
    ensures if Depends(s, EndFeed) && missing then !Chained(Reached(FeedEnd(s)))
            else Tracks(FeedEnd(s), missing && !Resyncs(s, EndFeed))
  {
    FeedEndCases(s);
    var u, s' := s.handoff.unit, FeedEnd(s);
    if s.awaitingKeyframe && !u.keyframe {
      assert Reached(s') == Reached(s);
    } else {
      ExtendChain(Reached(s), u);
      assert Reached(s') == Reached(s) + [u];
    }
  }

  lemma {:induction false} PopTracks(s: State, missing: bool)
    requires Tracks(s, missing)
    ensures Tracks(Pop(s), missing)
  {
    if s.queue != [] {
      assert s.queue == [s.queue[0]] + s.queue[1..];
      assert Reached(Pop(s)) == Reached(s);
    }
  }

  lemma {:induction false} NextTracks(s: State, step: Step, missing: bool)
    requires Safe(s) && HeldIsNewest(s) && Tracks(s, missing)
    ensures if Depends(s, step) && missing then !Chained(Reached(Next(s, step)))
            else Tracks(Next(s, step), Loses(s, step) || (!Resyncs(s, step) && missing))
  {
    if step.BeginFeed? {
      if s.handoff.Idle? { FeedTracks(s, step.datagram, step.now, missing); }
    } else if step.EndFeed? {
      if s.handoff.Ready? { EndTracks(s, missing); }
    } else {
      OtherTracks(s, step, missing);
    }
  }

  lemma {:induction false} OtherTracks(s: State, step: Step, missing: bool)
    requires Tracks(s, missing) && !step.BeginFeed? && !step.EndFeed?
    ensures Tracks(Next(s, step), missing)
  {
    if step.PopAu? {
      PopTracks(s, missing);
    } else {
      SameTracks(s, Next(s, step), missing);
    }
  }

  lemma {:induction false} SameTracks(s: State, s': State, missing: bool)
    requires Tracks(s, missing) && s' == s.(stopped := s'.stopped)
    ensures Tracks(s', missing)
  {
    assert Reached(s') == Reached(s);
  }

  lemma {:induction false} RunTracks(listening: bool, streamId: u16, steps: seq<Step>)
    requires !EverStrands(Init(listening, streamId), steps)
    ensures Tracks(Run(Init(listening, streamId), steps), Missing(Init(listening, streamId), steps))
  {
    if steps != [] {
      var s0, front := Init(listening, streamId), steps[..|steps| - 1];
      RunTracks(listening, streamId, front);
      RunHeld(listening, streamId, front);
      NextTracks(Run(s0, front), steps[|steps| - 1], Missing(s0, front));
    }
  }

  // ---------------------------------------------------------------- the main results

  /** Exactly when the chain holds, over every interleaving, with any datagrams and both drop policies: it is unbroken
      after every step if and only if no dependent unit was ever let through while a delivered frame was missing. */
  lemma {:induction false} ChainedIff(listening: bool, streamId: u16, steps: seq<Step>)
    ensures AlwaysChained(Init(listening, streamId), steps) <==> !EverStrands(Init(listening, streamId), steps)
  {
    var s0 := Init(listening, streamId);
    if steps != [] {
      var front := steps[..|steps| - 1];
      ChainedIff(listening, streamId, front);
      if !EverStrands(s0, front) {
        RunTracks(listening, streamId, front);
        RunHeld(listening, streamId, front);
        NextTracks(Run(s0, front), steps[|steps| - 1], Missing(s0, front));
      }
    }
  }

  lemma {:induction false} NothingMissing(s: State, steps: seq<Step>)
    requires !EverLoses(s, steps)
    ensures !Missing(s, steps) && !EverStrands(s, steps)
  {
    if steps != [] {
      NothingMissing(s, steps[..|steps| - 1]);
    }
  }

  /** Decoder-chain safety over every interleaving that loses no delivered frame, through gap discards and overrun drops
      alike: what the decoder takes starts with a keyframe, ascends, and every other unit directly follows the one
      before it. */
  lemma {:induction false} DecoderChain(listening: bool, streamId: u16, steps: seq<Step>)
    requires !EverLoses(Init(listening, streamId), steps)
    ensures var s := Run(Init(listening, streamId), steps);
            var us := s.popped + s.queue;
            && Ascending(us)
            && forall i :: 0 <= i < |us| ==> us[i].keyframe || (i > 0 && us[i - 1].frameSeq == us[i].frameSeq - 1)
  {
    NothingMissing(Init(listening, streamId), steps);
    RunTracks(listening, streamId, steps);
    RunSafe(listening, streamId, steps);
    var s := Run(Init(listening, streamId), steps);
    var us := s.popped + s.queue;
    DropMiddle(us, Held(s), [], s.reasm.lastDecoded) by {
      assert us + Held(s) + [] == s.popped + s.queue + Held(s);
    }
    assert us + [] == us;
    forall i | 0 <= i < |us| ensures us[i].keyframe || (i > 0 && us[i - 1].frameSeq == us[i].frameSeq - 1) {
      ChainedAt(us, i);
    }
  }

  /** From any reachable state: a dependent unit handed over continues the chain if and only if a keyframe is awaited,
      and the unit refused, or the decoder's newest unit is the newest frame delivered before it. */
  lemma {:induction false} SuccessorChains(s: State, datagram: seq<u8>, now: int)
    requires Safe(s) && s.handoff.Idle? && Chained(Reached(s))
    ensures var s' := FeedBegin(s, datagram, now);
            s'.handoff.Ready? && !s'.handoff.unit.keyframe ==>
              && s.reasm.lastDecoded == Some(s'.handoff.unit.frameSeq - 1)
              && (Chained(Reached(FeedEnd(s'))) <==>
                    s'.awaitingKeyframe || LastSeq(Reached(s)) == s.reasm.lastDecoded)
  {
    FeedBeginCases(s, datagram, now);
    var s' := FeedBegin(s, datagram, now);
    if s'.handoff.Ready? && !s'.handoff.unit.keyframe {
      HandedOver(s, s');
    }
  }

  lemma {:induction false} HandedOver(s: State, s': State)
    requires Chained(Reached(s)) && NewUnit(s, s') && !s'.handoff.unit.keyframe
    ensures Chained(Reached(FeedEnd(s'))) <==> s'.awaitingKeyframe || LastSeq(Reached(s)) == s.reasm.lastDecoded
  {
    var u := s'.handoff.unit;
    FeedEndCases(s');
    if |s.queue| >= 2 {
      assert Reached(FeedEnd(s')) == Reached(s)[..|s.popped|];
      CutChain(Reached(s), |s.popped|);
    } else if s'.awaitingKeyframe {
      assert Reached(FeedEnd(s')) == Reached(s);
    } else {
      ExtendChain(Reached(s), u);
      assert Reached(FeedEnd(s')) == Reached(s) + [u];
    }
  }

  /** From any reachable state: once a feed has lost a delivered frame the decoder is behind. */
  lemma {:induction false} LossBehind(s: State, datagram: seq<u8>, now: int)
    requires Safe(s) && Chained(Reached(s)) && Loses(s, BeginFeed(datagram, now))
    ensures var s' := FeedBegin(s, datagram, now);
            Safe(s') && s'.handoff.Idle? && Chained(Reached(s')) && LastSeq(Reached(s')) != s'.reasm.lastDecoded
  {
    BeginSafe(s, datagram, now);
    FeedBeginCases(s, datagram, now);
    NoUnitBehind(s, FeedBegin(s, datagram, now));
  }

  lemma {:induction false} NoUnitBehind(s: State, s': State)
    requires Safe(s) && Chained(Reached(s)) && NoUnit(s, s') && s'.reasm.lastDecoded != s.reasm.lastDecoded
    ensures Chained(Reached(s')) && LastSeq(Reached(s')) != s'.reasm.lastDecoded
  {
    assert Reached(s') == Reached(s);
    if LastSeq(Reached(s)).Some? {
      ReachedUpTo(s);
    }
  }

  /** Then the next dependent unit handed over is the lost frame's successor, and breaks the chain unless a keyframe is
      awaited. */
  lemma {:induction false} LossBreaks(s: State, lost: seq<u8>, t1: int, datagram: seq<u8>, t2: int)
    requires Safe(s) && Chained(Reached(s)) && Loses(s, BeginFeed(lost, t1))
    ensures NextDependent(FeedBegin(s, lost, t1), datagram, t2)
  {
    LossBehind(s, lost, t1);
    BehindBreaks(FeedBegin(s, lost, t1), datagram, t2);
  }

  predicate NextDependent(s: State, datagram: seq<u8>, now: int) {
    var s' := FeedBegin(s, datagram, now);
    s'.handoff.Ready? && !s'.handoff.unit.keyframe ==>
      && s.reasm.lastDecoded == Some(s'.handoff.unit.frameSeq - 1)
      && (Chained(Reached(FeedEnd(s'))) <==> s'.awaitingKeyframe)
  }

  lemma {:induction false} BehindBreaks(s: State, datagram: seq<u8>, now: int)
    requires Safe(s) && s.handoff.Idle? && Chained(Reached(s)) && LastSeq(Reached(s)) != s.reasm.lastDecoded
    ensures NextDependent(s, datagram, now)
  {
    SuccessorChains(s, datagram, now);
  }

  // ---------------------------------------------------------------- which frames are lost

  /** The datagram is accepted and makes the reassembler deliver its frame. */
  predicate Delivers(s: State, datagram: seq<u8>, now: int) {
    match Accept(s.streamId, datagram)
    case None => false
    case Some(h) => R.AfterPush(s.reasm, now, Fragment(h)).lastDecoded != s.reasm.lastDecoded
  }

  /** The frame of an accepted datagram, as the store would hold it. */
  function Stashed(s: State, datagram: seq<u8>): map<u32, Pending>
    requires Accept(s.streamId, datagram).Some?
  {
    Stash(s.pending, Accept(s.streamId, datagram).value, datagram[D.HEADER_LEN..])
  }

  lemma {:induction false} TakeFrameReady(s: State, q: u32, key: bool, now: int)
    requires s.handoff.Idle?
    ensures TakeFrame(s, q, key, now).handoff.Ready? <==>
            Assemblable(s.pending, q) && |Body(s.pending, q)| > 8
  {
  }

  lemma {:induction false} ReactReady(s: State, f: R.Fragment, now: int, s1: State)
    requires RS.LogInv(s.reasm) && s.seenEvents == |s.reasm.events| && s.handoff.Idle? && Ingested(s, f, now, s1)
    ensures React(s1, now).handoff.Ready? <==>
            && s1.reasm.lastDecoded != s.reasm.lastDecoded
            && Assemblable(s1.pending, f.frameSeq) && |Body(s1.pending, f.frameSeq)| > 8
  {
    if s1.reasm.events != s.reasm.events {
      var e := s1.reasm.events[s.seenEvents];
      if e.Deliver? {
        TakeFrameReady(s1.(seenEvents := s1.seenEvents + 1), e.frameSeq, e.keyframe, now);
      }
    }
  }

  /** In every reachable state: a feed loses a frame if and only if the reassembler delivers one that is not assembled
      or has at most a timestamp for a body. */
  lemma {:induction false} LosesIff(s: State, datagram: seq<u8>, now: int)
    requires InSync(s) && s.handoff.Idle?
    ensures Loses(s, BeginFeed(datagram, now)) <==>
            && Delivers(s, datagram, now)
            && var h := Accept(s.streamId, datagram).value;
               !(Assemblable(Stashed(s, datagram), h.frameSeq)
                 && |Body(Stashed(s, datagram), h.frameSeq)| > 8)
  {
    var a := Accept(s.streamId, datagram);
    if a.Some? {
      var f := Fragment(a.value);
      RS.PushReports(s.reasm, now, f);
      FeedBeginStore(s, a.value, datagram, now);
      ReactReady(s, f, now, Ingest(s, a.value, datagram, now));
    }
  }

  /** The step does not complete a frame with another count than the frame began with, or without a body. */
  predicate SoundStep(s: State, step: Step) {
    step.BeginFeed? && s.handoff.Idle? && Delivers(s, step.datagram, step.now) ==>
      var h := Accept(s.streamId, step.datagram).value;
      h.fragCount == FirstCount(s.reasm, h) && |Body(Stashed(s, step.datagram), h.frameSeq)| > 8
  }

  predicate AllSound(s: State, steps: seq<Step>) {
    steps == []
    || (AllSound(s, steps[..|steps| - 1]) && SoundStep(Run(s, steps[..|steps| - 1]), steps[|steps| - 1]))
  }

  lemma {:induction false} DeliversCompletes(s: State, datagram: seq<u8>, now: int)
    requires InSync(s) && Delivers(s, datagram, now)
    ensures Completes(s.reasm, Accept(s.streamId, datagram).value)
  {
    var f := Fragment(Accept(s.streamId, datagram).value);
    RS.PushReports(s.reasm, now, f);
    RS.AdmitOrStale(s.reasm, now, f);
  }

  lemma {:induction false} LosesIffUnsound(s: State, step: Step)
    requires InSync(s) && KeysAgree(s.pending, s.reasm)
    ensures Loses(s, step) <==> !SoundStep(s, step)
  {
    if step.BeginFeed? && s.handoff.Idle? {
      LosesIff(s, step.datagram, step.now);
      if Delivers(s, step.datagram, step.now) {
        DeliversCompletes(s, step.datagram, step.now);
        var h := Accept(s.streamId, step.datagram).value;
        AssembledIffCount(s.pending, s.reasm, 0, h, step.datagram[D.HEADER_LEN..]);
      }
    }
  }

  /** Over every compact run: a delivered frame is lost at some step if and only if at some step a frame is completed by
      a fragment that contradicts its first one's count, or has at most a timestamp for a body. */
  lemma {:induction false} LossIffUnsound(listening: bool, streamId: u16, steps: seq<Step>)
    requires AllCompact(Init(listening, streamId), steps)
    ensures EverLoses(Init(listening, streamId), steps) <==> !AllSound(Init(listening, streamId), steps)
  {
    if steps != [] {
      var s0, front := Init(listening, streamId), steps[..|steps| - 1];
      LossIffUnsound(listening, streamId, front);
      RunSafe(listening, streamId, front);
      AgreementIffCompact(listening, streamId, front);
      AgreesNow(s0, front);
      LosesIffUnsound(Run(s0, front), steps[|steps| - 1]);
    }
  }
}
