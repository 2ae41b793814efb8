/** The payload store against the reassembler's bookkeeping: when they agree, and which completed frames are
    assembled. */
module ReceiverStore {
  import opened Base
  import D = Datagram
  import R = Reassembly
  import RS = ReassemblySafety
  import opened VideoReceiver
  import opened ReceiverSafety

  function Body(pending: map<u32, Pending>, q: u32): seq<u8>
    requires q in pending
  {
    Join(pending[q].parts, pending[q].count)
  }

  // ---------------------------------------------------------------- which payloads are kept

  /** For a frame in the window, if it is not older than `low`, the payloads kept are those of the fragments counted,
      whatever counts they carried; what else is kept belongs to dead frames. */
  predicate AgreesFrom(pending: map<u32, Pending>, r: R.State, low: int) {
    && (forall q :: q in r.incomplete && q >= low ==> q in pending && pending[q].parts.Keys == r.incomplete[q].have)
    && (forall q :: q in pending ==> RS.HeldOrDead(r, q))
  }

  predicate KeysAgree(pending: map<u32, Pending>, r: R.State) {
    AgreesFrom(pending, r, 0)
  }

  /** No frame still in the window is more than 4 behind the arriving one. */
  predicate Compact(r: R.State, q: u32) {
    forall k :: k in r.incomplete ==> k >= q - 4
  }

  /** Stashing a live fragment's payload extends its frame's record as the reassembler will. */
  lemma {:induction false} StashRecorded(
      pending: map<u32, Pending>, r: R.State, low: int, h: D.Header, payload: seq<u8>)
    requires AgreesFrom(pending, r, low) && !RS.DeadIn(r, h.frameSeq) && h.frameSeq >= low
    ensures Stash(pending, h, payload)[h.frameSeq].parts.Keys == RS.Recorded(r, Fragment(h)).have
  {
    if h.frameSeq !in r.incomplete {
      assert h.frameSeq !in pending;
    }
  }

  /** Any fragment may come: stashing and pushing it keep store and bookkeeping in agreement. */
  lemma {:induction false} StashAgrees(
      pending: map<u32, Pending>, r: R.State, low: int, h: D.Header, payload: seq<u8>, now: int)
    requires AgreesFrom(pending, r, low) && RS.Inv(r)
    ensures AgreesFrom(Stash(pending, h, payload), R.AfterPush(r, now, Fragment(h)), low)
  {
    var f, q := Fragment(h), h.frameSeq;
    var p', r' := Stash(pending, h, payload), R.AfterPush(r, now, f);
    RS.PushEntries(r, now, f);
    RS.PushedOrDead(r, now, f);
    forall k | k in p' ensures RS.HeldOrDead(r', k) {
      if k != q {
        assert k in pending;
        RS.DeadForever(r, now, f, k);
      }
    }
    forall k | k in r'.incomplete && k >= low ensures k in p' && p'[k].parts.Keys == r'.incomplete[k].have {
      if k == q {
        if RS.DeadIn(r, q) {
          RS.DeadForever(r, now, f, q);
        } else {
          StashRecorded(pending, r, low, h, payload);
        }
      }
    }
  }

  /** Pruning gives up the frames it may have pruned, and no others. */
  lemma {:induction false} PruneAgrees(pending: map<u32, Pending>, r: R.State, low: int, q: u32)
    requires AgreesFrom(pending, r, low)
    ensures AgreesFrom(Pruned(pending, q), r, R.Max(low, q - 4))
    ensures Compact(r, q) ==> AgreesFrom(Pruned(pending, q), r, low)
  {
  }

  /** Pruning after a fragment of q keeps the whole agreement if and only if the window is compact. */
  lemma {:induction false} PruneAgreesIffCompact(pending: map<u32, Pending>, r: R.State, q: u32)
    requires KeysAgree(pending, r)
    ensures KeysAgree(Pruned(pending, q), r) <==> Compact(r, q)
  {
    PruneAgrees(pending, r, 0, q);
    if !Compact(r, q) {
      var k :| k in r.incomplete && k < q - 4;
      assert k !in Pruned(pending, q);
    }
  }

  /** Removing the payloads of a frame outside the window keeps the agreement. */
  lemma {:induction false} RemoveAgrees(pending: map<u32, Pending>, r: R.State, low: int, q: u32)
    requires AgreesFrom(pending, r, low)
    ensures q !in r.incomplete ==> AgreesFrom(pending - {q}, r, low)
  {
  }

  // ---------------------------------------------------------------- which frames are assembled

  /** The fragment is the last its frame needs. */
  predicate Completes(r: R.State, h: D.Header) {
    !RS.DeadIn(r, h.frameSeq) && |RS.Recorded(r, Fragment(h)).have| == RS.Recorded(r, Fragment(h)).need
  }

  /** The count of the frame's first fragment, which the reassembler goes by. */
  function FirstCount(r: R.State, h: D.Header): u16 {
    RS.Recorded(r, Fragment(h)).need
  }

  /** A completed frame is assembled if and only if the fragment that completed it repeats the first one's count; what
      the fragments in between said does not matter. */
  lemma {:induction false} AssembledIffCount(
      pending: map<u32, Pending>, r: R.State, low: int, h: D.Header, payload: seq<u8>)
    requires AgreesFrom(pending, r, low) && Completes(r, h) && h.frameSeq >= low
    ensures Assemblable(Stash(pending, h, payload), h.frameSeq) <==> h.fragCount == FirstCount(r, h)
  {
    StashRecorded(pending, r, low, h, payload);
    var p := Stash(pending, h, payload)[h.frameSeq];
    assert |p.parts| == |p.parts.Keys|;
  }

  /** The indices below n. */
  function Below(n: nat): (s: set<u16>)
    requires n <= 0x1_0000
    ensures |s| == n && forall i: u16 :: i in s <==> i < n
  {
    if n == 0 then {} else
      var last: u16 := n - 1;
      Below(n - 1) + {last}
  }

  lemma {:induction false} PigeonHole(s: set<u16>, n: nat)
    requires |s| == n <= 0x1_0000 && forall i :: i in s ==> i < n
    ensures forall i :: 0 <= i < n ==> i in s
  {
    forall i | 0 <= i < n ensures i in s {
      if i !in s {
        assert s <= Below(n) - {i};
        RS.SubsetSize(s, Below(n) - {i});
      }
    }
  }

  /** A set of n indices has all below n if and only if it has none from n on. */
  lemma {:induction false} AllIffOnlyBelow(s: set<u16>, n: nat)
    requires |s| == n < 0x1_0000
    ensures (forall i :: 0 <= i < n ==> i in s) <==> (forall i :: i in s ==> i < n)
  {
    if forall i :: i in s ==> i < n {
      PigeonHole(s, n);
    } else if forall i :: 0 <= i < n ==> i in s {
      var x :| x in s && x >= n;
      assert Below(n) <= s - {x} by {
        forall i | i in Below(n) ensures i in s - {x} {
          assert 0 <= i < n;
        }
      }
      RS.SubsetSize(Below(n), s - {x});
    }
  }

  /** The payloads of a frame about to be delivered are exactly the parts 0 to count - 1. */
  predicate Whole(p: Pending) {
    |p.parts| == p.count && forall i :: 0 <= i < p.count ==> i in p.parts
  }

  /** An assembled frame has all its parts if and only if no fragment counted lay beyond the first one's count. */
  lemma {:induction false} WholeIffInRange(pending: map<u32, Pending>, r: R.State, h: D.Header, payload: seq<u8>)
    requires KeysAgree(pending, r) && Completes(r, h) && h.fragCount == FirstCount(r, h)
    ensures Whole(Stash(pending, h, payload)[h.frameSeq]) <==>
            forall i :: i in RS.Recorded(r, Fragment(h)).have ==> i < h.fragCount
  {
    StashRecorded(pending, r, 0, h, payload);
    var p := Stash(pending, h, payload)[h.frameSeq];
    assert |p.parts| == |p.parts.Keys|;
    AllIffOnlyBelow(p.parts.Keys, p.count);
  }

  // ---------------------------------------------------------------- one feed

  /** After a datagram has been pushed, no frame in the window is more than 4 behind its frame. */
  predicate StaysCompact(s: State, datagram: seq<u8>, now: int) {
    match Accept(s.streamId, datagram)
    case None => true
    case Some(h) => Compact(R.AfterPush(s.reasm, now, Fragment(h)), h.frameSeq)
  }

  lemma {:induction false} TakeFrameStore(s: State, q: u32, key: bool, now: int)
    ensures TakeFrame(s, q, key, now).pending == s.pending || TakeFrame(s, q, key, now).pending == s.pending - {q}
    ensures s.handoff.Idle? && TakeFrame(s, q, key, now).handoff.Ready? ==>
              TakeFrame(s, q, key, now).pending == s.pending - {q}
    ensures TakeFrame(s, q, key, now).reasm == s.reasm
  {
  }

  /** Handling the event touches the payloads of the delivered frame at most. */
  lemma {:induction false} ReactStore(s: State, f: R.Fragment, now: int, s1: State)
    requires s.seenEvents == |s.reasm.events| && s.handoff.Idle? && Ingested(s, f, now, s1)
    ensures var s' := React(s1, now);
            && s'.reasm == s1.reasm
            && (s'.pending == s1.pending
                || (s'.pending == s1.pending - {f.frameSeq} && s1.reasm.newestComplete == f.frameSeq))
            && (s'.handoff.Ready? ==>
                  s'.pending == s1.pending - {f.frameSeq} && s1.reasm.newestComplete == f.frameSeq)
  {
    if s1.reasm.events != s.reasm.events {
      TakeFrameStore(s1.(seenEvents := s1.seenEvents + 1), f.frameSeq, RS.Recorded(s.reasm, f).keyframe, now);
    }
  }

  /** What a feed of fragment h makes of the store: stashed, without the frame if it was assembled, and pruned unless
      its unit is still in hand. */
  predicate Fed(
      pending: map<u32, Pending>, h: D.Header, payload: seq<u8>, newest: int, held: bool, p': map<u32, Pending>)
  {
    var stashed := Stash(pending, h, payload);
    if held then p' == stashed - {h.frameSeq} && newest == h.frameSeq
    else
      || p' == Pruned(stashed, h.frameSeq)
      || (p' == Pruned(stashed - {h.frameSeq}, h.frameSeq) && newest == h.frameSeq)
  }

  lemma {:induction false} FeedBeginStore(s: State, h: D.Header, datagram: seq<u8>, now: int)
    requires InSync(s) && s.handoff.Idle? && Accept(s.streamId, datagram) == Some(h)
    ensures var s' := FeedBegin(s, datagram, now);
            && s'.reasm == R.AfterPush(s.reasm, now, Fragment(h))
            && Fed(s.pending, h, datagram[D.HEADER_LEN..], s'.reasm.newestComplete, s'.handoff.Ready?, s'.pending)
  {
    RS.PushReports(s.reasm, now, Fragment(h));
    var s1 := Ingest(s, h, datagram, now);
    ReactStore(s, Fragment(h), now, s1);
    TidiedStore(s.pending, h, datagram[D.HEADER_LEN..], s1.reasm, React(s1, now), FeedBegin(s, datagram, now));
  }

  lemma {:induction false} TidiedStore(
      pending: map<u32, Pending>, h: D.Header, payload: seq<u8>, r: R.State, s: State, s': State)
    requires s' == (if s.handoff.Idle? then Tidy(s, h.frameSeq) else s) && s.reasm == r
    requires var stashed := Stash(pending, h, payload);
             var taken := s.pending == stashed - {h.frameSeq} && r.newestComplete == h.frameSeq;
             if s.handoff.Ready? then taken else s.pending == stashed || taken
    ensures s'.reasm == r && Fed(pending, h, payload, r.newestComplete, s'.handoff.Ready?, s'.pending)
  {
  }

  lemma {:induction false} FedAgrees(
      pending: map<u32, Pending>, r: R.State, low: int, h: D.Header, payload: seq<u8>, held: bool,
      p': map<u32, Pending>)
    requires RS.Inv(r) && AgreesFrom(Stash(pending, h, payload), r, low)
    requires Fed(pending, h, payload, r.newestComplete, held, p')
    ensures AgreesFrom(p', r, R.Max(low, h.frameSeq - 4))
    ensures low == 0 ==> (KeysAgree(p', r) <==> Compact(r, h.frameSeq))
  {
    var stashed := Stash(pending, h, payload);
    RemoveAgrees(stashed, r, low, h.frameSeq);
    PruneAgrees(stashed, r, low, h.frameSeq);
    if low == 0 {
      PruneAgreesIffCompact(stashed, r, h.frameSeq);
    }
    if AgreesFrom(stashed - {h.frameSeq}, r, low) {
      PruneAgrees(stashed - {h.frameSeq}, r, low, h.frameSeq);
      if low == 0 {
        PruneAgreesIffCompact(stashed - {h.frameSeq}, r, h.frameSeq);
      }
    }
  }

  lemma {:induction false} FeedAgreesFrom(s: State, low: int, h: D.Header, datagram: seq<u8>, now: int)
    requires InSync(s) && s.handoff.Idle? && AgreesFrom(s.pending, s.reasm, low)
    requires Accept(s.streamId, datagram) == Some(h)
    ensures var s' := FeedBegin(s, datagram, now);
            && AgreesFrom(s'.pending, s'.reasm, R.Max(low, h.frameSeq - 4))
            && (low == 0 ==> (KeysAgree(s'.pending, s'.reasm) <==> Compact(s'.reasm, h.frameSeq)))
            && s'.reasm == R.AfterPush(s.reasm, now, Fragment(h))
  {
    FeedBeginStore(s, h, datagram, now);
    StashAgrees(s.pending, s.reasm, low, h, datagram[D.HEADER_LEN..], now);
    RS.PushInv(s.reasm, now, Fragment(h));
    var s' := FeedBegin(s, datagram, now);
    FedAgrees(s.pending, s'.reasm, low, h, datagram[D.HEADER_LEN..], s'.handoff.Ready?, s'.pending);
  }

  /** A feed keeps the agreement if and only if it leaves the window compact. */
  lemma {:induction false} FeedBeginAgrees(s: State, datagram: seq<u8>, now: int)
    requires InSync(s) && s.handoff.Idle? && KeysAgree(s.pending, s.reasm)
    ensures var s' := FeedBegin(s, datagram, now);
            KeysAgree(s'.pending, s'.reasm) <==> StaysCompact(s, datagram, now)
  {
    var a := Accept(s.streamId, datagram);
    if a.Some? {
      FeedAgreesFrom(s, 0, a.value, datagram, now);
    }
  }

  /** The unit in the producer's hand is the newest frame delivered. */
  predicate HeldIsNewest(s: State) {
    s.handoff.Ready? ==> s.reasm.lastDecoded == Some(s.handoff.unit.frameSeq)
  }

  /** A delivered frame is older than everything in the window, so pruning behind it is always safe. */
  lemma {:induction false} FeedEndAgrees(s: State, low: int)
    requires InSync(s) && s.handoff.Ready? && HeldIsNewest(s) && AgreesFrom(s.pending, s.reasm, low)
    ensures AgreesFrom(FeedEnd(s).pending, FeedEnd(s).reasm, low)
  {
    FeedEndCases(s);
    assert Compact(s.reasm, s.handoff.unit.frameSeq);
    PruneAgrees(s.pending, s.reasm, low, s.handoff.unit.frameSeq);
    assert FeedEnd(s).pending == Pruned(s.pending, s.handoff.unit.frameSeq);
  }

  // ---------------------------------------------------------------- whole runs

  lemma {:induction false} NextHeld(s: State, step: Step)
    requires Safe(s) && HeldIsNewest(s)
    ensures HeldIsNewest(Next(s, step))
  {
    if step.BeginFeed? && s.handoff.Idle? {
      FeedBeginCases(s, step.datagram, step.now);
    } else if step.EndFeed? && s.handoff.Ready? {
      FeedEndCases(s);
    }
  }

  lemma {:induction false} RunHeld(listening: bool, streamId: u16, steps: seq<Step>)
    ensures Safe(Run(Init(listening, streamId), steps)) && HeldIsNewest(Run(Init(listening, streamId), steps))
  {
    RunSafe(listening, streamId, steps);
    if steps != [] {
      var front := steps[..|steps| - 1];
      RunHeld(listening, streamId, front);
      NextHeld(Run(Init(listening, streamId), front), steps[|steps| - 1]);
    }
  }

  /** The step, if it is a feed, leaves the window compact. */
  predicate CompactStep(s: State, step: Step) {
    step.BeginFeed? && s.handoff.Idle? ==> StaysCompact(s, step.datagram, step.now)
  }

  predicate AllCompact(s: State, steps: seq<Step>) {
    steps == []
    || (AllCompact(s, steps[..|steps| - 1]) && CompactStep(Run(s, steps[..|steps| - 1]), steps[|steps| - 1]))
  }

  /** Store and bookkeeping agree after every step. */
  predicate AlwaysAgrees(s: State, steps: seq<Step>) {
    && KeysAgree(Run(s, steps).pending, Run(s, steps).reasm)
    && (steps == [] || AlwaysAgrees(s, steps[..|steps| - 1]))
  }

  lemma {:induction false} NextAgrees(s: State, step: Step)
    requires Safe(s) && HeldIsNewest(s) && KeysAgree(s.pending, s.reasm)
    ensures KeysAgree(Next(s, step).pending, Next(s, step).reasm) <==> CompactStep(s, step)
  {
    match step
    case BeginFeed(datagram, now) => if s.handoff.Idle? { FeedBeginAgrees(s, datagram, now); }
    case EndFeed => if s.handoff.Ready? { FeedEndAgrees(s, 0); }
    case PopAu =>
    case StopPops =>
    case ResumePops =>
  }

  /** Over every interleaving, with any fragments whatever: store and bookkeeping agree throughout if and only if the
      window stays compact throughout. */
  lemma {:induction false} AgreementIffCompact(listening: bool, streamId: u16, steps: seq<Step>)
    ensures AlwaysAgrees(Init(listening, streamId), steps) <==> AllCompact(Init(listening, streamId), steps)
  {
    if steps != [] {
      var front := steps[..|steps| - 1];
      AgreementIffCompact(listening, streamId, front);
      RunHeld(listening, streamId, front);
      if AllCompact(Init(listening, streamId), front) {
        NextAgrees(Run(Init(listening, streamId), front), steps[|steps| - 1]);
      }
    }
  }

  lemma {:induction false} AgreesNow(s: State, steps: seq<Step>)
    requires AlwaysAgrees(s, steps)
    ensures KeysAgree(Run(s, steps).pending, Run(s, steps).reasm)
  {
  }

  /** Over every compact run: a frame completed by a fragment with header h is assembled if and only if h repeats the
      count of the frame's first fragment, and is then whole if and only if no fragment lay beyond that count. */
  lemma {:induction false} CompletedRun(listening: bool, streamId: u16, steps: seq<Step>, h: D.Header, payload: seq<u8>)
    requires AllCompact(Init(listening, streamId), steps)
    ensures var s := Run(Init(listening, streamId), steps);
            Completes(s.reasm, h) ==>
              var p' := Stash(s.pending, h, payload);
              && (Assemblable(p', h.frameSeq) <==> h.fragCount == FirstCount(s.reasm, h))
              && (h.fragCount == FirstCount(s.reasm, h) ==>
                    (Whole(p'[h.frameSeq]) <==>
                       forall i :: i in RS.Recorded(s.reasm, Fragment(h)).have ==> i < h.fragCount))
  {
    AgreementIffCompact(listening, streamId, steps);
    AgreesNow(Init(listening, streamId), steps);
    var s := Run(Init(listening, streamId), steps);
    if Completes(s.reasm, h) {
      AssembledIffCount(s.pending, s.reasm, 0, h, payload);
      if h.fragCount == FirstCount(s.reasm, h) {
        WholeIffInRange(s.pending, s.reasm, h, payload);
      }
    }
  }

  // ---------------------------------------------------------------- constant counts

  /** The fragment count repeats what its frame's first fragment said. */
  predicate CountConsistent(r: R.State, h: D.Header) {
    h.frameSeq in r.incomplete ==> r.incomplete[h.frameSeq].need == h.fragCount
  }

  /** Every index counted for a frame in the window is below the count its first fragment gave. */
  predicate InRange(r: R.State) {
    forall q, i :: q in r.incomplete && i in r.incomplete[q].have ==> i < r.incomplete[q].need
  }

  lemma {:induction false} PushInRange(r: R.State, h: D.Header, now: int)
    requires RS.Inv(r) && InRange(r) && CountConsistent(r, h) && h.fragIndex < h.fragCount
    ensures InRange(R.AfterPush(r, now, Fragment(h)))
    ensures forall i :: i in RS.Recorded(r, Fragment(h)).have ==> i < h.fragCount
  {
    RS.PushEntries(r, now, Fragment(h));
  }

  /** The step, if it feeds an accepted datagram, repeats its frame's count. */
  predicate ConsistentStep(s: State, step: Step) {
    step.BeginFeed? && s.handoff.Idle? && Accept(s.streamId, step.datagram).Some? ==>
      CountConsistent(s.reasm, Accept(s.streamId, step.datagram).value)
  }

  predicate AllConsistent(s: State, steps: seq<Step>) {
    steps == []
    || (AllConsistent(s, steps[..|steps| - 1]) && ConsistentStep(Run(s, steps[..|steps| - 1]), steps[|steps| - 1]))
  }

  lemma {:induction false} NextReasm(s: State, step: Step)
    requires Safe(s)
    ensures var a := if step.BeginFeed? && s.handoff.Idle? then Accept(s.streamId, step.datagram) else None;
            Next(s, step).reasm == if a.None? then s.reasm else R.AfterPush(s.reasm, step.now, Fragment(a.value))
  {
    if step.BeginFeed? && s.handoff.Idle? {
      var a := Accept(s.streamId, step.datagram);
      if a.Some? {
        RS.PushReports(s.reasm, step.now, Fragment(a.value));
        ReactCases(s, Fragment(a.value), step.now, Ingest(s, a.value, step.datagram, step.now));
      }
    } else if step.EndFeed? && s.handoff.Ready? {
      FeedEndCases(s);
    }
  }

  lemma {:induction false} RunInRange(listening: bool, streamId: u16, steps: seq<Step>)
    requires AllConsistent(Init(listening, streamId), steps)
    ensures InRange(Run(Init(listening, streamId), steps).reasm)
  {
    if steps != [] {
      var front, step := steps[..|steps| - 1], steps[|steps| - 1];
      RunInRange(listening, streamId, front);
      RunSafe(listening, streamId, front);
      var s := Run(Init(listening, streamId), front);
      NextReasm(s, step);
      if step.BeginFeed? && s.handoff.Idle? && Accept(s.streamId, step.datagram).Some? {
        PushInRange(s.reasm, Accept(s.streamId, step.datagram).value, step.now);
      }
    }
  }

  /** With constant counts and a compact window, over every interleaving: a completing fragment finds exactly the parts
      0 to count - 1, so the "shouldn't happen" return is not taken. */
  lemma {:induction false} CompleteIsWhole(
      listening: bool, streamId: u16, steps: seq<Step>, h: D.Header, payload: seq<u8>)
    requires AllCompact(Init(listening, streamId), steps) && AllConsistent(Init(listening, streamId), steps)
    requires h.fragIndex < h.fragCount
    ensures var s := Run(Init(listening, streamId), steps);
            CountConsistent(s.reasm, h) && Completes(s.reasm, h) ==>
              var p' := Stash(s.pending, h, payload);
              Assemblable(p', h.frameSeq) && Whole(p'[h.frameSeq])
  {
    RunInRange(listening, streamId, steps);
    RunSafe(listening, streamId, steps);
    CompletedRun(listening, streamId, steps, h, payload);
    var s := Run(Init(listening, streamId), steps);
    if CountConsistent(s.reasm, h) && Completes(s.reasm, h) {
      PushInRange(s.reasm, h, 0);
    }
  }
}
