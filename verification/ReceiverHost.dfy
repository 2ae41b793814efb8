/** What the datagrams alone must satisfy: whatever the network loses, repeats or reorders by at most four frames, the
    decoder sees the host's own frames in unbroken chains. */
module ReceiverHost {
  import opened Base
  import D = Datagram
  import R = Reassembly
  import RS = ReassemblySafety
  import opened VideoReceiver
  import opened ReceiverSafety
  import opened ReceiverStore
  import opened ReceiverChain
  import opened ReceiverRoundTrip

  /** The frames a host has cut, by number. */
  type Table = map<u32, Frame>

  predicate TableOk(frames: Table) {
    forall q :: q in frames ==> FrameOk(frames[q]) && frames[q].frameSeq == q
  }

  /** The header and payload are those of a piece of one of the host's frames. */
  predicate PieceOf(frames: Table, streamId: u16, h: D.Header, payload: seq<u8>)
    requires TableOk(frames)
  {
    && h.frameSeq in frames
    && h.fragIndex < |frames[h.frameSeq].pieces|
    && h == HeaderFor(streamId, frames[h.frameSeq], h.fragIndex)
    && payload == frames[h.frameSeq].pieces[h.fragIndex]
  }

  /** The step, if it feeds a datagram the receiver accepts, feeds a piece of one of the host's frames. */
  predicate FromHost(frames: Table, streamId: u16, step: Step)
    requires TableOk(frames)
  {
    step.BeginFeed? && Accept(streamId, step.datagram).Some? ==>
      PieceOf(frames, streamId, Accept(streamId, step.datagram).value, step.datagram[D.HEADER_LEN..])
  }

  lemma {:induction false} CutFromHost(frames: Table, streamId: u16, q: u32, i: nat, now: int)
    requires TableOk(frames) && q in frames && i < |frames[q].pieces|
    ensures FromHost(frames, streamId, BeginFeed(Cut(streamId, frames[q], i), now))
  {
    AcceptCut(streamId, frames[q], i);
  }

  predicate AllFromHost(frames: Table, streamId: u16, steps: seq<Step>)
    requires TableOk(frames)
  {
    steps == []
    || (AllFromHost(frames, streamId, steps[..|steps| - 1]) && FromHost(frames, streamId, steps[|steps| - 1]))
  }

  /** The newest frame of which the steps feed a piece, or -1. */
  function NewestFed(streamId: u16, steps: seq<Step>): (n: int)
    ensures n >= -1
  {
    if steps == [] then -1
    else
      var n, step := NewestFed(streamId, steps[..|steps| - 1]), steps[|steps| - 1];
      if step.BeginFeed? && Accept(streamId, step.datagram).Some? then
        R.Max(n, Accept(streamId, step.datagram).value.frameSeq)
      else n
  }

  /** No piece arrives after a piece of a frame more than four newer. */
  predicate InOrder(streamId: u16, steps: seq<Step>) {
    steps == []
    || var front, step := steps[..|steps| - 1], steps[|steps| - 1];
       && InOrder(streamId, front)
       && (step.BeginFeed? && Accept(streamId, step.datagram).Some? ==>
             Accept(streamId, step.datagram).value.frameSeq >= NewestFed(streamId, front) - 4)
  }

  // ---------------------------------------------------------------- what is stored is the host's

  predicate StoreFrom(frames: Table, pending: map<u32, Pending>) {
    forall q :: q in pending ==>
      && q in frames && pending[q].count == |frames[q].pieces|
      && forall i :: i in pending[q].parts ==> i < |frames[q].pieces| && pending[q].parts[i] == frames[q].pieces[i]
  }

  predicate WindowFrom(frames: Table, r: R.State) {
    forall q :: q in r.incomplete ==>
      q in frames && r.incomplete[q].need == |frames[q].pieces| && r.incomplete[q].keyframe == frames[q].keyframe
  }

  ghost predicate UnitsFrom(frames: Table, us: seq<AccessUnit>)
    requires TableOk(frames)
  {
    forall u :: u in us ==> u.frameSeq in frames && u == Unit(frames[u.frameSeq])
  }

  lemma {:induction false} StashFrom(
      frames: Table, streamId: u16, pending: map<u32, Pending>, h: D.Header, payload: seq<u8>)
    requires TableOk(frames) && StoreFrom(frames, pending) && PieceOf(frames, streamId, h, payload)
    ensures StoreFrom(frames, Stash(pending, h, payload))
  {
  }

  /** A frame that can be assembled has its host's body. */
  lemma {:induction false} BodyFrom(frames: Table, pending: map<u32, Pending>, q: u32)
    requires TableOk(frames) && StoreFrom(frames, pending) && Assemblable(pending, q)
    ensures Body(pending, q) == Concat(frames[q].pieces)
  {
    var p, f := pending[q], frames[q];
    assert |p.parts.Keys| == |p.parts|;
    PigeonHole(p.parts.Keys, p.count);
    JoinIsConcat(p.parts, f.pieces, |f.pieces|);
    assert f.pieces[..|f.pieces|] == f.pieces;
  }

  lemma {:induction false} PushFrom(
      frames: Table, streamId: u16, r: R.State, h: D.Header, payload: seq<u8>, now: int)
    requires TableOk(frames) && RS.Inv(r) && WindowFrom(frames, r) && PieceOf(frames, streamId, h, payload)
    ensures WindowFrom(frames, R.AfterPush(r, now, Fragment(h)))
    ensures RS.Recorded(r, Fragment(h)).keyframe == frames[h.frameSeq].keyframe
    ensures FirstCount(r, h) == h.fragCount
  {
    RS.PushEntries(r, now, Fragment(h));
  }

  lemma {:induction false} FedFrom(
      frames: Table, streamId: u16, pending: map<u32, Pending>, h: D.Header, payload: seq<u8>, newest: int, held: bool,
      p': map<u32, Pending>)
    requires TableOk(frames) && StoreFrom(frames, pending) && PieceOf(frames, streamId, h, payload)
    requires Fed(pending, h, payload, newest, held, p')
    ensures StoreFrom(frames, p')
  {
    StashFrom(frames, streamId, pending, h, payload);
  }

  /** A feed assembles nothing, or the unit that the store holds for the frame. */
  lemma {:induction false} FeedUnit(s: State, h: D.Header, datagram: seq<u8>, now: int)
    requires InSync(s) && s.handoff.Idle? && Accept(s.streamId, datagram) == Some(h)
    ensures var us, p := FeedBegin(s, datagram, now).assembled, Stashed(s, datagram);
            || us == s.assembled
            || (&& Assemblable(p, h.frameSeq) && |Body(p, h.frameSeq)| > 8
                && us == s.assembled
                         + [UnitOf(Body(p, h.frameSeq), RS.Recorded(s.reasm, Fragment(h)).keyframe, h.frameSeq)])
  {
    RS.PushReports(s.reasm, now, Fragment(h));
    ReactUnit(s, Fragment(h), now, Ingest(s, h, datagram, now));
  }

  lemma {:induction false} TakeFrameUnit(s: State, q: u32, key: bool, now: int)
    ensures var us := TakeFrame(s, q, key, now).assembled;
            || us == s.assembled
            || (&& Assemblable(s.pending, q) && |Body(s.pending, q)| > 8
                && us == s.assembled + [UnitOf(Body(s.pending, q), key, q)])
  {
  }

  lemma {:induction false} ReactUnit(s: State, f: R.Fragment, now: int, s1: State)
    requires s.seenEvents == |s.reasm.events| && Ingested(s, f, now, s1)
    ensures var us := React(s1, now).assembled;
            || us == s.assembled
            || (&& Assemblable(s1.pending, f.frameSeq) && |Body(s1.pending, f.frameSeq)| > 8
                && us == s.assembled
                         + [UnitOf(Body(s1.pending, f.frameSeq), RS.Recorded(s.reasm, f).keyframe, f.frameSeq)])
  {
    if s1.reasm.events != s.reasm.events {
      TakeFrameUnit(s1.(seenEvents := s1.seenEvents + 1), f.frameSeq, RS.Recorded(s.reasm, f).keyframe, now);
    }
  }

  ghost predicate AllHosts(frames: Table, s: State)
    requires TableOk(frames)
  {
    StoreFrom(frames, s.pending) && WindowFrom(frames, s.reasm) && UnitsFrom(frames, s.assembled)
  }

  lemma {:induction false} FeedFrom(frames: Table, s: State, h: D.Header, datagram: seq<u8>, now: int)
    requires TableOk(frames) && InSync(s) && s.handoff.Idle? && AllHosts(frames, s)
    requires Accept(s.streamId, datagram) == Some(h) && PieceOf(frames, s.streamId, h, datagram[D.HEADER_LEN..])
    ensures AllHosts(frames, FeedBegin(s, datagram, now))
  {
    var s', payload := FeedBegin(s, datagram, now), datagram[D.HEADER_LEN..];
    FeedBeginStore(s, h, datagram, now);
    PushFrom(frames, s.streamId, s.reasm, h, payload, now);
    FedFrom(frames, s.streamId, s.pending, h, payload, s'.reasm.newestComplete, s'.handoff.Ready?, s'.pending);
    StashFrom(frames, s.streamId, s.pending, h, payload);
    FeedUnit(s, h, datagram, now);
    AddUnitFrom(frames, Stashed(s, datagram), h.frameSeq, s.assembled, s'.assembled);
  }

  lemma {:induction false} AddUnitFrom(
      frames: Table, pending: map<u32, Pending>, q: u32, us: seq<AccessUnit>, us': seq<AccessUnit>)
    requires TableOk(frames) && StoreFrom(frames, pending) && UnitsFrom(frames, us) && q in frames
    requires us' == us
             || (&& Assemblable(pending, q) && |Body(pending, q)| > 8
                 && us' == us + [UnitOf(Body(pending, q), frames[q].keyframe, q)])
    ensures UnitsFrom(frames, us')
  {
    if us' != us {
      BodyFrom(frames, pending, q);
    }
  }

  lemma {:induction false} EndFrom(frames: Table, s: State)
    requires TableOk(frames) && s.handoff.Ready? && AllHosts(frames, s)
    ensures AllHosts(frames, FeedEnd(s))
  {
    FeedEndCases(s);
    assert FeedEnd(s).pending == Pruned(s.pending, s.handoff.unit.frameSeq);
  }

  lemma {:induction false} NextFrom(frames: Table, s: State, step: Step)
    requires TableOk(frames) && Safe(s) && AllHosts(frames, s) && FromHost(frames, s.streamId, step)
    ensures AllHosts(frames, Next(s, step))
  {
    if step.BeginFeed? {
      if s.handoff.Idle? && Accept(s.streamId, step.datagram).Some? {
        FeedFrom(frames, s, Accept(s.streamId, step.datagram).value, step.datagram, step.now);
      }
    } else if step.EndFeed? && s.handoff.Ready? {
      EndFrom(frames, s);
    }
  }

  lemma {:induction false} RunStream(listening: bool, streamId: u16, steps: seq<Step>)
    ensures Run(Init(listening, streamId), steps).streamId == streamId
  {
    if steps != [] {
      var front, step := steps[..|steps| - 1], steps[|steps| - 1];
      RunStream(listening, streamId, front);
      RunSafe(listening, streamId, front);
      NextStream(Run(Init(listening, streamId), front), step);
    }
  }

  lemma {:induction false} NextStream(s: State, step: Step)
    requires Safe(s)
    ensures Next(s, step).streamId == s.streamId
  {
    if step.BeginFeed? && s.handoff.Idle? {
      FeedBeginCases(s, step.datagram, step.now);
    }
  }

  lemma {:induction false} RunFrom(frames: Table, listening: bool, streamId: u16, steps: seq<Step>)
    requires TableOk(frames) && AllFromHost(frames, streamId, steps)
    ensures AllHosts(frames, Run(Init(listening, streamId), steps))
  {
    if steps != [] {
      var front := steps[..|steps| - 1];
      RunFrom(frames, listening, streamId, front);
      RunSafe(listening, streamId, front);
      RunStream(listening, streamId, front);
      NextFrom(frames, Run(Init(listening, streamId), front), steps[|steps| - 1]);
    }
  }

  /** Integrity over every interleaving, whatever the network loses, repeats or reorders: every unit the decoder takes
      or finds queued is, byte for byte, the unit of one of the host's frames. */
  lemma {:induction false} UnitsAreTheHosts(
      frames: Table, listening: bool, streamId: u16, steps: seq<Step>, u: AccessUnit)
    requires TableOk(frames) && AllFromHost(frames, streamId, steps)
    ensures u in Reached(Run(Init(listening, streamId), steps)) ==>
              u.frameSeq in frames && u == Unit(frames[u.frameSeq])
  {
    RunFrom(frames, listening, streamId, steps);
    HandoffSafety(listening, streamId, steps);
    var s := Run(Init(listening, streamId), steps);
    if u in Reached(s) {
      assert u in multiset(s.popped) + multiset(s.queue);
      assert u in multiset(s.assembled);
    }
  }

  // ---------------------------------------------------------------- and nothing delivered is lost

  /** Store and bookkeeping agree on every frame that may still get a piece. */
  predicate AgreesSince(s: State, newest: int) {
    AgreesFrom(s.pending, s.reasm, newest - 4)
  }

  lemma {:induction false} Later(pending: map<u32, Pending>, r: R.State, low: int, low': int)
    requires AgreesFrom(pending, r, low) && low <= low'
    ensures AgreesFrom(pending, r, low')
  {
  }

  lemma {:induction false} NextAgreesSince(s: State, step: Step, newest: int)
    requires Safe(s) && HeldIsNewest(s) && AgreesSince(s, newest)
    ensures var a := if step.BeginFeed? then Accept(s.streamId, step.datagram) else None;
            AgreesSince(Next(s, step), if a.Some? then R.Max(newest, a.value.frameSeq) else newest)
  {
    var low := newest - 4;
    if step.BeginFeed? {
      var a := Accept(s.streamId, step.datagram);
      if a.Some? {
        var low' := R.Max(newest, a.value.frameSeq) - 4;
        if s.handoff.Idle? {
          FeedAgreesFrom(s, low, a.value, step.datagram, step.now);
        } else {
          Later(s.pending, s.reasm, low, low');
        }
      }
    } else if step.EndFeed? && s.handoff.Ready? {
      FeedEndAgrees(s, low);
    }
  }

  lemma {:induction false} RunAgreesSince(listening: bool, streamId: u16, steps: seq<Step>)
    ensures AgreesSince(Run(Init(listening, streamId), steps), NewestFed(streamId, steps))
  {
    if steps != [] {
      var front := steps[..|steps| - 1];
      RunAgreesSince(listening, streamId, front);
      RunHeld(listening, streamId, front);
      RunStream(listening, streamId, front);
      NextAgreesSince(Run(Init(listening, streamId), front), steps[|steps| - 1], NewestFed(streamId, front));
    }
  }

  /** A piece that is not too late loses nothing. */
  lemma {:induction false} PieceLosesNone(frames: Table, s: State, h: D.Header, datagram: seq<u8>, now: int, low: int)
    requires TableOk(frames) && InSync(s) && s.handoff.Idle? && AllHosts(frames, s)
    requires Accept(s.streamId, datagram) == Some(h) && PieceOf(frames, s.streamId, h, datagram[D.HEADER_LEN..])
    requires AgreesFrom(s.pending, s.reasm, low) && h.frameSeq >= low
    ensures !Loses(s, BeginFeed(datagram, now))
  {
    LosesIff(s, datagram, now);
    if Delivers(s, datagram, now) {
      var payload := datagram[D.HEADER_LEN..];
      DeliversCompletes(s, datagram, now);
      PushFrom(frames, s.streamId, s.reasm, h, payload, now);
      AssembledIffCount(s.pending, s.reasm, low, h, payload);
      StashFrom(frames, s.streamId, s.pending, h, payload);
      BodyFrom(frames, Stashed(s, datagram), h.frameSeq);
    }
  }

  lemma {:induction false} HostLosesNone(frames: Table, listening: bool, streamId: u16, steps: seq<Step>)
    requires TableOk(frames) && AllFromHost(frames, streamId, steps) && InOrder(streamId, steps)
    ensures !EverLoses(Init(listening, streamId), steps)
  {
    if steps != [] {
      var front, step := steps[..|steps| - 1], steps[|steps| - 1];
      HostLosesNone(frames, listening, streamId, front);
      RunFrom(frames, listening, streamId, front);
      RunAgreesSince(listening, streamId, front);
      RunSafe(listening, streamId, front);
      RunStream(listening, streamId, front);
      var s := Run(Init(listening, streamId), front);
      if step.BeginFeed? && s.handoff.Idle? {
        assert step == BeginFeed(step.datagram, step.now);
        var a := Accept(streamId, step.datagram);
        if a.Some? {
          PieceLosesNone(frames, s, a.value, step.datagram, step.now, NewestFed(streamId, front) - 4);
        } else {
          LosesIff(s, step.datagram, step.now);
        }
      }
    }
  }

  /** The decoder's view under conditions on the datagrams alone: if every accepted datagram is a piece of one of the
      host's frames, each longer than a timestamp, and no piece arrives after a piece of a frame more than four newer,
      then over every interleaving, whatever is lost or repeated, the decoder sees host frames only, each unit exact,
      ascending, each a keyframe or the direct successor of the one before it. */
  lemma {:induction false} HostChain(frames: Table, listening: bool, streamId: u16, steps: seq<Step>)
    requires TableOk(frames) && AllFromHost(frames, streamId, steps) && InOrder(streamId, steps)
    ensures var us := Reached(Run(Init(listening, streamId), steps));
            && Ascending(us)
            && (forall u :: u in us ==> u.frameSeq in frames && u == Unit(frames[u.frameSeq]))
            && forall i :: 0 <= i < |us| ==> us[i].keyframe || (i > 0 && us[i - 1].frameSeq == us[i].frameSeq - 1)
  {
    HostLosesNone(frames, listening, streamId, steps);
    DecoderChain(listening, streamId, steps);
    ChainedIff(listening, streamId, steps);
    NothingMissing(Init(listening, streamId), steps);
    var us := Reached(Run(Init(listening, streamId), steps));
    forall i | 0 <= i < |us| ensures us[i].keyframe || (i > 0 && us[i - 1].frameSeq == us[i].frameSeq - 1) {
      ChainedAt(us, i);
    }
    forall u | u in us ensures u.frameSeq in frames && u == Unit(frames[u.frameSeq]) {
      UnitsAreTheHosts(frames, listening, streamId, steps, u);
    }
  }
}
