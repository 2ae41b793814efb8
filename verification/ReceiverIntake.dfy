/** What the receiver takes in, by the bytes of each datagram, what it counts, and what it makes of a frame's body. */
module ReceiverIntake {
  import opened Base
  import D = Datagram
  import DR = DatagramRules
  import R = Reassembly
  import RS = ReassemblySafety
  import opened VideoReceiver
  import opened ReceiverSafety
  import opened ReceiverStore
  import opened ReceiverRecovery
  import opened ReceiverRoundTrip
  import RH = ReceiverHost

  // ---------------------------------------------------------------- this stream's datagrams, by their bytes

  /** A valid datagram whose stream number is this one. */
  predicate Own(streamId: u16, b: seq<u8>) {
    && 12 <= |b| <= 1350 && b[0] == 0x4c
    && DR.StreamOf(b) == streamId
    && DR.IndexOf(b) < DR.CountOf(b)
    && b[1] / 2 % 2 == (if DR.IndexOf(b) + 1 == DR.CountOf(b) then 1 else 0)
  }

  /** The header such bytes carry. */
  function OwnHeader(b: seq<u8>): D.Header
    requires |b| >= 12
  {
    D.Header(b[1] % 2 == 1, b[1] / 2 % 2 == 1, DR.StreamOf(b), DR.SeqOf(b), DR.IndexOf(b), DR.CountOf(b))
  }

  lemma {:induction false} OwnPasses(streamId: u16, b: seq<u8>)
    ensures Own(streamId, b) <==>
              && (forall k :: 0 <= k < 7 ==> DR.Passes(b, [streamId], k)) && |b| >= 12 && DR.StreamOf(b) == streamId
  {
    if Own(streamId, b) {
      assert [streamId][0] == DR.StreamOf(b);
    } else if forall k :: 0 <= k < 7 ==> DR.Passes(b, [streamId], k) {
      assert DR.Passes(b, [streamId], 0) && DR.Passes(b, [streamId], 1) && DR.Passes(b, [streamId], 2);
      assert DR.Passes(b, [streamId], 4) && DR.Passes(b, [streamId], 5);
    }
  }

  lemma {:induction false} AcceptIsOwn(streamId: u16, b: seq<u8>)
    ensures Accept(streamId, b) == if Own(streamId, b) then Some(OwnHeader(b)) else None
  {
    OwnPasses(streamId, b);
    DR.AcceptedIff(b, [streamId]);
    if forall k :: 0 <= k < 7 ==> DR.Passes(b, [streamId], k) {
      DR.DecodeByRules(b, [streamId], 7);
    }
  }

  // ---------------------------------------------------------------- what a feed counts

  lemma {:induction false} ReactCounters(s: State, now: int)
    ensures React(s, now).counters == s.counters
  {
  }

  /** In every state, with no frame in hand: a datagram of another stream, or a malformed one, changes nothing at all;
      one of this stream is counted, with all its bytes. */
  lemma {:induction false} FeedCounts(s: State, b: seq<u8>, now: int)
    ensures !Own(s.streamId, b) ==> FeedBegin(s, b, now) == s
    ensures Own(s.streamId, b) ==>
              && FeedBegin(s, b, now).counters.datagrams == s.counters.datagrams + 1
              && FeedBegin(s, b, now).counters.bytes == s.counters.bytes + |b|
  {
    AcceptIsOwn(s.streamId, b);
    if Own(s.streamId, b) {
      ReactCounters(Ingest(s, OwnHeader(b), b, now), now);
    }
  }

  /** In particular an audio datagram, or one for another display, never touches this receiver. */
  lemma {:induction false} ForeignIgnored(s: State, b: seq<u8>, now: int)
    requires |b| >= 12 && b[2] as int * 256 + b[3] != s.streamId
    ensures FeedBegin(s, b, now) == s
  {
    FeedCounts(s, b, now);
  }

  /** Of the encoder's datagrams exactly those for this stream are counted. */
  lemma {:induction false} EncodedCountsIff(s: State, h: D.Header, payload: seq<u8>, now: int)
    requires D.WellFormed(h) && |payload| <= 1338
    ensures FeedBegin(s, D.Encode(h, payload), now).counters.datagrams ==
            s.counters.datagrams + if h.streamId == s.streamId then 1 else 0
  {
    DR.Wire(h, payload);
    FeedCounts(s, D.Encode(h, payload), now);
  }

  // ---------------------------------------------------------------- whole runs

  /** The datagrams that the producer takes up, in order. */
  function Fed(s: State, steps: seq<Step>): seq<seq<u8>> {
    if steps == [] then []
    else
      var front, step := steps[..|steps| - 1], steps[|steps| - 1];
      Fed(s, front) + if step.BeginFeed? && Run(s, front).handoff.Idle? then [step.datagram] else []
  }

  function OwnCount(streamId: u16, ds: seq<seq<u8>>): nat {
    if ds == [] then 0
    else OwnCount(streamId, ds[..|ds| - 1]) + if Own(streamId, ds[|ds| - 1]) then 1 else 0
  }

  function OwnBytes(streamId: u16, ds: seq<seq<u8>>): nat {
    if ds == [] then 0
    else OwnBytes(streamId, ds[..|ds| - 1]) + if Own(streamId, ds[|ds| - 1]) then |ds[|ds| - 1]| else 0
  }

  predicate Tallies(s: State, ds: seq<seq<u8>>) {
    s.counters.datagrams == OwnCount(s.streamId, ds) && s.counters.bytes == OwnBytes(s.streamId, ds)
  }

  lemma {:induction false} EndTallies(s: State, ds: seq<seq<u8>>)
    requires Tallies(s, ds)
    ensures Tallies(FeedEnd(s), ds)
  {
  }

  lemma {:induction false} FeedTallies(s: State, ds: seq<seq<u8>>, b: seq<u8>, now: int)
    requires Safe(s) && s.handoff.Idle? && Tallies(s, ds)
    ensures Tallies(FeedBegin(s, b, now), ds + [b])
  {
    FeedCounts(s, b, now);
    FeedBeginCases(s, b, now);
    assert (ds + [b])[..|ds|] == ds;
  }

  /** Over every interleaving the counters are the number of this stream's datagrams and the sum of their lengths. */
  lemma {:induction false} DatagramsCounted(listening: bool, streamId: u16, steps: seq<Step>)
    ensures var s, ds := Run(Init(listening, streamId), steps), Fed(Init(listening, streamId), steps);
            s.counters.datagrams == OwnCount(streamId, ds) && s.counters.bytes == OwnBytes(streamId, ds)
  {
    RH.RunStream(listening, streamId, steps);
    RunTallies(listening, streamId, steps);
  }

  lemma {:induction false} RunTallies(listening: bool, streamId: u16, steps: seq<Step>)
    ensures Tallies(Run(Init(listening, streamId), steps), Fed(Init(listening, streamId), steps))
  {
    if steps != [] {
      var s0, front, step := Init(listening, streamId), steps[..|steps| - 1], steps[|steps| - 1];
      var s, ds := Run(s0, front), Fed(s0, front);
      RunTallies(listening, streamId, front);
      RunSafe(listening, streamId, front);
      assert ds + [] == ds;
      NextTallies(s, ds, step);
    }
  }

  lemma {:induction false} NextTallies(s: State, ds: seq<seq<u8>>, step: Step)
    requires Safe(s) && Tallies(s, ds)
    ensures Tallies(Next(s, step), if step.BeginFeed? && s.handoff.Idle? then ds + [step.datagram] else ds)
  {
    if step.BeginFeed? {
      if s.handoff.Idle? { FeedTallies(s, ds, step.datagram, step.now); }
    } else if step.EndFeed? {
      EndTallies(s, ds);
    }
  }

  /** The steps without the datagrams that are not this stream's. */
  function OwnSteps(streamId: u16, steps: seq<Step>): seq<Step> {
    if steps == [] then []
    else
      var step := steps[|steps| - 1];
      OwnSteps(streamId, steps[..|steps| - 1])
      + if step.BeginFeed? && !Own(streamId, step.datagram) then [] else [step]
  }

  /** Over every interleaving, leaving out the datagrams of other streams and the malformed ones leads to the very same
      state. */
  lemma {:induction false} ForeignLeftOut(listening: bool, streamId: u16, steps: seq<Step>)
    ensures Run(Init(listening, streamId), OwnSteps(streamId, steps)) == Run(Init(listening, streamId), steps)
  {
    if steps != [] {
      var s0, front, step := Init(listening, streamId), steps[..|steps| - 1], steps[|steps| - 1];
      var own := OwnSteps(streamId, front);
      ForeignLeftOut(listening, streamId, front);
      RH.RunStream(listening, streamId, front);
      if step.BeginFeed? && !Own(streamId, step.datagram) {
        FeedCounts(Run(s0, front), step.datagram, step.now);
        assert own + [] == own;
      } else {
        assert (own + [step])[..|own|] == own;
      }
    }
  }

  // ---------------------------------------------------------------- what is reported as dropped

  /** Frames dropped in any of the ways there are, and stale fragments. */
  function Losses(s: State): nat {
    s.reasm.counters.droppedIncomplete + s.reasm.counters.discardedGap + s.reasm.counters.staleFragments + |s.stale|
  }

  predicate Totals(s: State) {
    s.handoff.Idle? ==> s.counters.framesDropped == Losses(s)
  }

  lemma {:induction false} FeedTotals(s: State, b: seq<u8>, now: int)
    requires Safe(s) && s.handoff.Idle? && Totals(s)
    ensures Totals(FeedBegin(s, b, now))
  {
    BeginSafe(s, b, now);
    var a := Accept(s.streamId, b);
    if a.Some? {
      var s2 := React(Ingest(s, a.value, b, now), now);
      if s2.handoff.Idle? {
        assert FeedBegin(s, b, now) == Tidy(s2, a.value.frameSeq);
      }
    }
  }

  lemma {:induction false} EndTotals(s: State)
    requires Safe(s) && s.handoff.Ready?
    ensures Totals(FeedEnd(s))
  {
    EndSafe(s);
  }

  /** Over every interleaving, whenever no hand-off is under way the reported total is the frames dropped incomplete,
      the gap discards, the stale fragments and the units that went stale at the decoder. */
  lemma {:induction false} DropsTotalled(listening: bool, streamId: u16, steps: seq<Step>)
    ensures Totals(Run(Init(listening, streamId), steps))
  {
    if steps != [] {
      var front, step := steps[..|steps| - 1], steps[|steps| - 1];
      DropsTotalled(listening, streamId, front);
      RunSafe(listening, streamId, front);
      NextTotals(Run(Init(listening, streamId), front), step);
    }
  }

  lemma {:induction false} NextTotals(s: State, step: Step)
    requires Safe(s) && Totals(s)
    ensures Totals(Next(s, step))
  {
    if step.BeginFeed? {
      if s.handoff.Idle? { FeedTotals(s, step.datagram, step.now); }
    } else if step.EndFeed? {
      if s.handoff.Ready? { EndTotals(s); }
    }
  }

  // ---------------------------------------------------------------- no callback

  lemma {:induction false} QuietFeed(s: State, b: seq<u8>, now: int)
    requires InSync(s) && s.handoff.Idle? && !s.listening && s.requests == []
    ensures FeedBegin(s, b, now).requests == []
  {
    FeedBeginRequests(s, b, now);
  }

  /** A receiver that was given no callback makes none. */
  lemma {:induction false} SilentWithoutCallback(streamId: u16, steps: seq<Step>)
    ensures Run(Init(false, streamId), steps).requests == []
  {
    if steps != [] {
      var front, step := steps[..|steps| - 1], steps[|steps| - 1];
      SilentWithoutCallback(streamId, front);
      RunSafe(false, streamId, front);
      RunListening(false, streamId, front);
      var s := Run(Init(false, streamId), front);
      if step.BeginFeed? && s.handoff.Idle? {
        QuietFeed(s, step.datagram, step.now);
      } else if step.EndFeed? && s.handoff.Ready? {
        FeedEndRequests(s);
      }
    }
  }

  // ---------------------------------------------------------------- what a body becomes

  /** A body of eight bytes of big-endian time and then data is read as that time and that data. */
  lemma {:induction false} UnitRead(captureTs: u64, data: seq<u8>, key: bool, q: u32)
    requires data != []
    ensures |BE(8, captureTs) + data| > 8
    ensures UnitOf(BE(8, captureTs) + data, key, q) == AccessUnit(captureTs, data, key, q)
  {
    var body := BE(8, captureTs) + data;
    PowValues();
    FromBEofBE(8, captureTs);
    assert body[..8] == BE(8, captureTs) && body[8..] == data;
  }

  /** What the host wants shown: a time and an encoded picture. */
  datatype Picture = Picture(captureTs: u64, data: seq<u8>)

  /** The pieces of the frame are the picture's time and data, cut somehow. */
  predicate Carries(f: Frame, p: Picture) {
    p.data != [] && Concat(f.pieces) == BE(8, p.captureTs) + p.data
  }

  lemma {:induction false} UnitsAt(frames: seq<Frame>, i: nat)
    requires i < |frames| && forall f :: f in frames ==> FrameOk(f)
    ensures |Units(frames)| == |frames| && Units(frames)[i] == Unit(frames[i])
  {
    if i < |frames| - 1 {
      UnitsAt(frames[..|frames| - 1], i);
    } else if i > 0 {
      UnitsAt(frames[..|frames| - 1], 0);
    }
  }

  /** The round trip, in the host's terms: over every orderly run, the i-th unit the decoder gets has the capture time,
      the data, the kind and the number of the i-th frame. */
  lemma {:induction false} PicturesArrive(
      frames: seq<Frame>, pictures: seq<Picture>, listening: bool, streamId: u16, acts: seq<Act>, i: nat)
    requires Stream(frames) && Orderly(frames, streamId, Init(listening, streamId), Progress(0, {}), acts)
    requires |pictures| == |frames| && forall k :: 0 <= k < |frames| ==> Carries(frames[k], pictures[k])
    ensures var (s, p) := After(frames, streamId, Init(listening, streamId), Progress(0, {}), acts);
            var us := s.popped + s.queue + Held(s);
            && |us| == p.done <= |frames|
            && (i < p.done ==>
                  us[i] == AccessUnit(pictures[i].captureTs, pictures[i].data, frames[i].keyframe, frames[i].frameSeq))
  {
    RoundTrip(frames, listening, streamId, acts);
    var (s, p) := After(frames, streamId, Init(listening, streamId), Progress(0, {}), acts);
    if p.done > 0 {
      UnitsAt(frames[..p.done], if i < p.done then i else 0);
    }
    if i < p.done {
      assert frames[..p.done][i] == frames[i] && frames[i] in frames;
      UnitRead(pictures[i].captureTs, pictures[i].data, frames[i].keyframe, frames[i].frameSeq);
    }
  }

  // ---------------------------------------------------------------- repeated fragments

  /** Of the fragments of a frame with the same index the newest payload counts; stashing touches no other payload, and
      the count is the newest one. */
  lemma {:induction false} NewestCounts(pending: map<u32, Pending>, h: D.Header, payload: seq<u8>)
    ensures var p' := Stash(pending, h, payload);
            && p'.Keys == pending.Keys + {h.frameSeq}
            && p'[h.frameSeq].count == h.fragCount
            && h.fragIndex in p'[h.frameSeq].parts && p'[h.frameSeq].parts[h.fragIndex] == payload
            && (forall q :: q in pending && q != h.frameSeq ==> p'[q] == pending[q])
            && (forall i :: i in p'[h.frameSeq].parts && i != h.fragIndex ==>
                  && h.frameSeq in pending && i in pending[h.frameSeq].parts
                  && p'[h.frameSeq].parts[i] == pending[h.frameSeq].parts[i])
            && (h.frameSeq in pending ==> pending[h.frameSeq].parts.Keys <= p'[h.frameSeq].parts.Keys)
  {
  }
}
