/** End to end: an orderly stream of frames, cut into datagrams, comes out as the same access units. */
module ReceiverRoundTrip {
  import opened Base
  import D = Datagram
  import R = Reassembly
  import opened VideoReceiver
  import opened ReceiverSafety
  import opened ReceiverStore
  import RS = ReassemblySafety
  import opened ReceiverChain

  const MAX_PAYLOAD: nat := 1338

  /** One frame as a sender cuts it. */
  datatype Frame = Frame(frameSeq: u32, keyframe: bool, pieces: seq<seq<u8>>)

  function Concat(pieces: seq<seq<u8>>): seq<u8> {
    if pieces == [] then [] else Concat(pieces[..|pieces| - 1]) + pieces[|pieces| - 1]
  }

  predicate FrameOk(f: Frame) {
    && 1 <= |f.pieces| < 0x1_0000
    && (forall p :: p in f.pieces ==> |p| <= MAX_PAYLOAD)
    && |Concat(f.pieces)| > 8
  }

  /** Frames numbered consecutively from a keyframe on. */
  predicate Stream(frames: seq<Frame>) {
    && (forall f :: f in frames ==> FrameOk(f))
    && (frames != [] ==> frames[0].keyframe)
    && (forall i :: 0 < i < |frames| ==> frames[i].frameSeq == frames[i - 1].frameSeq + 1)
  }

  /** The datagram carrying piece i of a frame. */
  function Cut(streamId: u16, f: Frame, i: nat): seq<u8>
    requires FrameOk(f) && i < |f.pieces|
  {
    D.Encode(HeaderFor(streamId, f, i), f.pieces[i])
  }

  function HeaderFor(streamId: u16, f: Frame, i: nat): D.Header
    requires FrameOk(f) && i < |f.pieces|
  {
    D.MakeHeader(f.keyframe, streamId, f.frameSeq, i, |f.pieces|)
  }

  /** The access unit a frame stands for: its first eight bytes are the capture time, the rest is data. */
  function Unit(f: Frame): AccessUnit
    requires FrameOk(f)
  {
    UnitOf(Concat(f.pieces), f.keyframe, f.frameSeq)
  }

  function Units(frames: seq<Frame>): seq<AccessUnit>
    requires forall f :: f in frames ==> FrameOk(f)
  {
    if frames == [] then [] else Units(frames[..|frames| - 1]) + [Unit(frames[|frames| - 1])]
  }

  // ---------------------------------------------------------------- orderly runs

  /** What may happen: a piece is fed, the producer finishes its hand-off, or the decode thread takes a unit. */
  datatype Act = Send(frame: nat, piece: nat, now: int) | Finish | Take

  /** `done` frames have arrived completely, and of the next one the pieces in `got`. */
  datatype Progress = Progress(done: nat, got: set<u16>)

  function StepOf(frames: seq<Frame>, streamId: u16, act: Act): Step
    requires Stream(frames)
    requires act.Send? ==> act.frame < |frames| && act.piece < |frames[act.frame].pieces|
  {
    match act
    case Send(k, i, now) => assert frames[k] in frames; BeginFeed(Cut(streamId, frames[k], i), now)
    case Finish => EndFeed
    case Take => PopAu
  }

  /** A piece may come from the frame in progress or repeat any piece of an earlier frame; the hand-off of the
      previous piece is over, and fewer than two units wait. */
  predicate Allowed(frames: seq<Frame>, s: State, p: Progress, act: Act) {
    act.Send? ==>
      && act.frame < |frames| && act.piece < |frames[act.frame].pieces| && act.frame <= p.done
      && s.handoff.Idle? && |s.queue| < 2
  }

  function Advance(frames: seq<Frame>, p: Progress, act: Act): Progress
    requires Stream(frames)
    requires act.Send? ==> act.frame < |frames| && act.piece < |frames[act.frame].pieces|
  {
    if !act.Send? || act.frame != p.done then p
    else
      assert frames[act.frame] in frames;
      var i: u16 := act.piece;
      var got := p.got + {i};
      if |got| == |frames[act.frame].pieces| then Progress(p.done + 1, {}) else Progress(p.done, got)
  }

  predicate Orderly(frames: seq<Frame>, streamId: u16, s: State, p: Progress, acts: seq<Act>)
    requires Stream(frames)
    decreases |acts|
  {
    acts == []
    || (Allowed(frames, s, p, acts[0])
        && var s', p' := Next(s, StepOf(frames, streamId, acts[0])), Advance(frames, p, acts[0]);
           Orderly(frames, streamId, s', p', acts[1..]))
  }

  function After(frames: seq<Frame>, streamId: u16, s: State, p: Progress, acts: seq<Act>): (State, Progress)
    requires Stream(frames) && Orderly(frames, streamId, s, p, acts)
    decreases |acts|
  {
    if acts == [] then (s, p)
    else After(frames, streamId, Next(s, StepOf(frames, streamId, acts[0])), Advance(frames, p, acts[0]), acts[1..])
  }

  // ---------------------------------------------------------------- what the reassembler does

  /** The window holds the frame in progress and nothing else. */
  function Window(f: Frame, got: set<u16>): map<u32, R.Incomplete>
    requires FrameOk(f)
  {
    if got == {} then map[] else map[f.frameSeq := R.Incomplete(|f.pieces|, got, f.keyframe)]
  }

  lemma {:induction false} PushInOrder(r: R.State, now: int, f: Frame, got: set<u16>, i: u16)
    requires FrameOk(f) && i < |f.pieces| && |got| < |f.pieces|
    requires r.incomplete == Window(f, got) && r.newestComplete < f.frameSeq
    requires f.keyframe || r.lastDecoded == Some(f.frameSeq - 1)
    ensures var r' := R.AfterPush(r, now, R.Fragment(f.frameSeq, i, |f.pieces|, f.keyframe));
            r' == if |got + {i}| < |f.pieces| then r.(incomplete := Window(f, got + {i}))
                  else r.(newestComplete := f.frameSeq, incomplete := map[], lastDecoded := Some(f.frameSeq),
                          events := r.events + [R.Deliver(now, f.frameSeq, f.keyframe)])
  {
    var frag := R.Fragment(f.frameSeq, i, |f.pieces|, f.keyframe);
    var e := R.Incomplete(|f.pieces|, got, f.keyframe);
    GotOneMore(got, i);
    if got == {} {
      assert R.AfterPush(r, now, frag) == R.Insert(R.Open(r, frag), now, frag);
      assert R.Open(r, frag).incomplete == map[f.frameSeq := e];
    }
    InsertInOrder(r.(incomplete := map[f.frameSeq := e]), now, f, got, i);
  }

  lemma {:induction false} InsertInOrder(r: R.State, now: int, f: Frame, got: set<u16>, i: u16)
    requires FrameOk(f) && i < |f.pieces| && |got + {i}| <= |f.pieces|
    requires r.incomplete == map[f.frameSeq := R.Incomplete(|f.pieces|, got, f.keyframe)]
    requires r.newestComplete < f.frameSeq
    requires f.keyframe || r.lastDecoded == Some(f.frameSeq - 1)
    ensures var r' := R.Insert(r, now, R.Fragment(f.frameSeq, i, |f.pieces|, f.keyframe));
            r' == if |got + {i}| < |f.pieces| then r.(incomplete := Window(f, got + {i}))
                  else r.(newestComplete := f.frameSeq, incomplete := map[], lastDecoded := Some(f.frameSeq),
                          events := r.events + [R.Deliver(now, f.frameSeq, f.keyframe)])
  {
    var q, have := f.frameSeq, got + {i};
    var r1 := r.(incomplete := r.incomplete[q := R.Incomplete(|f.pieces|, have, f.keyframe)]);
    assert r1.incomplete == map[q := R.Incomplete(|f.pieces|, have, f.keyframe)];
    assert i in have;
    if |have| == |f.pieces| {
      assert R.Overtaken(r1, q) == {};
      assert R.Retire(r1, q) == r.(newestComplete := q, incomplete := map[]);
    }
  }

  // ---------------------------------------------------------------- what the receiver does

  lemma {:induction false} AcceptCut(streamId: u16, f: Frame, i: nat)
    requires FrameOk(f) && i < |f.pieces|
    ensures Accept(streamId, Cut(streamId, f, i)) == Some(HeaderFor(streamId, f, i))
    ensures |Cut(streamId, f, i)| >= D.HEADER_LEN && Cut(streamId, f, i)[D.HEADER_LEN..] == f.pieces[i]
  {
    assert f.pieces[i] in f.pieces;
    D.DecodeEncode(HeaderFor(streamId, f, i), f.pieces[i], [streamId]);
  }

  lemma {:induction false} JoinIsConcat(parts: map<u16, seq<u8>>, pieces: seq<seq<u8>>, n: nat)
    requires n <= |pieces| <= 0xffff
    requires forall i :: 0 <= i < n ==> i in parts && parts[i] == pieces[i]
    ensures Join(parts, n) == Concat(pieces[..n])
  {
    if n > 0 {
      JoinIsConcat(parts, pieces, n - 1);
      assert pieces[..n][..n - 1] == pieces[..n - 1];
    }
  }

  /** The store's record of the frame in progress. */
  predicate Stored(pending: map<u32, Pending>, f: Frame, got: set<u16>) {
    && (forall i :: i in got ==> i < |f.pieces|)
    && (got != {} ==>
          && f.frameSeq in pending && pending[f.frameSeq].count == |f.pieces| && pending[f.frameSeq].parts.Keys == got
          && forall i :: i in got ==> pending[f.frameSeq].parts[i] == f.pieces[i])
  }

  /** Nothing is stored beyond the newest complete frame, except the frame in progress. */
  predicate OldBelow(pending: map<u32, Pending>, newest: int, f: Frame, got: set<u16>) {
    forall k :: k in pending ==> k <= newest || (k == f.frameSeq && got != {})
  }

  lemma {:induction false} StashStored(
      pending: map<u32, Pending>, newest: int, streamId: u16, f: Frame, got: set<u16>, i: u16)
    requires FrameOk(f) && i < |f.pieces| && newest < f.frameSeq
    requires Stored(pending, f, got) && OldBelow(pending, newest, f, got)
    ensures var p' := Stash(pending, HeaderFor(streamId, f, i), f.pieces[i]);
            Stored(p', f, got + {i}) && OldBelow(p', newest, f, got + {i})
  {
    var p' := Stash(pending, HeaderFor(streamId, f, i), f.pieces[i]);
    if got == {} {
      assert f.frameSeq !in pending;
    }
    assert p'[f.frameSeq].parts.Keys == got + {i};
    assert i in got + {i};
  }

  lemma {:induction false} StoredComplete(pending: map<u32, Pending>, f: Frame, got: set<u16>)
    requires FrameOk(f) && Stored(pending, f, got) && |got| == |f.pieces|
    ensures Assemblable(pending, f.frameSeq)
    ensures Join(pending[f.frameSeq].parts, pending[f.frameSeq].count) == Concat(f.pieces)
  {
    assert got != {};
    var p := pending[f.frameSeq];
    assert |p.parts| == |p.parts.Keys|;
    PigeonHole(got, |f.pieces|);
    JoinIsConcat(p.parts, f.pieces, |f.pieces|);
    assert f.pieces[..|f.pieces|] == f.pieces;
  }

  /** A repeated piece of a frame already complete changes no state the decoder or the window can see. */
  lemma {:induction false} FeedOld(s: State, streamId: u16, f: Frame, i: nat, now: int)
    requires FrameOk(f) && i < |f.pieces| && s.streamId == streamId && s.handoff.Idle?
    requires f.frameSeq <= s.reasm.newestComplete && s.seenEvents == |s.reasm.events|
    ensures var s' := FeedBegin(s, Cut(streamId, f, i), now);
            && s' == s.(counters := s'.counters, reasm := R.Stale(s.reasm), pending := s'.pending)
            && s'.pending == Pruned(Stash(s.pending, HeaderFor(streamId, f, i), f.pieces[i]), f.frameSeq)
  {
    AcceptCut(streamId, f, i);
    assert R.AfterPush(s.reasm, now, Fragment(HeaderFor(streamId, f, i))) == R.Stale(s.reasm);
  }

  /** A piece that leaves its frame incomplete is only recorded. */
  lemma {:induction false} FeedPartial(s: State, streamId: u16, f: Frame, got: set<u16>, i: u16, now: int)
    requires FrameOk(f) && i < |f.pieces| && s.streamId == streamId && s.handoff.Idle?
    requires s.seenEvents == |s.reasm.events|
    requires s.reasm.incomplete == Window(f, got) && s.reasm.newestComplete < f.frameSeq
    requires f.keyframe || s.reasm.lastDecoded == Some(f.frameSeq - 1)
    requires |got| < |f.pieces| && |got + {i}| < |f.pieces|
    ensures var s' := FeedBegin(s, Cut(streamId, f, i), now);
            && s' == s.(counters := s'.counters, reasm := s.reasm.(incomplete := Window(f, got + {i})),
                        pending := s'.pending)
            && s'.pending == Pruned(Stash(s.pending, HeaderFor(streamId, f, i), f.pieces[i]), f.frameSeq)
  {
    AcceptCut(streamId, f, i);
    PushInOrder(s.reasm, now, f, got, i);
  }

  /** The piece that completes its frame hands exactly that frame's unit over. */
  lemma {:induction false} FeedLast(s: State, streamId: u16, f: Frame, got: set<u16>, i: u16, now: int)
    requires FrameOk(f) && i < |f.pieces| && s.streamId == streamId && s.handoff.Idle?
    requires s.seenEvents == |s.reasm.events|
    requires s.reasm.incomplete == Window(f, got) && s.reasm.newestComplete < f.frameSeq
    requires f.keyframe || s.reasm.lastDecoded == Some(f.frameSeq - 1)
    requires |got| < |f.pieces| && |got + {i}| == |f.pieces|
    requires Stored(Stash(s.pending, HeaderFor(streamId, f, i), f.pieces[i]), f, got + {i})
    requires |s.queue| < 2
    ensures var s' := FeedBegin(s, Cut(streamId, f, i), now);
            && s' == s.(counters := s'.counters, reasm := s'.reasm, pending := s'.pending,
                        seenEvents := s.seenEvents + 1,
                        assembled := s.assembled + [Unit(f)], handoff := Ready(Unit(f), now))
            && s'.pending == Stash(s.pending, HeaderFor(streamId, f, i), f.pieces[i]) - {f.frameSeq}
            && s'.reasm == s.reasm.(newestComplete := f.frameSeq, incomplete := map[], lastDecoded := Some(f.frameSeq),
                                    events := s.reasm.events + [R.Deliver(now, f.frameSeq, f.keyframe)])
  {
    AcceptCut(streamId, f, i);
    PushInOrder(s.reasm, now, f, got, i);
    StoredComplete(Stash(s.pending, HeaderFor(streamId, f, i), f.pieces[i]), f, got + {i});
    BeginDelivers(s, HeaderFor(streamId, f, i), Cut(streamId, f, i), now);
  }

  /** Recording a frame's last fragment hands its unit over, when the queue has room. */
  lemma {:induction false} BeginDelivers(s: State, h: D.Header, datagram: seq<u8>, now: int)
    requires Accept(s.streamId, datagram) == Some(h) && s.handoff.Idle? && |s.queue| < 2
    requires s.seenEvents == |s.reasm.events|
    requires R.AfterPush(s.reasm, now, Fragment(h)).events == s.reasm.events + [R.Deliver(now, h.frameSeq, h.keyframe)]
    requires var p' := Stash(s.pending, h, datagram[D.HEADER_LEN..]);
             Assemblable(p', h.frameSeq) && |Body(p', h.frameSeq)| > 8
    ensures var p' := Stash(s.pending, h, datagram[D.HEADER_LEN..]);
            var u := UnitOf(Body(p', h.frameSeq), h.keyframe, h.frameSeq);
            var s' := FeedBegin(s, datagram, now);
            s' == s.(counters := s'.counters, reasm := R.AfterPush(s.reasm, now, Fragment(h)),
                     pending := p' - {h.frameSeq},
                     seenEvents := s.seenEvents + 1, assembled := s.assembled + [u], handoff := Ready(u, now))
  {
    var s1 := Ingest(s, h, datagram, now);
    ReactDelivers(s1, h.frameSeq, h.keyframe, now);
  }

  lemma {:induction false} ReactDelivers(s: State, q: u32, key: bool, now: int)
    requires s.seenEvents < |s.reasm.events| && s.reasm.events[s.seenEvents] == R.Deliver(now, q, key)
    requires |s.queue| < 2
    requires Assemblable(s.pending, q) && |Body(s.pending, q)| > 8
    ensures var u := UnitOf(Body(s.pending, q), key, q);
            React(s, now) == s.(seenEvents := s.seenEvents + 1, pending := s.pending - {q},
                                assembled := s.assembled + [u], handoff := Ready(u, now))
  {
  }

  // ---------------------------------------------------------------- progress is faithful

  /** The newest frame that has arrived completely, or -1. */
  function NewestDone(frames: seq<Frame>, done: nat): int
    requires done <= |frames|
  {
    if done == 0 then -1 else frames[done - 1].frameSeq
  }

  predicate ProgressOk(frames: seq<Frame>, p: Progress) {
    && p.done <= |frames|
    && (p.got != {} ==> p.done < |frames|)
    && (p.done < |frames| ==> |p.got| < |frames[p.done].pieces|)
  }

  predicate ReasmAt(frames: seq<Frame>, r: R.State, p: Progress)
    requires Stream(frames) && ProgressOk(frames, p)
  {
    && r.newestComplete == NewestDone(frames, p.done)
    && r.lastDecoded == (if p.done == 0 then None else Some(frames[p.done - 1].frameSeq))
    && (p.done < |frames| ==> assert frames[p.done] in frames; r.incomplete == Window(frames[p.done], p.got))
    && r.counters.droppedIncomplete == 0 && r.counters.discardedGap == 0
  }

  predicate StoreAt(frames: seq<Frame>, pending: map<u32, Pending>, p: Progress)
    requires ProgressOk(frames, p)
  {
    p.done < |frames| ==>
      Stored(pending, frames[p.done], p.got) && OldBelow(pending, NewestDone(frames, p.done), frames[p.done], p.got)
  }

  predicate FlowAt(frames: seq<Frame>, s: State, p: Progress)
    requires Stream(frames) && ProgressOk(frames, p)
  {
    && s.seenEvents == |s.reasm.events|
    && !s.awaitingKeyframe && s.requests == [] && s.stale == []
    && (forall f :: f in frames[..p.done] ==> f in frames)
    && s.popped + s.queue + Held(s) == Units(frames[..p.done])
    && s.assembled == Units(frames[..p.done])
  }

  predicate Carries(frames: seq<Frame>, streamId: u16, s: State, p: Progress)
    requires Stream(frames)
  {
    && s.streamId == streamId && ProgressOk(frames, p)
    && ReasmAt(frames, s.reasm, p) && StoreAt(frames, s.pending, p) && FlowAt(frames, s, p)
    && (s.handoff.Ready? ==> p.done > 0 && s.handoff.unit.frameSeq == NewestDone(frames, p.done))
  }

  /** What is delivered is handed over. */
  predicate HandsOver(s: State, s': State) {
    s'.handoff.Ready? || s'.reasm.lastDecoded == s.reasm.lastDecoded
  }

  lemma {:induction false} SeqsConsecutive(frames: seq<Frame>, i: nat, j: nat)
    requires Stream(frames) && i <= j < |frames|
    ensures frames[j].frameSeq == frames[i].frameSeq + (j - i)
  {
    if i < j {
      SeqsConsecutive(frames, i, j - 1);
    }
  }

  /** Pruning behind frame q keeps the record of a frame in progress that is not older. */
  lemma {:induction false} PruneStored(pending: map<u32, Pending>, newest: int, f: Frame, got: set<u16>, q: u32)
    requires Stored(pending, f, got) && OldBelow(pending, newest, f, got) && q <= f.frameSeq
    ensures Stored(Pruned(pending, q), f, got) && OldBelow(Pruned(pending, q), newest, f, got)
  {
  }

  /** A feed that hands nothing over leaves the flow of units as it was. */
  lemma {:induction false} FlowKeeps(frames: seq<Frame>, s: State, p: Progress, s': State, p': Progress)
    requires Stream(frames) && ProgressOk(frames, p) && FlowAt(frames, s, p)
    requires ProgressOk(frames, p') && p'.done == p.done
    requires s'.seenEvents == |s'.reasm.events|
    requires s' == s.(counters := s'.counters, reasm := s'.reasm, pending := s'.pending)
    ensures FlowAt(frames, s', p')
  {
  }

  lemma {:induction false} SendOldCarries(
      frames: seq<Frame>, streamId: u16, s: State, p: Progress, k: nat, i: nat, now: int)
    requires Stream(frames) && Carries(frames, streamId, s, p) && s.handoff.Idle?
    requires k < p.done && i < |frames[k].pieces|
    ensures assert frames[k] in frames;
            var s' := FeedBegin(s, Cut(streamId, frames[k], i), now);
            Carries(frames, streamId, s', p) && HandsOver(s, s')
  {
    var f := frames[k];
    assert f in frames;
    SeqsConsecutive(frames, k, p.done - 1);
    FeedOld(s, streamId, f, i, now);
    FlowKeeps(frames, s, p, FeedBegin(s, Cut(streamId, f, i), now), p);
    if p.done < |frames| {
      var g := frames[p.done];
      assert g in frames;
      SeqsConsecutive(frames, k, p.done);
      var p' := Stash(s.pending, HeaderFor(streamId, f, i), f.pieces[i]);
      assert Stored(p', g, p.got) && OldBelow(p', NewestDone(frames, p.done), g, p.got);
      PruneStored(p', NewestDone(frames, p.done), g, p.got, f.frameSeq);
    }
  }

  lemma {:induction false} SendPartialCarries(
      frames: seq<Frame>, streamId: u16, s: State, p: Progress, i: u16, now: int)
    requires Stream(frames) && Carries(frames, streamId, s, p) && s.handoff.Idle?
    requires p.done < |frames| && i < |frames[p.done].pieces| && |p.got + {i}| < |frames[p.done].pieces|
    ensures assert frames[p.done] in frames;
            var s' := FeedBegin(s, Cut(streamId, frames[p.done], i), now);
            Carries(frames, streamId, s', Progress(p.done, p.got + {i})) && HandsOver(s, s')
  {
    var f := frames[p.done];
    assert f in frames;
    NextSeq(frames, p.done);
    FeedPartial(s, streamId, f, p.got, i, now);
    FlowKeeps(frames, s, p, FeedBegin(s, Cut(streamId, f, i), now), Progress(p.done, p.got + {i}));
    StashStored(s.pending, NewestDone(frames, p.done), streamId, f, p.got, i);
    PruneStored(Stash(s.pending, HeaderFor(streamId, f, i), f.pieces[i]), NewestDone(frames, p.done), f, p.got + {i},
                f.frameSeq);
  }

  /** The next frame is newer than all complete ones, and deliverable. */
  lemma {:induction false} NextSeq(frames: seq<Frame>, done: nat)
    requires Stream(frames) && done < |frames|
    ensures NewestDone(frames, done) < frames[done].frameSeq
    ensures frames[done].keyframe || (done > 0 && frames[done - 1].frameSeq == frames[done].frameSeq - 1)
  {
  }

  lemma {:induction false} UnitsSnoc(frames: seq<Frame>, done: nat)
    requires Stream(frames) && done < |frames|
    ensures forall f :: f in frames[..done + 1] ==> f in frames
    ensures assert frames[done] in frames; Units(frames[..done + 1]) == Units(frames[..done]) + [Unit(frames[done])]
  {
    assert frames[..done + 1][..done] == frames[..done];
  }

  lemma {:induction false} SendLastCarries(frames: seq<Frame>, streamId: u16, s: State, p: Progress, i: u16, now: int)
    requires Stream(frames) && Carries(frames, streamId, s, p) && s.handoff.Idle? && |s.queue| < 2
    requires p.done < |frames| && i < |frames[p.done].pieces| && |p.got + {i}| == |frames[p.done].pieces|
    ensures assert frames[p.done] in frames;
            var s' := FeedBegin(s, Cut(streamId, frames[p.done], i), now);
            Carries(frames, streamId, s', Progress(p.done + 1, {})) && HandsOver(s, s')
  {
    var f := frames[p.done];
    assert f in frames;
    NextSeq(frames, p.done);
    var p' := Stash(s.pending, HeaderFor(streamId, f, i), f.pieces[i]);
    StashStored(s.pending, NewestDone(frames, p.done), streamId, f, p.got, i);
    FeedLast(s, streamId, f, p.got, i, now);
    LastCarries(frames, streamId, s, p, p', p.got + {i}, FeedBegin(s, Cut(streamId, f, i), now), now);
  }

  /** The state in which frame p.done has just been handed over, its pieces having been stored in p'. */
  lemma {:induction false} LastCarries(
      frames: seq<Frame>, streamId: u16, s: State, p: Progress, p': map<u32, Pending>, got: set<u16>, s': State,
      now: int)
    requires Stream(frames) && Carries(frames, streamId, s, p) && s.handoff.Idle? && p.done < |frames|
    requires frames[p.done] in frames && OldBelow(p', NewestDone(frames, p.done), frames[p.done], got)
    requires var f := frames[p.done];
             && s' == s.(counters := s'.counters, reasm := s'.reasm, pending := p' - {f.frameSeq},
                         seenEvents := s.seenEvents + 1, assembled := s.assembled + [Unit(f)],
                         handoff := Ready(Unit(f), now))
             && s'.reasm == s.reasm.(newestComplete := f.frameSeq, incomplete := map[], lastDecoded := Some(f.frameSeq),
                                     events := s.reasm.events + [R.Deliver(now, f.frameSeq, f.keyframe)])
    ensures Carries(frames, streamId, s', Progress(p.done + 1, {})) && HandsOver(s, s')
  {
    LastReasm(frames, s.reasm, p, now);
    LastStore(frames, p', p, got);
    LastFlow(frames, s, p, s', now);
  }

  lemma {:induction false} LastStore(frames: seq<Frame>, pending: map<u32, Pending>, p: Progress, got: set<u16>)
    requires Stream(frames) && ProgressOk(frames, p) && p.done < |frames|
    requires ProgressOk(frames, Progress(p.done + 1, {}))
    requires OldBelow(pending, NewestDone(frames, p.done), frames[p.done], got)
    ensures StoreAt(frames, pending - {frames[p.done].frameSeq}, Progress(p.done + 1, {}))
  {
    NextSeq(frames, p.done);
    if p.done + 1 < |frames| {
      var f := frames[p.done];
      assert forall k :: k in pending - {f.frameSeq} ==> k <= f.frameSeq;
    }
  }

  lemma {:induction false} LastReasm(frames: seq<Frame>, r: R.State, p: Progress, now: int)
    requires Stream(frames) && ProgressOk(frames, p) && ReasmAt(frames, r, p) && p.done < |frames|
    requires forall f :: f in frames ==> FrameOk(f)
    ensures var f := frames[p.done];
            var r' := r.(newestComplete := f.frameSeq, incomplete := map[], lastDecoded := Some(f.frameSeq),
                         events := r.events + [R.Deliver(now, f.frameSeq, f.keyframe)]);
            ProgressOk(frames, Progress(p.done + 1, {})) && ReasmAt(frames, r', Progress(p.done + 1, {}))
  {
    if p.done + 1 < |frames| {
      assert frames[p.done + 1] in frames;
    }
  }

  lemma {:induction false} LastFlow(frames: seq<Frame>, s: State, p: Progress, s': State, now: int)
    requires Stream(frames) && ProgressOk(frames, p) && FlowAt(frames, s, p) && p.done < |frames| && s.handoff.Idle?
    requires ProgressOk(frames, Progress(p.done + 1, {}))
    requires assert frames[p.done] in frames;
             && s'.assembled == s.assembled + [Unit(frames[p.done])] && s'.handoff == Ready(Unit(frames[p.done]), now)
             && s'.popped == s.popped && s'.queue == s.queue
             && s'.seenEvents == |s'.reasm.events| && s'.awaitingKeyframe == s.awaitingKeyframe
             && s'.requests == s.requests && s'.stale == s.stale
    ensures FlowAt(frames, s', Progress(p.done + 1, {}))
  {
    UnitsSnoc(frames, p.done);
    assert s'.popped + s'.queue + Held(s') == s.popped + s.queue + Held(s) + [Unit(frames[p.done])];
  }

  lemma {:induction false} FinishCarries(frames: seq<Frame>, streamId: u16, s: State, p: Progress)
    requires Stream(frames) && Carries(frames, streamId, s, p) && s.handoff.Ready?
    ensures Carries(frames, streamId, FeedEnd(s), p)
  {
    FeedEndCases(s);
    var u, s' := s.handoff.unit, FeedEnd(s);
    assert s'.popped + s'.queue + Held(s') == s.popped + s.queue + Held(s);
    assert s'.pending == Pruned(s.pending, u.frameSeq) && s'.requests == s.requests && s'.streamId == s.streamId;
    if p.done < |frames| {
      NextSeq(frames, p.done);
      PruneStored(s.pending, NewestDone(frames, p.done), frames[p.done], p.got, u.frameSeq);
    }
  }

  lemma {:induction false} TakeCarries(frames: seq<Frame>, streamId: u16, s: State, p: Progress)
    requires Stream(frames) && Carries(frames, streamId, s, p) && s.queue != []
    ensures Carries(frames, streamId, Pop(s), p)
  {
    var s' := Pop(s);
    assert s.queue == [s.queue[0]] + s.queue[1..];
    assert s'.popped + s'.queue + Held(s') == s.popped + s.queue + Held(s);
  }

  lemma {:induction false} SendCarries(
      frames: seq<Frame>, streamId: u16, s: State, p: Progress, k: nat, i: nat, now: int)
    requires Stream(frames) && Carries(frames, streamId, s, p) && Allowed(frames, s, p, Send(k, i, now))
    ensures assert frames[k] in frames;
            var s' := FeedBegin(s, Cut(streamId, frames[k], i), now);
            Carries(frames, streamId, s', Advance(frames, p, Send(k, i, now))) && HandsOver(s, s')
  {
    assert frames[k] in frames;
    if k < p.done {
      SendOldCarries(frames, streamId, s, p, k, i, now);
    } else {
      GotOneMore(p.got, i);
      if |p.got + {i}| == |frames[k].pieces| {
        SendLastCarries(frames, streamId, s, p, i, now);
      } else {
        SendPartialCarries(frames, streamId, s, p, i, now);
      }
    }
  }

  lemma {:induction false} GotOneMore(got: set<u16>, i: u16)
    ensures |got + {i}| <= |got| + 1
  {
    assert i in got ==> got + {i} == got;
  }

  lemma {:induction false} ActCarries(frames: seq<Frame>, streamId: u16, s: State, p: Progress, act: Act)
    requires Stream(frames) && Carries(frames, streamId, s, p) && Allowed(frames, s, p, act)
    ensures Carries(frames, streamId, Next(s, StepOf(frames, streamId, act)), Advance(frames, p, act))
  {
    match act
    case Send(k, i, now) => SendCarries(frames, streamId, s, p, k, i, now);
    case Finish => if s.handoff.Ready? { FinishCarries(frames, streamId, s, p); }
    case Take => if s.queue != [] { TakeCarries(frames, streamId, s, p); }
  }

  lemma {:induction false} RunCarries(frames: seq<Frame>, streamId: u16, s: State, p: Progress, acts: seq<Act>)
    requires Stream(frames) && Carries(frames, streamId, s, p) && Orderly(frames, streamId, s, p, acts)
    ensures var (s', p') := After(frames, streamId, s, p, acts); Carries(frames, streamId, s', p')
    decreases |acts|
  {
    if acts != [] {
      ActCarries(frames, streamId, s, p, acts[0]);
      RunCarries(frames, streamId, Next(s, StepOf(frames, streamId, acts[0])), Advance(frames, p, acts[0]), acts[1..]);
    }
  }

  /** End-to-end round trip. Feed any stream frame by frame, its pieces in any order, with any repetitions even of
      older frames, the decode thread taking units at any moment as long as fewer than two wait when a piece is
      fed: then at every moment the units taken, queued and in hand are exactly those of the frames that have
      arrived completely, in order, and nothing was dropped, discarded or asked for again. */
  lemma {:induction false} RoundTrip(frames: seq<Frame>, listening: bool, streamId: u16, acts: seq<Act>)
    requires Stream(frames) && Orderly(frames, streamId, Init(listening, streamId), Progress(0, {}), acts)
    ensures var (s, p) := After(frames, streamId, Init(listening, streamId), Progress(0, {}), acts);
            && p.done <= |frames| && (forall f :: f in frames[..p.done] ==> f in frames)
            && s.popped + s.queue + Held(s) == Units(frames[..p.done])
            && s.requests == [] && s.stale == []
            && s.reasm.counters.discardedGap == 0 && s.reasm.counters.droppedIncomplete == 0
  {
    InitCarries(frames, listening, streamId);
    RunCarries(frames, streamId, Init(listening, streamId), Progress(0, {}), acts);
  }

  lemma {:induction false} InitCarries(frames: seq<Frame>, listening: bool, streamId: u16)
    requires Stream(frames)
    ensures Carries(frames, streamId, Init(listening, streamId), Progress(0, {}))
  {
    assert frames[..0] == [];
    if frames != [] {
      assert frames[0] in frames;
    }
  }

  // ---------------------------------------------------------------- everything sent arrives

  predicate SentPiece(acts: seq<Act>, k: nat, i: nat) {
    exists j :: 0 <= j < |acts| && acts[j].Send? && acts[j].frame == k && acts[j].piece == i
  }

  /** The piece has been counted: its frame is complete, or in progress with the piece in. */
  predicate Counted(p: Progress, k: nat, i: nat) {
    k < p.done || (k == p.done && exists g: u16 :: g in p.got && g == i)
  }

  lemma {:induction false} AdvanceCounts(frames: seq<Frame>, p: Progress, act: Act, k: nat, i: nat)
    requires Stream(frames) && (act.Send? ==> act.frame < |frames| && act.piece < |frames[act.frame].pieces|)
    requires act.Send? ==> act.frame <= p.done
    ensures Counted(p, k, i) ==> Counted(Advance(frames, p, act), k, i)
    ensures act.Send? && act.frame == k && act.piece == i ==> Counted(Advance(frames, p, act), k, i)
  {
    var p' := Advance(frames, p, act);
    if act.Send? && act.frame == p.done && p'.done == p.done {
      assert frames[act.frame] in frames;
      var x: u16 := act.piece;
      assert x in p'.got;
      if Counted(p, k, i) && k == p.done {
        var g: u16 :| g in p.got && g == i;
        assert g in p'.got;
      }
    }
  }

  lemma {:induction false} SentIsCounted(
      frames: seq<Frame>, streamId: u16, s: State, p: Progress, acts: seq<Act>, k: nat, i: nat)
    requires Stream(frames) && Orderly(frames, streamId, s, p, acts)
    requires Counted(p, k, i) || SentPiece(acts, k, i)
    ensures Counted(After(frames, streamId, s, p, acts).1, k, i)
    decreases |acts|
  {
    if acts != [] {
      AdvanceCounts(frames, p, acts[0], k, i);
      if !Counted(Advance(frames, p, acts[0]), k, i) {
        var j :| 0 <= j < |acts| && acts[j].Send? && acts[j].frame == k && acts[j].piece == i;
        assert acts[1..][j - 1] == acts[j];
      }
      var s', p' := Next(s, StepOf(frames, streamId, acts[0])), Advance(frames, p, acts[0]);
      SentIsCounted(frames, streamId, s', p', acts[1..], k, i);
    }
  }

  /** Delivery is complete: once every piece of every frame has been sent, in any orderly way, every frame has arrived,
      so the units taken, queued and in hand are those of the whole stream. */
  lemma {:induction false} AllArrive(frames: seq<Frame>, listening: bool, streamId: u16, acts: seq<Act>)
    requires Stream(frames) && Orderly(frames, streamId, Init(listening, streamId), Progress(0, {}), acts)
    requires forall k, i :: 0 <= k < |frames| && 0 <= i < |frames[k].pieces| ==> SentPiece(acts, k, i)
    ensures var (s, p) := After(frames, streamId, Init(listening, streamId), Progress(0, {}), acts);
            p.done == |frames| && s.popped + s.queue + Held(s) == Units(frames)
  {
    var s0, p0 := Init(listening, streamId), Progress(0, {});
    var (s, p) := After(frames, streamId, s0, p0, acts);
    InitCarries(frames, listening, streamId);
    RunCarries(frames, streamId, s0, p0, acts);
    if p.done < |frames| {
      var f := frames[p.done];
      assert f in frames;
      forall i: u16 | i in Below(|f.pieces|) ensures i in p.got {
        assert SentPiece(acts, p.done, i);
        SentIsCounted(frames, streamId, s0, p0, acts, p.done, i);
      }
      RS.SubsetSize(Below(|f.pieces|), p.got);
    }
    assert frames[..|frames|] == frames;
  }

  // ---------------------------------------------------------------- and nothing is lost

  /** The steps an orderly run consists of. */
  function StepsOf(frames: seq<Frame>, streamId: u16, s: State, p: Progress, acts: seq<Act>): seq<Step>
    requires Stream(frames) && Orderly(frames, streamId, s, p, acts)
    decreases |acts|
  {
    if acts == [] then []
    else
      var step := StepOf(frames, streamId, acts[0]);
      [step] + StepsOf(frames, streamId, Next(s, step), Advance(frames, p, acts[0]), acts[1..])
  }

  lemma {:induction false} RunFirst(s: State, step: Step, rest: seq<Step>)
    ensures Run(s, [step] + rest) == Run(Next(s, step), rest)
  {
    var all := [step] + rest;
    if rest == [] {
      assert all[..0] == [];
    } else {
      var front := rest[..|rest| - 1];
      RunFirst(s, step, front);
      assert all[..|all| - 1] == [step] + front && all[|all| - 1] == rest[|rest| - 1];
    }
  }

  lemma {:induction false} LosesFirst(s: State, step: Step, rest: seq<Step>)
    ensures EverLoses(s, [step] + rest) <==> Loses(s, step) || EverLoses(Next(s, step), rest)
  {
    LosesOnly(s, step);
    LosesFrom(s, step, rest, Loses(s, step));
  }

  lemma {:induction false} LosesOnly(s: State, step: Step)
    ensures EverLoses(s, [step]) <==> Loses(s, step)
  {
    LosesLast(s, [], step);
    assert [] + [step] == [step];
  }

  lemma {:induction false} LosesFrom(s: State, step: Step, rest: seq<Step>, first: bool)
    requires EverLoses(s, [step]) <==> first
    ensures EverLoses(s, [step] + rest) <==> first || EverLoses(Next(s, step), rest)
  {
    if rest == [] {
      assert [step] + rest == [step];
    } else {
      var front, last := rest[..|rest| - 1], rest[|rest| - 1];
      LosesFrom(s, step, front, first);
      LosesLater(s, step, front, last, first);
      assert [step] + front + [last] == [step] + rest && front + [last] == rest;
    }
  }

  lemma {:induction false} LosesLater(s: State, step: Step, front: seq<Step>, last: Step, first: bool)
    requires EverLoses(s, [step] + front) <==> first || EverLoses(Next(s, step), front)
    ensures EverLoses(s, [step] + front + [last]) <==> first || EverLoses(Next(s, step), front + [last])
  {
    RunFirst(s, step, front);
    LosesLast(s, [step] + front, last);
    LosesLast(Next(s, step), front, last);
  }

  lemma {:induction false} LosesLast(s: State, front: seq<Step>, last: Step)
    ensures EverLoses(s, front + [last]) <==> EverLoses(s, front) || Loses(Run(s, front), last)
  {
    assert (front + [last])[..|front|] == front;
  }

  lemma {:induction false} CarriesLosesNone(frames: seq<Frame>, streamId: u16, s: State, p: Progress, act: Act)
    requires Stream(frames) && Carries(frames, streamId, s, p) && Allowed(frames, s, p, act)
    ensures !Loses(s, StepOf(frames, streamId, act))
  {
    if act.Send? {
      var f := frames[act.frame];
      assert f in frames;
      SendCarries(frames, streamId, s, p, act.frame, act.piece, act.now);
    }
  }

  lemma {:induction false} OrderlySteps(frames: seq<Frame>, streamId: u16, s: State, p: Progress, acts: seq<Act>)
    requires Stream(frames) && Carries(frames, streamId, s, p) && Orderly(frames, streamId, s, p, acts)
    ensures Run(s, StepsOf(frames, streamId, s, p, acts)) == After(frames, streamId, s, p, acts).0
    ensures !EverLoses(s, StepsOf(frames, streamId, s, p, acts))
    decreases |acts|
  {
    if acts != [] {
      var step, p' := StepOf(frames, streamId, acts[0]), Advance(frames, p, acts[0]);
      ActCarries(frames, streamId, s, p, acts[0]);
      CarriesLosesNone(frames, streamId, s, p, acts[0]);
      OrderlySteps(frames, streamId, Next(s, step), p', acts[1..]);
      RunFirst(s, step, StepsOf(frames, streamId, Next(s, step), p', acts[1..]));
      LosesFirst(s, step, StepsOf(frames, streamId, Next(s, step), p', acts[1..]));
    }
  }

  /** Every orderly run is a run that loses no delivered frame. */
  lemma {:induction false} OrderlyLosesNone(frames: seq<Frame>, listening: bool, streamId: u16, acts: seq<Act>)
    requires Stream(frames) && Orderly(frames, streamId, Init(listening, streamId), Progress(0, {}), acts)
    ensures var s0, p0 := Init(listening, streamId), Progress(0, {});
            var steps := StepsOf(frames, streamId, s0, p0, acts);
            Run(s0, steps) == After(frames, streamId, s0, p0, acts).0 && !EverLoses(s0, steps)
  {
    InitCarries(frames, listening, streamId);
    OrderlySteps(frames, streamId, Init(listening, streamId), Progress(0, {}), acts);
  }
}
