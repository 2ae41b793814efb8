/** Runs that show what the receiver's assumptions are for: a frame that contradicts its own count, is pruned too early,
    or has no body is delivered and then lost, and its successor breaks the chain; and a clock that starts before zero
    defeats the request limiter. */
module ReceiverLimits {
  import opened Base
  import D = Datagram
  import R = Reassembly
  import RS = ReassemblySafety
  import opened VideoReceiver
  import opened ReceiverSafety
  import opened ReceiverStore
  import opened ReceiverChain
  import opened ReceiverRoundTrip
  import opened ReceiverRecovery
  import RH = ReceiverHost

  // ---------------------------------------------------------------- feeding one fragment

  /** The datagram that carries fragment i of n of frame q. */
  function Piece(streamId: u16, key: bool, q: u32, i: u16, n: u16, payload: seq<u8>): seq<u8> {
    D.Encode(D.MakeHeader(key, streamId, q, i, n), payload)
  }

  lemma {:induction false} AcceptPiece(streamId: u16, key: bool, q: u32, i: u16, n: u16, payload: seq<u8>)
    requires i < n && |payload| <= MAX_PAYLOAD
    ensures var d := Piece(streamId, key, q, i, n, payload);
            && Accept(streamId, d) == Some(D.MakeHeader(key, streamId, q, i, n))
            && |d| >= D.HEADER_LEN && d[D.HEADER_LEN..] == payload
  {
    D.DecodeEncode(D.MakeHeader(key, streamId, q, i, n), payload, [streamId]);
  }

  /** The first of several fragments of a new frame only opens it. */
  lemma {:induction false} PushFirst(r: R.State, now: int, f: R.Fragment)
    requires r.newestComplete < f.frameSeq && f.frameSeq !in r.incomplete && |r.incomplete| < 2
    requires f.fragCount > 1
    ensures R.AfterPush(r, now, f) ==
            r.(incomplete := r.incomplete[f.frameSeq := R.Incomplete(f.fragCount, {f.fragIndex}, f.keyframe)])
  {
    assert {} + {f.fragIndex} == {f.fragIndex};
  }

  /** The last fragment of the oldest frame in the window completes it; the gate lets a keyframe or a successor pass. */
  lemma {:induction false} InsertLast(r: R.State, now: int, f: R.Fragment)
    requires f.frameSeq in r.incomplete && r.newestComplete < f.frameSeq
    requires forall k :: k in r.incomplete ==> f.frameSeq <= k
    requires var e := r.incomplete[f.frameSeq]; |e.have + {f.fragIndex}| == e.need
    requires r.incomplete[f.frameSeq].keyframe || r.lastDecoded == Some(f.frameSeq - 1)
    ensures R.Insert(r, now, f) ==
            r.(newestComplete := f.frameSeq, incomplete := r.incomplete - {f.frameSeq}, lastDecoded := Some(f.frameSeq),
               events := r.events + [R.Deliver(now, f.frameSeq, r.incomplete[f.frameSeq].keyframe)])
  {
    var q, e := f.frameSeq, r.incomplete[f.frameSeq];
    var r1 := r.(incomplete := r.incomplete[q := e.(have := e.have + {f.fragIndex})]);
    assert R.Overtaken(r1, q) == {};
    assert R.Retire(r1, q).incomplete == r.incomplete - {q};
  }

  /** A frame of one fragment, older than all in the window, opens and completes at once. */
  lemma {:induction false} PushWhole(r: R.State, now: int, f: R.Fragment)
    requires r.newestComplete < f.frameSeq && |r.incomplete| < 2 && f.fragCount == 1
    requires forall k :: k in r.incomplete ==> f.frameSeq < k
    requires f.keyframe || r.lastDecoded == Some(f.frameSeq - 1)
    ensures R.AfterPush(r, now, f) ==
            r.(newestComplete := f.frameSeq, lastDecoded := Some(f.frameSeq),
               events := r.events + [R.Deliver(now, f.frameSeq, f.keyframe)])
  {
    PushOpens(r, now, f);
    OpenWhole(r, R.Open(r, f), now, f);
  }

  lemma {:induction false} PushOpens(r: R.State, now: int, f: R.Fragment)
    requires r.newestComplete < f.frameSeq && f.frameSeq !in r.incomplete && |r.incomplete| < 2
    ensures R.AfterPush(r, now, f) == R.Insert(R.Open(r, f), now, f)
  {
  }

  lemma {:induction false} OpenWhole(r: R.State, o: R.State, now: int, f: R.Fragment)
    requires o == R.Open(r, f) && r.newestComplete < f.frameSeq && f.fragCount == 1
    requires forall k :: k in r.incomplete ==> f.frameSeq < k
    requires f.keyframe || r.lastDecoded == Some(f.frameSeq - 1)
    ensures R.Insert(o, now, f) ==
            r.(newestComplete := f.frameSeq, lastDecoded := Some(f.frameSeq),
               events := r.events + [R.Deliver(now, f.frameSeq, f.keyframe)])
  {
    assert {} + {f.fragIndex} == {f.fragIndex};
    InsertLast(o, now, f);
    assert o.incomplete - {f.frameSeq} == r.incomplete;
  }

  lemma {:induction false} StashSingle(pending: map<u32, Pending>, h: D.Header, payload: seq<u8>)
    requires h.frameSeq !in pending && h.fragIndex == 0 && h.fragCount == 1
    ensures var p' := Stash(pending, h, payload);
            p' == pending[h.frameSeq := Pending(1, map[0 := payload])]
            && Assemblable(p', h.frameSeq) && Body(p', h.frameSeq) == payload
  {
    assert Join(map[0 := payload], 1) == Join(map[0 := payload], 0) + payload;
    assert |map[0 := payload]| == 1;
  }

  /** Nothing has reached the decoder and nothing is in hand. */
  predicate Untouched(s: State) {
    s.popped == [] && s.queue == [] && !s.awaitingKeyframe && s.handoff.Idle?
  }

  /** A feed that hands nothing over. */
  lemma {:induction false} FeedKeeps(s: State, h: D.Header, datagram: seq<u8>, now: int)
    requires Safe(s) && Untouched(s) && Accept(s.streamId, datagram) == Some(h)
    requires R.AfterPush(s.reasm, now, Fragment(h)).lastDecoded == s.reasm.lastDecoded
             || Loses(s, BeginFeed(datagram, now))
    ensures var s' := FeedBegin(s, datagram, now);
            && Untouched(s') && s'.reasm == R.AfterPush(s.reasm, now, Fragment(h))
            && Fed(s.pending, h, datagram[D.HEADER_LEN..], s'.reasm.newestComplete, false, s'.pending)
  {
    FeedBeginCases(s, datagram, now);
    FeedBeginStore(s, h, datagram, now);
  }

  /** A feed that loses the frame it completes. */
  lemma {:induction false} FeedLoses(s: State, h: D.Header, datagram: seq<u8>, now: int)
    requires InSync(s) && s.handoff.Idle? && Accept(s.streamId, datagram) == Some(h)
    requires R.AfterPush(s.reasm, now, Fragment(h)).lastDecoded != s.reasm.lastDecoded
    requires var p := Stashed(s, datagram);
             !(Assemblable(p, h.frameSeq) && |Body(p, h.frameSeq)| > 8)
    ensures Loses(s, BeginFeed(datagram, now))
  {
    LosesIff(s, datagram, now);
  }

  /** What a feed that hands over a whole frame does. */
  predicate Hands(s: State, s': State, key: bool, q: u32, now: int) {
    && NewUnit(s, s') && s'.handoff.unit.keyframe == key && s'.handoff.unit.frameSeq == q && s'.handoff.now == now
    && s'.listening == s.listening
    && s'.reasm.newestComplete == q && s'.reasm.incomplete == s.reasm.incomplete
    && s'.pending.Keys <= s.pending.Keys + {q}
  }

  lemma {:induction false} WholeReady(s: State, h: D.Header, datagram: seq<u8>, now: int)
    requires InSync(s) && s.handoff.Idle? && Accept(s.streamId, datagram) == Some(h) && Delivers(s, datagram, now)
    requires var p := Stashed(s, datagram);
             Assemblable(p, h.frameSeq) && |Body(p, h.frameSeq)| > 8
    ensures FeedBegin(s, datagram, now).handoff.Ready?
  {
    LosesIff(s, datagram, now);
    FeedBeginStore(s, h, datagram, now);
  }

  lemma {:induction false} ReadyHands(s: State, h: D.Header, datagram: seq<u8>, now: int)
    requires InSync(s) && s.handoff.Idle? && Accept(s.streamId, datagram) == Some(h)
    requires FeedBegin(s, datagram, now).handoff.Ready?
    requires R.AfterPush(s.reasm, now, Fragment(h)).incomplete == s.reasm.incomplete
    ensures Hands(s, FeedBegin(s, datagram, now), RS.Recorded(s.reasm, Fragment(h)).keyframe, h.frameSeq, now)
  {
    var s', key := FeedBegin(s, datagram, now), RS.Recorded(s.reasm, Fragment(h)).keyframe;
    FeedBeginCases(s, datagram, now);
    FeedBeginStore(s, h, datagram, now);
    HandoffTime(s, datagram, now);
    RH.FeedUnit(s, h, datagram, now);
    UnitHands(s, s', h, datagram[D.HEADER_LEN..], key, now);
  }

  lemma {:induction false} UnitHands(s: State, s': State, h: D.Header, payload: seq<u8>, key: bool, now: int)
    requires NewUnit(s, s') && s'.listening == s.listening && s'.handoff.now == now
    requires s'.reasm.incomplete == s.reasm.incomplete
    requires Fed(s.pending, h, payload, s'.reasm.newestComplete, true, s'.pending)
    requires var p := Stash(s.pending, h, payload);
             || s'.assembled == s.assembled
             || (|Body(p, h.frameSeq)| > 8
                 && s'.assembled == s.assembled + [UnitOf(Body(p, h.frameSeq), key, h.frameSeq)])
    ensures Hands(s, s', key, h.frameSeq, now)
  {
    assert s'.assembled[|s.assembled|] == s'.handoff.unit;
  }

  predicate Fits(s: State, key: bool, q: u32) {
    && s.handoff.Idle? && s.reasm.newestComplete < q && q !in s.pending
    && |s.reasm.incomplete| < 2 && (forall k :: k in s.reasm.incomplete ==> q < k)
    && (key || s.reasm.lastDecoded == Some(q - 1))
    && s.reasm.lastDecoded != Some(q)
  }

  /** A whole frame in one datagram that the gate lets pass is handed over. */
  lemma {:induction false} FeedWhole(s: State, key: bool, q: u32, payload: seq<u8>, now: int)
    requires InSync(s) && Fits(s, key, q) && 8 < |payload| <= MAX_PAYLOAD
    ensures Hands(s, FeedBegin(s, Piece(s.streamId, key, q, 0, 1, payload), now), key, q, now)
  {
    var h, d := D.MakeHeader(key, s.streamId, q, 0, 1), Piece(s.streamId, key, q, 0, 1, payload);
    AcceptPiece(s.streamId, key, q, 0, 1, payload);
    PushWhole(s.reasm, now, Fragment(h));
    StashSingle(s.pending, h, payload);
    WholeReady(s, h, d, now);
    ReadyHands(s, h, d, now);
  }

  // ---------------------------------------------------------------- runs

  /** The state after some steps from the start. */
  function From(streamId: u16, steps: seq<Step>): State {
    Run(Init(true, streamId), steps)
  }

  lemma {:induction false} FromNext(streamId: u16, steps: seq<Step>, step: Step)
    ensures From(streamId, steps + [step]) == Next(From(streamId, steps), step)
  {
    assert (steps + [step])[..|steps|] == steps;
  }

  lemma {:induction false} FromFeed(streamId: u16, steps: seq<Step>, datagram: seq<u8>, now: int)
    requires From(streamId, steps).handoff.Idle?
    ensures From(streamId, steps + [BeginFeed(datagram, now)]) == FeedBegin(From(streamId, steps), datagram, now)
  {
    FromNext(streamId, steps, BeginFeed(datagram, now));
  }

  /** Frame q has been delivered but nothing has reached the decoder; the successor has yet to come. */
  predicate Lost(s: State, q: u32) {
    && Untouched(s) && s.reasm.lastDecoded == Some(q) && s.reasm.newestComplete == q
    && |s.reasm.incomplete| < 2 && (forall k :: k in s.reasm.incomplete ==> q + 1 < k)
    && (forall k :: k in s.pending ==> k != q + 1)
  }

  lemma {:induction false} FeedLost(s: State, h: D.Header, datagram: seq<u8>, now: int)
    requires Safe(s) && Untouched(s) && Accept(s.streamId, datagram) == Some(h)
    requires s.reasm.lastDecoded == None && forall k :: k in s.pending ==> k != h.frameSeq + 1
    requires var r' := R.AfterPush(s.reasm, now, Fragment(h));
             && r'.lastDecoded == Some(h.frameSeq) && r'.newestComplete == h.frameSeq
             && |r'.incomplete| < 2 && forall k :: k in r'.incomplete ==> h.frameSeq + 1 < k
    requires var p := Stashed(s, datagram);
             !(Assemblable(p, h.frameSeq) && |Body(p, h.frameSeq)| > 8)
    ensures Lost(FeedBegin(s, datagram, now), h.frameSeq)
  {
    FeedLoses(s, h, datagram, now);
    FeedKeeps(s, h, datagram, now);
  }

  lemma {:induction false} LoneUnit(s: State, s': State, q: u32, now: int)
    requires Untouched(s) && Hands(s, s', false, q, now)
    ensures !Chained(Reached(FeedEnd(s')))
  {
    FeedEndCases(s');
    assert Reached(FeedEnd(s')) == [s'.handoff.unit];
    assert [s'.handoff.unit][..0] == [];
  }

  /** Then the successor is the decoder's first unit, and no keyframe. */
  lemma {:induction false} SuccessorRun(streamId: u16, steps: seq<Step>, q: u32, payload: seq<u8>, now: int)
    requires Lost(From(streamId, steps), q) && q + 1 < 0x1_0000_0000 && 8 < |payload| <= MAX_PAYLOAD
    ensures var d := Piece(streamId, false, q + 1, 0, 1, payload);
            !Chained(Reached(From(streamId, steps + [BeginFeed(d, now)] + [EndFeed])))
  {
    var d := Piece(streamId, false, q + 1, 0, 1, payload);
    RH.RunStream(true, streamId, steps);
    RunSafe(true, streamId, steps);
    FeedWhole(From(streamId, steps), false, q + 1, payload, now);
    LoneUnit(From(streamId, steps), FeedBegin(From(streamId, steps), d, now), q + 1, now);
    FromFeed(streamId, steps, d, now);
    FromNext(streamId, steps + [BeginFeed(d, now)], EndFeed);
  }

  // ---------------------------------------------------------------- no body

  lemma {:induction false} RuntLost(s: State, q: u32, payload: seq<u8>, now: int)
    requires Safe(s) && Untouched(s) && Fits(s, true, q) && |payload| <= 8
    requires s.reasm.incomplete == map[] && s.pending == map[] && s.reasm.lastDecoded == None
    ensures Lost(FeedBegin(s, Piece(s.streamId, true, q, 0, 1, payload), now), q)
  {
    var h, d := D.MakeHeader(true, s.streamId, q, 0, 1), Piece(s.streamId, true, q, 0, 1, payload);
    AcceptPiece(s.streamId, true, q, 0, 1, payload);
    PushWhole(s.reasm, now, Fragment(h));
    StashSingle(s.pending, h, payload);
    FeedLost(s, h, d, now);
  }

  lemma {:induction false} RuntStep(streamId: u16, q: u32, a: seq<u8>, t: int)
    requires |a| <= 8
    ensures Lost(From(streamId, [BeginFeed(Piece(streamId, true, q, 0, 1, a), t)]), q)
  {
    var d := Piece(streamId, true, q, 0, 1, a);
    RunSafe(true, streamId, []);
    RuntLost(From(streamId, []), q, a, t);
    FromFeed(streamId, [], d, t);
    assert [] + [BeginFeed(d, t)] == [BeginFeed(d, t)];
  }

  /** A keyframe without a body, and then its successor. */
  lemma {:induction false} RuntRun(streamId: u16, q: u32, a: seq<u8>, b: seq<u8>, t: int)
    requires q + 1 < 0x1_0000_0000 && |a| <= 8 < |b| <= MAX_PAYLOAD
    ensures var runt := BeginFeed(Piece(streamId, true, q, 0, 1, a), t);
            var next := BeginFeed(Piece(streamId, false, q + 1, 0, 1, b), t);
            !Chained(Reached(From(streamId, [runt] + [next] + [EndFeed])))
  {
    RuntStep(streamId, q, a, t);
    SuccessorRun(streamId, [BeginFeed(Piece(streamId, true, q, 0, 1, a), t)], q, b, t);
  }

  // ---------------------------------------------------------------- counts that contradict each other

  /** The first of two fragments of keyframe q has been received, and nothing else. */
  predicate HalfReceived(s: State, q: u32, a: seq<u8>) {
    && Untouched(s) && s.reasm.newestComplete == -1 && s.reasm.lastDecoded == None
    && s.reasm.incomplete == map[q := R.Incomplete(2, {0}, true)]
    && s.pending == map[q := Pending(2, map[0 := a])]
  }

  lemma {:induction false} HalfOpens(s: State, q: u32, a: seq<u8>, now: int)
    requires Safe(s) && Untouched(s) && |a| <= MAX_PAYLOAD
    requires s.reasm == R.INIT && s.pending == map[]
    ensures HalfReceived(FeedBegin(s, Piece(s.streamId, true, q, 0, 2, a), now), q, a)
  {
    var h, d := D.MakeHeader(true, s.streamId, q, 0, 2), Piece(s.streamId, true, q, 0, 2, a);
    AcceptPiece(s.streamId, true, q, 0, 2, a);
    PushFirst(s.reasm, now, Fragment(h));
    FeedKeeps(s, h, d, now);
    HalfStored(h, a, FeedBegin(s, d, now).pending);
  }

  lemma {:induction false} HalfStored(h: D.Header, a: seq<u8>, p': map<u32, Pending>)
    requires p' == Pruned(Stash(map[], h, a), h.frameSeq) && h.fragIndex == 0
    ensures p' == map[h.frameSeq := Pending(h.fragCount, map[0 := a])]
  {
  }

  lemma {:induction false} HalfStep(streamId: u16, q: u32, a: seq<u8>, t: int)
    requires |a| <= MAX_PAYLOAD
    ensures HalfReceived(From(streamId, [BeginFeed(Piece(streamId, true, q, 0, 2, a), t)]), q, a)
  {
    var d := Piece(streamId, true, q, 0, 2, a);
    RunSafe(true, streamId, []);
    HalfOpens(From(streamId, []), q, a, t);
    FromFeed(streamId, [], d, t);
    assert [] + [BeginFeed(d, t)] == [BeginFeed(d, t)];
  }

  lemma {:induction false} CountPush(r: R.State, q: u32, f: R.Fragment, now: int)
    requires r.newestComplete == -1 && f.frameSeq == q && f.fragIndex == 1
    requires r.incomplete == map[q := R.Incomplete(2, {0}, true)]
    ensures var r' := R.AfterPush(r, now, f);
            r'.newestComplete == q && r'.lastDecoded == Some(q) && r'.incomplete == map[]
  {
    assert {0} + {1} == {0, 1};
    InsertLast(r, now, f);
    assert r.incomplete - {q} == map[];
  }

  /** Two parts are not three. */
  lemma {:induction false} TwoParts(pending: map<u32, Pending>, h: D.Header, a: seq<u8>, b: seq<u8>)
    requires pending == map[h.frameSeq := Pending(2, map[0 := a])] && h.fragIndex == 1 && h.fragCount == 3
    ensures !Assemblable(Stash(pending, h, b), h.frameSeq)
  {
    assert Stash(pending, h, b)[h.frameSeq].parts == map[0 := a, 1 := b];
    assert |map[0 := a, 1 := b]| == 2;
  }

  lemma {:induction false} CountLost(s: State, q: u32, a: seq<u8>, b: seq<u8>, now: int)
    requires Safe(s) && HalfReceived(s, q, a) && |b| <= MAX_PAYLOAD
    ensures Lost(FeedBegin(s, Piece(s.streamId, true, q, 1, 3, b), now), q)
  {
    var h, d := D.MakeHeader(true, s.streamId, q, 1, 3), Piece(s.streamId, true, q, 1, 3, b);
    AcceptPiece(s.streamId, true, q, 1, 3, b);
    CountPush(s.reasm, q, Fragment(h), now);
    TwoParts(s.pending, h, a, b);
    FeedLost(s, h, d, now);
  }

  lemma {:induction false} CountStep(streamId: u16, steps: seq<Step>, q: u32, a: seq<u8>, b: seq<u8>, t: int)
    requires HalfReceived(From(streamId, steps), q, a) && |b| <= MAX_PAYLOAD
    ensures Lost(From(streamId, steps + [BeginFeed(Piece(streamId, true, q, 1, 3, b), t)]), q)
  {
    RH.RunStream(true, streamId, steps);
    RunSafe(true, streamId, steps);
    CountLost(From(streamId, steps), q, a, b, t);
    FromFeed(streamId, steps, Piece(streamId, true, q, 1, 3, b), t);
  }

  /** A keyframe whose first fragment says 2 and whose second says 3, and then its successor: the reassembler counts to
      two, the assembler waits for three, and the chain is broken. */
  lemma {:induction false} CountRun(streamId: u16, q: u32, a: seq<u8>, b: seq<u8>, c: seq<u8>, t: int)
    requires q + 1 < 0x1_0000_0000
    requires |a| <= MAX_PAYLOAD && |b| <= MAX_PAYLOAD && 8 < |c| <= MAX_PAYLOAD
    ensures var first := BeginFeed(Piece(streamId, true, q, 0, 2, a), t);
            var second := BeginFeed(Piece(streamId, true, q, 1, 3, b), t);
            var next := BeginFeed(Piece(streamId, false, q + 1, 0, 1, c), t);
            !Chained(Reached(From(streamId, [first] + [second] + [next] + [EndFeed])))
  {
    var first := BeginFeed(Piece(streamId, true, q, 0, 2, a), t);
    HalfStep(streamId, q, a, t);
    CountStep(streamId, [first], q, a, b, t);
    SuccessorRun(streamId, [first] + [BeginFeed(Piece(streamId, true, q, 1, 3, b), t)], q, c, t);
  }

  // ---------------------------------------------------------------- a window that is not compact

  /** Both frames are in the window, but the payload of q is gone. */
  predicate Forgotten(s: State, q: u32) {
    && Untouched(s) && s.reasm.newestComplete == -1 && s.reasm.lastDecoded == None
    && q + 5 < 0x1_0000_0000
    && s.reasm.incomplete == map[q := R.Incomplete(2, {0}, true), q + 5 := R.Incomplete(2, {0}, false)]
    && (forall k :: k in s.pending ==> k == q + 5)
  }

  lemma {:induction false} JumpForgets(s: State, q: u32, a: seq<u8>, b: seq<u8>, now: int)
    requires Safe(s) && HalfReceived(s, q, a) && |b| <= MAX_PAYLOAD && q + 5 < 0x1_0000_0000
    ensures Forgotten(FeedBegin(s, Piece(s.streamId, false, q + 5, 0, 2, b), now), q)
  {
    var h, d := D.MakeHeader(false, s.streamId, q + 5, 0, 2), Piece(s.streamId, false, q + 5, 0, 2, b);
    AcceptPiece(s.streamId, false, q + 5, 0, 2, b);
    PushFirst(s.reasm, now, Fragment(h));
    FeedKeeps(s, h, d, now);
  }

  lemma {:induction false} PrunePush(r: R.State, q: u32, f: R.Fragment, now: int)
    requires r.newestComplete == -1 && q + 5 < 0x1_0000_0000 && f.frameSeq == q && f.fragIndex == 1
    requires r.incomplete == map[q := R.Incomplete(2, {0}, true), q + 5 := R.Incomplete(2, {0}, false)]
    ensures var r' := R.AfterPush(r, now, f);
            && r'.newestComplete == q && r'.lastDecoded == Some(q)
            && r'.incomplete == map[q + 5 := R.Incomplete(2, {0}, false)]
  {
    assert {0} + {1} == {0, 1};
    InsertLast(r, now, f);
    assert r.incomplete - {q} == map[q + 5 := R.Incomplete(2, {0}, false)];
  }

  /** One part is not two. */
  lemma {:induction false} OnePart(pending: map<u32, Pending>, h: D.Header, payload: seq<u8>)
    requires h.frameSeq !in pending && h.fragCount == 2
    ensures !Assemblable(Stash(pending, h, payload), h.frameSeq)
  {
    assert Stash(pending, h, payload)[h.frameSeq].parts == map[h.fragIndex := payload];
    assert |map[h.fragIndex := payload]| == 1;
  }

  lemma {:induction false} PruneLost(s: State, q: u32, c: seq<u8>, now: int)
    requires Safe(s) && Forgotten(s, q) && |c| <= MAX_PAYLOAD
    ensures Lost(FeedBegin(s, Piece(s.streamId, true, q, 1, 2, c), now), q)
  {
    var h, d := D.MakeHeader(true, s.streamId, q, 1, 2), Piece(s.streamId, true, q, 1, 2, c);
    AcceptPiece(s.streamId, true, q, 1, 2, c);
    PrunePush(s.reasm, q, Fragment(h), now);
    OnePart(s.pending, h, c);
    FeedLost(s, h, d, now);
  }

  lemma {:induction false} JumpStep(streamId: u16, steps: seq<Step>, q: u32, a: seq<u8>, b: seq<u8>, t: int)
    requires HalfReceived(From(streamId, steps), q, a) && q + 5 < 0x1_0000_0000 && |b| <= MAX_PAYLOAD
    ensures Forgotten(From(streamId, steps + [BeginFeed(Piece(streamId, false, q + 5, 0, 2, b), t)]), q)
  {
    RH.RunStream(true, streamId, steps);
    RunSafe(true, streamId, steps);
    JumpForgets(From(streamId, steps), q, a, b, t);
    FromFeed(streamId, steps, Piece(streamId, false, q + 5, 0, 2, b), t);
  }

  lemma {:induction false} LastStep(streamId: u16, steps: seq<Step>, q: u32, c: seq<u8>, t: int)
    requires Forgotten(From(streamId, steps), q) && |c| <= MAX_PAYLOAD
    ensures Lost(From(streamId, steps + [BeginFeed(Piece(streamId, true, q, 1, 2, c), t)]), q)
  {
    RH.RunStream(true, streamId, steps);
    RunSafe(true, streamId, steps);
    PruneLost(From(streamId, steps), q, c, t);
    FromFeed(streamId, steps, Piece(streamId, true, q, 1, 2, c), t);
  }

  /** Half of keyframe q, a fragment of the frame five newer, the other half of q, and then its successor: the store has
      been pruned, the reassembler has not, and the chain is broken. */
  lemma {:induction false} PruneRun(
      streamId: u16, q: u32, a: seq<u8>, b: seq<u8>, c: seq<u8>, e: seq<u8>, t: int)
    requires q + 5 < 0x1_0000_0000
    requires |a| <= MAX_PAYLOAD && |b| <= MAX_PAYLOAD && |c| <= MAX_PAYLOAD && 8 < |e| <= MAX_PAYLOAD
    ensures var first := BeginFeed(Piece(streamId, true, q, 0, 2, a), t);
            var jump := BeginFeed(Piece(streamId, false, q + 5, 0, 2, b), t);
            var last := BeginFeed(Piece(streamId, true, q, 1, 2, c), t);
            var next := BeginFeed(Piece(streamId, false, q + 1, 0, 1, e), t);
            !Chained(Reached(From(streamId, [first] + [jump] + [last] + [next] + [EndFeed])))
  {
    var first := BeginFeed(Piece(streamId, true, q, 0, 2, a), t);
    var jump := BeginFeed(Piece(streamId, false, q + 5, 0, 2, b), t);
    HalfStep(streamId, q, a, t);
    JumpStep(streamId, [first], q, a, b, t);
    LastStep(streamId, [first] + [jump], q, c, t);
    SuccessorRun(streamId, [first] + [jump] + [BeginFeed(Piece(streamId, true, q, 1, 2, c), t)], q, e, t);
  }

  // ---------------------------------------------------------------- a clock that starts before zero

  /** Frames up to but not including q have been delivered, nothing is in flight or in hand. */
  predicate UpToNext(s: State, q: int) {
    && s.handoff.Idle? && s.listening
    && s.reasm.newestComplete == q - 1 && s.reasm.incomplete == map[]
    && (forall k :: k in s.pending ==> k < q)
    && (s.reasm.lastDecoded.Some? ==> s.reasm.lastDecoded.value == q - 1)
  }

  /** n units wait, or a keyframe is awaited, and the callbacks were made at these times. */
  predicate Stands(s: State, q: int, n: nat, awaiting: bool, times: seq<int>) {
    && UpToNext(s, q) && |s.queue| == n && s.awaitingKeyframe == awaiting
    && |s.requests| == |times| && (forall k :: 0 <= k < |times| ==> s.requests[k].t == times[k])
    && s.lastIdrMs == if times == [] then -1 else times[|times| - 1]
  }

  /** The two steps that feed frame q in one datagram and finish its hand-off. */
  function WholeFeed(streamId: u16, key: bool, q: u32, payload: seq<u8>, now: int): seq<Step> {
    [BeginFeed(Piece(streamId, key, q, 0, 1, payload), now)] + [EndFeed]
  }

  /** How many units wait, whether a keyframe is awaited, and when callbacks were made, after one more frame. */
  predicate Becomes(
      n: nat, awaiting: bool, times: seq<int>, key: bool, now: int, n': nat, awaiting': bool, times': seq<int>)
  {
    var waits := awaiting || n >= 2;
    var kept := if n >= 2 then 0 else n;
    if waits && !key then
      && n' == kept && awaiting'
      && times' == (if times != [] && times[|times| - 1] >= 0 && now - times[|times| - 1] < 250
                    then times else times + [now])
    else n' == kept + 1 && !awaiting' && times' == times
  }

  lemma {:induction false} HandsBecomes(
      s: State, s': State, key: bool, q: u32, now: int, n: nat, awaiting: bool, times: seq<int>,
      n': nat, awaiting': bool, times': seq<int>)
    requires Stands(s, q, n, awaiting, times) && Hands(s, s', key, q, now)
    requires Becomes(n, awaiting, times, key, now, n', awaiting', times')
    ensures Stands(FeedEnd(s'), q + 1, n', awaiting', times')
  {
    FeedEndCases(s');
    FeedEndRequests(s');
    assert FeedEnd(s').pending == Pruned(s'.pending, q);
  }

  lemma {:induction false} WholeStep(
      streamId: u16, steps: seq<Step>, key: bool, q: u32, payload: seq<u8>, now: int, n: nat, awaiting: bool,
      times: seq<int>, n': nat, awaiting': bool, times': seq<int>)
    requires Stands(From(streamId, steps), q, n, awaiting, times)
    requires key || From(streamId, steps).reasm.lastDecoded.Some?
    requires 8 < |payload| <= MAX_PAYLOAD
    requires Becomes(n, awaiting, times, key, now, n', awaiting', times')
    ensures var s' := From(streamId, steps + WholeFeed(streamId, key, q, payload, now));
            Stands(s', q + 1, n', awaiting', times') && s'.reasm.lastDecoded.Some?
  {
    var d := Piece(streamId, key, q, 0, 1, payload);
    RH.RunStream(true, streamId, steps);
    RunSafe(true, streamId, steps);
    FeedWhole(From(streamId, steps), key, q, payload, now);
    FromFeed(streamId, steps, d, now);
    FromNext(streamId, steps + [BeginFeed(d, now)], EndFeed);
    assert steps + WholeFeed(streamId, key, q, payload, now) == steps + [BeginFeed(d, now)] + [EndFeed];
    HandsBecomes(From(streamId, steps), FeedBegin(From(streamId, steps), d, now), key, q, now, n, awaiting, times,
                 n', awaiting', times');
    FeedEndCases(FeedBegin(From(streamId, steps), d, now));
  }

  /** A keyframe and three successors while the decoder takes nothing: the third overruns the queue, and two callbacks
      are made as close together as t1 and t2 are, if t1 is negative. */
  lemma {:induction false} NegativeClockRun(streamId: u16, payload: seq<u8>, t1: int, t2: int)
    requires 8 < |payload| <= MAX_PAYLOAD && t1 < 0 && t1 <= t2 < t1 + 250
    ensures var steps := [] + WholeFeed(streamId, true, 0, payload, t1) + WholeFeed(streamId, false, 1, payload, t1)
                         + WholeFeed(streamId, false, 2, payload, t1) + WholeFeed(streamId, false, 3, payload, t2);
            var rs := From(streamId, steps).requests;
            |rs| == 2 && rs[0].t == t1 && rs[1].t == t2
  {
    var s0: seq<Step> := [];
    var s1 := s0 + WholeFeed(streamId, true, 0, payload, t1);
    var s2 := s1 + WholeFeed(streamId, false, 1, payload, t1);
    var s3 := s2 + WholeFeed(streamId, false, 2, payload, t1);
    assert Stands(From(streamId, s0), 0, 0, false, []);
    WholeStep(streamId, s0, true, 0, payload, t1, 0, false, [], 1, false, []);
    WholeStep(streamId, s1, false, 1, payload, t1, 1, false, [], 2, false, []);
    WholeStep(streamId, s2, false, 2, payload, t1, 2, false, [], 0, true, [] + [t1]);
    WholeStep(streamId, s3, false, 3, payload, t2, 0, true, [] + [t1], 0, true, [] + [t1] + [t2]);
  }
}
