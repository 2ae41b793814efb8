/** What every interleaving of producer and decode-thread steps keeps: a bounded hand-off that loses, repeats and
    reorders nothing. */
module ReceiverSafety {
  import opened Base
  import R = Reassembly
  import RS = ReassemblySafety
  import opened VideoReceiver

  /** The atomic steps: the producer's two, the decode thread's, and the application's. */
  datatype Step = BeginFeed(datagram: seq<u8>, now: int) | EndFeed | PopAu | StopPops | ResumePops

  /** A step that is not enabled leaves the state alone. */
  function Next(s: State, step: Step): State {
    match step
    case BeginFeed(datagram, now) => if s.handoff.Idle? then FeedBegin(s, datagram, now) else s
    case EndFeed => FeedEnd(s)
    case PopAu => Pop(s)
    case StopPops => s.(stopped := true)
    case ResumePops => s.(stopped := false)
  }

  function Run(s: State, steps: seq<Step>): State {
    if steps == [] then s else Next(Run(s, steps[..|steps| - 1]), steps[|steps| - 1])
  }

  predicate InSync(s: State) {
    RS.Inv(s.reasm) && s.seenEvents == |s.reasm.events|
  }

  // ---------------------------------------------------------------- what one feed does

  /** FeedBegin assembled nothing. */
  predicate NoUnit(s: State, s': State) {
    && s'.handoff.Idle?
    && s'.assembled == s.assembled && s'.popped == s.popped && s'.queue == s.queue
    && s'.stale == s.stale && s'.staleAtDecoder == s.staleAtDecoder
    && s'.awaitingKeyframe == s.awaitingKeyframe
    && (s.reasm.lastDecoded.Some? ==>
          s'.reasm.lastDecoded.Some? && s.reasm.lastDecoded.value <= s'.reasm.lastDecoded.value)
  }

  /** FeedBegin assembled the unit it now holds, newer than all before, and dropped an overrun queue. */
  predicate NewUnit(s: State, s': State) {
    && s'.handoff.Ready?
    && var u := s'.handoff.unit;
    && s'.assembled == s.assembled + [u] && s'.popped == s.popped
    && s'.reasm.lastDecoded == Some(u.frameSeq)
    && (s.reasm.lastDecoded.Some? ==> s.reasm.lastDecoded.value < u.frameSeq)
    && (u.keyframe || s.reasm.lastDecoded == Some(u.frameSeq - 1))
    && s'.requests == s.requests && s'.lastIdrMs == s.lastIdrMs
    && Overrun(s, s')
  }

  /** TakeFrame touches only the hand-off, the payloads and the history; it may drop an overrun queue. */
  lemma {:induction false} TakeFrameCases(s: State, q: u32, key: bool, now: int)
    requires s.handoff.Idle?
    ensures var s' := TakeFrame(s, q, key, now);
            && s'.reasm == s.reasm && s'.seenEvents == s.seenEvents
            && s'.listening == s.listening && s'.streamId == s.streamId
            && s'.requests == s.requests && s'.lastIdrMs == s.lastIdrMs && s'.popped == s.popped
    ensures var s' := TakeFrame(s, q, key, now);
            if s'.handoff.Idle? then
              && s'.assembled == s.assembled && s'.queue == s.queue && s'.stale == s.stale
              && s'.staleAtDecoder == s.staleAtDecoder && s'.awaitingKeyframe == s.awaitingKeyframe
            else
              && s'.handoff.unit.frameSeq == q && s'.handoff.unit.keyframe == key && s'.handoff.now == now
              && s'.assembled == s.assembled + [s'.handoff.unit] && Overrun(s, s')
  {
  }

  /** The first critical section: a queue that has reached its bound goes stale as a whole. */
  predicate Overrun(s: State, s': State) {
    if |s.queue| < 2 then
      && s'.queue == s.queue && s'.stale == s.stale && s'.staleAtDecoder == s.staleAtDecoder
      && s'.awaitingKeyframe == s.awaitingKeyframe
    else
      && s'.queue == [] && s'.stale == s.stale + s.queue && s'.staleAtDecoder == s.staleAtDecoder + |s.queue|
      && s'.awaitingKeyframe
  }

  /** s1 is s with a fragment counted, stashed and pushed. */
  predicate Ingested(s: State, f: R.Fragment, now: int, s1: State) {
    && s1 == s.(counters := s1.counters, pending := s1.pending, reasm := s1.reasm)
    && RS.Reports(s.reasm, now, f, s1.reasm)
  }

  lemma {:induction false} ReactCases(s: State, f: R.Fragment, now: int, s1: State)
    requires RS.LogInv(s.reasm) && s.seenEvents == |s.reasm.events| && s.handoff.Idle?
    requires Ingested(s, f, now, s1)
    ensures var s' := React(s1, now);
            && (NoUnit(s, s') || NewUnit(s, s'))
            && s'.reasm == s1.reasm && s'.seenEvents == |s'.reasm.events|
            && s'.listening == s.listening && s'.streamId == s.streamId
  {
    if s1.reasm.events != s.reasm.events {
      var e := s1.reasm.events[s.seenEvents];
      if e.Deliver? {
        DeliverCases(s, s1, s1.(seenEvents := s1.seenEvents + 1), e.frameSeq, e.keyframe, now);
      }
    }
  }

  lemma {:induction false} DeliverCases(s: State, s1: State, s2: State, q: u32, key: bool, now: int)
    requires RS.LogInv(s.reasm) && s.handoff.Idle? && s2 == s1.(seenEvents := s1.seenEvents + 1)
    requires s1 == s.(counters := s1.counters, pending := s1.pending, reasm := s1.reasm)
    requires s.reasm.newestComplete < q && s1.reasm.lastDecoded == Some(q)
    requires key || s.reasm.lastDecoded == Some(q - 1)
    ensures var s' := TakeFrame(s2, q, key, now);
            && (NoUnit(s, s') || NewUnit(s, s'))
            && s'.reasm == s1.reasm && s'.seenEvents == s.seenEvents + 1
            && s'.listening == s.listening && s'.streamId == s.streamId
  {
    assert s.reasm.lastDecoded.Some? ==> s.reasm.lastDecoded.value < q;
    TakeFrameCases(s2, q, key, now);
  }

  /** One feed either assembles nothing or assembles exactly one unit. */
  lemma {:induction false} FeedBeginCases(s: State, datagram: seq<u8>, now: int)
    requires InSync(s) && s.handoff.Idle?
    ensures var s' := FeedBegin(s, datagram, now);
            && InSync(s') && (NoUnit(s, s') || NewUnit(s, s'))
            && s'.listening == s.listening && s'.streamId == s.streamId
  {
    var a := Accept(s.streamId, datagram);
    if a.Some? {
      var f := Fragment(a.value);
      RS.PushReports(s.reasm, now, f);
      RS.PushInv(s.reasm, now, f);
      ReactCases(s, f, now, Ingest(s, a.value, datagram, now));
    }
  }

  // ---------------------------------------------------------------- bounded hand-off, conservation, order

  ghost predicate Ascending(us: seq<AccessUnit>) {
    forall i, j :: 0 <= i < j < |us| ==> us[i].frameSeq < us[j].frameSeq
  }

  ghost predicate UpTo(us: seq<AccessUnit>, last: Option<u32>) {
    forall u :: u in us ==> last.Some? && u.frameSeq <= last.value
  }

  /** The unit between the producer's two critical sections, if any. */
  function Held(s: State): seq<AccessUnit> {
    if s.handoff.Ready? then [s.handoff.unit] else []
  }

  /** Every assembled unit has exactly one fate. */
  ghost predicate Fates(s: State) {
    multiset(s.assembled) == multiset(s.popped) + multiset(s.queue) + multiset(s.stale) + multiset(Held(s))
  }

  ghost predicate HandoffOk(s: State) {
    && |s.queue| <= 2 && (s.handoff.Ready? ==> |s.queue| < 2)
    && (s.awaitingKeyframe ==> s.queue == [])
    && s.staleAtDecoder == |s.stale|
  }

  ghost predicate OrderOk(s: State) {
    && Ascending(s.assembled) && UpTo(s.assembled, s.reasm.lastDecoded)
    && Ascending(s.popped + s.queue + Held(s)) && UpTo(s.popped + s.queue + Held(s), s.reasm.lastDecoded)
    && Ascending(s.stale + s.queue + Held(s)) && UpTo(s.stale + s.queue + Held(s), s.reasm.lastDecoded)
  }

  lemma {:induction false} ExtendOrder(us: seq<AccessUnit>, u: AccessUnit, last: Option<u32>)
    requires Ascending(us) && UpTo(us, last)
    requires last.Some? ==> last.value < u.frameSeq
    ensures Ascending(us + [u]) && UpTo(us + [u], Some(u.frameSeq))
  {
    forall i | 0 <= i < |us| ensures us[i].frameSeq < u.frameSeq {
      assert us[i] in us;
    }
  }

  lemma {:induction false} DropMiddle(a: seq<AccessUnit>, b: seq<AccessUnit>, c: seq<AccessUnit>, last: Option<u32>)
    requires Ascending(a + b + c) && UpTo(a + b + c, last)
    ensures Ascending(a + c) && UpTo(a + c, last)
    ensures Ascending(b + c) && UpTo(b + c, last)
  {
    var abc := a + b + c;
    forall i | 0 <= i < |a + c| ensures (a + c)[i] == abc[if i < |a| then i else i + |b|] {}
    forall i | 0 <= i < |b + c| ensures (b + c)[i] == abc[i + |a|] {}
    forall u | u in a + c ensures u in abc {}
    forall u | u in b + c ensures u in abc {}
    assert Ascending(a + c) by {
      forall i, j | 0 <= i < j < |a + c| ensures (a + c)[i].frameSeq < (a + c)[j].frameSeq {
        var i', j' := if i < |a| then i else i + |b|, if j < |a| then j else j + |b|;
        assert abc[i'].frameSeq < abc[j'].frameSeq;
      }
    }
    assert Ascending(b + c) by {
      forall i, j | 0 <= i < j < |b + c| ensures (b + c)[i].frameSeq < (b + c)[j].frameSeq {
        assert abc[i + |a|].frameSeq < abc[j + |a|].frameSeq;
      }
    }
  }

  lemma {:induction false} NewUnitFates(s: State, s': State)
    requires s.handoff.Idle? && Fates(s) && HandoffOk(s)
    requires NewUnit(s, s')
    ensures Fates(s') && HandoffOk(s')
  {
  }

  lemma {:induction false} NewUnitOrder(s: State, s': State)
    requires s.handoff.Idle? && OrderOk(s)
    requires NewUnit(s, s')
    ensures OrderOk(s')
  {
    var u, last := s'.handoff.unit, s.reasm.lastDecoded;
    ExtendOrder(s.assembled, u, last);
    assert s.popped + s.queue + [] == s.popped + s.queue && s.stale + s.queue + [] == s.stale + s.queue;
    ExtendOrder(s.popped + s.queue, u, last);
    ExtendOrder(s.stale + s.queue, u, last);
    if |s.queue| >= 2 {
      DropMiddle(s.popped, s.queue, [u], Some(u.frameSeq));
      assert s'.popped + s'.queue + [u] == s.popped + [u];
      assert s'.stale + s'.queue + [u] == s.stale + s.queue + [u];
    }
  }

  lemma {:induction false} NoUnitKeeps(s: State, s': State)
    requires s.handoff.Idle? && HandoffOk(s) && OrderOk(s) && Fates(s)
    requires NoUnit(s, s')
    ensures HandoffOk(s') && OrderOk(s') && Fates(s')
  {
  }

  /** The second half of a feed rejects the unit into the stale ones or appends it to the queue. */
  lemma {:induction false} FeedEndCases(s: State)
    requires s.handoff.Ready?
    ensures var u, s' := s.handoff.unit, FeedEnd(s);
            && s'.handoff.Idle? && s'.reasm == s.reasm && s'.seenEvents == s.seenEvents
            && s'.assembled == s.assembled && s'.popped == s.popped
            && if s.awaitingKeyframe && !u.keyframe then
                 && s'.queue == s.queue && s'.stale == s.stale + [u]
                 && s'.staleAtDecoder == s.staleAtDecoder + 1 && s'.awaitingKeyframe
               else
                 && s'.queue == s.queue + [u] && s'.stale == s.stale
                 && s'.staleAtDecoder == s.staleAtDecoder && !s'.awaitingKeyframe
  {
  }

  lemma {:induction false} OfferKeeps(s: State)
    requires s.handoff.Ready? && HandoffOk(s) && Fates(s)
    ensures HandoffOk(FeedEnd(s)) && Fates(FeedEnd(s))
  {
    FeedEndCases(s);
    var u, s' := s.handoff.unit, FeedEnd(s);
    assert multiset(s.stale + [u]) == multiset(s.stale) + multiset([u]);
    assert multiset(s.queue + [u]) == multiset(s.queue) + multiset([u]);
  }

  lemma {:induction false} OfferOrder(s: State)
    requires s.handoff.Ready? && OrderOk(s) && HandoffOk(s)
    ensures OrderOk(FeedEnd(s))
  {
    FeedEndCases(s);
    var u, s' := s.handoff.unit, FeedEnd(s);
    if s.awaitingKeyframe && !u.keyframe {
      assert s'.queue == [] && s'.stale == s.stale + [u];
      assert s'.stale + s'.queue + [] == s.stale + s.queue + [u];
      DropMiddle(s.popped + s.queue, [u], [], s.reasm.lastDecoded);
      assert s.popped + s.queue + [u] + [] == s.popped + s.queue + [u];
      assert s'.popped + s'.queue + [] == s.popped + s.queue + [];
    } else {
      assert s'.queue == s.queue + [u] && s'.stale == s.stale;
      assert s'.popped + s'.queue + [] == s.popped + s.queue + [u];
      assert s'.stale + s'.queue + [] == s.stale + s.queue + [u];
    }
  }

  lemma {:induction false} PopFates(s: State)
    requires s.queue != [] && Fates(s)
    ensures Fates(Pop(s))
  {
    assert s.queue == [s.queue[0]] + s.queue[1..];
    assert multiset(s.queue) == multiset([s.queue[0]]) + multiset(s.queue[1..]);
  }

  lemma {:induction false} PopOrder(s: State)
    requires s.queue != [] && OrderOk(s)
    ensures OrderOk(Pop(s))
  {
    var s', first, rest := Pop(s), [s.queue[0]], s.queue[1..] + Held(s);
    assert s.queue == first + s.queue[1..];
    assert s'.popped + s'.queue + Held(s) == s.popped + s.queue + Held(s);
    assert s.stale + s.queue + Held(s) == s.stale + first + rest;
    DropMiddle(s.stale, first, rest, s.reasm.lastDecoded);
    assert s'.stale + s'.queue + Held(s) == s.stale + rest;
  }

  ghost predicate Safe(s: State) {
    InSync(s) && HandoffOk(s) && OrderOk(s) && Fates(s)
  }

  lemma {:induction false} BeginSafe(s: State, datagram: seq<u8>, now: int)
    requires Safe(s) && s.handoff.Idle?
    ensures Safe(FeedBegin(s, datagram, now))
  {
    FeedBeginCases(s, datagram, now);
    var s' := FeedBegin(s, datagram, now);
    if NoUnit(s, s') {
      NoUnitKeeps(s, s');
    } else {
      NewUnitFates(s, s');
      NewUnitOrder(s, s');
    }
  }

  lemma {:induction false} EndSafe(s: State)
    requires Safe(s) && s.handoff.Ready?
    ensures Safe(FeedEnd(s))
  {
    FeedEndCases(s);
    OfferKeeps(s);
    OfferOrder(s);
  }

  lemma {:induction false} NextSafe(s: State, step: Step)
    requires Safe(s)
    ensures Safe(Next(s, step))
  {
    match step
    case BeginFeed(datagram, now) =>
      if s.handoff.Idle? { BeginSafe(s, datagram, now); }
    case EndFeed =>
      if s.handoff.Ready? { EndSafe(s); }
    case PopAu =>
      if s.queue != [] {
        PopFates(s);
        PopOrder(s);
      }
    case StopPops =>
    case ResumePops =>
  }

  lemma {:induction false} RunSafe(listening: bool, streamId: u16, steps: seq<Step>)
    ensures Safe(Run(Init(listening, streamId), steps))
  {
    if steps != [] {
      RunSafe(listening, streamId, steps[..|steps| - 1]);
      NextSafe(Run(Init(listening, streamId), steps[..|steps| - 1]), steps[|steps| - 1]);
    }
  }

  /** At every reachable state of every interleaving, including between the producer's two critical sections:
      at most two units wait, every assembled unit is popped, queued, stale or in the producer's hand and no two
      of these, and the decode thread sees units in the order in which they were assembled. */
  lemma {:induction false} HandoffSafety(listening: bool, streamId: u16, steps: seq<Step>)
    ensures var s := Run(Init(listening, streamId), steps);
            && |s.queue| <= 2
            && multiset(s.assembled) == multiset(s.popped) + multiset(s.queue) + multiset(s.stale) + multiset(Held(s))
            && |s.assembled| == |s.popped| + |s.queue| + s.staleAtDecoder + |Held(s)|
            && Ascending(s.assembled) && Ascending(s.popped + s.queue + Held(s)) && Ascending(s.stale)
  {
    RunSafe(listening, streamId, steps);
    var s := Run(Init(listening, streamId), steps);
    assert |multiset(s.assembled)| == |multiset(s.popped) + multiset(s.queue) + multiset(s.stale) + multiset(Held(s))|;
    DropMiddle(s.stale, s.queue + Held(s), [], s.reasm.lastDecoded) by {
      assert s.stale + (s.queue + Held(s)) + [] == s.stale + s.queue + Held(s);
    }
    assert s.stale + [] == s.stale;
  }
}
