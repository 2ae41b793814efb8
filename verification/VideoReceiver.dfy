/** Media datagrams to decodable access units. `FeedBegin` and `FeedEnd` specify the producer's work up to
    and including its first critical section and from there to the end; `Pop`, `Stop` and `Resume` are the
    decode thread's and the application's steps. Class `VideoReceiver` is the stateful original. */
module VideoReceiver {
  import opened Base
  import D = Datagram
  import R = Reassembly

  const IDR_MIN_INTERVAL_MS: int := 250
  const MAX_PENDING_AUS: nat := 2
  const CAPTURE_TS_LEN: nat := 8
  const PRUNE_KEEP: int := 4

  /** One decodable frame. `frameSeq` is history: it says which frame the unit came from, and no branch reads it. */
  datatype AccessUnit = AccessUnit(captureTs: u64, data: seq<u8>, keyframe: bool, frameSeq: u32)

  datatype Pending = Pending(count: u16, parts: map<u16, seq<u8>>)

  datatype Counters = Counters(framesReceived: nat, framesDropped: nat, datagrams: nat, bytes: nat)

  /** What the producer holds between its two critical sections. */
  datatype Handoff = Idle | Ready(unit: AccessUnit, now: int)

  /** One call of the IDR callback. */
  datatype Request = Request(t: int, lastGood: u32)

  /** `assembled`, `popped`, `stale` and `requests` are history: every unit assembled, every unit the decode
      thread took, every unit dropped at the decoder's door, and every IDR callback, in order. */
  datatype State = State(
    listening: bool,
    streamId: u16,
    counters: Counters,
    reasm: R.State,
    seenEvents: nat,
    staleAtDecoder: nat,
    awaitingKeyframe: bool,
    lastIdrMs: int,
    lastGoodSeq: u32,
    pending: map<u32, Pending>,
    queue: seq<AccessUnit>,
    stopped: bool,
    handoff: Handoff,
    assembled: seq<AccessUnit>,
    popped: seq<AccessUnit>,
    stale: seq<AccessUnit>,
    requests: seq<Request>)

  function Init(listening: bool, streamId: u16): State {
    State(listening, streamId, Counters(0, 0, 0, 0), R.INIT, 0, 0, false, -1, 0, map[], [], false, Idle, [], [], [], [])
  }

  // ---------------------------------------------------------------- producer steps

  /** The header of a datagram this receiver keeps, if it does. */
  function Accept(streamId: u16, datagram: seq<u8>): (r: Option<D.Header>)
    ensures r.Some? ==> |datagram| >= D.HEADER_LEN && r.value.fragIndex < r.value.fragCount
  {
    match D.Decode(datagram, [streamId])
    case Err(_) => None
    case Ok(d) => if d.header.streamId != streamId then None else Some(d.header)
  }

  function Fragment(h: D.Header): R.Fragment {
    R.Fragment(h.frameSeq, h.fragIndex, h.fragCount, h.keyframe)
  }

  function Stash(pending: map<u32, Pending>, h: D.Header, payload: seq<u8>): map<u32, Pending> {
    var parts := if h.frameSeq in pending then pending[h.frameSeq].parts else map[];
    pending[h.frameSeq := Pending(h.fragCount, parts[h.fragIndex := payload])]
  }

  /** An accepted datagram counted, stashed, and shown to the reassembler. */
  function Ingest(s: State, h: D.Header, datagram: seq<u8>, now: int): State
    requires |datagram| >= D.HEADER_LEN
  {
    s.(counters := s.counters.(datagrams := s.counters.datagrams + 1, bytes := s.counters.bytes + |datagram|),
       pending := Stash(s.pending, h, datagram[D.HEADER_LEN..]),
       reasm := R.AfterPush(s.reasm, now, Fragment(h)))
  }

  /** Everything feed_datagram does up to the release of its first critical section. */
  function FeedBegin(s: State, datagram: seq<u8>, now: int): State {
    match Accept(s.streamId, datagram)
    case None => s
    case Some(h) =>
      var s1 := Ingest(s, h, datagram, now);
      var s2 := React(s1, now);
      if s2.handoff.Idle? then Tidy(s2, h.frameSeq) else s2
  }

  /** Handles the event, if any, that the last fragment caused. */
  function React(s: State, now: int): State {
    if s.seenEvents >= |s.reasm.events| then s
    else
      var e := s.reasm.events[s.seenEvents];
      var s' := s.(seenEvents := s.seenEvents + 1);
      match e
      case Deliver(_, q, key) => TakeFrame(s', q, key, now)
      case IdrRequest(_, good) => Requested(s', good, now)
  }

  predicate Assemblable(pending: map<u32, Pending>, q: u32) {
    q in pending && |pending[q].parts| == pending[q].count
  }

  /** The parts 0 to n - 1 in order; one that is missing counts as empty. */
  function Join(parts: map<u16, seq<u8>>, n: nat): seq<u8> {
    if n == 0 then [] else Join(parts, n - 1) + (if n - 1 in parts then parts[n - 1] else [])
  }

  function UnitOf(body: seq<u8>, keyframe: bool, q: u32): AccessUnit
    requires |body| > CAPTURE_TS_LEN
  {
    FromBEBound(body[..CAPTURE_TS_LEN]);
    PowValues();
    AccessUnit(FromBE(body[..CAPTURE_TS_LEN]), body[CAPTURE_TS_LEN..], keyframe, q)
  }

  /** Assembles a delivered frame and, under the lock, drops what the decoder has not taken in time. */
  function TakeFrame(s: State, q: u32, keyframe: bool, now: int): State {
    if !Assemblable(s.pending, q) then s
    else
      var body := Join(s.pending[q].parts, s.pending[q].count);
      var s1 := s.(pending := s.pending - {q});
      if |body| <= CAPTURE_TS_LEN then s1
      else
        var unit := UnitOf(body, keyframe, q);
        DropOverrun(s1.(assembled := s1.assembled + [unit], handoff := Ready(unit, now)))
  }

  function DropOverrun(s: State): State {
    if |s.queue| < MAX_PENDING_AUS then s
    else s.(staleAtDecoder := s.staleAtDecoder + |s.queue|, stale := s.stale + s.queue, queue := [],
            awaitingKeyframe := true)
  }

  /** The rest of feed_datagram: the reference-chain gate, the push under the lock, and the tidying up. */
  function FeedEnd(s: State): State {
    match s.handoff
    case Idle => s
    case Ready(unit, now) => Tidy(Offer(s.(handoff := Idle), unit, now), unit.frameSeq)
  }

  function Offer(s: State, unit: AccessUnit, now: int): State {
    if s.awaitingKeyframe && !unit.keyframe then
      Requested(s.(staleAtDecoder := s.staleAtDecoder + 1, stale := s.stale + [unit]), s.lastGoodSeq, now)
    else
      s.(awaitingKeyframe := false, lastGoodSeq := unit.frameSeq, queue := s.queue + [unit],
         counters := s.counters.(framesReceived := s.counters.framesReceived + 1))
  }

  function Requested(s: State, lastGood: u32, now: int): State {
    if !s.listening || (s.lastIdrMs >= 0 && now - s.lastIdrMs < IDR_MIN_INTERVAL_MS) then s
    else s.(lastIdrMs := now, requests := s.requests + [Request(now, lastGood)])
  }

  /** Totals the drop counters and forgets payloads more than PRUNE_KEEP frames behind `newest`. */
  function Tidy(s: State, newest: u32): State {
    s.(counters := s.counters.(framesDropped := DropTotal(s.reasm.counters, s.staleAtDecoder)),
       pending := Pruned(s.pending, newest))
  }

  function DropTotal(c: R.Counters, staleAtDecoder: nat): nat {
    c.droppedIncomplete + c.discardedGap + c.staleFragments + staleAtDecoder
  }

  function Pruned(pending: map<u32, Pending>, newest: u32): map<u32, Pending> {
    map k | k in pending && k >= newest - PRUNE_KEEP :: pending[k]
  }

  // ---------------------------------------------------------------- consumer steps

  /** Enabled when a unit is queued or the receiver is stopped; otherwise the decode thread stays blocked. */
  function Pop(s: State): State {
    if s.queue == [] then s else s.(queue := s.queue[1..], popped := s.popped + [s.queue[0]])
  }

  // ---------------------------------------------------------------- the original, in place

  /** `ev'` is `ev` with at most one event added, which if it delivers a frame delivers q. */
  predicate AtMostOneMore(ev: seq<R.Event>, ev': seq<R.Event>, q: u32) {
    || ev' == ev
    || (|ev'| == |ev| + 1 && ev'[..|ev|] == ev && (ev'[|ev|].Deliver? ==> ev'[|ev|].frameSeq == q))
  }

  lemma {:induction false} InsertOneEvent(r: R.State, now: int, f: R.Fragment)
    requires f.frameSeq in r.incomplete
    ensures AtMostOneMore(r.events, R.Insert(r, now, f).events, f.frameSeq)
  {
  }

  /** A push makes the reassembler report at most one event. */
  lemma {:induction false} OneEvent(r: R.State, now: int, f: R.Fragment)
    ensures AtMostOneMore(r.events, R.AfterPush(r, now, f).events, f.frameSeq)
  {
    if f.frameSeq > r.newestComplete {
      if f.frameSeq in r.incomplete {
        InsertOneEvent(r, now, f);
      } else if |r.incomplete| < R.WINDOW {
        InsertOneEvent(R.Open(r, f), now, f);
      } else if f.frameSeq > R.MinOf(r.incomplete.Keys) {
        InsertOneEvent(R.Open(R.Evict(r, R.MinOf(r.incomplete.Keys)), f), now, f);
      }
    }
  }

  /** With no decode-thread step in between, a feed is: record, react to the event, settle, tidy up. */
  lemma {:induction false} FeedSequential(s: State, h: D.Header, datagram: seq<u8>, now: int)
    requires s.seenEvents == |s.reasm.events| && s.handoff.Idle?
    requires Accept(s.streamId, datagram) == Some(h)
    ensures var s1 := Ingest(s, h, datagram, now);
            && s1.seenEvents <= |s1.reasm.events| <= s1.seenEvents + 1
            && FeedEnd(FeedBegin(s, datagram, now)) == Tidy(Settled(React(s1, now)), h.frameSeq)
  {
    OneEvent(s.reasm, now, Fragment(h));
    var s1 := Ingest(s, h, datagram, now);
    var s2 := React(s1, now);
    assert s2.handoff.Ready? ==> s2.handoff.unit.frameSeq == h.frameSeq;
  }

  class VideoReceiver {
    const listening: bool
    const streamId: u16
    const reasm: R.Reassembler
    var counters: Counters
    var seenEvents: nat
    var staleAtDecoder: nat
    var awaitingKeyframe: bool
    var lastIdrMs: int
    var lastGoodSeq: u32
    var pending: map<u32, Pending>
    var queue: seq<AccessUnit>
    var stopped: bool
    ghost var assembled: seq<AccessUnit>
    ghost var popped: seq<AccessUnit>
    ghost var stale: seq<AccessUnit>
    ghost var requests: seq<Request>

    /** Between calls every event of the reassembler has been handled. */
    ghost predicate Valid()
      reads this, reasm
    {
      seenEvents == |reasm.events|
    }

    /** The abstract state; `handoff` stands for the producer's local variables. */
    ghost function Model(handoff: Handoff): State
      reads this, reasm
    {
      State(listening, streamId, counters, reasm.Model(), seenEvents, staleAtDecoder, awaitingKeyframe, lastIdrMs,
            lastGoodSeq, pending, queue, stopped, handoff, assembled, popped, stale, requests)
    }

    constructor (listening: bool, streamId: u16)
      ensures Valid() && fresh(reasm)
      ensures Model(Idle) == Init(listening, streamId)
    {
      this.listening, this.streamId := listening, streamId;
      reasm := new R.Reassembler();
      counters, seenEvents, staleAtDecoder := Counters(0, 0, 0, 0), 0, 0;
      awaitingKeyframe, lastIdrMs, lastGoodSeq := false, -1, 0;
      pending, queue, stopped := map[], [], false;
      assembled, popped, stale, requests := [], [], [], [];
    }

    /** One datagram with no decode-thread step in between; the atomic parts are the two methods below. */
    method FeedDatagram(datagram: seq<u8>, now: int)
      requires Valid()
      modifies this, reasm
      ensures Valid()
      ensures Model(Idle) == FeedEnd(FeedBegin(old(Model(Idle)), datagram, now))
    {
      var decoded := D.DecodeWithStreams(datagram, [streamId]);
      if decoded.Err? { return; }
      var h := decoded.value.header;
      if h.streamId != streamId { return; }
      FeedSequential(Model(Idle), h, datagram, now);
      Record(h, datagram, now);
      HandleEvents(now);
      TidyUp(h.frameSeq);
    }

    /** Counts an accepted datagram, keeps its payload for assembly, and shows its header to the reassembler. */
    method Record(h: D.Header, datagram: seq<u8>, now: int)
      requires |datagram| >= D.HEADER_LEN
      modifies this`counters, this`pending, reasm
      ensures Model(Idle) == Ingest(old(Model(Idle)), h, datagram, now)
    {
      counters := counters.(datagrams := counters.datagrams + 1, bytes := counters.bytes + |datagram|);
      var parts := if h.frameSeq in pending then pending[h.frameSeq].parts else map[];
      pending := pending[h.frameSeq := Pending(h.fragCount, parts[h.fragIndex := datagram[D.HEADER_LEN..]])];
      reasm.Push(now, Fragment(h));
    }

    method TidyUp(newest: u32)
      modifies this`counters, this`pending
      ensures Model(Idle) == Tidy(old(Model(Idle)), newest)
    {
      counters := counters.(framesDropped := DropTotal(reasm.counters, staleAtDecoder));
      Prune(newest);
    }

    /** The loop over unhandled events, of which a push leaves at most one. */
    method HandleEvents(now: int)
      requires seenEvents <= |reasm.events| <= seenEvents + 1
      modifies this
      ensures Valid()
      ensures Model(Idle) == Settled(React(old(Model(Idle)), now))
    {
      ghost var s := Model(Idle);
      while seenEvents < |reasm.events|
        invariant seenEvents <= |reasm.events| <= s.seenEvents + 1
        invariant seenEvents == s.seenEvents ==> Model(Idle) == s
        invariant seenEvents > s.seenEvents ==> Model(Idle) == Settled(React(s, now))
        decreases |reasm.events| - seenEvents
      {
        HandleEvent(now);
      }
    }

    /** The body of that loop. */
    method HandleEvent(now: int)
      requires seenEvents < |reasm.events|
      modifies this
      ensures seenEvents == old(seenEvents) + 1
      ensures Model(Idle) == Settled(React(old(Model(Idle)), now))
    {
      var e := reasm.events[seenEvents];
      seenEvents := seenEvents + 1;
      if e.Deliver? {
        var handoff := BeginDeliver(e.frameSeq, e.keyframe, now);
        FinishDeliver(handoff);
      } else {
        RequestIdr(e.lastGood, now);
      }
    }

    /** deliver_frame up to and including its first critical section. */
    method BeginDeliver(q: u32, keyframe: bool, now: int) returns (handoff: Handoff)
      modifies this`pending, this`assembled, this`staleAtDecoder, this`stale, this`queue, this`awaitingKeyframe
      ensures Model(handoff) == TakeFrame(old(Model(Idle)), q, keyframe, now)
    {
      handoff := Idle;
      if q !in pending || |pending[q].parts| != pending[q].count { return; }
      var body := JoinParts(pending[q]);
      pending := pending - {q};
      if |body| <= CAPTURE_TS_LEN { return; }
      var captureTs := ReadCaptureTs(body);
      var unit := AccessUnit(captureTs, body[CAPTURE_TS_LEN..], keyframe, q);
      assembled := assembled + [unit];
      handoff := Ready(unit, now);
      DropStale(handoff);
    }

    /** The first critical section of deliver_frame, and the flag set right after it. */
    method DropStale(ghost handoff: Handoff)
      modifies this`staleAtDecoder, this`stale, this`queue, this`awaitingKeyframe
      ensures Model(handoff) == DropOverrun(old(Model(handoff)))
    {
      if |queue| >= MAX_PENDING_AUS {
        staleAtDecoder := staleAtDecoder + |queue|;
        stale := stale + queue;
        queue := [];
        awaitingKeyframe := true;
      }
    }

    static method JoinParts(p: Pending) returns (body: seq<u8>)
      ensures body == Join(p.parts, p.count)
    {
      body := [];
      var i := 0;
      while i < p.count
        invariant 0 <= i <= p.count
        invariant body == Join(p.parts, i)
      {
        if i in p.parts { body := body + p.parts[i]; }
        i := i + 1;
      }
    }

    static method ReadCaptureTs(body: seq<u8>) returns (captureTs: u64)
      requires |body| > CAPTURE_TS_LEN
      ensures captureTs == FromBE(body[..CAPTURE_TS_LEN])
    {
      captureTs := 0;
      var i := 0;
      PowValues();
      while i < CAPTURE_TS_LEN
        invariant 0 <= i <= CAPTURE_TS_LEN
        invariant captureTs == FromBE(body[..i])
      {
        assert body[..i + 1][..i] == body[..i];
        FromBEBound(body[..i + 1]);
        PowMonotone(i + 1, CAPTURE_TS_LEN);
        captureTs := 256 * captureTs + body[i];
        i := i + 1;
      }
    }

    /** deliver_frame after its first critical section. */
    method FinishDeliver(handoff: Handoff)
      modifies this`staleAtDecoder, this`stale, this`awaitingKeyframe, this`lastGoodSeq, this`counters, this`queue,
               this`lastIdrMs, this`requests
      ensures Model(Idle) == Settled(old(Model(handoff)))
    {
      if handoff.Idle? { return; }
      if awaitingKeyframe && !handoff.unit.keyframe {
        Reject(handoff.unit, handoff.now);
        return;
      }
      PassOn(handoff.unit, handoff.now);
    }

    /** A dependent unit that waits for the IDR. */
    method Reject(unit: AccessUnit, now: int)
      requires awaitingKeyframe && !unit.keyframe
      modifies this`staleAtDecoder, this`stale, this`lastIdrMs, this`requests
      ensures Model(Idle) == Offer(old(Model(Idle)), unit, now)
    {
      staleAtDecoder := staleAtDecoder + 1;
      stale := stale + [unit];
      RequestIdr(lastGoodSeq, now);
    }

    /** A unit the decoder can use; the push is the second critical section. */
    method PassOn(unit: AccessUnit, ghost now: int)
      requires awaitingKeyframe ==> unit.keyframe
      modifies this`awaitingKeyframe, this`lastGoodSeq, this`counters, this`queue
      ensures Model(Idle) == Offer(old(Model(Idle)), unit, now)
    {
      awaitingKeyframe := false;
      lastGoodSeq := unit.frameSeq;
      counters := counters.(framesReceived := counters.framesReceived + 1);
      queue := queue + [unit];
    }

    method RequestIdr(lastGood: u32, now: int)
      modifies this`lastIdrMs, this`requests
      ensures forall h :: Model(h) == Requested(old(Model(h)), lastGood, now)
    {
      if !listening { return; }
      if lastIdrMs >= 0 && now - lastIdrMs < IDR_MIN_INTERVAL_MS { return; }
      lastIdrMs := now;
      requests := requests + [Request(now, lastGood)];
    }

    method Prune(newest: u32)
      modifies this`pending
      ensures pending == Pruned(old(pending), newest)
    {
      while pending != map[]
        invariant forall k :: k in pending ==> k in old(pending) && pending[k] == old(pending)[k]
        invariant forall k :: k in old(pending) && k >= newest - PRUNE_KEEP ==> k in pending
        decreases |pending|
      {
        var oldest := R.MinOf(pending.Keys);
        if newest > PRUNE_KEEP && oldest < newest - PRUNE_KEEP {
          pending := pending - {oldest};
        } else {
          break;
        }
      }
    }

    /** One decode-thread step; called only when it does not block. */
    method PopAu() returns (unit: Option<AccessUnit>)
      requires stopped || queue != []
      modifies this`queue, this`popped
      ensures forall h :: Model(h) == Pop(old(Model(h)))
      ensures unit == if old(queue) == [] then None else Some(old(queue)[0])
    {
      if queue == [] { return None; }
      unit := Some(queue[0]);
      popped := popped + [queue[0]];
      queue := queue[1..];
    }

    method Stop()
      modifies this`stopped
      ensures stopped
    {
      stopped := true;
    }

    method Resume()
      modifies this`stopped
      ensures !stopped
    {
      stopped := false;
    }
  }

  /** A state after the unit in hand, if any, has passed the gate. */
  function Settled(s: State): State {
    match s.handoff
    case Idle => s
    case Ready(unit, now) => Offer(s.(handoff := Idle), unit, now)
  }

  lemma {:induction false} PowMonotone(m: nat, n: nat)
    requires m <= n
    ensures Pow256(m) <= Pow256(n)
  {
    if m < n {
      PowMonotone(m, n - 1);
    }
  }
}
