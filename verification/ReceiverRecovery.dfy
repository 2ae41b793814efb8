/** IDR requests: two rate limiters in series keep the distance, and neither lets recovery go quiet. */
module ReceiverRecovery {
  import opened Base
  import R = Reassembly
  import RS = ReassemblySafety
  import opened VideoReceiver
  import opened ReceiverSafety

  /** The limiter remembers the newest request, and requests made after time zero keep their distance. */
  ghost predicate Limited(requests: seq<Request>, lastIdrMs: int) {
    && lastIdrMs == (if requests == [] then -1 else requests[|requests| - 1].t)
    && forall i :: 0 <= i < |requests| - 1 && requests[i].t >= 0 ==>
         requests[i + 1].t - requests[i].t >= 250
  }

  lemma {:induction false} RequestedLimited(s: State, good: u32, now: int)
    requires Limited(s.requests, s.lastIdrMs)
    ensures Limited(Requested(s, good, now).requests, Requested(s, good, now).lastIdrMs)
    ensures s.listening ==>
              var s' := Requested(s, good, now);
              s'.requests != [] && s'.requests[|s'.requests| - 1].t > now - 250
  {
  }

  /** How a feed's first half treats the callback: once if the reassembler asks, else not at all. */
  lemma {:induction false} FeedBeginRequests(s: State, datagram: seq<u8>, now: int)
    requires InSync(s) && s.handoff.Idle?
    ensures var s' := FeedBegin(s, datagram, now);
            && (|| s' == s
                || (s'.reasm.idrLast == s.reasm.idrLast && s'.requests == s.requests && s'.lastIdrMs == s.lastIdrMs)
                || (s'.reasm.idrLast == Some(now)
                    && exists good ::
                         var q := Requested(s, good, now); s'.requests == q.requests && s'.lastIdrMs == q.lastIdrMs))
            && s'.listening == s.listening
  {
    var a := Accept(s.streamId, datagram);
    if a.Some? {
      RS.PushReports(s.reasm, now, Fragment(a.value));
      ReactRequests(s, Fragment(a.value), now, Ingest(s, a.value, datagram, now));
    }
  }

  lemma {:induction false} ReactRequests(s: State, f: R.Fragment, now: int, s1: State)
    requires s.seenEvents == |s.reasm.events| && s.handoff.Idle?
    requires Ingested(s, f, now, s1)
    ensures var s' := React(s1, now);
            && (|| (s'.reasm.idrLast == s.reasm.idrLast && s'.requests == s.requests && s'.lastIdrMs == s.lastIdrMs)
                || (s'.reasm.idrLast == Some(now)
                    && exists good ::
                         var q := Requested(s, good, now); s'.requests == q.requests && s'.lastIdrMs == q.lastIdrMs))
            && s'.listening == s.listening
  {
    if s1.reasm.events != s.reasm.events {
      var e := s1.reasm.events[s.seenEvents];
      var s2 := s1.(seenEvents := s1.seenEvents + 1);
      if e.Deliver? {
        TakeFrameCases(s2, e.frameSeq, e.keyframe, now);
      } else {
        var q := Requested(s, e.lastGood, now);
        assert React(s1, now).requests == q.requests && React(s1, now).lastIdrMs == q.lastIdrMs;
      }
    }
  }

  lemma {:induction false} NextLimited(s: State, step: Step)
    requires InSync(s) && Limited(s.requests, s.lastIdrMs)
    ensures Limited(Next(s, step).requests, Next(s, step).lastIdrMs)
  {
    match step
    case BeginFeed(datagram, now) =>
      if s.handoff.Idle? {
        FeedBeginRequests(s, datagram, now);
        var s' := FeedBegin(s, datagram, now);
        if s'.requests != s.requests {
          var good :| var q := Requested(s, good, now); s'.requests == q.requests && s'.lastIdrMs == q.lastIdrMs;
          RequestedLimited(s, good, now);
        }
      }
    case EndFeed =>
      if s.handoff.Ready? {
        RequestedLimited(s.(handoff := Idle, staleAtDecoder := s.staleAtDecoder + 1,
                             stale := s.stale + [s.handoff.unit]),
                         s.lastGoodSeq, s.handoff.now);
      }
    case _ =>
  }

  lemma {:induction false} RunLimited(listening: bool, streamId: u16, steps: seq<Step>)
    ensures var s := Run(Init(listening, streamId), steps); Limited(s.requests, s.lastIdrMs)
  {
    if steps != [] {
      var s := Run(Init(listening, streamId), steps[..|steps| - 1]);
      RunLimited(listening, streamId, steps[..|steps| - 1]);
      RunSafe(listening, streamId, steps[..|steps| - 1]);
      NextLimited(s, steps[|steps| - 1]);
    }
  }

  // ---------------------------------------------------------------- clocks that start at zero

  /** No datagram arrives before time zero. */
  ghost predicate AfterZero(steps: seq<Step>) {
    forall i :: 0 <= i < |steps| && steps[i].BeginFeed? ==> steps[i].now >= 0
  }

  /** Every time the reassembler has asked, a callback is less than 250 ms older than that. */
  ghost predicate Answered(s: State) {
    && (s.handoff.Ready? ==> s.handoff.now >= 0)
    && (forall i :: 0 <= i < |s.requests| ==> s.requests[i].t >= 0)
    && (s.listening && s.reasm.idrLast.Some? ==>
          s.requests != [] && s.requests[|s.requests| - 1].t > s.reasm.idrLast.value - 250)
  }

  lemma {:induction false} RequestedAnswers(s: State, good: u32, now: int)
    requires Limited(s.requests, s.lastIdrMs) && Answered(s) && now >= 0
    ensures var s' := Requested(s, good, now);
            && (forall i :: 0 <= i < |s'.requests| ==> s'.requests[i].t >= 0)
            && (s.requests != [] ==>
                  s'.requests != [] && s'.requests[|s'.requests| - 1].t >= s.requests[|s.requests| - 1].t)
  {
  }

  /** A new callback at `now`, less than 250 ms after anything the reassembler asked for up to then. */
  lemma {:induction false} RequestAnswered(s: State, good: u32, now: int, s': State)
    requires Limited(s.requests, s.lastIdrMs) && Answered(s) && now >= 0
    requires var q := Requested(s, good, now); s'.requests == q.requests && s'.lastIdrMs == q.lastIdrMs
    requires s'.listening == s.listening && (s'.handoff.Ready? ==> s'.handoff.now >= 0)
    requires s'.reasm.idrLast == s.reasm.idrLast || s'.reasm.idrLast == Some(now)
    ensures Answered(s')
  {
    RequestedLimited(s, good, now);
    RequestedAnswers(s, good, now);
  }

  lemma {:induction false} BeginAnswered(s: State, datagram: seq<u8>, now: int)
    requires InSync(s) && s.handoff.Idle? && Limited(s.requests, s.lastIdrMs) && Answered(s) && now >= 0
    ensures Answered(FeedBegin(s, datagram, now))
  {
    FeedBeginRequests(s, datagram, now);
    HandoffTime(s, datagram, now);
    var s' := FeedBegin(s, datagram, now);
    if s' != s && !(s'.reasm.idrLast == s.reasm.idrLast && s'.requests == s.requests) {
      var good :| var q := Requested(s, good, now); s'.requests == q.requests && s'.lastIdrMs == q.lastIdrMs;
      RequestAnswered(s, good, now, s');
    }
  }

  lemma {:induction false} EndAnswered(s: State)
    requires s.handoff.Ready? && Limited(s.requests, s.lastIdrMs) && Answered(s)
    ensures Answered(FeedEnd(s))
  {
    FeedEndCases(s);
    FeedEndRequests(s);
    if s.awaitingKeyframe && !s.handoff.unit.keyframe {
      RequestAnswered(s, s.lastGoodSeq, s.handoff.now, FeedEnd(s));
    }
  }

  lemma {:induction false} NextAnswered(s: State, step: Step)
    requires InSync(s) && Limited(s.requests, s.lastIdrMs) && Answered(s)
    requires step.BeginFeed? ==> step.now >= 0
    ensures Answered(Next(s, step))
  {
    match step
    case BeginFeed(datagram, now) =>
      if s.handoff.Idle? { BeginAnswered(s, datagram, now); }
    case EndFeed =>
      if s.handoff.Ready? { EndAnswered(s); }
    case _ =>
  }

  lemma {:induction false} FeedEndRequests(s: State)
    requires s.handoff.Ready?
    ensures var s', q := FeedEnd(s), Requested(s, s.lastGoodSeq, s.handoff.now);
            && s'.listening == s.listening
            && if s.awaitingKeyframe && !s.handoff.unit.keyframe then
                 s'.requests == q.requests && s'.lastIdrMs == q.lastIdrMs
               else s'.requests == s.requests && s'.lastIdrMs == s.lastIdrMs
  {
  }

  lemma {:induction false} HandoffTime(s: State, datagram: seq<u8>, now: int)
    requires InSync(s) && s.handoff.Idle?
    ensures FeedBegin(s, datagram, now).handoff.Ready? ==> FeedBegin(s, datagram, now).handoff.now == now
  {
    var a := Accept(s.streamId, datagram);
    if a.Some? {
      var s1 := Ingest(s, a.value, datagram, now);
      ReactTime(s1, now);
    }
  }

  lemma {:induction false} ReactTime(s: State, now: int)
    requires s.handoff.Idle?
    ensures React(s, now).handoff.Ready? ==> React(s, now).handoff.now == now
  {
    if s.seenEvents < |s.reasm.events| && s.reasm.events[s.seenEvents].Deliver? {
      var e := s.reasm.events[s.seenEvents];
      TakeFrameCases(s.(seenEvents := s.seenEvents + 1), e.frameSeq, e.keyframe, now);
    }
  }

  lemma {:induction false} RunAnswered(listening: bool, streamId: u16, steps: seq<Step>)
    requires AfterZero(steps)
    ensures Answered(Run(Init(listening, streamId), steps))
  {
    if steps != [] {
      var before := steps[..|steps| - 1];
      assert forall i :: 0 <= i < |before| ==> before[i] == steps[i];
      RunAnswered(listening, streamId, before);
      RunLimited(listening, streamId, before);
      RunSafe(listening, streamId, before);
      NextAnswered(Run(Init(listening, streamId), before), steps[|steps| - 1]);
    }
  }

  lemma {:induction false} Spaced(requests: seq<Request>, i: nat, j: nat)
    requires forall k :: 0 <= k < |requests| ==> requests[k].t >= 0
    requires forall k :: 0 <= k < |requests| - 1 ==> requests[k + 1].t - requests[k].t >= 250
    requires i < j < |requests|
    ensures requests[j].t - requests[i].t >= 250
  {
    if i + 1 < j {
      Spaced(requests, i, j - 1);
    }
    assert requests[j - 1 + 1].t - requests[j - 1].t >= 250;
  }

  /** Over every interleaving, any two callbacks, whichever source asked for them, are at least 250 ms apart. */
  lemma {:induction false} RequestsSpaced(listening: bool, streamId: u16, steps: seq<Step>)
    requires AfterZero(steps)
    ensures var rs := Run(Init(listening, streamId), steps).requests;
            forall i, j :: 0 <= i < j < |rs| ==> rs[j].t - rs[i].t >= 250
  {
    RunLimited(listening, streamId, steps);
    RunAnswered(listening, streamId, steps);
    var rs := Run(Init(listening, streamId), steps).requests;
    forall i, j | 0 <= i < j < |rs| ensures rs[j].t - rs[i].t >= 250 {
      Spaced(rs, i, j);
    }
  }

  /** Exactly when the assumption is needed: after a callback, the limiter keeps every later one 250 ms away if and
      only if that callback's time was not negative, because the sentinel -1 makes any negative time mean "never". */
  lemma {:induction false} LimiterArmed(s: State)
    requires s.listening && s.requests != [] && Limited(s.requests, s.lastIdrMs)
    ensures (forall good, now :: var s' := Requested(s, good, now);
               s'.requests != s.requests ==> now - s.requests[|s.requests| - 1].t >= 250)
            <==> s.requests[|s.requests| - 1].t >= 0
  {
    if s.lastIdrMs < 0 {
      var s' := Requested(s, 0, s.lastIdrMs);
      assert |s'.requests| == |s.requests| + 1;
    }
  }

  /** A frame discarded for a gap at time `now` finds a callback later than now - 500. */
  lemma {:induction false} GapNeverQuiet(streamId: u16, steps: seq<Step>, datagram: seq<u8>, now: int)
    requires AfterZero(steps) && now >= 0
    ensures var s := Run(Init(true, streamId), steps);
            var s' := FeedBegin(s, datagram, now);
            s.handoff.Idle? && s'.reasm.counters.discardedGap > s.reasm.counters.discardedGap ==>
              Recent(s'.requests, now - 500)
  {
    var s := Run(Init(true, streamId), steps);
    if s.handoff.Idle? && FeedBegin(s, datagram, now).reasm.counters.discardedGap > s.reasm.counters.discardedGap {
      GapAsked(streamId, steps, s, datagram, now);
    }
  }

  /** There is a callback, and the newest is later than t. */
  predicate Recent(requests: seq<Request>, t: int) {
    requests != [] && requests[|requests| - 1].t > t
  }

  lemma {:induction false} GapAsked(streamId: u16, steps: seq<Step>, s: State, datagram: seq<u8>, now: int)
    requires AfterZero(steps) && now >= 0 && s == Run(Init(true, streamId), steps) && s.handoff.Idle?
    requires FeedBegin(s, datagram, now).reasm.counters.discardedGap > s.reasm.counters.discardedGap
    ensures Recent(FeedBegin(s, datagram, now).requests, now - 500)
  {
    RunAnswered(true, streamId, steps);
    RunLimited(true, streamId, steps);
    RunSafe(true, streamId, steps);
    RunListening(true, streamId, steps);
    NextAnswered(s, BeginFeed(datagram, now));
    FeedBeginCases(s, datagram, now);
    var a := Accept(s.streamId, datagram);
    FeedReasm(s, datagram, now);
    RS.GapAnswered(s.reasm, now, Fragment(a.value));
  }

  lemma {:induction false} FeedReasm(s: State, datagram: seq<u8>, now: int)
    requires InSync(s) && s.handoff.Idle?
    ensures var a := Accept(s.streamId, datagram);
            FeedBegin(s, datagram, now).reasm ==
              if a.None? then s.reasm else R.AfterPush(s.reasm, now, Fragment(a.value))
  {
    var a := Accept(s.streamId, datagram);
    if a.Some? {
      RS.PushReports(s.reasm, now, Fragment(a.value));
      ReactCases(s, Fragment(a.value), now, Ingest(s, a.value, datagram, now));
    }
  }

  lemma {:induction false} RunListening(listening: bool, streamId: u16, steps: seq<Step>)
    ensures Run(Init(listening, streamId), steps).listening == listening
    ensures Run(Init(listening, streamId), steps).streamId == streamId
  {
    if steps != [] {
      var before := steps[..|steps| - 1];
      RunListening(listening, streamId, before);
      RunSafe(listening, streamId, before);
      NextListening(Run(Init(listening, streamId), before), steps[|steps| - 1]);
    }
  }

  lemma {:induction false} NextListening(s: State, step: Step)
    requires InSync(s)
    ensures Next(s, step).listening == s.listening && Next(s, step).streamId == s.streamId
  {
    if step.BeginFeed? {
      if s.handoff.Idle? { FeedBeginCases(s, step.datagram, step.now); }
    } else if step.EndFeed? && s.handoff.Ready? {
      EndListening(s);
    }
  }

  lemma {:induction false} EndListening(s: State)
    ensures FeedEnd(s).listening == s.listening && FeedEnd(s).streamId == s.streamId
  {
  }

  /** A unit rejected for want of a keyframe at time `now` finds a callback later than now - 250. */
  lemma {:induction false} AwaitingNeverQuiet(streamId: u16, steps: seq<Step>)
    ensures var s := Run(Init(true, streamId), steps);
            s.handoff.Ready? && s.awaitingKeyframe && !s.handoff.unit.keyframe ==>
              Recent(FeedEnd(s).requests, s.handoff.now - 250)
  {
    var s := Run(Init(true, streamId), steps);
    RunLimited(true, streamId, steps);
    RunListening(true, streamId, steps);
    if s.handoff.Ready? {
      RequestedLimited(s, s.lastGoodSeq, s.handoff.now);
      FeedEndRequests(s);
    }
  }
}
