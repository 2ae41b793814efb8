/** What an IDR callback tells the host: the newest good frame, as seen by whichever stage lost the chain. */
module ReceiverReports {
  import opened Base
  import R = Reassembly
  import RS = ReassemblySafety
  import opened VideoReceiver
  import opened ReceiverSafety

  /** Every unit a run hands to the decoder, in order, taken or not. */
  function Queued(s: State, steps: seq<Step>): seq<AccessUnit> {
    if steps == [] then []
    else
      var front, step := steps[..|steps| - 1], steps[|steps| - 1];
      Queued(s, front) + if step.EndFeed? then Passed(Run(s, front)) else []
  }

  /** The unit in hand, if the gate lets it through. */
  function Passed(s: State): seq<AccessUnit> {
    if s.handoff.Ready? && (!s.awaitingKeyframe || s.handoff.unit.keyframe) then [s.handoff.unit] else []
  }

  function NewestSeq(us: seq<AccessUnit>): u32 {
    if us == [] then 0 else us[|us| - 1].frameSeq
  }

  predicate Tracks(s: State, queued: seq<AccessUnit>) {
    s.lastGoodSeq == NewestSeq(queued) && s.counters.framesReceived == |queued|
  }

  lemma {:induction false} ReactKeeps(s: State, now: int)
    ensures React(s, now).lastGoodSeq == s.lastGoodSeq
    ensures React(s, now).counters == s.counters
  {
  }

  lemma {:induction false} BeginKeeps(s: State, datagram: seq<u8>, now: int)
    ensures FeedBegin(s, datagram, now).lastGoodSeq == s.lastGoodSeq
    ensures FeedBegin(s, datagram, now).counters.framesReceived == s.counters.framesReceived
  {
    var a := Accept(s.streamId, datagram);
    if a.Some? {
      ReactKeeps(Ingest(s, a.value, datagram, now), now);
    }
  }

  lemma {:induction false} EndTracks(s: State, queued: seq<AccessUnit>)
    requires Tracks(s, queued)
    ensures Tracks(FeedEnd(s), queued + Passed(s))
  {
  }

  /** Over every interleaving the receiver counts the units it handed over and remembers the newest of them. */
  lemma {:induction false} RunTracks(listening: bool, streamId: u16, steps: seq<Step>)
    ensures Tracks(Run(Init(listening, streamId), steps), Queued(Init(listening, streamId), steps))
  {
    if steps != [] {
      var front, step := steps[..|steps| - 1], steps[|steps| - 1];
      RunTracks(listening, streamId, front);
      var s := Run(Init(listening, streamId), front);
      if step.BeginFeed? {
        BeginKeeps(s, step.datagram, step.now);
      } else if step.EndFeed? {
        EndTracks(s, Queued(Init(listening, streamId), front));
      }
    }
  }

  /** No callback, or exactly one with this content. */
  predicate AtMostOne(before: seq<Request>, after: seq<Request>, t: int, lastGood: u32) {
    after == before || after == before + [Request(t, lastGood)]
  }

  lemma {:induction false} ReactReports(s: State, f: R.Fragment, now: int, s1: State)
    requires s.seenEvents == |s.reasm.events| && s.handoff.Idle?
    requires Ingested(s, f, now, s1)
    ensures AtMostOne(s.requests, React(s1, now).requests, now, R.LastGood(s.reasm.lastDecoded))
  {
    if s1.reasm.events != s.reasm.events {
      var e := s1.reasm.events[s.seenEvents];
      if e.Deliver? {
        TakeFrameCases(s1.(seenEvents := s1.seenEvents + 1), e.frameSeq, e.keyframe, now);
      }
    }
  }

  lemma {:induction false} BeginReports(s: State, datagram: seq<u8>, now: int)
    requires InSync(s) && s.handoff.Idle?
    ensures AtMostOne(s.requests, FeedBegin(s, datagram, now).requests, now, R.LastGood(s.reasm.lastDecoded))
  {
    var a := Accept(s.streamId, datagram);
    if a.Some? {
      RS.PushReports(s.reasm, now, Fragment(a.value));
      ReactReports(s, Fragment(a.value), now, Ingest(s, a.value, datagram, now));
    }
  }

  /** A step makes at most one callback. One made for a gap carries the newest frame the reassembler delivered; one
      made because the decoder fell behind carries the newest unit that was handed to it; 0 stands for none. */
  lemma {:induction false} CallbacksReport(listening: bool, streamId: u16, steps: seq<Step>, step: Step)
    ensures var init := Init(listening, streamId);
            var s := Run(init, steps);
            var s' := Next(s, step);
            if step.BeginFeed? then
              AtMostOne(s.requests, s'.requests, step.now, R.LastGood(RS.LastDelivered(s.reasm.events)))
            else if step.EndFeed? && s.handoff.Ready? then
              AtMostOne(s.requests, s'.requests, s.handoff.now, NewestSeq(Queued(init, steps)))
            else s'.requests == s.requests
  {
    RunSafe(listening, streamId, steps);
    RunTracks(listening, streamId, steps);
    var s := Run(Init(listening, streamId), steps);
    if step.BeginFeed? && s.handoff.Idle? {
      BeginReports(s, step.datagram, step.now);
    }
  }
}
