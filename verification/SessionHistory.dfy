/** What a run's acknowledgements and clock estimate owe to the frames it handled: every CONFIG is answered with its own
    generation, and the estimate is the filter's choice among the pongs received. */
module SessionHistory {
  import opened Base
  import opened Cbor
  import Control
  import Clock = ClockSync
  import opened Session
  import opened SessionRuns
  import Runs = SessionRuns

  // ---------------------------------------------------------------- the frames a run handles

  /** What a frame decoded to, when it arrived, and the state that met it. */
  datatype Handled = Handled(before: State, decoded: Result<Control.Decoded, Control.ControlError>, nowUs: int)

  function Handles(s: State, frame: seq<u8>, nowUs: int): Handled {
    Handled(s, Control.DecodeFrame(frame), nowUs)
  }

  /** A complete frame within the limit is at the front. */
  predicate HasFrame(rx: seq<u8>) {
    |rx| >= 4 && Control.FrameLen(rx) <= 65536 && |rx| >= 4 + Control.FrameLen(rx)
  }

  function DrainTrace(s: State, rx: seq<u8>, nowUs: int): seq<Handled>
    decreases |rx|, 0
  {
    if !HasFrame(rx) then []
    else
      var n := 4 + Control.FrameLen(rx);
      [Handles(s, rx[..n], nowUs)] + CarriedTrace(AfterFrame(s, rx[..n], nowUs), rx[n..], nowUs)
  }

  function CarriedTrace(s: State, rest: seq<u8>, nowUs: int): seq<Handled>
    decreases |rest|, 1
  {
    if Terminal(s) then [] else DrainTrace(s, rest, nowUs)
  }

  /** Every frame a run handles, in order. */
  function Trace(params: HelloParams, inputs: seq<Input>): seq<Handled> {
    if inputs == [] then []
    else
      var front, last := inputs[..|inputs| - 1], inputs[|inputs| - 1];
      var c := Run(params, front);
      Trace(params, front)
      + if last.OnBytes? && !Terminal(c.state) then DrainTrace(c.state, c.rx + last.bytes, last.nowUs) else []
  }

  /** Handling a frame, and failing on an over-limit length, keep the relation of a state to the frames handled. */
  ghost predicate Kept(inv: (State, seq<Handled>) -> bool, nowUs: int) {
    && (forall s, hs, frame :: inv(s, hs) ==> inv(AfterFrame(s, frame, nowUs), hs + [Handles(s, frame, nowUs)]))
    && (forall s, hs :: inv(s, hs) ==> inv(Fail(s, PROTOCOL_VIOLATION), hs))
  }

  /** Then so does draining the buffer. */
  lemma {:induction false} DrainKeeps(
      inv: (State, seq<Handled>) -> bool, s: State, rx: seq<u8>, nowUs: int, hs: seq<Handled>)
    requires Kept(inv, nowUs) && inv(s, hs)
    ensures inv(Drain(s, rx, nowUs).state, hs + DrainTrace(s, rx, nowUs))
    decreases |rx|, 0
  {
    if HasFrame(rx) {
      var n := 4 + Control.FrameLen(rx);
      var h, s' := Handles(s, rx[..n], nowUs), AfterFrame(s, rx[..n], nowUs);
      CarriedKeeps(inv, s', rx[n..], nowUs, hs + [h]);
      Assoc(hs, [h], CarriedTrace(s', rx[n..], nowUs));
    } else {
      assert hs + [] == hs;
    }
  }

  lemma {:induction false} CarriedKeeps(
      inv: (State, seq<Handled>) -> bool, s: State, rest: seq<u8>, nowUs: int, hs: seq<Handled>)
    requires Kept(inv, nowUs) && inv(s, hs)
    ensures inv(Carried(s, rest, nowUs).state, hs + CarriedTrace(s, rest, nowUs))
    decreases |rest|, 1
  {
    if Terminal(s) {
      assert hs + [] == hs;
    } else {
      DrainKeeps(inv, s, rest, nowUs, hs);
    }
  }

  lemma {:induction false} Assoc<T>(a: seq<T>, b: seq<T>, c: seq<T>)
    ensures a + b + c == a + (b + c)
  {
  }

  // ---------------------------------------------------------------- acknowledgements

  /** The body of the frame, if it is a CONFIG that the session applies. */
  function AppliedIn(h: Handled): seq<seq<Entry>> {
    match h.decoded
    case Ok(Message(t, body)) =>
      if t == Control.CONFIG
         && (h.before.phase.Streaming? || (h.before.phase.Negotiating? && h.before.step.AwaitConfig?)) then [body]
      else []
    case _ => []
  }

  /** The bodies of the CONFIGs that were applied. */
  function Applied(hs: seq<Handled>): seq<seq<Entry>> {
    if hs == [] then [] else AppliedIn(hs[0]) + Applied(hs[1..])
  }

  lemma {:induction false} AppliedConcat(a: seq<Handled>, b: seq<Handled>)
    ensures Applied(a + b) == Applied(a) + Applied(b)
  {
    if a == [] {
      assert a + b == b;
    } else {
      AppliedConcat(a[1..], b);
      assert (a + b)[1..] == a[1..] + b;
      Assoc(AppliedIn(a[0]), Applied(a[1..]), Applied(b));
    }
  }

  /** The generation a CONFIG announces: the integer at key 0, or 0. */
  function Generation(body: seq<Entry>): i64 {
    var g := FindInt(body, 0);
    if g.Some? then g.value else 0
  }

  function Generations(bodies: seq<seq<Entry>>): seq<i64> {
    if bodies == [] then [] else Generations(bodies[..|bodies| - 1]) + [Generation(bodies[|bodies| - 1])]
  }

  /** The generations acknowledged in a log, read from the bytes sent. */
  function Acks(log: seq<Action>): seq<i64> {
    if log == [] then []
    else
      var m := MarkOf(log[|log| - 1]);
      Acks(log[..|log| - 1]) + if m.AckSent? then [m.generation] else []
  }

  lemma {:induction false} AcksNext(log: seq<Action>, a: Action)
    ensures Acks(log + [a]) == Acks(log) + if MarkOf(a).AckSent? then [MarkOf(a).generation] else []
  {
    assert (log + [a])[..|log|] == log;
  }

  /** The acknowledgements sent are those of the CONFIGs applied, and the last of these is in force. */
  predicate Acknowledges(s: State, bodies: seq<seq<Entry>>) {
    && Acks(s.log) == Generations(bodies)
    && s.config == if bodies == [] then None else Some(ParseConfig(bodies[|bodies| - 1]))
  }

  lemma {:induction false} PushKeeps(s: State, a: Action, s': State, bodies: seq<seq<Entry>>)
    requires Acknowledges(s, bodies) && !MarkOf(a).AckSent? && s'.log == s.log + [a] && s'.config == s.config
    ensures Acknowledges(s', bodies)
  {
    AcksNext(s.log, a);
  }

  lemma {:induction false} SendKeeps(s: State, a: Action, s': State, bodies: seq<seq<Entry>>)
    requires Acknowledges(s, bodies) && !MarkOf(a).AckSent? && s'.config == s.config
    requires s'.log == s.log || s'.log == s.log + [a]
    ensures Acknowledges(s', bodies)
  {
    AcksNext(s.log, a);
  }

  lemma {:induction false} AcknowledgedAnswers(s: State, body: seq<Entry>, bodies: seq<seq<Entry>>)
    requires Acknowledges(s, bodies)
    ensures Acknowledges(Acknowledged(s, body), bodies + [body])
  {
    var g := ToI64(ParseConfig(body).generation);
    SentIntMark(Control.CONFIG_ACK, g);
    AcksNext(s.log, Sent(Control.CONFIG_ACK, OneInt(g)));
    assert (bodies + [body])[..|bodies|] == bodies;
    assert g == Generation(body);
  }

  lemma {:induction false} SetupAnswers(s: State, t: nat, body: seq<Entry>, bodies: seq<seq<Entry>>)
    requires Acknowledges(s, bodies) && s.phase.Negotiating?
    ensures Acknowledges(AfterSetup(s, t, body),
                         bodies + if t == Control.CONFIG && s.step.AwaitConfig? then [body] else [])
  {
    assert bodies + [] == bodies;
    if s.step.AwaitConfig? && t == Control.CONFIG {
      AcknowledgedAnswers(s, body, bodies);
    } else {
      var s' := AfterSetup(s, t, body);
      if s'.phase.Failed? {
        PushKeeps(s, Action.Fatal(PROTOCOL_VIOLATION), s', bodies);
      } else if s.step.AwaitWelcome? {
        PushKeeps(s, Action.Established, s', bodies);
      } else {
        PushKeeps(s, Action.MediaExpected, s', bodies);
      }
    }
  }

  lemma {:induction false} MessageAnswers(
      s: State, t: nat, body: seq<Entry>, nowUs: int, bodies: seq<seq<Entry>>, more: seq<seq<Entry>>)
    requires Acknowledges(s, bodies)
    requires more == if t == Control.CONFIG && (s.phase.Streaming? || (s.phase.Negotiating? && s.step.AwaitConfig?))
                     then [body] else []
    ensures Acknowledges(AfterMessage(s, t, body, nowUs), bodies + more)
  {
    if more == [] {
      assert bodies + more == bodies;
      OtherAnswers(s, t, body, nowUs, bodies);
    } else if s.phase.Streaming? {
      RenewalAnswers(s, Acknowledged(s, body), body, bodies);
    } else {
      SetupAnswers(s, t, body, bodies);
    }
  }

  lemma {:induction false} RenewalAnswers(s: State, acked: State, body: seq<Entry>, bodies: seq<seq<Entry>>)
    requires Acknowledges(s, bodies) && acked == Acknowledged(s, body)
    ensures Acknowledges(Push(acked, Action.ConfigChanged), bodies + [body])
  {
    AcknowledgedAnswers(s, body, bodies);
    PushKeeps(acked, Action.ConfigChanged, Push(acked, Action.ConfigChanged), bodies + [body]);
  }

  /** A message that is no CONFIG to apply. */
  lemma {:induction false} OtherAnswers(s: State, t: nat, body: seq<Entry>, nowUs: int, bodies: seq<seq<Entry>>)
    requires Acknowledges(s, bodies)
    requires !(t == Control.CONFIG && (s.phase.Streaming? || (s.phase.Negotiating? && s.step.AwaitConfig?)))
    ensures Acknowledges(AfterMessage(s, t, body, nowUs), bodies)
  {
    if t == Control.BYE {
      PushKeeps(s, CloseDone, Push(s.(phase := Closed), CloseDone), bodies);
    } else if t == Control.ERROR {
      var code := FindInt(body, 0);
      FailAnswers(s, if code.Some? then ToU64(code.value) else INTERNAL, bodies);
    } else if t != Control.CLOCK_PONG && s.phase.Negotiating? {
      SetupAnswers(s, t, body, bodies);
      assert bodies + [] == bodies;
    }
  }

  lemma {:induction false} FailAnswers(s: State, code: u64, bodies: seq<seq<Entry>>)
    requires Acknowledges(s, bodies)
    ensures Acknowledges(Fail(s, code), bodies)
  {
    PushKeeps(s, Action.Fatal(code), Fail(s, code), bodies);
  }

  lemma {:induction false} FrameAnswers(s: State, frame: seq<u8>, nowUs: int, bodies: seq<seq<Entry>>)
    requires Acknowledges(s, bodies)
    ensures Acknowledges(AfterFrame(s, frame, nowUs), bodies + AppliedIn(Handles(s, frame, nowUs)))
  {
    assert bodies + [] == bodies;
    match Control.DecodeFrame(frame) {
      case Err(_) => PushKeeps(s, Action.Fatal(PROTOCOL_VIOLATION), AfterFrame(s, frame, nowUs), bodies);
      case Ok(Ignored) =>
      case Ok(Message(t, body)) => MessageAnswers(s, t, body, nowUs, bodies, AppliedIn(Handles(s, frame, nowUs)));
    }
  }

  lemma {:induction false} NextApplied(hs: seq<Handled>, h: Handled)
    ensures Applied(hs + [h]) == Applied(hs) + AppliedIn(h)
  {
    AppliedConcat(hs, [h]);
    assert [h][1..] == [] && AppliedIn(h) + [] == AppliedIn(h);
  }

  lemma {:induction false} AnswersKept(nowUs: int)
    ensures Kept((s, hs) => Acknowledges(s, Applied(hs)), nowUs)
  {
    forall s, hs, frame | Acknowledges(s, Applied(hs))
      ensures Acknowledges(AfterFrame(s, frame, nowUs), Applied(hs + [Handles(s, frame, nowUs)]))
    {
      FrameAnswers(s, frame, nowUs, Applied(hs));
      NextApplied(hs, Handles(s, frame, nowUs));
    }
    forall s, hs | Acknowledges(s, Applied(hs)) ensures Acknowledges(Fail(s, PROTOCOL_VIOLATION), Applied(hs)) {
      FailAnswers(s, PROTOCOL_VIOLATION, Applied(hs));
    }
  }

  lemma {:induction false} EventAnswers(s: State, ev: Event, bodies: seq<seq<Entry>>)
    requires Acknowledges(s, bodies)
    ensures Acknowledges(AfterEvent(s, ev), bodies)
  {
    if !Terminal(s) {
      match ev
      case Connected =>
        SentMark(Control.HELLO, HelloBody(s.params));
        SendKeeps(s, Sent(Control.HELLO, HelloBody(s.params)), AfterEvent(s, ev), bodies);
      case ConnectionLost =>
        FailAnswers(s, INTERNAL, bodies);
      case UserBye =>
        SentMark(Control.BYE, OneInt(0));
        ByeAnswers(s, Sent(Control.BYE, OneInt(0)), bodies);
    }
  }

  lemma {:induction false} ByeAnswers(s: State, bye: Action, bodies: seq<seq<Entry>>)
    requires Acknowledges(s, bodies) && !MarkOf(bye).AckSent?
    ensures Acknowledges(Push(Push(s, bye).(phase := Closed), CloseDone), bodies)
  {
    PushKeeps(s, bye, Push(s, bye), bodies);
    PushKeeps(Push(s, bye), CloseDone, Push(Push(s, bye).(phase := Closed), CloseDone), bodies);
  }

  lemma {:induction false} StepAnswers(c: Client, i: Input, bodies: seq<seq<Entry>>)
    requires Acknowledges(c.state, bodies) && !i.OnBytes?
    ensures Acknowledges(Runs.Step(c, i).state, bodies)
  {
    match i
    case OnEvent(ev) => EventAnswers(c.state, ev, bodies);
    case OnTick(nowUs) =>
      SentIntMark(Control.CLOCK_PING, nowUs);
      SendKeeps(c.state, Sent(Control.CLOCK_PING, OneInt(nowUs)), AfterTick(c.state, nowUs), bodies);
    case OnViewport(w, h, nowUs) =>
      SentMark(Control.VIEWPORT, ViewportBody(w, h));
      SendKeeps(c.state, Sent(Control.VIEWPORT, ViewportBody(w, h)), AfterViewport(c.state, w, h, nowUs), bodies);
    case OnPoll =>
    case OnBytes(_, _) =>
  }

  /** Over every run, however many CONFIGs one chunk holds: the generations acknowledged are, one for one and in order,
      those of the CONFIGs applied, and the last of these is the configuration in force. */
  lemma {:induction false} AcksMatchConfigs(params: HelloParams, inputs: seq<Input>)
    ensures Acknowledges(Run(params, inputs).state, Applied(Trace(params, inputs)))
  {
    if inputs != [] {
      var front, last := inputs[..|inputs| - 1], inputs[|inputs| - 1];
      var c, bodies := Run(params, front), Applied(Trace(params, front));
      AcksMatchConfigs(params, front);
      if !last.OnBytes? {
        StepAnswers(c, last, bodies);
        assert Trace(params, front) + [] == Trace(params, front);
      } else if Terminal(c.state) {
        assert Trace(params, front) + [] == Trace(params, front);
      } else {
        AnswersKept(last.nowUs);
        DrainKeeps((s, hs) => Acknowledges(s, Applied(hs)), c.state, c.rx + last.bytes, last.nowUs,
                   Trace(params, front));
      }
    }
  }

  // ---------------------------------------------------------------- the clock

  /** The sample a pong completes, if it carries its three times. */
  function SampleOf(body: seq<Entry>, nowUs: int): seq<Clock.Sample> {
    var t0, t1, t2 := FindInt(body, 0), FindInt(body, 1), FindInt(body, 2);
    if t0.Some? && t1.Some? && t2.Some? then [Clock.Sample(t0.value, t1.value, t2.value, nowUs)] else []
  }

  function SampleIn(h: Handled): seq<Clock.Sample> {
    match h.decoded
    case Ok(Message(t, body)) => if t == Control.CLOCK_PONG then SampleOf(body, h.nowUs) else []
    case _ => []
  }

  function Samples(hs: seq<Handled>): seq<Clock.Sample> {
    if hs == [] then [] else SampleIn(hs[0]) + Samples(hs[1..])
  }

  lemma {:induction false} SamplesConcat(a: seq<Handled>, b: seq<Handled>)
    ensures Samples(a + b) == Samples(a) + Samples(b)
  {
    if a == [] {
      assert a + b == b;
    } else {
      SamplesConcat(a[1..], b);
      assert (a + b)[1..] == a[1..] + b;
      Assoc(SampleIn(a[0]), Samples(a[1..]), Samples(b));
    }
  }

  /** The estimate is the filter's choice among these samples. */
  predicate Chooses(s: State, samples: seq<Clock.Sample>) {
    && s.clockWindow == Clock.Estimates(Clock.Last(samples, 16))
    && s.clockEstimate == if samples == [] then None else Some(Clock.Selected(samples))
  }

  lemma {:induction false} SampledChooses(s: State, sample: Clock.Sample, samples: seq<Clock.Sample>)
    requires Chooses(s, samples)
    ensures Chooses(Sampled(s, sample), samples + [sample])
  {
    Clock.Slide(samples, sample);
  }

  lemma {:induction false} PongChooses(s: State, body: seq<Entry>, nowUs: int, samples: seq<Clock.Sample>)
    requires Chooses(s, samples)
    ensures Chooses(AfterPong(s, body, nowUs), samples + SampleOf(body, nowUs))
  {
    var more := SampleOf(body, nowUs);
    if more == [] {
      assert samples + more == samples;
    } else {
      SampledChooses(s, more[0], samples);
    }
  }

  /** No other message touches the clock. */
  lemma {:induction false} MessageSparesClock(s: State, t: nat, body: seq<Entry>, nowUs: int)
    requires t != Control.CLOCK_PONG
    ensures var s' := AfterMessage(s, t, body, nowUs);
            s'.clockWindow == s.clockWindow && s'.clockEstimate == s.clockEstimate
  {
  }

  lemma {:induction false} MessageChooses(s: State, t: nat, body: seq<Entry>, nowUs: int, samples: seq<Clock.Sample>)
    requires Chooses(s, samples)
    ensures Chooses(AfterMessage(s, t, body, nowUs),
                    samples + if t == Control.CLOCK_PONG then SampleOf(body, nowUs) else [])
  {
    if t == Control.CLOCK_PONG {
      PongChooses(s, body, nowUs, samples);
    } else {
      MessageSparesClock(s, t, body, nowUs);
      assert samples + [] == samples;
    }
  }

  lemma {:induction false} FrameChooses(s: State, frame: seq<u8>, nowUs: int, samples: seq<Clock.Sample>)
    requires Chooses(s, samples)
    ensures Chooses(AfterFrame(s, frame, nowUs), samples + SampleIn(Handles(s, frame, nowUs)))
  {
    match Control.DecodeFrame(frame) {
      case Err(_) => assert samples + [] == samples;
      case Ok(Ignored) => assert samples + [] == samples;
      case Ok(Message(t, body)) => MessageChooses(s, t, body, nowUs, samples);
    }
  }

  lemma {:induction false} NextSample(hs: seq<Handled>, h: Handled)
    ensures Samples(hs + [h]) == Samples(hs) + SampleIn(h)
  {
    SamplesConcat(hs, [h]);
    assert [h][1..] == [] && SampleIn(h) + [] == SampleIn(h);
  }

  lemma {:induction false} ChoiceKept(nowUs: int)
    ensures Kept((s, hs) => Chooses(s, Samples(hs)), nowUs)
  {
    forall s, hs, frame | Chooses(s, Samples(hs))
      ensures Chooses(AfterFrame(s, frame, nowUs), Samples(hs + [Handles(s, frame, nowUs)]))
    {
      FrameChooses(s, frame, nowUs, Samples(hs));
      NextSample(hs, Handles(s, frame, nowUs));
    }
  }

  lemma {:induction false} StepSparesClock(c: Client, i: Input)
    requires !i.OnBytes?
    ensures Runs.Step(c, i).state.clockWindow == c.state.clockWindow
    ensures Runs.Step(c, i).state.clockEstimate == c.state.clockEstimate
  {
  }

  /** Over every run the estimate is the filter's choice among all the pongs received, or none before the first. */
  lemma {:induction false} ClockFollowsPongs(params: HelloParams, inputs: seq<Input>)
    ensures Chooses(Run(params, inputs).state, Samples(Trace(params, inputs)))
  {
    if inputs != [] {
      var front, last := inputs[..|inputs| - 1], inputs[|inputs| - 1];
      var c, samples := Run(params, front), Samples(Trace(params, front));
      ClockFollowsPongs(params, front);
      if !last.OnBytes? {
        StepSparesClock(c, last);
        assert Trace(params, front) + [] == Trace(params, front);
      } else if Terminal(c.state) {
        assert Trace(params, front) + [] == Trace(params, front);
      } else {
        ChoiceKept(last.nowUs);
        DrainKeeps((s, hs) => Chooses(s, Samples(hs)), c.state, c.rx + last.bytes, last.nowUs, Trace(params, front));
      }
    }
  }

  /** Over every run: if the last sixteen pongs saw the host's clock the same `theta` ahead over trips that took no
      negative time, the session's offset is off by at most half its round trip, rounded up. */
  lemma {:induction false} ClockBound(params: HelloParams, inputs: seq<Input>, theta: int)
    requires var recent := Clock.Last(Samples(Trace(params, inputs)), 16);
             recent != [] && forall i :: 0 <= i < |recent| ==> Clock.Honest(recent[i], theta)
    ensures var e := Run(params, inputs).state.clockEstimate;
            e.Some? && -((e.value.rtt + 1) / 2) <= e.value.offset - theta <= e.value.rtt / 2
  {
    ClockFollowsPongs(params, inputs);
    Clock.ErrorBound(Samples(Trace(params, inputs)), theta);
  }
}
