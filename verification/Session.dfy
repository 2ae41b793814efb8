/** The client session: a length-prefixed framing loop feeding a handshake automaton. The functions on `State`
    specify each input's effect; class `Session` is the stateful original. */
module Session {
  import opened Base
  import opened Cbor
  import Control
  import Clock = ClockSync

  const PING_INTERVAL_US: int := 500_000
  const VIEWPORT_INTERVAL_US: int := 250_000
  const PROTOCOL_VIOLATION: u64 := 0x04
  const INTERNAL: u64 := 0x07

  datatype Phase = Connecting | Negotiating | Streaming | Closed | Failed

  /** The setup message expected next. */
  datatype Step = AwaitWelcome | AwaitConfig | AwaitStart

  datatype Event = Connected | ConnectionLost | UserBye

  datatype Action =
    | SendControl(bytes: seq<u8>)
    | Established
    | MediaExpected
    | ConfigChanged
    | Fatal(code: u64)
    | CloseDone

  datatype HelloParams = HelloParams(
    clientName: seq<u8>, codecs: seq<u64>, maxWidth: u32, maxHeight: u32, maxRefresh: u32, features: u64)

  datatype StreamConfig = StreamConfig(streamId: u16, width: u64, height: u64, refresh: u64, bitrateKbps: u64)

  datatype SessionConfig = SessionConfig(
    generation: u64, codec: u64, width: u64, height: u64, refresh: u64, audio: u64, bitrateKbps: u64,
    extraStreams: seq<StreamConfig>)

  /** What a STATS report is built from; the jitter is the bit pattern of a double. */
  datatype StatsInput = StatsInput(
    framesReceived: u64, framesDropped: u64, datagrams: u64, jitterMs: u64, decodeUs: u64, rttUs: u64,
    e2eUs: Option<u64>, streamId: u16)

  /** Everything but the receive buffer. `log` is history: every action ever queued, polled or not. */
  datatype State = State(
    params: HelloParams,
    phase: Phase,
    step: Step,
    out: seq<Action>,
    hostName: Option<seq<u8>>,
    config: Option<SessionConfig>,
    activeFeatures: u64,
    clockWindow: seq<Clock.Estimate>,
    clockEstimate: Option<Clock.Estimate>,
    lastPingUs: int,
    pinged: bool,
    lastViewportUs: int,
    viewportSent: bool,
    log: seq<Action>)

  /** A session with the control bytes it has not handled yet. */
  datatype Client = Client(state: State, rx: seq<u8>)

  function Init(params: HelloParams): State {
    State(params, Connecting, AwaitWelcome, [], None, None, 0, [], None, 0, false, 0, false, [])
  }

  // ---------------------------------------------------------------- two's complement casts

  function ToI64(x: u64): i64 {
    if x <= INT64_MAX then x else x - 0x1_0000_0000_0000_0000
  }

  function ToU64(x: i64): u64 {
    if x >= 0 then x else x + 0x1_0000_0000_0000_0000
  }

  function ToU16(x: i64): u16 {
    x % 0x1_0000
  }

  // ---------------------------------------------------------------- body lookups

  /** The first integer at an integer key. */
  function FindInt(m: seq<Entry>, key: i64): Option<i64> {
    if m == [] then None
    else if m[0].key == Int(key) && m[0].val.Int? then Some(m[0].val.i)
    else FindInt(m[1..], key)
  }

  function FindText(m: seq<Entry>, key: i64): Option<seq<u8>> {
    if m == [] then None
    else if m[0].key == Int(key) && m[0].val.Text? then Some(m[0].val.text)
    else FindText(m[1..], key)
  }

  /** Element idx of the first array at the key that has an integer there. */
  function FindPairElem(m: seq<Entry>, key: i64, idx: nat): Option<i64> {
    if m == [] then None
    else if m[0].key == Int(key) && m[0].val.Array? && idx < |m[0].val.items| && m[0].val.items[idx].Int? then
      Some(m[0].val.items[idx].i)
    else FindPairElem(m[1..], key, idx)
  }

  function FindArray(m: seq<Entry>, key: i64): Option<seq<Value>> {
    if m == [] then None
    else if m[0].key == Int(key) && m[0].val.Array? then Some(m[0].val.items)
    else FindArray(m[1..], key)
  }

  function OrZero(x: Option<i64>): u64 {
    if x.Some? then ToU64(x.value) else 0
  }

  function ParseStream(desc: seq<Entry>): StreamConfig {
    var id := FindInt(desc, 0);
    StreamConfig(if id.Some? then ToU16(id.value) else 0,
                 OrZero(FindPairElem(desc, 1, 0)), OrZero(FindPairElem(desc, 1, 1)),
                 OrZero(FindInt(desc, 2)), OrZero(FindInt(desc, 3)))
  }

  /** The descriptors that are maps, in order; the others are ignored. */
  function ParseStreams(streams: seq<Value>): seq<StreamConfig> {
    if streams == [] then []
    else (if streams[0].Map? then [ParseStream(streams[0].entries)] else []) + ParseStreams(streams[1..])
  }

  function ParseConfig(body: seq<Entry>): SessionConfig {
    var streams := FindArray(body, 6);
    SessionConfig(
      OrZero(FindInt(body, 0)), OrZero(FindInt(body, 1)),
      OrZero(FindPairElem(body, 2, 0)), OrZero(FindPairElem(body, 2, 1)),
      OrZero(FindInt(body, 3)), OrZero(FindInt(body, 4)), OrZero(FindInt(body, 5)),
      if streams.Some? then ParseStreams(streams.value) else [])
  }

  // ---------------------------------------------------------------- bodies the session sends

  function Codecs(codecs: seq<u64>): (r: seq<Value>)
    ensures |r| == |codecs| && forall i :: 0 <= i < |r| ==> r[i] == Int(ToI64(codecs[i]))
  {
    if codecs == [] then [] else Codecs(codecs[..|codecs| - 1]) + [Int(ToI64(codecs[|codecs| - 1]))]
  }

  function HelloBody(p: HelloParams): seq<Entry> {
    [Entry(Int(0), Int(1)),
     Entry(Int(1), Text(p.clientName)),
     Entry(Int(2), Array(Codecs(p.codecs))),
     Entry(Int(3), Array([Int(p.maxWidth), Int(p.maxHeight)])),
     Entry(Int(4), Int(p.maxRefresh)),
     Entry(Int(5), Int(ToI64(p.features)))]
  }

  /** A body of one integer at key 0: BYE's reason, CONFIG_ACK's generation, CLOCK_PING's time. */
  function OneInt(x: i64): seq<Entry> {
    [Entry(Int(0), Int(x))]
  }

  function ViewportBody(width: u32, height: u32): seq<Entry> {
    [Entry(Int(0), Array([Int(width), Int(height)]))]
  }

  function StatsBody(report: StatsInput): seq<Entry> {
    [Entry(Int(0), Int(ToI64(report.framesReceived))),
     Entry(Int(1), Int(ToI64(report.framesDropped))),
     Entry(Int(2), Int(ToI64(report.datagrams))),
     Entry(Int(3), Float(report.jitterMs)),
     Entry(Int(4), Int(ToI64(report.decodeUs))),
     Entry(Int(5), Int(ToI64(report.rttUs)))]
    + (if report.e2eUs.Some? then [Entry(Int(6), Int(ToI64(report.e2eUs.value)))] else [])
    + (if report.streamId != 0 then [Entry(Int(7), Int(report.streamId))] else [])
  }

  function Sent(msgType: nat, body: seq<Entry>): Action
    requires msgType <= INT64_MAX
  {
    SendControl(Control.EncodeFrame(msgType, body))
  }

  // ---------------------------------------------------------------- inputs

  predicate Terminal(s: State) {
    s.phase.Closed? || s.phase.Failed?
  }

  function Push(s: State, a: Action): State {
    s.(out := s.out + [a], log := s.log + [a])
  }

  function Fail(s: State, code: u64): State {
    Push(s.(phase := Failed), Fatal(code))
  }

  function AfterEvent(s: State, ev: Event): State {
    if Terminal(s) then s
    else
      match ev
      case Connected => Push(s, Sent(Control.HELLO, HelloBody(s.params))).(phase := Negotiating, step := AwaitWelcome)
      case ConnectionLost => Fail(s, INTERNAL)
      case UserBye => Push(Push(s, Sent(Control.BYE, OneInt(0))).(phase := Closed), CloseDone)
  }

  function Acknowledged(s: State, body: seq<Entry>): State {
    var config := ParseConfig(body);
    Push(s.(config := Some(config)), Sent(Control.CONFIG_ACK, OneInt(ToI64(config.generation))))
  }

  function AfterFrame(s: State, frame: seq<u8>, nowUs: int): State {
    match Control.DecodeFrame(frame)
    case Err(_) => Fail(s, PROTOCOL_VIOLATION)
    case Ok(Ignored) => s
    case Ok(Message(t, body)) => AfterMessage(s, t, body, nowUs)
  }

  function AfterMessage(s: State, t: nat, body: seq<Entry>, nowUs: int): State {
    if t == Control.BYE then Push(s.(phase := Closed), CloseDone)
    else if t == Control.ERROR then
      var code := FindInt(body, 0);
      Fail(s, if code.Some? then ToU64(code.value) else INTERNAL)
    else if t == Control.CLOCK_PONG then AfterPong(s, body, nowUs)
    else if t == Control.CONFIG && s.phase.Streaming? then Push(Acknowledged(s, body), ConfigChanged)
    else if !s.phase.Negotiating? then s
    else AfterSetup(s, t, body)
  }

  function AfterPong(s: State, body: seq<Entry>, nowUs: int): State {
    var t0, t1, t2 := FindInt(body, 0), FindInt(body, 1), FindInt(body, 2);
    if t0.None? || t1.None? || t2.None? then s
    else Sampled(s, Clock.Sample(t0.value, t1.value, t2.value, nowUs))
  }

  function Sampled(s: State, sample: Clock.Sample): State {
    var w := Clock.Slid(s.clockWindow, Clock.EstimateOf(sample));
    s.(clockWindow := w, clockEstimate := Some(Clock.Chosen(w)))
  }

  function AfterSetup(s: State, t: nat, body: seq<Entry>): State {
    match s.step
    case AwaitWelcome =>
      if t != Control.WELCOME || FindInt(body, 0) != Some(1) then Fail(s, PROTOCOL_VIOLATION)
      else
        var features := OrZero(FindInt(body, 3));
        Push(s.(hostName := FindText(body, 1), activeFeatures := features, step := AwaitConfig), Established)
    case AwaitConfig =>
      if t != Control.CONFIG then Fail(s, PROTOCOL_VIOLATION)
      else Acknowledged(s, body).(step := AwaitStart)
    case AwaitStart =>
      if t != Control.START then Fail(s, PROTOCOL_VIOLATION)
      else Push(s.(phase := Streaming), MediaExpected)
  }

  /** Handles every complete frame at the front of the receive buffer. */
  function Drain(s: State, rx: seq<u8>, nowUs: int): Client
    decreases |rx|, 0
  {
    if |rx| < 4 then Client(s, rx)
    else if Control.FrameLen(rx) > Control.MAX_FRAME_BODY then Client(Fail(s, PROTOCOL_VIOLATION), [])
    else if |rx| < 4 + Control.FrameLen(rx) then Client(s, rx)
    else
      var n := 4 + Control.FrameLen(rx);
      Carried(AfterFrame(s, rx[..n], nowUs), rx[n..], nowUs)
  }

  /** After a frame: a terminal session forgets the rest, any other goes on with it. */
  function Carried(s: State, rest: seq<u8>, nowUs: int): Client
    decreases |rest|, 1
  {
    if Terminal(s) then Client(s, []) else Drain(s, rest, nowUs)
  }

  function AfterBytes(c: Client, bytes: seq<u8>, nowUs: int): Client {
    if Terminal(c.state) then c else Drain(c.state, c.rx + bytes, nowUs)
  }

  function AfterTick(s: State, nowUs: i64): State {
    if s.phase.Connecting? || Terminal(s) then s
    else if s.pinged && nowUs - s.lastPingUs < PING_INTERVAL_US then s
    else Push(s.(pinged := true, lastPingUs := nowUs), Sent(Control.CLOCK_PING, OneInt(nowUs)))
  }

  function AfterViewport(s: State, width: u32, height: u32, nowUs: int): State {
    if !s.phase.Streaming? then s
    else if s.viewportSent && nowUs - s.lastViewportUs < VIEWPORT_INTERVAL_US then s
    else Push(s.(viewportSent := true, lastViewportUs := nowUs), Sent(Control.VIEWPORT, ViewportBody(width, height)))
  }

  function AfterPoll(s: State): State {
    s.(out := [])
  }

  // ---------------------------------------------------------------- the original

  /** Exactly one frame, within the limit. */
  predicate Whole(frame: seq<u8>) {
    |frame| >= 4 && Control.FrameLen(frame) <= Control.MAX_FRAME_BODY && |frame| == 4 + Control.FrameLen(frame)
  }

  /** One turn of the loop. */
  lemma {:induction false} DrainOnce(s: State, frame: seq<u8>, rest: seq<u8>, nowUs: int)
    requires Whole(frame)
    ensures Drain(s, frame + rest, nowUs) == Carried(AfterFrame(s, frame, nowUs), rest, nowUs)
  {
    var rx := frame + rest;
    assert rx[..4] == frame[..4] && rx[..|frame|] == frame && rx[|frame|..] == rest;
  }

  lemma {:induction false} SplitFrame(rx: seq<u8>, off: nat, len: nat)
    requires off + 4 + len <= |rx| && len == Control.FrameLen(rx[off..]) <= Control.MAX_FRAME_BODY
    ensures Whole(rx[off..off + 4 + len])
    ensures rx[off..off + 4 + len] + rx[off + 4 + len..] == rx[off..]
  {
    assert rx[off..off + 4 + len][..4] == rx[off..][..4];
  }

  lemma {:induction false} StreamsSnoc(streams: seq<Value>, i: nat)
    requires i < |streams|
    ensures ParseStreams(streams[..i + 1]) ==
            ParseStreams(streams[..i]) + if streams[i].Map? then [ParseStream(streams[i].entries)] else []
  {
    if i > 0 {
      StreamsSnoc(streams[1..], i - 1);
      assert streams[1..][..i] == streams[..i + 1][1..] && streams[1..][..i - 1] == streams[..i][1..];
    }
  }

  class Session {
    const params: HelloParams
    const clockFilter: Clock.ClockFilter
    var phase: Phase
    var step: Step
    var rx: seq<u8>
    var out: seq<Action>
    var hostName: Option<seq<u8>>
    var config: Option<SessionConfig>
    var activeFeatures: u64
    var clockEstimate: Option<Clock.Estimate>
    var lastPingUs: int
    var pinged: bool
    var lastViewportUs: int
    var viewportSent: bool
    ghost var log: seq<Action>

    ghost predicate Valid()
      reads this, clockFilter
    {
      clockFilter.Valid()
    }

    ghost function Model(): State
      reads this, clockFilter
    {
      State(params, phase, step, out, hostName, config, activeFeatures, clockFilter.window, clockEstimate,
            lastPingUs, pinged, lastViewportUs, viewportSent, log)
    }

    constructor (params: HelloParams)
      ensures Valid() && fresh(clockFilter)
      ensures Model() == Init(params) && rx == []
    {
      this.params := params;
      phase, step, rx, out := Connecting, AwaitWelcome, [], [];
      hostName, config, activeFeatures := None, None, 0;
      clockFilter := new Clock.ClockFilter();
      clockEstimate, lastPingUs, pinged, lastViewportUs, viewportSent := None, 0, false, 0, false;
      log := [];
    }

    method PushAction(a: Action)
      modifies this`out, this`log
      ensures out == old(out) + [a] && log == old(log) + [a]
    {
      out := out + [a];
      log := log + [a];
    }

    method Send(msgType: nat, body: seq<Entry>)
      requires msgType <= INT64_MAX
      modifies this`out, this`log
      ensures out == old(out) + [Sent(msgType, body)] && log == old(log) + [Sent(msgType, body)]
    {
      var bytes := Control.EncodeFrameBytes(msgType, body);
      PushAction(SendControl(bytes));
    }

    method SetFatal(code: u64)
      modifies this`phase, this`out, this`log
      ensures Model() == Fail(old(Model()), code)
    {
      phase := Failed;
      PushAction(Fatal(code));
    }

    /** Drains the actions queued since the last poll. */
    method Poll() returns (drained: seq<Action>)
      modifies this`out
      ensures drained == old(out) && Model() == AfterPoll(old(Model()))
    {
      drained := out;
      out := [];
    }

    method OnEvent(ev: Event)
      modifies this`phase, this`step, this`out, this`log
      ensures Model() == AfterEvent(old(Model()), ev)
    {
      if phase.Closed? || phase.Failed? { return; }
      match ev {
        case Connected =>
          Send(Control.HELLO, HelloBody(params));
          phase := Negotiating;
          step := AwaitWelcome;
        case ConnectionLost =>
          SetFatal(INTERNAL);
        case UserBye =>
          Send(Control.BYE, OneInt(0));
          phase := Closed;
          PushAction(CloseDone);
      }
    }

    /** Frames are handled at an advancing offset and erased together at the end. */
    method OnControlBytes(bytes: seq<u8>, nowUs: int)
      requires Valid()
      modifies this, clockFilter
      ensures Valid()
      ensures Client(Model(), rx) == AfterBytes(Client(old(Model()), old(rx)), bytes, nowUs)
    {
      if phase.Closed? || phase.Failed? { return; }
      rx := rx + bytes;
      ghost var whole := Drain(Model(), rx, nowUs);
      var off := 0;
      ghost var rest := rx;
      while |rx| - off >= 4
        invariant 0 <= off <= |rx| && rest == rx[off..]
        invariant Valid() && !Terminal(Model()) && Drain(Model(), rest, nowUs) == whole
        decreases |rx| - off
      {
        var len := Control.ReadLen(rx, off);
        if len > Control.MAX_FRAME_BODY {
          SetFatal(PROTOCOL_VIOLATION);
          rx := [];
          return;
        }
        if |rx| - off < 4 + len { break; }
        SplitFrame(rx, off, len);
        HandleNext(rx[off..off + 4 + len], rx[off + 4 + len..], nowUs);
        off := off + 4 + len;
        rest := rx[off..];
        if phase.Closed? || phase.Failed? {
          rx := [];
          return;
        }
      }
      rx := rx[off..];
    }

    /** Handles the first of the complete frames at hand, with `rest` behind it. */
    method HandleNext(frame: seq<u8>, ghost rest: seq<u8>, nowUs: int)
      requires Valid() && Whole(frame)
      modifies this`phase, this`step, this`hostName, this`activeFeatures, this`config, this`clockEstimate, this`out,
               this`log, clockFilter
      ensures Valid()
      ensures Drain(old(Model()), frame + rest, nowUs) == Carried(Model(), rest, nowUs)
    {
      DrainOnce(Model(), frame, rest, nowUs);
      HandleFrame(frame, nowUs);
    }

    method HandleFrame(frame: seq<u8>, nowUs: int)
      requires Valid()
      modifies this`phase, this`step, this`hostName, this`activeFeatures, this`config, this`clockEstimate, this`out,
               this`log, clockFilter
      ensures Valid()
      ensures Model() == AfterFrame(old(Model()), frame, nowUs)
    {
      var r := Control.DecodeFrameBytes(frame);
      if r.Err? {
        SetFatal(PROTOCOL_VIOLATION);
        return;
      }
      if r.value.Ignored? { return; }
      var t, body := r.value.msgType, r.value.body;
      if t == Control.BYE {
        phase := Closed;
        PushAction(CloseDone);
        return;
      }
      if t == Control.ERROR {
        var code := FindInt(body, 0);
        SetFatal(if code.Some? then ToU64(code.value) else INTERNAL);
        return;
      }
      if t == Control.CLOCK_PONG {
        HandlePong(body, nowUs);
        return;
      }
      if t == Control.CONFIG && phase.Streaming? {
        ApplyConfig(body);
        PushAction(ConfigChanged);
        return;
      }
      if !phase.Negotiating? { return; }
      HandleSetup(t, body);
    }

    method HandlePong(body: seq<Entry>, nowUs: int)
      requires Valid()
      modifies this`clockEstimate, clockFilter
      ensures Valid()
      ensures Model() == AfterPong(old(Model()), body, nowUs)
    {
      var t0 := FindInt(body, 0);
      var t1 := FindInt(body, 1);
      var t2 := FindInt(body, 2);
      if t0.Some? && t1.Some? && t2.Some? {
        TakeSample(t0.value, t1.value, t2.value, nowUs);
      }
    }

    method TakeSample(t0: i64, t1: i64, t2: i64, t3: int)
      requires Valid()
      modifies this`clockEstimate, clockFilter
      ensures Valid()
      ensures Model() == Sampled(old(Model()), Clock.Sample(t0, t1, t2, t3))
    {
      var best := clockFilter.Push(t0, t1, t2, t3);
      clockEstimate := Some(best);
    }

    /** Stores a CONFIG and acknowledges its generation. */
    method ApplyConfig(body: seq<Entry>)
      modifies this`config, this`out, this`log
      ensures Model() == Acknowledged(old(Model()), body)
    {
      var parsed := ReadConfig(body);
      config := Some(parsed);
      Send(Control.CONFIG_ACK, OneInt(ToI64(parsed.generation)));
    }

    static method ReadConfig(body: seq<Entry>) returns (c: SessionConfig)
      ensures c == ParseConfig(body)
    {
      var extra := [];
      var streams := FindArray(body, 6);
      if streams.Some? { extra := ReadStreams(streams.value); }
      c := SessionConfig(
        OrZero(FindInt(body, 0)), OrZero(FindInt(body, 1)),
        OrZero(FindPairElem(body, 2, 0)), OrZero(FindPairElem(body, 2, 1)),
        OrZero(FindInt(body, 3)), OrZero(FindInt(body, 4)), OrZero(FindInt(body, 5)), extra);
    }

    static method ReadStreams(streams: seq<Value>) returns (extra: seq<StreamConfig>)
      ensures extra == ParseStreams(streams)
    {
      extra := [];
      var i := 0;
      while i < |streams|
        invariant 0 <= i <= |streams|
        invariant extra == ParseStreams(streams[..i])
      {
        StreamsSnoc(streams, i);
        if streams[i].Map? { extra := extra + [ParseStream(streams[i].entries)]; }
        i := i + 1;
      }
      assert streams[..|streams|] == streams;
    }

    method HandleSetup(t: nat, body: seq<Entry>)
      modifies this`phase, this`step, this`hostName, this`activeFeatures, this`config, this`out, this`log
      ensures Model() == AfterSetup(old(Model()), t, body)
    {
      match step {
        case AwaitWelcome =>
          if t != Control.WELCOME || FindInt(body, 0) != Some(1) {
            SetFatal(PROTOCOL_VIOLATION);
            return;
          }
          hostName := FindText(body, 1);
          activeFeatures := OrZero(FindInt(body, 3));
          PushAction(Established);
          step := AwaitConfig;
        case AwaitConfig =>
          if t != Control.CONFIG {
            SetFatal(PROTOCOL_VIOLATION);
            return;
          }
          ApplyConfig(body);
          step := AwaitStart;
        case AwaitStart =>
          if t != Control.START {
            SetFatal(PROTOCOL_VIOLATION);
            return;
          }
          phase := Streaming;
          PushAction(MediaExpected);
      }
    }

    /** Queues a CLOCK_PING every 500 ms once the control stream is usable. */
    method OnTick(nowUs: i64)
      modifies this`pinged, this`lastPingUs, this`out, this`log
      ensures Model() == AfterTick(old(Model()), nowUs)
    {
      if phase.Connecting? || phase.Closed? || phase.Failed? { return; }
      if pinged && nowUs - lastPingUs < PING_INTERVAL_US { return; }
      pinged := true;
      lastPingUs := nowUs;
      Send(Control.CLOCK_PING, OneInt(nowUs));
    }

    static method EncodeStats(report: StatsInput) returns (bytes: seq<u8>)
      ensures bytes == Control.EncodeFrame(Control.STATS, StatsBody(report))
    {
      var body := [Entry(Int(0), Int(ToI64(report.framesReceived)))];
      body := body + [Entry(Int(1), Int(ToI64(report.framesDropped)))];
      body := body + [Entry(Int(2), Int(ToI64(report.datagrams)))];
      body := body + [Entry(Int(3), Float(report.jitterMs))];
      body := body + [Entry(Int(4), Int(ToI64(report.decodeUs)))];
      body := body + [Entry(Int(5), Int(ToI64(report.rttUs)))];
      if report.e2eUs.Some? { body := body + [Entry(Int(6), Int(ToI64(report.e2eUs.value)))]; }
      if report.streamId != 0 { body := body + [Entry(Int(7), Int(report.streamId))]; }
      assert body == StatsBody(report);
      bytes := Control.EncodeFrameBytes(Control.STATS, body);
    }

    method SendViewport(width: u32, height: u32, nowUs: int) returns (queued: bool)
      modifies this`viewportSent, this`lastViewportUs, this`out, this`log
      ensures Model() == AfterViewport(old(Model()), width, height, nowUs)
      ensures queued <==> log != old(log)
    {
      if !phase.Streaming? { return false; }
      if viewportSent && nowUs - lastViewportUs < VIEWPORT_INTERVAL_US { return false; }
      viewportSent := true;
      lastViewportUs := nowUs;
      Send(Control.VIEWPORT, ViewportBody(width, height));
      return true;
    }
  }
}
