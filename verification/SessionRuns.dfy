/** What holds over every run of a session: how the control stream is cut does not matter, and the actions it queues
    follow the handshake. */
module SessionRuns {
  import opened Base
  import opened Cbor
  import opened CborRoundTrip
  import opened Session
  import Control

  datatype Input =
    | OnEvent(ev: Event)
    | OnBytes(bytes: seq<u8>, nowUs: int)
    | OnTick(tickUs: i64)
    | OnViewport(width: u32, height: u32, viewUs: int)
    | OnPoll

  function Step(c: Client, i: Input): Client {
    match i
    case OnEvent(ev) => c.(state := AfterEvent(c.state, ev))
    case OnBytes(bytes, nowUs) => AfterBytes(c, bytes, nowUs)
    case OnTick(nowUs) => c.(state := AfterTick(c.state, nowUs))
    case OnViewport(w, h, nowUs) => c.(state := AfterViewport(c.state, w, h, nowUs))
    case OnPoll => c.(state := AfterPoll(c.state))
  }

  function Run(params: HelloParams, inputs: seq<Input>): Client {
    if inputs == [] then Client(Init(params), [])
    else Step(Run(params, inputs[..|inputs| - 1]), inputs[|inputs| - 1])
  }

  // ---------------------------------------------------------------- cutting the stream

  /** No complete frame and no over-limit length waits at the front of the buffer. */
  predicate Quiet(c: Client) {
    || Terminal(c.state)
    || |c.rx| < 4
    || (Control.FrameLen(c.rx) <= 65536 && |c.rx| < 4 + Control.FrameLen(c.rx))
  }

  lemma {:induction false} DrainQuiet(s: State, rx: seq<u8>, nowUs: int)
    ensures var c := Drain(s, rx, nowUs); Quiet(c) && |c.rx| < 4 + 65536
    decreases |rx|, 0
  {
    if |rx| >= 4 && Control.FrameLen(rx) <= 65536 && |rx| >= 4 + Control.FrameLen(rx) {
      var n := 4 + Control.FrameLen(rx);
      DrainRest(AfterFrame(s, rx[..n], nowUs), rx[n..], nowUs);
    }
  }

  lemma {:induction false} DrainRest(s: State, rest: seq<u8>, nowUs: int)
    ensures var c := Carried(s, rest, nowUs); Quiet(c) && |c.rx| < 4 + 65536
    decreases |rest|, 1
  {
    if !Terminal(s) {
      DrainQuiet(s, rest, nowUs);
    }
  }

  /** Bytes arriving later are handled as if they had been there from the start. */
  lemma {:induction false} DrainMore(s: State, rx: seq<u8>, more: seq<u8>, nowUs: int)
    requires !Terminal(s)
    ensures AfterBytes(Drain(s, rx, nowUs), more, nowUs) == Drain(s, rx + more, nowUs)
    decreases |rx|, 0
  {
    if |rx| >= 4 {
      assert (rx + more)[..4] == rx[..4];
      if Control.FrameLen(rx) <= 65536 && |rx| >= 4 + Control.FrameLen(rx) {
        var n := 4 + Control.FrameLen(rx);
        assert (rx + more)[..n] == rx[..n] && (rx + more)[n..] == rx[n..] + more;
        CarryMore(AfterFrame(s, rx[..n], nowUs), rx[n..], more, nowUs);
      }
    }
  }

  lemma {:induction false} CarryMore(s: State, rest: seq<u8>, more: seq<u8>, nowUs: int)
    ensures AfterBytes(Carried(s, rest, nowUs), more, nowUs) == Carried(s, rest + more, nowUs)
    decreases |rest|, 1
  {
    if !Terminal(s) {
      DrainMore(s, rest, more, nowUs);
    }
  }

  /** Feeding a and then b is feeding a + b: same state, same leftover, same actions. */
  lemma {:induction false} TwoChunks(c: Client, a: seq<u8>, b: seq<u8>, nowUs: int)
    ensures AfterBytes(AfterBytes(c, a, nowUs), b, nowUs) == AfterBytes(c, a + b, nowUs)
  {
    if !Terminal(c.state) {
      Joined(c.rx, a, b);
      DrainMore(c.state, c.rx + a, b, nowUs);
    }
  }

  lemma {:induction false} Joined(rx: seq<u8>, a: seq<u8>, b: seq<u8>)
    ensures rx + a + b == rx + (a + b)
  {
  }

  function Concat(chunks: seq<seq<u8>>): seq<u8> {
    if chunks == [] then [] else Concat(chunks[..|chunks| - 1]) + chunks[|chunks| - 1]
  }

  function FeedAll(c: Client, chunks: seq<seq<u8>>, nowUs: int): Client {
    if chunks == [] then c
    else AfterBytes(FeedAll(c, chunks[..|chunks| - 1], nowUs), chunks[|chunks| - 1], nowUs)
  }

  lemma {:induction false} QuietKept(c: Client)
    requires Quiet(c)
    ensures forall nowUs :: AfterBytes(c, [], nowUs) == c
  {
    assert c.rx + [] == c.rx;
  }

  lemma {:induction false} ChunksJoin(c: Client, chunks: seq<seq<u8>>, nowUs: int)
    requires Quiet(c)
    ensures FeedAll(c, chunks, nowUs) == AfterBytes(c, Concat(chunks), nowUs)
  {
    if chunks == [] {
      QuietKept(c);
    } else {
      var front := chunks[..|chunks| - 1];
      ChunksJoin(c, front, nowUs);
      TwoChunks(c, Concat(front), chunks[|chunks| - 1], nowUs);
    }
  }

  /** Any two ways of cutting the same bytes lead to the same client. */
  lemma {:induction false} ChunkingIrrelevant(c: Client, a: seq<seq<u8>>, b: seq<seq<u8>>, nowUs: int)
    requires Quiet(c) && Concat(a) == Concat(b)
    ensures FeedAll(c, a, nowUs) == FeedAll(c, b, nowUs)
  {
    ChunksJoin(c, a, nowUs);
    ChunksJoin(c, b, nowUs);
  }

  lemma {:induction false} StepQuiet(c: Client, i: Input)
    requires Quiet(c) && |c.rx| < 4 + 65536
    ensures Quiet(Step(c, i)) && |Step(c, i).rx| < 4 + 65536
  {
    if i.OnBytes? && !Terminal(c.state) {
      DrainQuiet(c.state, c.rx + i.bytes, i.nowUs);
    }
  }

  /** So chunking is irrelevant at every point of every run, and what is left over is less than one frame. */
  lemma {:induction false} LeftoverBounded(params: HelloParams, inputs: seq<Input>)
    ensures Quiet(Run(params, inputs)) && |Run(params, inputs).rx| < 4 + 65536
  {
    if inputs != [] {
      LeftoverBounded(params, inputs[..|inputs| - 1]);
      StepQuiet(Run(params, inputs[..|inputs| - 1]), inputs[|inputs| - 1]);
    }
  }

  // ---------------------------------------------------------------- arrival times

  /** A state without its clock. */
  function Timeless(s: State): State {
    s.(clockWindow := [], clockEstimate := None)
  }

  lemma {:induction false} AcknowledgedTimeless(s: State, body: seq<Entry>)
    ensures Timeless(Acknowledged(s, body)) == Acknowledged(Timeless(s), body)
  {
  }

  lemma {:induction false} SetupTimeless(s: State, t: nat, body: seq<Entry>)
    ensures Timeless(AfterSetup(s, t, body)) == AfterSetup(Timeless(s), t, body)
  {
    if s.step.AwaitConfig? && t == Control.CONFIG {
      AcknowledgedTimeless(s, body);
    }
  }

  lemma {:induction false} MessageTimeless(s: State, s': State, t: nat, body: seq<Entry>, now: int, now': int)
    requires Timeless(s) == Timeless(s')
    ensures Timeless(AfterMessage(s, t, body, now)) == Timeless(AfterMessage(s', t, body, now'))
  {
    if t == Control.CONFIG && s.phase.Streaming? {
      AcknowledgedTimeless(s, body);
      AcknowledgedTimeless(s', body);
    } else if s.phase.Negotiating? {
      SetupTimeless(s, t, body);
      SetupTimeless(s', t, body);
    }
  }

  lemma {:induction false} FrameTimeless(s: State, s': State, frame: seq<u8>, now: int, now': int)
    requires Timeless(s) == Timeless(s')
    ensures Timeless(AfterFrame(s, frame, now)) == Timeless(AfterFrame(s', frame, now'))
  {
    match Control.DecodeFrame(frame) {
      case Err(_) =>
      case Ok(Ignored) =>
      case Ok(Message(t, body)) => MessageTimeless(s, s', t, body, now, now');
    }
  }

  predicate SameButClock(c: Client, c': Client) {
    c.rx == c'.rx && Timeless(c.state) == Timeless(c'.state)
  }

  lemma {:induction false} DrainTimeless(s: State, s': State, rx: seq<u8>, now: int, now': int)
    requires Timeless(s) == Timeless(s')
    ensures SameButClock(Drain(s, rx, now), Drain(s', rx, now'))
    decreases |rx|, 0
  {
    if |rx| >= 4 && Control.FrameLen(rx) <= 65536 && |rx| >= 4 + Control.FrameLen(rx) {
      var n := 4 + Control.FrameLen(rx);
      FrameTimeless(s, s', rx[..n], now, now');
      CarriedTimeless(AfterFrame(s, rx[..n], now), AfterFrame(s', rx[..n], now'), rx[n..], now, now');
    }
  }

  lemma {:induction false} CarriedTimeless(s: State, s': State, rest: seq<u8>, now: int, now': int)
    requires Timeless(s) == Timeless(s')
    ensures SameButClock(Carried(s, rest, now), Carried(s', rest, now'))
    decreases |rest|, 1
  {
    if !Terminal(s) {
      DrainTimeless(s, s', rest, now, now');
    }
  }

  /** A chunk and when it arrived. */
  datatype Arrival = Arrival(bytes: seq<u8>, nowUs: int)

  function FeedArrivals(c: Client, arrivals: seq<Arrival>): Client {
    if arrivals == [] then c
    else
      var last := arrivals[|arrivals| - 1];
      AfterBytes(FeedArrivals(c, arrivals[..|arrivals| - 1]), last.bytes, last.nowUs)
  }

  function ArrivedBytes(arrivals: seq<Arrival>): seq<u8> {
    if arrivals == [] then [] else ArrivedBytes(arrivals[..|arrivals| - 1]) + arrivals[|arrivals| - 1].bytes
  }

  /** However the bytes are cut and whenever the pieces arrive, only the clock estimate can differ: the phase, the
      configuration, the leftover and the actions are those of one delivery. */
  lemma {:induction false} ArrivalIrrelevant(c: Client, arrivals: seq<Arrival>, nowUs: int)
    requires Quiet(c)
    ensures SameButClock(FeedArrivals(c, arrivals), AfterBytes(c, ArrivedBytes(arrivals), nowUs))
  {
    if arrivals == [] {
      QuietKept(c);
    } else {
      var front, last := arrivals[..|arrivals| - 1], arrivals[|arrivals| - 1];
      ArrivalIrrelevant(c, front, nowUs);
      var fed, whole := FeedArrivals(c, front), AfterBytes(c, ArrivedBytes(front), nowUs);
      assert Terminal(fed.state) <==> Terminal(Timeless(fed.state));
      DrainTimeless(fed.state, whole.state, fed.rx + last.bytes, last.nowUs, nowUs);
      TwoChunks(c, ArrivedBytes(front), last.bytes, nowUs);
    }
  }

  // ---------------------------------------------------------------- reading the log

  datatype Mark =
    | HelloSent
    | Established
    | AckSent(generation: i64)
    | MediaExpected
    | ConfigChanged
    | Fatal
    | ByeSent
    | Done
    | PingSent(at: i64)
    | ViewportSent
    | Stray

  /** The message type in a sent frame, read from its bytes, and the bytes of the body. */
  function FrameType(bytes: seq<u8>): Option<(i64, seq<u8>)> {
    if |bytes| < 5 then None
    else
      match DecodeItem(bytes[5..])
      case Some((Int(t), body)) => Some((t, body))
      case _ => None
  }

  /** The integer at key 0 of an encoded body. */
  function FirstInt(body: seq<u8>): Option<i64> {
    match DecodeItem(body)
    case Some((Map(entries), _)) => FindInt(entries, 0)
    case _ => None
  }

  function FrameMark(t: i64, body: seq<u8>): Mark {
    if t == Control.HELLO then HelloSent
    else if t == Control.BYE then ByeSent
    else if t == Control.VIEWPORT then ViewportSent
    else
      match FirstInt(body)
      case None => Stray
      case Some(x) =>
        if t == Control.CONFIG_ACK then AckSent(x) else if t == Control.CLOCK_PING then PingSent(x) else Stray
  }

  function MarkOf(a: Action): Mark {
    match a
    case SendControl(bytes) =>
      (match FrameType(bytes)
       case None => Stray
       case Some((t, body)) => FrameMark(t, body))
    case Established => Mark.Established
    case MediaExpected => Mark.MediaExpected
    case ConfigChanged => Mark.ConfigChanged
    case Fatal(_) => Mark.Fatal
    case CloseDone => Done
  }

  lemma {:induction false} SentType(t: nat, body: seq<Entry>)
    requires t <= INT64_MAX
    ensures FrameType(Control.EncodeFrame(t, body)) == Some((t, Encode(Map(body))))
  {
    Control.EnvelopeBytes(t, body);
    DecodeBack(Int(t), Encode(Map(body)));
  }

  lemma {:induction false} OneIntPlain(x: i64)
    ensures Sized(Map(OneInt(x))) && Canon(Map(OneInt(x))) == Map(OneInt(x))
  {
    var m := OneInt(x);
    var none: seq<Entry> := [];
    assert m[1..] == none && EntriesSized(none) && CanonEntries(none) == none && SortEntries(none) == none;
    assert EntriesSized(m) by { assert Sized(m[0].key) && Sized(m[0].val); }
    assert CanonEntry(m[0]) == m[0] by { assert Canon(m[0].key) == m[0].key && Canon(m[0].val) == m[0].val; }
    assert CanonEntries(m) == [CanonEntry(m[0])] + CanonEntries(m[1..]);
    assert CanonEntries(m) == m;
    assert SortEntries(m) == InsertEntry(m[0], SortEntries(m[1..]));
    assert InsertEntry(m[0], none) == m;
    assert Canon(Map(m)) == Map(SortEntries(CanonEntries(m)));
  }

  lemma {:induction false} SentInt(x: i64)
    ensures FirstInt(Encode(Map(OneInt(x)))) == Some(x)
  {
    var m := OneInt(x);
    OneIntPlain(x);
    DecodeBack(Map(m), []);
    assert Encode(Map(m)) + [] == Encode(Map(m));
  }

  /** What each of the session's own frames reads as. */
  lemma {:induction false} SentMark(t: nat, body: seq<Entry>)
    requires t <= INT64_MAX
    ensures t == Control.HELLO ==> MarkOf(Sent(t, body)) == HelloSent
    ensures t == Control.BYE ==> MarkOf(Sent(t, body)) == ByeSent
    ensures t == Control.VIEWPORT ==> MarkOf(Sent(t, body)) == ViewportSent
  {
    SentType(t, body);
  }

  lemma {:induction false} SentIntMark(t: nat, x: i64)
    requires t == Control.CONFIG_ACK || t == Control.CLOCK_PING
    ensures MarkOf(Sent(t, OneInt(x))) == if t == Control.CONFIG_ACK then AckSent(x) else PingSent(x)
  {
    SentType(t, OneInt(x));
    SentInt(x);
  }

  // ---------------------------------------------------------------- the handshake

  /** How far a log has come. After Renewing only ConfigChanged may follow, after Leaving only Closed, after Over
      nothing. */
  datatype Stage =
    | Before
    | Asked
    | Welcomed
    | Configured(generation: i64)
    | Live(generation: i64)
    | Renewing(generation: i64)
    | Leaving
    | Over

  /** HELLO, Established, CONFIG_ACK, MediaExpected, then CONFIG_ACK and ConfigChanged any number of times; at any
      point before the end Fatal, Closed, or BYE and Closed; pings once HELLO is out, viewports while live. */
  function Advance(st: Stage, m: Mark): Option<Stage> {
    match m
    case HelloSent => if st.Before? then Some(Asked) else None
    case Established => if st.Asked? then Some(Welcomed) else None
    case AckSent(g) => if st.Welcomed? then Some(Configured(g)) else if st.Live? then Some(Renewing(g)) else None
    case MediaExpected => if st.Configured? then Some(Live(st.generation)) else None
    case ConfigChanged => if st.Renewing? then Some(Live(st.generation)) else None
    case Fatal => if st.Renewing? || st.Leaving? || st.Over? then None else Some(Over)
    case ByeSent => if st.Renewing? || st.Leaving? || st.Over? then None else Some(Leaving)
    case Done => if st.Renewing? || st.Over? then None else Some(Over)
    case PingSent(_) => if st.Asked? || st.Welcomed? || st.Configured? || st.Live? then Some(st) else None
    case ViewportSent => if st.Live? then Some(st) else None
    case Stray => None
  }

  /** Where a log stands, if it has followed the handshake so far. */
  function Follows(log: seq<Action>): Option<Stage> {
    if log == [] then Some(Before)
    else
      match Follows(log[..|log| - 1])
      case None => None
      case Some(st) => Advance(st, MarkOf(log[|log| - 1]))
  }

  lemma {:induction false} FollowsNext(log: seq<Action>, a: Action)
    ensures Follows(log + [a]) == (match Follows(log) case None => None case Some(st) => Advance(st, MarkOf(a)))
  {
    assert (log + [a])[..|log|] == log;
  }

  /** Where a session in this state must stand. */
  function StageOf(s: State): Stage {
    match s.phase
    case Connecting => Before
    case Negotiating =>
      (match s.step
       case AwaitWelcome => Asked
       case AwaitConfig => Welcomed
       case AwaitStart => if s.config.Some? then Configured(ToI64(s.config.value.generation)) else Over)
    case Streaming => if s.config.Some? then Live(ToI64(s.config.value.generation)) else Over
    case Closed => Over
    case Failed => Over
  }

  predicate OnTrack(s: State) {
    && Follows(s.log) == Some(StageOf(s))
    && (s.phase.Streaming? || (s.phase.Negotiating? && s.step.AwaitStart?) ==> s.config.Some?)
  }

  lemma {:induction false} FailOnTrack(s: State, code: u64)
    requires OnTrack(s) && !Terminal(s)
    ensures OnTrack(Fail(s, code))
  {
    FollowsNext(s.log, Action.Fatal(code));
  }

  lemma {:induction false} HelloOnTrack(s: State, a: Action)
    requires OnTrack(s) && s.phase.Connecting? && MarkOf(a) == HelloSent
    ensures OnTrack(Push(s, a).(phase := Negotiating, step := AwaitWelcome))
  {
    FollowsNext(s.log, a);
  }

  lemma {:induction false} ByeOnTrack(s: State, a: Action)
    requires OnTrack(s) && !Terminal(s) && MarkOf(a) == ByeSent
    ensures OnTrack(Push(Push(s, a).(phase := Closed), CloseDone))
  {
    FollowsNext(s.log, a);
    FollowsNext(s.log + [a], CloseDone);
  }

  lemma {:induction false} EventOnTrack(s: State, ev: Event)
    requires OnTrack(s) && (ev.Connected? ==> s.phase.Connecting? || Terminal(s))
    ensures OnTrack(AfterEvent(s, ev))
  {
    if !Terminal(s) {
      match ev
      case Connected =>
        SentMark(Control.HELLO, HelloBody(s.params));
        HelloOnTrack(s, Sent(Control.HELLO, HelloBody(s.params)));
      case ConnectionLost =>
        FailOnTrack(s, INTERNAL);
      case UserBye =>
        SentMark(Control.BYE, OneInt(0));
        ByeOnTrack(s, Sent(Control.BYE, OneInt(0)));
    }
  }

  /** Acknowledging moves the log on to the generation now in force. */
  lemma {:induction false} AcknowledgedFollows(s: State, body: seq<Entry>)
    ensures var s' := Acknowledged(s, body);
            && s'.config == Some(ParseConfig(body))
            && Follows(s'.log) == (match Follows(s.log)
                                   case None => None
                                   case Some(st) => Advance(st, AckSent(ToI64(ParseConfig(body).generation))))
            && s' == s.(config := s'.config, out := s'.out, log := s'.log)
  {
    var g := ToI64(ParseConfig(body).generation);
    SentIntMark(Control.CONFIG_ACK, g);
    FollowsNext(s.log, Sent(Control.CONFIG_ACK, OneInt(g)));
  }

  lemma {:induction false} SetupOnTrack(s: State, t: nat, body: seq<Entry>)
    requires OnTrack(s) && s.phase.Negotiating?
    ensures OnTrack(AfterSetup(s, t, body))
  {
    FailOnTrack(s, PROTOCOL_VIOLATION);
    var s' := AfterSetup(s, t, body);
    if s'.phase.Failed? {
      assert s' == Fail(s, PROTOCOL_VIOLATION);
    } else {
      match s.step
      case AwaitWelcome => WelcomeOnTrack(s, s');
      case AwaitConfig => ConfigOnTrack(s, body);
      case AwaitStart => StartOnTrack(s, s');
    }
  }

  lemma {:induction false} WelcomeOnTrack(s: State, s': State)
    requires Follows(s.log) == Some(Asked)
    requires s'.phase.Negotiating? && s'.step.AwaitConfig? && s'.log == s.log + [Action.Established]
    ensures OnTrack(s')
  {
    FollowsNext(s.log, Action.Established);
  }

  lemma {:induction false} ConfigOnTrack(s: State, body: seq<Entry>)
    requires Follows(s.log) == Some(Welcomed) && s.phase.Negotiating?
    ensures OnTrack(Acknowledged(s, body).(step := AwaitStart))
  {
    AcknowledgedFollows(s, body);
  }

  lemma {:induction false} StartOnTrack(s: State, s': State)
    requires s.config.Some? && Follows(s.log) == Some(Configured(ToI64(s.config.value.generation)))
    requires s'.phase.Streaming? && s'.config == s.config && s'.log == s.log + [Action.MediaExpected]
    ensures OnTrack(s')
  {
    FollowsNext(s.log, Action.MediaExpected);
  }

  lemma {:induction false} RenewOnTrack(acked: State)
    requires acked.phase.Streaming? && acked.config.Some?
    requires Follows(acked.log) == Some(Renewing(ToI64(acked.config.value.generation)))
    ensures OnTrack(Push(acked, Action.ConfigChanged))
  {
    FollowsNext(acked.log, Action.ConfigChanged);
  }

  lemma {:induction false} ReconfigOnTrack(s: State, body: seq<Entry>)
    requires OnTrack(s) && s.phase.Streaming?
    ensures OnTrack(Push(Acknowledged(s, body), Action.ConfigChanged))
  {
    AcknowledgedFollows(s, body);
    RenewOnTrack(Acknowledged(s, body));
  }

  lemma {:induction false} CloseOnTrack(s: State)
    requires OnTrack(s) && !Terminal(s)
    ensures OnTrack(Push(s.(phase := Closed), CloseDone))
  {
    FollowsNext(s.log, CloseDone);
  }

  lemma {:induction false} PongOnTrack(s: State, body: seq<Entry>, nowUs: int)
    requires OnTrack(s)
    ensures OnTrack(AfterPong(s, body, nowUs))
  {
  }

  lemma {:induction false} MessageOnTrack(s: State, t: nat, body: seq<Entry>, nowUs: int)
    requires OnTrack(s) && !Terminal(s)
    ensures OnTrack(AfterMessage(s, t, body, nowUs))
  {
    if t == Control.BYE {
      CloseOnTrack(s);
    } else if t == Control.ERROR {
      var code := FindInt(body, 0);
      FailOnTrack(s, if code.Some? then ToU64(code.value) else INTERNAL);
    } else if t == Control.CLOCK_PONG {
      PongOnTrack(s, body, nowUs);
    } else if t == Control.CONFIG && s.phase.Streaming? {
      ReconfigOnTrack(s, body);
    } else if s.phase.Negotiating? {
      SetupOnTrack(s, t, body);
    }
  }

  lemma {:induction false} FrameOnTrack(s: State, frame: seq<u8>, nowUs: int)
    requires OnTrack(s) && !Terminal(s)
    ensures OnTrack(AfterFrame(s, frame, nowUs))
  {
    match Control.DecodeFrame(frame) {
      case Err(_) => FailOnTrack(s, PROTOCOL_VIOLATION);
      case Ok(Ignored) =>
      case Ok(Message(t, body)) => MessageOnTrack(s, t, body, nowUs);
    }
  }

  lemma {:induction false} DrainOnTrack(s: State, rx: seq<u8>, nowUs: int)
    requires OnTrack(s) && !Terminal(s)
    ensures OnTrack(Drain(s, rx, nowUs).state)
    decreases |rx|, 0
  {
    if |rx| < 4 {
    } else if Control.FrameLen(rx) > 65536 {
      FailOnTrack(s, PROTOCOL_VIOLATION);
    } else if |rx| >= 4 + Control.FrameLen(rx) {
      var n := 4 + Control.FrameLen(rx);
      FrameOnTrack(s, rx[..n], nowUs);
      CarriedOnTrack(AfterFrame(s, rx[..n], nowUs), rx[n..], nowUs);
    }
  }

  lemma {:induction false} CarriedOnTrack(s: State, rest: seq<u8>, nowUs: int)
    requires OnTrack(s)
    ensures OnTrack(Carried(s, rest, nowUs).state)
    decreases |rest|, 1
  {
    if !Terminal(s) {
      DrainOnTrack(s, rest, nowUs);
    }
  }

  lemma {:induction false} PingOnTrack(s: State, a: Action, nowUs: i64)
    requires OnTrack(s) && !s.phase.Connecting? && !Terminal(s) && MarkOf(a).PingSent?
    ensures OnTrack(Push(s.(pinged := true, lastPingUs := nowUs), a))
  {
    FollowsNext(s.log, a);
  }

  lemma {:induction false} ViewportOnTrack(s: State, a: Action, nowUs: int)
    requires OnTrack(s) && s.phase.Streaming? && MarkOf(a).ViewportSent?
    ensures OnTrack(Push(s.(viewportSent := true, lastViewportUs := nowUs), a))
  {
    FollowsNext(s.log, a);
  }

  /** A second Connected, while the session it would restart is under way. */
  predicate Restarts(s: State, i: Input) {
    i == OnEvent(Connected) && (s.phase.Negotiating? || s.phase.Streaming?)
  }

  lemma {:induction false} StepOnTrack(c: Client, i: Input)
    requires OnTrack(c.state) && !Restarts(c.state, i)
    ensures OnTrack(Step(c, i).state)
  {
    match i
    case OnEvent(ev) => EventOnTrack(c.state, ev);
    case OnBytes(bytes, nowUs) =>
      if !Terminal(c.state) {
        DrainOnTrack(c.state, c.rx + bytes, nowUs);
      }
    case OnTick(nowUs) =>
      if !c.state.phase.Connecting? && !Terminal(c.state) {
        SentIntMark(Control.CLOCK_PING, nowUs);
        PingOnTrack(c.state, Sent(Control.CLOCK_PING, OneInt(nowUs)), nowUs);
      }
    case OnViewport(w, h, nowUs) =>
      if c.state.phase.Streaming? {
        SentMark(Control.VIEWPORT, ViewportBody(w, h));
        ViewportOnTrack(c.state, Sent(Control.VIEWPORT, ViewportBody(w, h)), nowUs);
      }
    case OnPoll =>
  }

  // ---------------------------------------------------------------- what a step queues

  /** What the session may put on the control stream. */
  datatype Intent = Greet | Leave | Ack(generation: i64) | Ping(at: i64) | Resize(width: u32, height: u32)

  function Voiced(params: HelloParams, intent: Intent): Action {
    match intent
    case Greet => Sent(Control.HELLO, HelloBody(params))
    case Leave => Sent(Control.BYE, OneInt(0))
    case Ack(g) => Sent(Control.CONFIG_ACK, OneInt(g))
    case Ping(at) => Sent(Control.CLOCK_PING, OneInt(at))
    case Resize(w, h) => Sent(Control.VIEWPORT, ViewportBody(w, h))
  }

  ghost predicate Own(params: HelloParams, a: Action) {
    a.SendControl? ==> exists intent :: a == Voiced(params, intent)
  }

  /** A step queues these actions, none of them a ping, and leaves the ping clock alone. */
  ghost predicate Queues(s: State, s': State, q: seq<Action>) {
    && s'.params == s.params
    && s'.out == s.out + q
    && s'.log == s.log + q
    && s'.pinged == s.pinged && s'.lastPingUs == s.lastPingUs
    && forall k :: 0 <= k < |q| ==> !MarkOf(q[k]).PingSent? && Own(s.params, q[k])
  }

  lemma {:induction false} QueuesBoth(s: State, s': State, s'': State, a: seq<Action>, b: seq<Action>)
    requires Queues(s, s', a) && Queues(s', s'', b)
    ensures Queues(s, s'', a + b)
  {
    assert s.out + a + b == s.out + (a + b) && s.log + a + b == s.log + (a + b);
  }

  lemma {:induction false} SendQueues(s: State, s': State, a: Action, intent: Intent)
    requires a == Voiced(s.params, intent) && !MarkOf(a).PingSent?
    requires s' == s.(phase := s'.phase, step := s'.step, out := s.out + [a], log := s.log + [a])
    ensures Queues(s, s', [a])
  {
  }

  lemma {:induction false} ByeQueues(s: State, a: Action)
    requires a == Voiced(s.params, Leave) && !MarkOf(a).PingSent?
    ensures Queues(s, Push(Push(s, a).(phase := Closed), CloseDone), [a] + [CloseDone])
  {
    var s1 := Push(s, a).(phase := Closed);
    SendQueues(s, s1, a, Leave);
    QueuesBoth(s, s1, Push(s1, CloseDone), [a], [CloseDone]);
  }

  lemma {:induction false} EventQueues(s: State, ev: Event) returns (q: seq<Action>)
    ensures Queues(s, AfterEvent(s, ev), q)
  {
    if Terminal(s) {
      q := [];
    } else {
      match ev
      case Connected =>
        var a := Voiced(s.params, Greet);
        SentMark(Control.HELLO, HelloBody(s.params));
        SendQueues(s, AfterEvent(s, ev), a, Greet);
        q := [a];
      case ConnectionLost =>
        q := [Action.Fatal(INTERNAL)];
      case UserBye =>
        var a := Voiced(s.params, Leave);
        SentMark(Control.BYE, OneInt(0));
        ByeQueues(s, a);
        q := [a] + [CloseDone];
    }
  }

  lemma {:induction false} AcknowledgedQueues(s: State, body: seq<Entry>) returns (q: seq<Action>)
    ensures Queues(s, Acknowledged(s, body), q)
  {
    var g := ToI64(ParseConfig(body).generation);
    SentIntMark(Control.CONFIG_ACK, g);
    assert Sent(Control.CONFIG_ACK, OneInt(g)) == Voiced(s.params, Ack(g));
    q := [Sent(Control.CONFIG_ACK, OneInt(g))];
  }

  lemma {:induction false} SetupQueues(s: State, t: nat, body: seq<Entry>) returns (q: seq<Action>)
    ensures Queues(s, AfterSetup(s, t, body), q)
  {
    if s.step.AwaitConfig? && t == Control.CONFIG {
      q := AcknowledgedQueues(s, body);
    } else {
      q := [AfterSetup(s, t, body).log[|s.log|]];
    }
  }

  lemma {:induction false} MessageQueues(s: State, t: nat, body: seq<Entry>, nowUs: int) returns (q: seq<Action>)
    ensures Queues(s, AfterMessage(s, t, body, nowUs), q)
  {
    if t == Control.BYE {
      q := [CloseDone];
    } else if t == Control.ERROR {
      q := [AfterMessage(s, t, body, nowUs).log[|s.log|]];
    } else if t == Control.CLOCK_PONG {
      q := [];
    } else if t == Control.CONFIG && s.phase.Streaming? {
      q := AcknowledgedQueues(s, body);
      var acked := Acknowledged(s, body);
      QueuesBoth(s, acked, Push(acked, Action.ConfigChanged), q, [Action.ConfigChanged]);
      q := q + [Action.ConfigChanged];
    } else if !s.phase.Negotiating? {
      q := [];
    } else {
      q := SetupQueues(s, t, body);
    }
  }

  lemma {:induction false} FrameQueues(s: State, frame: seq<u8>, nowUs: int) returns (q: seq<Action>)
    ensures Queues(s, AfterFrame(s, frame, nowUs), q)
  {
    match Control.DecodeFrame(frame) {
      case Err(_) => q := [Action.Fatal(PROTOCOL_VIOLATION)];
      case Ok(Ignored) => q := [];
      case Ok(Message(t, body)) => q := MessageQueues(s, t, body, nowUs);
    }
  }

  lemma {:induction false} DrainQueues(s: State, rx: seq<u8>, nowUs: int) returns (q: seq<Action>)
    ensures Queues(s, Drain(s, rx, nowUs).state, q)
    decreases |rx|, 0
  {
    if |rx| < 4 {
      q := [];
    } else if Control.FrameLen(rx) > 65536 {
      q := [Action.Fatal(PROTOCOL_VIOLATION)];
    } else if |rx| < 4 + Control.FrameLen(rx) {
      q := [];
    } else {
      var n := 4 + Control.FrameLen(rx);
      var s' := AfterFrame(s, rx[..n], nowUs);
      q := FrameQueues(s, rx[..n], nowUs);
      var more := CarriedQueues(s', rx[n..], nowUs);
      QueuesBoth(s, s', Carried(s', rx[n..], nowUs).state, q, more);
      q := q + more;
    }
  }

  lemma {:induction false} CarriedQueues(s: State, rest: seq<u8>, nowUs: int) returns (q: seq<Action>)
    ensures Queues(s, Carried(s, rest, nowUs).state, q)
    decreases |rest|, 1
  {
    if Terminal(s) {
      q := [];
    } else {
      q := DrainQueues(s, rest, nowUs);
    }
  }

  lemma {:induction false} StepQueues(c: Client, i: Input) returns (q: seq<Action>)
    requires !i.OnTick? && !i.OnPoll?
    ensures Queues(c.state, Step(c, i).state, q)
  {
    match i
    case OnEvent(ev) => q := EventQueues(c.state, ev);
    case OnBytes(bytes, nowUs) =>
      if Terminal(c.state) {
        q := [];
      } else {
        q := DrainQueues(c.state, c.rx + bytes, nowUs);
      }
    case OnViewport(w, h, nowUs) =>
      SentMark(Control.VIEWPORT, ViewportBody(w, h));
      assert Sent(Control.VIEWPORT, ViewportBody(w, h)) == Voiced(c.state.params, Resize(w, h));
      q := if Step(c, i) == c then [] else [Sent(Control.VIEWPORT, ViewportBody(w, h))];
    case _ =>
  }

  lemma {:induction false} StrayStays(log: seq<Action>, more: seq<Action>)
    requires Follows(log).None?
    ensures Follows(log + more).None?
  {
    if more == [] {
      assert log + more == log;
    } else {
      StrayStays(log, more[..|more| - 1]);
      assert log + more == log + more[..|more| - 1] + [more[|more| - 1]];
      FollowsNext(log + more[..|more| - 1], more[|more| - 1]);
    }
  }

  /** A log that has left the handshake never returns to it. */
  lemma {:induction false} StepStaysStray(c: Client, i: Input)
    requires Follows(c.state.log).None?
    ensures Follows(Step(c, i).state.log).None?
  {
    if i.OnTick? {
      FollowsNext(c.state.log, Sent(Control.CLOCK_PING, OneInt(i.tickUs)));
    } else if !i.OnPoll? {
      var q := StepQueues(c, i);
      StrayStays(c.state.log, q);
    }
  }

  /** A second HELLO is off the handshake. */
  lemma {:induction false} RestartStrays(s: State)
    requires OnTrack(s) && (s.phase.Negotiating? || s.phase.Streaming?)
    ensures Follows(AfterEvent(s, Connected).log).None?
  {
    SentMark(Control.HELLO, HelloBody(s.params));
    FollowsNext(s.log, Sent(Control.HELLO, HelloBody(s.params)));
  }

  // ---------------------------------------------------------------- the log over whole runs

  /** Somewhere in the run a Connected arrives while the session is under way. */
  predicate EverRestarts(params: HelloParams, inputs: seq<Input>) {
    inputs != [] &&
    var front := inputs[..|inputs| - 1];
    EverRestarts(params, front) || Restarts(Run(params, front).state, inputs[|inputs| - 1])
  }

  /** The handshake over every run: the queued actions follow it exactly when no Connected arrives while the session
      is negotiating or streaming. They then stand where the state says: nothing follows a terminal action, each
      acknowledgement carries the generation of the CONFIG then in force, and a streaming session has a
      configuration, whose generation it acknowledged last. */
  lemma {:induction false} HandshakeFollowed(params: HelloParams, inputs: seq<Input>)
    ensures Follows(Run(params, inputs).state.log).Some? <==> !EverRestarts(params, inputs)
    ensures !EverRestarts(params, inputs) ==> OnTrack(Run(params, inputs).state)
  {
    if inputs != [] {
      var front, last := inputs[..|inputs| - 1], inputs[|inputs| - 1];
      HandshakeFollowed(params, front);
      var c := Run(params, front);
      if EverRestarts(params, front) {
        StepStaysStray(c, last);
      } else if Restarts(c.state, last) {
        RestartStrays(c.state);
      } else {
        StepOnTrack(c, last);
      }
    }
  }

  function Connects(inputs: seq<Input>): nat {
    if inputs == [] then 0
    else Connects(inputs[..|inputs| - 1]) + if inputs[|inputs| - 1] == OnEvent(Connected) then 1 else 0
  }

  predicate Idle(s: State) {
    s.phase.Connecting? || Terminal(s)
  }

  lemma {:induction false} FrameIdle(s: State, frame: seq<u8>, nowUs: int)
    requires Idle(s)
    ensures Idle(AfterFrame(s, frame, nowUs))
  {
    match Control.DecodeFrame(frame) {
      case Err(_) =>
      case Ok(Ignored) =>
      case Ok(Message(t, body)) => assert Idle(AfterMessage(s, t, body, nowUs));
    }
  }

  lemma {:induction false} DrainIdle(s: State, rx: seq<u8>, nowUs: int)
    requires Idle(s)
    ensures Idle(Drain(s, rx, nowUs).state)
    decreases |rx|, 0
  {
    if |rx| >= 4 && Control.FrameLen(rx) <= 65536 && |rx| >= 4 + Control.FrameLen(rx) {
      var n := 4 + Control.FrameLen(rx);
      FrameIdle(s, rx[..n], nowUs);
      CarriedIdle(AfterFrame(s, rx[..n], nowUs), rx[n..], nowUs);
    }
  }

  lemma {:induction false} CarriedIdle(s: State, rest: seq<u8>, nowUs: int)
    requires Idle(s)
    ensures Idle(Carried(s, rest, nowUs).state)
    decreases |rest|, 1
  {
    if !Terminal(s) {
      DrainIdle(s, rest, nowUs);
    }
  }

  lemma {:induction false} IdleUntilConnected(params: HelloParams, inputs: seq<Input>)
    requires Connects(inputs) == 0
    ensures Idle(Run(params, inputs).state)
  {
    if inputs != [] {
      var front, last := inputs[..|inputs| - 1], inputs[|inputs| - 1];
      IdleUntilConnected(params, front);
      var c := Run(params, front);
      if last.OnBytes? && !Terminal(c.state) {
        DrainIdle(c.state, c.rx + last.bytes, last.nowUs);
      }
    }
  }

  /** A transport that reports Connected at most once never breaks the handshake, whatever the peer sends. */
  lemma {:induction false} ConnectedOnce(params: HelloParams, inputs: seq<Input>)
    requires Connects(inputs) <= 1
    ensures !EverRestarts(params, inputs) && OnTrack(Run(params, inputs).state)
  {
    if inputs != [] {
      var front, last := inputs[..|inputs| - 1], inputs[|inputs| - 1];
      ConnectedOnce(params, front);
      if last == OnEvent(Connected) {
        IdleUntilConnected(params, front);
      }
    }
    HandshakeFollowed(params, inputs);
  }

  // ---------------------------------------------------------------- pings

  /** The time in the newest ping. */
  function LastPing(log: seq<Action>): Option<i64> {
    if log == [] then None
    else
      match MarkOf(log[|log| - 1])
      case PingSent(at) => Some(at)
      case _ => LastPing(log[..|log| - 1])
  }

  /** Each ping is at least 500 ms after the one before it. */
  predicate PingsSpaced(log: seq<Action>) {
    log == [] ||
    var front, m := log[..|log| - 1], MarkOf(log[|log| - 1]);
    && PingsSpaced(front)
    && (m.PingSent? && LastPing(front).Some? ==> m.at - LastPing(front).value >= 500_000)
  }

  predicate PingsTracked(s: State) {
    && PingsSpaced(s.log)
    && (if s.pinged then LastPing(s.log).Some? && LastPing(s.log).value == s.lastPingUs else LastPing(s.log).None?)
  }

  lemma {:induction false} PingsUnmoved(log: seq<Action>, more: seq<Action>)
    requires forall k :: 0 <= k < |more| ==> !MarkOf(more[k]).PingSent?
    ensures LastPing(log + more) == LastPing(log) && (PingsSpaced(log) ==> PingsSpaced(log + more))
  {
    if more == [] {
      assert log + more == log;
    } else {
      var front := more[..|more| - 1];
      PingsUnmoved(log, front);
      assert (log + more)[..|log + more| - 1] == log + front;
    }
  }

  lemma {:induction false} TickTracked(s: State, nowUs: i64)
    requires PingsTracked(s)
    ensures PingsTracked(AfterTick(s, nowUs))
  {
    var a := Sent(Control.CLOCK_PING, OneInt(nowUs));
    SentIntMark(Control.CLOCK_PING, nowUs);
    assert (s.log + [a])[..|s.log|] == s.log;
  }

  /** Over every run, even one that reconnects: pings queued one after the other are at least 500 ms apart. */
  lemma {:induction false} PingsEverSpaced(params: HelloParams, inputs: seq<Input>)
    ensures PingsTracked(Run(params, inputs).state)
  {
    if inputs != [] {
      var front, last := inputs[..|inputs| - 1], inputs[|inputs| - 1];
      PingsEverSpaced(params, front);
      var c := Run(params, front);
      if last.OnTick? {
        TickTracked(c.state, last.tickUs);
      } else if !last.OnPoll? {
        var q := StepQueues(c, last);
        PingsUnmoved(c.state.log, q);
      }
    }
  }

  // ---------------------------------------------------------------- viewports

  /** When the viewports of a run were queued. */
  function ViewTimes(params: HelloParams, inputs: seq<Input>): seq<int> {
    if inputs == [] then []
    else
      var front, last := inputs[..|inputs| - 1], inputs[|inputs| - 1];
      var c := Run(params, front);
      ViewTimes(params, front)
      + if last.OnViewport? && Step(c, last).state.log != c.state.log then [last.viewUs] else []
  }

  predicate SameViews(s: State, s': State) {
    s'.viewportSent == s.viewportSent && s'.lastViewportUs == s.lastViewportUs
  }

  lemma {:induction false} FrameViews(s: State, frame: seq<u8>, nowUs: int)
    ensures SameViews(s, AfterFrame(s, frame, nowUs))
  {
    match Control.DecodeFrame(frame) {
      case Err(_) =>
      case Ok(Ignored) =>
      case Ok(Message(t, body)) => assert SameViews(s, AfterMessage(s, t, body, nowUs));
    }
  }

  lemma {:induction false} DrainViews(s: State, rx: seq<u8>, nowUs: int)
    ensures SameViews(s, Drain(s, rx, nowUs).state)
    decreases |rx|, 0
  {
    if |rx| >= 4 && Control.FrameLen(rx) <= 65536 && |rx| >= 4 + Control.FrameLen(rx) {
      var n := 4 + Control.FrameLen(rx);
      FrameViews(s, rx[..n], nowUs);
      CarriedViews(AfterFrame(s, rx[..n], nowUs), rx[n..], nowUs);
    }
  }

  lemma {:induction false} CarriedViews(s: State, rest: seq<u8>, nowUs: int)
    ensures SameViews(s, Carried(s, rest, nowUs).state)
    decreases |rest|, 1
  {
    if !Terminal(s) {
      DrainViews(s, rest, nowUs);
    }
  }

  /** Each is at least 250 ms after the one before it, and the newest is remembered. */
  predicate ViewsTracked(s: State, times: seq<int>) {
    && (s.viewportSent <==> times != [])
    && (times != [] ==> times[|times| - 1] == s.lastViewportUs)
    && forall k :: 0 <= k < |times| - 1 ==> times[k + 1] - times[k] >= 250_000
  }

  lemma {:induction false} ViewportTracked(s: State, width: u32, height: u32, nowUs: int, times: seq<int>)
    requires ViewsTracked(s, times)
    ensures var s' := AfterViewport(s, width, height, nowUs);
            ViewsTracked(s', times + if s'.log != s.log then [nowUs] else [])
  {
    var s' := AfterViewport(s, width, height, nowUs);
    if s'.log != s.log {
      var times' := times + [nowUs];
      forall k | 0 <= k < |times'| - 1 ensures times'[k + 1] - times'[k] >= 250_000 {
        if k + 1 < |times| { assert times[k + 1] - times[k] >= 250_000; }
      }
    } else {
      assert |s'.log| == |s.log|;
    }
  }

  /** Over every run viewports queued one after the other are at least 250 ms apart. */
  lemma {:induction false} ViewportsEverSpaced(params: HelloParams, inputs: seq<Input>)
    ensures ViewsTracked(Run(params, inputs).state, ViewTimes(params, inputs))
  {
    if inputs != [] {
      var front, last := inputs[..|inputs| - 1], inputs[|inputs| - 1];
      ViewportsEverSpaced(params, front);
      var c := Run(params, front);
      if last.OnViewport? {
        ViewportTracked(c.state, last.width, last.height, last.viewUs, ViewTimes(params, front));
      } else {
        StepViews(c, last);
      }
    }
  }

  lemma {:induction false} StepViews(c: Client, i: Input)
    requires !i.OnViewport?
    ensures SameViews(c.state, Step(c, i).state)
  {
    if i.OnBytes? && !Terminal(c.state) {
      DrainViews(c.state, c.rx + i.bytes, i.nowUs);
    }
  }

  // ---------------------------------------------------------------- polling

  /** Everything the polls of a run returned, in order. */
  function Polled(params: HelloParams, inputs: seq<Input>): seq<Action> {
    if inputs == [] then []
    else
      var front := inputs[..|inputs| - 1];
      Polled(params, front) + if inputs[|inputs| - 1].OnPoll? then Run(params, front).state.out else []
  }

  /** Polling loses, repeats and reorders nothing: what was polled and what still waits is the whole log. */
  lemma {:induction false} PollConserves(params: HelloParams, inputs: seq<Input>)
    ensures Polled(params, inputs) + Run(params, inputs).state.out == Run(params, inputs).state.log
  {
    if inputs != [] {
      var front, last := inputs[..|inputs| - 1], inputs[|inputs| - 1];
      PollConserves(params, front);
      StepConserves(Polled(params, front), Run(params, front), last);
    }
  }

  lemma {:induction false} StepConserves(polled: seq<Action>, c: Client, i: Input)
    requires polled + c.state.out == c.state.log
    ensures var s' := Step(c, i).state;
            polled + (if i.OnPoll? then c.state.out else []) + s'.out == s'.log
  {
    if i.OnTick? {
      TickConserves(polled, c.state, i.tickUs);
    } else if !i.OnPoll? {
      var q := StepQueues(c, i);
      QueuesConserve(polled, c.state, Step(c, i).state, q);
      assert polled + [] == polled;
    }
  }

  lemma {:induction false} QueuesConserve(polled: seq<Action>, s: State, s': State, q: seq<Action>)
    requires polled + s.out == s.log && Queues(s, s', q)
    ensures polled + s'.out == s'.log
  {
    assert polled + (s.out + q) == s.log + q;
  }

  lemma {:induction false} TickConserves(polled: seq<Action>, s: State, nowUs: i64)
    requires polled + s.out == s.log
    ensures polled + AfterTick(s, nowUs).out == AfterTick(s, nowUs).log
  {
    var a := Sent(Control.CLOCK_PING, OneInt(nowUs));
    assert polled + (s.out + [a]) == s.log + [a];
  }

  // ---------------------------------------------------------------- what goes on the wire

  ghost predicate AllOwn(params: HelloParams, log: seq<Action>) {
    forall k :: 0 <= k < |log| ==> Own(params, log[k])
  }

  /** Every frame the session ever sends is one of its own five kinds, HELLO with the parameters it was made with. */
  lemma {:induction false} SendsOnlyItsOwn(params: HelloParams, inputs: seq<Input>)
    ensures Run(params, inputs).state.params == params && AllOwn(params, Run(params, inputs).state.log)
  {
    if inputs != [] {
      var front, last := inputs[..|inputs| - 1], inputs[|inputs| - 1];
      SendsOnlyItsOwn(params, front);
      var c := Run(params, front);
      if last.OnTick? {
        assert Sent(Control.CLOCK_PING, OneInt(last.tickUs)) == Voiced(params, Ping(last.tickUs));
      } else if !last.OnPoll? {
        var q := StepQueues(c, last);
      }
    }
  }
}
