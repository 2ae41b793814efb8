/** What the session must do, and when: each input's effect in the protocol's own numbers, and what the frames it sends
    say to a peer that looks them up. */
module SessionDuties {
  import opened Base
  import opened Cbor
  import opened CborRoundTrip
  import opened Session
  import opened SessionRuns
  import opened SessionFrames
  import Control
  import ControlKeys
  import History = SessionHistory
  import Runs = SessionRuns

  // ---------------------------------------------------------------- saying

  /** The action sends a frame that decodes to this message. */
  predicate Says(a: Action, t: nat, body: seq<Entry>) {
    a.SendControl? && Control.DecodeFrame(a.bytes) == Ok(Control.Message(t, body))
  }

  /** One action is queued. */
  predicate Queued(s: State, s': State, a: Action) {
    s'.out == s.out + [a] && s'.log == s.log + [a]
  }

  // ---------------------------------------------------------------- pings

  lemma {:induction false} TickQueues(s: State, nowUs: i64)
    requires PingsTracked(s)
    ensures var s' := AfterTick(s, nowUs);
            var last := LastPing(s.log);
            if (s.phase.Negotiating? || s.phase.Streaming?) && (last.None? || nowUs - last.value >= 500_000) then
              Queued(s, s', Sent(Control.CLOCK_PING, OneInt(nowUs)))
            else s' == s
  {
  }

  /** Over every run: a tick queues a ping with its own time if and only if the session is negotiating or streaming and
      no ping is in the log or the newest is at least 500 ms old; otherwise it changes nothing. */
  lemma {:induction false} TickPingsIff(params: HelloParams, inputs: seq<Input>, nowUs: i64)
    ensures var s := Run(params, inputs).state;
            var s' := Run(params, inputs + [OnTick(nowUs)]).state;
            var last := LastPing(s.log);
            if (s.phase.Negotiating? || s.phase.Streaming?) && (last.None? || nowUs - last.value >= 500_000) then
              && |s'.log| == |s.log| + 1
              && Queued(s, s', s'.log[|s.log|])
              && MarkOf(s'.log[|s.log|]) == PingSent(nowUs)
              && Says(s'.log[|s.log|], 0x30, [Entry(Int(0), Int(nowUs))])
            else s' == s
  {
    RunNext(params, inputs, OnTick(nowUs));
    PingsEverSpaced(params, inputs);
    TickQueues(Run(params, inputs).state, nowUs);
    SentIntMark(Control.CLOCK_PING, nowUs);
    OneIntArrives(Control.CLOCK_PING, nowUs);
  }

  lemma {:induction false} RunNext(params: HelloParams, inputs: seq<Input>, i: Input)
    ensures Run(params, inputs + [i]) == Runs.Step(Run(params, inputs), i)
  {
    assert (inputs + [i])[..|inputs|] == inputs;
  }

  // ---------------------------------------------------------------- viewports

  lemma {:induction false} ViewportQueues(s: State, times: seq<int>, width: u32, height: u32, nowUs: int)
    requires ViewsTracked(s, times)
    ensures var s' := AfterViewport(s, width, height, nowUs);
            if s.phase.Streaming? && (times == [] || nowUs - times[|times| - 1] >= 250_000) then
              Queued(s, s', Sent(Control.VIEWPORT, ViewportBody(width, height)))
            else s' == s
  {
  }

  /** A peer reads the width first and the height second. */
  lemma {:induction false} ViewportTells(width: u32, height: u32)
    ensures var a := Sent(Control.VIEWPORT, ViewportBody(width, height));
            && Says(a, 0x22, [Entry(Int(0), Array([Int(width), Int(height)]))])
            && var body := Control.DecodeFrame(a.bytes).value.body;
               FindPairElem(body, 0, 0) == Some(width) && FindPairElem(body, 0, 1) == Some(height)
  {
    ViewportArrives(width, height);
    FindPairAt([Entry(Int(0), Array([Int(width), Int(height)]))], 1, 0, width, height);
  }

  /** Over every run: a viewport request queues a frame that says width and height if and only if the session is
      streaming and none was queued less than 250 ms before; otherwise it changes nothing. */
  lemma {:induction false} ViewportSentIff(params: HelloParams, inputs: seq<Input>, width: u32, height: u32, nowUs: int)
    ensures var s := Run(params, inputs).state;
            var s' := Run(params, inputs + [OnViewport(width, height, nowUs)]).state;
            var times := ViewTimes(params, inputs);
            if s.phase.Streaming? && (times == [] || nowUs - times[|times| - 1] >= 250_000) then
              && |s'.log| == |s.log| + 1
              && Queued(s, s', s'.log[|s.log|])
              && Says(s'.log[|s.log|], 0x22, [Entry(Int(0), Array([Int(width), Int(height)]))])
            else s' == s
  {
    RunNext(params, inputs, OnViewport(width, height, nowUs));
    ViewportsEverSpaced(params, inputs);
    ViewportDue(Run(params, inputs).state, ViewTimes(params, inputs), width, height, nowUs);
  }

  lemma {:induction false} ViewportDue(s: State, times: seq<int>, width: u32, height: u32, nowUs: int)
    requires ViewsTracked(s, times)
    ensures var s' := AfterViewport(s, width, height, nowUs);
            if s.phase.Streaming? && (times == [] || nowUs - times[|times| - 1] >= 250_000) then
              && |s'.log| == |s.log| + 1
              && Queued(s, s', s'.log[|s.log|])
              && Says(s'.log[|s.log|], 0x22, [Entry(Int(0), Array([Int(width), Int(height)]))])
            else s' == s
  {
    ViewportQueues(s, times, width, height, nowUs);
    ViewportTells(width, height);
  }

  // ---------------------------------------------------------------- statistics

  lemma {:induction false} FindNone(m: seq<Entry>, key: i64)
    requires forall i :: 0 <= i < |m| ==> m[i].key != Int(key)
    ensures FindInt(m, key) == None
  {
    if m != [] {
      FindNone(m[1..], key);
    }
  }

  /** The index of key 7, if it is there, in a report's body. */
  function After6(report: StatsInput): nat {
    if report.e2eUs.Some? then 7 else 6
  }

  /** What a peer finds in a STATS frame: each count at its own key, the jitter at key 3, and keys 6 and 7 exactly when
      there is a latency and when the stream is not the primary one. */
  lemma {:induction false} StatsTell(report: StatsInput)
    ensures var r := Control.DecodeFrame(Control.EncodeFrame(Control.STATS, StatsBody(report)));
            && r.Ok? && r.value.Message? && r.value.msgType == 0x21
            && var m := r.value.body;
               && OrZero(FindInt(m, 0)) == report.framesReceived && FindInt(m, 0).Some?
               && OrZero(FindInt(m, 1)) == report.framesDropped && FindInt(m, 1).Some?
               && OrZero(FindInt(m, 2)) == report.datagrams && FindInt(m, 2).Some?
               && Entry(Int(3), Float(CanonicalDouble(report.jitterMs))) in m
               && OrZero(FindInt(m, 4)) == report.decodeUs && FindInt(m, 4).Some?
               && OrZero(FindInt(m, 5)) == report.rttUs && FindInt(m, 5).Some?
               && (FindInt(m, 6).Some? <==> report.e2eUs.Some?)
               && (report.e2eUs.Some? ==> OrZero(FindInt(m, 6)) == report.e2eUs.value)
               && FindInt(m, 7) == if report.streamId != 0 then Some(report.streamId) else None
  {
    StatsArrive(report);
    StatsLookups(report.(jitterMs := CanonicalDouble(report.jitterMs)));
  }

  lemma {:induction false} StatsLookups(report: StatsInput)
    ensures var m := StatsBody(report);
            && FindInt(m, 0) == Some(ToI64(report.framesReceived))
            && FindInt(m, 1) == Some(ToI64(report.framesDropped))
            && FindInt(m, 2) == Some(ToI64(report.datagrams))
            && m[3] == Entry(Int(3), Float(report.jitterMs))
            && FindInt(m, 4) == Some(ToI64(report.decodeUs))
            && FindInt(m, 5) == Some(ToI64(report.rttUs))
            && FindInt(m, 6) == (if report.e2eUs.Some? then Some(ToI64(report.e2eUs.value)) else None)
            && FindInt(m, 7) == if report.streamId != 0 then Some(report.streamId) else None
  {
    var m := StatsBody(report);
    StatsShape(report);
    FindAt(m, 8, 0);
    FindAt(m, 8, 1);
    FindAt(m, 8, 2);
    FindAt(m, 8, 4);
    FindAt(m, 8, 5);
    if report.e2eUs.Some? {
      FindAt(m, 8, 6);
    } else {
      FindNone(m, 6);
    }
    if report.streamId != 0 {
      FindAt(m, 8, After6(report));
    } else {
      FindNone(m, 7);
    }
  }

  // ---------------------------------------------------------------- lifecycle events

  /** What a host finds in the HELLO it decodes, if it fits a frame. */
  lemma {:induction false} HelloSays(p: HelloParams)
    requires HelloFits(p)
    ensures var r := Control.DecodeFrame(Sent(Control.HELLO, HelloBody(p)).bytes);
            && r.Ok? && r.value.Message? && r.value.msgType == 0x01
            && var m := r.value.body;
               && FindInt(m, 0) == Some(1) && FindText(m, 1) == Some(p.clientName)
               && FindArray(m, 2) == Some(Codecs(p.codecs))
               && FindPairElem(m, 3, 0) == Some(p.maxWidth) && FindPairElem(m, 3, 1) == Some(p.maxHeight)
               && FindInt(m, 4) == Some(p.maxRefresh) && OrZero(FindInt(m, 5)) == p.features
  {
    HelloArrivesIff(p);
    HelloTells(p);
  }

  /** A session that is not over: Connected greets and waits for WELCOME, a lost connection is fatal with code 7, and
      the user's leaving is said and then reported. A session that is over stays as it is. */
  lemma {:induction false} EventExactly(s: State, ev: Event)
    ensures var s' := AfterEvent(s, ev);
            if s.phase.Closed? || s.phase.Failed? then s' == s
            else match ev
                 case Connected =>
                   && s' == s.(phase := Negotiating, step := AwaitWelcome, out := s'.out, log := s'.log)
                   && Queued(s, s', Sent(Control.HELLO, HelloBody(s.params)))
                 case ConnectionLost =>
                   s' == s.(phase := Failed, out := s'.out, log := s'.log) && Queued(s, s', Action.Fatal(7))
                 case UserBye =>
                   && s' == s.(phase := Closed, out := s.out + s'.log[|s.log|..], log := s'.log)
                   && |s'.log| == |s.log| + 2 && s'.log[..|s.log|] == s.log
                   && Says(s'.log[|s.log|], 0x41, [Entry(Int(0), Int(0))]) && s'.log[|s.log| + 1] == CloseDone
  {
    if !Terminal(s) && ev.UserBye? {
      OneIntArrives(Control.BYE, 0);
      var bye := Sent(Control.BYE, OneInt(0));
      ByeLog(s.out, s.log, bye);
    }
  }

  lemma {:induction false} ByeLog(out: seq<Action>, log: seq<Action>, bye: Action)
    ensures var log' := log + [bye] + [CloseDone];
            && log'[..|log|] == log && log'[|log|..] == [bye, CloseDone]
            && out + [bye] + [CloseDone] == out + [bye, CloseDone]
  {
  }

  // ---------------------------------------------------------------- violations

  /** The session has failed with this code, and nothing else about it has changed. */
  predicate FailsWith(s: State, s': State, code: u64) {
    s' == s.(phase := Failed, out := s'.out, log := s'.log) && Queued(s, s', Action.Fatal(code))
  }

  /** A frame that is no envelope is a violation, code 4; an envelope of an unregistered type changes nothing. */
  lemma {:induction false} FrameViolates(s: State, frame: seq<u8>, nowUs: int)
    ensures Control.DecodeFrame(frame).Err? ==> FailsWith(s, AfterFrame(s, frame, nowUs), 4)
    ensures Control.DecodeFrame(frame) == Ok(Control.Ignored) ==> AfterFrame(s, frame, nowUs) == s
  {
  }

  /** So is a length over 65536, at once, whatever bytes are there; the rest of the stream is forgotten. */
  lemma {:induction false} LengthViolates(s: State, rx: seq<u8>, bytes: seq<u8>, nowUs: int)
    requires !Terminal(s) && |rx + bytes| >= 4 && ControlKeys.Announced(rx + bytes) > 65536
    ensures var c := AfterBytes(Client(s, rx), bytes, nowUs); c.rx == [] && FailsWith(s, c.state, 4)
  {
    ControlKeys.AnnouncedIsLen(rx + bytes);
  }

  // ---------------------------------------------------------------- messages

  /** Messages that count in any phase: 0x41 closes, 0x40 fails with the code at key 0, or 7 without one. */
  lemma {:induction false} AnyPhase(s: State, body: seq<Entry>, nowUs: int)
    ensures var s' := AfterMessage(s, 0x41, body, nowUs);
            s' == s.(phase := Closed, out := s'.out, log := s'.log) && Queued(s, s', CloseDone)
    ensures FailsWith(s, AfterMessage(s, 0x40, body, nowUs),
                      if FindInt(body, 0).Some? then ToU64(FindInt(body, 0).value) else 7)
    ensures AfterMessage(s, 0x31, body, nowUs) == AfterPong(s, body, nowUs)
  {
  }

  /** All others count only while negotiating, but for CONFIG, 0x03, which counts while streaming too. */
  lemma {:induction false} OtherwiseIgnored(s: State, t: nat, body: seq<Entry>, nowUs: int)
    requires t != 0x41 && t != 0x40 && t != 0x31 && !s.phase.Negotiating? && !(s.phase.Streaming? && t == 0x03)
    ensures AfterMessage(s, t, body, nowUs) == s
  {
  }

  lemma {:induction false} AckSays(s: State, body: seq<Entry>)
    ensures var a := Sent(Control.CONFIG_ACK, OneInt(ToI64(ParseConfig(body).generation)));
            && Acknowledged(s, body) == s.(config := Some(ParseConfig(body)), out := s.out + [a], log := s.log + [a])
            && Says(a, 0x04, [Entry(Int(0), Int(History.Generation(body)))])
  {
    OneIntArrives(Control.CONFIG_ACK, ToI64(ParseConfig(body).generation));
  }

  /** While streaming a CONFIG is stored, acknowledged with its generation, and reported. */
  lemma {:induction false} ConfigWhileStreaming(s: State, body: seq<Entry>, nowUs: int)
    requires s.phase.Streaming?
    ensures var s' := AfterMessage(s, 0x03, body, nowUs);
            && |s'.log| == |s.log| + 2
            && s' == s.(config := Some(ParseConfig(body)), out := s.out + s'.log[|s.log|..], log := s'.log)
            && Says(s'.log[|s.log|], 0x04, [Entry(Int(0), Int(History.Generation(body)))])
            && s'.log[|s.log| + 1] == Action.ConfigChanged
  {
    AckSays(s, body);
    var a := Sent(Control.CONFIG_ACK, OneInt(ToI64(ParseConfig(body).generation)));
    TwoMore(s.out, s.log, a, Action.ConfigChanged);
  }

  lemma {:induction false} TwoMore(out: seq<Action>, log: seq<Action>, a: Action, b: Action)
    ensures var log' := log + [a] + [b];
            log'[|log|..] == [a, b] && out + [a] + [b] == out + [a, b]
  {
  }

  /** While negotiating, WELCOME with version 1 is taken first, then CONFIG, then START; anything else out of turn, or
      another version, is a violation, code 4. */
  lemma {:induction false} SetupInTurn(s: State, t: nat, body: seq<Entry>, nowUs: int)
    requires s.phase.Negotiating? && t != 0x41 && t != 0x40 && t != 0x31
    ensures var s' := AfterMessage(s, t, body, nowUs);
            match s.step
            case AwaitWelcome =>
              if t == 0x02 && FindInt(body, 0) == Some(1) then
                && s' == s.(hostName := FindText(body, 1), activeFeatures := OrZero(FindInt(body, 3)),
                            step := AwaitConfig, out := s'.out, log := s'.log)
                && Queued(s, s', Action.Established)
              else FailsWith(s, s', 4)
            case AwaitConfig => if t == 0x03 then TakesConfig(s, s', body) else FailsWith(s, s', 4)
            case AwaitStart =>
              if t == 0x05 then
                s' == s.(phase := Streaming, out := s'.out, log := s'.log) && Queued(s, s', Action.MediaExpected)
              else FailsWith(s, s', 4)
  {
    AckSays(s, body);
  }

  predicate TakesConfig(s: State, s': State, body: seq<Entry>) {
    && |s'.log| == |s.log| + 1
    && s' == s.(config := Some(ParseConfig(body)), step := AwaitStart, out := s'.out, log := s'.log)
    && Queued(s, s', s'.log[|s.log|])
    && Says(s'.log[|s.log|], 0x04, [Entry(Int(0), Int(History.Generation(body)))])
  }

  // ---------------------------------------------------------------- lookups

  /** What a lookup looks for: an integer, a text, an array, or an array with an integer at an index. */
  datatype Kind = AnInt | AText | AnArray | Element(idx: nat)

  predicate Fits(v: Value, kind: Kind) {
    match kind
    case AnInt => v.Int?
    case AText => v.Text?
    case AnArray => v.Array?
    case Element(idx) => v.Array? && idx < |v.items| && v.items[idx].Int?
  }

  /** Entry i is the first at the key whose value fits. */
  predicate FirstAt(m: seq<Entry>, key: i64, kind: Kind, i: nat) {
    && i < |m| && m[i].key == Int(key) && Fits(m[i].val, kind)
    && forall j :: 0 <= j < i ==> !(m[j].key == Int(key) && Fits(m[j].val, kind))
  }

  predicate NoneAt(m: seq<Entry>, key: i64, kind: Kind) {
    forall j :: 0 <= j < |m| ==> !(m[j].key == Int(key) && Fits(m[j].val, kind))
  }

  lemma {:induction false} RestFirst(m: seq<Entry>, key: i64, kind: Kind, i: nat)
    requires FirstAt(m, key, kind, i) && i > 0
    ensures FirstAt(m[1..], key, kind, i - 1) && !(m[0].key == Int(key) && Fits(m[0].val, kind))
  {
    forall j | 0 <= j < i - 1 ensures !(m[1..][j].key == Int(key) && Fits(m[1..][j].val, kind)) {
      assert m[1..][j] == m[j + 1];
    }
  }

  lemma {:induction false} RestNone(m: seq<Entry>, key: i64, kind: Kind)
    requires NoneAt(m, key, kind) && m != []
    ensures NoneAt(m[1..], key, kind) && !(m[0].key == Int(key) && Fits(m[0].val, kind))
  {
    forall j | 0 <= j < |m| - 1 ensures !(m[1..][j].key == Int(key) && Fits(m[1..][j].val, kind)) {
      assert m[1..][j] == m[j + 1];
    }
  }

  /** An integer lookup finds the first integer at the key, skipping values of other kinds. */
  lemma {:induction false} FindsInt(m: seq<Entry>, key: i64, i: nat)
    ensures FirstAt(m, key, AnInt, i) ==> FindInt(m, key) == Some(m[i].val.i)
    ensures NoneAt(m, key, AnInt) ==> FindInt(m, key) == None
  {
    if m != [] {
      if NoneAt(m, key, AnInt) {
        RestNone(m, key, AnInt);
        FindsInt(m[1..], key, 0);
      } else if FirstAt(m, key, AnInt, i) && i > 0 {
        RestFirst(m, key, AnInt, i);
        FindsInt(m[1..], key, i - 1);
      }
    }
  }

  lemma {:induction false} FindsText(m: seq<Entry>, key: i64, i: nat)
    ensures FirstAt(m, key, AText, i) ==> FindText(m, key) == Some(m[i].val.text)
    ensures NoneAt(m, key, AText) ==> FindText(m, key) == None
  {
    if m != [] {
      if NoneAt(m, key, AText) {
        RestNone(m, key, AText);
        FindsText(m[1..], key, 0);
      } else if FirstAt(m, key, AText, i) && i > 0 {
        RestFirst(m, key, AText, i);
        FindsText(m[1..], key, i - 1);
      }
    }
  }

  lemma {:induction false} FindsArray(m: seq<Entry>, key: i64, i: nat)
    ensures FirstAt(m, key, AnArray, i) ==> FindArray(m, key) == Some(m[i].val.items)
    ensures NoneAt(m, key, AnArray) ==> FindArray(m, key) == None
  {
    if m != [] {
      if NoneAt(m, key, AnArray) {
        RestNone(m, key, AnArray);
        FindsArray(m[1..], key, 0);
      } else if FirstAt(m, key, AnArray, i) && i > 0 {
        RestFirst(m, key, AnArray, i);
        FindsArray(m[1..], key, i - 1);
      }
    }
  }

  lemma {:induction false} FindsElement(m: seq<Entry>, key: i64, idx: nat, i: nat)
    ensures FirstAt(m, key, Element(idx), i) ==> FindPairElem(m, key, idx) == Some(m[i].val.items[idx].i)
    ensures NoneAt(m, key, Element(idx)) ==> FindPairElem(m, key, idx) == None
  {
    if m != [] {
      if NoneAt(m, key, Element(idx)) {
        RestNone(m, key, Element(idx));
        FindsElement(m[1..], key, idx, 0);
      } else if FirstAt(m, key, Element(idx), i) && i > 0 {
        RestFirst(m, key, Element(idx), i);
        FindsElement(m[1..], key, idx, i - 1);
      }
    }
  }

  /** An empty CONFIG reads as all zeros and no further streams, an empty descriptor as stream 0. */
  lemma {:induction false} AbsentIsZero()
    ensures ParseConfig([]) == SessionConfig(0, 0, 0, 0, 0, 0, 0, [])
    ensures ParseStream([]) == StreamConfig(0, 0, 0, 0, 0)
  {
  }

  /** A descriptor that is no map is skipped, wherever it stands. */
  lemma {:induction false} MalformedSkipped(before: seq<Value>, v: Value, after: seq<Value>)
    ensures ParseStreams(before + [v] + after) ==
            ParseStreams(before) + (if v.Map? then [ParseStream(v.entries)] else []) + ParseStreams(after)
  {
    if before == [] {
      assert ([] + [v] + after)[1..] == after;
      assert [] + [v] + after == [v] + after;
    } else {
      var all := before + [v] + after;
      MalformedSkipped(before[1..], v, after);
      assert all[1..] == before[1..] + [v] + after && all[0] == before[0];
      Regroup(ParseStreams([before[0]]), ParseStreams(before[1..]), if v.Map? then [ParseStream(v.entries)] else [],
              ParseStreams(after));
      FirstStream(all);
      FirstStream(before);
    }
  }

  lemma {:induction false} FirstStream(streams: seq<Value>)
    requires streams != []
    ensures ParseStreams(streams) == ParseStreams([streams[0]]) + ParseStreams(streams[1..])
  {
    assert [streams[0]][1..] == [];
  }

  lemma {:induction false} Regroup<T>(a: seq<T>, b: seq<T>, c: seq<T>, d: seq<T>)
    ensures a + (b + c + d) == a + b + c + d
  {
  }

  /** The casts keep a number modulo the width of their result. */
  lemma {:induction false} CastsModulo(x: i64, y: u64)
    ensures (ToU64(x) - x) % 0x1_0000_0000_0000_0000 == 0
    ensures (ToI64(y) - y) % 0x1_0000_0000_0000_0000 == 0
    ensures (ToU16(x) - x) % 0x1_0000 == 0
  {
  }
}
