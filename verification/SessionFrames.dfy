/** What a peer reads in the session's frames, what the session reads in a peer's, and the handshake they complete. */
module SessionFrames {
  import opened Base
  import opened Cbor
  import opened CborRoundTrip
  import Canonical = CborCanonical
  import Control
  import Clock = ClockSync
  import opened Session
  import opened SessionRuns

  // ---------------------------------------------------------------- values that come back unchanged

  predicate Plain(v: Value) {
    Sized(v) && Canon(v) == v
  }

  predicate PlainBody(m: seq<Entry>) {
    m == [] || (Plain(m[0].key) && Plain(m[0].val) && PlainBody(m[1..]))
  }

  predicate PlainAll(a: seq<Value>) {
    a == [] || (Plain(a[0]) && PlainAll(a[1..]))
  }

  lemma {:induction false} PlainItems(a: seq<Value>)
    requires PlainAll(a)
    ensures AllSized(a) && CanonAll(a) == a
  {
    if a != [] {
      PlainItems(a[1..]);
      assert a == [a[0]] + a[1..];
    }
  }

  lemma {:induction false} IntsPlain(a: seq<Value>)
    requires forall i :: 0 <= i < |a| ==> a[i].Int?
    ensures PlainAll(a)
  {
    if a != [] {
      IntsPlain(a[1..]);
    }
  }

  lemma {:induction false} PlainEntries(m: seq<Entry>)
    requires PlainBody(m)
    ensures EntriesSized(m) && CanonEntries(m) == m
  {
    if m != [] {
      PlainEntries(m[1..]);
      assert m == [m[0]] + m[1..];
      assert CanonEntry(m[0]) == m[0];
    }
  }

  lemma {:induction false} PlainMap(m: seq<Entry>, n: nat)
    requires PlainBody(m) && Control.KeyedInOrder(m, n) && n <= INT64_MAX && |m| < 0x1_0000_0000_0000_0000
    ensures Plain(Map(m))
  {
    PlainEntries(m);
    Control.InOrderSorted(m, n);
  }

  /** A body of plain values under the keys its type defines, in order, arrives as it was sent. */
  lemma {:induction false} Arrives(t: nat, m: seq<Entry>)
    requires Control.KnownKeys(t).Some? && Control.KeyedInOrder(m, Control.KnownKeys(t).value) && PlainBody(m)
    requires |Encode(Control.Envelope(t, m))| <= 65536 && |m| < 0x1_0000_0000_0000_0000
    ensures Control.DecodeFrame(Control.EncodeFrame(t, m)) == Ok(Control.Message(t, m))
  {
    PlainEntries(m);
    assert Sized(Map(m));
    Control.OrderedRoundTrip(t, m, []);
    NothingBehind(Control.EncodeFrame(t, m));
  }

  lemma {:induction false} NothingBehind(s: seq<u8>)
    ensures s + [] == s
  {
  }

  // ---------------------------------------------------------------- sizes

  lemma {:induction false} EntriesSize(m: seq<Entry>)
    requires forall i :: 0 <= i < |m| ==> |Encode(m[i].key)| + |Encode(m[i].val)| <= 30
    ensures |Flatten(EncodeEntries(m))| <= 30 * |m|
  {
    if m != [] {
      EntriesSize(m[1..]);
      assert m == [m[0]] + m[1..];
      Canonical.ConsEntries(m[0], m[1..]);
    }
  }

  /** A body of at most eight entries, each of at most 30 bytes, fits a frame. */
  lemma {:induction false} SmallFits(t: nat, m: seq<Entry>)
    requires t <= INT64_MAX && |m| <= 8
    requires forall i :: 0 <= i < |m| ==> |Encode(m[i].key)| + |Encode(m[i].val)| <= 30
    ensures |Encode(Control.Envelope(t, m))| <= 65536
  {
    EntriesSize(m);
    Canonical.SortFlat(EncodeEntries(m));
    Control.EnvelopeBytes(t, m);
  }

  // ---------------------------------------------------------------- the session's frames

  lemma {:induction false} OneIntArrives(t: nat, x: i64)
    requires t == Control.BYE || t == Control.CONFIG_ACK || t == Control.CLOCK_PING
    ensures Control.DecodeFrame(Sent(t, OneInt(x)).bytes) == Ok(Control.Message(t, OneInt(x)))
  {
    assert PlainBody(OneInt(x)[1..]);
    SmallFits(t, OneInt(x));
    Arrives(t, OneInt(x));
  }

  lemma {:induction false} PairPlain(x: i64, y: i64)
    ensures Plain(Array([Int(x), Int(y)])) && |Encode(Array([Int(x), Int(y)]))| <= 20
  {
    var a := [Int(x), Int(y)];
    IntsPlain(a);
    PlainItems(a);
    assert a[1..] == [Int(y)] && a[1..][1..] == [];
    assert EncodeAll(a) == Encode(a[0]) + EncodeAll(a[1..]);
    assert EncodeAll(a[1..]) == Encode(Int(y)) + EncodeAll([]);
    assert |Head(4, 2)| == 1;
  }

  lemma {:induction false} ViewportArrives(width: u32, height: u32)
    ensures Control.DecodeFrame(Sent(Control.VIEWPORT, ViewportBody(width, height)).bytes)
            == Ok(Control.Message(Control.VIEWPORT, ViewportBody(width, height)))
  {
    PairPlain(width, height);
    assert PlainBody(ViewportBody(width, height)[1..]);
    SmallFits(Control.VIEWPORT, ViewportBody(width, height));
    Arrives(Control.VIEWPORT, ViewportBody(width, height));
  }

  function HelloPayload(p: HelloParams): seq<u8> {
    Encode(Control.Envelope(Control.HELLO, HelloBody(p)))
  }

  lemma {:induction false} HelloPlain(p: HelloParams)
    requires |p.clientName| < 0x1_0000_0000_0000_0000 && |p.codecs| < 0x1_0000_0000_0000_0000
    ensures PlainBody(HelloBody(p))
  {
    IntsPlain(Codecs(p.codecs));
    PlainItems(Codecs(p.codecs));
    PairPlain(p.maxWidth, p.maxHeight);
    var m := HelloBody(p);
    assert PlainBody(m[5..]) by { assert m[5..][1..] == []; }
    assert PlainBody(m[4..]) by { assert m[4..][1..] == m[5..]; }
    assert PlainBody(m[3..]) by { assert m[3..][1..] == m[4..]; }
    assert PlainBody(m[2..]) by { assert m[2..][1..] == m[3..]; }
    assert PlainBody(m[1..]) by { assert m[1..][1..] == m[2..]; }
  }

  /** HELLO arrives whole exactly when its payload is within the frame limit; over it the peer sees a violation. */
  lemma {:induction false} HelloArrivesIff(p: HelloParams)
    requires |HelloPayload(p)| < 0x1_0000_0000
    requires |p.clientName| < 0x1_0000_0000_0000_0000 && |p.codecs| < 0x1_0000_0000_0000_0000
    ensures Control.DecodeFrame(Sent(Control.HELLO, HelloBody(p)).bytes)
            == if |HelloPayload(p)| <= 65536 then Ok(Control.Message(Control.HELLO, HelloBody(p)))
               else Err(Control.ProtocolViolation)
  {
    if |HelloPayload(p)| <= 65536 {
      HelloPlain(p);
      Arrives(Control.HELLO, HelloBody(p));
    } else {
      Control.OversizeRejected(Control.HELLO, HelloBody(p), []);
      assert Control.EncodeFrame(Control.HELLO, HelloBody(p)) + [] == Control.EncodeFrame(Control.HELLO, HelloBody(p));
    }
  }

  /** The message a peer decodes from what the session meant to say. */
  function MessageOf(params: HelloParams, intent: Intent): Control.Decoded {
    match intent
    case Greet => Control.Message(Control.HELLO, HelloBody(params))
    case Leave => Control.Message(Control.BYE, OneInt(0))
    case Ack(g) => Control.Message(Control.CONFIG_ACK, OneInt(g))
    case Ping(at) => Control.Message(Control.CLOCK_PING, OneInt(at))
    case Resize(w, h) => Control.Message(Control.VIEWPORT, ViewportBody(w, h))
  }

  ghost predicate Understood(params: HelloParams, a: Action) {
    a.SendControl? ==> exists intent :: Control.DecodeFrame(a.bytes) == Ok(MessageOf(params, intent))
  }

  predicate HelloFits(p: HelloParams) {
    |HelloPayload(p)| <= 65536
    && |p.clientName| < 0x1_0000_0000_0000_0000 && |p.codecs| < 0x1_0000_0000_0000_0000
  }

  /** Over every run each frame the session sends decodes to the message it stands for, of its own type and with no
      key stripped. */
  lemma {:induction false} FramesUnderstood(params: HelloParams, inputs: seq<Input>, k: nat)
    requires HelloFits(params) && k < |Run(params, inputs).state.log|
    ensures Understood(params, Run(params, inputs).state.log[k])
  {
    SendsOnlyItsOwn(params, inputs);
    var a := Run(params, inputs).state.log[k];
    assert Own(params, a);
    if a.SendControl? {
      var intent :| a == Voiced(params, intent);
      match intent {
        case Greet => HelloArrivesIff(params);
        case Leave => OneIntArrives(Control.BYE, 0);
        case Ack(g) => OneIntArrives(Control.CONFIG_ACK, g);
        case Ping(at) => OneIntArrives(Control.CLOCK_PING, at);
        case Resize(w, h) => ViewportArrives(w, h);
      }
      assert Control.DecodeFrame(a.bytes) == Ok(MessageOf(params, intent));
    }
  }

  // ---------------------------------------------------------------- statistics

  lemma {:induction false} FloatSize(d: u64)
    ensures |Encode(Float(d))| <= 9
  {
  }

  /** A STATS report arrives whole, optional keys included, its jitter the same double (any NaN the canonical one). */
  lemma {:induction false} StatsArrive(report: StatsInput)
    ensures Control.DecodeFrame(Control.EncodeFrame(Control.STATS, StatsBody(report)))
            == Ok(Control.Message(Control.STATS, StatsBody(report.(jitterMs := CanonicalDouble(report.jitterMs)))))
  {
    var m := StatsBody(report);
    StatsShape(report);
    NumbersArrive(Control.STATS, m);
    StatsCanon(m, StatsBody(report.(jitterMs := CanonicalDouble(report.jitterMs))));
  }

  lemma {:induction false} StatsShape(report: StatsInput)
    ensures var m := StatsBody(report);
            |m| <= 8 && Control.KeyedInOrder(m, 8) && forall i :: 0 <= i < |m| ==> Number(m[i].val)
  {
  }

  lemma {:induction false} NumbersArrive(t: nat, m: seq<Entry>)
    requires |m| <= 8 && Control.KnownKeys(t) == Some(8) && Control.KeyedInOrder(m, 8)
    requires forall i :: 0 <= i < |m| ==> Number(m[i].val)
    ensures Control.DecodeFrame(Control.EncodeFrame(t, m)) == Ok(Control.Message(t, CanonEntries(m)))
  {
    forall i | 0 <= i < |m| ensures |Encode(m[i].key)| + |Encode(m[i].val)| <= 30 {
      if m[i].val.Float? { FloatSize(m[i].val.bits); }
    }
    SmallFits(t, m);
    StatsSized(m);
    Control.OrderedRoundTrip(t, m, []);
    assert Control.EncodeFrame(t, m) + [] == Control.EncodeFrame(t, m);
  }

  predicate Number(v: Value) {
    v.Int? || v.Float?
  }

  lemma {:induction false} StatsSized(m: seq<Entry>)
    requires forall i :: 0 <= i < |m| ==> Number(m[i].key) && Number(m[i].val)
    ensures EntriesSized(m)
  {
    if m != [] {
      StatsSized(m[1..]);
    }
  }

  lemma {:induction false} StatsCanon(m: seq<Entry>, m': seq<Entry>)
    requires |m| == |m'| && forall i :: 0 <= i < |m| ==> m'[i] == CanonEntry(m[i])
    ensures CanonEntries(m) == m'
  {
    if m != [] {
      StatsCanon(m[1..], m'[1..]);
      assert m' == [m'[0]] + m'[1..];
    }
  }

  // ---------------------------------------------------------------- lookups find what was put in

  lemma {:induction false} LaterKeys(m: seq<Entry>, n: nat)
    requires Control.KeyedInOrder(m, n) && m != []
    ensures Control.KeyedInOrder(m[1..], n)
  {
  }

  lemma {:induction false} FindAt(m: seq<Entry>, n: nat, i: nat)
    requires Control.KeyedInOrder(m, n) && i < |m|
    ensures m[i].val.Int? ==> FindInt(m, m[i].key.i) == Some(m[i].val.i)
    ensures m[i].val.Text? ==> FindText(m, m[i].key.i) == Some(m[i].val.text)
    ensures m[i].val.Array? ==> FindArray(m, m[i].key.i) == Some(m[i].val.items)
  {
    if i > 0 {
      LaterKeys(m, n);
      FindAt(m[1..], n, i - 1);
    }
  }

  lemma {:induction false} FindPairAt(m: seq<Entry>, n: nat, i: nat, x: i64, y: i64)
    requires Control.KeyedInOrder(m, n) && i < |m| && m[i].val == Array([Int(x), Int(y)])
    ensures FindPairElem(m, m[i].key.i, 0) == Some(x) && FindPairElem(m, m[i].key.i, 1) == Some(y)
  {
    if i > 0 {
      LaterKeys(m, n);
      FindPairAt(m[1..], n, i - 1, x, y);
    }
  }

  /** A host that looks HELLO up finds the version and every parameter of the client. */
  lemma {:induction false} HelloTells(p: HelloParams)
    ensures var m := HelloBody(p);
            && FindInt(m, 0) == Some(1)
            && FindText(m, 1) == Some(p.clientName)
            && FindArray(m, 2) == Some(Codecs(p.codecs))
            && FindPairElem(m, 3, 0) == Some(p.maxWidth) && FindPairElem(m, 3, 1) == Some(p.maxHeight)
            && FindInt(m, 4) == Some(p.maxRefresh)
            && OrZero(FindInt(m, 5)) == p.features
  {
    var m := HelloBody(p);
    assert Control.KeyedInOrder(m, 6);
    FindAt(m, 6, 0);
    FindAt(m, 6, 1);
    FindAt(m, 6, 2);
    FindPairAt(m, 6, 3, p.maxWidth, p.maxHeight);
    FindAt(m, 6, 4);
    FindAt(m, 6, 5);
  }

  // ---------------------------------------------------------------- the host's messages

  function Size(width: u64, height: u64): Value {
    Array([Int(ToI64(width)), Int(ToI64(height))])
  }

  function StreamBody(sc: StreamConfig): seq<Entry> {
    [Entry(Int(0), Int(sc.streamId)), Entry(Int(1), Size(sc.width, sc.height)), Entry(Int(2), Int(ToI64(sc.refresh))),
     Entry(Int(3), Int(ToI64(sc.bitrateKbps)))]
  }

  function StreamList(streams: seq<StreamConfig>): (r: seq<Value>)
    ensures |r| == |streams|
  {
    if streams == [] then [] else [Map(StreamBody(streams[0]))] + StreamList(streams[1..])
  }

  /** The CONFIG body a host writes for a configuration. */
  function ConfigBody(c: SessionConfig): seq<Entry> {
    [Entry(Int(0), Int(ToI64(c.generation))), Entry(Int(1), Int(ToI64(c.codec))),
     Entry(Int(2), Size(c.width, c.height)),
     Entry(Int(3), Int(ToI64(c.refresh))), Entry(Int(4), Int(ToI64(c.audio))), Entry(Int(5), Int(ToI64(c.bitrateKbps))),
     Entry(Int(6), Array(StreamList(c.extraStreams)))]
  }

  function WelcomeBody(name: seq<u8>, features: u64): seq<Entry> {
    [Entry(Int(0), Int(1)), Entry(Int(1), Text(name)), Entry(Int(3), Int(ToI64(features)))]
  }

  lemma {:induction false} StreamParsed(sc: StreamConfig)
    ensures ParseStream(StreamBody(sc)) == sc
  {
    var m := StreamBody(sc);
    assert Control.KeyedInOrder(m, 4);
    FindAt(m, 4, 0);
    FindPairAt(m, 4, 1, ToI64(sc.width), ToI64(sc.height));
    FindAt(m, 4, 2);
    FindAt(m, 4, 3);
  }

  lemma {:induction false} StreamsParsed(streams: seq<StreamConfig>)
    ensures ParseStreams(StreamList(streams)) == streams
  {
    if streams != [] {
      StreamParsed(streams[0]);
      StreamsParsed(streams[1..]);
      assert StreamList(streams)[1..] == StreamList(streams[1..]);
      assert streams == [streams[0]] + streams[1..];
    }
  }

  /** Parsing a CONFIG recovers the configuration it was written for, in every field and every extra stream. */
  lemma {:induction false} ConfigParsed(c: SessionConfig)
    ensures ParseConfig(ConfigBody(c)) == c
  {
    var m := ConfigBody(c);
    assert Control.KeyedInOrder(m, 7);
    FindAt(m, 7, 0);
    FindAt(m, 7, 1);
    FindPairAt(m, 7, 2, ToI64(c.width), ToI64(c.height));
    FindAt(m, 7, 3);
    FindAt(m, 7, 4);
    FindAt(m, 7, 5);
    FindAt(m, 7, 6);
    StreamsParsed(c.extraStreams);
  }

  lemma {:induction false} SizePlain(width: u64, height: u64)
    ensures Plain(Size(width, height))
  {
    PairPlain(ToI64(width), ToI64(height));
  }

  lemma {:induction false} StreamPlain(sc: StreamConfig)
    ensures Plain(Map(StreamBody(sc)))
  {
    var m := StreamBody(sc);
    SizePlain(sc.width, sc.height);
    assert PlainBody(m[3..]) by { assert m[3..][1..] == []; }
    assert PlainBody(m[2..]) by { assert m[2..][1..] == m[3..]; }
    assert PlainBody(m[1..]) by { assert m[1..][1..] == m[2..]; }
    PlainMap(m, 4);
  }

  lemma {:induction false} StreamsPlain(streams: seq<StreamConfig>)
    ensures PlainAll(StreamList(streams))
  {
    if streams != [] {
      StreamPlain(streams[0]);
      StreamsPlain(streams[1..]);
      assert StreamList(streams)[1..] == StreamList(streams[1..]);
    }
  }

  lemma {:induction false} ConfigPlain(c: SessionConfig)
    requires |c.extraStreams| < 0x1_0000_0000_0000_0000
    ensures PlainBody(ConfigBody(c))
  {
    var m := ConfigBody(c);
    SizePlain(c.width, c.height);
    StreamsPlain(c.extraStreams);
    PlainItems(StreamList(c.extraStreams));
    assert PlainBody(m[6..]) by { assert m[6..][1..] == []; }
    assert PlainBody(m[5..]) by { assert m[5..][1..] == m[6..]; }
    assert PlainBody(m[4..]) by { assert m[4..][1..] == m[5..]; }
    assert PlainBody(m[3..]) by { assert m[3..][1..] == m[4..]; }
    assert PlainBody(m[2..]) by { assert m[2..][1..] == m[3..]; }
    assert PlainBody(m[1..]) by { assert m[1..][1..] == m[2..]; }
  }

  predicate ConfigFits(c: SessionConfig) {
    && |c.extraStreams| < 0x1_0000_0000_0000_0000
    && |Encode(Control.Envelope(Control.CONFIG, ConfigBody(c)))| <= 65536
  }

  predicate WelcomeFits(name: seq<u8>, features: u64) {
    && |name| < 0x1_0000_0000_0000_0000
    && |Encode(Control.Envelope(Control.WELCOME, WelcomeBody(name, features)))| <= 65536
  }

  function WelcomeFrame(name: seq<u8>, features: u64): seq<u8> {
    Control.EncodeFrame(Control.WELCOME, WelcomeBody(name, features))
  }

  function ConfigFrame(c: SessionConfig): seq<u8> {
    Control.EncodeFrame(Control.CONFIG, ConfigBody(c))
  }

  const START_FRAME: seq<u8> := Control.EncodeFrame(Control.START, [])

  lemma {:induction false} WelcomeArrives(name: seq<u8>, features: u64)
    requires WelcomeFits(name, features)
    ensures Control.DecodeFrame(WelcomeFrame(name, features)) ==
              Ok(Control.Message(Control.WELCOME, WelcomeBody(name, features)))
    ensures var m := WelcomeBody(name, features);
            FindInt(m, 0) == Some(1) && FindText(m, 1) == Some(name) && OrZero(FindInt(m, 3)) == features
  {
    var m := WelcomeBody(name, features);
    assert PlainBody(m[2..]) by { assert m[2..][1..] == []; }
    assert PlainBody(m[1..]) by { assert m[1..][1..] == m[2..]; }
    Arrives(Control.WELCOME, m);
    FindAt(m, 4, 0);
    FindAt(m, 4, 1);
    FindAt(m, 4, 2);
  }

  lemma {:induction false} ConfigArrives(c: SessionConfig)
    requires ConfigFits(c)
    ensures Control.DecodeFrame(ConfigFrame(c)) == Ok(Control.Message(Control.CONFIG, ConfigBody(c)))
  {
    ConfigPlain(c);
    Arrives(Control.CONFIG, ConfigBody(c));
  }

  lemma {:induction false} StartArrives()
    ensures Control.DecodeFrame(START_FRAME) == Ok(Control.Message(Control.START, []))
  {
    SmallFits(Control.START, []);
    Arrives(Control.START, []);
  }

  // ---------------------------------------------------------------- pongs, errors and farewells

  function PongBody(t0: i64, t1: i64, t2: i64): seq<Entry> {
    [Entry(Int(0), Int(t0)), Entry(Int(1), Int(t1)), Entry(Int(2), Int(t2))]
  }

  function ErrorBody(code: u64, reason: seq<u8>): seq<Entry> {
    [Entry(Int(0), Int(ToI64(code))), Entry(Int(1), Text(reason))]
  }

  lemma {:induction false} PongArrives(t0: i64, t1: i64, t2: i64)
    ensures var m := PongBody(t0, t1, t2);
            && Control.DecodeFrame(Control.EncodeFrame(Control.CLOCK_PONG, m)) ==
                 Ok(Control.Message(Control.CLOCK_PONG, m))
            && FindInt(m, 0) == Some(t0) && FindInt(m, 1) == Some(t1) && FindInt(m, 2) == Some(t2)
  {
    var m := PongBody(t0, t1, t2);
    PongPlain(t0, t1, t2);
    SmallFits(Control.CLOCK_PONG, m);
    Arrives(Control.CLOCK_PONG, m);
    PongReads(t0, t1, t2);
  }

  lemma {:induction false} PongPlain(t0: i64, t1: i64, t2: i64)
    ensures PlainBody(PongBody(t0, t1, t2))
  {
    var m := PongBody(t0, t1, t2);
    assert PlainBody(m[2..]) by { assert m[2..][1..] == []; }
    assert PlainBody(m[1..]) by { assert m[1..][1..] == m[2..]; }
  }

  lemma {:induction false} PongReads(t0: i64, t1: i64, t2: i64)
    ensures var m := PongBody(t0, t1, t2);
            && Control.KeyedInOrder(m, 3)
            && FindInt(m, 0) == Some(t0) && FindInt(m, 1) == Some(t1) && FindInt(m, 2) == Some(t2)
  {
    var m := PongBody(t0, t1, t2);
    FindAt(m, 3, 0);
    FindAt(m, 3, 1);
    FindAt(m, 3, 2);
  }

  /** A pong is accepted in any phase: its three times and the arrival time make the sample. */
  lemma {:induction false} PongHandled(s: State, t0: i64, t1: i64, t2: i64, nowUs: int)
    ensures AfterFrame(s, Control.EncodeFrame(Control.CLOCK_PONG, PongBody(t0, t1, t2)), nowUs)
            == Sampled(s, Clock.Sample(t0, t1, t2, nowUs))
  {
    PongArrives(t0, t1, t2);
  }

  lemma {:induction false} ErrorArrives(code: u64, reason: seq<u8>)
    requires |Encode(Control.Envelope(Control.ERROR, ErrorBody(code, reason)))| <= 65536
    requires |reason| < 0x1_0000_0000_0000_0000
    ensures var m := ErrorBody(code, reason);
            && Control.DecodeFrame(Control.EncodeFrame(Control.ERROR, m)) == Ok(Control.Message(Control.ERROR, m))
            && FindInt(m, 0) == Some(ToI64(code))
  {
    var m := ErrorBody(code, reason);
    assert PlainBody(m[1..]) by { assert m[1..][1..] == []; }
    Arrives(Control.ERROR, m);
    FindAt(m, 2, 0);
  }

  /** An error ends the session in any phase with the host's own code. */
  lemma {:induction false} ErrorHandled(s: State, code: u64, reason: seq<u8>, nowUs: int)
    requires |Encode(Control.Envelope(Control.ERROR, ErrorBody(code, reason)))| <= 65536
    requires |reason| < 0x1_0000_0000_0000_0000
    ensures AfterFrame(s, Control.EncodeFrame(Control.ERROR, ErrorBody(code, reason)), nowUs) == Fail(s, code)
  {
    ErrorArrives(code, reason);
  }

  /** The client's own farewell, read by another session, closes it cleanly in any phase. */
  lemma {:induction false} ByeHandled(s: State, reason: i64, nowUs: int)
    ensures AfterFrame(s, Sent(Control.BYE, OneInt(reason)).bytes, nowUs) == Push(s.(phase := Closed), CloseDone)
  {
    OneIntArrives(Control.BYE, reason);
  }

  // ---------------------------------------------------------------- the handshake completes

  /** A frame within the limit is one whole frame of the stream. */
  lemma {:induction false} FrameWhole(t: nat, m: seq<Entry>)
    requires t <= INT64_MAX && |Encode(Control.Envelope(t, m))| <= 65536
    ensures Whole(Control.EncodeFrame(t, m))
  {
    var payload := Encode(Control.Envelope(t, m));
    assert Control.EncodeFrame(t, m)[..4] == BE(4, |payload|);
    PowValues();
    FromBEofBE(4, |payload|);
  }

  function Named(s: State, name: seq<u8>, features: u64): State {
    Push(s.(hostName := Some(name), activeFeatures := features, step := AwaitConfig), Action.Established)
  }

  function Configured(s: State, c: SessionConfig): State {
    Push(s.(config := Some(c), step := AwaitStart), Voiced(s.params, Ack(ToI64(c.generation))))
  }

  function Started(s: State): State {
    Push(s.(phase := Streaming), Action.MediaExpected)
  }

  lemma {:induction false} WelcomeHandled(s: State, name: seq<u8>, features: u64, nowUs: int)
    requires s.phase.Negotiating? && s.step.AwaitWelcome? && WelcomeFits(name, features)
    ensures AfterFrame(s, WelcomeFrame(name, features), nowUs) == Named(s, name, features)
  {
    WelcomeArrives(name, features);
  }

  /** The first CONFIG is stored as it was meant and its generation acknowledged. */
  lemma {:induction false} ConfigHandled(s: State, c: SessionConfig, nowUs: int)
    requires s.phase.Negotiating? && s.step.AwaitConfig? && ConfigFits(c)
    ensures AfterFrame(s, ConfigFrame(c), nowUs) == Configured(s, c)
  {
    ConfigArrives(c);
    ConfigParsed(c);
  }

  /** A CONFIG while streaming replaces the configuration, is acknowledged with its own generation, and reported. */
  lemma {:induction false} ReconfigHandled(s: State, c: SessionConfig, nowUs: int)
    requires s.phase.Streaming? && ConfigFits(c)
    ensures AfterFrame(s, ConfigFrame(c), nowUs)
            == Push(Push(s.(config := Some(c)), Voiced(s.params, Ack(ToI64(c.generation)))), Action.ConfigChanged)
  {
    ConfigArrives(c);
    ConfigParsed(c);
  }

  lemma {:induction false} StartHandled(s: State, nowUs: int)
    requires s.phase.Negotiating? && s.step.AwaitStart?
    ensures AfterFrame(s, START_FRAME, nowUs) == Started(s)
  {
    StartArrives();
  }

  lemma {:induction false} DrainNext(s: State, s': State, frame: seq<u8>, rest: seq<u8>, nowUs: int)
    requires Whole(frame) && AfterFrame(s, frame, nowUs) == s' && !Terminal(s')
    ensures Drain(s, frame + rest, nowUs) == Drain(s', rest, nowUs)
  {
    DrainOnce(s, frame, rest, nowUs);
  }

  function Greeted(params: HelloParams): Client {
    Client(AfterEvent(Init(params), Connected), [])
  }

  function HandshakeBytes(name: seq<u8>, features: u64, c: SessionConfig): seq<u8> {
    WelcomeFrame(name, features) + (ConfigFrame(c) + (START_FRAME + []))
  }

  /** The session once the handshake is through. */
  predicate Ready(r: Client, params: HelloParams, name: seq<u8>, features: u64, c: SessionConfig) {
    && r.rx == [] && r.state.phase.Streaming?
    && r.state.hostName == Some(name) && r.state.activeFeatures == features && r.state.config == Some(c)
    && r.state.log == [Voiced(params, Greet), Action.Established,
                       Voiced(params, Ack(ToI64(c.generation))), Action.MediaExpected]
  }

  lemma {:induction false} WelcomeDrained(s: State, name: seq<u8>, features: u64, rest: seq<u8>, nowUs: int)
    requires s.phase.Negotiating? && s.step.AwaitWelcome? && WelcomeFits(name, features)
    ensures Drain(s, WelcomeFrame(name, features) + rest, nowUs) == Drain(Named(s, name, features), rest, nowUs)
  {
    FrameWhole(Control.WELCOME, WelcomeBody(name, features));
    WelcomeHandled(s, name, features, nowUs);
    DrainNext(s, Named(s, name, features), WelcomeFrame(name, features), rest, nowUs);
  }

  lemma {:induction false} ConfigDrained(s: State, c: SessionConfig, rest: seq<u8>, nowUs: int)
    requires s.phase.Negotiating? && s.step.AwaitConfig? && ConfigFits(c)
    ensures Drain(s, ConfigFrame(c) + rest, nowUs) == Drain(Configured(s, c), rest, nowUs)
  {
    FrameWhole(Control.CONFIG, ConfigBody(c));
    ConfigHandled(s, c, nowUs);
    DrainNext(s, Configured(s, c), ConfigFrame(c), rest, nowUs);
  }

  lemma {:induction false} StartDrained(s: State, rest: seq<u8>, nowUs: int)
    requires s.phase.Negotiating? && s.step.AwaitStart?
    ensures Drain(s, START_FRAME + rest, nowUs) == Drain(Started(s), rest, nowUs)
  {
    SmallFits(Control.START, []);
    FrameWhole(Control.START, []);
    StartHandled(s, nowUs);
    DrainNext(s, Started(s), START_FRAME, rest, nowUs);
  }

  lemma {:induction false} ReadyAtEnd(params: HelloParams, name: seq<u8>, features: u64, c: SessionConfig)
    ensures Ready(Client(Started(Configured(Named(Greeted(params).state, name, features), c)), []),
                  params, name, features, c)
  {
  }

  lemma {:induction false} HandshakeDrained(
      params: HelloParams, name: seq<u8>, features: u64, c: SessionConfig, nowUs: int)
    requires WelcomeFits(name, features) && ConfigFits(c)
    ensures Ready(AfterBytes(Greeted(params), HandshakeBytes(name, features, c), nowUs), params, name, features, c)
  {
    var s := Greeted(params).state;
    assert [] + HandshakeBytes(name, features, c) == HandshakeBytes(name, features, c);
    WelcomeDrained(s, name, features, ConfigFrame(c) + (START_FRAME + []), nowUs);
    ConfigDrained(Named(s, name, features), c, START_FRAME + [], nowUs);
    StartDrained(Configured(Named(s, name, features), c), [], nowUs);
    ReadyAtEnd(params, name, features, c);
  }

  /** A host that answers HELLO with WELCOME, CONFIG and START brings the session to streaming under exactly its
      configuration, with exactly the four actions of the handshake, however the stream is cut and whenever the
      pieces arrive. */
  lemma {:induction false} HandshakeCompletes(
      params: HelloParams, name: seq<u8>, features: u64, c: SessionConfig, arrivals: seq<Arrival>)
    requires WelcomeFits(name, features) && ConfigFits(c)
    requires ArrivedBytes(arrivals) == HandshakeBytes(name, features, c)
    ensures Ready(FeedArrivals(Greeted(params), arrivals), params, name, features, c)
  {
    HandshakeDrained(params, name, features, c, 0);
    ArrivalIrrelevant(Greeted(params), arrivals, 0);
    SameReady(FeedArrivals(Greeted(params), arrivals), AfterBytes(Greeted(params), ArrivedBytes(arrivals), 0),
              params, name, features, c);
  }

  lemma {:induction false} SameReady(
      r: Client, r': Client, params: HelloParams, name: seq<u8>, features: u64, c: SessionConfig)
    requires SameButClock(r, r') && Ready(r', params, name, features, c)
    ensures Ready(r, params, name, features, c)
  {
    assert Timeless(r.state).phase == Timeless(r'.state).phase;
  }
}
