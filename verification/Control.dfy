/** Control-stream frames: a four-byte length and a canonical CBOR pair of message type and body map. */
module Control {
  import opened Base
  import opened Cbor
  import opened CborRoundTrip
  import Canonical = CborCanonical
  import Codec = CborCodec

  const MAX_FRAME_BODY: nat := 65536

  const HELLO: nat := 0x01
  const WELCOME: nat := 0x02
  const CONFIG: nat := 0x03
  const CONFIG_ACK: nat := 0x04
  const START: nat := 0x05
  const INPUT: nat := 0x10
  const IDR_REQUEST: nat := 0x20
  const STATS: nat := 0x21
  const VIEWPORT: nat := 0x22
  const CLOCK_PING: nat := 0x30
  const CLOCK_PONG: nat := 0x31
  const ERROR: nat := 0x40
  const BYE: nat := 0x41
  const PAIR_A: nat := 0x50
  const PAIR_B: nat := 0x51
  const PAIR_C: nat := 0x52
  const PAIR_RESULT: nat := 0x53

  type Body = seq<Entry>

  datatype Decoded = Message(msgType: nat, body: Body) | Ignored

  datatype ControlError = ProtocolViolation

  /** The body keys 0 to n - 1 that a message type defines, as their number n; None if it is not registered. */
  function KnownKeys(msgType: nat): Option<nat> {
    if msgType == HELLO then Some(6)
    else if msgType == CONFIG then Some(7)
    else if msgType == WELCOME then Some(4)
    else if msgType == STATS then Some(8)
    else if msgType == CLOCK_PONG then Some(3)
    else if msgType in {INPUT, IDR_REQUEST, ERROR, PAIR_B, PAIR_RESULT} then Some(2)
    else if msgType in {CONFIG_ACK, VIEWPORT, CLOCK_PING, BYE, PAIR_A, PAIR_C} then Some(1)
    else if msgType == START then Some(0)
    else None
  }

  predicate KnownKey(k: Value, n: nat) {
    k.Int? && 0 <= k.i < n
  }

  /** The entries whose keys are known, in order. */
  function Known(body: Body, n: nat): Body {
    if body == [] then [] else (if KnownKey(body[0].key, n) then [body[0]] else []) + Known(body[1..], n)
  }

  function Envelope(msgType: i64, body: Body): Value {
    Array([Int(msgType), Map(body)])
  }

  function EncodeFrame(msgType: i64, body: Body): seq<u8> {
    var payload := Encode(Envelope(msgType, body));
    BE(4, |payload|) + payload
  }

  function FrameLen(bytes: seq<u8>): nat
    requires |bytes| >= 4
  {
    FromBE(bytes[..4])
  }

  function DecodeFrame(bytes: seq<u8>): Result<Decoded, ControlError> {
    if |bytes| < 4 then Err(ProtocolViolation)
    else if FrameLen(bytes) > MAX_FRAME_BODY || |bytes| - 4 < FrameLen(bytes) then Err(ProtocolViolation)
    else
      match DecodeItem(bytes[4..4 + FrameLen(bytes)])
      case None => Err(ProtocolViolation)
      case Some((item, _)) => Open(item)
  }

  /** Checks the envelope and strips body keys the message type does not define. */
  function Open(item: Value): Result<Decoded, ControlError> {
    if !item.Array? || |item.items| != 2 then Err(ProtocolViolation)
    else if !item.items[0].Int? || item.items[0].i < 0 then Err(ProtocolViolation)
    else if !item.items[1].Map? then Err(ProtocolViolation)
    else
      match KnownKeys(item.items[0].i)
      case None => Ok(Ignored)
      case Some(n) => Ok(Message(item.items[0].i, Known(item.items[1].entries, n)))
  }

  // ---------------------------------------------------------------- round trips

  /** A message body as it comes back before unknown keys are stripped: sorted by key, values canonical. */
  function CanonBody(body: Body): Body {
    SortEntries(CanonEntries(body))
  }

  lemma {:induction false} CanonEnvelope(msgType: i64, body: Body)
    ensures Canon(Envelope(msgType, body)) == Envelope(msgType, CanonBody(body))
  {
    var a := [Int(msgType), Map(body)];
    assert a[1..] == [Map(body)] && a[1..][1..] == [];
    assert CanonAll(a) == [Canon(a[0])] + CanonAll(a[1..]);
    assert CanonAll(a[1..]) == [Canon(Map(body))] + CanonAll([]);
  }

  lemma {:induction false} EnvelopeBytes(t: i64, body: Body)
    ensures Encode(Envelope(t, body)) == [0x82] + Encode(Int(t)) + Encode(Map(body))
    ensures EncodeFrame(t, body)[5..] == Encode(Int(t)) + Encode(Map(body))
  {
    var a := [Int(t), Map(body)];
    assert a[1..] == [Map(body)] && a[1..][1..] == [];
    assert EncodeAll(a) == Encode(a[0]) + EncodeAll(a[1..]);
    assert EncodeAll(a[1..]) == Encode(Map(body)) + EncodeAll([]);
    assert Encode(Array(a)) == Head(4, 2) + EncodeAll(a);
  }

  lemma {:induction false} EnvelopeSized(msgType: i64, body: Body)
    requires Sized(Map(body))
    ensures Sized(Envelope(msgType, body))
  {
    var a := [Int(msgType), Map(body)];
    assert a[1..] == [Map(body)] && a[1..][1..] == [];
    assert AllSized(a[1..]);
  }

  /** Encoding then decoding, for every message type and body whose payload the limit admits, with anything
      behind the frame: a registered message comes back with its body in key order and restricted to the keys its
      type defines, an unregistered one is ignored, a negative type is a violation. */
  lemma {:induction false} FrameRoundTrip(msgType: i64, body: Body, tail: seq<u8>)
    requires Sized(Map(body))
    requires |Encode(Envelope(msgType, body))| <= 65536
    ensures DecodeFrame(EncodeFrame(msgType, body) + tail) ==
            if msgType < 0 then Err(ProtocolViolation)
            else match KnownKeys(msgType)
                 case None => Ok(Ignored)
                 case Some(n) => Ok(Message(msgType, Known(CanonBody(body), n)))
  {
    var payload := Encode(Envelope(msgType, body));
    var bytes := EncodeFrame(msgType, body) + tail;
    assert bytes[..4] == BE(4, |payload|) && bytes[4..4 + |payload|] == payload;
    PowValues();
    FromBEofBE(4, |payload|);
    EnvelopeSized(msgType, body);
    DecodeBack(Envelope(msgType, body), []);
    assert payload + [] == payload;
    CanonEnvelope(msgType, body);
  }

  /** A payload over the limit is rejected by its length alone. */
  lemma {:induction false} OversizeRejected(msgType: i64, body: Body, tail: seq<u8>)
    requires 65536 < |Encode(Envelope(msgType, body))| < 0x1_0000_0000
    ensures DecodeFrame(EncodeFrame(msgType, body) + tail) == Err(ProtocolViolation)
  {
    var payload := Encode(Envelope(msgType, body));
    var bytes := EncodeFrame(msgType, body) + tail;
    assert bytes[..4] == BE(4, |payload|);
    PowValues();
    FromBEofBE(4, |payload|);
  }

  /** Keys are non-negative integers in ascending order, all below n. */
  predicate KeyedInOrder(body: Body, n: nat) {
    && (forall i :: 0 <= i < |body| ==> KnownKey(body[i].key, n))
    && (forall i, j :: 0 <= i < j < |body| ==> body[i].key.i < body[j].key.i)
  }

  lemma {:induction false} KnownAll(body: Body, n: nat)
    requires forall i :: 0 <= i < |body| ==> KnownKey(body[i].key, n)
    ensures Known(body, n) == body
  {
    if body != [] {
      KnownAll(body[1..], n);
      assert body == [body[0]] + body[1..];
    }
  }

  lemma {:induction false} CanonKeys(body: Body, i: nat)
    requires i < |body|
    ensures CanonEntries(body)[i] == CanonEntry(body[i])
  {
    if i > 0 {
      CanonKeys(body[1..], i - 1);
    }
  }

  lemma {:induction false} IntKeysOrdered(x: i64, y: i64)
    requires 0 <= x < y
    ensures !Less(Encode(Int(y)), Encode(Int(x)))
  {
    Canonical.HeadsOrdered(0, x, y);
    NotLessTrans(Encode(Int(x)), Encode(Int(y)));
  }

  lemma {:induction false} InOrderSorted(body: Body, n: nat)
    requires KeyedInOrder(body, n) && n <= INT64_MAX
    ensures SortEntries(body) == body
  {
    if body != [] {
      InOrderSorted(body[1..], n);
      if |body| > 1 {
        IntKeysOrdered(body[0].key.i, body[1].key.i);
      }
      assert body == [body[0]] + body[1..];
    }
  }

  /** A body whose keys the type defines and which is written in key order loses nothing: it comes back whole, its
      values canonical. */
  lemma {:induction false} OrderedRoundTrip(msgType: nat, body: Body, tail: seq<u8>)
    requires KnownKeys(msgType).Some? && KeyedInOrder(body, KnownKeys(msgType).value)
    requires Sized(Map(body))
    requires |Encode(Envelope(msgType, body))| <= 65536
    ensures DecodeFrame(EncodeFrame(msgType, body) + tail) == Ok(Message(msgType, CanonEntries(body)))
  {
    var n := KnownKeys(msgType).value;
    FrameRoundTrip(msgType, body, tail);
    var canon := CanonEntries(body);
    forall i | 0 <= i < |body| ensures canon[i].key == body[i].key {
      CanonKeys(body, i);
    }
    InOrderSorted(canon, n);
    KnownAll(canon, n);
  }

  // ---------------------------------------------------------------- the originals

  method EncodeFrameBytes(msgType: i64, body: Body) returns (out: seq<u8>)
    ensures out == EncodeFrame(msgType, body)
  {
    var payload := Codec.EncodeCanonical(Envelope(msgType, body));
    var len := |payload|;
    out := [len / 0x100_0000 % 256, len / 0x1_0000 % 256, len / 0x100 % 256, len % 256];
    BE4Any(len);
    out := out + payload;
  }

  lemma {:induction false} BE4Any(x: nat)
    ensures BE(4, x) == [x / 0x100_0000 % 256, x / 0x1_0000 % 256, x / 0x100 % 256, x % 256]
  {
    assert x / 0x100 / 0x100 == x / 0x1_0000 && x / 0x1_0000 / 0x100 == x / 0x100_0000;
    assert BE(1, x / 0x100_0000) == BE(0, x / 0x100_0000 / 256) + [x / 0x100_0000 % 256];
    assert BE(2, x / 0x1_0000) == BE(1, x / 0x100_0000) + [x / 0x1_0000 % 256];
    assert BE(3, x / 0x100) == BE(2, x / 0x1_0000) + [x / 0x100 % 256];
  }

  lemma {:induction false} KnownSnoc(body: Body, n: nat, i: nat)
    requires i < |body|
    ensures Known(body[..i + 1], n) == Known(body[..i], n) + if KnownKey(body[i].key, n) then [body[i]] else []
  {
    if i > 0 {
      KnownSnoc(body[1..], n, i - 1);
      assert body[1..][..i] == body[..i + 1][1..] && body[1..][..i - 1] == body[..i][1..];
    }
  }

  /** The filtering loop of decode_frame. */
  method FilterKnown(body: Body, n: nat) returns (filtered: Body)
    ensures filtered == Known(body, n)
  {
    filtered := [];
    var i := 0;
    while i < |body|
      invariant 0 <= i <= |body|
      invariant filtered == Known(body[..i], n)
    {
      KnownSnoc(body, n, i);
      if KnownKey(body[i].key, n) { filtered := filtered + [body[i]]; }
      i := i + 1;
    }
    assert body[..|body|] == body;
  }

  method DecodeFrameBytes(bytes: seq<u8>) returns (r: Result<Decoded, ControlError>)
    ensures r == DecodeFrame(bytes)
  {
    if |bytes| < 4 { return Err(ProtocolViolation); }
    var len := ReadLen(bytes, 0);
    if len > MAX_FRAME_BODY { return Err(ProtocolViolation); }
    if |bytes| - 4 < len { return Err(ProtocolViolation); }
    var item := Codec.Decode(bytes[4..4 + len]);
    if item.None? || !item.value.Array? { return Err(ProtocolViolation); }
    var arr := item.value.items;
    if |arr| != 2 { return Err(ProtocolViolation); }
    if !arr[0].Int? || arr[0].i < 0 { return Err(ProtocolViolation); }
    if !arr[1].Map? { return Err(ProtocolViolation); }
    var msgType := arr[0].i;
    var allowed := KnownKeys(msgType);
    if allowed.None? { return Ok(Ignored); }
    var filtered := FilterKnown(arr[1].entries, allowed.value);
    return Ok(Message(msgType, filtered));
  }

  /** The length field of the frame at off. */
  method ReadLen(b: seq<u8>, off: nat) returns (len: nat)
    requires off + 4 <= |b|
    ensures len == FrameLen(b[off..])
  {
    len := b[off] as int * 0x100_0000 + b[off + 1] as int * 0x1_0000 + b[off + 2] as int * 0x100 + b[off + 3];
    FromBE4(b[off..][..4]);
  }

  lemma {:induction false} FromBE4(s: seq<u8>)
    requires |s| == 4
    ensures FromBE(s) == s[0] as int * 0x100_0000 + s[1] as int * 0x1_0000 + s[2] as int * 0x100 + s[3]
  {
    assert s[..3][..2] == s[..2] && s[..2][..1] == s[..1] && s[..1][..0] == [];
    assert FromBE(s[..1]) == s[0];
    assert FromBE(s[..2]) == 256 * FromBE(s[..1]) + s[1];
    assert FromBE(s[..3]) == 256 * FromBE(s[..2]) + s[2];
  }
}
