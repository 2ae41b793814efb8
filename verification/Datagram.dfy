/** The 12-byte media datagram header: encoding, validation, and both inverses. */
module Datagram {
  import opened Base

  const MAGIC: u8 := 0x4C
  const HEADER_LEN: nat := 12
  const MAX_DATAGRAM_LEN: nat := 1350

  datatype Header = Header(
    keyframe: bool, lastFragment: bool, streamId: u16, frameSeq: u32, fragIndex: u16, fragCount: u16)

  datatype DropReason =
    | TooShort | Oversize | BadMagic | FragCountZero | FragIndexRange | LastFragmentMismatch | UnknownStream

  datatype Decoded = Decoded(header: Header, payloadLen: nat)

  /** Builds a header, deriving the LAST flag from the fragment's position. */
  function MakeHeader(keyframe: bool, streamId: u16, frameSeq: u32, fragIndex: u16, fragCount: u16): (h: Header)
    ensures fragIndex < fragCount ==> WellFormed(h)
  {
    Header(keyframe, fragCount > 0 && fragIndex == fragCount - 1, streamId, frameSeq, fragIndex, fragCount)
  }

  /** What a header must satisfy for a receiver to accept it. */
  predicate WellFormed(h: Header) {
    h.fragIndex < h.fragCount && h.lastFragment == (h.fragIndex == h.fragCount - 1)
  }

  /** bit 0 is KEYFRAME, bit 1 is LAST_FRAGMENT, bits 2 to 7 are reserved. */
  function Flags(h: Header): u8 {
    (if h.keyframe then 1 else 0) + (if h.lastFragment then 2 else 0)
  }

  function HeaderBytes(h: Header): (b: seq<u8>)
    ensures |b| == HEADER_LEN
  {
    [MAGIC, Flags(h)] + BE(2, h.streamId) + BE(4, h.frameSeq) + BE(2, h.fragIndex) + BE(2, h.fragCount)
  }

  function Encode(h: Header, payload: seq<u8>): seq<u8> {
    HeaderBytes(h) + payload
  }

  /** Decodes and validates; `extra` lists the negotiated video streams beside 0 and 1. */
  function Decode(bytes: seq<u8>, extra: seq<u16>): Result<Decoded, DropReason> {
    if |bytes| < HEADER_LEN then Err(TooShort)
    else if |bytes| > MAX_DATAGRAM_LEN then Err(Oversize)
    else if bytes[0] != MAGIC then Err(BadMagic)
    else
      var flags := bytes[1];
      var streamId := BE16(bytes, 2);
      var frameSeq := BE32(bytes, 4);
      var fragIndex := BE16(bytes, 8);
      var fragCount := BE16(bytes, 10);
      if fragCount < 1 then Err(FragCountZero)
      else if fragIndex >= fragCount then Err(FragIndexRange)
      else
        var last := flags / 2 % 2 == 1;
        if last != (fragIndex == fragCount - 1) then Err(LastFragmentMismatch)
        else if streamId != 0 && streamId != 1 && streamId !in extra then Err(UnknownStream)
        else Ok(Decoded(Header(flags % 2 == 1, last, streamId, frameSeq, fragIndex, fragCount), |bytes| - HEADER_LEN))
  }

  function BE16(b: seq<u8>, o: nat): u16
    requires o + 2 <= |b|
  {
    (b[o] as int) * 0x100 + b[o + 1]
  }

  function BE32(b: seq<u8>, o: nat): u32
    requires o + 4 <= |b|
  {
    (b[o] as int) * 0x100_0000 + (b[o + 1] as int) * 0x1_0000 + (b[o + 2] as int) * 0x100 + b[o + 3]
  }

  lemma {:induction false} BE2Bytes(x: u16)
    ensures BE(2, x) == [x / 0x100, x % 0x100]
  {
    assert BE(1, x / 0x100) == BE(0, x / 0x100 / 0x100) + [x / 0x100 % 0x100];
  }

  lemma {:induction false} BE4Bytes(x: u32)
    ensures BE(4, x) == [x / 0x100_0000, x / 0x1_0000 % 0x100, x / 0x100 % 0x100, x % 0x100]
  {
    var y := x / 0x1_0000;
    assert x / 0x100 / 0x100 == y && y / 0x100 == x / 0x100_0000;
    BE2Bytes(y);
    assert BE(3, x / 0x100) == BE(2, y) + [x / 0x100 % 0x100];
    assert BE(4, x) == BE(3, x / 0x100) + [x % 0x100];
  }

  /** Every accepted header travels unchanged: decoding an encoding gives it back. */
  lemma {:induction false} DecodeEncode(h: Header, payload: seq<u8>, extra: seq<u16>)
    requires WellFormed(h)
    requires |payload| <= 1338
    requires h.streamId == 0 || h.streamId == 1 || h.streamId in extra
    ensures Decode(Encode(h, payload), extra) == Ok(Decoded(h, |payload|))
    ensures Encode(h, payload)[HEADER_LEN..] == payload
  {
    var b := Encode(h, payload);
    HeaderLayout(h);
    assert b[..HEADER_LEN] == HeaderBytes(h);
    assert forall i :: 0 <= i < HEADER_LEN ==> b[i] == HeaderBytes(h)[i];
    assert BE16(b, 2) == h.streamId && BE16(b, 8) == h.fragIndex && BE16(b, 10) == h.fragCount;
    assert BE32(b, 4) == h.frameSeq by { SplitU32(h.frameSeq); }
  }

  lemma {:induction false} SplitU32(x: u32)
    ensures x / 0x100_0000 * 0x100_0000 + x / 0x1_0000 % 0x100 * 0x1_0000 + x / 0x100 % 0x100 * 0x100 + x % 0x100 == x
  {
    assert x / 0x1_0000 == x / 0x100 / 0x100;
    assert x / 0x100_0000 == x / 0x1_0000 / 0x100;
  }

  lemma {:induction false} HeaderLayout(h: Header)
    ensures HeaderBytes(h) ==
            [MAGIC, Flags(h), h.streamId / 0x100, h.streamId % 0x100,
             h.frameSeq / 0x100_0000, h.frameSeq / 0x1_0000 % 0x100, h.frameSeq / 0x100 % 0x100, h.frameSeq % 0x100,
             h.fragIndex / 0x100, h.fragIndex % 0x100, h.fragCount / 0x100, h.fragCount % 0x100]
  {
    BE2Bytes(h.streamId);
    BE4Bytes(h.frameSeq);
    BE2Bytes(h.fragIndex);
    BE2Bytes(h.fragCount);
  }

  lemma {:induction false} JoinU32(a: u8, b: u8, c: u8, d: u8)
    ensures var x: u32 := a * 0x100_0000 + b * 0x1_0000 + c * 0x100 + d;
            x / 0x100_0000 == a && x / 0x1_0000 % 0x100 == b && x / 0x100 % 0x100 == c && x % 0x100 == d
  {
    var x := a * 0x100_0000 + b * 0x1_0000 + c * 0x100 + d;
    assert x / 0x100 == a * 0x1_0000 + b * 0x100 + c;
    assert x / 0x1_0000 == a * 0x100 + b;
  }

  /** The other direction: an accepted byte string is the encoding of what it decoded to, up to the
      six reserved flag bits, which an encoder writes as zero. The header it yields is well formed. */
  lemma {:induction false} EncodeDecode(bytes: seq<u8>, extra: seq<u16>)
    requires Decode(bytes, extra).Ok?
    ensures var d := Decode(bytes, extra).value;
            && WellFormed(d.header)
            && d.payloadLen == |bytes| - HEADER_LEN
            && Encode(d.header, bytes[HEADER_LEN..]) == bytes[1 := bytes[1] % 4]
  {
    var h := Decode(bytes, extra).value.header;
    var want := bytes[1 := bytes[1] % 4];
    HeaderOf(bytes, h);
    assert want == want[..HEADER_LEN] + bytes[HEADER_LEN..];
  }

  lemma {:induction false} HeaderOf(bytes: seq<u8>, h: Header)
    requires |bytes| >= HEADER_LEN && bytes[0] == MAGIC
    requires h.keyframe == (bytes[1] % 2 == 1) && h.lastFragment == (bytes[1] / 2 % 2 == 1)
    requires h.streamId == BE16(bytes, 2) && h.frameSeq == BE32(bytes, 4)
    requires h.fragIndex == BE16(bytes, 8) && h.fragCount == BE16(bytes, 10)
    ensures HeaderBytes(h) == bytes[1 := bytes[1] % 4][..HEADER_LEN]
  {
    HeaderLayout(h);
    JoinU32(bytes[4], bytes[5], bytes[6], bytes[7]);
    assert Flags(h) == bytes[1] % 4;
  }

  /** Two accepted datagrams with the same header and payload differ at most in reserved flag bits. */
  lemma {:induction false} DecodeInjective(a: seq<u8>, b: seq<u8>, extra: seq<u16>)
    requires Decode(a, extra).Ok? && Decode(b, extra) == Decode(a, extra)
    requires a[HEADER_LEN..] == b[HEADER_LEN..]
    ensures a[1 := a[1] % 4] == b[1 := b[1] % 4]
  {
    EncodeDecode(a, extra);
    EncodeDecode(b, extra);
  }

  method FlagsByte(h: Header) returns (f: u8)
    ensures f == Flags(h)
  {
    f := 0;
    if h.keyframe { f := f + 1; }
    if h.lastFragment { f := f + 2; }
  }

  method EncodeHeader(h: Header) returns (b: array<u8>)
    ensures fresh(b) && b[..] == HeaderBytes(h)
  {
    b := new u8[HEADER_LEN];
    b[0] := MAGIC;
    b[1] := FlagsByte(h);
    b[2], b[3] := h.streamId / 0x100, h.streamId % 0x100;
    b[4], b[5] := h.frameSeq / 0x100_0000, h.frameSeq / 0x1_0000 % 0x100;
    b[6], b[7] := h.frameSeq / 0x100 % 0x100, h.frameSeq % 0x100;
    b[8], b[9] := h.fragIndex / 0x100, h.fragIndex % 0x100;
    b[10], b[11] := h.fragCount / 0x100, h.fragCount % 0x100;
    HeaderLayout(h);
  }

  method EncodeDatagram(h: Header, payload: seq<u8>) returns (out: seq<u8>)
    ensures out == Encode(h, payload)
  {
    var head := EncodeHeader(h);
    out := head[..];
    out := out + payload;
  }

  /** The validation order is normative: the first failing rule names the reason. */
  method DecodeWithStreams(bytes: seq<u8>, extra: seq<u16>) returns (r: Result<Decoded, DropReason>)
    ensures r == Decode(bytes, extra)
  {
    if |bytes| < HEADER_LEN { return Err(TooShort); }
    if |bytes| > MAX_DATAGRAM_LEN { return Err(Oversize); }
    if bytes[0] != MAGIC { return Err(BadMagic); }
    var flags := bytes[1];
    var streamId := BE16(bytes, 2);
    var frameSeq := BE32(bytes, 4);
    var fragIndex := BE16(bytes, 8);
    var fragCount := BE16(bytes, 10);
    if fragCount < 1 { return Err(FragCountZero); }
    if fragIndex >= fragCount { return Err(FragIndexRange); }
    var last := flags / 2 % 2 == 1;
    if last != (fragIndex == fragCount - 1) { return Err(LastFragmentMismatch); }
    var streamOk := streamId == 0 || streamId == 1;
    var i := 0;
    while i < |extra|
      invariant 0 <= i <= |extra|
      invariant streamOk <==> streamId == 0 || streamId == 1
      invariant streamId !in extra[..i]
    {
      if extra[i] == streamId {
        streamOk := true;
        break;
      }
      i := i + 1;
    }
    if !streamOk { return Err(UnknownStream); }
    var h := Header(flags % 2 == 1, last, streamId, frameSeq, fragIndex, fragCount);
    return Ok(Decoded(h, |bytes| - HEADER_LEN));
  }
}
