/** The media datagram byte by byte: what a header looks like on the wire, which of the seven rules rejects a datagram,
    and what an accepted one says. */
module DatagramRules {
  import opened Base
  import opened Datagram

  // ---------------------------------------------------------------- fields by position

  function StreamOf(b: seq<u8>): nat
    requires |b| >= 12
  {
    b[2] as int * 256 + b[3]
  }

  function SeqOf(b: seq<u8>): nat
    requires |b| >= 12
  {
    ((b[4] as int * 256 + b[5]) * 256 + b[6]) * 256 + b[7]
  }

  function IndexOf(b: seq<u8>): nat
    requires |b| >= 12
  {
    b[8] as int * 256 + b[9]
  }

  function CountOf(b: seq<u8>): nat
    requires |b| >= 12
  {
    b[10] as int * 256 + b[11]
  }

  /** Rule k of seven, in the order in which they are checked; a rule on a field presupposes the length. */
  predicate Passes(b: seq<u8>, extra: seq<u16>, k: nat) {
    if k == 0 then |b| >= 12
    else if k == 1 then |b| <= 1350
    else if |b| < 12 then false
    else if k == 2 then b[0] == 0x4c
    else if k == 3 then CountOf(b) != 0
    else if k == 4 then IndexOf(b) < CountOf(b)
    else if k == 5 then b[1] / 2 % 2 == (if IndexOf(b) + 1 == CountOf(b) then 1 else 0)
    else StreamOf(b) == 0 || StreamOf(b) == 1 || exists i :: 0 <= i < |extra| && extra[i] == StreamOf(b)
  }

  const REASONS: seq<DropReason> :=
    [TooShort, Oversize, BadMagic, FragCountZero, FragIndexRange, LastFragmentMismatch, UnknownStream]

  /** For every byte string: if rule k is the first to fail, its reason is reported; if none fails, the header says what
      the bytes say at each position. */
  lemma {:induction false} DecodeByRules(b: seq<u8>, extra: seq<u16>, k: nat)
    requires k <= 7 && (forall j :: 0 <= j < k ==> Passes(b, extra, j)) && (k < 7 ==> !Passes(b, extra, k))
    ensures k < 7 ==> Decode(b, extra) == Err(REASONS[k])
    ensures k == 7 ==>
              && |b| >= 12
              && Decode(b, extra) ==
                 Ok(Decoded(Header(b[1] % 2 == 1, b[1] / 2 % 2 == 1, StreamOf(b), SeqOf(b), IndexOf(b), CountOf(b)),
                            |b| - 12))
  {
    assert k > 0 ==> Passes(b, extra, 0);
    assert k > 1 ==> Passes(b, extra, 1);
    assert k > 2 ==> Passes(b, extra, 2);
    assert k > 3 ==> Passes(b, extra, 3);
    assert k > 4 ==> Passes(b, extra, 4);
    assert k > 5 ==> Passes(b, extra, 5);
    assert k > 6 ==> Passes(b, extra, 6);
  }

  /** Some rule is the first to fail, or none fails. */
  lemma {:induction false} FirstFailing(b: seq<u8>, extra: seq<u16>) returns (k: nat)
    ensures k <= 7 && (forall j :: 0 <= j < k ==> Passes(b, extra, j)) && (k < 7 ==> !Passes(b, extra, k))
  {
    k := 0;
    while k < 7 && Passes(b, extra, k)
      invariant k <= 7 && forall j :: 0 <= j < k ==> Passes(b, extra, j)
    {
      k := k + 1;
    }
  }

  /** Accepted exactly when every rule passes. */
  lemma {:induction false} AcceptedIff(b: seq<u8>, extra: seq<u16>)
    ensures Decode(b, extra).Ok? <==> forall k :: 0 <= k < 7 ==> Passes(b, extra, k)
  {
    var k := FirstFailing(b, extra);
    DecodeByRules(b, extra, k);
  }

  /** What the encoder puts at each position. */
  lemma {:induction false} Wire(h: Header, payload: seq<u8>)
    ensures var b := Encode(h, payload);
            && |b| == 12 + |payload| && b[12..] == payload
            && b[0] == 0x4c && b[1] == (if h.keyframe then 1 else 0) + (if h.lastFragment then 2 else 0)
            && StreamOf(b) == h.streamId && SeqOf(b) == h.frameSeq
            && IndexOf(b) == h.fragIndex && CountOf(b) == h.fragCount
  {
    var b := Encode(h, payload);
    HeaderLayout(h);
    assert b[..12] == HeaderBytes(h);
    assert forall i :: 0 <= i < 12 ==> b[i] == HeaderBytes(h)[i];
    SplitU32(h.frameSeq);
  }

  /** A made header carries its arguments; only a last fragment is marked, and a frame of no fragments has none. */
  lemma {:induction false} Made(keyframe: bool, streamId: u16, frameSeq: u32, fragIndex: u16, fragCount: u16)
    ensures MakeHeader(keyframe, streamId, frameSeq, fragIndex, fragCount) ==
            Header(keyframe, fragIndex + 1 == fragCount, streamId, frameSeq, fragIndex, fragCount)
  {
  }
}
