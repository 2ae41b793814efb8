/** Which body keys each registered message type defines, which entries of a received body survive, and which frames are
    violations. */
module ControlKeys {
  import opened Base
  import opened Cbor
  import opened CborRoundTrip
  import opened Control

  /** The keys of the seventeen registered message types. */
  function KeysOf(t: int): Option<set<int>> {
    match t
    case 0x01 => Some({0, 1, 2, 3, 4, 5})
    case 0x02 => Some({0, 1, 2, 3})
    case 0x03 => Some({0, 1, 2, 3, 4, 5, 6})
    case 0x04 => Some({0})
    case 0x05 => Some({})
    case 0x10 => Some({0, 1})
    case 0x20 => Some({0, 1})
    case 0x21 => Some({0, 1, 2, 3, 4, 5, 6, 7})
    case 0x22 => Some({0})
    case 0x30 => Some({0})
    case 0x31 => Some({0, 1, 2})
    case 0x40 => Some({0, 1})
    case 0x41 => Some({0})
    case 0x50 => Some({0})
    case 0x51 => Some({0, 1})
    case 0x52 => Some({0})
    case 0x53 => Some({0, 1})
    case _ => None
  }

  predicate Defined(e: Entry, ks: set<int>) {
    e.key.Int? && e.key.i in ks
  }

  /** A body without the entries whose keys are not defined, in its own order. */
  function Stripped(raw: Body, ks: set<int>): Body {
    if raw == [] then []
    else Stripped(raw[..|raw| - 1], ks) + if Defined(raw[|raw| - 1], ks) then [raw[|raw| - 1]] else []
  }

  lemma {:induction false} KnownIsStripped(raw: Body, n: nat, ks: set<int>)
    requires forall k: int :: k in ks <==> 0 <= k < n
    ensures Known(raw, n) == Stripped(raw, ks)
  {
    if raw != [] {
      var i := |raw| - 1;
      KnownIsStripped(raw[..i], n, ks);
      KnownSnoc(raw, n, i);
      assert raw[..i + 1] == raw;
    }
  }

  lemma {:induction false} StrippedCounts(raw: Body, ks: set<int>, e: Entry)
    ensures multiset(Stripped(raw, ks))[e] == if Defined(e, ks) then multiset(raw)[e] else 0
  {
    if raw != [] {
      var front, last := raw[..|raw| - 1], raw[|raw| - 1];
      StrippedCounts(front, ks, e);
      assert raw == front + [last];
    }
  }

  lemma {:induction false} KeysAreKnown(t: nat)
    ensures KeysOf(t).None? <==> KnownKeys(t).None?
    ensures KeysOf(t).Some? ==> forall k: int :: k in KeysOf(t).value <==> 0 <= k < KnownKeys(t).value
  {
  }

  /** An envelope of any type: unregistered ones are ignored, of the others exactly the defined keys survive. */
  lemma {:induction false} OpenExactly(t: i64, raw: Body)
    ensures Open(Array([Int(t), Map(raw)])) ==
            if t < 0 then Err(ProtocolViolation)
            else match KeysOf(t)
                 case None => Ok(Ignored)
                 case Some(ks) => Ok(Message(t, Stripped(raw, ks)))
  {
    if t >= 0 {
      KeysAreKnown(t);
      if KeysOf(t).Some? {
        KnownIsStripped(raw, KnownKeys(t).value, KeysOf(t).value);
      }
    }
  }

  // ---------------------------------------------------------------- frames received

  /** The number in the first four bytes. */
  function Announced(b: seq<u8>): nat
    requires |b| >= 4
  {
    ((b[0] as int * 256 + b[1]) * 256 + b[2]) * 256 + b[3]
  }

  lemma {:induction false} AnnouncedIsLen(b: seq<u8>)
    requires |b| >= 4
    ensures FrameLen(b) == Announced(b)
  {
    FromBE4(b[..4]);
  }

  predicate Envelopes(payload: seq<u8>, t: i64, raw: Body, rest: seq<u8>) {
    DecodeItem(payload) == Some((Array([Int(t), Map(raw)]), rest))
  }

  /** Length field within 65536, all of the payload there. */
  predicate Complete(b: seq<u8>) {
    |b| >= 4 && Announced(b) <= 65536 && |b| >= 4 + Announced(b)
  }

  function Payload(b: seq<u8>): seq<u8>
    requires Complete(b)
  {
    b[4..4 + Announced(b)]
  }

  /** A frame is accepted exactly when it is complete and its payload starts with a pair of a non-negative type and a
      map; it then yields exactly the entries of that map whose keys its type defines. */
  lemma {:induction false} FrameAcceptedIff(b: seq<u8>)
    ensures DecodeFrame(b).Ok? <==>
              Complete(b) && exists t, raw, rest :: t >= 0 && Envelopes(Payload(b), t, raw, rest)
  {
    if |b| >= 4 {
      AnnouncedIsLen(b);
    }
    if DecodeFrame(b).Ok? {
      var (item, rest) := DecodeItem(Payload(b)).value;
      var t, raw := item.items[0].i, item.items[1].entries;
      assert item.items == [Int(t), Map(raw)];
      assert Envelopes(Payload(b), t, raw, rest);
    } else if Complete(b) && exists t, raw, rest :: t >= 0 && Envelopes(Payload(b), t, raw, rest) {
      var t, raw, rest :| t >= 0 && Envelopes(Payload(b), t, raw, rest);
      OpenExactly(t, raw);
    }
  }

  lemma {:induction false} FrameYields(b: seq<u8>, t: i64, raw: Body, rest: seq<u8>)
    requires Complete(b) && t >= 0 && Envelopes(Payload(b), t, raw, rest)
    ensures DecodeFrame(b) == match KeysOf(t)
                              case None => Ok(Ignored)
                              case Some(ks) => Ok(Message(t, Stripped(raw, ks)))
  {
    AnnouncedIsLen(b);
    OpenExactly(t, raw);
  }

  // ---------------------------------------------------------------- frames sent and received

  lemma {:induction false} InsertEntryPermutes(e: Entry, es: seq<Entry>)
    ensures multiset(InsertEntry(e, es)) == multiset{e} + multiset(es)
  {
    if es != [] {
      InsertEntryPermutes(e, es[1..]);
      assert es == [es[0]] + es[1..];
    }
  }

  lemma {:induction false} SortEntriesPermutes(es: seq<Entry>)
    ensures multiset(SortEntries(es)) == multiset(es)
  {
    if es != [] {
      SortEntriesPermutes(es[1..]);
      InsertEntryPermutes(es[0], SortEntries(es[1..]));
      assert es == [es[0]] + es[1..];
    }
  }

  /** For every registered type and every body within the limit: an entry arrives, as often as it was sent, exactly if
      its key is one of those the type defines. Every other type is ignored. */
  lemma {:induction false} ArrivesIff(t: nat, body: Body, tail: seq<u8>, e: Entry)
    requires t <= INT64_MAX && Sized(Map(body)) && |Encode(Envelope(t, body))| <= 65536
    ensures match KeysOf(t)
            case None => DecodeFrame(EncodeFrame(t, body) + tail) == Ok(Ignored)
            case Some(ks) =>
              var r := DecodeFrame(EncodeFrame(t, body) + tail);
              && r.Ok? && r.value.Message? && r.value.msgType == t
              && multiset(r.value.body)[e] == if Defined(e, ks) then multiset(CanonEntries(body))[e] else 0
  {
    FrameRoundTrip(t, body, tail);
    KeysAreKnown(t);
    if KeysOf(t).Some? {
      KnownIsStripped(CanonBody(body), KnownKeys(t).value, KeysOf(t).value);
      StrippedCounts(CanonBody(body), KeysOf(t).value, e);
      SortEntriesPermutes(CanonEntries(body));
    }
  }

  /** The bytes of a frame: the payload's length most significant byte first, the head of a pair, type and body. */
  lemma {:induction false} FrameWire(t: i64, body: Body)
    requires |Encode(Envelope(t, body))| < 0x1_0000_0000
    ensures var b := EncodeFrame(t, body);
            && |b| > 4 && Announced(b) == |b| - 4 && b[4] == 0x82
            && b[5..] == Encode(Int(t)) + Encode(Map(body))
  {
    var payload := Encode(Envelope(t, body));
    var b := EncodeFrame(t, body);
    assert b[..4] == BE(4, |payload|);
    PowValues();
    FromBEofBE(4, |payload|);
    AnnouncedIsLen(b);
    EnvelopeBytes(t, body);
  }
}
