/** CBOR values, their canonical encoding (section 4.2.1 of RFC 8949) and the tolerant decoder, as functions. */
module Cbor {
  import opened Base
  import opened FloatBits

  /** A value tree. Text is its bytes; a float is the bit pattern of a double. */
  datatype Value =
    | Null
    | Bool(b: bool)
    | Int(i: i64)
    | Bytes(bytes: seq<u8>)
    | Text(text: seq<u8>)
    | Array(items: seq<Value>)
    | Map(entries: seq<Entry>)
    | Float(bits: u64)

  datatype Entry = Entry(key: Value, val: Value)

  /** A map entry after both halves are encoded. */
  datatype Item = Item(key: seq<u8>, val: seq<u8>)

  // ---------------------------------------------------------------- encoding

  /** The initial byte and the shortest form of the argument. */
  function Head(major: nat, arg: nat): (s: seq<u8>)
    requires major < 8
    ensures s != []
  {
    if arg < 24 then [major * 32 + arg]
    else if arg <= 0xff then [major * 32 + 24] + BE(1, arg)
    else if arg <= 0xffff then [major * 32 + 25] + BE(2, arg)
    else if arg <= 0xffff_ffff then [major * 32 + 26] + BE(4, arg)
    else [major * 32 + 27] + BE(8, arg)
  }

  /** Places an item before the first whose key is not smaller. */
  function Insert(it: Item, items: seq<Item>): (r: seq<Item>)
    ensures |r| == |items| + 1
  {
    if items != [] && Less(items[0].key, it.key) then [items[0]] + Insert(it, items[1..]) else [it] + items
  }

  /** The items in bytewise order of their keys. With distinct keys this is what any sorting algorithm returns. */
  function Sort(items: seq<Item>): (r: seq<Item>)
    ensures |r| == |items|
  {
    if items == [] then [] else Insert(items[0], Sort(items[1..]))
  }

  function Flatten(items: seq<Item>): seq<u8> {
    if items == [] then [] else items[0].key + items[0].val + Flatten(items[1..])
  }

  function Encode(v: Value): (s: seq<u8>)
    ensures s != []
    decreases v, 1
  {
    match v
    case Null => [0xf6]
    case Bool(b) => [if b then 0xf5 else 0xf4]
    case Int(i) => if i >= 0 then Head(0, i) else Head(1, -(i + 1))
    case Float(d) => FloatBytes(d)
    case Bytes(b) => Head(2, |b|) + b
    case Text(t) => Head(3, |t|) + t
    case Array(a) => Head(4, |a|) + EncodeAll(a)
    case Map(m) => Head(5, |m|) + Flatten(Sort(EncodeEntries(m)))
  }

  function EncodeAll(a: seq<Value>): seq<u8>
    decreases a, 0
  {
    if a == [] then [] else Encode(a[0]) + EncodeAll(a[1..])
  }

  function EncodeEntries(m: seq<Entry>): (r: seq<Item>)
    ensures |r| == |m|
    decreases m, 0
  {
    if m == [] then [] else [EncodeEntry(m[0])] + EncodeEntries(m[1..])
  }

  function EncodeEntry(e: Entry): Item
    decreases e, 0
  {
    Item(Encode(e.key), Encode(e.val))
  }

  // ---------------------------------------------------------------- decoding

  datatype Header = Header(major: nat, ai: nat, arg: nat)

  /** The number of argument bytes that the additional information announces, if it is defined. */
  function ArgLen(ai: nat): Option<nat> {
    if ai < 24 then Some(0)
    else if ai == 24 then Some(1)
    else if ai == 25 then Some(2)
    else if ai == 26 then Some(4)
    else if ai == 27 then Some(8)
    else None
  }

  function ReadHead(b: seq<u8>): (r: Option<(Header, seq<u8>)>)
    ensures r.Some? ==> |r.value.1| < |b| && r.value.0.major < 8 && r.value.0.ai < 28
  {
    if b == [] then None
    else
      var major, ai := b[0] / 32, b[0] % 32;
      match ArgLen(ai)
      case None => None
      case Some(n) =>
        if |b| - 1 < n then None
        else Some((Header(major, ai, if n == 0 then ai else FromBE(b[1..1 + n])), b[1 + n..]))
  }

  /** One item from the front of b, and what follows it. Every success consumes at least one byte, which is what
      makes decoding terminate whatever count the bytes announce. */
  function DecodeItem(b: seq<u8>): (r: Option<(Value, seq<u8>)>)
    ensures r.Some? ==> |r.value.1| < |b|
    decreases |b|, 0
  {
    match ReadHead(b)
    case None => None
    case Some((h, rest)) =>
      if h.major == 4 then
        (match DecodeItems(rest, h.arg)
         case None => None
         case Some((items, rest')) => Some((Array(items), rest')))
      else if h.major == 5 then
        (match DecodeEntries(rest, h.arg)
         case None => None
         case Some((entries, rest')) => Some((Map(entries), rest')))
      else DecodeLeaf(h, rest)
  }

  function DecodeLeaf(h: Header, rest: seq<u8>): (r: Option<(Value, seq<u8>)>)
    ensures r.Some? ==> |r.value.1| <= |rest|
  {
    if h.major == 0 then
      if h.arg > INT64_MAX then None else Some((Int(h.arg), rest))
    else if h.major == 1 then
      if h.arg > INT64_MAX then None else Some((Int(-1 - h.arg), rest))
    else if h.major == 2 then
      if h.arg > |rest| then None else Some((Bytes(rest[..h.arg]), rest[h.arg..]))
    else if h.major == 3 then
      if h.arg > |rest| then None else Some((Text(rest[..h.arg]), rest[h.arg..]))
    else if h.major == 7 then
      match DecodeSimple(h.ai, h.arg)
      case None => None
      case Some(v) => Some((v, rest))
    else None
  }

  function DecodeSimple(ai: nat, arg: nat): Option<Value> {
    if ai == 20 then Some(Bool(false))
    else if ai == 21 then Some(Bool(true))
    else if ai == 22 then Some(Null)
    else if ai == 25 && arg < 0x1_0000 then Some(Float(F16ToF64(arg)))
    else if ai == 26 && arg < 0x1_0000_0000 then Some(Float(F32ToF64(arg)))
    else if ai == 27 && arg < 0x1_0000_0000_0000_0000 then Some(Float(arg))
    else None
  }

  function DecodeItems(b: seq<u8>, n: nat): (r: Option<(seq<Value>, seq<u8>)>)
    ensures r.Some? ==> |r.value.0| == n && |r.value.1| + n <= |b|
    decreases |b|, 1
  {
    if n == 0 then Some(([], b))
    else
      match DecodeItem(b)
      case None => None
      case Some((v, rest)) =>
        match DecodeItems(rest, n - 1)
        case None => None
        case Some((vs, rest')) => Some(([v] + vs, rest'))
  }

  /** A key and then its value. */
  function DecodePair(b: seq<u8>): (r: Option<(Entry, seq<u8>)>)
    ensures r.Some? ==> |r.value.1| < |b|
    decreases |b|, 1
  {
    match DecodeItem(b)
    case None => None
    case Some((k, rest)) =>
      match DecodeItem(rest)
      case None => None
      case Some((v, rest')) => Some((Entry(k, v), rest'))
  }

  function DecodeEntries(b: seq<u8>, n: nat): (r: Option<(seq<Entry>, seq<u8>)>)
    ensures r.Some? ==> |r.value.0| == n && |r.value.1| + n <= |b|
    decreases |b|, 2
  {
    if n == 0 then Some(([], b))
    else
      match DecodePair(b)
      case None => None
      case Some((e, rest)) =>
        match DecodeEntries(rest, n - 1)
        case None => None
        case Some((es, rest')) => Some(([e] + es, rest'))
  }

  // ---------------------------------------------------------------- reading heads back

  /** A head is read back whatever follows it. */
  lemma {:induction false} ReadHeadOf(major: nat, arg: nat, tail: seq<u8>)
    requires major < 8 && arg < 0x1_0000_0000_0000_0000
    ensures var r := ReadHead(Head(major, arg) + tail);
            && r.Some? && r.value.0.major == major && r.value.0.arg == arg && r.value.1 == tail
            && (r.value.0.ai < 24 <==> arg < 24) && (arg < 24 ==> r.value.0.ai == arg)
  {
    if arg < 24 {
      assert (Head(major, arg) + tail)[1..] == tail;
    } else if arg <= 0xff {
      ReadLong(major, 24, 1, arg, tail);
    } else if arg <= 0xffff {
      ReadLong(major, 25, 2, arg, tail);
    } else if arg <= 0xffff_ffff {
      ReadLong(major, 26, 4, arg, tail);
    } else {
      ReadLong(major, 27, 8, arg, tail);
    }
  }

  /** A head whose argument takes n bytes, however small the argument. */
  lemma {:induction false} ReadLong(major: nat, ai: nat, n: nat, arg: nat, tail: seq<u8>)
    requires major < 8 && 24 <= ai && ArgLen(ai) == Some(n)
    requires match n case 1 => arg < 0x100 case 2 => arg < 0x1_0000 case 4 => arg < 0x1_0000_0000
             case _ => arg < 0x1_0000_0000_0000_0000
    ensures ReadHead([major * 32 + ai] + BE(n, arg) + tail) == Some((Header(major, ai, arg), tail))
  {
    assert FromBE(BE(n, arg)) == arg by {
      PowValues();
      FromBEofBE(n, arg);
    }
    ReadTagged(major, ai, BE(n, arg), tail);
  }

  lemma {:induction false} ReadTagged(major: nat, ai: nat, bytes: seq<u8>, tail: seq<u8>)
    requires major < 8 && 24 <= ai && ArgLen(ai) == Some(|bytes|)
    ensures ReadHead([major * 32 + ai] + bytes + tail) == Some((Header(major, ai, FromBE(bytes)), tail))
  {
    var b := [major * 32 + ai] + bytes + tail;
    assert b[1..1 + |bytes|] == bytes && b[1 + |bytes|..] == tail;
  }
}
