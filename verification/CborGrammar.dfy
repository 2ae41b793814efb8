/** The encodings that section 3 of RFC 8949 gives to the values used here, every argument in any width that holds it:
    the decoder accepts exactly these, and the encoder's output is one of them and the shortest. */
module CborGrammar {
  import opened Base
  import opened FloatBits
  import opened Cbor
  import opened CborRoundTrip
  import Canonical = CborCanonical

  /** An argument fits the initial byte (width 0) or so many bytes after it. */
  predicate WidthOk(w: nat, arg: nat) {
    || (w == 0 && arg < 24)
    || (w == 1 && arg < 0x100)
    || (w == 2 && arg < 0x1_0000)
    || (w == 4 && arg < 0x1_0000_0000)
    || (w == 8 && arg < 0x1_0000_0000_0000_0000)
  }

  /** The low five bits of the initial byte. */
  function Info(w: nat, arg: nat): (ai: nat)
    requires WidthOk(w, arg)
    ensures ai < 28
  {
    if w == 0 then arg else if w == 1 then 24 else if w == 2 then 25 else if w == 4 then 26 else 27
  }

  function HeadBytes(major: nat, w: nat, arg: nat): seq<u8>
    requires major < 8 && WidthOk(w, arg)
  {
    [major * 32 + Info(w, arg)] + BE(w, arg)
  }

  /** An encoding: what it encodes, and in which widths. */
  datatype Tree =
    | False
    | True
    | Null
    | Uint(w: nat, arg: nat)
    | Nint(w: nat, arg: nat)
    | ByteString(w: nat, bytes: seq<u8>)
    | TextString(w: nat, bytes: seq<u8>)
    | List(w: nat, items: seq<Tree>)
    | Dict(w: nat, pairs: seq<Pair>)
    | Half(h: u16)
    | Single(x: u32)
    | Double(d: u64)

  datatype Pair = Pair(key: Tree, val: Tree)

  predicate Legal(t: Tree)
    decreases t, 1
  {
    match t
    case Uint(w, arg) => WidthOk(w, arg) && arg <= INT64_MAX
    case Nint(w, arg) => WidthOk(w, arg) && arg <= INT64_MAX
    case ByteString(w, bytes) => WidthOk(w, |bytes|)
    case TextString(w, bytes) => WidthOk(w, |bytes|)
    case List(w, items) => WidthOk(w, |items|) && AllLegal(items)
    case Dict(w, pairs) => WidthOk(w, |pairs|) && PairsLegal(pairs)
    case _ => true
  }

  predicate AllLegal(items: seq<Tree>)
    decreases items, 0
  {
    items == [] || (Legal(items[0]) && AllLegal(items[1..]))
  }

  predicate PairsLegal(pairs: seq<Pair>)
    decreases pairs, 0
  {
    pairs == [] || (PairLegal(pairs[0]) && PairsLegal(pairs[1..]))
  }

  predicate PairLegal(p: Pair)
    decreases p, 0
  {
    Legal(p.key) && Legal(p.val)
  }

  function Written(t: Tree): (b: seq<u8>)
    requires Legal(t)
    decreases t, 1
  {
    match t
    case False => [0xf4]
    case True => [0xf5]
    case Null => [0xf6]
    case Uint(w, arg) => HeadBytes(0, w, arg)
    case Nint(w, arg) => HeadBytes(1, w, arg)
    case ByteString(w, bytes) => HeadBytes(2, w, |bytes|) + bytes
    case TextString(w, bytes) => HeadBytes(3, w, |bytes|) + bytes
    case List(w, items) => HeadBytes(4, w, |items|) + AllWritten(items)
    case Dict(w, pairs) => HeadBytes(5, w, |pairs|) + PairsWritten(pairs)
    case Half(h) => [0xf9] + BE(2, h)
    case Single(x) => [0xfa] + BE(4, x)
    case Double(d) => [0xfb] + BE(8, d)
  }

  function AllWritten(items: seq<Tree>): seq<u8>
    requires AllLegal(items)
    decreases items, 0
  {
    if items == [] then [] else Written(items[0]) + AllWritten(items[1..])
  }

  function PairsWritten(pairs: seq<Pair>): seq<u8>
    requires PairsLegal(pairs)
    decreases pairs, 0
  {
    if pairs == [] then [] else PairWritten(pairs[0]) + PairsWritten(pairs[1..])
  }

  function PairWritten(p: Pair): seq<u8>
    requires PairLegal(p)
    decreases p, 0
  {
    Written(p.key) + Written(p.val)
  }

  function Meaning(t: Tree): Value
    requires Legal(t)
    decreases t, 1
  {
    match t
    case False => Bool(false)
    case True => Bool(true)
    case Null => Value.Null
    case Uint(_, arg) => Int(arg)
    case Nint(_, arg) => Int(-1 - arg)
    case ByteString(_, bytes) => Bytes(bytes)
    case TextString(_, bytes) => Text(bytes)
    case List(_, items) => Array(Meanings(items))
    case Dict(_, pairs) => Map(PairMeanings(pairs))
    case Half(h) => Float(F16ToF64(h))
    case Single(x) => Float(F32ToF64(x))
    case Double(d) => Float(d)
  }

  function Meanings(items: seq<Tree>): (r: seq<Value>)
    requires AllLegal(items)
    ensures |r| == |items|
    decreases items, 0
  {
    if items == [] then [] else [Meaning(items[0])] + Meanings(items[1..])
  }

  function PairMeanings(pairs: seq<Pair>): (r: seq<Entry>)
    requires PairsLegal(pairs)
    ensures |r| == |pairs|
    decreases pairs, 0
  {
    if pairs == [] then [] else [PairMeaning(pairs[0])] + PairMeanings(pairs[1..])
  }

  function PairMeaning(p: Pair): Entry
    requires PairLegal(p)
    decreases p, 0
  {
    Entry(Meaning(p.key), Meaning(p.val))
  }

  // ---------------------------------------------------------------- heads

  lemma {:induction false} ReadsHead(major: nat, w: nat, arg: nat, tail: seq<u8>)
    requires major < 8 && WidthOk(w, arg)
    ensures ReadHead(HeadBytes(major, w, arg) + tail) == Some((Header(major, Info(w, arg), arg), tail))
  {
    if w == 0 {
      var b := HeadBytes(major, w, arg) + tail;
      assert BE(0, arg) == [] && b[1..] == tail;
    } else {
      ReadLong(major, Info(w, arg), w, arg, tail);
    }
  }

  /** A head that can be read is one of those above. */
  lemma {:induction false} HeadIsWritten(b: seq<u8>) returns (w: nat)
    requires ReadHead(b).Some?
    ensures var (h, rest) := ReadHead(b).value;
            WidthOk(w, h.arg) && Info(w, h.arg) == h.ai && b == HeadBytes(h.major, w, h.arg) + rest
  {
    var (h, rest) := ReadHead(b).value;
    w := ArgLen(h.ai).value;
    PowValues();
    if w > 0 {
      FromBEBound(b[1..1 + w]);
      BEofFromBE(b[1..1 + w]);
      assert b == [b[0]] + b[1..1 + w] + b[1 + w..];
    } else {
      assert BE(0, h.arg) == [] && b == [b[0]] + b[1..];
    }
  }

  // ---------------------------------------------------------------- every legal encoding is accepted

  lemma {:induction false} LeafReads(t: Tree, tail: seq<u8>)
    requires Legal(t) && !t.List? && !t.Dict?
    ensures DecodeItem(Written(t) + tail) == Some((Meaning(t), tail))
  {
    match t
    case False => ReadsHead(7, 0, 20, tail); assert BE(0, 20) == [];
    case True => ReadsHead(7, 0, 21, tail); assert BE(0, 21) == [];
    case Null => ReadsHead(7, 0, 22, tail); assert BE(0, 22) == [];
    case Uint(w, arg) => ReadsHead(0, w, arg, tail);
    case Nint(w, arg) => ReadsHead(1, w, arg, tail);
    case ByteString(w, bytes) => StringReads(2, w, bytes, tail);
    case TextString(w, bytes) => StringReads(3, w, bytes, tail);
    case Half(h) => DecodeFloatForms(h, 0, 0, tail);
    case Single(x) => DecodeFloatForms(0, x, 0, tail);
    case Double(d) => DecodeFloatForms(0, 0, d, tail);
  }

  lemma {:induction false} StringReads(major: nat, w: nat, bytes: seq<u8>, tail: seq<u8>)
    requires (major == 2 || major == 3) && WidthOk(w, |bytes|)
    ensures DecodeItem(HeadBytes(major, w, |bytes|) + bytes + tail) ==
            Some((if major == 2 then Bytes(bytes) else Text(bytes), tail))
  {
    var b := HeadBytes(major, w, |bytes|) + bytes + tail;
    assert b == HeadBytes(major, w, |bytes|) + (bytes + tail);
    ReadsHead(major, w, |bytes|, bytes + tail);
    StringItem(b, Header(major, Info(w, |bytes|), |bytes|), bytes, tail);
  }

  lemma {:induction false} StringItem(b: seq<u8>, h: Header, bytes: seq<u8>, tail: seq<u8>)
    requires (h.major == 2 || h.major == 3) && h.arg == |bytes| && ReadHead(b) == Some((h, bytes + tail))
    ensures DecodeItem(b) == Some((if h.major == 2 then Bytes(bytes) else Text(bytes), tail))
  {
    assert (bytes + tail)[..|bytes|] == bytes && (bytes + tail)[|bytes|..] == tail;
  }

  lemma {:induction false} ReadsBack(t: Tree, tail: seq<u8>)
    requires Legal(t)
    ensures DecodeItem(Written(t) + tail) == Some((Meaning(t), tail))
    decreases t, 1
  {
    match t
    case List(w, items) =>
      AllReadBack(items, tail);
      ListReads(w, |items|, AllWritten(items), tail, Meanings(items));
    case Dict(w, pairs) =>
      PairsReadBack(pairs, tail);
      DictReads(w, |pairs|, PairsWritten(pairs), tail, PairMeanings(pairs));
    case _ => LeafReads(t, tail);
  }

  lemma {:induction false} ListReads(w: nat, n: nat, bytes: seq<u8>, tail: seq<u8>, vs: seq<Value>)
    requires WidthOk(w, n) && DecodeItems(bytes + tail, n) == Some((vs, tail))
    ensures DecodeItem(HeadBytes(4, w, n) + bytes + tail) == Some((Array(vs), tail))
  {
    ReadsHead(4, w, n, bytes + tail);
    assert HeadBytes(4, w, n) + bytes + tail == HeadBytes(4, w, n) + (bytes + tail);
  }

  lemma {:induction false} DictReads(w: nat, n: nat, bytes: seq<u8>, tail: seq<u8>, es: seq<Entry>)
    requires WidthOk(w, n) && DecodeEntries(bytes + tail, n) == Some((es, tail))
    ensures DecodeItem(HeadBytes(5, w, n) + bytes + tail) == Some((Map(es), tail))
  {
    ReadsHead(5, w, n, bytes + tail);
    assert HeadBytes(5, w, n) + bytes + tail == HeadBytes(5, w, n) + (bytes + tail);
  }

  lemma {:induction false} AllReadBack(items: seq<Tree>, tail: seq<u8>)
    requires AllLegal(items)
    ensures DecodeItems(AllWritten(items) + tail, |items|) == Some((Meanings(items), tail))
    decreases items, 0
  {
    if items == [] {
      assert AllWritten(items) + tail == tail;
    } else {
      var rest := AllWritten(items[1..]) + tail;
      ReadsBack(items[0], rest);
      AllReadBack(items[1..], tail);
      ItemsReadOn(Written(items[0]), AllWritten(items[1..]), tail, |items|, Meaning(items[0]), Meanings(items[1..]));
    }
  }

  lemma {:induction false} ItemsReadOn(
      first: seq<u8>, more: seq<u8>, tail: seq<u8>, n: nat, v: Value, vs: seq<Value>)
    requires n > 0 && DecodeItem(first + (more + tail)) == Some((v, more + tail))
    requires DecodeItems(more + tail, n - 1) == Some((vs, tail))
    ensures DecodeItems(first + more + tail, n) == Some(([v] + vs, tail))
  {
    assert first + more + tail == first + (more + tail);
  }

  lemma {:induction false} PairsReadBack(pairs: seq<Pair>, tail: seq<u8>)
    requires PairsLegal(pairs)
    ensures DecodeEntries(PairsWritten(pairs) + tail, |pairs|) == Some((PairMeanings(pairs), tail))
    decreases pairs, 0
  {
    if pairs == [] {
      assert PairsWritten(pairs) + tail == tail;
    } else {
      var rest := PairsWritten(pairs[1..]) + tail;
      PairReadsBack(pairs[0], rest);
      PairsReadBack(pairs[1..], tail);
      PairsReadOn(PairWritten(pairs[0]), PairsWritten(pairs[1..]), tail, |pairs|, PairMeaning(pairs[0]),
                  PairMeanings(pairs[1..]));
    }
  }

  lemma {:induction false} PairsReadOn(
      first: seq<u8>, more: seq<u8>, tail: seq<u8>, n: nat, e: Entry, es: seq<Entry>)
    requires n > 0 && DecodePair(first + (more + tail)) == Some((e, more + tail))
    requires DecodeEntries(more + tail, n - 1) == Some((es, tail))
    ensures DecodeEntries(first + more + tail, n) == Some(([e] + es, tail))
  {
    assert first + more + tail == first + (more + tail);
  }

  lemma {:induction false} PairReadsBack(p: Pair, tail: seq<u8>)
    requires PairLegal(p)
    ensures DecodePair(PairWritten(p) + tail) == Some((PairMeaning(p), tail))
    decreases p, 0
  {
    ReadsBack(p.key, Written(p.val) + tail);
    ReadsBack(p.val, tail);
    assert PairWritten(p) + tail == Written(p.key) + (Written(p.val) + tail);
  }

  // ---------------------------------------------------------------- nothing else is

  /** The tree was read from the front of b, with this left over. */
  predicate ReadFrom(t: Tree, b: seq<u8>, v: Value, rest: seq<u8>) {
    Legal(t) && Meaning(t) == v && b == Written(t) + rest
  }

  lemma {:induction false} LeafWritten(b: seq<u8>) returns (t: Tree)
    requires ReadHead(b).Some? && DecodeItem(b).Some?
    requires ReadHead(b).value.0.major != 4 && ReadHead(b).value.0.major != 5
    ensures var (v, rest) := DecodeItem(b).value; ReadFrom(t, b, v, rest)
  {
    var (h, tail) := ReadHead(b).value;
    var w := HeadIsWritten(b);
    if h.major == 0 {
      t := Uint(w, h.arg);
    } else if h.major == 1 {
      t := Nint(w, h.arg);
    } else if h.major == 2 {
      t := ByteString(w, tail[..h.arg]);
      StringParts(HeadBytes(2, w, h.arg), tail, h.arg);
    } else if h.major == 3 {
      t := TextString(w, tail[..h.arg]);
      StringParts(HeadBytes(3, w, h.arg), tail, h.arg);
    } else {
      t := SimpleTree(h.ai, h.arg);
      SimpleWritten(w, h.ai, h.arg);
    }
  }

  lemma {:induction false} StringParts(head: seq<u8>, tail: seq<u8>, n: nat)
    requires n <= |tail|
    ensures head + tail == head + tail[..n] + tail[n..]
  {
    assert tail == tail[..n] + tail[n..];
  }

  function SimpleTree(ai: nat, arg: nat): Tree
    requires DecodeSimple(ai, arg).Some?
  {
    if ai == 20 then False
    else if ai == 21 then True
    else if ai == 22 then Tree.Null
    else if ai == 25 then Half(arg)
    else if ai == 26 then Single(arg)
    else Double(arg)
  }

  lemma {:induction false} SimpleWritten(w: nat, ai: nat, arg: nat)
    requires WidthOk(w, arg) && Info(w, arg) == ai && DecodeSimple(ai, arg).Some?
    ensures var t := SimpleTree(ai, arg);
            Legal(t) && Meaning(t) == DecodeSimple(ai, arg).value && Written(t) == HeadBytes(7, w, arg)
  {
    assert BE(0, arg) == [];
  }

  lemma {:induction false} ItemWritten(b: seq<u8>) returns (t: Tree)
    requires DecodeItem(b).Some?
    ensures var (v, rest) := DecodeItem(b).value; ReadFrom(t, b, v, rest)
    decreases |b|, 0
  {
    var (h, tail) := ReadHead(b).value;
    if h.major == 4 {
      var w := HeadIsWritten(b);
      var items := ItemsWritten(tail, h.arg);
      t := List(w, items);
      ListWritten(b, h, tail, w, items);
    } else if h.major == 5 {
      var w := HeadIsWritten(b);
      var pairs := EntriesWritten(tail, h.arg);
      t := Dict(w, pairs);
      DictWritten(b, h, tail, w, pairs);
    } else {
      t := LeafWritten(b);
    }
  }

  lemma {:induction false} ListWritten(b: seq<u8>, h: Header, tail: seq<u8>, w: nat, items: seq<Tree>)
    requires ReadHead(b) == Some((h, tail)) && h.major == 4 && DecodeItems(tail, h.arg).Some?
    requires WidthOk(w, h.arg) && b == HeadBytes(4, w, h.arg) + tail && |items| == h.arg && AllLegal(items)
    requires var (vs, rest) := DecodeItems(tail, h.arg).value; Meanings(items) == vs && tail == AllWritten(items) + rest
    ensures DecodeItem(b).Some?
    ensures var (v, rest) := DecodeItem(b).value; ReadFrom(List(w, items), b, v, rest)
  {
    var rest := DecodeItems(tail, h.arg).value.1;
    Joined(HeadBytes(4, w, h.arg), AllWritten(items), rest);
  }

  lemma {:induction false} DictWritten(b: seq<u8>, h: Header, tail: seq<u8>, w: nat, pairs: seq<Pair>)
    requires ReadHead(b) == Some((h, tail)) && h.major == 5 && DecodeEntries(tail, h.arg).Some?
    requires WidthOk(w, h.arg) && b == HeadBytes(5, w, h.arg) + tail && |pairs| == h.arg && PairsLegal(pairs)
    requires var (es, rest) := DecodeEntries(tail, h.arg).value;
             PairMeanings(pairs) == es && tail == PairsWritten(pairs) + rest
    ensures DecodeItem(b).Some?
    ensures var (v, rest) := DecodeItem(b).value; ReadFrom(Dict(w, pairs), b, v, rest)
  {
    var rest := DecodeEntries(tail, h.arg).value.1;
    Joined(HeadBytes(5, w, h.arg), PairsWritten(pairs), rest);
  }

  lemma {:induction false} Joined(a: seq<u8>, b: seq<u8>, c: seq<u8>)
    ensures a + (b + c) == a + b + c
  {
  }

  lemma {:induction false} ItemsWritten(b: seq<u8>, n: nat) returns (items: seq<Tree>)
    requires DecodeItems(b, n).Some?
    ensures |items| == n && AllLegal(items)
    ensures var (vs, rest) := DecodeItems(b, n).value; Meanings(items) == vs && b == AllWritten(items) + rest
    decreases |b|, 1
  {
    if n == 0 {
      items := [];
    } else {
      var tail := DecodeItem(b).value.1;
      var t := ItemWritten(b);
      var more := ItemsWritten(tail, n - 1);
      items := [t] + more;
      assert items[1..] == more;
      var rest := DecodeItems(tail, n - 1).value.1;
      assert Written(t) + (AllWritten(more) + rest) == Written(t) + AllWritten(more) + rest;
    }
  }

  lemma {:induction false} EntriesWritten(b: seq<u8>, n: nat) returns (pairs: seq<Pair>)
    requires DecodeEntries(b, n).Some?
    ensures |pairs| == n && PairsLegal(pairs)
    ensures var (es, rest) := DecodeEntries(b, n).value; PairMeanings(pairs) == es && b == PairsWritten(pairs) + rest
    decreases |b|, 2
  {
    if n == 0 {
      pairs := [];
    } else {
      var tail := DecodePair(b).value.1;
      var p := EntryWritten(b);
      var more := EntriesWritten(tail, n - 1);
      pairs := [p] + more;
      assert pairs[1..] == more;
      var rest := DecodeEntries(tail, n - 1).value.1;
      assert PairWritten(p) + (PairsWritten(more) + rest) == PairWritten(p) + PairsWritten(more) + rest;
    }
  }

  lemma {:induction false} EntryWritten(b: seq<u8>) returns (p: Pair)
    requires DecodePair(b).Some?
    ensures PairLegal(p)
    ensures var (e, rest) := DecodePair(b).value; PairMeaning(p) == e && b == PairWritten(p) + rest
    decreases |b|, 1
  {
    var tail := DecodeItem(b).value.1;
    var k := ItemWritten(b);
    var v := ItemWritten(tail);
    p := Pair(k, v);
    var rest := DecodeItem(tail).value.1;
    assert Written(k) + (Written(v) + rest) == Written(k) + Written(v) + rest;
  }

  // ---------------------------------------------------------------- the main results

  /** The decoder accepts exactly the legal encodings: it returns v and leaves rest if and only if the bytes are a legal
      encoding of v followed by rest. So it refuses strings and collections longer than the bytes, reserved and
      indefinite lengths, tags, simple values other than the three used, and integers beyond 64 bits, and nothing
      else. */
  lemma {:induction false} DecodesIff(b: seq<u8>, v: Value, rest: seq<u8>)
    ensures DecodeItem(b) == Some((v, rest)) <==> exists t :: ReadFrom(t, b, v, rest)
  {
    if DecodeItem(b) == Some((v, rest)) {
      var t := ItemWritten(b);
    }
    forall t | ReadFrom(t, b, v, rest) ensures DecodeItem(b) == Some((v, rest)) {
      ReadsBack(t, rest);
    }
  }

  /** The encoder writes a legal encoding of the value, in canonical form. */
  lemma {:induction false} EncodeIsLegal(v: Value) returns (t: Tree)
    requires Sized(v)
    ensures Legal(t) && Written(t) == Encode(v) && Meaning(t) == Canon(v)
  {
    DecodeBack(v, []);
    assert Encode(v) + [] == Encode(v);
    t := ItemWritten(Encode(v));
    assert Written(t) + [] == Written(t);
  }

  /** And no legal encoding of a value is shorter than the encoder's. */
  lemma {:induction false} EncodeIsShortest(t: Tree)
    requires Legal(t)
    ensures |Encode(Meaning(t))| <= |Written(t)|
  {
    ReadsBack(t, []);
    assert Written(t) + [] == Written(t);
    Canonical.DecodeEconomical(Written(t));
  }
}
