/** Decoding undoes encoding, up to what encoding forgets: the order of map entries and which NaN it was. */
module CborRoundTrip {
  import opened Base
  import opened FloatBits
  import opened Cbor

  // ---------------------------------------------------------------- what encoding keeps

  /** No length exceeds what a 64-bit size can say. */
  predicate Sized(v: Value)
    decreases v, 1
  {
    match v
    case Bytes(b) => |b| < 0x1_0000_0000_0000_0000
    case Text(t) => |t| < 0x1_0000_0000_0000_0000
    case Array(a) => |a| < 0x1_0000_0000_0000_0000 && AllSized(a)
    case Map(m) => |m| < 0x1_0000_0000_0000_0000 && EntriesSized(m)
    case _ => true
  }

  predicate AllSized(a: seq<Value>)
    decreases a, 0
  {
    a == [] || (Sized(a[0]) && AllSized(a[1..]))
  }

  predicate EntriesSized(m: seq<Entry>)
    decreases m, 0
  {
    m == [] || (EntrySized(m[0]) && EntriesSized(m[1..]))
  }

  predicate EntrySized(e: Entry)
    decreases e, 0
  {
    Sized(e.key) && Sized(e.val)
  }

  /** Places an entry before the first whose encoded key is not smaller. */
  function InsertEntry(e: Entry, es: seq<Entry>): (r: seq<Entry>)
    ensures |r| == |es| + 1
  {
    if es != [] && Less(Encode(es[0].key), Encode(e.key)) then [es[0]] + InsertEntry(e, es[1..]) else [e] + es
  }

  function SortEntries(es: seq<Entry>): (r: seq<Entry>)
    ensures |r| == |es|
  {
    if es == [] then [] else InsertEntry(es[0], SortEntries(es[1..]))
  }

  /** The double every NaN decodes to. */
  function CanonicalDouble(d: u64): u64 {
    if IsNaN64(d) then F16ToF64(CANONICAL_NAN) else d
  }

  /** The value that comes back: its maps sorted at every depth, its NaNs the canonical quiet one. */
  function Canon(v: Value): Value
    decreases v, 1
  {
    match v
    case Float(d) => Float(CanonicalDouble(d))
    case Array(a) => Array(CanonAll(a))
    case Map(m) => Map(SortEntries(CanonEntries(m)))
    case _ => v
  }

  function CanonAll(a: seq<Value>): (r: seq<Value>)
    ensures |r| == |a|
    decreases a, 0
  {
    if a == [] then [] else [Canon(a[0])] + CanonAll(a[1..])
  }

  function CanonEntries(m: seq<Entry>): (r: seq<Entry>)
    ensures |r| == |m|
    decreases m, 0
  {
    if m == [] then [] else [CanonEntry(m[0])] + CanonEntries(m[1..])
  }

  function CanonEntry(e: Entry): Entry
    decreases e, 0
  {
    Entry(Canon(e.key), Canon(e.val))
  }

  // ---------------------------------------------------------------- sorting entries is sorting items

  lemma {:induction false} InsertCommutes(e: Entry, es: seq<Entry>)
    ensures EncodeEntries(InsertEntry(e, es)) == Insert(EncodeEntry(e), EncodeEntries(es))
  {
    if es != [] && Less(Encode(es[0].key), Encode(e.key)) {
      InsertCommutes(e, es[1..]);
      assert EncodeEntries(es)[1..] == EncodeEntries(es[1..]);
      assert InsertEntry(e, es)[1..] == InsertEntry(e, es[1..]);
    } else {
      assert InsertEntry(e, es)[1..] == es;
    }
  }

  lemma {:induction false} SortCommutes(es: seq<Entry>)
    ensures EncodeEntries(SortEntries(es)) == Sort(EncodeEntries(es))
  {
    if es != [] {
      SortCommutes(es[1..]);
      InsertCommutes(es[0], SortEntries(es[1..]));
      assert EncodeEntries(es)[1..] == EncodeEntries(es[1..]);
    }
  }

  /** No key is smaller than the one before it. */
  predicate Ordered(items: seq<Item>) {
    |items| < 2 || (!Less(items[1].key, items[0].key) && Ordered(items[1..]))
  }

  lemma {:induction false} NotLessTrans(a: seq<u8>, b: seq<u8>)
    requires Less(a, b)
    ensures !Less(b, a)
  {
    if Less(b, a) {
      LessTrans(a, b, a);
      LessIrreflexive(a);
    }
  }

  lemma {:induction false} InsertOrdered(it: Item, items: seq<Item>)
    requires Ordered(items)
    ensures Ordered(Insert(it, items))
  {
    if items != [] && Less(items[0].key, it.key) {
      InsertOrdered(it, items[1..]);
      NotLessTrans(items[0].key, it.key);
      var r := Insert(it, items);
      assert r[1..] == Insert(it, items[1..]);
    } else if items != [] {
      assert Insert(it, items)[1..] == items;
    }
  }

  lemma {:induction false} SortOrdered(items: seq<Item>)
    ensures Ordered(Sort(items))
  {
    if items != [] {
      SortOrdered(items[1..]);
      InsertOrdered(items[0], Sort(items[1..]));
    }
  }

  /** Sorting what is in order changes nothing. */
  lemma {:induction false} SortIdempotent(items: seq<Item>)
    requires Ordered(items)
    ensures Sort(items) == items
  {
    if items != [] {
      SortIdempotent(items[1..]);
      assert items == [items[0]] + items[1..];
    }
  }

  // ---------------------------------------------------------------- Canon keeps the encoding

  lemma {:induction false} NaNStays(h: u16)
    requires IsNaN16(h)
    ensures IsNaN64(F16ToF64(h))
  {
    HalfToSingleExact(h);
    NaNWidens(F16ToF32(h));
  }

  lemma {:induction false} CanonicalDoubleBytes(d: u64)
    ensures FloatBytes(CanonicalDouble(d)) == FloatBytes(d)
    ensures IsNaN64(d) ==> IsNaN64(CanonicalDouble(d))
  {
    NaNStays(CANONICAL_NAN);
  }

  lemma {:induction false} EncodeCanon(v: Value)
    ensures Encode(Canon(v)) == Encode(v)
    decreases v, 1
  {
    match v
    case Float(d) => CanonicalDoubleBytes(d);
    case Array(a) => EncodeCanonAll(a);
    case Map(m) =>
      EncodeCanonEntries(m);
      SortCommutes(CanonEntries(m));
      SortOrdered(EncodeEntries(m));
      SortIdempotent(Sort(EncodeEntries(m)));
    case _ =>
  }

  lemma {:induction false} EncodeCanonAll(a: seq<Value>)
    ensures EncodeAll(CanonAll(a)) == EncodeAll(a)
    decreases a, 0
  {
    if a != [] {
      EncodeCanon(a[0]);
      EncodeCanonAll(a[1..]);
      assert CanonAll(a)[1..] == CanonAll(a[1..]);
    }
  }

  lemma {:induction false} EncodeCanonEntries(m: seq<Entry>)
    ensures EncodeEntries(CanonEntries(m)) == EncodeEntries(m)
    decreases m, 0
  {
    if m != [] {
      EncodeCanonEntry(m[0]);
      EncodeCanonEntries(m[1..]);
      assert CanonEntries(m)[1..] == CanonEntries(m[1..]);
    }
  }

  lemma {:induction false} EncodeCanonEntry(e: Entry)
    ensures EncodeEntry(CanonEntry(e)) == EncodeEntry(e)
    decreases e, 0
  {
    EncodeCanon(e.key);
    EncodeCanon(e.val);
  }

  // ---------------------------------------------------------------- decoding undoes encoding

  /** Decoding the encoding of v, whatever follows it, gives v and stops exactly there. */
  ghost predicate Faithful(v: Value) {
    forall tail: seq<u8> :: DecodeItem(Encode(v) + tail) == Some((v, tail))
  }

  ghost predicate FaithfulEntry(e: Entry) {
    Faithful(e.key) && Faithful(e.val)
  }

  lemma {:induction false} DecodeItemsStep(b: seq<u8>, n: nat, v: Value, r: seq<u8>, vs: seq<Value>, t: seq<u8>)
    requires n > 0
    requires DecodeItem(b) == Some((v, r)) && DecodeItems(r, n - 1) == Some((vs, t))
    ensures DecodeItems(b, n) == Some(([v] + vs, t))
  {
  }

  lemma {:induction false} DecodeAllBack(a: seq<Value>, tail: seq<u8>)
    requires forall i :: 0 <= i < |a| ==> Faithful(a[i])
    ensures DecodeItems(EncodeAll(a) + tail, |a|) == Some((a, tail))
  {
    if a == [] {
      assert EncodeAll(a) + tail == tail;
    } else {
      var r := EncodeAll(a[1..]) + tail;
      assert EncodeAll(a) + tail == Encode(a[0]) + r;
      assert Faithful(a[0]);
      DecodeAllBack(a[1..], tail);
      DecodeItemsStep(EncodeAll(a) + tail, |a|, a[0], r, a[1..], tail);
      assert a == [a[0]] + a[1..];
    }
  }

  lemma {:induction false} DecodePairBack(e: Entry, tail: seq<u8>)
    requires FaithfulEntry(e)
    ensures DecodePair(Encode(e.key) + (Encode(e.val) + tail)) == Some((e, tail))
  {
    assert Faithful(e.key) && Faithful(e.val);
  }

  lemma {:induction false} DecodeEntriesStep(b: seq<u8>, n: nat, e: Entry, r: seq<u8>, es: seq<Entry>, t: seq<u8>)
    requires n > 0
    requires DecodePair(b) == Some((e, r)) && DecodeEntries(r, n - 1) == Some((es, t))
    ensures DecodeEntries(b, n) == Some(([e] + es, t))
  {
  }

  lemma {:induction false} FlattenFirst(m: seq<Entry>, tail: seq<u8>)
    requires m != []
    ensures Flatten(EncodeEntries(m)) + tail ==
            Encode(m[0].key) + (Encode(m[0].val) + (Flatten(EncodeEntries(m[1..])) + tail))
  {
    assert EncodeEntries(m)[1..] == EncodeEntries(m[1..]);
  }

  lemma {:induction false} DecodeEntriesBack(m: seq<Entry>, tail: seq<u8>)
    requires forall i :: 0 <= i < |m| ==> FaithfulEntry(m[i])
    ensures DecodeEntries(Flatten(EncodeEntries(m)) + tail, |m|) == Some((m, tail))
  {
    if m == [] {
      assert Flatten(EncodeEntries(m)) + tail == tail;
    } else {
      DecodePairBack(m[0], Flatten(EncodeEntries(m[1..])) + tail);
      DecodeEntriesBack(m[1..], tail);
      DecodeEntriesCons(m, Flatten(EncodeEntries(m[1..])) + tail, tail);
    }
  }

  lemma {:induction false} DecodeEntriesCons(m: seq<Entry>, rest: seq<u8>, tail: seq<u8>)
    requires m != [] && rest == Flatten(EncodeEntries(m[1..])) + tail
    requires DecodePair(Encode(m[0].key) + (Encode(m[0].val) + rest)) == Some((m[0], rest))
    requires DecodeEntries(rest, |m| - 1) == Some((m[1..], tail))
    ensures DecodeEntries(Flatten(EncodeEntries(m)) + tail, |m|) == Some((m, tail))
  {
    FlattenFirst(m, tail);
    DecodeEntriesStep(Flatten(EncodeEntries(m)) + tail, |m|, m[0], rest, m[1..], tail);
    assert m == [m[0]] + m[1..];
  }

  lemma {:induction false} ArrayFaithful(a: seq<Value>)
    requires |a| < 0x1_0000_0000_0000_0000
    requires forall i :: 0 <= i < |a| ==> Faithful(a[i])
    ensures Faithful(Array(a))
  {
    forall tail: seq<u8> ensures DecodeItem(Encode(Array(a)) + tail) == Some((Array(a), tail)) {
      var b := Encode(Array(a)) + tail;
      assert b == Head(4, |a|) + (EncodeAll(a) + tail);
      ReadHeadOf(4, |a|, EncodeAll(a) + tail);
      DecodeAllBack(a, tail);
    }
  }

  lemma {:induction false} MapFaithful(m: seq<Entry>)
    requires |m| < 0x1_0000_0000_0000_0000
    requires Ordered(EncodeEntries(m))
    requires forall i :: 0 <= i < |m| ==> FaithfulEntry(m[i])
    ensures Faithful(Map(m))
  {
    SortIdempotent(EncodeEntries(m));
    var body := Flatten(EncodeEntries(m));
    forall tail: seq<u8> ensures DecodeItem(Encode(Map(m)) + tail) == Some((Map(m), tail)) {
      var b := Encode(Map(m)) + tail;
      assert b == Head(5, |m|) + (body + tail);
      ReadHeadOf(5, |m|, body + tail);
      DecodeEntriesBack(m, tail);
    }
  }

  lemma {:induction false} IntFaithful(i: i64)
    ensures Faithful(Int(i))
  {
    forall tail: seq<u8> ensures DecodeItem(Encode(Int(i)) + tail) == Some((Int(i), tail)) {
      if i >= 0 {
        ReadHeadOf(0, i, tail);
      } else {
        ReadHeadOf(1, -(i + 1), tail);
      }
    }
  }

  lemma {:induction false} StringFaithful(v: Value)
    requires v.Bytes? || v.Text?
    requires Sized(v)
    ensures Faithful(v)
  {
    var s, major := if v.Bytes? then v.bytes else v.text, if v.Bytes? then 2 else 3;
    forall tail: seq<u8> ensures DecodeItem(Encode(v) + tail) == Some((v, tail)) {
      assert Encode(v) + tail == Head(major, |s|) + (s + tail);
      ReadHeadOf(major, |s|, s + tail);
      assert (s + tail)[..|s|] == s && (s + tail)[|s|..] == tail;
    }
  }

  lemma {:induction false} SimpleFaithful(v: Value)
    requires v.Null? || v.Bool?
    ensures Faithful(v)
  {
    forall tail: seq<u8> ensures DecodeItem(Encode(v) + tail) == Some((v, tail)) {
      var b := Encode(v) + tail;
      assert b[1..] == tail;
      assert ReadHead(b) == Some((Header(7, b[0] % 32, b[0] % 32), tail));
    }
  }

  /** Each of the three forms decodes to the double of what it holds. */
  lemma {:induction false} DecodeFloatForms(h: u16, x: u32, d: u64, tail: seq<u8>)
    ensures DecodeItem([0xf9] + BE(2, h) + tail) == Some((Float(F16ToF64(h)), tail))
    ensures DecodeItem([0xfa] + BE(4, x) + tail) == Some((Float(F32ToF64(x)), tail))
    ensures DecodeItem([0xfb] + BE(8, d) + tail) == Some((Float(d), tail))
  {
    DecodeForm(25, 2, h, tail);
    DecodeForm(26, 4, x, tail);
    DecodeForm(27, 8, d, tail);
  }

  lemma {:induction false} DecodeForm(ai: nat, n: nat, arg: nat, tail: seq<u8>)
    requires 25 <= ai <= 27 && ArgLen(ai) == Some(n)
    requires match n case 2 => arg < 0x1_0000 case 4 => arg < 0x1_0000_0000 case _ => arg < 0x1_0000_0000_0000_0000
    ensures var b := [7 * 32 + ai] + BE(n, arg) + tail;
            DecodeItem(b) == match DecodeSimple(ai, arg) case None => None case Some(v) => Some((v, tail))
  {
    ReadLong(7, ai, n, arg, tail);
    SimpleItem([7 * 32 + ai] + BE(n, arg) + tail, ai, arg, tail);
  }

  lemma {:induction false} SimpleItem(b: seq<u8>, ai: nat, arg: nat, tail: seq<u8>)
    requires ReadHead(b) == Some((Header(7, ai, arg), tail))
    ensures DecodeItem(b) == match DecodeSimple(ai, arg) case None => None case Some(v) => Some((v, tail))
  {
  }

  lemma {:induction false} NumberBytes(d: u64, tail: seq<u8>)
    requires !IsNaN64(d)
    ensures DecodeItem(FloatBytes(d) + tail) == Some((Float(d), tail))
  {
    match Narrow(d) {
      case None => DecodeFloatForms(0, 0, d, tail);
      case Some(f) =>
        NarrowIff(d, f);
        DecodeFloatForms(F32ToF16(f), f, d, tail);
    }
  }

  lemma {:induction false} NaNBytes(d: u64, h: u16, tail: seq<u8>)
    requires IsNaN64(d) && h == CANONICAL_NAN
    ensures DecodeItem(FloatBytes(d) + tail) == Some((Float(F16ToF64(h)), tail))
  {
    DecodeFloatForms(h, 0, 0, tail);
  }

  lemma {:induction false} FloatFaithful(d: u64)
    requires d == CanonicalDouble(d)
    ensures Faithful(Float(d))
  {
    forall tail: seq<u8> ensures DecodeItem(FloatBytes(d) + tail) == Some((Float(d), tail)) {
      if IsNaN64(d) {
        NaNBytes(d, CANONICAL_NAN, tail);
      } else {
        NumberBytes(d, tail);
      }
    }
  }

  // ---------------------------------------------------------------- the canonical value comes back

  lemma {:induction false} InsertEntryAll(e: Entry, es: seq<Entry>)
    requires FaithfulEntry(e) && forall i :: 0 <= i < |es| ==> FaithfulEntry(es[i])
    ensures forall i :: 0 <= i < |InsertEntry(e, es)| ==> FaithfulEntry(InsertEntry(e, es)[i])
  {
    if es != [] && Less(Encode(es[0].key), Encode(e.key)) {
      InsertEntryAll(e, es[1..]);
    }
  }

  lemma {:induction false} SortEntriesAll(es: seq<Entry>)
    requires forall i :: 0 <= i < |es| ==> FaithfulEntry(es[i])
    ensures forall i :: 0 <= i < |SortEntries(es)| ==> FaithfulEntry(SortEntries(es)[i])
  {
    if es != [] {
      SortEntriesAll(es[1..]);
      InsertEntryAll(es[0], SortEntries(es[1..]));
    }
  }

  lemma {:induction false} CanonFaithful(v: Value)
    requires Sized(v)
    ensures Faithful(Canon(v))
    decreases v, 1
  {
    match v
    case Null => SimpleFaithful(v);
    case Bool(_) => SimpleFaithful(v);
    case Int(i) => IntFaithful(i);
    case Bytes(_) => StringFaithful(v);
    case Text(_) => StringFaithful(v);
    case Float(d) =>
      CanonicalDoubleBytes(d);
      FloatFaithful(CanonicalDouble(d));
    case Array(a) =>
      CanonAllFaithful(a);
      ArrayFaithful(CanonAll(a));
    case Map(m) =>
      CanonEntriesFaithful(m);
      SortEntriesAll(CanonEntries(m));
      SortCommutes(CanonEntries(m));
      SortOrdered(EncodeEntries(CanonEntries(m)));
      MapFaithful(SortEntries(CanonEntries(m)));
  }

  lemma {:induction false} CanonAllFaithful(a: seq<Value>)
    requires AllSized(a)
    ensures forall i :: 0 <= i < |a| ==> Faithful(CanonAll(a)[i])
    decreases a, 0
  {
    if a != [] {
      CanonFaithful(a[0]);
      CanonAllFaithful(a[1..]);
    }
  }

  lemma {:induction false} CanonEntriesFaithful(m: seq<Entry>)
    requires EntriesSized(m)
    ensures forall i :: 0 <= i < |m| ==> FaithfulEntry(CanonEntries(m)[i])
    decreases m, 0
  {
    if m != [] {
      CanonEntryFaithful(m[0]);
      CanonEntriesFaithful(m[1..]);
    }
  }

  lemma {:induction false} CanonEntryFaithful(e: Entry)
    requires EntrySized(e)
    ensures FaithfulEntry(CanonEntry(e))
    decreases e, 0
  {
    CanonFaithful(e.key);
    CanonFaithful(e.val);
  }

  /** Round trip: decoding started at an encoding, wherever it stands and whatever follows, returns the canonical
      value and stops exactly at its end. */
  lemma {:induction false} RoundTrip(v: Value, prefix: seq<u8>, suffix: seq<u8>)
    requires Sized(v)
    ensures DecodeItem((prefix + Encode(v) + suffix)[|prefix|..]) == Some((Canon(v), suffix))
  {
    DropPrefix(prefix, Encode(v), suffix);
    DecodeBack(v, suffix);
  }

  lemma {:induction false} DropPrefix(prefix: seq<u8>, s: seq<u8>, suffix: seq<u8>)
    ensures (prefix + s + suffix)[|prefix|..] == s + suffix
  {
  }

  lemma {:induction false} DecodeBack(v: Value, suffix: seq<u8>)
    requires Sized(v)
    ensures DecodeItem(Encode(v) + suffix) == Some((Canon(v), suffix))
  {
    EncodeCanon(v);
    CanonFaithful(v);
    assert Faithful(Canon(v));
  }
}
