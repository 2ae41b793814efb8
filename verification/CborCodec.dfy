/** The encoder and decoder as they are written: appending to a buffer, advancing a position. */
module CborCodec {
  import opened Base
  import opened Buffers
  import opened FloatBits
  import opened Cbor

  method PutHead(out: Buffer, major: nat, arg: nat)
    requires major < 8
    modifies out
    ensures out.bytes == old(out.bytes) + Head(major, arg)
  {
    var mt := major * 32;
    if arg < 24 {
      out.PushBack(mt + arg);
    } else if arg <= 0xff {
      out.PushBack(mt + 24);
      out.PushBE(arg, 1);
    } else if arg <= 0xffff {
      out.PushBack(mt + 25);
      out.PushBE(arg, 2);
    } else if arg <= 0xffff_ffff {
      out.PushBack(mt + 26);
      out.PushBE(arg, 4);
    } else {
      out.PushBack(mt + 27);
      out.PushBE(arg, 8);
    }
  }

  /** An initial byte and n bytes of x. */
  method PushTagged(out: Buffer, tag: u8, x: nat, n: nat)
    modifies out
    ensures out.bytes == old(out.bytes) + ([tag] + BE(n, x))
  {
    out.PushBack(tag);
    out.PushBE(x, n);
  }

  method EncodeFloat(out: Buffer, d: u64)
    modifies out
    ensures out.bytes == old(out.bytes) + FloatBytes(d)
  {
    if IsNaN64(d) {
      PushTagged(out, 0xf9, CANONICAL_NAN, 2);
      return;
    }
    var f := Narrow(d);
    if f.None? {
      PushTagged(out, 0xfb, d, 8);
      return;
    }
    var h := SingleToHalf(f.value);
    var back := HalfToSingle(h);
    if back == f.value {
      PushTagged(out, 0xf9, h, 2);
    } else {
      PushTagged(out, 0xfa, f.value, 4);
    }
  }

  lemma {:induction false} EncodeAllSnoc(a: seq<Value>, i: nat)
    requires i < |a|
    ensures EncodeAll(a[..i + 1]) == EncodeAll(a[..i]) + Encode(a[i])
  {
    var b := a[..i + 1];
    if i > 0 {
      EncodeAllSnoc(a[1..], i - 1);
      assert a[1..][..i] == b[1..] && a[1..][..i - 1] == a[..i][1..];
    }
  }

  lemma {:induction false} EncodeEntriesSnoc(m: seq<Entry>, i: nat)
    requires i < |m|
    ensures EncodeEntries(m[..i + 1]) == EncodeEntries(m[..i]) + [EncodeEntry(m[i])]
  {
    var b := m[..i + 1];
    if i > 0 {
      EncodeEntriesSnoc(m[1..], i - 1);
      assert m[1..][..i] == b[1..] && m[1..][..i - 1] == m[..i][1..];
    }
  }

  lemma {:induction false} FlattenSnoc(items: seq<Item>, i: nat)
    requires i < |items|
    ensures Flatten(items[..i + 1]) == Flatten(items[..i]) + items[i].key + items[i].val
  {
    if i > 0 {
      FlattenSnoc(items[1..], i - 1);
      FlattenCons(items, i);
      FlattenCons(items, i + 1);
      AppendBoth(items[0].key + items[0].val, Flatten(items[1..][..i - 1]), items[i].key, items[i].val);
    } else {
      assert items[..1] == [items[0]] && items[..1][1..] == [];
    }
  }

  lemma {:induction false} FlattenCons(items: seq<Item>, n: nat)
    requires 0 < n <= |items|
    ensures Flatten(items[..n]) == items[0].key + items[0].val + Flatten(items[1..][..n - 1])
  {
    assert items[..n][1..] == items[1..][..n - 1];
  }

  lemma {:induction false} AppendBoth(a: seq<u8>, b: seq<u8>, c: seq<u8>, d: seq<u8>)
    ensures a + (b + c + d) == a + b + c + d
  {
  }

  method EncodeInto(out: Buffer, v: Value)
    modifies out
    ensures out.bytes == old(out.bytes) + Encode(v)
    decreases v, 1
  {
    match v {
      case Null => out.PushBack(0xf6);
      case Bool(b) => out.PushBack(if b then 0xf5 else 0xf4);
      case Int(i) => EncodeInt(out, i);
      case Float(d) => EncodeFloat(out, d);
      case Bytes(b) => EncodeString(out, 2, b);
      case Text(t) => EncodeString(out, 3, t);
      case Array(a) => EncodeArray(out, a);
      case Map(m) => EncodeMap(out, m);
    }
  }

  method EncodeInt(out: Buffer, i: i64)
    modifies out
    ensures out.bytes == old(out.bytes) + if i >= 0 then Head(0, i) else Head(1, -(i + 1))
  {
    if i >= 0 {
      PutHead(out, 0, i);
    } else {
      PutHead(out, 1, -(i + 1));
    }
  }

  method EncodeString(out: Buffer, major: nat, s: seq<u8>)
    requires major < 8
    modifies out
    ensures out.bytes == old(out.bytes) + (Head(major, |s|) + s)
  {
    PutHead(out, major, |s|);
    out.Append(s);
  }

  method EncodeArray(out: Buffer, a: seq<Value>)
    modifies out
    ensures out.bytes == old(out.bytes) + (Head(4, |a|) + EncodeAll(a))
    decreases a, 0
  {
    PutHead(out, 4, |a|);
    var i := 0;
    while i < |a|
      invariant 0 <= i <= |a|
      invariant out.bytes == old(out.bytes) + (Head(4, |a|) + EncodeAll(a[..i]))
    {
      EncodeAllSnoc(a, i);
      AppendBehind(old(out.bytes), Head(4, |a|), EncodeAll(a[..i]), Encode(a[i]));
      EncodeInto(out, a[i]);
      i := i + 1;
    }
    assert a[..|a|] == a;
  }

  lemma {:induction false} AppendBehind(before: seq<u8>, head: seq<u8>, done: seq<u8>, next: seq<u8>)
    ensures before + (head + done) + next == before + (head + (done + next))
  {
  }

  /** Encodes keys and values apart, sorts them by key bytes, and writes them out. */
  method EncodeMap(out: Buffer, m: seq<Entry>)
    modifies out
    ensures out.bytes == old(out.bytes) + (Head(5, |m|) + Flatten(Sort(EncodeEntries(m))))
    decreases m, 1
  {
    var items := EncodePairs(m);
    items := Sort(items);
    PutHead(out, 5, |items|);
    WriteItems(out, items);
  }

  method WriteItems(out: Buffer, items: seq<Item>)
    modifies out
    ensures out.bytes == old(out.bytes) + Flatten(items)
  {
    var i := 0;
    while i < |items|
      invariant 0 <= i <= |items|
      invariant out.bytes == old(out.bytes) + Flatten(items[..i])
    {
      FlattenSnoc(items, i);
      out.Append(items[i].key);
      out.Append(items[i].val);
      i := i + 1;
    }
    assert items[..|items|] == items;
  }

  method EncodePairs(m: seq<Entry>) returns (items: seq<Item>)
    ensures items == EncodeEntries(m)
    decreases m, 0
  {
    items := [];
    var i := 0;
    while i < |m|
      invariant 0 <= i <= |m|
      invariant items == EncodeEntries(m[..i])
    {
      EncodeEntriesSnoc(m, i);
      var it := EncodePair(m[i]);
      items := items + [it];
      i := i + 1;
    }
    assert m[..|m|] == m;
  }

  method EncodePair(e: Entry) returns (it: Item)
    ensures it == EncodeEntry(e)
    decreases e, 0
  {
    var k := EncodeCanonical(e.key);
    var v := EncodeCanonical(e.val);
    it := Item(k, v);
  }

  method EncodeCanonical(v: Value) returns (bytes: seq<u8>)
    ensures bytes == Encode(v)
    decreases v, 2
  {
    var out := new Buffer();
    EncodeInto(out, v);
    bytes := out.bytes;
  }

  // ---------------------------------------------------------------- decoding

  /** Reads n bytes big-endian at pos, if they are there. */
  method ReadBE(b: seq<u8>, pos: nat, n: nat) returns (r: Option<nat>, pos': nat)
    requires pos <= |b|
    ensures if |b| - pos < n then r == None && pos' == pos
            else r == Some(FromBE(b[pos..pos + n])) && pos' == pos + n
  {
    pos' := pos;
    if n > |b| - pos { return None, pos; }
    var v: nat := 0;
    var k := 0;
    while k < n
      invariant 0 <= k <= n && pos' == pos + k <= |b|
      invariant v == FromBE(b[pos..pos'])
    {
      assert b[pos..pos' + 1][..k] == b[pos..pos'];
      v := 256 * v + b[pos'];
      pos' := pos' + 1;
      k := k + 1;
    }
    r := Some(v);
  }

  /** A result at a position, as a result on the bytes from there on. */
  ghost predicate Stands<T>(spec: Option<(T, seq<u8>)>, b: seq<u8>, item: Option<T>, pos': nat) {
    match spec
    case None => item == None
    case Some((v, rest)) => item == Some(v) && pos' <= |b| && b[pos'..] == rest
  }

  method DecodeHead(b: seq<u8>, pos: nat) returns (h: Option<Header>, pos': nat)
    requires pos <= |b|
    ensures Stands(ReadHead(b[pos..]), b, h, pos')
    ensures h.Some? ==> pos < pos'
  {
    pos' := pos;
    if pos >= |b| { return None, pos; }
    var ib := b[pos];
    assert b[pos..][0] == ib;
    var major, ai := ib / 32, ib % 32;
    var n := ArgLen(ai);
    if n.None? { return None, pos; }
    var arg: Option<nat>;
    arg, pos' := ReadBE(b, pos + 1, n.value);
    if arg.None? { return None, pos; }
    assert b[pos..][1..1 + n.value] == b[pos + 1..pos'] && b[pos..][1 + n.value..] == b[pos'..];
    h := Some(Header(major, ai, if n.value == 0 then ai else arg.value));
  }

  method DecodeOne(b: seq<u8>, pos: nat) returns (item: Option<Value>, pos': nat)
    requires pos <= |b|
    ensures Stands(DecodeItem(b[pos..]), b, item, pos')
    ensures item.Some? ==> pos < pos'
    decreases |b| - pos, 0
  {
    var h, p := DecodeHead(b, pos);
    if h.None? { return None, p; }
    match h.value.major {
      case 4 =>
        var a;
        a, pos' := DecodeArray(b, p, h.value.arg);
        item := if a.None? then None else Some(Array(a.value));
      case 5 =>
        var m;
        m, pos' := DecodeMap(b, p, h.value.arg);
        item := if m.None? then None else Some(Map(m.value));
      case _ =>
        item, pos' := DecodeScalar(b, p, h.value);
    }
  }

  method DecodeScalar(b: seq<u8>, pos: nat, h: Header) returns (item: Option<Value>, pos': nat)
    requires pos <= |b|
    ensures Stands(DecodeLeaf(h, b[pos..]), b, item, pos')
    ensures pos <= pos'
  {
    pos' := pos;
    match h.major {
      case 0 => item := if h.arg > INT64_MAX then None else Some(Int(h.arg));
      case 1 => item := if h.arg > INT64_MAX then None else Some(Int(-1 - h.arg));
      case 2 | 3 =>
        if h.arg > |b| - pos { return None, pos; }
        pos' := pos + h.arg;
        assert b[pos..][..h.arg] == b[pos..pos'] && b[pos..][h.arg..] == b[pos'..];
        var s := b[pos..pos'];
        item := Some(if h.major == 2 then Bytes(s) else Text(s));
      case 7 => item := DecodeSimple(h.ai, h.arg);
      case _ => item := None;
    }
  }

  /** The elements still to come put behind those already read. */
  ghost function Behind<T>(done: seq<T>, r: Option<(seq<T>, seq<u8>)>): Option<(seq<T>, seq<u8>)> {
    match r
    case None => None
    case Some((more, rest)) => Some((done + more, rest))
  }

  lemma {:induction false} BehindNone<T>(r: Option<(seq<T>, seq<u8>)>)
    ensures Behind([], r) == r
  {
    if r.Some? {
      assert [] + r.value.0 == r.value.0;
    }
  }

  /** The loop body of an array: one more item behind those already read. */
  method DecodeNext(
      b: seq<u8>, pos: nat, ghost done: seq<Value>, ghost n: nat, ghost whole: Option<(seq<Value>, seq<u8>)>)
    returns (item: Option<Value>, pos': nat)
    requires pos <= |b| && n > 0 && Behind(done, DecodeItems(b[pos..], n)) == whole
    ensures match item
            case None => whole == None
            case Some(v) => pos < pos' <= |b| && Behind(done + [v], DecodeItems(b[pos'..], n - 1)) == whole
    decreases |b| - pos, 1
  {
    item, pos' := DecodeOne(b, pos);
    ItemsTurn(done, b[pos..], n, item, if item.Some? then b[pos'..] else [], whole);
  }

  /** Reads n items, however large n: the loop ends at the latest when the bytes do. */
  method DecodeArray(b: seq<u8>, pos: nat, n: nat) returns (a: Option<seq<Value>>, pos': nat)
    requires pos <= |b|
    ensures Stands(DecodeItems(b[pos..], n), b, a, pos')
    ensures a.Some? ==> pos <= pos'
    decreases |b| - pos, 2
  {
    var items: seq<Value> := [];
    pos' := pos;
    var k := 0;
    ghost var whole := DecodeItems(b[pos..], n);
    BehindNone(whole);
    while k < n
      invariant 0 <= k <= n && pos <= pos' <= |b| && |items| == k
      invariant Behind(items, DecodeItems(b[pos'..], n - k)) == whole
    {
      var item, p := DecodeNext(b, pos', items, n - k, whole);
      if item.None? { return None, p; }
      items, pos', k := items + [item.value], p, k + 1;
    }
    a := Some(items);
    assert items + [] == items;
  }

  /** One turn of the loop, which either fails or puts the item behind those already read. */
  lemma {:induction false} ItemsTurn(
      done: seq<Value>, b: seq<u8>, n: nat, item: Option<Value>, rest: seq<u8>, whole: Option<(seq<Value>, seq<u8>)>)
    requires n > 0 && Behind(done, DecodeItems(b, n)) == whole
    requires DecodeItem(b) == match item case None => None case Some(v) => Some((v, rest))
    ensures match item
            case None => whole == None
            case Some(v) => Behind(done + [v], DecodeItems(rest, n - 1)) == whole
  {
    if item.Some? {
      var r := DecodeItems(rest, n - 1);
      if r.Some? {
        assert done + ([item.value] + r.value.0) == done + [item.value] + r.value.0;
      }
    }
  }

  method DecodeKeyValue(b: seq<u8>, pos: nat) returns (e: Option<Entry>, pos': nat)
    requires pos <= |b|
    ensures Stands(DecodePair(b[pos..]), b, e, pos')
    ensures e.Some? ==> pos < pos'
    decreases |b| - pos, 1
  {
    var key, p := DecodeOne(b, pos);
    if key.None? { return None, p; }
    var val;
    val, pos' := DecodeOne(b, p);
    if val.None? { return None, pos'; }
    e := Some(Entry(key.value, val.value));
  }

  /** The loop body of a map. */
  method DecodeNextEntry(
      b: seq<u8>, pos: nat, ghost done: seq<Entry>, ghost n: nat, ghost whole: Option<(seq<Entry>, seq<u8>)>)
    returns (e: Option<Entry>, pos': nat)
    requires pos <= |b| && n > 0 && Behind(done, DecodeEntries(b[pos..], n)) == whole
    ensures match e
            case None => whole == None
            case Some(x) => pos < pos' <= |b| && Behind(done + [x], DecodeEntries(b[pos'..], n - 1)) == whole
    decreases |b| - pos, 2
  {
    e, pos' := DecodeKeyValue(b, pos);
    EntriesTurn(done, b[pos..], n, e, if e.Some? then b[pos'..] else [], whole);
  }

  method DecodeMap(b: seq<u8>, pos: nat, n: nat) returns (m: Option<seq<Entry>>, pos': nat)
    requires pos <= |b|
    ensures Stands(DecodeEntries(b[pos..], n), b, m, pos')
    ensures m.Some? ==> pos <= pos'
    decreases |b| - pos, 3
  {
    var entries: seq<Entry> := [];
    pos' := pos;
    var k := 0;
    ghost var whole := DecodeEntries(b[pos..], n);
    BehindNone(whole);
    while k < n
      invariant 0 <= k <= n && pos <= pos' <= |b| && |entries| == k
      invariant Behind(entries, DecodeEntries(b[pos'..], n - k)) == whole
    {
      var e, p := DecodeNextEntry(b, pos', entries, n - k, whole);
      if e.None? { return None, p; }
      entries, pos', k := entries + [e.value], p, k + 1;
    }
    m := Some(entries);
    assert entries + [] == entries;
  }

  lemma {:induction false} EntriesTurn(
      done: seq<Entry>, b: seq<u8>, n: nat, e: Option<Entry>, rest: seq<u8>, whole: Option<(seq<Entry>, seq<u8>)>)
    requires n > 0 && Behind(done, DecodeEntries(b, n)) == whole
    requires DecodePair(b) == match e case None => None case Some(x) => Some((x, rest))
    ensures match e
            case None => whole == None
            case Some(x) => Behind(done + [x], DecodeEntries(rest, n - 1)) == whole
  {
    if e.Some? {
      var r := DecodeEntries(rest, n - 1);
      if r.Some? {
        assert done + ([e.value] + r.value.0) == done + [e.value] + r.value.0;
      }
    }
  }

  /** One item from the front; what follows it is ignored. */
  function Decoded(b: seq<u8>): Option<Value> {
    match DecodeItem(b)
    case None => None
    case Some((v, _)) => Some(v)
  }

  method Decode(b: seq<u8>) returns (item: Option<Value>)
    ensures item == Decoded(b)
  {
    var pos;
    assert b[0..] == b;
    item, pos := DecodeOne(b, 0);
  }
}
