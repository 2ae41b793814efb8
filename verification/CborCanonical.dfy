/** The encoding is canonical: as short as any, keys in order, and a function of the value up to map order. */
module CborCanonical {
  import opened Base
  import opened FloatBits
  import opened Cbor
  import opened CborRoundTrip

  // ---------------------------------------------------------------- decoder bounds and minimality

  function Nodes(v: Value): (n: nat)
    ensures n >= 1
    decreases v, 1
  {
    match v
    case Array(a) => 1 + NodesAll(a)
    case Map(m) => 1 + NodesEntries(m)
    case _ => 1
  }

  function NodesAll(a: seq<Value>): nat
    decreases a, 0
  {
    if a == [] then 0 else Nodes(a[0]) + NodesAll(a[1..])
  }

  function NodesEntries(m: seq<Entry>): nat
    decreases m, 0
  {
    if m == [] then 0 else NodesEntry(m[0]) + NodesEntries(m[1..])
  }

  function NodesEntry(e: Entry): nat
    decreases e, 0
  {
    Nodes(e.key) + Nodes(e.val)
  }

  /** The bytes consumed are at least the nodes of the value and at least its canonical encoding. */
  predicate Economical(v: Value, b: seq<u8>, rest: seq<u8>) {
    Nodes(v) + |rest| <= |b| && |Encode(v)| + |rest| <= |b|
  }

  lemma {:induction false} InsertFlat(it: Item, items: seq<Item>)
    ensures |Flatten(Insert(it, items))| == |it.key| + |it.val| + |Flatten(items)|
  {
    if items != [] && Less(items[0].key, it.key) {
      InsertFlat(it, items[1..]);
      assert Insert(it, items)[1..] == Insert(it, items[1..]);
    } else {
      assert Insert(it, items)[1..] == items;
    }
  }

  /** Sorting rearranges the bytes of a map's entries without changing how many there are. */
  lemma {:induction false} SortFlat(items: seq<Item>)
    ensures |Flatten(Sort(items))| == |Flatten(items)|
  {
    if items != [] {
      SortFlat(items[1..]);
      InsertFlat(items[0], Sort(items[1..]));
    }
  }

  /** The head written is no longer than the head read. */
  lemma {:induction false} HeadShortest(b: seq<u8>, major: nat)
    requires ReadHead(b).Some? && major < 8
    ensures var (h, rest) := ReadHead(b).value; |Head(major, h.arg)| + |rest| <= |b|
  {
    var (h, rest) := ReadHead(b).value;
    var n := ArgLen(h.ai).value;
    if n > 0 {
      FromBEBound(b[1..1 + n]);
      PowValues();
    }
  }

  lemma {:induction false} HalfBytes(h: u16)
    ensures |FloatBytes(F16ToF64(h))| == 3
  {
    if !IsNaN64(F16ToF64(h)) {
      ShortestForm(F16ToF64(h));
    }
  }

  lemma {:induction false} SingleBytes(x: u32)
    ensures |FloatBytes(F32ToF64(x))| <= 5
  {
    if !IsNaN64(F32ToF64(x)) {
      NarrowIff(F32ToF64(x), x);
    }
  }

  lemma {:induction false} LeafEconomical(b: seq<u8>)
    requires ReadHead(b).Some?
    requires var (h, rest) := ReadHead(b).value; h.major != 4 && h.major != 5 && DecodeLeaf(h, rest).Some?
    ensures var (v, rest) := DecodeItem(b).value; Economical(v, b, rest)
  {
    var (h, rest) := ReadHead(b).value;
    if h.major < 4 {
      HeadShortest(b, h.major);
    } else if h.ai == 25 {
      HalfBytes(h.arg);
    } else if h.ai == 26 {
      SingleBytes(h.arg);
    }
  }

  /** Whatever bytes are decoded, however they were encoded, the tree has no more nodes than bytes were consumed,
      and its canonical encoding is no longer than they were. */
  lemma {:induction false} DecodeEconomical(b: seq<u8>)
    requires DecodeItem(b).Some?
    ensures var (v, rest) := DecodeItem(b).value; Economical(v, b, rest)
    decreases |b|, 0
  {
    var (h, rest) := ReadHead(b).value;
    if h.major == 4 {
      HeadShortest(b, 4);
      ItemsEconomical(rest, h.arg);
    } else if h.major == 5 {
      HeadShortest(b, 5);
      EntriesEconomical(rest, h.arg);
      var (m, _) := DecodeEntries(rest, h.arg).value;
      SortFlat(EncodeEntries(m));
    } else {
      LeafEconomical(b);
    }
  }

  lemma {:induction false} ItemsEconomical(b: seq<u8>, n: nat)
    requires DecodeItems(b, n).Some?
    ensures var (a, rest) := DecodeItems(b, n).value;
            NodesAll(a) + |rest| <= |b| && |EncodeAll(a)| + |rest| <= |b|
    decreases |b|, 1
  {
    if n > 0 {
      DecodeEconomical(b);
      var (v, rest) := DecodeItem(b).value;
      ItemsEconomical(rest, n - 1);
      var (vs, _) := DecodeItems(rest, n - 1).value;
      assert ([v] + vs)[1..] == vs;
    }
  }

  lemma {:induction false} PairEconomical(b: seq<u8>)
    requires DecodePair(b).Some?
    ensures var (e, rest) := DecodePair(b).value;
            NodesEntry(e) + |rest| <= |b| && |Encode(e.key)| + |Encode(e.val)| + |rest| <= |b|
    decreases |b|, 1
  {
    DecodeEconomical(b);
    DecodeEconomical(DecodeItem(b).value.1);
  }

  lemma {:induction false} EntriesEconomical(b: seq<u8>, n: nat)
    requires DecodeEntries(b, n).Some?
    ensures var (m, rest) := DecodeEntries(b, n).value;
            NodesEntries(m) + |rest| <= |b| && |Flatten(EncodeEntries(m))| + |rest| <= |b|
    decreases |b|, 2
  {
    if n > 0 {
      PairEconomical(b);
      var (e, rest) := DecodePair(b).value;
      EntriesEconomical(rest, n - 1);
      var (es, _) := DecodeEntries(rest, n - 1).value;
      ConsEntries(e, es);
    }
  }

  lemma {:induction false} ConsEntries(e: Entry, es: seq<Entry>)
    ensures NodesEntries([e] + es) == NodesEntry(e) + NodesEntries(es)
    ensures |Flatten(EncodeEntries([e] + es))| == |Encode(e.key)| + |Encode(e.val)| + |Flatten(EncodeEntries(es))|
  {
    var m := [e] + es;
    assert m[1..] == es;
    assert EncodeEntries(m)[1..] == EncodeEntries(es);
  }

  // ---------------------------------------------------------------- heads are ordered

  lemma {:induction false} LessAppend(a: seq<u8>, b: seq<u8>, s: seq<u8>, t: seq<u8>)
    requires |a| == |b| && Less(a, b)
    ensures Less(a + s, b + t)
  {
    if a[0] == b[0] {
      LessAppend(a[1..], b[1..], s, t);
      assert (a + s)[1..] == a[1..] + s && (b + t)[1..] == b[1..] + t;
    }
  }

  lemma {:induction false} LessAfter(a: seq<u8>, s: seq<u8>, t: seq<u8>)
    requires Less(s, t)
    ensures Less(a + s, a + t)
  {
    if a == [] {
      assert a + s == s && a + t == t;
    } else {
      LessAfter(a[1..], s, t);
      assert (a + s)[1..] == a[1..] + s && (a + t)[1..] == a[1..] + t;
    }
  }

  lemma {:induction false} BELess(n: nat, x: nat, y: nat)
    requires x < y < Pow256(n)
    ensures Less(BE(n, x), BE(n, y))
  {
    if n > 0 {
      var a, b := BE(n - 1, x / 256), BE(n - 1, y / 256);
      if x / 256 < y / 256 {
        BELess(n - 1, x / 256, y / 256);
        LessAppend(a, b, [x % 256], [y % 256]);
      } else {
        LessAfter(a, [x % 256], [y % 256]);
      }
    }
  }

  /** Across all five widths, a smaller argument has a bytewise smaller head. */
  lemma {:induction false} HeadsOrdered(major: nat, x: nat, y: nat)
    requires major < 8 && x < y < 0x1_0000_0000_0000_0000
    ensures Less(Head(major, x), Head(major, y))
  {
    PowValues();
    var n := ArgWidth(y);
    if n > 0 && n == ArgWidth(x) {
      BELess(n, x, y);
      LessAfter([Head(major, x)[0]], BE(n, x), BE(n, y));
    }
  }

  /** The number of argument bytes in the shortest head. */
  function ArgWidth(arg: nat): nat {
    if arg < 24 then 0 else if arg <= 0xff then 1 else if arg <= 0xffff then 2 else if arg <= 0xffff_ffff then 4 else 8
  }

  // ---------------------------------------------------------------- keys are strictly ascending

  predicate DistinctKeys(items: seq<Item>) {
    forall i, j :: 0 <= i < j < |items| ==> items[i].key != items[j].key
  }

  /** Each key is smaller than the next. */
  predicate StrictlyOrdered(items: seq<Item>) {
    |items| < 2 || (Less(items[0].key, items[1].key) && StrictlyOrdered(items[1..]))
  }

  lemma {:induction false} InsertPermutes(it: Item, items: seq<Item>)
    ensures multiset(Insert(it, items)) == multiset{it} + multiset(items)
  {
    if items != [] && Less(items[0].key, it.key) {
      InsertPermutes(it, items[1..]);
      assert items == [items[0]] + items[1..];
    }
  }

  lemma {:induction false} SortPermutes(items: seq<Item>)
    ensures multiset(Sort(items)) == multiset(items)
  {
    if items != [] {
      SortPermutes(items[1..]);
      InsertPermutes(items[0], Sort(items[1..]));
      assert items == [items[0]] + items[1..];
    }
  }

  lemma {:induction false} InsertStrict(it: Item, items: seq<Item>)
    requires StrictlyOrdered(items) && forall x :: x in items ==> x.key != it.key
    ensures StrictlyOrdered(Insert(it, items))
  {
    if items != [] {
      LessTotal(items[0].key, it.key);
      assert items[0] in items;
      if Less(items[0].key, it.key) {
        InsertStrict(it, items[1..]);
        assert Insert(it, items)[1..] == Insert(it, items[1..]);
      } else {
        assert Insert(it, items)[1..] == items;
      }
    }
  }

  /** A map whose keys encode differently is written with its keys strictly ascending bytewise. */
  lemma {:induction false} KeysAscend(items: seq<Item>)
    requires DistinctKeys(items)
    ensures StrictlyOrdered(Sort(items))
  {
    if items != [] {
      KeysAscend(items[1..]);
      SortPermutes(items[1..]);
      forall x | x in Sort(items[1..]) ensures x.key != items[0].key {
        assert x in multiset(Sort(items[1..]));
        assert x in items[1..];
      }
      InsertStrict(items[0], Sort(items[1..]));
    }
  }

  lemma {:induction false} FirstIsLeast(items: seq<Item>, x: Item)
    requires StrictlyOrdered(items) && x in items && x != items[0]
    ensures Less(items[0].key, x.key)
  {
    if x != items[1] {
      FirstIsLeast(items[1..], x);
      LessTrans(items[0].key, items[1].key, x.key);
    }
  }

  /** Items in strict order are determined by which items they are. */
  lemma {:induction false} StrictUnique(a: seq<Item>, b: seq<Item>)
    requires StrictlyOrdered(a) && StrictlyOrdered(b) && multiset(a) == multiset(b)
    ensures a == b
  {
    if a != [] {
      assert a[0] in multiset(b) && b != [];
      assert b[0] in multiset(a);
      SameFirst(a, b);
      RestSame(a, b);
      StrictUnique(a[1..], b[1..]);
      assert a == [a[0]] + a[1..] && b == [b[0]] + b[1..];
    } else {
      assert |multiset(b)| == 0;
    }
  }

  lemma {:induction false} RestSame(a: seq<Item>, b: seq<Item>)
    requires a != [] && b != [] && a[0] == b[0] && multiset(a) == multiset(b)
    ensures multiset(a[1..]) == multiset(b[1..])
  {
    assert a == [a[0]] + a[1..] && b == [b[0]] + b[1..];
    assert multiset(a[1..]) == multiset(a) - multiset{a[0]} && multiset(b[1..]) == multiset(b) - multiset{b[0]};
  }

  /** Whatever algorithm sorts by key: with distinct keys, any ordered permutation of the items is the one written. */
  lemma {:induction false} AnySort(items: seq<Item>, sorted: seq<Item>)
    requires DistinctKeys(items) && multiset(sorted) == multiset(items) && Ordered(sorted)
    ensures sorted == Sort(items)
  {
    KeysAscend(items);
    SortPermutes(items);
    OrderedStrict(sorted, items);
    StrictUnique(sorted, Sort(items));
  }

  lemma {:induction false} OrderedStrict(sorted: seq<Item>, items: seq<Item>)
    requires DistinctKeys(items) && multiset(sorted) <= multiset(items) && Ordered(sorted)
    ensures StrictlyOrdered(sorted)
  {
    if |sorted| > 1 {
      assert sorted == [sorted[0]] + sorted[1..];
      OrderedStrict(sorted[1..], items);
      FirstTwo(sorted);
      var i, j := TwoPlaces(items, sorted[0], sorted[1]);
      LessTotal(sorted[0].key, sorted[1].key);
    }
  }

  lemma {:induction false} FirstTwo(s: seq<Item>)
    requires |s| > 1
    ensures multiset{s[0], s[1]} <= multiset(s)
  {
    assert s == [s[0], s[1]] + s[2..];
  }

  lemma {:induction false} CutOne(items: seq<Item>, i: nat)
    requires i < |items|
    ensures multiset(items) == multiset(items[..i] + items[i + 1..]) + multiset{items[i]}
  {
    assert items == items[..i] + [items[i]] + items[i + 1..];
  }

  /** Two items taken from a list stand at two places in it. */
  lemma {:induction false} TwoPlaces(items: seq<Item>, x: Item, y: Item) returns (i: nat, j: nat)
    requires multiset{x, y} <= multiset(items)
    ensures i < |items| && j < |items| && i != j && items[i] == x && items[j] == y
  {
    assert x in multiset(items);
    i :| 0 <= i < |items| && items[i] == x;
    var rest := items[..i] + items[i + 1..];
    CutOne(items, i);
    assert y in multiset(rest);
    var k :| 0 <= k < |rest| && rest[k] == y;
    j := if k < i then k else k + 1;
  }

  lemma {:induction false} SameFirst(a: seq<Item>, b: seq<Item>)
    requires a != [] && b != [] && StrictlyOrdered(a) && StrictlyOrdered(b) && a[0] in b && b[0] in a
    ensures a[0] == b[0]
  {
    if a[0] != b[0] {
      FirstIsLeast(b, a[0]);
      FirstIsLeast(a, b[0]);
      NotLessTrans(a[0].key, b[0].key);
    }
  }
}
