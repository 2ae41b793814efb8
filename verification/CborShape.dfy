/** Two values have the same canonical encoding exactly when they are the same up to the order of map entries. */
module CborShape {
  import opened Base
  import opened Cbor
  import opened CborRoundTrip
  import opened CborCanonical

  /** A value with its maps as multisets of entries and its NaNs merged: what encoding should depend on. */
  datatype Shape =
    | SLeaf(v: Value)
    | SFloat(bits: u64)
    | SArray(items: seq<Shape>)
    | SMap(entries: multiset<ShapeEntry>)

  datatype ShapeEntry = ShapeEntry(key: Shape, val: Shape)

  function ShapeOf(v: Value): Shape
    decreases v, 1
  {
    match v
    case Float(d) => SFloat(CanonicalDouble(d))
    case Array(a) => SArray(ShapeAll(a))
    case Map(m) => SMap(multiset(ShapeEntries(m)))
    case _ => SLeaf(v)
  }

  function ShapeAll(a: seq<Value>): (r: seq<Shape>)
    ensures |r| == |a|
    decreases a, 0
  {
    if a == [] then [] else [ShapeOf(a[0])] + ShapeAll(a[1..])
  }

  function ShapeEntries(m: seq<Entry>): (r: seq<ShapeEntry>)
    ensures |r| == |m|
    decreases m, 0
  {
    if m == [] then [] else [EntryShape(m[0])] + ShapeEntries(m[1..])
  }

  function EntryShape(e: Entry): ShapeEntry
    decreases e, 0
  {
    ShapeEntry(ShapeOf(e.key), ShapeOf(e.val))
  }

  /** At every depth, the keys of a map encode differently. */
  predicate Distinct(v: Value)
    decreases v, 1
  {
    match v
    case Array(a) => DistinctAll(a)
    case Map(m) => DistinctKeys(EncodeEntries(m)) && DistinctEntries(m)
    case _ => true
  }

  predicate DistinctAll(a: seq<Value>)
    decreases a, 0
  {
    a == [] || (Distinct(a[0]) && DistinctAll(a[1..]))
  }

  predicate DistinctEntries(m: seq<Entry>)
    decreases m, 0
  {
    m == [] || (DistinctEntry(m[0]) && DistinctEntries(m[1..]))
  }

  predicate DistinctEntry(e: Entry)
    decreases e, 0
  {
    Distinct(e.key) && Distinct(e.val)
  }

  // ---------------------------------------------------------------- same shape, same bytes

  lemma {:induction false} ShapeEntriesAt(m: seq<Entry>, i: nat)
    requires i < |m|
    ensures ShapeEntries(m)[i] == EntryShape(m[i]) && EncodeEntries(m)[i] == EncodeEntry(m[i])
  {
    if i > 0 {
      ShapeEntriesAt(m[1..], i - 1);
    }
  }

  function Drop<T>(s: seq<T>, j: nat): (r: seq<T>)
    requires j < |s|
    ensures |r| == |s| - 1
  {
    s[..j] + s[j + 1..]
  }

  lemma {:induction false} Cancel<T>(x: T, a: multiset<T>, b: multiset<T>)
    requires multiset{x} + a == multiset{x} + b
    ensures a == b
  {
    assert a == multiset{x} + a - multiset{x};
    assert b == multiset{x} + b - multiset{x};
  }

  lemma {:induction false} DropOne<T>(s: seq<T>, j: nat)
    requires j < |s|
    ensures multiset(s) == multiset{s[j]} + multiset(Drop(s, j))
  {
    assert s == s[..j] + [s[j]] + s[j + 1..];
  }

  lemma {:induction false} DropCommutes(m: seq<Entry>, j: nat)
    requires j < |m|
    ensures ShapeEntries(Drop(m, j)) == Drop(ShapeEntries(m), j)
    ensures EncodeEntries(Drop(m, j)) == Drop(EncodeEntries(m), j)
  {
    forall i | 0 <= i < |m| - 1
      ensures ShapeEntries(Drop(m, j))[i] == Drop(ShapeEntries(m), j)[i]
      ensures EncodeEntries(Drop(m, j))[i] == Drop(EncodeEntries(m), j)[i]
    {
      ShapeEntriesAt(Drop(m, j), i);
      ShapeEntriesAt(m, if i < j then i else i + 1);
    }
  }

  /** Taking entry j out of a map takes out exactly its shape and its item. */
  lemma {:induction false} Without(m: seq<Entry>, j: nat)
    requires j < |m|
    ensures multiset(ShapeEntries(m)) == multiset{EntryShape(m[j])} + multiset(ShapeEntries(Drop(m, j)))
    ensures multiset(EncodeEntries(m)) == multiset{EncodeEntry(m[j])} + multiset(EncodeEntries(Drop(m, j)))
  {
    DropCommutes(m, j);
    ShapeEntriesAt(m, j);
    DropOne(ShapeEntries(m), j);
    DropOne(EncodeEntries(m), j);
  }

  lemma {:induction false} SameShapeEncode(v: Value, w: Value)
    requires ShapeOf(v) == ShapeOf(w) && Distinct(v)
    ensures Encode(v) == Encode(w)
    decreases v, 1
  {
    match v
    case Float(d) =>
      CanonicalDoubleBytes(d);
      CanonicalDoubleBytes(w.bits);
    case Array(a) => SameShapeAll(a, w.items);
    case Map(m) =>
      SameShapeEntries(m, w.entries);
      var xs, ys := EncodeEntries(m), EncodeEntries(w.entries);
      SameItemsSort(xs, ys);
      assert |multiset(ShapeEntries(m))| == |multiset(ShapeEntries(w.entries))|;
    case _ =>
  }

  lemma {:induction false} SameShapeAll(a: seq<Value>, b: seq<Value>)
    requires ShapeAll(a) == ShapeAll(b) && DistinctAll(a)
    ensures EncodeAll(a) == EncodeAll(b)
    decreases a, 0
  {
    if a != [] {
      assert ShapeAll(a)[0] == ShapeOf(a[0]) && ShapeAll(b)[0] == ShapeOf(b[0]);
      assert ShapeAll(a)[1..] == ShapeAll(a[1..]) && ShapeAll(b)[1..] == ShapeAll(b[1..]);
      SameShapeEncode(a[0], b[0]);
      SameShapeAll(a[1..], b[1..]);
    }
  }

  lemma {:induction false} FindShape(m: seq<Entry>, x: ShapeEntry) returns (j: nat)
    requires x in multiset(ShapeEntries(m))
    ensures j < |m| && EntryShape(m[j]) == x
  {
    assert x in ShapeEntries(m);
    j :| j < |m| && ShapeEntries(m)[j] == x;
    ShapeEntriesAt(m, j);
  }

  lemma {:induction false} SameShapeEntries(m: seq<Entry>, n: seq<Entry>)
    requires multiset(ShapeEntries(m)) == multiset(ShapeEntries(n)) && DistinctEntries(m)
    ensures multiset(EncodeEntries(m)) == multiset(EncodeEntries(n))
    decreases m, 0
  {
    if m == [] {
      assert |multiset(ShapeEntries(n))| == 0;
    } else {
      var x := EntryShape(m[0]);
      Without(m, 0);
      assert Drop(m, 0) == m[1..];
      var j := FindShape(n, x);
      Without(n, j);
      Cancel(x, multiset(ShapeEntries(m[1..])), multiset(ShapeEntries(Drop(n, j))));
      SameShapeEntry(m[0], n[j]);
      SameShapeEntries(m[1..], Drop(n, j));
    }
  }

  lemma {:induction false} SameShapeEntry(e: Entry, f: Entry)
    requires EntryShape(e) == EntryShape(f) && DistinctEntry(e)
    ensures EncodeEntry(e) == EncodeEntry(f)
    decreases e, 0
  {
    SameShapeEncode(e.key, f.key);
    SameShapeEncode(e.val, f.val);
  }

  lemma {:induction false} SameItemsSort(xs: seq<Item>, ys: seq<Item>)
    requires multiset(xs) == multiset(ys) && DistinctKeys(xs)
    ensures Sort(xs) == Sort(ys)
  {
    DistinctSame(xs, ys);
    KeysAscend(xs);
    KeysAscend(ys);
    SortPermutes(xs);
    SortPermutes(ys);
    StrictUnique(Sort(xs), Sort(ys));
  }

  /** Distinctness of keys does not depend on the order of the items. */
  lemma {:induction false} DistinctSame(xs: seq<Item>, ys: seq<Item>)
    requires multiset(xs) == multiset(ys) && DistinctKeys(xs)
    ensures DistinctKeys(ys)
  {
    forall i, j | 0 <= i < j < |ys| ensures ys[i].key != ys[j].key {
      if ys[i].key == ys[j].key {
        TwoAt(ys, i, j);
        assert ys[i] in multiset(xs) && ys[j] in multiset(xs);
        var k :| 0 <= k < |xs| && xs[k] == ys[i];
        var l :| 0 <= l < |xs| && xs[l] == ys[j];
        assert k == l;
        OnceAt(xs, k);
      }
    }
  }

  lemma {:induction false} TwoAt(s: seq<Item>, i: nat, j: nat)
    requires i < j < |s|
    ensures s[i] == s[j] ==> multiset(s)[s[i]] >= 2
  {
    assert s == s[..i] + [s[i]] + s[i + 1..j] + [s[j]] + s[j + 1..];
  }

  lemma {:induction false} OnceAt(s: seq<Item>, k: nat)
    requires DistinctKeys(s) && k < |s|
    ensures multiset(s)[s[k]] == 1
  {
    var a, b := s[..k], s[k + 1..];
    assert s == a + [s[k]] + b;
    assert s[k] !in a && s[k] !in b;
  }

  // ---------------------------------------------------------------- same bytes, same shape

  lemma {:induction false} InsertEntryShapes(e: Entry, es: seq<Entry>)
    ensures multiset(ShapeEntries(InsertEntry(e, es))) == multiset{EntryShape(e)} + multiset(ShapeEntries(es))
  {
    if es != [] && Less(Encode(es[0].key), Encode(e.key)) {
      InsertEntryShapes(e, es[1..]);
      assert InsertEntry(e, es)[1..] == InsertEntry(e, es[1..]);
    } else {
      assert InsertEntry(e, es)[1..] == es;
    }
  }

  lemma {:induction false} SortEntriesShapes(es: seq<Entry>)
    ensures multiset(ShapeEntries(SortEntries(es))) == multiset(ShapeEntries(es))
  {
    if es != [] {
      SortEntriesShapes(es[1..]);
      InsertEntryShapes(es[0], SortEntries(es[1..]));
    }
  }

  /** What decoding returns has the shape of what was encoded. */
  lemma {:induction false} CanonShape(v: Value)
    ensures ShapeOf(Canon(v)) == ShapeOf(v)
    decreases v, 1
  {
    match v
    case Float(d) => CanonicalDoubleBytes(d);
    case Array(a) => CanonAllShape(a);
    case Map(m) =>
      CanonEntriesShape(m);
      SortEntriesShapes(CanonEntries(m));
    case _ =>
  }

  lemma {:induction false} CanonAllShape(a: seq<Value>)
    ensures ShapeAll(CanonAll(a)) == ShapeAll(a)
    decreases a, 0
  {
    if a != [] {
      CanonShape(a[0]);
      CanonAllShape(a[1..]);
      assert CanonAll(a)[1..] == CanonAll(a[1..]);
    }
  }

  lemma {:induction false} CanonEntriesShape(m: seq<Entry>)
    ensures ShapeEntries(CanonEntries(m)) == ShapeEntries(m)
    decreases m, 0
  {
    if m != [] {
      CanonEntryShape(m[0]);
      CanonEntriesShape(m[1..]);
      assert CanonEntries(m)[1..] == CanonEntries(m[1..]);
    }
  }

  lemma {:induction false} CanonEntryShape(e: Entry)
    ensures EntryShape(CanonEntry(e)) == EntryShape(e)
    decreases e, 0
  {
    CanonShape(e.key);
    CanonShape(e.val);
  }

  /** Determinism and injectivity: with distinct keys, two values encode alike if and only if they are the same up
      to the order of map entries at any depth and the choice of NaN. */
  lemma {:induction false} EncodeIffShape(v: Value, w: Value)
    requires Sized(v) && Sized(w) && Distinct(v)
    ensures Encode(v) == Encode(w) <==> ShapeOf(v) == ShapeOf(w)
  {
    if ShapeOf(v) == ShapeOf(w) {
      SameShapeEncode(v, w);
    } else {
      DecodeBack(v, []);
      DecodeBack(w, []);
      CanonShape(v);
      CanonShape(w);
    }
  }

  /** In particular the order in which a map's entries were inserted does not show. */
  lemma {:induction false} EntryOrderIrrelevant(m: seq<Entry>, n: seq<Entry>)
    requires multiset(m) == multiset(n) && Distinct(Map(m))
    ensures Encode(Map(m)) == Encode(Map(n))
  {
    PermutedShapes(m, n);
    SameShapeEncode(Map(m), Map(n));
  }

  lemma {:induction false} PermutedShapes(m: seq<Entry>, n: seq<Entry>)
    requires multiset(m) == multiset(n)
    ensures multiset(ShapeEntries(m)) == multiset(ShapeEntries(n))
  {
    if m == [] {
      assert |multiset(n)| == 0;
    } else {
      assert m[0] in multiset(n);
      var j :| 0 <= j < |n| && n[j] == m[0];
      DropOne(m, 0);
      DropOne(n, j);
      assert Drop(m, 0) == m[1..];
      Cancel(m[0], multiset(m[1..]), multiset(Drop(n, j)));
      PermutedShapes(m[1..], Drop(n, j));
      Without(m, 0);
      Without(n, j);
    }
  }
}
