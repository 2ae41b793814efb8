/** Machine integers, results, and big-endian numbers shared by the wire formats. */
module Base {

  type u8 = x: int | 0 <= x < 0x100
  type u16 = x: int | 0 <= x < 0x1_0000
  type u32 = x: int | 0 <= x < 0x1_0000_0000
  type u64 = x: int | 0 <= x < 0x1_0000_0000_0000_0000
  type i64 = x: int | -0x8000_0000_0000_0000 <= x < 0x8000_0000_0000_0000

  const INT64_MAX: int := 0x7fff_ffff_ffff_ffff

  datatype Option<+T> = None | Some(value: T)
  datatype Result<+T, +E> = Ok(value: T) | Err(error: E)

  function Pow256(n: nat): (p: nat)
    ensures p >= 1
  {
    if n == 0 then 1 else 256 * Pow256(n - 1)
  }

  /** The low n bytes of x, most significant first. */
  function BE(n: nat, x: nat): (s: seq<u8>)
    ensures |s| == n
  {
    if n == 0 then [] else BE(n - 1, x / 256) + [x % 256]
  }

  function FromBE(s: seq<u8>): nat {
    if s == [] then 0 else 256 * FromBE(s[..|s| - 1]) + s[|s| - 1]
  }

  lemma {:induction false} FromBEBound(s: seq<u8>)
    ensures FromBE(s) < Pow256(|s|)
  {
    if s != [] {
      FromBEBound(s[..|s| - 1]);
    }
  }

  lemma {:induction false} FromBEofBE(n: nat, x: nat)
    requires x < Pow256(n)
    ensures FromBE(BE(n, x)) == x
  {
    if n > 0 {
      FromBEofBE(n - 1, x / 256);
      assert BE(n, x)[..n - 1] == BE(n - 1, x / 256);
    }
  }

  lemma {:induction false} BEofFromBE(s: seq<u8>)
    ensures BE(|s|, FromBE(s)) == s
  {
    if s != [] {
      var front, last := s[..|s| - 1], s[|s| - 1];
      BEofFromBE(front);
      assert FromBE(s) / 256 == FromBE(front) && FromBE(s) % 256 == last;
      assert s == front + [last];
    }
  }

  lemma {:induction false} PowValues()
    ensures Pow256(1) == 0x100 && Pow256(2) == 0x1_0000
    ensures Pow256(4) == 0x1_0000_0000 && Pow256(8) == 0x1_0000_0000_0000_0000
  {
    assert Pow256(3) == 256 * Pow256(2);
    assert Pow256(4) == 256 * Pow256(3);
    assert Pow256(5) == 256 * Pow256(4);
    assert Pow256(6) == 256 * Pow256(5);
    assert Pow256(7) == 256 * Pow256(6);
  }

  lemma {:induction false} MulStep(a: int, b: int, d: nat)
    requires a < b
    ensures a * d + d <= b * d
  {
    assert b * d == a * d + (b - a) * d;
    assert (b - a) * d == d + (b - a - 1) * d;
    assert (b - a - 1) * d >= 0;
  }

  lemma {:induction false} DivUnique(x: nat, d: nat, q: nat, r: nat)
    requires d >= 1 && x == q * d + r && r < d
    ensures x / d == q && x % d == r
  {
    var q' := x / d;
    assert x == q' * d + x % d;
    if q' > q {
      MulStep(q, q', d);
    } else if q' < q {
      MulStep(q', q, d);
    }
  }

  lemma {:induction false} DivDiv(x: nat, p: nat)
    requires p >= 1
    ensures x / p / 256 == x / (256 * p)
  {
    var q, r := x / p, x % p;
    var q2, r2 := q / 256, q % 256;
    assert x == q * p + r;
    assert q * p == q2 * (256 * p) + r2 * p by {
      assert q == 256 * q2 + r2;
      assert (256 * q2) * p == q2 * (256 * p);
      assert (256 * q2 + r2) * p == (256 * q2) * p + r2 * p;
    }
    assert r2 * p + p <= 256 * p by { MulStep(r2, 256, p); }
    DivUnique(x, 256 * p, q2, r2 * p + r);
  }

  /** Lexicographic order on byte strings: the order std::vector's `<` uses. */
  predicate Less(a: seq<u8>, b: seq<u8>) {
    b != [] && (a == [] || a[0] < b[0] || (a[0] == b[0] && Less(a[1..], b[1..])))
  }

  /** The first i bytes agree, and there a ends first or has the smaller byte. */
  predicate SplitsAt(a: seq<u8>, b: seq<u8>, i: nat) {
    && i <= |a| && i < |b| && a[..i] == b[..i]
    && (i == |a| || a[i] < b[i])
  }

  lemma {:induction false} LessSplits(a: seq<u8>, b: seq<u8>) returns (i: nat)
    requires Less(a, b)
    ensures SplitsAt(a, b, i)
  {
    i := 0;
    if a != [] && a[0] == b[0] {
      var j := LessSplits(a[1..], b[1..]);
      i := j + 1;
      assert a[..i] == [a[0]] + a[1..][..j] && b[..i] == [b[0]] + b[1..][..j];
    }
  }

  lemma {:induction false} SplitsLess(a: seq<u8>, b: seq<u8>, i: nat)
    requires SplitsAt(a, b, i)
    ensures Less(a, b)
  {
    if i > 0 {
      assert a[0] == a[..i][0] == b[..i][0] == b[0];
      assert a[1..][..i - 1] == a[..i][1..] && b[1..][..i - 1] == b[..i][1..];
      SplitsLess(a[1..], b[1..], i - 1);
    }
  }

  /** Bytewise lexicographic: decided by the first place where the strings differ, a prefix coming first. */
  lemma {:induction false} LessIff(a: seq<u8>, b: seq<u8>)
    ensures Less(a, b) <==> exists i :: SplitsAt(a, b, i)
  {
    if Less(a, b) {
      var i := LessSplits(a, b);
    }
    forall i: nat | SplitsAt(a, b, i) ensures Less(a, b) {
      SplitsLess(a, b, i);
    }
  }

  lemma {:induction false} LessTrans(a: seq<u8>, b: seq<u8>, c: seq<u8>)
    requires Less(a, b) && Less(b, c)
    ensures Less(a, c)
  {
    if a != [] && a[0] == b[0] == c[0] {
      LessTrans(a[1..], b[1..], c[1..]);
    }
  }

  lemma {:induction false} LessIrreflexive(a: seq<u8>)
    ensures !Less(a, a)
  {
    if a != [] {
      LessIrreflexive(a[1..]);
    }
  }

  lemma {:induction false} LessTotal(a: seq<u8>, b: seq<u8>)
    ensures Less(a, b) || a == b || Less(b, a)
  {
    if a != [] && b != [] && a[0] == b[0] {
      LessTotal(a[1..], b[1..]);
      if a[1..] == b[1..] {
        assert a == [a[0]] + a[1..] == b;
      }
    }
  }

  function Quot(v: nat, d: nat): (q: nat)
    requires d >= 1
    ensures q * d <= v < q * d + d
  {
    v / d
  }
}
