/** IEEE 754 binary16, binary32 and binary64 as bit patterns, with exact integer magnitudes. The conversions are
    the source's bit manipulations written with arithmetic; every theorem is about exact values. */
module Floats {
  import opened Base

  function Pow2(n: nat): (p: nat)
    ensures p >= 1
  {
    if n == 0 then 1 else 2 * Pow2(n - 1)
  }

  lemma {:induction false} Pow2Add(a: nat, b: nat)
    ensures Pow2(a + b) == Pow2(a) * Pow2(b)
  {
    if a > 0 {
      Pow2Add(a - 1, b);
    }
  }

  lemma {:induction false} TwoTo10()
    ensures Pow2(10) == 0x400
  {
    assert Pow2(5) == 32;
    Pow2Add(5, 5);
  }

  lemma {:induction false} TwoTo13()
    ensures Pow2(13) == 0x2000
  {
    TwoTo10();
    assert Pow2(3) == 8;
    Pow2Add(3, 10);
  }

  lemma {:induction false} TwoTo23()
    ensures Pow2(23) == 0x80_0000
  {
    TwoTo10();
    TwoTo13();
    Pow2Add(13, 10);
  }

  lemma {:induction false} TwoTo29()
    ensures Pow2(29) == 0x2000_0000
  {
    TwoTo23();
    assert Pow2(6) == 64;
    Pow2Add(6, 23);
  }

  lemma {:induction false} TwoTo52()
    ensures Pow2(52) == 0x10_0000_0000_0000
  {
    TwoTo23();
    TwoTo29();
    Pow2Add(23, 29);
  }

  lemma {:induction false} MulAssoc(a: int, b: int, c: int)
    ensures a * b * c == a * (b * c)
  {
  }

  lemma {:induction false} Pow2Mono(a: nat, b: nat)
    requires a <= b
    ensures Pow2(a) <= Pow2(b)
  {
    if a < b {
      Pow2Mono(a, b - 1);
    }
  }

  lemma {:induction false} MulMono(a: nat, b: nat, c: nat)
    requires a <= b
    ensures a * c <= b * c && c * a <= c * b
  {
    if a < b {
      MulStep(a, b, c);
    }
  }

  // ---------------------------------------------------------------- exact magnitudes

  /** The magnitude of the finite number with exponent field e and mantissa field m, in a format with p mantissa
      bits, in units of that format's least positive number. */
  function Mag(p: nat, e: nat, m: nat): nat {
    if e == 0 then m else (Pow2(p) + m) * Pow2(e - 1)
  }

  /** Numbers are ordered as their exponent and mantissa fields are. */
  lemma {:induction false} MagMono(p: nat, e1: nat, m1: nat, e2: nat, m2: nat)
    requires m1 < Pow2(p) && m2 < Pow2(p)
    requires e1 < e2 || (e1 == e2 && m1 < m2)
    ensures Mag(p, e1, m1) < Mag(p, e2, m2)
  {
    if e1 == e2 {
      if e1 > 0 {
        MulStep(Pow2(p) + m1, Pow2(p) + m2, Pow2(e1 - 1));
      }
    } else {
      MagBelow(p, e1, m1);
      Pow2Mono(e1, e2 - 1);
      MulMono(Pow2(e1), Pow2(e2 - 1), Pow2(p));
      MulMono(Pow2(p), Pow2(p) + m2, Pow2(e2 - 1));
    }
  }

  lemma {:induction false} MagBelow(p: nat, e: nat, m: nat)
    requires m < Pow2(p)
    ensures Mag(p, e, m) < Pow2(p) * Pow2(e)
  {
    if e > 0 {
      MulStep(Pow2(p) + m, 2 * Pow2(p), Pow2(e - 1));
      MulAssoc(Pow2(p), 2, Pow2(e - 1));
    }
  }

  lemma {:induction false} MagInjective(p: nat, e1: nat, m1: nat, e2: nat, m2: nat)
    requires m1 < Pow2(p) && m2 < Pow2(p)
    requires Mag(p, e1, m1) == Mag(p, e2, m2)
    ensures e1 == e2 && m1 == m2
  {
    if e1 < e2 || (e1 == e2 && m1 < m2) {
      MagMono(p, e1, m1, e2, m2);
    } else if e2 < e1 || m2 < m1 {
      MagMono(p, e2, m2, e1, m1);
    }
  }

  // ---------------------------------------------------------------- widening

  /** How often a subnormal mantissa must double to reach the implicit bit. */
  function Shifts(p: nat, m: nat): (k: nat)
    requires m > 0
    ensures m < 2 * Pow2(p) ==> Pow2(p) <= m * Pow2(k) < 2 * Pow2(p)
    decreases Pow2(p) - m
  {
    if m >= Pow2(p) then 0
    else
      var k := Shifts(p, 2 * m);
      assert m * Pow2(1 + k) == 2 * m * Pow2(k) by {
        assert m * (2 * Pow2(k)) == 2 * m * Pow2(k);
      }
      1 + k
  }

  lemma {:induction false} ShiftsBound(p: nat, m: nat)
    requires 0 < m < Pow2(p)
    ensures 1 <= Shifts(p, m) <= p
  {
    var k := Shifts(p, m);
    if k > p {
      Pow2Mono(p + 1, k);
      MulMono(1, m, Pow2(k));
    }
  }

  /** Widens a finite number from p mantissa bits to p + dp, the exponent bias growing by db. A subnormal that is
      not zero becomes normal: its mantissa is shifted up and the exponent down by as much. */
  function Widen(p: nat, dp: nat, db: nat, e: nat, m: nat): (r: (nat, nat))
    requires db >= p && m < Pow2(p)
  {
    if e > 0 then
      MulMono(0, m, Pow2(dp));
      (e + db, m * Pow2(dp))
    else if m == 0 then (0, 0)
    else
      var k := Shifts(p, m);
      ShiftsBound(p, m);
      var low := m * Pow2(k) - Pow2(p);
      MulMono(0, low, Pow2(dp));
      (db + 1 - k, low * Pow2(dp))
  }

  /** A normal number of the wide format whose mantissa is narrow. */
  lemma {:induction false} WideMag(p: nat, dp: nat, e: nat, m: nat)
    requires e > 0 && m < Pow2(p)
    ensures m * Pow2(dp) < Pow2(p + dp)
    ensures Mag(p + dp, e, m * Pow2(dp)) == (Pow2(p) + m) * Pow2(dp + e - 1)
  {
    Pow2Add(p, dp);
    MulStep(m, Pow2(p), Pow2(dp));
    Pow2Add(dp, e - 1);
    assert Pow2(p + dp) + m * Pow2(dp) == (Pow2(p) + m) * Pow2(dp) by {
      Distribute(Pow2(p), m, Pow2(dp));
    }
    MulAssoc(Pow2(p) + m, Pow2(dp), Pow2(e - 1));
  }

  lemma {:induction false} Distribute(a: int, b: int, c: int)
    ensures (a + b) * c == a * c + b * c
  {
  }

  /** A subnormal that is not zero, widened: its mantissa with the implicit bit is the old one shifted. */
  lemma {:induction false} WidenSubnormal(p: nat, dp: nat, db: nat, m: nat)
    requires db >= p && 0 < m < Pow2(p)
    ensures var k := Shifts(p, m);
            var (e', m') := Widen(p, dp, db, 0, m);
            1 <= k <= p && e' == db + 1 - k && Pow2(p + dp) + m' == m * Pow2(k + dp)
  {
    var k := Shifts(p, m);
    ShiftsBound(p, m);
    Pow2Add(p, dp);
    Pow2Add(k, dp);
    MulAssoc(m, Pow2(k), Pow2(dp));
    Distribute(m * Pow2(k) - Pow2(p), Pow2(p), Pow2(dp));
  }

  /** Widening is exact. */
  lemma {:induction false} WidenExact(p: nat, dp: nat, db: nat, e: nat, m: nat)
    requires db >= p && m < Pow2(p)
    ensures var (e', m') := Widen(p, dp, db, e, m);
            m' < Pow2(p + dp) && Mag(p + dp, e', m') == Mag(p, e, m) * Pow2(dp + db)
  {
    if e > 0 {
      WideMag(p, dp, e + db, m);
      Pow2Add(e - 1, dp + db);
      MulAssoc(Pow2(p) + m, Pow2(e - 1), Pow2(dp + db));
      assert dp + (e + db) - 1 == (e - 1) + (dp + db);
    } else if m > 0 {
      var k := Shifts(p, m);
      ShiftsBound(p, m);
      WideMag(p, dp, db + 1 - k, m * Pow2(k) - Pow2(p));
      assert dp + (db + 1 - k) - 1 == dp + db - k;
      Pow2Add(k, dp + db - k);
      MulAssoc(m, Pow2(k), Pow2(dp + db - k));
    }
  }

  // ---------------------------------------------------------------- rounding to nearest, ties to even

  /** v / d rounded to the nearest integer, ties to even. */
  function Rne(v: nat, d: nat): nat
    requires d >= 1
  {
    var half := Quot(v, d);
    var rem := v - half * d;
    if 2 * rem > d || (2 * rem == d && half % 2 == 1) then half + 1 else half
  }

  /** The unsigned binary16 pattern that f32_to_f16 computes for a finite binary32 number. */
  function HalfOf(e: nat, m: nat): nat
    requires m < 0x80_0000
  {
    if e >= 143 then 0x7c00
    else if e >= 113 then Rne((e - 112) * 0x80_0000 + m, 0x2000)
    else if e >= 102 then Rne(0x80_0000 + m, Pow2(126 - e))
    else 0
  }

  const HALF_INF: nat := 0x7c00

  /** The magnitude of an unsigned binary16 pattern. At HALF_INF this is the value 65536 to which a number
      must be at least as near as to 65504 to round to infinity. */
  function HalfMag(c: nat): nat {
    Mag(10, c / 0x400, c % 0x400)
  }

  function Dist(a: int, b: int): nat {
    if a < b then b - a else a - b
  }

  /** The binary32 unit is this many powers of two finer than the binary16 unit. */
  const HALF_SCALE: nat := 125

  /** A half's magnitude in the units of singles. */
  function Scaled(c: nat): nat {
    HalfMag(c) * Pow2(HALF_SCALE)
  }

  /** Whether c is nearer to x than d is, or as near and even. */
  predicate NearerEven(x: nat, c: nat, vc: nat, vd: nat) {
    Dist(vc, x) < Dist(vd, x) || (Dist(vc, x) == Dist(vd, x) && c % 2 == 0)
  }

  /** c is the binary16 pattern nearest to the binary32 magnitude x, and even if another is as near. */
  ghost predicate NearestEven(x: nat, c: nat) {
    && c <= HALF_INF
    && forall d: nat :: d <= HALF_INF && d != c ==> NearerEven(x, c, Scaled(c), Scaled(d))
  }

  lemma {:induction false} HalfMagMono(c: nat, d: nat)
    requires c < d
    ensures HalfMag(c) < HalfMag(d)
    ensures Scaled(c) < Scaled(d)
  {
    TwoTo10();
    MagMono(10, c / 0x400, c % 0x400, d / 0x400, d % 0x400);
    MulStep(HalfMag(c), HalfMag(d), Pow2(HALF_SCALE));
  }

  lemma {:induction false} HalfMagNext(c: nat)
    ensures HalfMag(c + 1) == HalfMag(c) + if c < 0x400 then 1 else Pow2(c / 0x400 - 1)
  {
    TwoTo10();
    var e, m := c / 0x400, c % 0x400;
    if m == 0x3ff {
      assert (c + 1) / 0x400 == e + 1 && (c + 1) % 0x400 == 0;
      if e > 0 {
        assert Pow2(e) == 2 * Pow2(e - 1);
        MulAssoc(0x400, 2, Pow2(e - 1));
        Distribute(0x400 + m, 1, Pow2(e - 1));
      }
    } else {
      assert (c + 1) / 0x400 == e && (c + 1) % 0x400 == m + 1;
      if e > 0 {
        Distribute(0x400 + m, 1, Pow2(e - 1));
      }
    }
  }

  /** Of two neighbours lo and hi of x, the rule picks one that no value outside their gap beats. */
  lemma {:induction false} Picks(x: nat, l: nat, lo: nat, hi: nat, c: nat, vd: nat)
    requires lo <= x < hi
    requires c == if 2 * (x - lo) > hi - lo || (2 * (x - lo) == hi - lo && l % 2 == 1) then l + 1 else l
    requires vd <= lo || vd >= hi
    requires vd == lo ==> c == l + 1
    requires vd == hi ==> c == l
    ensures NearerEven(x, c, if c == l then lo else hi, vd)
  {
  }

  /** A number r above pattern l, the gap to the next pattern being w, is nearest to l or l + 1 as 2r compares to w. */
  lemma {:induction false} Bracket(x: nat, l: nat, r: nat, w: nat, c: nat)
    requires l < HALF_INF && r < w
    requires x == Scaled(l) + r
    requires Scaled(l + 1) == Scaled(l) + w
    requires c == if 2 * r > w || (2 * r == w && l % 2 == 1) then l + 1 else l
    ensures NearestEven(x, c)
  {
    var lo, hi := Scaled(l), Scaled(l + 1);
    forall d: nat | d <= HALF_INF && d != c ensures NearerEven(x, c, Scaled(c), Scaled(d)) {
      var vd := Scaled(d);
      Outside(l, d);
      Picks(x, l, lo, hi, c, vd);
    }
  }

  lemma {:induction false} Outside(l: nat, d: nat)
    ensures Scaled(d) <= Scaled(l) || Scaled(d) >= Scaled(l + 1)
    ensures Scaled(d) == Scaled(l) ==> d == l
    ensures Scaled(d) == Scaled(l + 1) ==> d == l + 1
  {
    if d < l {
      HalfMagMono(d, l);
      HalfMagMono(d, l + 1);
    } else if d == l {
      HalfMagMono(l, l + 1);
    } else {
      HalfMagMono(l, d);
      if d > l + 1 { HalfMagMono(l + 1, d); }
    }
  }

  /** The same with the number given as (a * d + rem) units of u, its lower neighbour being a * d of them. */
  lemma {:induction false} ScaledBracket(x: nat, l: nat, a: nat, d: nat, rem: nat, u: nat, c: nat)
    requires l < HALF_INF && rem < d && u >= 1
    requires x == (a * d + rem) * u
    requires Scaled(l) == a * d * u
    requires Scaled(l + 1) == a * d * u + d * u
    requires c == if 2 * rem > d || (2 * rem == d && l % 2 == 1) then l + 1 else l
    ensures NearestEven(x, c)
  {
    Distribute(a * d, rem, u);
    MulStep(rem, d, u);
    MulAssoc(2, rem, u);
    if 2 * rem > d {
      MulStep(d, 2 * rem, u);
    } else if 2 * rem < d {
      MulStep(2 * rem, d, u);
    }
    Bracket(x, l, rem * u, d * u, c);
  }

  /** Rounding in terms of quotient and remainder. */
  lemma {:induction false} RneIs(v: nat, d: nat, l: nat, rem: nat)
    requires d >= 1 && v == l * d + rem && rem < d
    ensures Rne(v, d) == if 2 * rem > d || (2 * rem == d && l % 2 == 1) then l + 1 else l
  {
    var q := Quot(v, d);
    if q < l {
      MulStep(q, l, d);
    } else if l < q {
      MulStep(l, q, d);
    }
  }

  /** The quotient of a subnormal result stays below the normal patterns. */
  lemma {:induction false} SubnormalQuot(v: nat, d: nat, l: nat)
    requires v < 0x100_0000 && d >= 0x4000 && l * d <= v
    ensures l < 0x400
  {
    if l >= 0x400 {
      MulMono(0x400, l, d);
    }
  }

  lemma {:induction false} SubnormalNext(l: nat, d: nat, u: nat)
    requires l < 0x400 && Pow2(HALF_SCALE) == d * u
    ensures Scaled(l) == l * d * u && Scaled(l + 1) == l * d * u + d * u
  {
    HalfMagNext(l);
    assert HalfMag(l) == l;
    MulAssoc(l, d, u);
    Distribute(l, 1, d * u);
  }

  lemma {:induction false} SubnormalUnit(e: nat)
    requires 102 <= e < 113
    ensures Pow2(126 - e) >= 0x4000 && Pow2(HALF_SCALE) == Pow2(126 - e) * Pow2(e - 1)
  {
    TwoTo13();
    Pow2Mono(14, 126 - e);
    assert Pow2(14) == 2 * Pow2(13);
    Pow2Add(126 - e, e - 1);
  }

  lemma {:induction false} SingleMag(e: nat, m: nat)
    requires e >= 1
    ensures Mag(23, e, m) == (0x80_0000 + m) * Pow2(e - 1)
  {
    TwoTo23();
  }

  lemma {:induction false} SubnormalRounds(e: nat, m: nat)
    requires 102 <= e < 113 && m < 0x80_0000
    ensures NearestEven(Mag(23, e, m), HalfOf(e, m))
  {
    SubnormalUnit(e);
    SingleMag(e, m);
    SubnormalPicks(0x80_0000 + m, Pow2(126 - e), Pow2(e - 1));
  }

  lemma {:induction false} SubnormalPicks(v: nat, d: nat, u: nat)
    requires v < 0x100_0000 && d >= 0x4000 && u >= 1 && Pow2(HALF_SCALE) == d * u
    ensures NearestEven(v * u, Rne(v, d))
  {
    var l := Quot(v, d);
    SubnormalQuot(v, d, l);
    SubnormalNext(l, d, u);
    RneIs(v, d, l, v - l * d);
    ScaledBracket(v * u, l, l, d, v - l * d, u, Rne(v, d));
  }

  lemma {:induction false} NormalUnit(e: nat)
    requires e >= 113
    ensures Pow2(e - 113) * Pow2(HALF_SCALE) == 0x2000 * Pow2(e - 1)
  {
    TwoTo13();
    Pow2Add(e - 113, HALF_SCALE);
    Pow2Add(13, e - 1);
  }

  lemma {:induction false} NormalMags(e: nat, top: nat)
    requires 1 <= e && top < 0x400
    ensures HalfMag(e * 0x400 + top) == (0x400 + top) * Pow2(e - 1)
    ensures HalfMag(e * 0x400 + top + 1) == (0x400 + top) * Pow2(e - 1) + Pow2(e - 1)
  {
    TwoTo10();
    var l := e * 0x400 + top;
    assert l / 0x400 == e && l % 0x400 == top;
    HalfMagNext(l);
  }

  lemma {:induction false} NormalNext(e: nat, top: nat, u: nat)
    requires 1 <= e && top < 0x400 && Pow2(e - 1) * Pow2(HALF_SCALE) == 0x2000 * u
    ensures var l, a := e * 0x400 + top, 0x400 + top;
            Scaled(l) == a * 0x2000 * u && Scaled(l + 1) == a * 0x2000 * u + 0x2000 * u
  {
    NormalMags(e, top);
    ScaleNext(0x400 + top, Pow2(e - 1), Pow2(HALF_SCALE), 0x2000, u);
  }

  lemma {:induction false} ScaleNext(a: nat, g: nat, s: nat, d: nat, u: nat)
    requires g * s == d * u
    ensures a * g * s == a * d * u && (a * g + g) * s == a * d * u + d * u
  {
    MulAssoc(a, g, s);
    MulAssoc(a, d, u);
    Distribute(a * g, g, s);
  }

  lemma {:induction false} NormalRounds(e: nat, m: nat)
    requires 113 <= e < 143 && m < 0x80_0000
    ensures NearestEven(Mag(23, e, m), HalfOf(e, m))
  {
    NormalUnit(e);
    SingleMag(e, m);
    NormalPicks(e - 112, m / 0x2000, m % 0x2000, (e - 112) * 0x80_0000 + m, 0x80_0000 + m, Pow2(e - 1));
  }

  lemma {:induction false} NormalPicks(e: nat, top: nat, rem: nat, v: nat, w: nat, u: nat)
    requires 1 <= e < 31 && top < 0x400 && rem < 0x2000 && u >= 1
    requires v == e * 0x80_0000 + top * 0x2000 + rem && w == 0x80_0000 + top * 0x2000 + rem
    requires Pow2(e - 1) * Pow2(HALF_SCALE) == 0x2000 * u
    ensures NearestEven(w * u, Rne(v, 0x2000))
  {
    var l := e * 0x400 + top;
    NormalNext(e, top, u);
    RneIs(v, 0x2000, l, rem);
    RoundedPicks(l, 0x400 + top, 0x2000, rem, w, u, Rne(v, 0x2000));
  }

  lemma {:induction false} RoundedPicks(l: nat, a: nat, d: nat, rem: nat, w: nat, u: nat, c: nat)
    requires l < HALF_INF && rem < d && u >= 1 && w == a * d + rem
    requires Scaled(l) == a * d * u && Scaled(l + 1) == a * d * u + d * u
    requires c == if 2 * rem > d || (2 * rem == d && l % 2 == 1) then l + 1 else l
    ensures NearestEven(w * u, c)
  {
    ScaledBracket(w * u, l, a, d, rem, u, c);
  }

  lemma {:induction false} TinyBound(e: nat, m: nat)
    requires e < 102 && m < 0x80_0000
    ensures 2 * Mag(23, e, m) < Pow2(HALF_SCALE)
  {
    TwoTo23();
    MagBelow(23, e, m);
    Pow2Add(23, e);
    Pow2Mono(23 + e, HALF_SCALE - 1);
  }

  lemma {:induction false} TinyRounds(e: nat, m: nat)
    requires e < 102 && m < 0x80_0000
    ensures NearestEven(Mag(23, e, m), HalfOf(e, m))
  {
    TinyBound(e, m);
    TinyPicks(Mag(23, e, m), Pow2(HALF_SCALE));
  }

  lemma {:induction false} TinyPicks(x: nat, w: nat)
    requires 2 * x < w == Pow2(HALF_SCALE)
    ensures NearestEven(x, 0)
  {
    ZeroAndOne(w);
    Bracket(x, 0, x, w, 0);
  }

  lemma {:induction false} ZeroAndOne(w: nat)
    requires w == Pow2(HALF_SCALE)
    ensures Scaled(0) == 0 && Scaled(1) == w
  {
    assert HalfMag(0) == 0 && HalfMag(1) == 1;
  }

  lemma {:induction false} InfScaled(k: nat)
    requires k == 40 + HALF_SCALE
    ensures Scaled(HALF_INF) == Pow2(k)
  {
    TwoTo10();
    Pow2Add(10, 30);
    assert HALF_INF / 0x400 == 31 && HALF_INF % 0x400 == 0;
    assert HalfMag(HALF_INF) == Pow2(40);
    Pow2Add(40, HALF_SCALE);
  }

  lemma {:induction false} HugeMag(e: nat, m: nat, k: nat)
    requires k == 40 + HALF_SCALE
    requires e >= 143 && m < 0x80_0000
    ensures Scaled(HALF_INF) <= Mag(23, e, m)
  {
    InfScaled(k);
    Pow2Mono(k, 23 + (e - 1));
    Pow2Add(23, e - 1);
    SingleMag(e, m);
    TwoTo23();
    AtLeast(0x80_0000, m, Pow2(e - 1));
  }

  lemma {:induction false} AtLeast(p: nat, m: nat, u: nat)
    ensures p * u <= (p + m) * u
  {
    MulMono(p, p + m, u);
  }

  lemma {:induction false} HugeRounds(e: nat, m: nat)
    requires e >= 143 && m < 0x80_0000
    ensures NearestEven(Mag(23, e, m), HalfOf(e, m))
  {
    HugeMag(e, m, 40 + HALF_SCALE);
    var x, top := Mag(23, e, m), Scaled(HALF_INF);
    forall d: nat | d <= HALF_INF && d != HALF_INF ensures NearerEven(x, HALF_INF, top, Scaled(d)) {
      HalfMagMono(d, HALF_INF);
    }
  }

  /** f32_to_f16 rounds every finite single to the nearest half, ties to even, carrying into the exponent and
      into infinity where the neighbours are on both sides of such a step. */
  lemma {:induction false} HalfRoundsNearest(e: nat, m: nat)
    requires e < 255 && m < 0x80_0000
    ensures NearestEven(Mag(23, e, m), HalfOf(e, m))
  {
    if e < 102 {
      TinyRounds(e, m);
    } else if e < 113 {
      SubnormalRounds(e, m);
    } else if e < 143 {
      NormalRounds(e, m);
    } else {
      HugeRounds(e, m);
    }
  }

  /** A single with exactly the value of a half rounds to that half. */
  lemma {:induction false} HalfOfExact(e: nat, m: nat, c: nat)
    requires e < 255 && m < 0x80_0000 && c < HALF_INF
    ensures Mag(23, e, m) == Scaled(c) ==> HalfOf(e, m) == c
  {
    HalfRoundsNearest(e, m);
    var r := HalfOf(e, m);
    if Mag(23, e, m) == Scaled(c) && r != c {
      assert NearerEven(Mag(23, e, m), r, Scaled(r), Scaled(c));
      if r < c { HalfMagMono(r, c); } else { HalfMagMono(c, r); }
    }
  }
}
