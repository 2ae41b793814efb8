/** The float conversions on whole bit patterns, signs, infinities and NaNs included, and the choice of the
    shortest lossless form. */
module FloatBits {
  import opened Base
  import opened Floats

  const SIGN16: int := 0x8000
  const SIGN32: int := 0x8000_0000
  const SIGN64: int := 0x8000_0000_0000_0000
  const TWO52: int := 0x10_0000_0000_0000

  function Exp16(h: u16): nat { h / 0x400 % 32 }
  function Frac16(h: u16): nat { h % 0x400 }
  function Exp32(x: u32): nat { x / 0x80_0000 % 256 }
  function Frac32(x: u32): nat { x % 0x80_0000 }
  function Exp64(d: u64): nat { d / TWO52 % 2048 }
  function Frac64(d: u64): nat { d % TWO52 }

  function Sign16(h: u16): nat { h / SIGN16 }
  function Sign32(x: u32): nat { x / SIGN32 }
  function Sign64(d: u64): nat { d / SIGN64 }

  predicate IsNaN16(h: u16) { Exp16(h) == 31 && Frac16(h) != 0 }
  predicate IsNaN32(x: u32) { Exp32(x) == 255 && Frac32(x) != 0 }
  predicate IsNaN64(d: u64) { Exp64(d) == 2047 && Frac64(d) != 0 }

  function Pack32(s: nat, e: nat, m: nat): (x: u32)
    requires s < 2 && e < 256 && m < 0x80_0000
    ensures Sign32(x) == s && Exp32(x) == e && Frac32(x) == m
  {
    s * SIGN32 + e * 0x80_0000 + m
  }

  function Pack64(s: nat, e: nat, m: nat): (d: u64)
    requires s < 2 && e < 2048 && m < TWO52
    ensures Sign64(d) == s && Exp64(d) == e && Frac64(d) == m
  {
    s * SIGN64 + e * TWO52 + m
  }

  lemma {:induction false} Unpack32(x: u32)
    ensures x == Pack32(Sign32(x), Exp32(x), Frac32(x))
  {
  }

  lemma {:induction false} Unpack64(d: u64)
    ensures d == Pack64(Sign64(d), Exp64(d), Frac64(d))
  {
  }

  // ---------------------------------------------------------------- half to single

  lemma {:induction false} WidenHalfFits(e: nat, m: nat)
    requires e < 31 && m < 0x400 == Pow2(10)
    ensures var (e', m') := Widen(10, 13, 112, e, m); e' < 143 && m' < 0x80_0000
    ensures var (e', m') := Widen(10, 13, 112, e, m); Mag(23, e', m') == Mag(10, e, m) * Pow2(HALF_SCALE)
  {
    TwoTo10(); TwoTo13(); TwoTo23();
    WidenExact(10, 13, 112, e, m);
  }

  /** A half's subnormal mantissa, doubled up to its implicit bit. */
  function Normalized(m: nat): (n: nat)
    requires 0 < m < 0x800
    ensures 0x400 <= n < 0x800
    decreases 0x800 - m
  {
    if m >= 0x400 then m else Normalized(2 * m)
  }

  lemma {:induction false} NormalizedIs(m: nat)
    requires 0 < m < 0x800 && Pow2(10) == 0x400
    ensures Normalized(m) == m * Pow2(Shifts(10, m))
    decreases 0x800 - m
  {
    if m < 0x400 {
      NormalizedIs(2 * m);
      var k := Shifts(10, 2 * m);
      MulAssoc(m, 2, Pow2(k));
    }
  }

  function F16ToF32(h: u16): u32 {
    var s, e, m := Sign16(h), Exp16(h), Frac16(h);
    if e == 31 then Pack32(s, 255, m * 0x2000)
    else if e > 0 then Pack32(s, e + 112, m * 0x2000)
    else if m == 0 then Pack32(s, 0, 0)
    else
      TwoTo10();
      ShiftsBound(10, m);
      Pack32(s, 113 - Shifts(10, m), (Normalized(m) - 0x400) * 0x2000)
  }

  /** On finite halves this is widening by 13 mantissa bits with the bias growing by 112. */
  lemma {:induction false} IsWiden(h: u16)
    requires Exp16(h) < 31
    ensures Exp16(h) < 31 && Frac16(h) < 0x400 == Pow2(10)
    ensures var (e, m) := Widen(10, 13, 112, Exp16(h), Frac16(h));
            e < 256 && m < 0x80_0000 && F16ToF32(h) == Pack32(Sign16(h), e, m)
  {
    TwoTo10(); TwoTo13();
    if Exp16(h) == 0 && Frac16(h) > 0 {
      ShiftsBound(10, Frac16(h));
      NormalizedIs(Frac16(h));
    }
  }

  /** f16_to_f32 preserves sign, value and class: finite numbers exactly, infinities and NaNs as such. */
  lemma {:induction false} HalfToSingleExact(h: u16)
    ensures var x := F16ToF32(h);
            && Sign32(x) == Sign16(h)
            && (Exp16(h) < 31 ==>
                  Exp32(x) < 255 && Mag(23, Exp32(x), Frac32(x)) == Mag(10, Exp16(h), Frac16(h)) * Pow2(HALF_SCALE))
            && (Exp16(h) == 31 ==> Exp32(x) == 255 && Frac32(x) == Frac16(h) * 0x2000)
  {
    if Exp16(h) < 31 {
      IsWiden(h);
      WidenHalfFits(Exp16(h), Frac16(h));
    }
  }

  // ---------------------------------------------------------------- single to half

  lemma {:induction false} HalfOfBound(e: nat, m: nat)
    requires e < 255 && m < 0x80_0000
    ensures HalfOf(e, m) <= HALF_INF
  {
    HalfRoundsNearest(e, m);
  }

  function F32ToF16(x: u32): u16 {
    if Exp32(x) == 255 then Sign32(x) * SIGN16 + 0x7c00 + (if Frac32(x) != 0 then 0x200 else 0)
    else
      HalfOfBound(Exp32(x), Frac32(x));
      Sign32(x) * SIGN16 + HalfOf(Exp32(x), Frac32(x))
  }

  /** The unsigned part of a half is its exponent and mantissa fields. */
  lemma {:induction false} HalfFields(s: nat, c: nat)
    requires s < 2 && c <= 0x7fff
    ensures var h: u16 := s * SIGN16 + c; Sign16(h) == s && Exp16(h) == c / 0x400 && Frac16(h) == c % 0x400
  {
  }

  /** f32_to_f16 keeps the sign and rounds every finite single to the nearest half, ties to even. */
  lemma {:induction false} SingleToHalfNearest(x: u32)
    requires Exp32(x) < 255
    ensures var h := F32ToF16(x);
            Sign16(h) == Sign32(x) && NearestEven(Mag(23, Exp32(x), Frac32(x)), h % SIGN16)
  {
    HalfRoundsNearest(Exp32(x), Frac32(x));
    HalfFields(Sign32(x), HalfOf(Exp32(x), Frac32(x)));
  }

  lemma {:induction false} HalfPattern(h: u16)
    ensures h == Sign16(h) * SIGN16 + h % SIGN16
    ensures h % SIGN16 / 0x400 == Exp16(h) && h % SIGN16 % 0x400 == Frac16(h)
    ensures Exp16(h) < 31 ==> h % SIGN16 < HALF_INF
    ensures Exp16(h) == 31 ==> h % SIGN16 == HALF_INF + Frac16(h)
  {
  }

  /** Narrowing undoes widening on every half that is a number. */
  lemma {:induction false} HalfRoundTrip(h: u16)
    requires !IsNaN16(h)
    ensures F32ToF16(F16ToF32(h)) == h
  {
    HalfToSingleExact(h);
    HalfPattern(h);
    var x := F16ToF32(h);
    if Exp16(h) < 31 {
      HalfOfExact(Exp32(x), Frac32(x), h % SIGN16);
    }
  }

  /** encode_float's test: rounding to half and widening back gives the same single exactly when some half has its
      value, and then the half found is that one. */
  lemma {:induction false} HalfFormIff(x: u32)
    requires !IsNaN32(x)
    ensures F16ToF32(F32ToF16(x)) == x <==> exists h: u16 :: F16ToF32(h) == x
    ensures forall h: u16 :: F16ToF32(h) == x ==> F32ToF16(x) == h
  {
    forall h: u16 | F16ToF32(h) == x ensures F32ToF16(x) == h {
      HalfToSingleExact(h);
      HalfRoundTrip(h);
    }
  }

  // ---------------------------------------------------------------- single to double and back

  lemma {:induction false} WidenSingleFits(e: nat, m: nat)
    requires e < 255 && m < 0x80_0000 == Pow2(23)
    ensures var (e', m') := Widen(23, 29, 896, e, m); e' < 1151 && m' < TWO52
    ensures var (e', m') := Widen(23, 29, 896, e, m); Mag(52, e', m') == Mag(23, e, m) * Pow2(925)
  {
    TwoTo23(); TwoTo29(); TwoTo52();
    WidenExact(23, 29, 896, e, m);
  }

  /** The conversion of a single to a double, which is exact. */
  function F32ToF64(x: u32): u64 {
    TwoTo23();
    if Exp32(x) == 255 then Pack64(Sign32(x), 2047, Frac32(x) * 0x2000_0000)
    else
      WidenSingleFits(Exp32(x), Frac32(x));
      var (e, m) := Widen(23, 29, 896, Exp32(x), Frac32(x));
      Pack64(Sign32(x), e, m)
  }

  /** The single with exactly the value of a double that is a number, if there is one: what casting to float and
      comparing back decides. */
  function Narrow(d: u64): Option<u32>
    requires !IsNaN64(d)
  {
    var s, e, m := Sign64(d), Exp64(d), Frac64(d);
    if e == 2047 then Some(Pack32(s, 255, 0))
    else if e == 0 then if m == 0 then Some(Pack32(s, 0, 0)) else None
    else if 897 <= e <= 1150 then
      if m % 0x2000_0000 == 0 then Some(Pack32(s, e - 896, m / 0x2000_0000)) else None
    else if 874 <= e <= 896 then
      var q := Quot(TWO52 + m, Pow2(926 - e));
      if q * Pow2(926 - e) == TWO52 + m then SubnormalFits(e, m); Some(Pack32(s, 0, q)) else None
    else None
  }

  /** Widening a single to a double keeps sign and exact value; infinities and NaNs stay what they are. */
  lemma {:induction false} SingleToDoubleExact(x: u32)
    ensures var d := F32ToF64(x);
            && Sign64(d) == Sign32(x)
            && (Exp32(x) < 255 ==>
                  Exp64(d) < 2047 && Mag(52, Exp64(d), Frac64(d)) == Mag(23, Exp32(x), Frac32(x)) * Pow2(925))
            && (Exp32(x) == 255 ==> Exp64(d) == 2047 && (Frac64(d) == 0 <==> Frac32(x) == 0))
  {
    if Exp32(x) < 255 {
      TwoTo23();
      WidenSingleFits(Exp32(x), Frac32(x));
    }
  }

  lemma {:induction false} QuotBounds(v: nat, d: nat)
    requires TWO52 <= v < 2 * TWO52 && 0x4000_0000 <= d <= TWO52
    ensures 0 < Quot(v, d) < 0x80_0000
  {
    var q := Quot(v, d);
    if q >= 0x80_0000 {
      MulMono(0x80_0000, q, d);
    }
  }

  lemma {:induction false} SubnormalFits(e: nat, m: nat)
    requires 874 <= e <= 896 && m < TWO52
    ensures 0 < Quot(TWO52 + m, Pow2(926 - e)) < 0x80_0000
  {
    TwoTo29(); TwoTo52();
    Pow2Mono(30, 926 - e);
    Pow2Mono(926 - e, 52);
    assert Pow2(30) == 2 * Pow2(29);
    QuotBounds(TWO52 + m, Pow2(926 - e));
  }

  lemma {:induction false} QuotExact(q: nat, d: nat)
    requires d >= 1
    ensures Quot(q * d, d) == q
  {
    var r := Quot(q * d, d);
    if r < q {
      MulStep(r, q, d);
    } else if q < r {
      MulStep(q, r, d);
    }
  }

  lemma {:induction false} NormalDouble(x: u32)
    requires 1 <= Exp32(x) < 255
    ensures var d := F32ToF64(x);
            Sign64(d) == Sign32(x) && Exp64(d) == Exp32(x) + 896 && Frac64(d) == Frac32(x) * 0x2000_0000
  {
    TwoTo23(); TwoTo29();
    WidenSingleFits(Exp32(x), Frac32(x));
  }

  lemma {:induction false} NarrowNormalAt(x: u32, d: u64)
    requires 1 <= Exp32(x) < 255
    requires Sign64(d) == Sign32(x) && Exp64(d) == Exp32(x) + 896 && Frac64(d) == Frac32(x) * 0x2000_0000
    ensures !IsNaN64(d) && Narrow(d) == Some(x)
  {
    Unpack32(x);
  }

  lemma {:induction false} NarrowNormal(x: u32)
    requires 1 <= Exp32(x) < 255
    ensures !IsNaN64(F32ToF64(x)) && Narrow(F32ToF64(x)) == Some(x)
  {
    NormalDouble(x);
    NarrowNormalAt(x, F32ToF64(x));
  }

  /** The double of a subnormal single, field by field; p and p + dp are the mantissa widths. */
  lemma {:induction false} SubnormalDouble(x: u32, p: nat, dp: nat)
    requires Exp32(x) == 0 && Frac32(x) > 0 && p == 23 && dp == 29
    ensures var k, d := Shifts(p, Frac32(x)), F32ToF64(x);
            && 1 <= k <= p && Sign64(d) == Sign32(x) && Exp64(d) == 897 - k
            && Pow2(p + dp) + Frac64(d) == Frac32(x) * Pow2(k + dp)
  {
    DoubleFields(x);
    WidenSubnormal(p, dp, 896, Frac32(x));
  }

  /** The fields of a finite single's double are the widened ones. */
  lemma {:induction false} DoubleFields(x: u32)
    requires Exp32(x) < 255
    ensures Frac32(x) < Pow2(23)
    ensures var (e, m) := Widen(23, 29, 896, Exp32(x), Frac32(x));
            Sign64(F32ToF64(x)) == Sign32(x) && Exp64(F32ToF64(x)) == e && Frac64(F32ToF64(x)) == m
  {
    TwoTo23();
    WidenSingleFits(Exp32(x), Frac32(x));
  }

  lemma {:induction false} NarrowSubnormalAt(x: u32, d: u64, k: nat)
    requires Exp32(x) == 0 && Frac32(x) > 0 && 1 <= k <= 23
    requires Sign64(d) == Sign32(x) && Exp64(d) == 897 - k && TWO52 + Frac64(d) == Frac32(x) * Pow2(k + 29)
    ensures !IsNaN64(d) && Narrow(d) == Some(x)
  {
    QuotExact(Frac32(x), Pow2(k + 29));
    Unpack32(x);
  }

  lemma {:induction false} NarrowSubnormal(x: u32, p: nat, dp: nat)
    requires Exp32(x) == 0 && Frac32(x) > 0 && p == 23 && dp == 29
    ensures !IsNaN64(F32ToF64(x)) && Narrow(F32ToF64(x)) == Some(x)
  {
    SubnormalDouble(x, p, dp);
    TwoTo52();
    NarrowSubnormalAt(x, F32ToF64(x), Shifts(p, Frac32(x)));
  }

  /** Every single that is a number is found again from its double. */
  lemma {:induction false} NarrowWiden(x: u32)
    requires !IsNaN32(x)
    ensures !IsNaN64(F32ToF64(x)) && Narrow(F32ToF64(x)) == Some(x)
  {
    Unpack32(x);
    if Exp32(x) == 255 {
    } else if Exp32(x) > 0 {
      NarrowNormal(x);
    } else if Frac32(x) > 0 {
      NarrowSubnormal(x, 23, 29);
    }
  }

  lemma {:induction false} WidenNarrowNormal(d: u64)
    requires 897 <= Exp64(d) <= 1150 && Frac64(d) % 0x2000_0000 == 0
    ensures F32ToF64(Narrow(d).value) == d
  {
    var x := Narrow(d).value;
    NormalDouble(x);
    Unpack64(d);
    Unpack64(F32ToF64(x));
  }

  /** An exact quotient has the double's value. */
  lemma {:induction false} SubnormalValue(e: nat, m: nat, q: nat)
    requires 874 <= e <= 896 && q * Pow2(926 - e) == TWO52 + m
    ensures Mag(52, e, m) == q * Pow2(925)
  {
    TwoTo52();
    Pow2Add(926 - e, e - 1);
    MulAssoc(q, Pow2(926 - e), Pow2(e - 1));
  }

  lemma {:induction false} WidensTo(e: nat, m: nat, q: nat)
    requires 874 <= e <= 896 && m < TWO52 && q < 0x80_0000 == Pow2(23) && q * Pow2(926 - e) == TWO52 + m
    ensures Widen(23, 29, 896, 0, q) == (e, m)
  {
    TwoTo52();
    WidenSingleFits(0, q);
    SubnormalValue(e, m, q);
    var (e', m') := Widen(23, 29, 896, 0, q);
    MagInjective(52, e, m, e', m');
  }

  lemma {:induction false} WidenNarrowSubnormal(d: u64)
    requires 874 <= Exp64(d) <= 896 && Narrow(d).Some?
    ensures F32ToF64(Narrow(d).value) == d
  {
    var e, m := Exp64(d), Frac64(d);
    var q := Quot(TWO52 + m, Pow2(926 - e));
    SubnormalFits(e, m);
    TwoTo23();
    WidensTo(e, m, q);
    Unpack64(d);
  }

  /** Narrow finds a single exactly when one widens to the double: the cast-and-compare test is exact. */
  lemma {:induction false} NarrowIff(d: u64, x: u32)
    requires !IsNaN64(d)
    ensures Narrow(d) == Some(x) <==> F32ToF64(x) == d
  {
    if Narrow(d) == Some(x) {
      Unpack64(d);
      if 897 <= Exp64(d) <= 1150 {
        WidenNarrowNormal(d);
      } else if 874 <= Exp64(d) <= 896 {
        WidenNarrowSubnormal(d);
      }
    } else if F32ToF64(x) == d {
      if IsNaN32(x) { NaNWidens(x); } else { NarrowWiden(x); }
    }
  }

  lemma {:induction false} NaNWidens(x: u32)
    requires IsNaN32(x)
    ensures IsNaN64(F32ToF64(x))
  {
  }

  // ---------------------------------------------------------------- the originals, bit by bit

  /** The loop of f16_to_f32 that normalises a subnormal; the exponent wraps below zero on the way. */
  method NormalizeHalf(m0: u16) returns (e: u32, m: u32)
    requires 0 < m0 < 0x400
    ensures m == Normalized(m0)
    ensures 1 <= Shifts(10, m0) <= 10 && e == 0x1_0000_0000 - Shifts(10, m0)
  {
    TwoTo10();
    ShiftsBound(10, m0);
    e, m := 0, m0;
    ghost var j := 0;
    while m / 0x400 % 2 == 0
      invariant 0 < m < 0x800 && Normalized(m) == Normalized(m0)
      invariant Shifts(10, m0) == j + Shifts(10, m)
      invariant e == if j == 0 then 0 else 0x1_0000_0000 - j
      decreases 0x800 - m
    {
      NormalizeStep(m);
      m := 2 * m;
      e := if e == 0 then 0xffff_ffff else e - 1;
      j := j + 1;
    }
    NormalizeDone(m);
  }

  lemma {:induction false} NormalizeStep(m: nat)
    requires 0 < m < 0x800 && m / 0x400 % 2 == 0
    ensures m < 0x400 && Normalized(2 * m) == Normalized(m) && Shifts(10, m) == 1 + Shifts(10, 2 * m)
  {
    TwoTo10();
  }

  lemma {:induction false} NormalizeDone(m: nat)
    requires 0 < m < 0x800 && m / 0x400 % 2 != 0
    ensures Normalized(m) == m && Shifts(10, m) == 0
  {
    TwoTo10();
  }

  /** An exponent that wrapped below zero comes back when the bias is added. */
  lemma {:induction false} WrapBack(e: u32)
    requires 0x1_0000_0000 - 10 <= e
    ensures ((e + 1) % 0x1_0000_0000 + 112) % 0x1_0000_0000 == e + 113 - 0x1_0000_0000
  {
  }

  /** The subnormal branch of f16_to_f32. */
  method SubnormalToSingle(sign: nat, m0: u16) returns (out: u32)
    requires sign < 2 && 0 < m0 < 0x400
    ensures 1 <= Shifts(10, m0) <= 10
    ensures out == Pack32(sign, 113 - Shifts(10, m0), (Normalized(m0) - 0x400) * 0x2000)
  {
    var e, m := NormalizeHalf(m0);
    WrapBack(e);
    e := (e as int + 1) % 0x1_0000_0000;
    m := m - 0x400;
    out := sign * 0x8000_0000 + (e as int + 112) % 0x1_0000_0000 * 0x80_0000 + m as int * 0x2000;
  }

  /** f16_to_f32. */
  method HalfToSingle(h: u16) returns (out: u32)
    ensures out == F16ToF32(h)
  {
    var sign: nat := h / 0x8000;
    var e: nat := h / 0x400 % 32;
    var m: nat := h % 0x400;
    if e == 0 {
      if m == 0 {
        out := sign * 0x8000_0000;
      } else {
        out := SubnormalToSingle(sign, m);
      }
    } else if e == 31 {
      out := sign * 0x8000_0000 + 0x7f80_0000 + m * 0x2000;
    } else {
      out := sign * 0x8000_0000 + (e - 15 + 127) * 0x80_0000 + m * 0x2000;
    }
  }

  /** The subnormal branch of f32_to_f16: a variable shift, rounded. */
  method ShiftRounded(m: nat, shift: nat) returns (half: nat)
    requires 1 <= shift
    ensures half == Rne(m, Pow2(shift))
  {
    half := Quot(m, Pow2(shift));
    var rem := m - half * Pow2(shift);
    var mid := Pow2(shift - 1);
    if rem > mid || (rem == mid && half % 2 == 1) { half := half + 1; }
  }

  /** The normal branch of f32_to_f16, which may carry into the exponent. */
  method RoundedNormal(e: nat, m: nat) returns (half: nat)
    requires m < 0x80_0000
    ensures half == Rne(e * 0x80_0000 + m, 0x2000)
  {
    half := e * 0x400 + m / 0x2000;
    var rem := m % 0x2000;
    RneIs(e * 0x80_0000 + m, 0x2000, half, rem);
    if rem > 0x1000 || (rem == 0x1000 && half % 2 == 1) { half := half + 1; }
  }

  /** f32_to_f16 on a finite number, sign aside. */
  method FiniteToHalf(biased: nat, m: nat) returns (half: nat)
    requires biased < 255 && m < 0x80_0000
    ensures half == HalfOf(biased, m)
  {
    var e := biased - 127 + 15;
    if e >= 31 { return 0x7c00; }
    if e <= 0 {
      if e < -10 { return 0; }
      half := ShiftRounded(m + 0x80_0000, 14 - e);
      return;
    }
    half := RoundedNormal(e, m);
  }

  /** f32_to_f16. */
  method SingleToHalf(x: u32) returns (h: u16)
    ensures h == F32ToF16(x)
  {
    var sign := x / 0x8000_0000 * 0x8000;
    var biased := x / 0x80_0000 % 256;
    var m := x % 0x80_0000;
    if biased == 255 { return sign + 0x7c00 + (if m != 0 then 0x200 else 0); }
    HalfOfBound(biased, m);
    var half := FiniteToHalf(biased, m);
    h := sign + half;
  }

  // ---------------------------------------------------------------- the shortest lossless form

  const CANONICAL_NAN: u16 := 0x7e00

  /** The preferred serialization of a double: half if exact, else single if exact, else double. */
  function FloatBytes(d: u64): (s: seq<u8>)
    ensures s != []
  {
    if IsNaN64(d) then [0xf9] + BE(2, CANONICAL_NAN)
    else
      match Narrow(d)
      case None => [0xfb] + BE(8, d)
      case Some(f) => if F16ToF32(F32ToF16(f)) == f then [0xf9] + BE(2, F32ToF16(f)) else [0xfa] + BE(4, f)
  }

  /** Every NaN is written as the one canonical quiet NaN. */
  lemma {:induction false} NaNForm(d: u64)
    requires IsNaN64(d)
    ensures FloatBytes(d) == [0xf9, 0x7e, 0x00]
  {
    assert BE(1, 0x7e) == BE(0, 0) + [0x7e];
    assert BE(2, 0x7e00) == BE(1, 0x7e) + [0x00];
  }

  /** What f32_to_f16 makes of the singles that are not finite. */
  lemma {:induction false} NonFiniteToHalf(x: u32)
    requires Exp32(x) == 255
    ensures F32ToF16(x) == Sign32(x) * 0x8000 + 0x7c00 + if Frac32(x) != 0 then 0x200 else 0
  {
  }

  /** The double a half decodes to. */
  function F16ToF64(h: u16): u64 {
    F32ToF64(F16ToF32(h))
  }

  lemma {:induction false} NumbersStay(h: u16, x: u32)
    ensures IsNaN32(F16ToF32(h)) <==> IsNaN16(h)
    ensures IsNaN64(F32ToF64(x)) <==> IsNaN32(x)
  {
    HalfToSingleExact(h);
    if IsNaN32(x) {
      NaNWidens(x);
    } else {
      NarrowWiden(x);
    }
  }

  /** The two-byte form is chosen exactly when some half has the double's value, the four-byte form exactly when
      none has but some single does; and the form chosen holds that very number. */
  lemma {:induction false} ShortestForm(d: u64)
    requires !IsNaN64(d)
    ensures |FloatBytes(d)| == 3 <==> exists h: u16 :: F16ToF64(h) == d
    ensures |FloatBytes(d)| == 5 <==> (forall h: u16 :: F16ToF64(h) != d) && exists x: u32 :: F32ToF64(x) == d
    ensures forall h: u16 :: F16ToF64(h) == d ==> FloatBytes(d) == [0xf9] + BE(2, h)
    ensures (forall h: u16 :: F16ToF64(h) != d) ==>
              forall x: u32 :: F32ToF64(x) == d ==> FloatBytes(d) == [0xfa] + BE(4, x)
  {
    forall x: u32 ensures Narrow(d) == Some(x) <==> F32ToF64(x) == d {
      NarrowIff(d, x);
    }
    if Narrow(d).Some? {
      var f := Narrow(d).value;
      NumbersStay(0, f);
      HalfFormIff(f);
      forall h: u16 ensures F16ToF64(h) == d <==> F16ToF32(h) == f {
        NarrowIff(d, F16ToF32(h));
      }
      if F16ToF32(F32ToF16(f)) == f {
        assert F16ToF64(F32ToF16(f)) == d;
      }
    } else {
      forall h: u16 ensures F16ToF64(h) != d {
        NarrowIff(d, F16ToF32(h));
      }
    }
  }
}
