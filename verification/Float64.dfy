/**
 * Binary64 numbers of IEEE 754-2008 as bit patterns, with exact values.
 *
 * `Exact(f)` is the value of f times 2^1074, an integer for every finite f, and
 * `i * One()` is the same for an integer i.
 */
module Float64 {
  import opened Powers

  const B52: nat := 0x10_0000_0000_0000
  const B63: nat := 0x8000_0000_0000_0000
  const B64: nat := 0x1_0000_0000_0000_0000

  type Bits = n: int | 0 <= n < 0x1_0000_0000_0000_0000
  type Int64 = n: int | -0x8000_0000_0000_0000 <= n < 0x8000_0000_0000_0000

  /** The magnitude bits of infinity; a larger magnitude is a NaN. */
  const INF: nat := 2047 * 0x10_0000_0000_0000
  /** math.NaN(). */
  const NAN: Bits := 0x7FF8_0000_0000_0001

  predicate Negative(f: Bits) { f >= B63 }
  function Magnitude(f: Bits): nat { f % B63 }
  predicate IsNaN(f: Bits) { Magnitude(f) > INF }
  predicate IsInf(f: Bits) { Magnitude(f) == INF }

  function One(): nat { Pow2(1074) }

  /** The value of magnitude bits: fraction bits below 2^52, biased exponent above. */
  function Scaled(m: nat): nat { if m < B52 then m else (B52 + m % B52) * Pow2(m / B52 - 1) }

  /** Infinity gets the value that follows the largest finite number. */
  function Exact(f: Bits): int { if Negative(f) then 0 - Scaled(Magnitude(f)) else Scaled(Magnitude(f)) }

  // ---- order of magnitudes -----------------------------------------------------------

  /** A significand in [2^52, 2^53] at an exponent, as magnitude bits. */
  lemma {:induction false} ScaledAt(e: nat, q: nat)
    requires B52 <= q <= 2 * B52
    ensures Scaled(e * B52 + q) == q * Pow2(e)
  {
    var m := e * B52 + q;
    if q < 2 * B52 {
      assert m / B52 == e + 1 && m % B52 == q - B52;
    } else {
      assert m / B52 == e + 2 && m % B52 == 0;
      assert Pow2(e + 1) == 2 * Pow2(e);
    }
  }

  lemma {:induction false} ScaledStep(m: nat)
    ensures Scaled(m) < Scaled(m + 1)
  {
    if m + 1 == B52 {
      ScaledAt(0, B52);
    } else if m >= B52 {
      var e, q := m / B52 - 1, B52 + m % B52;
      assert m == e * B52 + q;
      ScaledAt(e, q);
      ScaledAt(e, q + 1);
      Pow2Positive(e);
      assert (q + 1) * Pow2(e) == q * Pow2(e) + Pow2(e);
    }
  }

  lemma {:induction false} ScaledOrder(m: nat, n: nat)
    requires m < n
    ensures Scaled(m) < Scaled(n)
  {
    ScaledStep(n - 1);
    if m < n - 1 { ScaledOrder(m, n - 1); }
  }

  // ---- integers as floats -------------------------------------------------------------

  /** The distance between floats around n. */
  function Gap(n: nat): (u: nat)
    requires n > 0
    ensures u > 0
  {
    Pow2Positive(if Log2(n) <= 52 then 0 else Log2(n) - 52);
    if Log2(n) <= 52 then 1 else Pow2(Log2(n) - 52)
  }

  function FloorMagnitude(n: nat): nat
    requires n > 0
  {
    Pow2Positive(if Log2(n) <= 52 then 0 else Log2(n) - 52);
    var e := Log2(n);
    (e + 1022) * B52 + if e <= 52 then n * Pow2(52 - e) else n / Pow2(e - 52)
  }

  /** float64(n): round to nearest, ties to even. */
  function RoundNat(n: nat): nat {
    if n == 0 then 0
    else
      var q, u := FloorMagnitude(n), Gap(n);
      if 2 * (n % u) > u || (2 * (n % u) == u && q % 2 == 1) then q + 1 else q
  }

  lemma {:induction false} SmallGap(n: nat)
    requires 0 < n <= B63
    ensures 0 < Gap(n) <= 2048 && Log2(n) <= 63
  {
    Pow2Bytes();
    Log2Below(n, 64);
    if Log2(n) > 52 { Pow2Grows(Log2(n) - 52, 11); }
  }

  lemma {:induction false} DivBounds(n: nat, e: nat)
    requires e > 52 && Pow2(e) <= n < 2 * Pow2(e)
    ensures Pow2(e - 52) > 0 && B52 <= n / Pow2(e - 52) < 2 * B52
  {
    var u := Pow2(e - 52);
    Pow2Positive(e - 52);
    Pow2Add(52, e - 52);
    Pow2Bytes();
    hide Pow2;
    assert Pow2(e) == B52 * u;
    DivRange(n, u, B52);
  }

  lemma {:induction false} MulUp(a: int, b: int, u: nat)
    requires a <= b
    ensures a * u <= b * u
  {}

  lemma {:induction false} MulAssoc(a: int, b: int, c: int)
    ensures a * b * c == a * (b * c)
  {}

  lemma {:induction false} DivExact(n: nat, u: nat)
    requires u > 0
    ensures n - n % u == n / u * u && n - n % u + u == (n / u + 1) * u
  {}

  lemma {:induction false} DivRange(n: nat, u: nat, b: nat)
    requires u > 0 && b * u <= n < 2 * b * u
    ensures b <= n / u < 2 * b
  {
    var q, r := n / u, n % u;
    assert n == q * u + r;
    if q < b { MulUp(q + 1, b, u); }
    if q >= 2 * b { MulUp(2 * b, q, u); }
  }

  /** The float at or below n, exactly. */
  lemma {:induction false} FloorExact(n: nat)
    requires n > 0
    ensures Scaled(FloorMagnitude(n)) == (n - n % Gap(n)) * One()
    ensures n % Gap(n) > 0 ==> Scaled(FloorMagnitude(n) + 1) == (n - n % Gap(n) + Gap(n)) * One()
  {
    var e := Log2(n);
    Log2Bounds(n);
    if e <= 52 {
      Pow2Add(e, 52 - e);
      Pow2Add(52 - e, e + 1022);
      FloorSmall(n, e);
    } else {
      DivBounds(n, e);
      FloorLarge(n, e);
    }
  }

  lemma {:induction false} FloorSmall(n: nat, e: nat)
    requires n > 0 && e == Log2(n) <= 52 && Pow2(e) <= n < 2 * Pow2(e)
    ensures Scaled(FloorMagnitude(n)) == n * One()
  {
    var k, p := Pow2(52 - e), Pow2(e + 1022);
    Pow2Positive(52 - e);
    Pow2Add(e, 52 - e);
    Pow2Bytes();
    Pow2Add(52 - e, e + 1022);
    hide Pow2, Scaled, Log2;
    assert Pow2(e) * k == B52 && k * p == One();
    Between(Pow2(e), n, k);
    ScaledAt(e + 1022, n * k);
    MulAssoc(n, k, p);
  }

  lemma {:induction false} Between(a: nat, n: nat, k: nat)
    requires a <= n < 2 * a && k > 0
    ensures a * k <= n * k < 2 * (a * k)
  {}

  lemma {:induction false} FloorLarge(n: nat, e: nat)
    requires n > 0 && e == Log2(n) > 52 && Pow2(e - 52) > 0 && B52 <= n / Pow2(e - 52) < 2 * B52
    ensures Scaled(FloorMagnitude(n)) == (n - n % Gap(n)) * One()
    ensures Scaled(FloorMagnitude(n) + 1) == (n - n % Gap(n) + Gap(n)) * One()
  {
    var u, p := Pow2(e - 52), Pow2(e + 1022);
    var q := n / u;
    DivExact(n, u);
    Pow2Add(e - 52, 1074);
    hide Pow2, Scaled, Log2;
    assert p == u * One();
    ScaledAt(e + 1022, q);
    ScaledAt(e + 1022, q + 1);
    MulAssoc(q, u, One());
    MulAssoc(q + 1, u, One());
  }
  // ---- rounding ----------------------------------------------------------------------

  function Abs(i: int): nat { if i < 0 then 0 - i else i }

  function Cmp(a: int, b: int): int { if a < b then -1 else if a > b then 1 else 0 }

  /** Rounding picks the float below or, if n lies in a gap, the one above. */
  lemma {:induction false} RoundNear(n: nat)
    requires 0 < n <= B63
    ensures FloorMagnitude(n) < INF - 1
    ensures RoundNat(n) == FloorMagnitude(n) || (n % Gap(n) > 0 && RoundNat(n) == FloorMagnitude(n) + 1)
  {
    SmallGap(n);
    var e := Log2(n);
    Log2Bounds(n);
    if e <= 52 {
      Pow2Positive(52 - e);
      Pow2Add(e, 52 - e);
      Pow2Bytes();
      hide Pow2;
      Between(Pow2(e), n, Pow2(52 - e));
    } else { DivBounds(n, e); }
  }

  lemma {:induction false} RoundFinite(n: nat)
    requires n <= B63
    ensures RoundNat(n) < INF
  { if n > 0 { RoundNear(n); } }

  /** float64(i). */
  function OfInt(i: Int64): Bits {
    RoundFinite(Abs(i));
    if i < 0 then B63 + RoundNat(Abs(i)) else RoundNat(i)
  }

  lemma {:induction false} OnePositive()
    ensures One() > 0
  { Pow2Positive(1074); }

  lemma {:induction false} MulLess(a: int, b: int, u: nat)
    requires u > 0
    ensures a < b <==> a * u < b * u
    ensures a == b <==> a * u == b * u
  {
    if a < b { MulUp(a + 1, b, u); }
    if b < a { MulUp(b + 1, a, u); }
  }

  /** n lies between its two neighbours. */
  lemma {:induction false} FloorBounds(n: nat)
    requires n > 0
    ensures Scaled(FloorMagnitude(n)) <= n * One() < Scaled(FloorMagnitude(n) + 1)
    ensures n % Gap(n) == 0 <==> Scaled(FloorMagnitude(n)) == n * One()
  {
    FloorExact(n);
    OnePositive();
    hide One, Scaled, FloorMagnitude, Gap;
    var r, u := n % Gap(n), Gap(n);
    MulLess(n - r, n, One());
    if r > 0 { MulLess(n, n - r + u, One()); }
    else { ScaledStep(FloorMagnitude(n)); }
  }

  /** A representable integer is rounded to itself. */
  lemma {:induction false} RoundExact(n: nat, m: nat)
    requires n <= B63 && Scaled(m) == n * One()
    ensures RoundNat(n) == m
  {
    OnePositive();
    hide One, Scaled;
    if n == 0 {
      ScaledZero();
      if m > 0 { ScaledOrder(0, m); }
    } else {
      FloorBounds(n);
      RoundNear(n);
      var f := FloorMagnitude(n);
      hide FloorMagnitude, RoundNat;
      if m < f { ScaledOrder(m, f); }
      if f + 1 < m { ScaledOrder(f + 1, m); }
    }
  }

  lemma {:induction false} ScaledZero()
    ensures Scaled(0) == 0
  {}

  /** The magnitude bits of 2^63. */
  lemma {:induction false} Two63() returns (m: nat)
    ensures m < INF && Scaled(m) == B63 * One()
  {
    m := RoundNat(B63);
    Pow2Bytes();
    Log2Exact(B63, 63);
    assert Gap(B63) == 2048 && B63 % 2048 == 0;
    FloorExact(B63);
    RoundNear(B63);
  }

  lemma {:induction false} Log2Exact(n: nat, k: nat)
    requires n > 0 && Pow2(k) <= n < 2 * Pow2(k)
    ensures Log2(n) == k
  {
    Log2Bounds(n);
    if Log2(n) < k { Pow2Grows(Log2(n) + 1, k); }
    if k < Log2(n) { Pow2Grows(k + 1, Log2(n)); }
  }

  // ---- conversions between floats and integers ---------------------------------------------

  lemma {:induction false} DivDown(x: nat, u: nat)
    requires u > 0
    ensures 0 <= x / u && x / u * u <= x < (x / u + 1) * u
  {}

  /** The whole part of a magnitude. */
  function Whole(m: nat): (n: nat)
    ensures n * One() <= Scaled(m) < (n + 1) * One()
  {
    OnePositive();
    DivDown(Scaled(m), One());
    Scaled(m) / One()
  }

  lemma {:induction false} WholeOf(m: nat, k: int)
    requires k * One() <= Scaled(m) < (k + 1) * One()
    ensures Whole(m) == k
  {
    OnePositive();
    var n := Whole(m);
    hide One, Scaled, Whole;
    MulLess(n, k + 1, One());
    MulLess(k, n + 1, One());
  }

  /** int64(f): rounding toward zero. */
  function Trunc(f: Bits): int { if Negative(f) then 0 - Whole(Magnitude(f)) else Whole(Magnitude(f)) }

  predicate InRange(f: Bits) { 0 - B63 * One() <= Exact(f) < B63 * One() }

  lemma {:induction false} TruncRange(f: Bits)
    requires InRange(f)
    ensures 0 - B63 <= Trunc(f) < B63
  {
    OnePositive();
    var n := Whole(Magnitude(f));
    hide One, Scaled, Whole;
    if Negative(f) { if n > B63 { MulUp(B63 + 1, n, One()); } }
    else { if n >= B63 { MulUp(B63, n, One()); } }
  }

  /** A float with a fraction is small. */
  lemma {:induction false} FractionSmall(m: nat)
    requires Scaled(m) != Whole(m) * One()
    ensures Scaled(m) < B52 * One()
  {
    OnePositive();
    if m < B52 {
      hide One, Pow2;
      MulUp(1, One(), B52);
    } else {
      var e, q := m / B52 - 1, B52 + m % B52;
      var p := Pow2(e);
      assert Scaled(m) == q * p;
      Pow2Positive(e);
      if e >= 1074 {
        var a := Pow2(e - 1074);
        Pow2Add(e - 1074, 1074);
        hide Pow2, Scaled, Whole;
        assert p == a * One();
        MulAssoc(q, a, One());
        MulLess(q * a, q * a + 1, One());
        WholeOf(m, q * a);
      } else {
        Pow2Grows(e, 1073);
        var h := Pow2(1073);
        assert One() == 2 * h;
        hide Pow2, Scaled, Whole;
        SmallProduct(q, p, h);
      }
    }
  }

  lemma {:induction false} SmallProduct(q: nat, p: nat, h: nat)
    requires q < 2 * B52 && 0 < p <= h
    ensures q * p < B52 * (2 * h)
  {
    MulLess(q, 2 * B52, p);
    MulUp(p, h, 2 * B52);
  }

  /** Truncating and converting back keeps exactly the integers. */
  lemma {:induction false} RoundTripMagnitude(m: nat)
    requires Whole(m) <= B63
    ensures Scaled(RoundNat(Whole(m))) == Scaled(m) <==> Scaled(m) == Whole(m) * One()
  {
    OnePositive();
    var n := Whole(m);
    if Scaled(m) == n * One() {
      RoundExact(n, m);
    } else {
      FractionSmall(m);
      hide One, Scaled, Whole;
      if n >= B52 { MulUp(B52, n, One()); }
      if n > 0 {
        Pow2Bytes();
        Log2Below(n, 52);
        FloorBounds(n);
        RoundNear(n);
      } else {
        ZeroRound();
      }
    }
  }

  lemma {:induction false} ZeroRound()
    ensures RoundNat(0) == 0 && Scaled(0) == 0
  {}

  lemma {:induction false} ExactOfInt(i: Int64)
    ensures Exact(OfInt(i)) == if i < 0 then 0 - Scaled(RoundNat(Abs(i))) else Scaled(RoundNat(i))
  {
    hide Scaled, RoundNat;
    RoundFinite(Abs(i));
  }

  lemma {:induction false} TruncBack(f: Bits)
    requires InRange(f)
    ensures 0 - B63 <= Trunc(f) < B63
    ensures Exact(OfInt(Trunc(f))) == Exact(f) <==> Exact(f) == Trunc(f) * One()
  {
    TruncRange(f);
    var m, t := Magnitude(f), Trunc(f);
    var n := Whole(m);
    hide One, Scaled, RoundNat, Whole, InRange;
    RoundTripMagnitude(m);
    ExactOfInt(t);
    ZeroRound();
    NegTimes(n, One());
  }

  /** floatIsExactInt64. */
  function ExactInt64(f: Bits): (Int64, bool) {
    if IsNaN(f) || IsInf(f) then (0, false)
    else if Exact(f) == 0 then (0, true)
    else if Exact(f) >= B63 * One() || Exact(f) < 0 - B63 * One() then (0, false)
    else
      TruncRange(f);
      var i := Trunc(f);
      if Exact(OfInt(i)) != Exact(f) then (0, false) else (i, true)
  }

  /** It succeeds on exactly the floats that are int64 values. */
  lemma {:induction false} ExactInt64Correct(f: Bits, k: Int64)
    requires !IsNaN(f)
    ensures ExactInt64(f).1 ==> Exact(f) == ExactInt64(f).0 * One() && !IsInf(f)
    ensures Exact(f) == k * One() ==> ExactInt64(f) == (k, true)
  {
    OnePositive();
    if IsInf(f) {
      InfLarge(f);
      MulUp(k, B63, One());
      MulUp(0 - B63, k, One());
      NegTimes(B63, One());
    } else {
      if InRange(f) { TruncBack(f); }
      hide One, Exact, Trunc, OfInt;
      NegTimes(B63, One());
      if Exact(f) == k * One() {
        MulLess(k, B63, One());
        MulUp(0 - B63, k, One());
        MulLess(k, 0, One());
        if Exact(f) != 0 { TruncOfMultiple(f, k); }
      }
    }
  }

  lemma {:induction false} NegTimes(a: int, u: int)
    ensures (0 - a) * u == 0 - a * u
  {}

  lemma {:induction false} TruncOfMultiple(f: Bits, k: int)
    requires Exact(f) == k * One()
    ensures Trunc(f) == k
  {
    OnePositive();
    hide One, Scaled, Whole;
    NegTimes(k, One());
    var a := if Negative(f) then 0 - k else k;
    MulLess(a, a + 1, One());
    WholeOf(Magnitude(f), a);
  }

  lemma {:induction false} InfLarge(f: Bits)
    requires IsInf(f)
    ensures if Negative(f) then Exact(f) < 0 - B63 * One() else Exact(f) > B63 * One()
  {
    var m := Two63();
    ScaledOrder(m, INF);
  }

  /** compareIntFloat. */
  function CompareIntFloat(i: Int64, f: Bits): int {
    if IsNaN(f) then -1
    else if IsInf(f) then (if Negative(f) then 1 else -1)
    else if Exact(f) == 0 then Cmp(i, 0)
    else if Exact(f) >= B63 * One() then -1
    else if Exact(f) < 0 - B63 * One() then 1
    else
      TruncRange(f);
      var t := Trunc(f);
      if Exact(f) >= 0 then
        if i < t then -1 else if i > t then 1 else if Exact(OfInt(t)) != Exact(f) then -1 else 0
      else if Exact(OfInt(t)) == Exact(f) then Cmp(i, t)
      else if i <= t - 1 then -1 else 1
  }

  /** It orders the integer and the float by their exact values. */
  lemma {:induction false} CompareIntFloatExact(i: Int64, f: Bits)
    requires !IsNaN(f)
    ensures CompareIntFloat(i, f) == Cmp(i * One(), Exact(f))
  {
    OnePositive();
    NegTimes(B63, One());
    MulUp(0 - B63, i, One());
    MulLess(i, B63, One());
    MulLess(i, 0, One());
    if IsInf(f) { InfLarge(f); }
    else if InRange(f) && Exact(f) != 0 {
      TruncBack(f);
      TruncNear(f);
      var t := Trunc(f);
      hide One, Exact, Trunc, OfInt;
      MulLess(i, t, One());
      MulLess(t, i, One());
      if i > t { MulUp(t + 1, i, One()); }
      if i < t { MulUp(i, t - 1, One()); }
    }
  }

  /** Rounding toward zero moves by less than one. */
  lemma {:induction false} TruncNear(f: Bits)
    ensures Exact(f) >= 0 && Exact(f) != 0 ==> Trunc(f) * One() <= Exact(f) < (Trunc(f) + 1) * One()
    ensures Exact(f) < 0 ==> (Trunc(f) - 1) * One() < Exact(f) <= Trunc(f) * One()
  {
    var n := Whole(Magnitude(f));
    OnePositive();
    hide One, Scaled, Whole;
    NegTimes(n, One());
    NegTimes(n + 1, One());
  }
}
