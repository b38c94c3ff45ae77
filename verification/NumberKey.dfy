/** Numbers as keys: the float64 total order with a gap offset for integers. */
module NumberKey {
  import opened Float64

  /** canonicalFloat. */
  function Canonical(f: Bits): Bits { if IsNaN(f) then NAN else if Exact(f) == 0 then 0 else f }

  /** orderedFloat. */
  function Ordered(f: Bits): Bits {
    var bits := Canonical(f);
    if bits >= B63 then B64 - 1 - bits else bits + B63
  }

  /** unorderedFloat. */
  function Unordered(u: Bits): Bits { if u >= B63 then u - B63 else B64 - 1 - u }

  lemma {:induction false} UnorderedOrdered(f: Bits)
    ensures Unordered(Ordered(f)) == Canonical(f)
  {}

  lemma {:induction false} ZeroMagnitude(f: Bits)
    ensures Exact(f) == 0 <==> Magnitude(f) == 0
  {
    ScaledZero();
    if Magnitude(f) > 0 { ScaledOrder(0, Magnitude(f)); }
  }

  /** Unsigned order of the codes is the numeric order, with NaN on top. */
  lemma {:induction false} OrderedOrder(f: Bits, g: Bits)
    ensures !IsNaN(f) && !IsNaN(g) ==>
      (Ordered(f) < Ordered(g) <==> Exact(f) < Exact(g)) && (Ordered(f) == Ordered(g) <==> Exact(f) == Exact(g))
    ensures !IsNaN(f) && IsNaN(g) ==> Ordered(f) < Ordered(g)
    ensures IsNaN(f) && IsNaN(g) ==> Ordered(f) == Ordered(g)
  {
    hide Scaled;
    ZeroMagnitude(f);
    ZeroMagnitude(g);
    var m, n := Magnitude(f), Magnitude(g);
    if m < n { ScaledOrder(m, n); }
    if n < m { ScaledOrder(n, m); }
  }

  lemma {:induction false} CanonicalSame(f: Bits)
    ensures Ordered(Canonical(f)) == Ordered(f) && Canonical(Canonical(f)) == Canonical(f)
    ensures IsNaN(Canonical(f)) <==> IsNaN(f)
    ensures !IsNaN(f) ==> Exact(Canonical(f)) == Exact(f)
  {
    ScaledZero();
    hide Scaled;
  }

  /** math.Nextafter toward negative infinity. */
  function NextDown(f: Bits): Bits {
    if IsNaN(f) || (IsInf(f) && Negative(f)) then f
    else if Magnitude(f) == 0 then B63 + 1
    else if Negative(f) then f + 1 else f - 1
  }

  lemma {:induction false} OfIntBits(i: Int64)
    ensures Magnitude(OfInt(i)) == RoundNat(Abs(i)) < INF && (Negative(OfInt(i)) <==> i < 0)
  {
    hide RoundNat, Scaled;
    RoundFinite(Abs(i));
  }

  lemma {:induction false} ZeroInt()
    ensures OfInt(0) == 0 && Exact(0) == 0
  {}

  lemma {:induction false} Distribute(a: int, b: int, u: int)
    ensures a * u + b * u == (a + b) * u
  {}

  /** The float above a gap is still at most 2^63. */
  lemma {:induction false} GapFits(n: nat)
    requires 0 < n <= B63 && n % Gap(n) > 0
    ensures n - n % Gap(n) + Gap(n) <= B63 && FloorMagnitude(n) > 0
  {
    OnePositive();
    var top := Two63();
    FloorExact(n);
    FloorBounds(n);
    var m := FloorMagnitude(n);
    MulUp(n, B63, One());
    assert Scaled(1) == 1;
    MulUp(1, n, One());
    hide One, Scaled, FloorMagnitude;
    if top < m { ScaledOrder(top, m); }
    if m + 1 < top { ScaledOrder(m + 1, top); }
    MulLess(B63, n - n % Gap(n) + Gap(n), One());
  }

  /** splitIntForKey. */
  function SplitInt(i: Int64): (Bits, nat) {
    var f := OfInt(i);
    if ExactInt64(f) == (i, true) then (Canonical(f), 0)
    else
      var lower := if CompareIntFloat(i, f) < 0 then NextDown(f) else f;
      var (li, ok) := ExactInt64(lower);
      if !ok || i - li <= 0 || i - li > 65535 then (Canonical(f), 0) else (Canonical(lower), i - li)
  }

  /** lo is the greatest float at or below x, and off counts the rest. */
  ghost predicate Splits(x: int, lo: Bits, off: nat) {
    && !IsNaN(lo) && Canonical(lo) == lo && off <= 65535 && Exact(lo) + off * One() == x
    && forall g: Bits :: !IsNaN(g) && Exact(g) <= x ==> Exact(g) <= Exact(lo)
  }

  lemma {:induction false} SplitExact(i: Int64)
    requires Exact(OfInt(i)) == i * One()
    ensures SplitInt(i) == (Canonical(OfInt(i)), 0) && Splits(i * One(), Canonical(OfInt(i)), 0)
  {
    var f := OfInt(i);
    OfIntBits(i);
    hide One, Exact, OfInt, Scaled;
    ExactInt64Correct(f, i);
    CanonicalSame(f);
  }

  /** The float just below a gap that holds x. */
  lemma {:induction false} GapBelow(x: int, lo: Bits, hi: Bits, off: nat)
    requires !IsNaN(lo) && !IsInf(lo) && !IsNaN(hi) && Magnitude(hi) > 0 && lo == NextDown(hi) && lo != hi && lo != B63
    requires Exact(lo) + off * One() == x < Exact(hi) && off <= 65535
    ensures Splits(x, Canonical(lo), off)
  {
    CanonicalSame(lo);
    OrderedOrder(lo, hi);
    forall g: Bits | !IsNaN(g) && Exact(g) <= x ensures Exact(g) <= Exact(Canonical(lo)) {
      OrderedOrder(g, hi);
      OrderedOrder(lo, g);
      Adjacent(lo, hi);
    }
  }

  /** Neighbours have neighbouring codes. */
  lemma {:induction false} Adjacent(lo: Bits, hi: Bits)
    requires !IsNaN(lo) && !IsNaN(hi) && Magnitude(hi) > 0 && lo == NextDown(hi) && lo != hi
    ensures Ordered(hi) <= Ordered(lo) + 1
  {
    ZeroMagnitude(lo);
    ZeroMagnitude(hi);
    hide Exact;
  }

  /** Rounding hits one of two neighbours, and SplitInt finds the lower one. */
  lemma {:induction false} SplitBetween(i: Int64, lo: Bits, hi: Bits, li: Int64, high: int)
    requires OfInt(i) == lo || OfInt(i) == hi
    requires !IsNaN(lo) && !IsInf(lo) && !IsNaN(hi) && Magnitude(hi) > 0 && lo == NextDown(hi) && lo != hi && lo != B63
    requires Exact(lo) == li * One() && Exact(hi) == high * One() && li < i < high && i - li <= 65535
    ensures Splits(i * One(), SplitInt(i).0, SplitInt(i).1)
  {
    var f := OfInt(i);
    OnePositive();
    hide One, OfInt, Exact, Splits, NextDown;
    MulLess(li, i, One());
    MulLess(i, high, One());
    Distribute(li, i - li, One());
    ExactInt64Correct(f, i);
    CompareIntFloatExact(i, f);
    ExactInt64Correct(lo, li);
    GapBelow(i * One(), lo, hi, i - li);
    hide CompareIntFloat, ExactInt64, Canonical;
  }

  /** The neighbours of a magnitude in a gap. */
  lemma {:induction false} Neighbours(n: nat)
    requires 0 < n <= B63 && Scaled(RoundNat(n)) != n * One()
    ensures var r, u, m := n % Gap(n), Gap(n), FloorMagnitude(n);
      && 0 < r < u <= 2048 && n - r + u <= B63 && 0 < m < INF - 1
      && Scaled(m) == (n - r) * One() && Scaled(m + 1) == (n - r + u) * One()
      && (RoundNat(n) == m || RoundNat(n) == m + 1)
  {
    RoundNear(n);
    FloorExact(n);
    FloorBounds(n);
    SmallGap(n);
    hide One, Scaled, RoundNat, FloorMagnitude, Gap;
    if n % Gap(n) > 0 { GapFits(n); }
  }

  /** An integer between two floats. */
  lemma {:induction false} SplitGap(i: Int64)
    requires Exact(OfInt(i)) != i * One()
    ensures Splits(i * One(), SplitInt(i).0, SplitInt(i).1)
  {
    var n := Abs(i);
    ZeroInt();
    OfIntBits(i);
    ExactOfInt(i);
    NegTimes(n, One());
    hide One, Scaled, RoundNat, FloorMagnitude, Gap, Splits, SplitInt;
    Neighbours(n);
    if i < 0 { SplitNegative(i, n, n % Gap(n), Gap(n), FloorMagnitude(n)); }
    else { SplitPositive(i, n, n % Gap(n), Gap(n), FloorMagnitude(n)); }
  }

  lemma {:induction false} SplitPositive(i: Int64, n: nat, r: nat, u: nat, m: nat)
    requires i == n && 0 < r < u <= 2048 && n - r + u <= B63 && 0 < m < INF - 1
    requires Scaled(m) == (n - r) * One() && Scaled(m + 1) == (n - r + u) * One()
    requires OfInt(i) == m || OfInt(i) == m + 1
    ensures Splits(i * One(), SplitInt(i).0, SplitInt(i).1)
  {
    hide One, Scaled, Splits, SplitInt, OfInt;
    SplitBetween(i, m, m + 1, n - r, n - r + u);
  }

  lemma {:induction false} SplitNegative(i: Int64, n: nat, r: nat, u: nat, m: nat)
    requires i == 0 - n && 0 < r < u <= 2048 && r <= n && n - r + u <= B63 && 0 < m < INF - 1
    requires Scaled(m) == (n - r) * One() && Scaled(m + 1) == (n - r + u) * One()
    requires OfInt(i) == B63 + m || OfInt(i) == B63 + m + 1
    ensures Splits(i * One(), SplitInt(i).0, SplitInt(i).1)
  {
    NegTimes(n - r + u, One());
    NegTimes(n - r, One());
    hide One, Scaled, Splits, SplitInt, OfInt;
    SplitBetween(i, B63 + m + 1, B63 + m, 0 - (n - r + u), 0 - (n - r));
  }

  /** The split of every integer is exact and takes the greatest float below. */
  lemma {:induction false} SplitIntSplits(i: Int64)
    ensures Splits(i * One(), SplitInt(i).0, SplitInt(i).1)
  {
    hide One, Exact, Splits, SplitInt, OfInt;
    if Exact(OfInt(i)) == i * One() { SplitExact(i); } else { SplitGap(i); }
  }

  // ---- numbers ------------------------------------------------------------------------

  datatype Number = I(i: Int64) | F(f: Bits)

  /** compareFloat. */
  function CompareFloat(a: Bits, b: Bits): int {
    if IsNaN(a) || IsNaN(b) then (if IsNaN(a) && IsNaN(b) then 0 else if IsNaN(a) then 1 else -1)
    else if Exact(a) < Exact(b) then -1 else if Exact(a) > Exact(b) then 1 else 0
  }

  /** compareNumber. */
  function CompareNumber(a: Number, b: Number): int {
    match (a, b)
    case (I(i), I(j)) => Cmp(i, j)
    case (F(f), F(g)) => CompareFloat(f, g)
    case (I(i), F(g)) => CompareIntFloat(i, g)
    case (F(f), I(j)) => 0 - CompareIntFloat(j, f)
  }

  /** What appendNumber writes. */
  function Code(n: Number): (Bits, nat) {
    match n
    case I(i) => var (lo, off) := SplitInt(i); (Ordered(lo), off)
    case F(f) => (Ordered(Canonical(f)), 0)
  }

  predicate NotANumber(n: Number) { n.F? && IsNaN(n.f) }

  ghost function Amount(n: Number): int { if n.I? then n.i * One() else Exact(n.f) }

  /** Order on numbers other than NaN is the order of exact amounts. */
  lemma {:induction false} CompareAmounts(a: Number, b: Number)
    requires !NotANumber(a) && !NotANumber(b)
    ensures CompareNumber(a, b) == Cmp(Amount(a), Amount(b))
  {
    OnePositive();
    hide One, Exact, CompareIntFloat;
    match (a, b) {
      case (I(i), I(j)) => MulLess(i, j, One()); MulLess(j, i, One());
      case (I(i), F(g)) => CompareIntFloatExact(i, g);
      case (F(f), I(j)) => CompareIntFloatExact(j, f);
      case _ =>
    }
  }

  /** The code of a number splits its amount. */
  lemma {:induction false} CodeSplits(n: Number) returns (lo: Bits)
    requires !NotANumber(n)
    ensures Code(n).0 == Ordered(lo) && Splits(Amount(n), lo, Code(n).1)
  {
    match n {
      case I(i) =>
        lo := SplitInt(i).0;
        SplitIntSplits(i);
      case F(f) =>
        lo := Canonical(f);
        CanonicalSame(f);
        hide Exact, One, Canonical, Ordered;
        assert Splits(Exact(f), lo, 0);
    }
  }

  /** Lexicographic order of codes is the order of numbers, across int, float, NaN and zeros. */
  lemma {:induction false} CodeOrder(a: Number, b: Number)
    ensures var (p, x), (q, y) := Code(a), Code(b);
      && x <= 65535 && y <= 65535
      && (CompareNumber(a, b) < 0 <==> p < q || (p == q && x < y))
      && (CompareNumber(a, b) == 0 <==> p == q && x == y)
  {
    if NotANumber(a) || NotANumber(b) { NaNOrder(a, b); }
    else {
      CompareAmounts(a, b);
      var lo := CodeSplits(a);
      var lo' := CodeSplits(b);
      OrderedOrder(lo, lo');
      OnePositive();
      hide Code, CompareNumber, Amount, Exact, Ordered, One;
      MulLess(Code(a).1, Code(b).1, One());
      MulLess(Code(b).1, Code(a).1, One());
      MulUp(0, Code(a).1, One());
      MulUp(0, Code(b).1, One());
    }
  }

  lemma {:induction false} NaNOrder(a: Number, b: Number)
    requires NotANumber(a) || NotANumber(b)
    ensures var (p, x), (q, y) := Code(a), Code(b);
      && x <= 65535 && y <= 65535
      && (CompareNumber(a, b) < 0 <==> p < q || (p == q && x < y))
      && (CompareNumber(a, b) == 0 <==> p == q && x == y)
  {
    var lo, lo';
    if NotANumber(a) { lo := Canonical(a.f); CanonicalSame(a.f); } else { lo := CodeSplits(a); }
    if NotANumber(b) { lo' := Canonical(b.f); CanonicalSame(b.f); } else { lo' := CodeSplits(b); }
    OrderedOrder(lo, lo');
    OrderedOrder(lo', lo);
    hide Exact, Ordered, One, SplitInt;
  }

  // ---- decoding -------------------------------------------------------------------------

  /** Two's complement wrap-around of an int64 addition. */
  function Wrap64(x: int): Int64 { (x + B63) % B64 - B63 }

  /** decodeNumber; None for a gap offset on a float that is no int64. */
  function DecodeNumber(u: Bits, off: nat): (r: (Number, bool)) {
    var f := Unordered(u);
    var (i, ok) := ExactInt64(f);
    if off == 0 then (if IsNaN(f) then F(NAN) else if ok then I(i) else F(f), true)
    else if ok then (I(Wrap64(i + off)), true) else (I(0), false)
  }

  /** Equal numbers have one representative: Int wherever that is exact, and one NaN. */
  function CanonicalNumber(n: Number): Number {
    if n.I? then n
    else if IsNaN(n.f) then F(NAN)
    else if ExactInt64(n.f).1 then I(ExactInt64(n.f).0)
    else n
  }

  /** The float under an int64 is an int64 too. */
  lemma {:induction false} SplitWhole(i: Int64, lo: Bits, off: nat)
    requires Splits(i * One(), lo, off)
    ensures ExactInt64(lo) == (i - off, true) && !IsNaN(lo) && Canonical(lo) == lo
  {
    var least := Least63();
    OnePositive();
    hide One, Exact, ExactInt64, Canonical;
    NegTimes(B63, One());
    MulUp(0 - B63, i, One());
    Distribute(i - off, off, One());
    assert Exact(least) <= Exact(lo);
    MulLess(i - off, 0 - B63, One());
    ExactInt64Correct(lo, i - off);
  }

  lemma {:induction false} Least63() returns (f: Bits)
    ensures !IsNaN(f) && Exact(f) == 0 - B63 * One()
  {
    hide One, Scaled;
    var m := Two63();
    f := B63 + m;
    assert Negative(f) && Magnitude(f) == m;
  }

  lemma {:induction false} WrapSmall(i: Int64)
    ensures Wrap64(i) == i
  {}

  lemma {:induction false} DecodeInt(i: Int64)
    ensures DecodeNumber(Code(I(i)).0, Code(I(i)).1) == (I(i), true)
  {
    hide SplitInt, One, Exact, Ordered, Unordered, Canonical, Splits, ExactInt64, IsNaN;
    var lo, off := SplitInt(i).0, SplitInt(i).1;
    SplitIntSplits(i);
    SplitWhole(i, lo, off);
    UnorderedOrdered(lo);
    WrapSmall(i);
  }

  lemma {:induction false} CanonicalFraction(f: Bits)
    requires !IsNaN(f) && !ExactInt64(f).1
    ensures Canonical(f) == f
  {
    ZeroMagnitude(f);
    hide Exact;
  }

  lemma {:induction false} CanonicalExact(f: Bits)
    requires !IsNaN(f)
    ensures !IsNaN(Canonical(f)) && ExactInt64(Canonical(f)) == ExactInt64(f)
  {
    CanonicalSame(f);
    hide One, Exact, ExactInt64, Canonical;
    ExactInt64Correct(f, ExactInt64(Canonical(f)).0);
    ExactInt64Correct(Canonical(f), ExactInt64(f).0);
    if !ExactInt64(f).1 && !ExactInt64(Canonical(f)).1 { NoExact(f); NoExact(Canonical(f)); }
  }

  lemma {:induction false} NoExact(f: Bits)
    requires !ExactInt64(f).1
    ensures ExactInt64(f).0 == 0
  { hide One, Exact, Trunc, OfInt; }

  /** Decoding the code of a number gives its representative, an equal number. */
  lemma {:induction false} DecodeCode(n: Number)
    ensures DecodeNumber(Code(n).0, Code(n).1) == (CanonicalNumber(n), true)
    ensures CompareNumber(n, CanonicalNumber(n)) == 0
  {
    if n.I? {
      hide Code, DecodeNumber;
      DecodeInt(n.i);
    } else {
      DecodeFloat(n.f);
    }
  }

  lemma {:induction false} DecodeFloat(f: Bits)
    ensures DecodeNumber(Code(F(f)).0, Code(F(f)).1) == (CanonicalNumber(F(f)), true)
    ensures CompareNumber(F(f), CanonicalNumber(F(f))) == 0
  {
    CanonicalSame(f);
    UnorderedOrdered(f);
    if IsNaN(f) {
      hide Exact, ExactInt64, Ordered, Unordered;
    } else {
      CanonicalExact(f);
      ExactInt64Correct(f, 0);
      hide One, Exact, Ordered, Unordered, ExactInt64, Canonical;
      if !ExactInt64(f).1 { CanonicalFraction(f); }
      CompareAmounts(F(f), CanonicalNumber(F(f)));
    }
  }
}
