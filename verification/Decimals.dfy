/** Exact decimals: normal forms and comparison at any scale. */
module Decimals {
  import opened Bytes
  import opened Values
  import opened Arithmetic

  lemma {:induction false} Pow10Add(m: nat, n: nat)
    ensures Pow10(m + n) == Pow10(m) * Pow10(n)
  {
    if m > 0 { Pow10Add(m - 1, n); }
  }

  lemma Pow10Monotone(m: nat, n: nat)
    requires m <= n
    ensures Pow10(m) <= Pow10(n)
  {
    Pow10Add(m, n - m);
    MulGrows(Pow10(m), Pow10(n - m));
  }

  lemma MulGrows(x: nat, k: nat)
    requires k >= 1
    ensures x <= x * k
  {}

  lemma Pow10Boundary()
    ensures Pow10(38) == 100_000_000_000_000_000_000_000_000_000_000_000_000
    ensures Pow10(38) <= I128_MAX
    ensures Pow10(39) > I128_MAX + 1
  {
    assert Pow10(4) == 10_000;
    Pow10Add(4, 4);
    Pow10Add(8, 8);
    Pow10Add(16, 16);
    Pow10Add(32, 4);
    assert Pow10(38) == 10 * Pow10(37) && Pow10(37) == 10 * Pow10(36);
    assert Pow10(39) == 10 * Pow10(38);
  }

  /** The two decimals as rationals over the common denominator 10^(a.scale + b.scale). */
  function MathCmp(a: Decimal, b: Decimal): Ordering {
    CmpInt(a.mantissa * Pow10(b.scale), b.mantissa * Pow10(a.scale))
  }

  // ---- normal form ----

  /** Trailing mantissa zeros dropped against the scale. */
  method Normalized(d: Decimal) returns (n: Decimal)
    ensures n == Normal(d)
  {
    var mantissa, scale := d.mantissa, d.scale;
    if mantissa == 0 { return Decimal(0, 0); }
    while scale > 0 && mantissa % 10 == 0
      invariant 0 <= scale <= d.scale && mantissa != 0
      invariant -I128_MAX - 1 <= mantissa <= I128_MAX
      invariant Normal(Decimal(mantissa, scale)) == Normal(d)
      decreases scale
    {
      mantissa := mantissa / 10;
      scale := scale - 1;
    }
    return Decimal(mantissa, scale);
  }

  function Normal(d: Decimal): (n: Decimal)
    decreases d.scale
  {
    if d.mantissa == 0 then Decimal(0, 0)
    else if d.scale > 0 && d.mantissa % 10 == 0 then Normal(Decimal(d.mantissa / 10, d.scale - 1))
    else d
  }

  predicate IsNormal(d: Decimal) {
    if d.mantissa == 0 then d.scale == 0 else d.scale == 0 || d.mantissa % 10 != 0
  }

  lemma {:induction false} NormalSound(d: Decimal)
    ensures IsNormal(Normal(d))
    ensures Normal(d).scale <= d.scale
    ensures d.mantissa == Normal(d).mantissa * Pow10(d.scale - Normal(d).scale)
    decreases d.scale
  {
    if d.mantissa != 0 && d.scale > 0 && d.mantissa % 10 == 0 {
      var e := Decimal(d.mantissa / 10, d.scale - 1);
      NormalSound(e);
      var n := Normal(e);
      assert Pow10(d.scale - n.scale) == 10 * Pow10(e.scale - n.scale);
      MulAssoc(n.mantissa, Pow10(e.scale - n.scale));
    }
  }

  lemma MulAssoc(x: int, y: int)
    ensures x * (10 * y) == 10 * (x * y)
  {}

  lemma MulCancel(x: int, y: int, k: int)
    requires k > 0
    ensures CmpInt(x * k, y * k) == CmpInt(x, y)
  {
    if x < y { MulLess(x, y, k); } else if y < x { MulLess(y, x, k); }
  }

  lemma MulLess(x: int, y: int, k: int)
    requires k > 0 && x < y
    ensures x * k < y * k
  {}

  /** Scaling either side by a power of ten leaves the comparison alone. */
  lemma MathCmpAligned(a: Decimal, b: Decimal)
    requires a.scale <= b.scale
    ensures MathCmp(a, b) == CmpInt(a.mantissa * Pow10(b.scale - a.scale), b.mantissa)
  {
    var delta := b.scale - a.scale;
    Pow10Add(delta, a.scale);
    var p, q := Pow10(delta), Pow10(a.scale);
    assert a.mantissa * (p * q) == (a.mantissa * p) * q;
    MulCancel(a.mantissa * p, b.mantissa, q);
  }

  lemma MathCmpReverse(a: Decimal, b: Decimal)
    ensures MathCmp(b, a) == MathCmp(a, b).Reverse()
  {}

  /** Two normal forms of one number are the same pair. */
  lemma NormalUnique(a: Decimal, b: Decimal)
    requires IsNormal(a) && IsNormal(b) && MathCmp(a, b) == Equal && a.scale <= b.scale
    ensures a == b
  {
    MathCmpAligned(a, b);
    var delta := b.scale - a.scale;
    if delta > 0 {
      var k := a.mantissa * Pow10(delta - 1);
      assert b.mantissa == 10 * k by {
        MulAssoc(a.mantissa, Pow10(delta - 1));
      }
      TenTimes(k);
      assert false;
    }
  }

  lemma TenTimes(k: int)
    ensures (10 * k) % 10 == 0
  {}

  lemma NormalEqual(d: Decimal)
    ensures MathCmp(Normal(d), d) == Equal
  {
    NormalSound(d);
    MathCmpAligned(Normal(d), d);
  }

  lemma MathEqualTransitive(a: Decimal, b: Decimal, c: Decimal)
    requires MathCmp(a, b) == Equal && MathCmp(b, c) == Equal
    ensures MathCmp(a, c) == Equal
  {
    CrossEqual(a.mantissa, b.mantissa, c.mantissa, Pow10(a.scale), Pow10(b.scale), Pow10(c.scale));
  }

  lemma SwapFactors(x: int, y: int, z: int)
    ensures (x * y) * z == (x * z) * y
  {}

  /** Equality of fractions is transitive. */
  lemma CrossEqual(a: int, b: int, c: int, pa: nat, pb: nat, pc: nat)
    requires pb > 0 && a * pb == b * pa && b * pc == c * pb
    ensures a * pc == c * pa
  {
    SwapFactors(a, pc, pb);
    SwapFactors(b, pa, pc);
    SwapFactors(c, pb, pa);
    MulCancel(a * pc, c * pa, pb);
  }

  /** Every representation of one number meets on one normal form, and distinct numbers never do. */
  lemma NormalCanonical(a: Decimal, b: Decimal)
    ensures Normal(a) == Normal(b) <==> MathCmp(a, b) == Equal
  {
    var m, n := Normal(a), Normal(b);
    NormalEqual(a);
    NormalEqual(b);
    MathCmpReverse(m, a);
    MathCmpReverse(n, b);
    if m == n {
      MathEqualTransitive(a, m, b);
    }
    if MathCmp(a, b) == Equal {
      MathEqualTransitive(m, a, b);
      MathEqualTransitive(m, b, n);
      NormalSound(a);
      NormalSound(b);
      if m.scale <= n.scale {
        NormalUnique(m, n);
      } else {
        MathCmpReverse(m, n);
        NormalUnique(n, m);
      }
    }
  }

  // ---- comparison with i128 overflow ----

  predicate FitsI128(x: int) {
    -I128_MAX - 1 <= x <= I128_MAX
  }

  function CheckedPow10(n: nat): Option<I128> {
    if FitsI128(Pow10(n)) then Some(Pow10(n)) else None
  }

  /** A power of ten that overflows i128 exceeds every mantissa in magnitude, `i128::MIN` included. */
  lemma OverflowDominates(n: nat)
    requires CheckedPow10(n) == None
    ensures Pow10(n) > I128_MAX + 1
  {
    Pow10Boundary();
    if n <= 38 { Pow10Monotone(n, 38); } else { Pow10Monotone(39, n); }
  }

  function CheckedMul(x: int, y: int): Option<I128> {
    if FitsI128(x * y) then Some(x * y) else None
  }

  function CmpDecimal(a: Decimal, b: Decimal): Ordering {
    if a.scale == b.scale then CmpInt(a.mantissa, b.mantissa)
    else
      var (small, large, flip) := if a.scale < b.scale then (a, b, false) else (b, a, true);
      var scaled := match CheckedPow10(large.scale - small.scale)
        case Some(pow) => CheckedMul(small.mantissa, pow)
        case None => None;
      var ord := match scaled
        case Some(m) => CmpInt(m, large.mantissa)
        case None => if small.mantissa == 0 then CmpInt(0, large.mantissa) else CmpInt(small.mantissa, 0);
      if flip then ord.Reverse() else ord
  }

  lemma ScaledBeyond(m: int, p: int, bound: int)
    requires p > bound >= 0
    ensures m > 0 ==> m * p > bound
    ensures m < 0 ==> m * p < -bound
  {
    if m > 0 { MulGrows(p, m); } else if m < 0 { MulGrows(p, -m); assert m * p == -(p * -m); }
  }

  lemma CmpDecimalAligned(small: Decimal, large: Decimal)
    requires small.scale < large.scale
    ensures CmpDecimal(small, large) == MathCmp(small, large)
  {
    MathCmpAligned(small, large);
    var p := Pow10(large.scale - small.scale);
    if CheckedPow10(large.scale - small.scale) == None {
      OverflowDominates(large.scale - small.scale);
      ScaledBeyond(small.mantissa, p, I128_MAX + 1);
    } else {
      ScaledBeyond(small.mantissa, p, 0);
    }
  }

  /** `cmp_decimal` is the order of the rationals for every i128 mantissa and u32 scale, overflow arms included. */
  lemma CmpDecimalExact(a: Decimal, b: Decimal)
    ensures CmpDecimal(a, b) == MathCmp(a, b)
  {
    if a.scale < b.scale {
      CmpDecimalAligned(a, b);
    } else if b.scale < a.scale {
      CmpDecimalAligned(b, a);
      MathCmpReverse(b, a);
    } else {
      MulCancel(a.mantissa, b.mantissa, Pow10(a.scale));
    }
  }

  function TruncRem(x: int, y: int): int
    requires y > 0
  {
    x - TruncDiv(x, y) * y
  }

  function CmpI64Decimal(i: I64, d: Decimal): Ordering {
    var (whole, frac) := match CheckedPow10(d.scale)
      case Some(pow) => (TruncDiv(d.mantissa, pow), TruncRem(d.mantissa, pow))
      case None => (0, d.mantissa);
    CmpInt(i, whole).Then(CmpInt(0, frac))
  }

  lemma TruncParts(x: int, y: int)
    requires y > 0
    ensures -y < TruncRem(x, y) < y
    ensures x >= 0 ==> TruncRem(x, y) >= 0 && TruncDiv(x, y) >= 0
    ensures x <= 0 ==> TruncRem(x, y) <= 0 && TruncDiv(x, y) <= 0
  {}

  /** Comparing `i` with `whole + frac / pow`, the fraction carrying the number's sign. */
  lemma WholeThenFraction(i: int, m: int, pow: int, whole: int, frac: int)
    requires pow > 0 && m == whole * pow + frac && -pow < frac < pow
    requires m >= 0 ==> frac >= 0 && whole >= 0
    requires m <= 0 ==> frac <= 0 && whole <= 0
    ensures CmpInt(i, whole).Then(CmpInt(0, frac)) == CmpInt(i * pow, m)
  {
    if i < whole {
      MulAtMost(i + 1, whole, pow);
      assert (i + 1) * pow == i * pow + pow;
    } else if i > whole {
      MulAtMost(whole + 1, i, pow);
      assert (whole + 1) * pow == whole * pow + pow;
    }
  }

  lemma MulAtMost(x: int, y: int, k: int)
    requires k > 0 && x <= y
    ensures x * k <= y * k
  {}

  /** `cmp_i64_decimal` is the order of the numbers `i` and `mantissa / 10^scale`. */
  lemma CmpI64DecimalExact(i: I64, d: Decimal)
    ensures CmpI64Decimal(i, d) == CmpInt(i * Pow10(d.scale), d.mantissa)
  {
    var p := Pow10(d.scale);
    if CheckedPow10(d.scale) == None {
      OverflowDominates(d.scale);
      WholeThenFraction(i, d.mantissa, p, 0, d.mantissa);
    } else {
      TruncParts(d.mantissa, p);
      WholeThenFraction(i, d.mantissa, p, TruncDiv(d.mantissa, p), TruncRem(d.mantissa, p));
    }
  }

  // ---- canonical bytes ----

  /** The normal form's mantissa and scale, big-endian, 20 bytes. */
  function ExactBytes(d: Decimal): (s: seq<Byte>)
    ensures |s| == 20
  {
    Be(AsU128(Normal(d).mantissa), 16) + Be(Normal(d).scale, 4)
  }

  /** The bytes identify the number. */
  lemma ExactBytesCanonical(a: Decimal, b: Decimal)
    ensures ExactBytes(a) == ExactBytes(b) <==> MathCmp(a, b) == Equal
  {
    NormalCanonical(a, b);
    if ExactBytes(a) == ExactBytes(b) {
      var m, n := Normal(a), Normal(b);
      Pow256Values();
      assert ExactBytes(a)[..16] == Be(AsU128(m.mantissa), 16) && ExactBytes(a)[16..] == Be(m.scale, 4);
      assert ExactBytes(b)[..16] == Be(AsU128(n.mantissa), 16) && ExactBytes(b)[16..] == Be(n.scale, 4);
      BeRoundTrip(AsU128(m.mantissa), 16);
      BeRoundTrip(AsU128(n.mantissa), 16);
      BeRoundTrip(m.scale, 4);
      BeRoundTrip(n.scale, 4);
    }
  }
}
