/** java.math.BigDecimal, exactly: a value is unscaled / 10^scale. Equality
    of the datatype is BigDecimal.equals (1.0 and 1.00 differ); CompareTo
    compares numeric values only. */
module BigDecimals {

  datatype Decimal = Decimal(unscaled: int, scale: nat)

  /** BigDecimal.ZERO: unscaled 0 at scale 0. */
  const Zero := Decimal(0, 0)

  function Pow10(n: nat): (p: nat)
    ensures p >= 1
  {
    if n == 0 then 1 else 10 * Pow10(n - 1)
  }

  lemma {:induction false} Pow10Add(m: nat, n: nat)
    ensures Pow10(m + n) == Pow10(m) * Pow10(n)
  {
    if m > 0 {
      Pow10Add(m - 1, n);
      assert Pow10(m + n) == 10 * Pow10(m - 1 + n);
    }
  }

  /** The number a decimal stands for. */
  ghost function Value(d: Decimal): real
  {
    Fraction(d.unscaled, Pow10(d.scale))
  }

  /** The rational number n / d. */
  ghost function Fraction(n: int, d: int): real
    requires d != 0
  {
    n as real / d as real
  }

  function Max(a: nat, b: nat): nat
  {
    if a < b then b else a
  }

  /** BigDecimal.valueOf(long): the integer n at scale 0. */
  function ValueOf(n: int): (d: Decimal)
    ensures Value(d) == n as real && d.scale == 0
  {
    Decimal(n, 0)
  }

  /** The unscaled value of `d` once written at the (larger) scale `s`. */
  function Rescaled(d: Decimal, s: nat): int
    requires d.scale <= s
  {
    d.unscaled * Pow10(s - d.scale)
  }

  lemma RescaledValue(d: Decimal, s: nat)
    requires d.scale <= s
    ensures Value(Decimal(Rescaled(d, s), s)) == Value(d)
  {
    Pow10Add(s - d.scale, d.scale);
    FractionScale(d.unscaled, Pow10(s - d.scale), Pow10(d.scale), Rescaled(d, s), Pow10(s));
  }

  /** (u * k) / (k * p) == u / p */
  lemma FractionScale(u: int, k: int, p: int, num: int, den: int)
    requires k > 0 && p > 0 && num == u * k && den == k * p
    ensures num as real / den as real == u as real / p as real
  {
    CastMultiply(u, k);
    CastMultiply(k, p);
    var x := u as real / p as real;
    assert u as real == x * p as real;
    assert num as real == x * den as real;
  }

  lemma RescaledTwice(d: Decimal, s: nat, t: nat)
    requires d.scale <= s <= t
    ensures Rescaled(Decimal(Rescaled(d, s), s), t) == Rescaled(d, t)
  {
    Pow10Add(s - d.scale, t - s);
    assert t - d.scale == (s - d.scale) + (t - s);
    assert d.unscaled * (Pow10(s - d.scale) * Pow10(t - s)) == (d.unscaled * Pow10(s - d.scale)) * Pow10(t - s);
  }

  lemma RescaledSum(x: int, y: int, s: nat, t: nat)
    requires s <= t
    ensures Rescaled(Decimal(x + y, s), t) == Rescaled(Decimal(x, s), t) + Rescaled(Decimal(y, s), t)
  {
    assert (x + y) * Pow10(t - s) == x * Pow10(t - s) + y * Pow10(t - s);
  }

  /** BigDecimal.add: exact, at the larger of the two scales. */
  function Add(a: Decimal, b: Decimal): (r: Decimal)
    ensures r.scale == Max(a.scale, b.scale)
  {
    var s := Max(a.scale, b.scale);
    Decimal(Rescaled(a, s) + Rescaled(b, s), s)
  }

  lemma AddValue(a: Decimal, b: Decimal)
    ensures Value(Add(a, b)) == Value(a) + Value(b)
  {
    var s := Max(a.scale, b.scale);
    RescaledValue(a, s);
    RescaledValue(b, s);
    SumOfFractions(Rescaled(a, s), Rescaled(b, s), Pow10(s));
  }

  lemma SumOfFractions(x: int, y: int, p: int)
    requires p > 0
    ensures (x + y) as real / p as real == x as real / p as real + y as real / p as real
  {
  }

  lemma AddCommutative(a: Decimal, b: Decimal)
    ensures Add(a, b) == Add(b, a)
  {
  }

  lemma AddAssociative(a: Decimal, b: Decimal, c: Decimal)
    ensures Add(Add(a, b), c) == Add(a, Add(b, c))
  {
    var ab, bc := Max(a.scale, b.scale), Max(b.scale, c.scale);
    var m := Max(ab, c.scale);
    assert m == Max(a.scale, bc);
    RescaledSum(Rescaled(a, ab), Rescaled(b, ab), ab, m);
    RescaledTwice(a, ab, m);
    RescaledTwice(b, ab, m);
    RescaledSum(Rescaled(b, bc), Rescaled(c, bc), bc, m);
    RescaledTwice(b, bc, m);
    RescaledTwice(c, bc, m);
  }

  /** BigDecimal.multiply: exact, at the sum of the two scales. */
  function Multiply(a: Decimal, b: Decimal): (r: Decimal)
    ensures r.scale == a.scale + b.scale
  {
    Decimal(a.unscaled * b.unscaled, a.scale + b.scale)
  }

  lemma MultiplyValue(a: Decimal, b: Decimal)
    ensures Value(Multiply(a, b)) == Value(a) * Value(b)
  {
    Pow10Add(a.scale, b.scale);
    QuotientProduct(a.unscaled, b.unscaled, Pow10(a.scale), Pow10(b.scale));
  }

  lemma CastMultiply(x: int, y: int)
    ensures (x * y) as real == x as real * y as real
  {
  }

  lemma QuotientProduct(x: int, y: int, p: int, q: int)
    requires p > 0 && q > 0
    ensures (x * y) as real / (p * q) as real == (x as real / p as real) * (y as real / q as real)
  {
    var a, b := x as real / p as real, y as real / q as real;
    assert x as real == a * p as real && y as real == b * q as real;
    assert (x * y) as real == x as real * y as real;
    assert (p * q) as real == p as real * q as real;
    assert (x * y) as real == (a * b) * (p * q) as real;
  }

  /** BigDecimal.compareTo: -1, 0 or 1 as `a` is numerically below, equal
      to or above `b`, whatever the scales. */
  function CompareTo(a: Decimal, b: Decimal): int
  {
    var s := Max(a.scale, b.scale);
    var x, y := Rescaled(a, s), Rescaled(b, s);
    if x < y then -1 else if x == y then 0 else 1
  }

  lemma CompareToValue(a: Decimal, b: Decimal)
    ensures CompareTo(a, b) < 0 <==> Value(a) < Value(b)
    ensures CompareTo(a, b) == 0 <==> Value(a) == Value(b)
    ensures CompareTo(a, b) > 0 <==> Value(a) > Value(b)
  {
    var s := Max(a.scale, b.scale);
    RescaledValue(a, s);
    RescaledValue(b, s);
    DivideByPositive(Rescaled(a, s), Rescaled(b, s), Pow10(s));
  }

  lemma DivideByPositive(x: int, y: int, p: nat)
    requires p > 0
    ensures x < y <==> x as real / p as real < y as real / p as real
    ensures x == y <==> x as real / p as real == y as real / p as real
  {
    var q := p as real;
    assert x as real == (x as real / q) * q;
    assert y as real == (y as real / q) * q;
  }

  /** BigDecimal.equals, which datatype equality models: the same value at
      the same scale. */
  lemma DecimalEquality(a: Decimal, b: Decimal)
    ensures a == b <==> Value(a) == Value(b) && a.scale == b.scale
  {
    if a.scale == b.scale {
      DivideByPositive(a.unscaled, b.unscaled, Pow10(a.scale));
    }
  }

  /** The `compareTo(BigDecimal.ZERO) > 0` test of the cart code. */
  predicate IsPositive(d: Decimal)
  {
    CompareTo(d, Zero) > 0
  }

  lemma IsPositiveMeans(d: Decimal)
    ensures IsPositive(d) <==> d.unscaled > 0
    ensures IsPositive(d) <==> Value(d) > 0.0
  {
    CompareToValue(d, Zero);
    DivideByPositive(0, d.unscaled, Pow10(d.scale));
  }

  /** q is n / d rounded to an integer, with halves rounded away from zero
      (RoundingMode.HALF_UP): the error q*d - n lies in (-d/2, d/2] when
      n >= 0 and in [-d/2, d/2) when n < 0. */
  predicate IsHalfUpQuotient(n: int, d: int, q: int)
    requires d > 0
  {
    if n >= 0 then -d < 2 * (q * d - n) <= d
    else -d <= 2 * (q * d - n) < d
  }

  /** The same rounding stated on the exact quotient x. */
  ghost predicate IsHalfUpRounding(x: real, q: int)
  {
    if x >= 0.0 then x - 0.5 < q as real <= x + 0.5
    else x - 0.5 <= q as real < x + 0.5
  }

  /** Integer division rounding HALF_UP: divide the magnitudes, round up when
      twice the remainder reaches the divisor, then restore the sign. */
  function RoundHalfUp(n: int, d: int): int
    requires d > 0
  {
    var a := if n < 0 then -n else n;
    if n < 0 then -RoundMagnitude(a, d) else RoundMagnitude(a, d)
  }

  /** a / d rounded to the nearest integer, halves upwards. */
  function RoundMagnitude(a: nat, d: int): int
    requires d > 0
  {
    if 2 * (a % d) >= d then a / d + 1 else a / d
  }

  lemma RoundHalfUpIsHalfUp(n: int, d: int)
    requires d > 0
    ensures IsHalfUpQuotient(n, d, RoundHalfUp(n, d))
  {
    var a := if n < 0 then -n else n;
    assert a == (a / d) * d + a % d;
    assert (a / d + 1) * d == (a / d) * d + d;
  }

  lemma HalfUpQuotientUnique(n: int, d: int, q1: int, q2: int)
    requires d > 0
    requires IsHalfUpQuotient(n, d, q1) && IsHalfUpQuotient(n, d, q2)
    ensures q1 == q2
  {
    assert (q1 - q2) * d == (q1 * d - n) - (q2 * d - n);
    MultipleBetween(q1 - q2, d);
  }

  lemma MultipleBetween(k: int, d: int)
    requires d > 0 && -d < k * d < d
    ensures k == 0
  {
    ProductBounds(k, d);
  }

  lemma ProductBounds(k: int, d: int)
    requires d > 0
    ensures k >= 1 ==> k * d >= d
    ensures k <= -1 ==> k * d <= -d
  {
    assert k * d == (k - 1) * d + d == (k + 1) * d - d;
    if k >= 1 {
      assert (k - 1) * d >= 0;
    } else if k <= -1 {
      assert (k + 1) * d <= 0;
    }
  }

  lemma HalfUpQuotientIsRounding(n: int, d: int, q: int)
    requires d > 0
    ensures IsHalfUpQuotient(n, d, q) <==> IsHalfUpRounding(n as real / d as real, q)
  {
    var x, dr := n as real / d as real, d as real;
    assert n as real == x * dr;
    CastMultiply(q, d);
    ErrorScaled(q * d - n, d, q as real - x);
    ErrorScaled(n, d, x);
  }
  lemma ErrorScaled(e: int, d: int, t: real)
    requires d > 0 && e as real == t * d as real
    ensures -d < 2 * e <==> -0.5 < t
    ensures -d <= 2 * e <==> -0.5 <= t
    ensures 2 * e < d <==> t < 0.5
    ensures 2 * e <= d <==> t <= 0.5
    ensures e >= 0 <==> t >= 0.0
  {
    ScaleByPositive(t, d as real, e as real);
  }
  lemma ScaleByPositive(t: real, d: real, s: real)
    requires d > 0.0 && s == t * d
    ensures -d < 2.0 * s <==> -0.5 < t
    ensures -d <= 2.0 * s <==> -0.5 <= t
    ensures 2.0 * s < d <==> t < 0.5
    ensures 2.0 * s <= d <==> t <= 0.5
    ensures s >= 0.0 <==> t >= 0.0
  {
    SignOfProduct(2.0 * t + 1.0, d, 2.0 * s + d);
    SignOfProduct(1.0 - 2.0 * t, d, d - 2.0 * s);
    SignOfProduct(t, d, s);
  }

  lemma SignOfProduct(a: real, d: real, p: real)
    requires d > 0.0 && p == a * d
    ensures p > 0.0 <==> a > 0.0
    ensures p >= 0.0 <==> a >= 0.0
  {
  }

  /** BigDecimal.divide(divisor, scale, RoundingMode.HALF_UP): the exact
      quotient a / b, rounded HALF_UP to `scale` decimal places. */
  function DivideHalfUp(a: Decimal, b: Decimal, scale: nat): (r: Decimal)
    requires b.unscaled != 0
    ensures r.scale == scale
  {
    var n := a.unscaled * (Pow10(b.scale) * Pow10(scale));
    var d := b.unscaled * Pow10(a.scale);
    Decimal(QuotientHalfUp(n, d), scale)
  }

  /** n / d rounded HALF_UP, for a divisor of either sign. */
  function QuotientHalfUp(n: int, d: int): int
    requires d != 0
  {
    if d > 0 then RoundHalfUp(n, d) else RoundHalfUp(-n, -d)
  }

  lemma DivideHalfUpValue(a: Decimal, b: Decimal, scale: nat)
    requires b.unscaled != 0
    ensures Value(b) != 0.0
    ensures IsHalfUpRounding(Value(a) / Value(b) * Pow10(scale) as real, DivideHalfUp(a, b, scale).unscaled)
  {
    ScaledQuotient(a, b, scale);
    assert Value(a) / Value(b) * Pow10(scale) as real == Fraction(a.unscaled * (Pow10(b.scale) * Pow10(scale)), b.unscaled * Pow10(a.scale));
    assert DivideHalfUp(a, b, scale).unscaled == QuotientHalfUp(a.unscaled * (Pow10(b.scale) * Pow10(scale)), b.unscaled * Pow10(a.scale));
    QuotientRounds(Value(a) / Value(b) * Pow10(scale) as real,
                   a.unscaled * (Pow10(b.scale) * Pow10(scale)), b.unscaled * Pow10(a.scale),
                   DivideHalfUp(a, b, scale).unscaled);
  }

  lemma QuotientRounds(x: real, n: int, d: int, q: int)
    requires d != 0
    requires x == Fraction(n, d)
    requires q == QuotientHalfUp(n, d)
    ensures IsHalfUpRounding(x, q)
  {
    QuotientHalfUpRounds(n, d);
  }

  /** The exact quotient a / b, times 10^scale, as the fraction of integers
      that DivideHalfUp rounds. */
  lemma ScaledQuotient(a: Decimal, b: Decimal, scale: nat)
    requires b.unscaled != 0
    ensures b.unscaled * Pow10(a.scale) != 0 && Value(b) != 0.0
    ensures Value(a) / Value(b) * Pow10(scale) as real
         == Fraction(a.unscaled * (Pow10(b.scale) * Pow10(scale)), b.unscaled * Pow10(a.scale))
  {
    FractionQuotient(a.unscaled, b.unscaled, Pow10(a.scale), Pow10(b.scale), Pow10(scale));
  }

  /** The exact quotient (ua / pa) / (ub / pb), times ps, as one fraction of
      integers. */
  lemma FractionQuotient(ua: int, ub: int, pa: int, pb: int, ps: int)
    requires pa > 0 && pb > 0 && ub != 0
    ensures ub * pa != 0 && Fraction(ub, pb) != 0.0
    ensures Fraction(ua, pa) / Fraction(ub, pb) * ps as real == Fraction(ua * (pb * ps), ub * pa)
  {
    CastMultiply(pb, ps);
    CastMultiply(ua, pb * ps);
    CastMultiply(ub, pa);
    QuotientOfQuotients(ua as real, ub as real, pa as real, pb as real, ps as real,
                        (pb * ps) as real, (ua * (pb * ps)) as real, (ub * pa) as real);
  }

  lemma QuotientHalfUpRounds(n: int, d: int)
    requires d != 0
    ensures IsHalfUpRounding(n as real / d as real, QuotientHalfUp(n, d))
  {
    if d > 0 {
      RoundHalfUpIsHalfUp(n, d);
      HalfUpQuotientIsRounding(n, d, RoundHalfUp(n, d));
    } else {
      RoundHalfUpIsHalfUp(-n, -d);
      HalfUpQuotientIsRounding(-n, -d, RoundHalfUp(-n, -d));
      NegateBoth(n, d);
    }
  }

  lemma NegateBoth(n: int, d: int)
    requires d != 0
    ensures (-n) as real / (-d) as real == n as real / d as real
  {
    var x, e := n as real / d as real, (-n) as real / (-d) as real;
    assert x * d as real == n as real;
    assert e * (-d) as real == (-n) as real;
    assert (x - e) * d as real == 0.0;
  }

  /** (x / p) / (y / q) * r == (x * (q * r)) / (y * p) */
  lemma QuotientOfQuotients(x: real, y: real, p: real, q: real, r: real, qr: real, n: real, d: real)
    requires p > 0.0 && q > 0.0 && y != 0.0
    requires qr == q * r && n == x * qr && d == y * p
    ensures d != 0.0 && y / q != 0.0
    ensures (x / p) / (y / q) * r == n / d
  {
    var fx, fy := x / p, y / q;
    assert x == fx * p;
    assert y == fy * q;
    assert n == (fx * r) * (p * q);
    assert d == fy * (p * q);
  }

}
