/** The average ticket, as pure arithmetic over the carts' totals: their sum
    (a left fold of BigDecimal.add from BigDecimal.ZERO, as Stream.reduce
    does it) divided by their number, rounded HALF_UP to two places, with
    0.00 when there is no cart. Nothing here depends on the order in which
    the totals are met. */
module Ticket {
  import opened BigDecimals

  /** The exact sum of the numbers the decimals stand for. */
  ghost function SumValues(ts: seq<Decimal>): real
  {
    if ts == [] then 0.0 else SumValues(ts[..|ts| - 1]) + Value(ts[|ts| - 1])
  }

  /** The largest scale among the decimals, 0 for none. */
  function MaxScale(ts: seq<Decimal>): nat
  {
    if ts == [] then 0 else Max(MaxScale(ts[..|ts| - 1]), ts[|ts| - 1].scale)
  }

  /** reduce(BigDecimal.ZERO, BigDecimal::add), at the largest scale met
      (ZERO has scale 0); its value is `SumTotalsValue`. */
  function SumTotals(ts: seq<Decimal>): (r: Decimal)
    ensures r.scale == MaxScale(ts)
  {
    if ts == [] then Zero else Add(SumTotals(ts[..|ts| - 1]), ts[|ts| - 1])
  }

  /** The fold is exact: it stands for the sum of the totals' values. */
  lemma {:induction false} SumTotalsValue(ts: seq<Decimal>)
    ensures Value(SumTotals(ts)) == SumValues(ts)
  {
    if ts != [] {
      SumTotalsValue(ts[..|ts| - 1]);
      AddValue(SumTotals(ts[..|ts| - 1]), ts[|ts| - 1]);
    }
  }

  /** Taking one total out of the fold and adding it last changes nothing. */
  lemma {:induction false} SumTotalsRemove(ts: seq<Decimal>, j: nat)
    requires j < |ts|
    ensures SumTotals(ts) == Add(SumTotals(ts[..j] + ts[j + 1..]), ts[j])
  {
    var n := |ts| - 1;
    if j < n {
      var init := ts[..n];
      SumTotalsRemove(init, j);
      var rest := init[..j] + init[j + 1..];
      assert ts[..j] + ts[j + 1..] == rest + [ts[n]];
      assert (rest + [ts[n]])[..|rest|] == rest;
      AddAssociative(SumTotals(rest), ts[j], ts[n]);
      AddCommutative(ts[j], ts[n]);
      AddAssociative(SumTotals(rest), ts[n], ts[j]);
    } else {
      assert ts[..j] + ts[j + 1..] == ts[..n];
    }
  }

  /** The sum is the same, scale included, in whatever order the totals are
      met: BigDecimal.add is commutative and associative. */
  lemma {:induction false} SumTotalsPermutation(s: seq<Decimal>, t: seq<Decimal>)
    requires multiset(s) == multiset(t)
    ensures SumTotals(s) == SumTotals(t)
    decreases |s|
  {
    if s != [] {
      var n := |s| - 1;
      assert s[n] in multiset(t);
      var j :| 0 <= j < |t| && t[j] == s[n];
      RemoveLast(s, t, j);
      SumTotalsPermutation(s[..n], t[..j] + t[j + 1..]);
      SumTotalsRemove(t, j);
    } else {
      assert |t| == |multiset(t)| == 0;
    }
  }

  /** Taking the last element of s out of t keeps the two permutations of
      each other. */
  lemma RemoveLast<T>(s: seq<T>, t: seq<T>, j: nat)
    requires s != [] && multiset(s) == multiset(t)
    requires j < |t| && t[j] == s[|s| - 1]
    ensures multiset(s[..|s| - 1]) == multiset(t[..j] + t[j + 1..])
  {
    var n := |s| - 1;
    assert s == s[..n] + [s[n]];
    assert t == t[..j] + [t[j]] + t[j + 1..];
    assert multiset(s[..n]) == multiset(s) - multiset{s[n]};
    assert multiset(t[..j] + t[j + 1..]) == multiset(t) - multiset{t[j]};
  }

  /** getValorTicketMedio on the list of totals: 0.00 for none, otherwise
      the sum divided by BigDecimal.valueOf(count) to two places, HALF_UP
      (`AverageRounds` states the rounding). */
  function Average(ts: seq<Decimal>): (r: Decimal)
    ensures r.scale == 2
    ensures ts == [] ==> r == Decimal(0, 2)
  {
    if ts == [] then Decimal(0, 2) else DivideHalfUp(SumTotals(ts), ValueOf(|ts|), 2)
  }

  /** For at least one total, the unscaled average is the exact mean times
      100 rounded HALF_UP: to the nearest cent, ties away from zero. */
  lemma AverageRounds(ts: seq<Decimal>)
    requires ts != []
    ensures IsHalfUpRounding(SumValues(ts) / |ts| as real * 100.0, Average(ts).unscaled)
  {
    SumTotalsValue(ts);
    MeanToCents(SumTotals(ts), |ts|, SumValues(ts));
  }

  /** A sum of value s divided by a count n, to two places, is s / n in
      cents rounded HALF_UP. */
  lemma MeanToCents(sum: Decimal, n: nat, s: real)
    requires n > 0 && Value(sum) == s
    ensures IsHalfUpRounding(s / n as real * 100.0, DivideHalfUp(sum, ValueOf(n), 2).unscaled)
  {
    var count := ValueOf(n);
    DivideHalfUpValue(sum, count, 2);
    assert Pow10(2) == 100;
    MeanRounding(s, n, Value(sum), Value(count), Pow10(2), DivideHalfUp(sum, count, 2).unscaled);
  }

  lemma MeanRounding(s: real, n: nat, v: real, c: real, p: nat, q: int)
    requires n > 0 && v == s && c == n as real && p == 100
    requires IsHalfUpRounding(v / c * p as real, q)
    ensures IsHalfUpRounding(s / n as real * 100.0, q)
  {
  }

  /** The average of the same totals met in another order is the same. */
  lemma AverageOrderIndependent(s: seq<Decimal>, t: seq<Decimal>)
    requires multiset(s) == multiset(t)
    ensures Average(s) == Average(t)
  {
    SumTotalsPermutation(s, t);
    assert |s| == |multiset(s)| == |multiset(t)| == |t|;
  }

  /** The rounded average is within half a cent of the exact mean. */
  lemma AverageWithinHalfCent(ts: seq<Decimal>)
    requires ts != []
    ensures -0.005 <= Value(Average(ts)) - SumValues(ts) / |ts| as real <= 0.005
  {
    AverageRounds(ts);
    HalfCent(SumValues(ts) / |ts| as real, Average(ts));
  }

  lemma HalfCent(x: real, r: Decimal)
    requires r.scale == 2 && IsHalfUpRounding(x * 100.0, r.unscaled)
    ensures -0.005 <= Value(r) - x <= 0.005
  {
    assert Pow10(2) == 100;
  }

  /** Totals 3.00 and 4.00 average to 3.50. */
  lemma AverageOfTwo()
    ensures Average([Decimal(300, 2), Decimal(400, 2)]) == Decimal(350, 2)
  {
    PairAverage(Decimal(300, 2), Decimal(400, 2), 70000, 200, 350);
  }

  /** A mean of exactly 0.005 (totals 0.01 and 0.00) is a tie, and HALF_UP
      rounds it away from zero, to 0.01. */
  lemma AverageTieRoundsUp()
    ensures Average([Decimal(1, 2), Decimal(0, 2)]) == Decimal(1, 2)
  {
    PairAverage(Decimal(1, 2), Decimal(0, 2), 100, 200, 1);
  }

  /** A mean of 0.004 (totals 0.008 and 0.000) rounds down, to 0.00. */
  lemma AverageRoundsDown()
    ensures Average([Decimal(8, 3), Decimal(0, 3)]) == Decimal(0, 2)
  {
    PairAverage(Decimal(8, 3), Decimal(0, 3), 800, 2000, 0);
  }

  /** The average of two totals of the same scale: their sum, times 100,
      over 2 * 10^scale, rounded HALF_UP, as the integers n, d and q. */
  lemma PairAverage(a: Decimal, b: Decimal, n: nat, d: nat, q: int)
    requires a.scale == b.scale
    requires n == (a.unscaled + b.unscaled) * 100 && d == 2 * Pow10(a.scale)
    requires (2 * (n % d) >= d ==> q == n / d + 1) && (2 * (n % d) < d ==> q == n / d)
    ensures Average([a, b]) == Decimal(q, 2)
  {
    var sum := Decimal(a.unscaled + b.unscaled, a.scale);
    SameScaleSum(a, b);
    assert [a, b][..1] == [a];
    assert [a][..0] == [];
    assert SumTotals([a]) == Add(Zero, a);
    assert SumTotals([a, b]) == sum;
    HalvedToCents(sum, n, d, q);
  }

  /** Added to ZERO one after the other, two decimals of one scale sum
      their unscaled values at that scale. */
  lemma SameScaleSum(a: Decimal, b: Decimal)
    requires a.scale == b.scale
    ensures Add(Add(Zero, a), b) == Decimal(a.unscaled + b.unscaled, a.scale)
  {
    assert Pow10(0) == 1;
  }

  /** sum / 2 to two places: the numerator is sum.unscaled * 100, the
      divisor 2 * 10^scale, and the result their quotient rounded HALF_UP. */
  lemma HalvedToCents(sum: Decimal, n: nat, d: nat, q: int)
    requires n == sum.unscaled * 100 && d == 2 * Pow10(sum.scale) && d > 0
    requires (2 * (n % d) >= d ==> q == n / d + 1) && (2 * (n % d) < d ==> q == n / d)
    ensures DivideHalfUp(sum, ValueOf(2), 2) == Decimal(q, 2)
  {
    assert Pow10(2) == 100;
    assert RoundHalfUp(n, d) == q;
  }
}
