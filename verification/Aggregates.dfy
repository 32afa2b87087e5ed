/** Running aggregates against the plain list of values (metrics/inmem.go), over the reals. */
module Aggregates {
  function Sum(v: seq<real>): real {
    if v == [] then 0.0 else Sum(v[..|v| - 1]) + v[|v| - 1]
  }

  function SumSq(v: seq<real>): real {
    if v == [] then 0.0 else SumSq(v[..|v| - 1]) + v[|v| - 1] * v[|v| - 1]
  }

  predicate IsMin(v: seq<real>, m: real) {
    m in v && forall x | x in v :: m <= x
  }

  predicate IsMax(v: seq<real>, m: real) {
    m in v && forall x | x in v :: x <= m
  }

  lemma SumSnoc(v: seq<real>, x: real)
    ensures Sum(v + [x]) == Sum(v) + x && SumSq(v + [x]) == SumSq(v) + x * x
  {
    assert (v + [x])[..|v|] == v;
  }

  lemma {:induction false} SumBounds(v: seq<real>, lo: real, hi: real)
    requires forall x | x in v :: lo <= x <= hi
    ensures |v| as real * lo <= Sum(v) <= |v| as real * hi
  {
    if v != [] {
      var w := v[..|v| - 1];
      assert forall x | x in w :: x in v;
      assert v[|v| - 1] in v;
      SumBounds(w, lo, hi);
      assert |v| as real == |w| as real + 1.0;
    }
  }

  /** One more value keeps n * q - s^2 from getting negative. */
  lemma VarianceStep(n: real, s: real, q: real, x: real)
    requires n >= 1.0 && n * q - s * s >= 0.0
    ensures (n + 1.0) * (q + x * x) - (s + x) * (s + x) >= 0.0
  {
    var d := q + n * x * x - 2.0 * s * x;
    Square(s - n * x);
    assert n * d == (n * q - s * s) + (s - n * x) * (s - n * x);
    Positive(n, d);
    assert (n + 1.0) * (q + x * x) - (s + x) * (s + x) == (n * q - s * s) + d;
  }

  lemma Square(x: real)
    ensures x * x >= 0.0
  {}

  lemma Positive(n: real, d: real)
    requires n >= 1.0 && n * d >= 0.0
    ensures d >= 0.0
  {}

  /** Count * SumSq - Sum^2 is never negative, so the standard deviation is defined. */
  lemma {:induction false} VarianceDefined(v: seq<real>)
    ensures |v| as real * SumSq(v) - Sum(v) * Sum(v) >= 0.0
  {
    if |v| == 1 {
      assert v[..0] == [];
    } else if v != [] {
      var w, x := v[..|v| - 1], v[|v| - 1];
      VarianceDefined(w);
      VarianceStep(|w| as real, Sum(w), SumSq(w), x);
      assert |v| as real == |w| as real + 1.0;
    }
  }

  function VarianceOf(count: nat, sum: real, sumSq: real): real {
    var div := count * (count - 1);
    if div == 0 then 0.0 else (count as real * sumSq - sum * sum) / div as real
  }

  lemma VarianceSign(count: nat, sum: real, sumSq: real)
    requires count as real * sumSq - sum * sum >= 0.0
    ensures VarianceOf(count, sum, sumSq) >= 0.0
  {
    Pairs(count);
    Ratio(count as real * sumSq - sum * sum, count * (count - 1));
  }

  lemma VarianceBound(v: seq<real>)
    ensures VarianceOf(|v|, Sum(v), SumSq(v)) >= 0.0
  {
    hide VarianceOf;
    VarianceDefined(v);
    VarianceSign(|v|, Sum(v), SumSq(v));
  }

  function MeanOf(count: nat, sum: real): real {
    if count == 0 then 0.0 else sum / count as real
  }

  lemma MeanBounds(v: seq<real>, min: real, max: real)
    requires IsMin(v, min) && IsMax(v, max)
    ensures min <= MeanOf(|v|, Sum(v)) <= max
  {
    SumBounds(v, min, max);
    Quotient(Sum(v), |v| as real, min, max);
  }

  /** The squares of the deviations from m, added up. */
  function Deviations(v: seq<real>, m: real): real {
    if v == [] then 0.0
    else
      var d := v[|v| - 1] - m;
      Deviations(v[..|v| - 1], m) + d * d
  }

  lemma NextSums(v: seq<real>, m: real)
    requires v != []
    ensures var w, x := v[..|v| - 1], v[|v| - 1];
      && Deviations(v, m) == Deviations(w, m) + (x - m) * (x - m)
      && SumSq(v) == SumSq(w) + x * x && Sum(v) == Sum(w) + x && |v| as real == |w| as real + 1.0
  {}

  lemma NoSums(m: real)
    ensures Deviations([], m) == SumSq([]) == Sum([]) == 0.0
  {}

  lemma {:induction false} DeviationsAre(v: seq<real>, m: real)
    ensures Deviations(v, m) == SumSq(v) - 2.0 * m * Sum(v) + |v| as real * m * m
  {
    hide Deviations, SumSq, Sum;
    if v == [] {
      NoSums(m);
      Zero(m);
    } else {
      var w, x := v[..|v| - 1], v[|v| - 1];
      DeviationsAre(w, m);
      NextSums(v, m);
      OneDeviation(Deviations(w, m), SumSq(w), Sum(w), |w| as real, x, m);
    }
  }

  lemma Zero(m: real)
    ensures 0.0 == 0.0 - 2.0 * m * 0.0 + 0 as real * m * m
  {}

  lemma OneDeviation(d: real, q: real, s: real, n: real, x: real, m: real)
    requires d == q - 2.0 * m * s + n * m * m
    ensures d + (x - m) * (x - m) == (q + x * x) - 2.0 * m * (s + x) + (n + 1.0) * m * m
  {
    assert (x - m) * (x - m) == x * x - 2.0 * m * x + m * m;
    assert 2.0 * m * (s + x) == 2.0 * m * s + 2.0 * m * x;
    assert (n + 1.0) * m * m == n * m * m + m * m;
  }

  /** The mean times the count is the sum. */
  lemma MeanIs(v: seq<real>)
    ensures MeanOf(|v|, Sum(v)) * |v| as real == Sum(v)
  {}

  /** What Stddev takes the root of is the sample variance: the squared deviations from the mean,
      divided by one less than the count. */
  lemma VarianceIs(v: seq<real>)
    ensures |v| <= 1 ==> VarianceOf(|v|, Sum(v), SumSq(v)) == 0.0
    ensures VarianceOf(|v|, Sum(v), SumSq(v)) * (|v| as real - 1.0)
            == if |v| <= 1 then 0.0 else Deviations(v, MeanOf(|v|, Sum(v)))
  {
    hide Sum, SumSq, Deviations, MeanOf, VarianceOf;
    SmallVariance(|v|, Sum(v), SumSq(v));
    if |v| > 1 {
      var m := MeanOf(|v|, Sum(v));
      MeanIs(v);
      DeviationsAre(v, m);
      VarianceFormula(|v|, Sum(v), SumSq(v), m);
    }
  }

  lemma SmallVariance(count: nat, sum: real, sumSq: real)
    ensures count <= 1 ==> VarianceOf(count, sum, sumSq) == 0.0 && 0.0 * (count as real - 1.0) == 0.0
  {}

  lemma VarianceFormula(count: nat, sum: real, sumSq: real, m: real)
    requires count > 1 && m * count as real == sum
    ensures VarianceOf(count, sum, sumSq) * (count as real - 1.0) == sumSq - 2.0 * m * sum + count as real * m * m
  {
    PairsReal(count);
    VarianceTimes(count as real, sum, sumSq, m);
    assert count * (count - 1) != 0;
  }

  lemma PairsReal(n: nat)
    ensures (n * (n - 1)) as real == n as real * (n as real - 1.0)
  {}

  lemma VarianceTimes(n: real, s: real, q: real, m: real)
    requires n > 1.0 && m * n == s
    ensures n * (n - 1.0) != 0.0
    ensures (n * q - s * s) / (n * (n - 1.0)) * (n - 1.0) == q - 2.0 * m * s + n * m * m
  {
    var a, b := n * q - s * s, n * (n - 1.0);
    assert b > 0.0;
    assert a == n * (q - m * s) by { assert s * s == m * n * s; }
    assert q - 2.0 * m * s + n * m * m == q - m * s by { assert n * m * m == m * s; }
    Divided(n, n - 1.0, q - m * s);
  }

  lemma Divided(n: real, k: real, d: real)
    requires n > 0.0 && k > 0.0
    ensures n * k != 0.0 && n * d / (n * k) * k == d
  {
    var x := n * d / (n * k);
    assert x * (n * k) == n * d;
    assert x * (n * k) == n * (x * k);
    Cancel(n, x * k, d);
  }

  lemma Cancel(n: real, a: real, b: real)
    requires n > 0.0 && n * a == n * b
    ensures a == b
  {
    Less(a, b, n);
    Less(b, a, n);
  }

  lemma Pairs(count: nat)
    ensures count * (count - 1) >= 0
  {}

  class AggregateSample {
    var count: nat
    var rate: real
    var sum: real
    var sumSq: real
    var min: real
    var max: real

    constructor ()
      ensures forall d | d != 0.0 :: Holds([], d)
    {
      count, rate, sum, sumSq, min, max := 0, 0.0, 0.0, 0.0, 0.0, 0.0;
    }

    /** The aggregate is that of the list of values, recorded within denom time units. */
    ghost predicate Holds(v: seq<real>, denom: real)
      requires denom != 0.0
      reads this
    {
      && count == |v| && sum == Sum(v) && sumSq == SumSq(v) && rate == Sum(v) / denom
      && (if v == [] then min == 0.0 && max == 0.0 else IsMin(v, min) && IsMax(v, max))
    }

    method Ingest(v: real, rateDenom: real, ghost values: seq<real>)
      requires rateDenom != 0.0 && Holds(values, rateDenom)
      modifies this
      ensures Holds(values + [v], rateDenom)
    {
      SumSnoc(values, v);
      count := count + 1;
      sum := sum + v;
      sumSq := sumSq + v * v;
      if v < min || count == 1 {
        min := v;
      }
      if v > max || count == 1 {
        max := v;
      }
      rate := sum / rateDenom;
    }

    function Mean(): (m: real)
      reads this
    {
      MeanOf(count, sum)
    }

    /** The square of the standard deviation. */
    function Variance(): (d: real)
      reads this
    {
      VarianceOf(count, sum, sumSq)
    }

    /** Mean and deviation are those of the list of values: Min <= Mean <= Max, Mean times count is
        the sum, and the number under the root is the sample variance, not negative. */
    lemma MeanAndDeviation(v: seq<real>, denom: real)
      requires denom != 0.0 && Holds(v, denom)
      ensures v != [] ==> min <= Mean() <= max
      ensures Mean() * |v| as real == Sum(v)
      ensures Variance() >= 0.0 && (|v| <= 1 ==> Variance() == 0.0)
      ensures |v| > 1 ==> Variance() * (|v| as real - 1.0) == Deviations(v, Mean())
    {
      hide Sum, SumSq, IsMin, IsMax, MeanOf, VarianceOf, Deviations;
      VarianceBound(v);
      MeanIs(v);
      VarianceIs(v);
      if v != [] {
        MeanBounds(v, min, max);
      }
    }

    /** What is reported of values that were recorded within interval nanoseconds. */
    ghost predicate Describes(v: seq<real>, interval: int)
      reads this
    {
      && count == |v| && sum == Sum(v) && sumSq == SumSq(v) && IsMin(v, min) && IsMax(v, max)
      && rate * interval as real == Sum(v) * 1000000000.0
      && min <= Mean() <= max && Mean() * |v| as real == Sum(v)
      && Variance() >= 0.0 && (|v| > 1 ==> Variance() * (|v| as real - 1.0) == Deviations(v, Mean()))
    }

    lemma Described(v: seq<real>, denom: real, interval: int)
      requires v != [] && denom != 0.0 && denom == interval as real / 1000000000.0 && Holds(v, denom)
      ensures Describes(v, interval)
    {
      hide Sum, SumSq, IsMin, IsMax, MeanOf, VarianceOf, Deviations;
      MeanAndDeviation(v, denom);
      RatePerSecond(Sum(v), rate, denom, interval);
    }
  }

  lemma RatePerSecond(sum: real, rate: real, denom: real, interval: int)
    requires denom != 0.0 && denom == interval as real / 1000000000.0 && rate == sum / denom
    ensures rate * interval as real == sum * 1000000000.0
  {
    assert denom * 1000000000.0 == interval as real;
    assert rate * denom == sum;
    assert rate * (denom * 1000000000.0) == rate * denom * 1000000000.0;
  }

  lemma Ratio(a: real, n: int)
    requires a >= 0.0
    ensures n > 0 ==> a / n as real >= 0.0
  {}

  lemma Less(a: real, b: real, n: real)
    requires n > 0.0
    ensures a < b ==> a * n < b * n
  {}

  lemma Quotient(s: real, n: real, lo: real, hi: real)
    requires n > 0.0 && n * lo <= s <= n * hi
    ensures lo <= s / n <= hi
  {
    var q := s / n;
    assert q * n == s;
    Less(q, lo, n);
    Less(hi, q, n);
  }
}
