/**
 The per-service statistics of a report row, over amounts in cents: the
 running total, the mean, the monthly estimate `days * mean`, and
 `safe_variance`, the sample variance or "N/A" below two points.
 */
module Stats {
  import opened Wrappers

  function Sum(xs: seq<int>): int {
    if xs == [] then 0 else xs[0] + Sum(xs[1..])
  }

  /** `statistics.mean`: the total spread evenly over the points. */
  function Mean(xs: seq<int>): (m: real)
    requires |xs| > 0
    ensures m * |xs| as real == Sum(xs) as real
  {
    Sum(xs) as real / |xs| as real
  }

  /** The sum of squared deviations of `xs` from its mean, scaled by `n * n`
      so that it stays an integer: the sum of `(n * x - total)^2`. */
  function ScaledSquaredDeviations(xs: seq<int>, n: int, total: int): (r: int)
    ensures r >= 0
    ensures r == 0 ==> forall i :: 0 <= i < |xs| ==> n * xs[i] == total
  {
    if xs == [] then 0
    else
      var d := n * xs[0] - total;
      var rest := ScaledSquaredDeviations(xs[1..], n, total);
      SquareSign(d);
      assert forall i :: 1 <= i < |xs| ==> xs[i] == xs[1..][i - 1];
      d * d + rest
  }

  lemma SquareSign(d: int)
    ensures d * d >= 0
    ensures d != 0 ==> d * d > 0
  {
    if d > 0 {
      assert d * d >= d;
    } else if d < 0 {
      assert d * d >= -d;
    }
  }

  lemma {:induction false} ScaledSquaredDeviationsCentered(xs: seq<int>, n: int, total: int)
    requires forall i :: 0 <= i < |xs| ==> n * xs[i] == total
    ensures ScaledSquaredDeviations(xs, n, total) == 0
  {
    if xs != [] {
      assert forall i :: 1 <= i < |xs| ==> xs[i] == xs[1..][i - 1];
      ScaledSquaredDeviationsCentered(xs[1..], n, total);
    }
  }

  lemma QuotientSign(a: int, b: int)
    requires a >= 0 && b > 0
    ensures a as real / b as real >= 0.0
    ensures a as real / b as real == 0.0 <==> a == 0
  {
  }

  lemma DenominatorPositive(n: int)
    requires n >= 2
    ensures n * n * (n - 1) > 0
  {
    assert n * n >= n;
    assert n * n * (n - 1) >= n * n;
  }

  /** `statistics.variance`: the squared deviations from the mean over `n - 1`,
      computed exactly. It is zero exactly when every point equals the mean,
      that is, when `n * x == total` for every point `x`. */
  function SampleVariance(xs: seq<int>): (v: real)
    requires |xs| >= 2
    ensures v >= 0.0
    ensures v == 0.0 <==> forall i :: 0 <= i < |xs| ==> |xs| * xs[i] == Sum(xs)
  {
    var n := |xs|;
    var ss := ScaledSquaredDeviations(xs, n, Sum(xs));
    DenominatorPositive(n);
    QuotientSign(ss, n * n * (n - 1));
    assert (forall i :: 0 <= i < |xs| ==> n * xs[i] == Sum(xs)) ==> ss == 0 by {
      if forall i :: 0 <= i < |xs| ==> n * xs[i] == Sum(xs) {
        ScaledSquaredDeviationsCentered(xs, n, Sum(xs));
      }
    }
    ss as real / (n * n * (n - 1)) as real
  }

  /** The sum of squared deviations of `xs` from `m`, over the reals: the
      numerator of `statistics.variance` when `m` is the mean. */
  function SqDev(xs: seq<int>, m: real): real {
    if xs == [] then 0.0 else (xs[0] as real - m) * (xs[0] as real - m) + SqDev(xs[1..], m)
  }

  /** The squared deviations of `xs` from `m`, each scaled by `c`, over the reals. */
  function ScaledSqDev(xs: seq<int>, c: real, m: real): real {
    if xs == [] then 0.0
    else (c * xs[0] as real - c * m) * (c * xs[0] as real - c * m) + ScaledSqDev(xs[1..], c, m)
  }

  lemma ScaledSquare(c: real, y: real)
    ensures (c * y) * (c * y) == (c * c) * (y * y)
  {
  }

  lemma {:induction false} ScaledSqDevFactor(xs: seq<int>, c: real, m: real)
    ensures ScaledSqDev(xs, c, m) == (c * c) * SqDev(xs, m)
  {
    if xs != [] {
      var y := xs[0] as real - m;
      ScaledSqDevFactor(xs[1..], c, m);
      assert c * xs[0] as real - c * m == c * y;
      ScaledSquare(c, y);
    }
  }

  /** The terms of `ScaledSquaredDeviations`, each cast to a real, summed over the reals. */
  function CastTerms(xs: seq<int>, n: int, total: int): real {
    if xs == [] then 0.0
    else ((n * xs[0] - total) * (n * xs[0] - total)) as real + CastTerms(xs[1..], n, total)
  }

  lemma {:induction false} CastTermsSum(xs: seq<int>, n: int, total: int)
    ensures ScaledSquaredDeviations(xs, n, total) as real == CastTerms(xs, n, total)
  {
    if xs != [] {
      CastTermsSum(xs[1..], n, total);
    }
  }

  /** One term, cast to a real, when `total = n * q`. */
  lemma ScaledTermCast(x: int, n: int, total: int, q: real)
    requires n as real * q == total as real
    ensures ((n * x - total) * (n * x - total)) as real
            == (n as real * x as real - n as real * q) * (n as real * x as real - n as real * q)
  {
    var d := n * x - total;
    assert d as real == n as real * x as real - n as real * q;
    assert (d * d) as real == d as real * d as real;
  }

  lemma {:induction false} CastTermsScaled(xs: seq<int>, n: int, total: int, q: real)
    requires n as real * q == total as real
    ensures CastTerms(xs, n, total) == ScaledSqDev(xs, n as real, q)
  {
    if xs != [] {
      CastTermsScaled(xs[1..], n, total, q);
      ScaledTermCast(xs[0], n, total, q);
    }
  }

  /** The integer scaled sum is `n * n` times the real sum of squared deviations
      from `q = total / n`. */
  lemma ScaledSquaredDeviationsReal(xs: seq<int>, n: int, total: int, q: real)
    requires n as real * q == total as real
    ensures ScaledSquaredDeviations(xs, n, total) as real == n as real * n as real * SqDev(xs, q)
  {
    CastTermsSum(xs, n, total);
    CastTermsScaled(xs, n, total, q);
    ScaledSqDevFactor(xs, n as real, q);
  }

  lemma CastProduct(a: int, b: int)
    ensures (a * b) as real == a as real * b as real
  {
  }

  lemma Cancel(a: real, q: real, c: real)
    requires a > 0.0 && c > 0.0
    ensures (a * q) / (a * c) == q / c
  {
    assert (a * q) / (a * c) * (a * c) == a * q;
    assert (q / c) * (a * c) == a * q;
  }

  /** Dividing `n * n` times `sq` by `n * n * (n - 1)` leaves `sq / (n - 1)`. */
  lemma {:induction false} VarianceAlgebra(ss: int, n: int, sq: real)
    requires n >= 2
    requires ss as real == n as real * n as real * sq
    ensures ss as real / (n * n * (n - 1)) as real == sq / (n - 1) as real
  {
    CastProduct(n * n, n - 1);
    CastProduct(n, n);
    DenominatorPositive(n);
    Cancel((n * n) as real, sq, (n - 1) as real);
  }

  /** `SampleVariance` is `statistics.variance`: the squared deviations from
      the mean, summed and divided by `n - 1`. */
  lemma {:induction false} SampleVarianceReference(xs: seq<int>)
    requires |xs| >= 2
    ensures SampleVariance(xs) == SqDev(xs, Mean(xs)) / (|xs| - 1) as real
  {
    var n := |xs|;
    ScaledSquaredDeviationsReal(xs, n, Sum(xs), Mean(xs));
    VarianceAlgebra(ScaledSquaredDeviations(xs, n, Sum(xs)), n, SqDev(xs, Mean(xs)));
  }

  /** `safe_variance`: no value ("N/A") for fewer than two points. */
  function SafeVariance(xs: seq<int>): (r: Option<real>)
    ensures r.None? <==> |xs| < 2
    ensures r.Some? ==> r.value >= 0.0
  {
    if |xs| < 2 then None else Some(SampleVariance(xs))
  }

  /** The monthly estimate: `days` times the daily mean. */
  function MonthlyEstimate(days: int, xs: seq<int>): (e: real)
    requires |xs| > 0
    ensures e * |xs| as real == (days * Sum(xs)) as real
  {
    days as real * Mean(xs)
  }

  lemma {:induction false} SumOfConstant(xs: seq<int>, c: int)
    requires forall i :: 0 <= i < |xs| ==> xs[i] == c
    ensures Sum(xs) == |xs| * c
  {
    if xs != [] {
      SumOfConstant(xs[1..], c);
    }
  }

  /** The variance is zero exactly when every point is the same. */
  lemma VarianceZeroIffConstant(xs: seq<int>)
    requires |xs| >= 2
    ensures SafeVariance(xs) == Some(0.0) <==> forall i :: 0 <= i < |xs| ==> xs[i] == xs[0]
  {
    if forall i :: 0 <= i < |xs| ==> xs[i] == xs[0] {
      SumOfConstant(xs, xs[0]);
      assert forall i :: 0 <= i < |xs| ==> |xs| * xs[i] == Sum(xs);
    }
  }
}
