/** Real-valued sequence arithmetic shared by the rollup and the statistics models. */
module Arithmetic {

  /** Sum of a sequence, taken from the front. */
  function Sum(xs: seq<real>): real
  {
    if |xs| == 0 then 0.0 else xs[0] + Sum(xs[1..])
  }

  /** Arithmetic mean: the value whose |xs|-fold multiple is the sum. */
  function Mean(xs: seq<real>): (m: real)
    requires |xs| > 0
    ensures m * (|xs| as real) == Sum(xs)
  {
    Sum(xs) / (|xs| as real)
  }

  /** Smallest element: a lower bound that is attained. */
  function Min(xs: seq<real>): (m: real)
    requires |xs| > 0
    ensures forall i :: 0 <= i < |xs| ==> m <= xs[i]
    ensures exists i :: 0 <= i < |xs| && m == xs[i]
  {
    if |xs| == 1 then xs[0]
    else
      var rest := Min(xs[1..]);
      assert forall i :: 1 <= i < |xs| ==> xs[i] == xs[1..][i - 1];
      if xs[0] <= rest then xs[0] else rest
  }

  /** Largest element: an upper bound that is attained. */
  function Max(xs: seq<real>): (m: real)
    requires |xs| > 0
    ensures forall i :: 0 <= i < |xs| ==> xs[i] <= m
    ensures exists i :: 0 <= i < |xs| && m == xs[i]
  {
    if |xs| == 1 then xs[0]
    else
      var rest := Max(xs[1..]);
      assert forall i :: 1 <= i < |xs| ==> xs[i] == xs[1..][i - 1];
      if rest <= xs[0] then xs[0] else rest
  }

  /** Sum of the squared distances of the elements from a centre. */
  function SquaredDeviations(xs: seq<real>, centre: real): (s: real)
    ensures s >= 0.0
  {
    if |xs| == 0 then 0.0
    else
      var d := xs[0] - centre;
      assert d * d >= 0.0 by {
        if d < 0.0 { assert d * d == (-d) * (-d); }
      }
      d * d + SquaredDeviations(xs[1..], centre)
  }

  /** Population variance (divisor N, not N - 1). */
  function Variance(xs: seq<real>): (v: real)
    requires |xs| > 0
    ensures v >= 0.0
  {
    SquaredDeviations(xs, Mean(xs)) / (|xs| as real)
  }

  /** Bounds on every element bound the sum: n * lo <= Sum <= n * hi. */
  lemma {:induction false} SumBounds(xs: seq<real>, lo: real, hi: real)
    requires forall i :: 0 <= i < |xs| ==> lo <= xs[i] <= hi
    ensures lo * (|xs| as real) <= Sum(xs) <= hi * (|xs| as real)
  {
    if |xs| > 0 {
      var rest := xs[1..];
      assert forall i :: 0 <= i < |rest| ==> rest[i] == xs[i + 1];
      SumBounds(rest, lo, hi);
      var n := |rest| as real;
      assert lo * (n + 1.0) == lo * n + lo;
      assert hi * (n + 1.0) == hi * n + hi;
    }
  }

  /** Multiplying by a positive number preserves order, so it can be cancelled. */
  lemma CancelPositive(a: real, b: real, n: real)
    requires n > 0.0 && a * n <= b * n
    ensures a <= b
  {
  }

  /** A value whose n-fold multiple lies between n * lo and n * hi lies between lo and hi. */
  lemma BetweenFrom(lo: real, m: real, hi: real, n: real)
    requires n > 0.0 && lo * n <= m * n <= hi * n
    ensures lo <= m <= hi
  {
    CancelPositive(lo, m, n);
    CancelPositive(m, hi, n);
  }

  lemma MeanBetween(xs: seq<real>)
    requires |xs| > 0
    ensures Min(xs) <= Mean(xs) <= Max(xs)
  {
    var lo, hi := Min(xs), Max(xs);
    SumBounds(xs, lo, hi);
    MeanFromSum(xs, lo, hi);
  }

  lemma MeanFromSum(xs: seq<real>, lo: real, hi: real)
    requires |xs| > 0
    requires lo * (|xs| as real) <= Sum(xs) <= hi * (|xs| as real)
    ensures lo <= Mean(xs) <= hi
  {
    BetweenFrom(lo, Mean(xs), hi, |xs| as real);
  }

  /** The squared deviations are positive exactly when some element differs from the centre. */
  lemma {:induction false} SquaredDeviationsPositive(xs: seq<real>, centre: real)
    ensures SquaredDeviations(xs, centre) > 0.0 <==> exists i :: 0 <= i < |xs| && xs[i] != centre
  {
    if |xs| > 0 {
      var rest := xs[1..];
      assert forall i :: 0 <= i < |rest| ==> rest[i] == xs[i + 1];
      SquaredDeviationsPositive(rest, centre);
      var d := xs[0] - centre;
      var r := SquaredDeviations(rest, centre);
      assert SquaredDeviations(xs, centre) == d * d + r;
      if d > 0.0 {
        ProductPositive(d, d, d * d);
      } else if d < 0.0 {
        ProductPositive(-d, -d, d * d);
      } else {
        assert SquaredDeviations(xs, centre) == r;
        if exists i :: 0 <= i < |xs| && xs[i] != centre {
          var i :| 0 <= i < |xs| && xs[i] != centre;
          assert rest[i - 1] != centre;
        }
      }
    }
  }

  /** The product of two positive numbers is positive. */
  lemma ProductPositive(a: real, b: real, p: real)
    requires a > 0.0 && b > 0.0 && p == a * b
    ensures p > 0.0
  {
  }

  /** The sign of a positive multiple is the sign of the value. */
  lemma ScaledPositive(v: real, n: real, s: real)
    requires n > 0.0 && v * n == s
    ensures v > 0.0 <==> s > 0.0
  {
    if v > 0.0 {
      ProductPositive(v, n, s);
    } else {
      CancelPositive(v, 0.0, n);
    }
  }

  /** A sequence of equal elements has that element as its mean. */
  lemma MeanOfConstant(xs: seq<real>)
    requires |xs| > 0 && forall i :: 0 <= i < |xs| ==> xs[i] == xs[0]
    ensures Mean(xs) == xs[0]
  {
    SumBounds(xs, xs[0], xs[0]);
    BetweenFrom(xs[0], Mean(xs), xs[0], |xs| as real);
  }

  /** The variance is positive exactly when two elements differ; otherwise it is zero. */
  lemma VariancePositive(xs: seq<real>)
    requires |xs| > 0
    ensures Variance(xs) > 0.0 <==> exists i, j :: 0 <= i < |xs| && 0 <= j < |xs| && xs[i] != xs[j]
  {
    var n := |xs| as real;
    var m := Mean(xs);
    var sd := SquaredDeviations(xs, m);
    assert Variance(xs) * n == sd;
    ScaledPositive(Variance(xs), n, sd);
    SquaredDeviationsPositive(xs, m);
    if forall i :: 0 <= i < |xs| ==> xs[i] == xs[0] {
      MeanOfConstant(xs);
    } else {
      var i :| 0 <= i < |xs| && xs[i] != xs[0];
      if xs[i] == m {
        assert xs[0] != m;
      }
    }
  }
}
