/**
 The temporal smoothers of the recoil loop: the exponential moving average
 that filters the displacement histories, and the trailing-window mean
 (`smooth_movement`) that the program defines but never calls.
 */
module Smoothing {
  import opened SeqMath

  /** Exponential moving average of `values`, seeded by the oldest sample:
      ema := values[0], then ema := alpha * v + (1 - alpha) * ema for every
      later v, in order. An empty sequence averages to 0. */
  function Ema(values: seq<real>, alpha: real): real
  {
    if |values| == 0 then 0.0
    else if |values| == 1 then values[0]
    else alpha * values[|values| - 1] + (1.0 - alpha) * Ema(values[..|values| - 1], alpha)
  }

  /** The averaging loop as the program writes it: it records the running
      average after every sample and returns the last one recorded, or 0. */
  method ExponentialMovingAverage(values: seq<real>, alpha: real) returns (r: real)
    ensures |values| == 0 ==> r == 0.0
    ensures |values| == 1 ==> r == values[0]
    ensures r == Ema(values, alpha)
  {
    var emaValues: seq<real> := [];
    var ema := 0.0;
    for i := 0 to |values|
      invariant |emaValues| == i
      invariant forall j :: 0 <= j < i ==> emaValues[j] == Ema(values[..j + 1], alpha)
      invariant i > 0 ==> ema == emaValues[i - 1]
    {
      if |emaValues| == 0 {
        ema := values[i];
      } else {
        assert ema == Ema(values[..i], alpha);
        assert values[..i + 1][..i] == values[..i];
        ema := alpha * values[i] + (1.0 - alpha) * ema;
      }
      emaValues := emaValues + [ema];
    }
    if |emaValues| > 0 {
      assert values[..|values|] == values;
      r := emaValues[|emaValues| - 1];
    } else {
      r := 0.0;
    }
  }

  /** For 0 <= alpha <= 1 every update is a convex combination, so the
      average of samples drawn from [lo, hi] stays in [lo, hi]. */
  lemma {:induction false} EmaWithin(values: seq<real>, alpha: real, lo: real, hi: real)
    requires 0.0 <= alpha <= 1.0
    requires |values| > 0
    requires forall i :: 0 <= i < |values| ==> lo <= values[i] <= hi
    ensures lo <= Ema(values, alpha) <= hi
  {
    if |values| > 1 {
      var p := values[..|values| - 1];
      assert forall i :: 0 <= i < |p| ==> p[i] == values[i];
      EmaWithin(p, alpha, lo, hi);
      var e, v := Ema(p, alpha), values[|values| - 1];
      assert values[..|values| - 1] == p;
      assert Ema(values, alpha) == alpha * v + (1.0 - alpha) * e;
      ConvexCombinationWithin(alpha, v, e, lo, hi);
    }
  }

  /** For 0 <= alpha <= 1, alpha * x + (1 - alpha) * y lies between any
      bounds that x and y both respect. */
  lemma ConvexCombinationWithin(alpha: real, x: real, y: real, lo: real, hi: real)
    requires 0.0 <= alpha <= 1.0
    requires lo <= x <= hi && lo <= y <= hi
    ensures lo <= alpha * x + (1.0 - alpha) * y <= hi
  {
    NonNegativeProduct(alpha, x - lo);
    NonNegativeProduct(1.0 - alpha, y - lo);
    NonNegativeProduct(alpha, hi - x);
    NonNegativeProduct(1.0 - alpha, hi - y);
    assert alpha * x + (1.0 - alpha) * y - lo == alpha * (x - lo) + (1.0 - alpha) * (y - lo);
    assert hi - (alpha * x + (1.0 - alpha) * y) == alpha * (hi - x) + (1.0 - alpha) * (hi - y);
  }

  /** The product of two non-negative reals is non-negative. */
  lemma NonNegativeProduct(a: real, b: real)
    requires 0.0 <= a && 0.0 <= b
    ensures 0.0 <= a * b
  {
  }

  /** For 0 <= alpha <= 1 the average of a non-empty history lies between
      the history's minimum and maximum. */
  lemma EmaBetweenMinMax(values: seq<real>, alpha: real)
    requires 0.0 <= alpha <= 1.0
    requires |values| > 0
    ensures Min(values) <= Ema(values, alpha) <= Max(values)
  {
    EmaWithin(values, alpha, Min(values), Max(values));
  }

  /** A constant history averages to that constant, whatever alpha is. */
  lemma {:induction false} EmaOfConstant(values: seq<real>, alpha: real, c: real)
    requires |values| > 0
    requires forall i :: 0 <= i < |values| ==> values[i] == c
    ensures Ema(values, alpha) == c
  {
    if |values| > 1 {
      var p := values[..|values| - 1];
      assert forall i :: 0 <= i < |p| ==> p[i] == values[i];
      EmaOfConstant(p, alpha, c);
    }
  }

  /** The weight the average of an n-sample history gives its k-th sample:
      the newest sample weighs alpha (or 1 when it is the only one), and
      each later sample multiplies an older weight by (1 - alpha); so the
      seed weighs (1 - alpha)^(n-1) and sample k > 0 weighs
      alpha * (1 - alpha)^(n-1-k). */
  function Weight(alpha: real, n: nat, k: nat): real
    requires k < n
    decreases n
  {
    if k == n - 1 then (if k == 0 then 1.0 else alpha)
    else (1.0 - alpha) * Weight(alpha, n - 1, k)
  }

  /** Sum of Weight(alpha, n, k) * values[k] over k < m. */
  function WeightedPrefix(values: seq<real>, alpha: real, n: nat, m: nat): real
    requires m <= |values| && m <= n
  {
    if m == 0 then 0.0
    else WeightedPrefix(values, alpha, n, m - 1) + Weight(alpha, n, m - 1) * values[m - 1]
  }

  /** The explicit weighted sum that the recursive average unfolds to. */
  function WeightedSum(values: seq<real>, alpha: real): real
  {
    WeightedPrefix(values, alpha, |values|, |values|)
  }

  /** A weighted prefix reads only the first m samples. */
  lemma {:induction false} WeightedPrefixOnlyReadsPrefix(a: seq<real>, b: seq<real>, alpha: real, n: nat, m: nat)
    requires m <= |a| && m <= |b| && m <= n
    requires a[..m] == b[..m]
    ensures WeightedPrefix(a, alpha, n, m) == WeightedPrefix(b, alpha, n, m)
  {
    if m > 0 {
      assert a[..m - 1] == a[..m][..m - 1] == b[..m][..m - 1] == b[..m - 1];
      assert a[m - 1] == a[..m][m - 1] == b[..m][m - 1] == b[m - 1];
      WeightedPrefixOnlyReadsPrefix(a, b, alpha, n, m - 1);
    }
  }

  /** Scaling both the partial sum and the new weight by c scales the
      extended sum by c. */
  lemma ScaledExtension(c: real, older: real, weight: real, x: real, newer: real, newWeight: real, whole: real, newWhole: real)
    requires newer == c * older && newWeight == c * weight
    requires whole == older + weight * x && newWhole == newer + newWeight * x
    ensures newWhole == c * whole
  {
  }

  /** Equal reals scaled by the same factor stay equal. */
  lemma ScaleEqual(c: real, x: real, y: real)
    requires x == y
    ensures c * x == c * y
  {
  }

  /** The same update applied to equal previous values gives equal results. */
  lemma SameUpdate(alpha: real, v: real, x: real, y: real, fromX: real, fromY: real)
    requires x == y
    requires fromX == alpha * v + (1.0 - alpha) * x
    requires fromY == (1.0 - alpha) * y + alpha * v
    ensures fromX == fromY
  {
  }

  /** One more sample scales every older weight by (1 - alpha). */
  lemma {:induction false} WeightedPrefixAges(values: seq<real>, alpha: real, n: nat, m: nat)
    requires m <= |values| && m <= n
    ensures WeightedPrefix(values, alpha, n + 1, m) == (1.0 - alpha) * WeightedPrefix(values, alpha, n, m)
  {
    if m > 0 {
      var k := m - 1;
      WeightedPrefixAges(values, alpha, n, k);
      ScaledExtension(1.0 - alpha, WeightedPrefix(values, alpha, n, k), Weight(alpha, n, k), values[k],
                      WeightedPrefix(values, alpha, n + 1, k), Weight(alpha, n + 1, k),
                      WeightedPrefix(values, alpha, n, m), WeightedPrefix(values, alpha, n + 1, m));
    }
  }

  /** Adding the newest sample to the weighted sum: older weights age by
      (1 - alpha) and the newest sample weighs alpha. */
  lemma WeightedSumAppend(values: seq<real>, alpha: real)
    requires |values| > 1
    ensures var n := |values|;
            WeightedSum(values, alpha)
            == (1.0 - alpha) * WeightedSum(values[..n - 1], alpha) + alpha * values[n - 1]
  {
    var n := |values|;
    var p := values[..n - 1];
    var k := n - 1;
    var olderPart := WeightedPrefix(values, alpha, k, k);
    WeightedPrefixAges(values, alpha, k, k);
    assert k + 1 == n;
    assert WeightedPrefix(values, alpha, n, k) == (1.0 - alpha) * olderPart;
    assert values[..n - 1] == p[..n - 1];
    WeightedPrefixOnlyReadsPrefix(values, p, alpha, n - 1, n - 1);
    assert olderPart == WeightedSum(p, alpha);
    ScaleEqual(1.0 - alpha, olderPart, WeightedSum(p, alpha));
    assert WeightedSum(values, alpha) == WeightedPrefix(values, alpha, n, n - 1) + Weight(alpha, n, n - 1) * values[n - 1];
  }

  /** The recursive average equals the explicit weighted sum: the sample k
      places from the newest weighs alpha * (1 - alpha)^k, the seed weighs
      (1 - alpha)^(n-1). */
  lemma {:induction false} EmaIsWeightedSum(values: seq<real>, alpha: real)
    requires |values| > 0
    ensures Ema(values, alpha) == WeightedSum(values, alpha)
  {
    var n := |values|;
    if n > 1 {
      var p, v := values[..n - 1], values[n - 1];
      EmaIsWeightedSum(p, alpha);
      WeightedSumAppend(values, alpha);
      var older, newer := Ema(p, alpha), Ema(values, alpha);
      assert newer == alpha * v + (1.0 - alpha) * older;
      SameUpdate(alpha, v, older, WeightedSum(p, alpha), newer, WeightedSum(values, alpha));
    } else {
      assert WeightedPrefix(values, alpha, 1, 0) == 0.0;
      assert WeightedSum(values, alpha) == Weight(alpha, 1, 0) * values[0];
    }
  }

  /** The weights of an n-sample history sum to one, whatever alpha is;
      with 0 <= alpha <= 1 they are also non-negative, so the average is a
      convex combination of the history. */
  lemma WeightsSumToOne(n: nat, alpha: real)
    requires n > 0
    ensures WeightedSum(seq(n, _ => 1.0), alpha) == 1.0
  {
    var ones := seq(n, _ => 1.0);
    EmaIsWeightedSum(ones, alpha);
    EmaOfConstant(ones, alpha, 1.0);
  }

  /** What `smooth_movement` produces: a value, or the exception Python raises. */
  datatype Smoothed = Value(v: real) | IndexError | ZeroDivisionError

  /** The trailing-window smoother: the newest sample while fewer than
      `windowSize` samples exist, else the mean of the last `windowSize`. */
  function SmoothMovement(values: seq<real>, windowSize: nat): (r: Smoothed)
    ensures r == ZeroDivisionError <==> windowSize == 0
    ensures r == IndexError <==> |values| == 0 && windowSize > 0
    ensures 0 < |values| < windowSize ==> r == Value(values[|values| - 1])
    ensures 0 < windowSize <= |values| ==>
              var window := values[|values| - windowSize..];
              r.Value? && Min(window) <= r.v <= Max(window)
  {
    if |values| < windowSize then
      if |values| == 0 then IndexError else Value(values[|values| - 1])
    else if windowSize == 0 then ZeroDivisionError
    else Value(Mean(values[|values| - windowSize..]))
  }

  /** Once the window is full, the result is the window's mean, so only the
      last `windowSize` samples matter. */
  lemma SmoothMovementReadsOnlyWindow(a: seq<real>, b: seq<real>, windowSize: nat)
    requires 0 < windowSize <= |a| && windowSize <= |b|
    requires a[|a| - windowSize..] == b[|b| - windowSize..]
    ensures SmoothMovement(a, windowSize) == SmoothMovement(b, windowSize)
  {
  }

  /** A full window of equal samples smooths to that sample. */
  lemma SmoothMovementOfConstant(values: seq<real>, windowSize: nat, c: real)
    requires 0 < windowSize <= |values|
    requires forall i :: |values| - windowSize <= i < |values| ==> values[i] == c
    ensures SmoothMovement(values, windowSize) == Value(c)
  {
  }
}
