/**
 Arithmetic over sequences of reals: the left-to-right sum that Python's
 built-in `sum` computes, the minimum and maximum of a non-empty sequence,
 and the arithmetic mean, together with the bounds that relate them.
 */
module SeqMath {

  /** Sum of `s`, accumulated from the left as Python's `sum` does. */
  function Sum(s: seq<real>): real
  {
    if |s| == 0 then 0.0 else Sum(s[..|s| - 1]) + s[|s| - 1]
  }

  /** Smallest element of a non-empty sequence. */
  function Min(s: seq<real>): (m: real)
    requires |s| > 0
    ensures forall i :: 0 <= i < |s| ==> m <= s[i]
    ensures exists i :: 0 <= i < |s| && s[i] == m
  {
    if |s| == 1 then s[0]
    else
      var rest := Min(s[..|s| - 1]);
      if s[|s| - 1] < rest then s[|s| - 1] else rest
  }

  /** Largest element of a non-empty sequence. */
  function Max(s: seq<real>): (m: real)
    requires |s| > 0
    ensures forall i :: 0 <= i < |s| ==> s[i] <= m
    ensures exists i :: 0 <= i < |s| && s[i] == m
  {
    if |s| == 1 then s[0]
    else
      var rest := Max(s[..|s| - 1]);
      if rest < s[|s| - 1] then s[|s| - 1] else rest
  }

  /** A sum of `n` terms, each in [lo, hi], lies in [n * lo, n * hi]. */
  lemma {:induction false} SumBounds(s: seq<real>, lo: real, hi: real)
    requires forall i :: 0 <= i < |s| ==> lo <= s[i] <= hi
    ensures lo * |s| as real <= Sum(s) <= hi * |s| as real
  {
    if |s| > 0 {
      var p := s[..|s| - 1];
      assert forall i :: 0 <= i < |p| ==> p[i] == s[i];
      SumBounds(p, lo, hi);
      assert lo * |s| as real == lo * |p| as real + lo;
      assert hi * |s| as real == hi * |p| as real + hi;
    }
  }

  /** The sum of `n` copies of `c` is `n * c`. */
  lemma {:induction false} SumConstant(s: seq<real>, c: real)
    requires forall i :: 0 <= i < |s| ==> s[i] == c
    ensures Sum(s) == c * |s| as real
  {
    SumBounds(s, c, c);
  }

  /** Arithmetic mean of a non-empty sequence; it lies between its minimum and maximum. */
  function Mean(s: seq<real>): (m: real)
    requires |s| > 0
    ensures Min(s) <= m <= Max(s)
  {
    var lo, hi, n := Min(s), Max(s), |s| as real;
    SumBounds(s, lo, hi);
    DivideBounds(Sum(s), n, lo, hi);
    Sum(s) / n
  }

  /** Dividing `lo * n <= x <= hi * n` through by a positive `n`. */
  lemma DivideBounds(x: real, n: real, lo: real, hi: real)
    requires n > 0.0
    requires lo * n <= x <= hi * n
    ensures lo <= x / n <= hi
  {
  }
}
