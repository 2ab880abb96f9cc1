/**
 The displacement estimator: it reduces the best feature correspondences
 between the reference frame and the new frame to one raw per-axis
 displacement sample. Keypoint detection and descriptor matching are
 foreign code; a correspondence is given here by its two keypoint
 positions and its descriptor distance.
 */
module Displacement {
  import opened SeqMath

  /** How many of the best correspondences the estimate uses. */
  const MatchesUsed: nat := 20
  /** Summed pixel deltas are divided by this to give the control signal. */
  const PixelScale: real := 100.0
  /** The reference frame is replaced when its best match is worse than this. */
  const FreshnessThreshold: real := 12.0

  /** A keypoint position in image coordinates (y grows downward). */
  datatype Point = Point(x: real, y: real)

  /** A correspondence: a keypoint of the reference frame (the query side),
      its nearest neighbour in the new frame (the train side), and the
      Hamming distance between their descriptors. */
  datatype Match = Match(query: Point, train: Point, distance: real)
  {
    /** Horizontal motion of the feature from the reference to the new frame. */
    function Dx(): real { train.x - query.x }
    /** Vertical motion of the feature, in screen orientation. */
    function Dy(): real { train.y - query.y }
  }

  /** Correspondences ordered best first, as the matcher returns them. */
  predicate SortedByDistance(matches: seq<Match>)
  {
    forall i, j :: 0 <= i <= j < |matches| ==> matches[i].distance <= matches[j].distance
  }

  /** How many correspondences the estimate reads out of `n`: at most 20. */
  function TopCount(n: nat): nat
  {
    if n < MatchesUsed then n else MatchesUsed
  }

  /** The correspondences the estimate reads: the slice `matches[:20]`. */
  function Best(matches: seq<Match>): seq<Match>
  {
    matches[..TopCount(|matches|)]
  }

  function Dxs(ms: seq<Match>): seq<real>
  {
    seq(|ms|, i requires 0 <= i < |ms| => ms[i].Dx())
  }

  function Dys(ms: seq<Match>): seq<real>
  {
    seq(|ms|, i requires 0 <= i < |ms| => ms[i].Dy())
  }

  /** A raw displacement sample, in screen orientation (before the vertical
      axis is inverted for storage). */
  datatype Sample = Sample(x: real, y: real)

  /** The raw sample: the summed deltas of the best correspondences, scaled
      down by `PixelScale`. */
  function RawSample(matches: seq<Match>): Sample
  {
    var top := Best(matches);
    Sample(Sum(Dxs(top)) / PixelScale, Sum(Dys(top)) / PixelScale)
  }

  /** The accumulation loop as the program writes it. */
  method EstimateDisplacement(matches: seq<Match>) returns (xm: real, ym: real)
    ensures Sample(xm, ym) == RawSample(matches)
  {
    var top := Best(matches);
    xm, ym := 0.0, 0.0;
    for i := 0 to |top|
      invariant xm == Sum(Dxs(top[..i]))
      invariant ym == Sum(Dys(top[..i]))
    {
      assert Dxs(top[..i + 1])[..i] == Dxs(top[..i]);
      assert Dys(top[..i + 1])[..i] == Dys(top[..i]);
      xm := xm + (top[i].train.x - top[i].query.x);
      ym := ym + (top[i].train.y - top[i].query.y);
    }
    assert top[..|top|] == top;
    xm, ym := xm / PixelScale, ym / PixelScale;
  }

  /** When every correspondence read moves by the same (dx, dy), the sample
      is that motion times the number of correspondences read, over 100. */
  lemma RawSampleOfUniformShift(matches: seq<Match>, dx: real, dy: real)
    requires forall i :: 0 <= i < TopCount(|matches|) ==> matches[i].Dx() == dx && matches[i].Dy() == dy
    ensures RawSample(matches) == Sample(TopCount(|matches|) as real * dx / PixelScale,
                                         TopCount(|matches|) as real * dy / PixelScale)
  {
    var top := Best(matches);
    SumConstant(Dxs(top), dx);
    SumConstant(Dys(top), dy);
  }

  /** Only the 20 best correspondences count: anything after them leaves
      the sample unchanged. */
  lemma RawSampleIgnoresWorseMatches(matches: seq<Match>, extra: seq<Match>)
    requires |matches| >= MatchesUsed
    ensures RawSample(matches + extra) == RawSample(matches)
  {
    assert Best(matches + extra) == Best(matches);
  }

  /** Twenty correspondences that each moved 2 right and 4 down give the
      raw sample (0.4, 0.8). */
  lemma TwentyEqualShifts()
    ensures RawSample(seq(20, _ => Match(Point(0.0, 0.0), Point(2.0, 4.0), 0.0))) == Sample(0.4, 0.8)
  {
    var matches := seq(20, _ => Match(Point(0.0, 0.0), Point(2.0, 4.0), 0.0));
    RawSampleOfUniformShift(matches, 2.0, 4.0);
  }

  /** In a best-first list, the first correspondence is worse than the
      freshness threshold exactly when all of them are. */
  lemma BestMatchDecidesFreshness(matches: seq<Match>)
    requires |matches| > 0
    requires SortedByDistance(matches)
    ensures matches[0].distance > FreshnessThreshold
        <==> forall i :: 0 <= i < |matches| ==> matches[i].distance > FreshnessThreshold
  {
  }
}
