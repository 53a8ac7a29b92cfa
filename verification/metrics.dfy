/** The four 0-100 metrics computed from the accumulators. The source
    divides by `totalPixels` without a guard: when no sample was opaque every
    metric is `NaN`, which the model represents explicitly. Comparisons with
    `NaN` are false, as in JavaScript. */
module Metrics {
  import opened Common
  import opened Colour
  import opened Sampling

  /** A metric value: a rounded number, or `NaN` after a division by zero. */
  datatype Score = Num(value: int) | NaN
  {
    predicate Below(k: int) { Num? && value < k }

    predicate Above(k: int) { Num? && value > k }

    predicate Within(lo: int, hi: int) { Num? && lo <= value <= hi }
  }

  datatype StyleMetrics = StyleMetrics(brightness: Score, contrast: Score, saturation: Score, density: Score)

  const AllNaN: StyleMetrics := StyleMetrics(NaN, NaN, NaN, NaN)

  predicate InRange(m: StyleMetrics)
  {
    m.brightness.Within(0, 100) && m.contrast.Within(0, 100)
    && m.saturation.Within(0, 100) && m.density.Within(0, 100)
  }

  /** Sum of squared deviations from `mean`, the numerator of the population
      variance `lumValues.reduce((acc, v) => acc + (v - avg) ** 2, 0)`. */
  function SumSquares(xs: seq<real>, mean: real): (r: real)
    ensures r >= 0.0
  {
    if |xs| == 0 then 0.0
    else
      var d := xs[|xs| - 1] - mean;
      SquareNonNegative(d);
      SumSquares(xs[..|xs| - 1], mean) + d * d
  }

  // ---------------------------------------------------------------------
  // Contrast without a square root
  // ---------------------------------------------------------------------

  /** The smallest variance for which contrast rounds to at least `n`:
      `round(min(100, sd / 128 * 100 * 1.5)) >= n` needs
      `sd >= (n - 0.5) * 128 / 150`. */
  function Threshold(n: int): real
  {
    var t := (n as real - 0.5) * 128.0 / 150.0;
    t * t
  }

  lemma {:induction false} ThresholdIncreasing(a: int, b: int)
    requires 1 <= a < b
    ensures Threshold(a) < Threshold(b)
  {
    var ta := (a as real - 0.5) * 128.0 / 150.0;
    var tb := (b as real - 0.5) * 128.0 / 150.0;
    assert 0.0 < ta < tb;
    assert ta * ta < ta * tb < tb * tb;
  }

  function ContrastFrom(variance: real, n: nat): (c: int)
    requires n <= 100
    ensures n <= c <= 100
    ensures c > n ==> Threshold(c) <= variance
    ensures c == 100 || variance < Threshold(c + 1)
    decreases 100 - n
  {
    if n == 100 then 100
    else if Threshold(n + 1) <= variance then ContrastFrom(variance, n + 1)
    else n
  }

  /** `Math.round(Math.min(100, (stdDev / 128) * 100 * 1.5))` for
      `stdDev = Math.sqrt(variance)`, computed as the largest `n` in [0, 100]
      whose threshold the variance reaches. */
  function ContrastScore(variance: real): (c: int)
    ensures 0 <= c <= 100
    ensures c == 0 || Threshold(c) <= variance
    ensures c == 100 || variance < Threshold(c + 1)
  {
    ContrastFrom(variance, 0)
  }

  /** For every standard deviation `sd` of the variance, the contrast score
      is the source's rounded, clamped `sd / 128 * 100 * 1.5`. */
  lemma {:induction false} ContrastIsRoundedStdDev(variance: real, sd: real)
    requires sd >= 0.0 && sd * sd == variance
    ensures ContrastScore(variance) == Round(MinR(100.0, sd / 128.0 * 100.0 * 1.5))
  {
    var c := ContrastScore(variance);
    var scaled := sd / 128.0 * 100.0 * 1.5;
    ContrastLowerEdge(c, sd);
    ContrastUpperEdge(c, sd);
    RoundUnique(MinR(100.0, scaled), c);
  }

  lemma {:induction false} ContrastLowerEdge(c: int, sd: real)
    requires 0 <= c <= 100 && sd >= 0.0
    requires c == 0 || Threshold(c) <= sd * sd
    ensures c as real - 0.5 <= MinR(100.0, sd / 128.0 * 100.0 * 1.5)
  {
    if c > 0 {
      var t := (c as real - 0.5) * 128.0 / 150.0;
      SquareMonotone(t, sd);
      assert t <= sd;
    }
  }

  lemma {:induction false} ContrastUpperEdge(c: int, sd: real)
    requires 0 <= c <= 100 && sd >= 0.0
    requires c == 100 || sd * sd < Threshold(c + 1)
    ensures MinR(100.0, sd / 128.0 * 100.0 * 1.5) < c as real + 0.5
  {
    if c < 100 {
      var t := ((c + 1) as real - 0.5) * 128.0 / 150.0;
      SquareMonotone(t, sd);
      assert sd < t;
    }
  }

  /** No spread, no contrast. */
  lemma {:induction false} ContrastOfZeroVariance()
    ensures ContrastScore(0.0) == 0
  {
    assert Threshold(1) > 0.0;
  }

  // ---------------------------------------------------------------------
  // The metrics
  // ---------------------------------------------------------------------

  /** The final block of `analyzeImages` that turns the accumulators into
      brightness, contrast, saturation and density. */
  function ComputeMetrics(st: Stats): (m: StyleMetrics)
    ensures st.pixels == 0 <==> m == AllNaN
    ensures st.pixels > 0 ==> m.brightness.Num? && m.contrast.Num? && m.saturation.Num? && m.density.Num?
  {
    if st.pixels == 0 then AllNaN
    else
      var n := st.pixels as real;
      var avgLum := st.lumSum / n;
      var brightness := Round(avgLum / 255.0 * 100.0);
      var variance := SumSquares(st.lums, avgLum) / n;
      var contrast := ContrastScore(variance);
      var saturation := Round(st.satSum / n);
      var density := Round(MinR(100.0, st.edges as real / n * 100.0 * 3.0));
      StyleMetrics(Num(brightness), Num(contrast), Num(saturation), Num(density))
  }

  lemma {:induction false} SumRealWithin(xs: seq<real>, lo: real, hi: real)
    requires forall i :: 0 <= i < |xs| ==> lo <= xs[i] <= hi
    ensures lo * |xs| as real <= SumReal(xs) <= hi * |xs| as real
  {
    if |xs| > 0 {
      SumRealWithin(xs[..|xs| - 1], lo, hi);
    }
  }

  /** Whenever at least one sample was opaque, the four metrics lie in
      [0, 100]: luminance is a weighted average of channels, saturation is a
      percentage, and contrast and density are clamped. */
  lemma {:induction false} MetricsInRange(st: Stats, s: seq<Rgb>)
    requires Accounts(st, s) && st.pixels > 0
    ensures InRange(ComputeMetrics(st))
  {
    LuminanceSumWithin(st.lums, s);
    TotalsGiveRange(st);
  }

  /** The luminance total of `n` samples lies in [0, 255 n]. */
  lemma {:induction false} LuminanceSumWithin(lums: seq<real>, s: seq<Rgb>)
    requires |lums| == |s| && forall i :: 0 <= i < |s| ==> lums[i] == Luminance(s[i])
    ensures 0.0 <= SumReal(lums) <= 255.0 * |lums| as real
  {
    forall i | 0 <= i < |lums|
      ensures 0.0 <= lums[i] <= 255.0
    {
      assert lums[i] == Luminance(s[i]);
    }
    SumRealWithin(lums, 0.0, 255.0);
  }

  lemma {:induction false} TotalsGiveRange(st: Stats)
    requires st.pixels > 0
    requires 0.0 <= st.lumSum <= 255.0 * st.pixels as real
    requires 0.0 <= st.satSum <= 100.0 * st.pixels as real
    requires st.edges <= st.pixels
    ensures InRange(ComputeMetrics(st))
  {
    var n := st.pixels as real;
    BrightnessWithin(st.lumSum, n);
    AverageWithin(st.satSum, n);
    DensityWithin(st.edges, st.pixels);
  }

  lemma {:induction false} BrightnessWithin(sum: real, n: real)
    requires n > 0.0 && 0.0 <= sum <= 255.0 * n
    ensures 0 <= Round(sum / n / 255.0 * 100.0) <= 100
  {
    DivWithin(sum, n, 0.0, 255.0);
    DivWithin(sum / n, 255.0, 0.0, 1.0);
    RoundWithin(sum / n / 255.0 * 100.0, 0, 100);
  }

  lemma {:induction false} AverageWithin(sum: real, n: real)
    requires n > 0.0 && 0.0 <= sum <= 100.0 * n
    ensures 0 <= Round(sum / n) <= 100
  {
    DivWithin(sum, n, 0.0, 100.0);
    RoundWithin(sum / n, 0, 100);
  }

  lemma {:induction false} DensityWithin(edges: nat, pixels: nat)
    requires 0 < pixels && edges <= pixels
    ensures 0 <= Round(MinR(100.0, edges as real / pixels as real * 100.0 * 3.0)) <= 100
  {
    DivWithin(edges as real, pixels as real, 0.0, 1.0);
    RoundWithin(MinR(100.0, edges as real / pixels as real * 100.0 * 3.0), 0, 100);
  }

  lemma {:induction false} SumOfEqual(xs: seq<real>, v: real)
    requires forall i :: 0 <= i < |xs| ==> xs[i] == v
    ensures SumReal(xs) == |xs| as real * v
    ensures SumSquares(xs, v) == 0.0
  {
    if |xs| > 0 {
      SumOfEqual(xs[..|xs| - 1], v);
    }
  }

  lemma {:induction false} UniformVariance(lums: seq<real>, lumSum: real, v: real)
    requires |lums| > 0 && lumSum == SumReal(lums)
    requires forall i :: 0 <= i < |lums| ==> lums[i] == v
    ensures SumSquares(lums, lumSum / |lums| as real) / |lums| as real == 0.0
  {
    var n := |lums| as real;
    SumOfEqual(lums, v);
    DivCancel(n, v);
    assert lumSum / n == v;
    assert SumSquares(lums, v) / n == 0.0;
  }

  /** An image set whose opaque samples all have the same luminance has
      contrast 0. */
  lemma {:induction false} UniformLuminanceHasNoContrast(st: Stats, s: seq<Rgb>, v: real)
    requires Accounts(st, s) && st.pixels > 0
    requires forall i :: 0 <= i < |s| ==> Luminance(s[i]) == v
    ensures ComputeMetrics(st).contrast == Num(0)
  {
    UniformVariance(st.lums, st.lumSum, v);
    ContrastOfZeroVariance();
  }

  /** Density is 0 when no edge was counted. */
  lemma {:induction false} NoEdgesNoDensity(st: Stats)
    requires st.pixels > 0 && st.edges == 0
    ensures ComputeMetrics(st).density == Num(0)
  {
    assert MinR(100.0, st.edges as real / st.pixels as real * 100.0 * 3.0) == 0.0;
  }
}
