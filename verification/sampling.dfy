/** The one-pass fold of `analyzeImages` over the sampled pixels. Every
    image is drawn onto the same 100 x 100 canvas, which is never cleared,
    and the canvas is read back as RGBA samples in raster order; the fold
    skips samples that are not fully opaque and, for the others, accumulates
    luminance, HSL saturation, the edge heuristic and the colour buckets.
    The accumulators carry over from one image to the next; the sample index
    restarts with every image. */
module Sampling {
  import opened Common
  import opened Colour
  import opened Buckets

  /** The read-back of the canvas after one image was drawn on it, one entry
      per pixel in raster order; the sample at index `p` starts at byte
      offset `4 p` of the source's buffer. Pixels the image leaves
      transparent still show the images drawn before it. */
  type Samples = seq<Rgba>

  /** The running accumulators `totalPixels`, `totalLum`, `lumValues`,
      `totalSat`, `totalEdges` and `colorBuckets`. */
  datatype Stats = Stats(
    pixels: nat,
    lumSum: real,
    lums: seq<real>,
    satSum: real,
    edges: nat,
    buckets: seq<Bucket>)

  const NoStats: Stats := Stats(0, 0.0, [], 0.0, 0, [])

  /** A sample counts as an edge when its summed channel difference to the
      preceding sample exceeds this. */
  const EdgeThreshold: nat := 100

  /** The edge test for the sample at index `p`. It runs only when the byte
      offset `4 p` exceeds 4, so samples 0 and 1 of every image are never
      tested, and it compares with the preceding sample whatever that
      sample's alpha and whether or not it starts a new row. */
  predicate IsEdge(img: Samples, p: nat)
    requires p < |img|
  {
    4 * p > 4 && Distance(img[p].Colour(), img[p - 1].Colour()) > EdgeThreshold
  }

  /** One iteration of the pixel loop. */
  function Visit(st: Stats, img: Samples, p: nat): Stats
    requires p < |img|
  {
    var px := img[p];
    if px.a < 255 then st
    else
      var c := px.Colour();
      var lum := Luminance(c);
      st.(pixels := st.pixels + 1,
          lumSum := st.lumSum + lum,
          lums := st.lums + [lum],
          satSum := st.satSum + Saturation(c),
          edges := if IsEdge(img, p) then st.edges + 1 else st.edges,
          buckets := AddSample(st.buckets, c))
  }

  /** The pixel loop over the first `n` samples of one image. */
  function ScanImage(st: Stats, img: Samples, n: nat): Stats
    requires n <= |img|
  {
    if n == 0 then st else Visit(ScanImage(st, img, n - 1), img, n - 1)
  }

  /** `images.forEach(...)`: scan the images in order with shared accumulators. */
  function ScanImages(imgs: seq<Samples>): Stats
  {
    if |imgs| == 0 then NoStats
    else
      var last := imgs[|imgs| - 1];
      ScanImage(ScanImages(imgs[..|imgs| - 1]), last, |last|)
  }

  // ---------------------------------------------------------------------
  // Reference view: the stream of opaque colours
  // ---------------------------------------------------------------------

  /** What one sample contributes to the stream: its colour when it is
      opaque, nothing otherwise. */
  function Kept(px: Rgba): seq<Rgb>
  {
    if px.Opaque() then [px.Colour()] else []
  }

  /** Colours of the opaque samples among the first `n`, in scan order. */
  function OpaqueColours(img: Samples, n: nat): seq<Rgb>
    requires n <= |img|
  {
    if n == 0 then []
    else OpaqueColours(img, n - 1) + Kept(img[n - 1])
  }

  /** Colours of the opaque samples of all images, image after image. */
  function OpaqueStream(imgs: seq<Samples>): seq<Rgb>
  {
    if |imgs| == 0 then []
    else
      var last := imgs[|imgs| - 1];
      OpaqueStream(imgs[..|imgs| - 1]) + OpaqueColours(last, |last|)
  }

  function SumReal(xs: seq<real>): real
  {
    if |xs| == 0 then 0.0 else SumReal(xs[..|xs| - 1]) + xs[|xs| - 1]
  }

  lemma {:induction false} SumRealAppend(xs: seq<real>, x: real)
    ensures SumReal(xs + [x]) == SumReal(xs) + x
  {
    assert (xs + [x])[..|xs|] == xs;
  }

  /** Sum of the HSL saturations of the colours. */
  function SatSum(s: seq<Rgb>): real
  {
    if |s| == 0 then 0.0 else SatSum(s[..|s| - 1]) + Saturation(s[|s| - 1])
  }

  /** What the numeric accumulators hold after the opaque colours `s` went
      through the fold: one luminance per sample, in order, and their sum;
      the sum of the samples' saturations, which lies within [0, 100] per
      sample; and no more edges than samples. */
  ghost predicate Totals(st: Stats, s: seq<Rgb>)
  {
    && st.pixels == |s| == |st.lums|
    && (forall i :: 0 <= i < |s| ==> st.lums[i] == Luminance(s[i]))
    && st.lumSum == SumReal(st.lums)
    && st.satSum == SatSum(s)
    && 0.0 <= st.satSum <= 100.0 * st.pixels as real
    && st.edges <= st.pixels
  }

  /** The totals, and the buckets of `s`. */
  ghost predicate Accounts(st: Stats, s: seq<Rgb>)
  {
    Totals(st, s) && st.buckets == Bucketize(s)
  }

  /** One loop step keeps the account, and counts at most one edge. */
  lemma {:induction false} VisitAccounts(st: Stats, s: seq<Rgb>, img: Samples, p: nat, st': Stats, s': seq<Rgb>)
    requires p < |img| && Accounts(st, s)
    requires st' == Visit(st, img, p) && s' == s + Kept(img[p])
    ensures Accounts(st', s')
    ensures st.edges <= st'.edges <= st.edges + 1
  {
    VisitTotals(st, s, img, p, st', s');
    VisitBuckets(st, s, img, p);
  }

  lemma {:induction false} VisitTotals(st: Stats, s: seq<Rgb>, img: Samples, p: nat, st': Stats, s': seq<Rgb>)
    requires p < |img| && Totals(st, s)
    requires st' == Visit(st, img, p) && s' == s + Kept(img[p])
    ensures Totals(st', s')
    ensures st.edges <= st'.edges <= st.edges + 1
  {
    if img[p].Opaque() {
      var c := img[p].Colour();
      SumRealAppend(st.lums, Luminance(c));
      SaturationIsHsl(c);
      assert (s + [c])[..|s|] == s;
      assert SatSum(s + [c]) == SatSum(s) + Saturation(c);
    } else {
      assert s + [] == s;
    }
  }

  lemma {:induction false} VisitBuckets(st: Stats, s: seq<Rgb>, img: Samples, p: nat)
    requires p < |img| && st.buckets == Bucketize(s)
    ensures Visit(st, img, p).buckets == Bucketize(s + Kept(img[p]))
  {
    if img[p].Opaque() {
      var c := img[p].Colour();
      assert (s + [c])[..|s|] == s;
    } else {
      assert s + [] == s;
    }
  }

  lemma {:induction false} ScanImageAccounts(st: Stats, s: seq<Rgb>, img: Samples, n: nat)
    requires n <= |img| && Accounts(st, s)
    ensures Accounts(ScanImage(st, img, n), s + OpaqueColours(img, n))
    ensures ScanImage(st, img, n).edges == st.edges + |EdgePositions(img, n)|
  {
    ImageEdges(st, img, n);
    if n == 0 {
      assert s + [] == s;
    } else {
      ScanImageAccounts(st, s, img, n - 1);
      ScanImageStep(st, s, img, n);
    }
  }

  lemma {:induction false} ScanImageStep(st: Stats, s: seq<Rgb>, img: Samples, n: nat)
    requires 0 < n <= |img|
    requires Accounts(ScanImage(st, img, n - 1), s + OpaqueColours(img, n - 1))
    ensures Accounts(ScanImage(st, img, n), s + OpaqueColours(img, n))
  {
    StreamStep(s, img, n);
    assert ScanImage(st, img, n) == Visit(ScanImage(st, img, n - 1), img, n - 1);
    VisitAccounts(ScanImage(st, img, n - 1), s + OpaqueColours(img, n - 1), img, n - 1,
                  ScanImage(st, img, n), s + OpaqueColours(img, n));
  }

  /** The stream grows by what the next sample contributes. */
  lemma {:induction false} StreamStep(s: seq<Rgb>, img: Samples, n: nat)
    requires 0 < n <= |img|
    ensures (s + OpaqueColours(img, n - 1)) + Kept(img[n - 1]) == s + OpaqueColours(img, n)
  {
    AppendAssoc(s, OpaqueColours(img, n - 1), Kept(img[n - 1]));
  }

  lemma {:induction false} AppendAssoc(a: seq<Rgb>, b: seq<Rgb>, c: seq<Rgb>)
    ensures (a + b) + c == a + (b + c)
  {
  }

  /** The fold over all images accounts for exactly the opaque colours of
      the read-back samples, in scan order, and counts exactly the edge
      positions of every image; in particular samples that are not opaque
      are never counted and the bucket counts add up to the pixel count. */
  lemma {:induction false} ScanImagesAccounts(imgs: seq<Samples>)
    ensures Accounts(ScanImages(imgs), OpaqueStream(imgs))
    ensures SumCounts(ScanImages(imgs).buckets) == ScanImages(imgs).pixels
    ensures ScanImages(imgs).edges == EdgeTotal(imgs)
  {
    if |imgs| > 0 {
      var last := imgs[|imgs| - 1];
      ScanImagesAccounts(imgs[..|imgs| - 1]);
      ScanImageAccounts(ScanImages(imgs[..|imgs| - 1]), OpaqueStream(imgs[..|imgs| - 1]), last, |last|);
    }
    BucketizeDescribes(OpaqueStream(imgs));
  }

  // ---------------------------------------------------------------------
  // The edge heuristic
  // ---------------------------------------------------------------------

  /** Edges are counted within one image: an image adds the same number of
      edges whatever was scanned before it. */
  lemma {:induction false} EdgesPerImage(st: Stats, img: Samples, n: nat)
    requires n <= |img|
    ensures ScanImage(st, img, n).edges == st.edges + ScanImage(NoStats, img, n).edges
    ensures ScanImage(st, img, n).pixels == st.pixels + ScanImage(NoStats, img, n).pixels
  {
    if n > 0 {
      EdgesPerImage(st, img, n - 1);
    }
  }

  /** The positions among the first `n` samples that the loop counts as
      edges: opaque samples from index 2 on whose colour differs from the
      preceding sample's by more than the threshold. */
  ghost function EdgePositions(img: Samples, n: nat): set<nat>
    requires n <= |img|
  {
    set p: nat | 2 <= p < n && img[p].a == 255 && Distance(img[p].Colour(), img[p - 1].Colour()) > EdgeThreshold
  }

  /** Number of edge positions over all images, image by image. */
  ghost function EdgeTotal(imgs: seq<Samples>): nat
  {
    if |imgs| == 0 then 0
    else
      var last := imgs[|imgs| - 1];
      EdgeTotal(imgs[..|imgs| - 1]) + |EdgePositions(last, |last|)|
  }

  /** The edges one image adds are exactly its edge positions. */
  lemma {:induction false} ImageEdges(st: Stats, img: Samples, n: nat)
    requires n <= |img|
    ensures ScanImage(st, img, n).edges == st.edges + |EdgePositions(img, n)|
  {
    if n > 0 {
      ImageEdges(st, img, n - 1);
      EdgePositionsStep(img, n);
      assert ScanImage(st, img, n) == Visit(ScanImage(st, img, n - 1), img, n - 1);
    }
  }

  /** Sample `n - 1` adds itself to the edge positions exactly when the loop
      counts it. */
  lemma {:induction false} EdgePositionsStep(img: Samples, n: nat)
    requires 0 < n <= |img|
    ensures |EdgePositions(img, n)| == |EdgePositions(img, n - 1)| + (if img[n - 1].Opaque() && IsEdge(img, n - 1) then 1 else 0)
  {
    var p := n - 1;
    var before := EdgePositions(img, p);
    assert p !in before;
    if img[p].Opaque() && IsEdge(img, p) {
      assert EdgePositions(img, n) == before + {p};
    } else {
      assert EdgePositions(img, n) == before;
    }
  }

  /** The colour of sample 0 never influences the edge count: sample 1 is
      not compared with it, because the test needs a byte offset above 4. */
  lemma {:induction false} EdgesIgnoreFirstColour(st: Stats, img: Samples, img': Samples, n: nat)
    requires |img| == |img'| && n <= |img| && |img| > 0
    requires img[0].a == img'[0].a
    requires forall p :: 1 <= p < |img| ==> img[p] == img'[p]
    ensures ScanImage(st, img, n).edges == ScanImage(st, img', n).edges
  {
    if n > 0 {
      EdgesIgnoreFirstColour(st, img, img', n - 1);
      var p := n - 1;
      if p >= 2 {
        assert img[p - 1] == img'[p - 1];
      }
    }
  }

  const Black: Rgba := Rgba(0, 0, 0, 255)
  const White: Rgba := Rgba(255, 255, 255, 255)
  const Clear: Rgba := Rgba(255, 255, 255, 0)

  /** Sample 1 differs from sample 0 by 765 but is not an edge; sample 2
      differs from sample 1 by as much and is one. */
  lemma {:induction false} SecondSampleNotCompared()
    ensures Distance(White.Colour(), Black.Colour()) > EdgeThreshold
    ensures ScanImage(NoStats, [Black, White], 2).edges == 0
    ensures ScanImage(NoStats, [Black, White, Black], 3).edges == 1
  {
    var two, three := [Black, White], [Black, White, Black];
    assert !IsEdge(two, 0) && !IsEdge(two, 1);
    assert ScanImage(NoStats, two, 1).edges == 0;
    assert !IsEdge(three, 0) && !IsEdge(three, 1) && IsEdge(three, 2);
    assert ScanImage(NoStats, three, 1).edges == 0;
    assert ScanImage(NoStats, three, 2).edges == 0;
  }

  /** The comparison is with the preceding sample even when that sample is
      transparent and was itself skipped. */
  lemma {:induction false} EdgeAgainstSkippedSample()
    ensures ScanImage(NoStats, [Black, Black, Clear, Black], 4).edges == 1
    ensures ScanImage(NoStats, [Black, Black, Clear, Black], 4).pixels == 3
  {
    var img := [Black, Black, Clear, Black];
    assert !IsEdge(img, 0) && !IsEdge(img, 1) && !img[2].Opaque() && IsEdge(img, 3);
    assert ScanImage(NoStats, img, 1).edges == 0 && ScanImage(NoStats, img, 1).pixels == 1;
    assert ScanImage(NoStats, img, 2).edges == 0 && ScanImage(NoStats, img, 2).pixels == 2;
    assert ScanImage(NoStats, img, 3).edges == 0 && ScanImage(NoStats, img, 3).pixels == 2;
  }
}
