/** `analyzeImages`: from the sampled images to the Style DNA record. Reading
    the files, decoding them and scaling them onto the 100 x 100 canvas are
    browser work outside the model; each image arrives as its data URL and
    its read-back samples. */
module Analyzer {
  import opened Common
  import opened Colour
  import opened Buckets
  import opened Sampling
  import opened Metrics
  import opened Palette
  import opened Vibe

  /** One uploaded image: the data URL `fileToDataURL` produced and the RGBA
      samples read back from the shared canvas once the image was drawn over
      the images before it. */
  datatype Upload = Upload(dataUrl: string, samples: Samples)

  /** `StyleDNAOutput`. */
  datatype StyleDna = StyleDna(
    palette: seq<PaletteColour>,
    metrics: StyleMetrics,
    vibeTags: seq<string>,
    confidence: nat,
    originalImages: seq<string>)

  function AllSamples(uploads: seq<Upload>): (imgs: seq<Samples>)
    ensures |imgs| == |uploads|
    ensures forall i :: 0 <= i < |uploads| ==> imgs[i] == uploads[i].samples
  {
    seq(|uploads|, i requires 0 <= i < |uploads| => uploads[i].samples)
  }

  function DataUrls(uploads: seq<Upload>): (urls: seq<string>)
    ensures |urls| == |uploads|
    ensures forall i :: 0 <= i < |uploads| ==> urls[i] == uploads[i].dataUrl
  {
    seq(|uploads|, i requires 0 <= i < |uploads| => uploads[i].dataUrl)
  }

  /** The analysis: scan every image, derive the metrics, the palette and the
      tags, and look up the confidence. */
  function AnalyzeImages(uploads: seq<Upload>): (dna: StyleDna)
    ensures dna.originalImages == DataUrls(uploads)
    ensures dna.confidence in {75, 85, 92}
    ensures dna.confidence == 75 <==> |uploads| == 1
    ensures dna.confidence == 92 <==> |uploads| == 3
    ensures forall k :: 0 <= k < |dna.palette| ==> |dna.palette[k].hex| == 7
  {
    var imgs := AllSamples(uploads);
    var st := ScanImages(imgs);
    ScanBuckets(imgs);
    var metrics := ComputeMetrics(st);
    StyleDna(ExtractPalette(st.buckets, st.pixels), metrics, VibeTags(metrics),
             Confidence(|uploads|), DataUrls(uploads))
  }

  /** Whatever the images, there are two or four distinct tags. */
  lemma {:induction false} AnalyzeImagesTags(uploads: seq<Upload>)
    ensures |AnalyzeImages(uploads).vibeTags| in {2, 4}
    ensures NoDuplicates(AnalyzeImages(uploads).vibeTags)
  {
    VibeTagsShape(AnalyzeImages(uploads).metrics);
  }

  /** When no sample is opaque the metrics are `NaN`, the palette is empty
      and the tags are the fallback pair. */
  lemma {:induction false} AnalyzeWithoutOpaqueSamples(uploads: seq<Upload>)
    requires |OpaqueStream(AllSamples(uploads))| == 0
    ensures AnalyzeImages(uploads).metrics == AllNaN
    ensures AnalyzeImages(uploads).palette == []
    ensures AnalyzeImages(uploads).vibeTags == Fallback
  {
    var imgs := AllSamples(uploads);
    ScanBuckets(imgs);
    NaNMetricsAreBalanced();
  }

  /** Otherwise the metrics lie in [0, 100] and the palette has between two
      and five entries with percentages in [1, 100], led by the dominant and
      the secondary colour. */
  lemma {:induction false} AnalyzeWithOpaqueSamples(uploads: seq<Upload>)
    requires |OpaqueStream(AllSamples(uploads))| > 0
    ensures InRange(AnalyzeImages(uploads).metrics)
    ensures 2 <= |AnalyzeImages(uploads).palette| <= PaletteSize
    ensures forall i :: 0 <= i < |AnalyzeImages(uploads).palette| ==> 1 <= AnalyzeImages(uploads).palette[i].pct <= 100
    ensures AnalyzeImages(uploads).palette[0].role == Dominant
    ensures AnalyzeImages(uploads).palette[1].role == Secondary
  {
    var imgs := AllSamples(uploads);
    var st := ScanImages(imgs);
    ScanBuckets(imgs);
    assert AnalyzeImages(uploads).metrics == ComputeMetrics(st);
    ScanTotals(imgs);
    TotalsGiveRange(st);
    AnalyzePaletteShape(uploads);
  }

  lemma {:induction false} AnalyzePaletteShape(uploads: seq<Upload>)
    requires |OpaqueStream(AllSamples(uploads))| > 0
    ensures 2 <= |AnalyzeImages(uploads).palette| <= PaletteSize
    ensures forall i :: 0 <= i < |AnalyzeImages(uploads).palette| ==> 1 <= AnalyzeImages(uploads).palette[i].pct <= 100
    ensures AnalyzeImages(uploads).palette[0].role == Dominant
    ensures AnalyzeImages(uploads).palette[1].role == Secondary
  {
    var imgs := AllSamples(uploads);
    var st := ScanImages(imgs);
    ScanBuckets(imgs);
    PaletteFacts(AnalyzeImages(uploads).palette, st.buckets, st.pixels);
  }

  /** The totals the fold leaves are within the bounds the metrics need. */
  lemma {:induction false} ScanTotals(imgs: seq<Samples>)
    ensures 0.0 <= ScanImages(imgs).lumSum <= 255.0 * ScanImages(imgs).pixels as real
    ensures 0.0 <= ScanImages(imgs).satSum <= 100.0 * ScanImages(imgs).pixels as real
    ensures ScanImages(imgs).edges <= ScanImages(imgs).pixels
  {
    ScanImagesAccounts(imgs);
    LuminanceSumWithin(ScanImages(imgs).lums, OpaqueStream(imgs));
  }

  /** The fold leaves buckets exactly when it counted opaque samples, and
      every bucket holds between one and all of them. */
  lemma {:induction false} ScanBuckets(imgs: seq<Samples>)
    ensures ScanImages(imgs).pixels == |OpaqueStream(imgs)|
    ensures ScanImages(imgs).pixels == 0 <==> |ScanImages(imgs).buckets| == 0
    ensures forall b :: b in ScanImages(imgs).buckets ==> 1 <= b.count <= ScanImages(imgs).pixels
  {
    var st, s := ScanImages(imgs), OpaqueStream(imgs);
    ScanImagesAccounts(imgs);
    BucketizeDescribes(s);
    BucketFacts(s);
    if |s| > 0 {
      assert FindKey(st.buckets, Quantize(s[0])) < |st.buckets|;
    }
    forall b | b in st.buckets
      ensures 1 <= b.count <= st.pixels
    {
      var j :| 0 <= j < |st.buckets| && st.buckets[j] == b;
    }
  }

  /** A non-empty bucket list gives between two and five palette entries led
      by the dominant and the secondary colour. */
  lemma {:induction false} PaletteFacts(p: seq<PaletteColour>, buckets: seq<Bucket>, total: nat)
    requires total > 0 && |buckets| > 0
    requires forall b :: b in buckets ==> b.count <= total
    requires p == ExtractPalette(buckets, total)
    ensures 2 <= |p| <= PaletteSize
    ensures forall i :: 0 <= i < |p| ==> 1 <= p[i].pct <= 100
    ensures p[0].role == Dominant
    ensures p[1].role == Secondary
  {
    PaletteShares(buckets, total);
  }
}
