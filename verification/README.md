# StyleCard Style DNA — a Dafny model

StyleCard takes one to three screenshots of a web site and derives its
"Style DNA". This project models the parts of that pipeline that are pure logic
and proves properties about them. The analysis runs in the browser.

- **The analyser (`analyzeImages`).** It samples every image on a 100 x 100
  canvas. It folds over the RGBA samples and accumulates luminance, HSL
  saturation, an edge count and 5-bit colour buckets. From these it derives:
  - brightness, contrast, saturation and density, each on a 0–100 scale;
  - a palette of up to five colours, each with a percentage and a role;
  - up to four vibe tags from a fixed rule table;
  - a confidence score that depends only on the number of images.
- **The share card (`generateShareCard`).** This is a 1200 x 630 image. The
  model covers its layout arithmetic:
  - the background fill;
  - the stacked image tiles and the "cover" scaling of each image;
  - the palette circles;
  - the wrapping row of tag chips;
  - the metrics line and its position.
- **The analysis page.** The model covers two pieces:
  - the filter that decides which dropped files are analysed;
  - the text offered for sharing a result.

JavaScript numbers are modelled as exact reals (`real`). `Math.round(x)` is
`floor(x + 0.5)`. The modules follow the source:

| file | module | models |
|---|---|---|
| `common.dfy` | `Common` | option type, rounding, subsequences, `join` |
| `colour.dfy` | `Colour` | `rgbToHsl`, `rgbToHex` (and parsing back), luminance, distance, quantisation |
| `buckets.dfy` | `Buckets` | the `colorBuckets` object |
| `sampling.dfy` | `Sampling` | the pixel loop over all images |
| `metrics.dfy` | `Metrics` | brightness, contrast, saturation, density |
| `ranking.dfy` | `Ranking` | the stable sort of buckets by count |
| `palette.dfy` | `Palette` | top 8, distinct selection, padding, entries and roles |
| `vibe.dfy` | `Vibe` | vibe-tag rules, `Set` de-duplication, confidence |
| `analyzer.dfy` | `Analyzer` | `analyzeImages` as a whole |
| `text.dfy` | `Text` | decimal printing of metric values |
| `share_card.dfy` | `ShareCard` | the share-card layout |
| `analyze_page.dfy` | `AnalyzePage` | `handleFiles` filter, `handleShareOnX` text |

## Behaviour as written

Some of the code's behaviour is surprising; the model follows the code:

- **No-opaque-sample case.** When no sample is opaque, the source divides by
  `totalPixels == 0` without a guard. It raises no error. Every metric becomes
  `NaN`, so the model's `Score` type has a `NaN` case. Every comparison with
  `NaN` is false, so no tag rule fires and the tags are "Balanced", "Neutral".
  There are no buckets, so the palette is empty.
- **Palette length.** The palette is not always five colours. Padding reuses
  the top buckets, so a single-colour image set gives two entries: the same
  bucket twice.
- **Shared canvas.** The images are drawn one after another onto the same
  canvas, and the canvas is never cleared between them. The samples of image
  k are therefore the canvas after drawing images 0 to k. Where image k is
  transparent, the pixels of earlier images show through, are opaque, and are
  counted again. The model takes each image's samples as that read-back, so
  "opaque sample" always means an opaque pixel of the canvas, not of the
  image file.
- **Edge test.** The edge test needs a byte offset above 4, so samples 0 and 1
  of every image are never tested. It compares a sample with the one before it
  in the buffer:
  - across row ends;
  - even when that sample was transparent and skipped.
- **Background.** The background is always `#F7F7F7`. The dark choice is
  computed and then overwritten. The dominant hex is computed and never used.
- **Footer position.** The footer is placed with the card's height (630). It
  does not use the chip height that shadows that name inside the tag loop.
- **Contrast.** Contrast uses `Math.sqrt`. The model avoids the square root.
  `ContrastScore(v)` is the largest `n` in [0, 100] whose threshold
  `((n - 0.5) * 128 / 150)^2` the variance reaches.
  `Metrics.ContrastIsRoundedStdDev` proves this equals
  `round(min(100, sd / 128 * 100 * 1.5))` for every `sd >= 0` with
  `sd * sd == v`.
- **Sort ties.** Buckets are kept in insertion order. This is the order
  `Object.values` returns for these keys, which are not array indices. The
  sort is stable (ECMAScript 2019 and later), so equal counts keep that order.

## Model

| member | source | states |
|---|---|---|
| Colour.Luminance | src/lib/analyzer.ts:111 | luminance of a colour lies in [0, 255], and a grey maps to its own channel value |
| Colour.RgbToHsl | src/lib/analyzer.ts:24-39 | hue in [0, 360), saturation and lightness in [0, 100]; saturation is 0 exactly for greys (r = g = b) |
| Colour.HueSixths | src/lib/analyzer.ts:31-35 | the switch on the maximum channel (red tested first) yields a hue in [0, 6) sixths |
| Colour.SaturationFraction | src/lib/analyzer.ts:30 | both branches of the saturation formula give a value in (0, 1] for a non-grey colour |
| Colour.SaturationIsHsl | src/lib/analyzer.ts:116-117 | the saturation the loop adds is the middle component of rgbToHsl, in [0, 100], and 0 exactly for greys |
| Colour.Quantize | src/lib/analyzer.ts:129-132 | each quantised channel is at or below the channel and less than 32 away |
| Colour.QuantizeCorner | src/lib/analyzer.ts:129-132 | each quantised channel is a multiple of 32, at or below the channel and less than 32 away |
| Colour.QuantizeUnique | src/lib/analyzer.ts:129-132 | any colour whose channels are multiples of 32 within 32 below the colour's is the quantised colour, so the bucket key is determined |
| Colour.RgbToHex | src/lib/analyzer.ts:42-47 | always "#" plus two upper-case hex digits per channel (high nibble, low nibble), seven characters |
| Colour.HexRoundTrip | src/lib/analyzer.ts:42-47 | parsing the hex string gives back the colour |
| Colour.HexRoundTripBack | src/lib/analyzer.ts:42-47 | every "#" + six upper-case hex digits string is the hex of the colour it parses to |
| Buckets.FindKey | src/lib/analyzer.ts:135 | the key lookup finds the bucket with that key, or reports that none has it |
| Buckets.AddSample | src/lib/analyzer.ts:128-138 | the counts grow by exactly one in total, and the list grows by one bucket exactly when the key is new |
| Buckets.AddSampleShape | src/lib/analyzer.ts:128-138 | exactly one count goes up by one; a new key appends a bucket with count 1 and the sample as representative; otherwise keys and representatives are unchanged |
| Buckets.BucketizeDescribes | src/lib/analyzer.ts:128-138 | against reference counts over the sample stream: keys distinct, count = number of samples with that key, representative = first such sample, every sample has a bucket, buckets in first-occurrence order, counts sum to the sample count |
| Buckets.BucketFacts | src/lib/analyzer.ts:128-138 | every bucket's key is its representative's quantised colour and its count is between 1 and the number of samples |
| Sampling.VisitAccounts | src/lib/analyzer.ts:100-139 | one loop step keeps the account: a sample with alpha < 255 changes nothing; an opaque one appends its luminance, adds its HSL saturation to the saturation sum and its colour to the buckets; the edge count grows by at most one |
| Sampling.ScanImageAccounts | src/lib/analyzer.ts:100-139 | scanning an image accounts for exactly its opaque samples, in order: their luminances, the sum of their saturations and their buckets; the edges it adds are exactly its edge positions |
| Sampling.ImageEdges | src/lib/analyzer.ts:100-126 | the edges one image adds are the number of positions p >= 2 with an opaque sample whose colour differs from sample p - 1's by more than 100 |
| Sampling.ScanImagesAccounts | src/lib/analyzer.ts:94-140 | over all images the accumulators describe exactly the opaque samples: one luminance each and their sum, the sum of their saturations, the buckets of the stream with counts summing to the pixel count; the edge count is the total of every image's edge positions |
| Sampling.EdgesPerImage | src/lib/analyzer.ts:100-126 | the index restarts per image, so an image adds the same edges and pixels whatever came before |
| Sampling.EdgesIgnoreFirstColour | src/lib/analyzer.ts:120-126 | sample 0's colour never affects the edge count, since sample 1 is not compared with it |
| Sampling.SecondSampleNotCompared | src/lib/analyzer.ts:120-125 | a black-white pair gives no edge, while a third sample differing by more than 100 does |
| Sampling.EdgeAgainstSkippedSample | src/lib/analyzer.ts:106-125 | a sample is compared with a preceding transparent sample that was itself skipped |
| Metrics.SumSquares | src/lib/analyzer.ts:147 | the sum of squared deviations is non-negative |
| Metrics.ContrastScore | src/lib/analyzer.ts:147-149 | the contrast is in [0, 100] and is the largest value whose threshold the variance reaches |
| Metrics.ContrastIsRoundedStdDev | src/lib/analyzer.ts:147-149 | for the standard deviation sd, contrast = round(min(100, sd / 128 * 100 * 1.5)) |
| Metrics.ComputeMetrics | src/lib/analyzer.ts:143-155 | all four metrics are NaN exactly when no sample was counted, and numbers otherwise |
| Metrics.MetricsInRange | src/lib/analyzer.ts:143-155 | with at least one opaque sample, brightness, contrast, saturation and density are in [0, 100] |
| Metrics.UniformLuminanceHasNoContrast | src/lib/analyzer.ts:147-149 | equal luminances give contrast 0 |
| Metrics.NoEdgesNoDensity | src/lib/analyzer.ts:154-155 | no edges give density 0 |
| Ranking.Insert | src/lib/analyzer.ts:158 | inserting keeps the multiset and keeps the order descending by count |
| Ranking.SortByCount | src/lib/analyzer.ts:158 | the sorted buckets are a permutation of the buckets, ordered by descending count |
| Ranking.SortIsStable | src/lib/analyzer.ts:158 | for every count, buckets with that count keep their input order |
| Ranking.SortedFirstIsLargest | src/lib/analyzer.ts:158 | the first sorted bucket has the largest count |
| Palette.TopBuckets | src/lib/analyzer.ts:158-159 | min(8, n) buckets, sorted, all from the input, the first with the largest count |
| Palette.TopBucketsAreLargest | src/lib/analyzer.ts:158-159 | the candidates are a sub-multiset of the buckets, and no bucket left out has a larger count than the last candidate |
| Palette.TopBucketsStable | src/lib/analyzer.ts:158-159 | ties keep insertion order: for every count, the candidates with that count are the first buckets with that count, in input order |
| Palette.SelectDistinct | src/lib/analyzer.ts:162-175 | the first candidate is kept; at most 5 kept; kept representatives pairwise at distance >= 60; kept in rank order (a subsequence) |
| Palette.SelectDistinctMaximal | src/lib/analyzer.ts:163-175 | every candidate is kept, lies within distance 60 of a bucket of the final selection, or the final selection holds five |
| Palette.SelectDistinctGreedy | src/lib/analyzer.ts:163-175 | the loop is greedy in rank order: the selection over the first k candidates is a prefix of the final one, and candidate k is appended exactly when it is not kept already, fewer than five are kept and none kept before it is within distance 60 |
| Palette.Padded | src/lib/analyzer.ts:176-181 | the kept buckets come first, then top buckets from the start, for min(5, kept + top) entries |
| Palette.Chosen | src/lib/analyzer.ts:158-181 | exactly 5 entries with at least 5 buckets, none with none, min(5, kept + candidates) in general; the first is a most frequent bucket; all come from the buckets |
| Palette.SingleBucketRepeats | src/lib/analyzer.ts:176-181 | a single bucket yields a two-entry palette repeating it |
| Palette.Percentage | src/lib/analyzer.ts:183-193 | with x = count / total * 100: the percentage is 1 exactly when x < 1.5, lies within half a unit of x whenever x >= 0.5, and is at most 100 when the count is within the total |
| Palette.RoleAt | src/lib/analyzer.ts:184-192 | index 0 is dominant, index 1 secondary, later entries accent iff HSL saturation > 30, otherwise muted |
| Palette.Entry | src/lib/analyzer.ts:181-194 | the entry's hex is "#" and six upper-case digits that parse back to the representative, its percentage is the bucket's share and its role follows the index rule |
| Palette.ExtractPalette | src/lib/analyzer.ts:181-194 | one entry per chosen bucket; its hex is the representative's `rgbToHex` (seven characters, parsing back to the representative); its percentage and role follow the entry rules |
| Palette.PaletteShares | src/lib/analyzer.ts:181-194 | all percentages are in [1, 100] and the dominant entry has the largest |
| Vibe.Dedupe | src/lib/analyzer.ts:221 | the result has no duplicates, the same members as the input, and keeps input order |
| Vibe.DedupeKeepsFirstOccurrences | src/lib/analyzer.ts:221 | the tags come in the order of their first occurrence in the input, as a Set iterates |
| Vibe.DedupeOfDistinct | src/lib/analyzer.ts:221 | a list without duplicates is unchanged |
| Vibe.VibeTagsShape | src/lib/analyzer.ts:197-221 | the rule list has no duplicates and 2, 4, 6 or 8 tags; the output is its first four, so 2 or 4 distinct tags |
| Vibe.BalancedIffNoRule | src/lib/analyzer.ts:209-210 | "Balanced" is output iff no rule fired, and then the tags are exactly the fallback pair |
| Vibe.RuleConditions | src/lib/analyzer.ts:197-207 | each group's tag is pushed iff its threshold condition holds; the else-if branches never both fire |
| Vibe.NaNMetricsAreBalanced | src/lib/analyzer.ts:197-210 | NaN metrics give exactly "Balanced", "Neutral" |
| Vibe.Confidence | src/lib/analyzer.ts:213 | 75 iff one file, 92 iff three, 85 otherwise |
| Analyzer.AnalyzeImages | src/lib/analyzer.ts:62-225 | original images are the data URLs in order; confidence is in {75, 85, 92} by file count; every palette hex has seven characters |
| Analyzer.AnalyzeImagesTags | src/lib/analyzer.ts:196-221 | the result always has two or four distinct tags |
| Analyzer.AnalyzeWithoutOpaqueSamples | src/lib/analyzer.ts:143-210 | no opaque sample: NaN metrics, empty palette, fallback tags |
| Analyzer.AnalyzeWithOpaqueSamples | src/lib/analyzer.ts:143-194 | some opaque sample: metrics in [0, 100], 2 to 5 palette entries with percentages in [1, 100], led by dominant then secondary |
| Analyzer.ScanBuckets | src/lib/analyzer.ts:100-139 | the pixel count is the number of opaque samples; there are buckets iff it is positive; each bucket count is between 1 and it |
| ShareCard.BackgroundIsAlwaysLight | src/lib/share-card.ts:12-17 | the fill is #F7F7F7 for every result, dark or not |
| ShareCard.StackTiles | src/lib/share-card.ts:74-83 | 1, 2 or 3 images give that many tiles, other counts none; tiles go back to front with image 0 last; radius 48 |
| ShareCard.StackGeometry | src/lib/share-card.ts:32-83 | for 2 or 3 images, image k is at (600 + 40k, 85 - 20k) with size 480 - 20k; every tile lies in the right half of the card; sizes grow towards the front |
| ShareCard.CoverRect | src/lib/share-card.ts:63-67 | the drawn image covers the tile, matches it in one dimension, keeps the image's aspect ratio and is centred on the tile |
| ShareCard.PaletteCircles | src/lib/share-card.ts:100-111 | one circle per palette entry, in palette order, filled with its hex |
| ShareCard.CircleGeometry | src/lib/share-card.ts:86-111 | circle i is centred at (96 + 80i, 312) with radius 32; circles are 16 apart and end before the image area |
| ShareCard.SeparatedDisjoint | src/lib/share-card.ts:119-140 | chips that are separated do not overlap |
| ShareCard.LayoutChips | src/lib/share-card.ts:113-141 | chips are text width + 48 by 44; a chip wraps to x = 64, 60 lower, iff it would pass 550 (the first chip too); non-wrapping chips fit within 550; no two chips overlap; the last row is returned |
| ShareCard.MetricsLineInjective | src/lib/share-card.ts:147 | the line "Density: d • Contrast: c • Saturation: s" determines d, c and s, including NaN |
| ShareCard.GenerateShareCard | src/lib/share-card.ts:3-158 | light background; one placed image per tile, each covering its tile; circles per palette entry; chips per tag by the wrap rule; metrics line 96 below the last chip row; footer at 582 |
| Text.IntToStringInjective | src/lib/share-card.ts:147 | different metric values print differently |
| Text.ParseNatToString | src/lib/share-card.ts:147 | the printed digits read back to the number |
| AnalyzePage.KeepAcceptable | src/app/analyze/page.tsx:28-30 | the kept files are the image files of at most 8 MiB, in input order, all of them |
| AnalyzePage.HandleFiles | src/app/analyze/page.tsx:26-36 | rejected with the 8MB message iff no file is acceptable; otherwise the first min(3, acceptable) acceptable files, in input order |
| AnalyzePage.SizeBoundInclusive | src/app/analyze/page.tsx:27-30 | a file of exactly 8 MiB is accepted, one byte more is rejected |
| AnalyzePage.AcceptedConfidence | src/app/analyze/page.tsx:33-46 | an accepted drop is analysed with confidence 75, 85 or 92 |
| AnalyzePage.ShareOnX | src/app/analyze/page.tsx:104-109 | there is text exactly when there is a result; it opens with "My site's Style DNA:", ends with origin + "/analyze", and carries the first three palette hexes at their fixed places after "Palette: " when each hex has seven characters |
| AnalyzePage.ShareTextLayout | src/app/analyze/page.tsx:106-109 | the text starts with the header and ends with origin + "/analyze"; the i-th of the first three hexes is at a fixed offset after "Palette: " |

## Left out

- Reading files to data URLs, decoding images and the browser's `drawImage`
  resampling are left out: they are browser I/O. Every image enters as its
  data URL and the RGBA samples read back from the shared canvas after it
  was drawn.
- Canvas drawing is left out because it is foreign code. This covers paths,
  `arcTo`, `roundRect`, clipping, shadows, rotation, `fillText`, fonts and
  `toDataURL`. The rotation angle is kept as data. Text widths from
  `measureText` are inputs, and loaded image sizes are inputs.
- The tag text offset inside a chip is left out. The text sits 24 in and 28
  down from the chip's corner. It only matters to the drawing call.
- IEEE floating point is left out; numbers are exact reals. The model ignores
  rounding error in luminance, the HSL conversion and the percentages, and
  `NaN` appears only as the division by zero it models.
- `Palette.TopBuckets`: its own contract does not say which buckets are
  kept. `Palette.TopBucketsAreLargest` (largest counts) and
  `Palette.TopBucketsStable` (ties in insertion order) state it, apart, so
  that the callers' proofs stay small.
- `Vibe.Dedupe`: its own contract does not give the order by first
  occurrence. `Vibe.DedupeKeepsFirstOccurrences` states it, apart, for the
  same reason.
- `Colour.Quantize`: its own contract gives only the bounds.
  `Colour.QuantizeCorner` adds that each channel is a multiple of 32. That
  fact is kept apart, so that it is in scope only where a proof uses it.
- `Metrics.ContrastScore`: it does not compute `Math.sqrt`. It is the exact
  characterisation proved equal by `Metrics.ContrastIsRoundedStdDev`.
- `Colour.RgbToHsl`: the hue, lightness and saturation contracts are ranges
  and the grey case. Only saturation is used downstream.
- `Palette.ExtractPalette`: it requires a positive sample count whenever
  there are buckets. The source always has this, because both come from the
  same pass.
- `ShareCard.CoverRect`: it requires positive image dimensions. Every image
  that loaded has them.
- `ShareCard.LayoutChips`: it requires non-negative text widths, as
  `measureText` returns.
- React state, `alert`, timers, clipboard and `window.open` are left out
  because they are UI plumbing. So is the `encodeURIComponent` of the share
  URL. The rejection of a drop is an outcome value carrying the alert text.
- `handleDrag`, `handleDrop` and `handleGenerateShareCard` are left out; they
  only forward to the modelled functions.
