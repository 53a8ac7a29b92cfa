/** The layout arithmetic of `generateShareCard`: where the 1200 x 630 card
    puts the stacked images, how each image is scaled to cover its tile, where
    the palette circles and the tag chips go, and the metrics line. The
    drawing calls themselves (paths, clipping, shadows, rotation, text
    rendering, PNG encoding) are outside the model; text widths come from
    `measureText` and are inputs. */
module ShareCard {
  import opened Common
  import opened Metrics
  import opened Text
  import opened Palette
  import opened Analyzer

  const CardWidth: int := 1200
  const CardHeight: int := 630

  const LightBackground: string := "#F7F7F7"
  const DarkBackground: string := "#111111"

  /** The fill used for the background. The card first picks a dark fill for
      dark image sets, then overwrites the choice with the light one before
      painting, so every card has the light background. */
  function BackgroundFill(m: StyleMetrics): (fill: string)
  {
    var isDark := m.brightness.Below(30);
    var fillStyle := if isDark then DarkBackground else LightBackground;
    var fillStyle' := LightBackground;
    fillStyle'
  }

  lemma {:induction false} BackgroundIsAlwaysLight(m: StyleMetrics, m': StyleMetrics)
    ensures BackgroundFill(m) == BackgroundFill(m') == LightBackground
    ensures m.brightness.Below(30) ==> BackgroundFill(m) != DarkBackground
  {
  }

  // ---------------------------------------------------------------------
  // Stacked image tiles
  // ---------------------------------------------------------------------

  const MediaX: int := 600
  const MediaY: int := 65
  const MediaSize: int := 500
  const TileRadius: int := 48

  /** One `drawRoundedImage` call: which image, the square tile and its
      rotation in degrees. */
  datatype Tile = Tile(image: nat, x: int, y: int, size: int, radius: int, rotation: int)

  /** The tiles for `count` images in draw order, back to front. */
  function StackTiles(count: nat): (tiles: seq<Tile>)
    ensures count in {1, 2, 3} ==> |tiles| == count
    ensures count !in {1, 2, 3} ==> tiles == []
    ensures forall i :: 0 <= i < |tiles| ==> tiles[i].image == |tiles| - 1 - i && tiles[i].radius == TileRadius
  {
    if count == 1 then
      [Tile(0, MediaX, MediaY, MediaSize, TileRadius, 0)]
    else if count == 2 then
      [Tile(1, MediaX + 40, MediaY, MediaSize - 40, TileRadius, 4),
       Tile(0, MediaX, MediaY + 20, MediaSize - 20, TileRadius, -2)]
    else if count == 3 then
      [Tile(2, MediaX + 80, MediaY - 20, MediaSize - 60, TileRadius, 6),
       Tile(1, MediaX + 40, MediaY, MediaSize - 40, TileRadius, 2),
       Tile(0, MediaX, MediaY + 20, MediaSize - 20, TileRadius, -3)]
    else
      []
  }

  /** For two or three images the tile of image `k` is offset by 40 to the
      right and 20 up per step back and shrinks by 20; image 0 is drawn last,
      on top. Every tile lies inside the right half of the card, and tiles
      grow towards the front. */
  lemma {:induction false} StackGeometry(count: nat)
    ensures count in {2, 3} ==>
              forall i :: 0 <= i < |StackTiles(count)| ==>
                var t := StackTiles(count)[i];
                t.x == MediaX + 40 * t.image && t.y == MediaY + 20 - 20 * t.image && t.size == MediaSize - 20 - 20 * t.image
    ensures forall i :: 0 <= i < |StackTiles(count)| ==>
              var t := StackTiles(count)[i];
              CardWidth / 2 <= t.x && t.x + t.size <= CardWidth && 0 <= t.y && t.y + t.size <= CardHeight
    ensures forall i :: 0 < i < |StackTiles(count)| ==> StackTiles(count)[i - 1].size < StackTiles(count)[i].size
    ensures |StackTiles(count)| > 0 ==> StackTiles(count)[|StackTiles(count)| - 1].image == 0
  {
  }

  // ---------------------------------------------------------------------
  // Cover scaling
  // ---------------------------------------------------------------------

  /** The rectangle an image is drawn into. */
  datatype Rect = Rect(x: real, y: real, w: real, h: real)

  /** The object-fit "cover" computation of `drawRoundedImage` for an image
      of `iw` x `ih` pixels and the tile at (x, y) of `w` x `h`. */
  function CoverRect(x: real, y: real, w: real, h: real, iw: real, ih: real): (r: Rect)
    requires iw > 0.0 && ih > 0.0 && w >= 0.0 && h >= 0.0
    ensures r.w >= w && r.h >= h
    ensures r.w == w || r.h == h
    ensures r.w * ih == r.h * iw
    ensures r.x + r.w / 2.0 == x + w / 2.0 && r.y + r.h / 2.0 == y + h / 2.0
    ensures r.x <= x && x + w <= r.x + r.w && r.y <= y && y + h <= r.y + r.h
  {
    var sx, sy := w / iw, h / ih;
    var scale := MaxR(sx, sy);
    var drawW, drawH := iw * scale, ih * scale;
    CoverSides(w, iw, sx, scale);
    CoverSides(h, ih, sy, scale);
    assert drawW * ih == drawH * iw;
    Rect(x + (w - drawW) / 2.0, y + (h - drawH) / 2.0, drawW, drawH)
  }

  lemma {:induction false} CoverSides(w: real, iw: real, s: real, scale: real)
    requires iw > 0.0 && s == w / iw && scale >= s
    ensures iw * scale >= w
    ensures scale == s ==> iw * scale == w
  {
    assert iw * s == w;
    assert iw * scale - iw * s == iw * (scale - s);
    if scale > s {
      MulPositive(iw, scale - s);
    }
  }

  // ---------------------------------------------------------------------
  // Vertical rhythm of the text column
  // ---------------------------------------------------------------------

  const TextX: int := 64
  const TitleY: int := 160
  const SubtitleY: int := TitleY + 40
  const PaletteY: int := SubtitleY + 80
  const CircleSize: int := 64
  const CircleGap: int := 16
  const ChipsY: int := PaletteY + CircleSize + 48

  // ---------------------------------------------------------------------
  // Palette circles
  // ---------------------------------------------------------------------

  datatype Circle = Circle(cx: int, cy: int, radius: int, fill: string)

  /** One circle per palette entry, left to right in palette order. */
  function PaletteCircles(palette: seq<PaletteColour>): (cs: seq<Circle>)
    ensures |cs| == |palette|
    ensures forall i :: 0 <= i < |cs| ==> cs[i].fill == palette[i].hex
  {
    seq(|palette|, i requires 0 <= i < |palette| =>
      Circle(TextX + i * (CircleSize + CircleGap) + CircleSize / 2, PaletteY + CircleSize / 2, CircleSize / 2, palette[i].hex))
  }

  /** Circle `i` is centred at (96 + 80 i, 312) with radius 32; neighbouring
      circles are 16 apart, so none overlap, and five of them end before the
      image area. */
  lemma {:induction false} CircleGeometry(palette: seq<PaletteColour>)
    requires |palette| <= PaletteSize
    ensures forall i :: 0 <= i < |palette| ==>
              PaletteCircles(palette)[i] == Circle(96 + 80 * i, 312, 32, palette[i].hex)
    ensures forall i, j :: 0 <= i < j < |palette| ==>
              PaletteCircles(palette)[j].cx - PaletteCircles(palette)[i].cx >= 2 * 32 + CircleGap
    ensures forall i :: 0 <= i < |palette| ==> PaletteCircles(palette)[i].cx + 32 < MediaX
  {
  }

  // ---------------------------------------------------------------------
  // Tag chips
  // ---------------------------------------------------------------------

  const ChipPaddingX: real := 24.0
  const ChipPaddingY: real := 12.0
  const ChipHeight: real := 20.0 + 2.0 * ChipPaddingY
  const ChipGap: real := 16.0
  const RowAdvance: real := ChipHeight + 16.0
  const WrapLimit: real := 550.0

  /** One pill: its rectangle. */
  datatype Chip = Chip(x: real, y: real, w: real, h: real)

  /** Chip `b` comes after chip `a`: on the same row with at least the gap
      between them, or on a later row. */
  predicate Separated(a: Chip, b: Chip)
  {
    (b.y == a.y && a.x + a.w + ChipGap <= b.x) || b.y >= a.y + RowAdvance
  }

  /** Separated chips of chip height never overlap. */
  lemma {:induction false} SeparatedDisjoint(a: Chip, b: Chip)
    requires Separated(a, b) && a.h == ChipHeight && a.w >= 0.0
    ensures a.x + a.w < b.x || a.y + a.h < b.y
  {
  }

  /** Where the chip after `prev` would start without wrapping. */
  function Cursor(chips: seq<Chip>, i: nat): real
    requires i <= |chips|
  {
    if i == 0 then TextX as real else chips[i - 1].x + chips[i - 1].w + ChipGap
  }

  /** The row of the chip before `i`, or the first row. */
  function RowBefore(chips: seq<Chip>, i: nat): real
    requires i <= |chips|
  {
    if i == 0 then ChipsY as real else chips[i - 1].y
  }

  /** The placement rule for chip `i`: as wide as its text plus padding, 44
      high, at the cursor on the current row unless it would cross the wrap
      limit, in which case at the left margin one row lower. */
  predicate PlacedByRule(chips: seq<Chip>, widths: seq<real>, i: nat)
    requires i < |chips| && |chips| <= |widths|
  {
    && chips[i].w == widths[i] + 2.0 * ChipPaddingX && chips[i].h == ChipHeight
    && if Cursor(chips, i) + chips[i].w > WrapLimit
       then chips[i].x == TextX as real && chips[i].y == RowBefore(chips, i) + RowAdvance
       else chips[i].x == Cursor(chips, i) && chips[i].y == RowBefore(chips, i)
  }

  /** A chip that does not start a row ends within the wrap limit. */
  predicate WithinLimit(c: Chip)
  {
    c.x == TextX as real || c.x + c.w <= WrapLimit
  }

  /** What the tag loop keeps: the chips so far obey the rule, stay within
      the limit and are pairwise separated, the cursor and row follow the last
      chip, and every chip is behind the cursor on the current row or on an
      earlier row. */
  ghost predicate LoopState(chips: seq<Chip>, widths: seq<real>, tagX: real, y: real)
  {
    && |chips| <= |widths|
    && tagX == Cursor(chips, |chips|) && y == RowBefore(chips, |chips|)
    && (forall i :: 0 <= i < |chips| ==> PlacedByRule(chips, widths, i))
    && (forall i :: 0 <= i < |chips| ==> WithinLimit(chips[i]))
    && (forall i :: 0 <= i < |chips| ==>
          (chips[i].y == y && chips[i].x + chips[i].w + ChipGap <= tagX) || chips[i].y + RowAdvance <= y)
    && (forall i, j :: 0 <= i < j < |chips| ==> Separated(chips[i], chips[j]))
  }

  /** The tag loop of the card for the measured text widths of the tags.
      Chips keep tag order and follow the placement rule, which applies to
      the first chip as well; every chip that does not start a row ends within
      the limit, no two chips overlap, and the returned row is the last
      chip's row (the first row when there is no tag). */
  method LayoutChips(widths: seq<real>) returns (chips: seq<Chip>, lastRow: real)
    requires forall i :: 0 <= i < |widths| ==> widths[i] >= 0.0
    ensures |chips| == |widths|
    ensures forall i :: 0 <= i < |chips| ==> PlacedByRule(chips, widths, i)
    ensures forall i :: 0 <= i < |chips| ==> WithinLimit(chips[i])
    ensures forall i, j :: 0 <= i < j < |chips| ==> Separated(chips[i], chips[j])
    ensures lastRow == RowBefore(chips, |chips|)
  {
    chips := [];
    var tagX := TextX as real;
    var y := ChipsY as real;
    while |chips| < |widths|
      invariant LoopState(chips, widths, tagX, y)
      decreases |widths| - |chips|
    {
      var width := widths[|chips|] + 2.0 * ChipPaddingX;
      if tagX + width > WrapLimit {
        tagX := TextX as real;
        y := y + RowAdvance;
      }
      var chip := Chip(tagX, y, width, ChipHeight);
      LoopStep(chips, widths, Cursor(chips, |chips|), RowBefore(chips, |chips|), chip);
      chips := chips + [chip];
      tagX := tagX + width + ChipGap;
    }
    lastRow := y;
  }

  lemma {:induction false} LoopStep(chips: seq<Chip>, widths: seq<real>, tagX: real, y: real, c: Chip)
    requires LoopState(chips, widths, tagX, y) && |chips| < |widths|
    requires widths[|chips|] >= 0.0
    requires c.w == widths[|chips|] + 2.0 * ChipPaddingX && c.h == ChipHeight
    requires c == (if tagX + c.w > WrapLimit then Chip(TextX as real, y + RowAdvance, c.w, c.h) else Chip(tagX, y, c.w, c.h))
    ensures LoopState(chips + [c], widths, c.x + c.w + ChipGap, c.y)
  {
    var k := |chips|;
    var next := chips + [c];
    forall i | 0 <= i <= k
      ensures Cursor(next, i) == Cursor(chips, i) && RowBefore(next, i) == RowBefore(chips, i)
    {
      assert i > 0 ==> next[i - 1] == chips[i - 1];
    }
    forall i | 0 <= i < k
      ensures PlacedByRule(next, widths, i)
    {
      assert next[i] == chips[i];
      assert PlacedByRule(chips, widths, i);
    }
    assert PlacedByRule(next, widths, k);
    forall i | 0 <= i < k
      ensures Separated(next[i], c)
      ensures (next[i].y == c.y && next[i].x + next[i].w + ChipGap <= c.x + c.w + ChipGap) || next[i].y + RowAdvance <= c.y
    {
      assert next[i] == chips[i];
    }
    forall i, j | 0 <= i < j <= k
      ensures Separated(next[i], next[j])
    {
      if j < k {
        assert next[i] == chips[i] && next[j] == chips[j];
      }
    }
  }

  // ---------------------------------------------------------------------
  // Metrics line and footer
  // ---------------------------------------------------------------------

  const DensityLabel: string := "Density: "
  const ContrastLabel: string := " \U{2022} Contrast: "
  const SaturationLabel: string := " \U{2022} Saturation: "

  /** The metrics summary: density, contrast and saturation in that order,
      separated by bullets. */
  function MetricsLine(m: StyleMetrics): string
  {
    DensityLabel + (ScoreText(m.density) + ContrastLabel + (ScoreText(m.contrast) + SaturationLabel + ScoreText(m.saturation)))
  }

  /** The line determines the three metrics it shows. */
  lemma {:induction false} MetricsLineInjective(m: StyleMetrics, m': StyleMetrics)
    requires MetricsLine(m) == MetricsLine(m')
    ensures m.density == m'.density && m.contrast == m'.contrast && m.saturation == m'.saturation
  {
    var d, c, s := ScoreText(m.density), ScoreText(m.contrast), ScoreText(m.saturation);
    var d', c', s' := ScoreText(m'.density), ScoreText(m'.contrast), ScoreText(m'.saturation);
    var rest, rest' := d + ContrastLabel + (c + SaturationLabel + s), d' + ContrastLabel + (c' + SaturationLabel + s');
    assert rest == MetricsLine(m)[|DensityLabel|..];
    assert rest' == MetricsLine(m')[|DensityLabel|..];
    NoSpaceInScore(m.density);
    NoSpaceInScore(m'.density);
    NoSpaceInScore(m.contrast);
    NoSpaceInScore(m'.contrast);
    SplitUnique(d, c + SaturationLabel + s, d', c' + SaturationLabel + s', ContrastLabel);
    SplitUnique(c, s, c', s', SaturationLabel);
    ScoreTextInjective(m.density, m'.density);
    ScoreTextInjective(m.contrast, m'.contrast);
    ScoreTextInjective(m.saturation, m'.saturation);
  }

  const MetricsGap: real := 96.0

  /** The footer baseline uses the card height, 48 above the bottom edge. */
  const FooterY: int := CardHeight - 48

  // ---------------------------------------------------------------------
  // The whole card
  // ---------------------------------------------------------------------

  /** An image placed on the card: its tile and the rectangle it is drawn
      into. */
  datatype Placed = Placed(tile: Tile, draw: Rect)

  datatype Card = Card(
    background: string,
    images: seq<Placed>,
    circles: seq<Circle>,
    chips: seq<Chip>,
    metricsLine: string,
    metricsY: real,
    footerY: int)

  /** The pixel size of a loaded image. */
  datatype Dimensions = Dimensions(width: real, height: real)

  function Place(t: Tile, dims: seq<Dimensions>): Placed
    requires t.image < |dims| && dims[t.image].width > 0.0 && dims[t.image].height > 0.0 && t.size >= 0
  {
    Placed(t, CoverRect(t.x as real, t.y as real, t.size as real, t.size as real,
                        dims[t.image].width, dims[t.image].height))
  }

  /** The card for an analysis result, given the pixel size of every image and
      the measured width of every tag. */
  method GenerateShareCard(dna: StyleDna, dims: seq<Dimensions>, tagWidths: seq<real>) returns (card: Card)
    requires |dims| == |dna.originalImages|
    requires forall k :: 0 <= k < |dims| ==> dims[k].width > 0.0 && dims[k].height > 0.0
    requires |tagWidths| == |dna.vibeTags|
    requires forall i :: 0 <= i < |tagWidths| ==> tagWidths[i] >= 0.0
    ensures card.background == LightBackground
    ensures |card.images| == |StackTiles(|dims|)|
    ensures forall i :: 0 <= i < |card.images| ==>
              var p := card.images[i];
              p.tile == StackTiles(|dims|)[i] && p.draw.w >= p.tile.size as real && p.draw.h >= p.tile.size as real
    ensures card.circles == PaletteCircles(dna.palette)
    ensures |card.chips| == |dna.vibeTags|
    ensures forall i :: 0 <= i < |card.chips| ==> PlacedByRule(card.chips, tagWidths, i)
    ensures forall i, j :: 0 <= i < j < |card.chips| ==> Separated(card.chips[i], card.chips[j])
    ensures card.metricsLine == MetricsLine(dna.metrics)
    ensures card.metricsY == (if |card.chips| == 0 then ChipsY as real else card.chips[|card.chips| - 1].y) + MetricsGap
    ensures card.footerY == 582
  {
    var tiles := StackTiles(|dims|);
    StackGeometry(|dims|);
    var placed := seq(|tiles|, i requires 0 <= i < |tiles| => Place(tiles[i], dims));
    var chips, lastRow := LayoutChips(tagWidths);
    card := Card(BackgroundFill(dna.metrics), placed, PaletteCircles(dna.palette), chips,
                 MetricsLine(dna.metrics), lastRow + MetricsGap, FooterY);
  }
}
