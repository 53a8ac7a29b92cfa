/** The two pieces of pure logic on the analysis page: the filter that decides
    which dropped files are analysed, and the text offered for sharing a
    result. */
module AnalyzePage {
  import opened Common
  import opened Text
  import opened Palette
  import opened Vibe
  import opened Analyzer

  /** What the filter looks at in a `File`: its MIME type and its size in
      bytes. */
  datatype FileInfo = FileInfo(mime: string, size: nat)

  const MaxMegabytes: nat := 8
  const MaxBytes: nat := MaxMegabytes * 1024 * 1024
  const MaxFiles: nat := 3
  const ImagePrefix: string := "image/"

  /** `f.type.startsWith("image/")` and `f.size <= MAX_MB * 1024 * 1024`. */
  predicate Acceptable(f: FileInfo)
  {
    ImagePrefix <= f.mime && f.size <= MaxBytes
  }

  /** The two `filter` calls: the acceptable files, in order. */
  function KeepAcceptable(fs: seq<FileInfo>): (r: seq<FileInfo>)
    ensures Subsequence(r, fs)
    ensures forall i :: 0 <= i < |r| ==> Acceptable(r[i])
    ensures |r| == CountAcceptable(fs)
  {
    if |fs| == 0 then []
    else
      var front, f := fs[..|fs| - 1], fs[|fs| - 1];
      var r := KeepAcceptable(front);
      assert fs == front + [f];
      CountAcceptableAppend(front, f);
      if Acceptable(f) then
        SubsequenceAppendBoth(r, front, f);
        r + [f]
      else
        SubsequenceExtend(r, front, f);
        r
  }

  /** Number of acceptable files. */
  function CountAcceptable(fs: seq<FileInfo>): nat
  {
    if |fs| == 0 then 0 else (if Acceptable(fs[0]) then 1 else 0) + CountAcceptable(fs[1..])
  }

  lemma {:induction false} CountAcceptableAppend(fs: seq<FileInfo>, f: FileInfo)
    ensures CountAcceptable(fs + [f]) == CountAcceptable(fs) + (if Acceptable(f) then 1 else 0)
  {
    if |fs| > 0 {
      CountAcceptableAppend(fs[1..], f);
      assert (fs + [f])[1..] == fs[1..] + [f];
    }
  }

  lemma {:induction false} NoneAcceptable(fs: seq<FileInfo>)
    ensures CountAcceptable(fs) == 0 <==> forall i :: 0 <= i < |fs| ==> !Acceptable(fs[i])
  {
    if |fs| > 0 {
      NoneAcceptable(fs[1..]);
      assert forall i :: 1 <= i < |fs| ==> fs[i] == fs[1..][i - 1];
    }
  }

  /** The outcome of `handleFiles`: an alert, or the files handed to the
      analysis. */
  datatype Outcome = Rejected(message: string) | Accepted(files: seq<FileInfo>)

  const RejectionMessage: string :=
    "Please upload up to 3 images under " + NatToString(MaxMegabytes) + "MB each."

  /** `handleFiles`: keep the acceptable files, cut to the first three, and
      reject the drop when none is left. The files handed on are the first
      acceptable ones, in drop order. */
  function HandleFiles(fs: seq<FileInfo>): (out: Outcome)
    ensures out.Rejected? <==> forall i :: 0 <= i < |fs| ==> !Acceptable(fs[i])
    ensures out.Rejected? ==> out.message == "Please upload up to 3 images under 8MB each."
    ensures out.Accepted? ==>
              && 1 <= |out.files| <= MaxFiles
              && |out.files| == Min(MaxFiles, CountAcceptable(fs))
              && Subsequence(out.files, fs)
              && (forall i :: 0 <= i < |out.files| ==> Acceptable(out.files[i]))
    ensures out.Accepted? ==> out.files == KeepAcceptable(fs)[..|out.files|]
  {
    var kept := KeepAcceptable(fs);
    var valid := kept[..Min(MaxFiles, |kept|)];
    NoneAcceptable(fs);
    SubsequencePrefix(kept, fs, Min(MaxFiles, |kept|));
    if |valid| == 0 then Rejected(RejectionMessage) else Accepted(valid)
  }

  /** The size bound is inclusive: an image file of exactly 8 MiB is
      analysed, one byte more is not. */
  lemma {:induction false} SizeBoundInclusive(f: FileInfo)
    requires ImagePrefix <= f.mime
    ensures HandleFiles([f]) == if f.size <= 8388608 then Accepted([f]) else Rejected(RejectionMessage)
  {
  }

  /** An accepted drop is analysed with a confidence of 75, 85 or 92. */
  lemma {:induction false} AcceptedConfidence(fs: seq<FileInfo>, uploads: seq<Upload>)
    requires HandleFiles(fs).Accepted? && |uploads| == |HandleFiles(fs).files|
    ensures AnalyzeImages(uploads).confidence in {75, 85, 92}
    ensures AnalyzeImages(uploads).confidence == 85 <==> |uploads| == 2
  {
  }

  // ---------------------------------------------------------------------
  // Share text
  // ---------------------------------------------------------------------

  const TagSeparator: string := " \U{2022} "
  const ShareHeader: string := "My site's Style DNA:\n"
  const PaletteHeader: string := "\nPalette: "
  const ShareFooter: string := "\n\nGenerated with StyleCard \U{2192} "
  const SharedPath: string := "/analyze"
  const SharedColours: nat := 3

  function Hexes(palette: seq<PaletteColour>): (hs: seq<string>)
    ensures |hs| == |palette|
    ensures forall i :: 0 <= i < |palette| ==> hs[i] == palette[i].hex
  {
    seq(|palette|, i requires 0 <= i < |palette| => palette[i].hex)
  }

  /** `handleShareOnX`'s text: the tags joined by bullets, the first three
      palette colours joined by spaces, and the link back to the page at
      `origin`. */
  function ShareText(dna: StyleDna, origin: string): string
  {
    var shared := dna.palette[..Min(SharedColours, |dna.palette|)];
    ShareHeader + Join(dna.vibeTags, TagSeparator) + PaletteHeader + Join(Hexes(shared), " ")
    + ShareFooter + origin + SharedPath
  }

  /** Nothing is shared before there is a result. With a result, the text
      opens with the header, ends with the link to the analysis page, and,
      when every hex colour has seven characters, carries the first three
      colours at fixed places after the palette header. */
  function ShareOnX(result: Option<StyleDna>, origin: string): (text: Option<string>)
    ensures text.Some? <==> result.Some?
    ensures result.Some? ==> text.value == ShareText(result.value, origin)
    ensures result.Some? ==> |ShareHeader| <= |text.value| && text.value[..|ShareHeader|] == ShareHeader
    ensures result.Some? ==>
              |text.value| >= |origin| + |SharedPath| &&
              text.value[|text.value| - |origin| - |SharedPath|..] == origin + SharedPath
    ensures result.Some? && SevenCharacterHexes(result.value) ==>
              forall i :: 0 <= i < Min(SharedColours, |result.value.palette|) ==>
                ColourAt(text.value, result.value, i) == result.value.palette[i].hex
  {
    match result
    case None => None
    case Some(dna) =>
      ShareTextEnds(dna, origin);
      if SevenCharacterHexes(dna) then
        ShareTextColours(dna, origin);
        Some(ShareText(dna, origin))
      else
        Some(ShareText(dna, origin))
  }

  predicate SevenCharacterHexes(dna: StyleDna)
  {
    forall k :: 0 <= k < |dna.palette| ==> |dna.palette[k].hex| == 7
  }

  /** The seven characters of `text` where the `i`-th shared colour of `dna`
      is written, or "" when the text is too short. */
  function ColourAt(text: string, dna: StyleDna, i: nat): string
  {
    var start := |ShareHeader| + |Join(dna.vibeTags, TagSeparator)| + |PaletteHeader| + 8 * i;
    if start + 7 <= |text| then text[start..start + 7] else ""
  }

  lemma {:induction false} ShareTextColours(dna: StyleDna, origin: string)
    requires SevenCharacterHexes(dna)
    ensures forall i :: 0 <= i < Min(SharedColours, |dna.palette|) ==>
              ColourAt(ShareText(dna, origin), dna, i) == dna.palette[i].hex
  {
    forall i | 0 <= i < Min(SharedColours, |dna.palette|)
      ensures ColourAt(ShareText(dna, origin), dna, i) == dna.palette[i].hex
    {
      ShareTextColour(dna, origin, i);
    }
  }

  /** The text starts with the header and ends with the link to the analysis
      page; when every hex colour has seven characters, the `i`-th shared
      colour can be read back from its fixed place after the palette header. */
  lemma {:induction false} ShareTextLayout(dna: StyleDna, origin: string, i: nat)
    requires forall k :: 0 <= k < |dna.palette| ==> |dna.palette[k].hex| == 7
    requires i < Min(SharedColours, |dna.palette|)
    ensures ShareText(dna, origin)[..|ShareHeader|] == ShareHeader
    ensures var t := ShareText(dna, origin);
            |t| >= |origin| + |SharedPath| && t[|t| - |origin| - |SharedPath|..] == origin + SharedPath
    ensures var start := |ShareHeader| + |Join(dna.vibeTags, TagSeparator)| + |PaletteHeader| + 8 * i;
            start + 7 <= |ShareText(dna, origin)| && ShareText(dna, origin)[start..start + 7] == dna.palette[i].hex
  {
    ShareTextEnds(dna, origin);
    ShareTextColour(dna, origin, i);
  }

  /** The three parts of the text: everything up to the palette, the joined
      colours, and the footer with the link. */
  function BeforeColours(dna: StyleDna): string
  {
    ShareHeader + Join(dna.vibeTags, TagSeparator) + PaletteHeader
  }

  function SharedHexes(dna: StyleDna): seq<string>
  {
    Hexes(dna.palette[..Min(SharedColours, |dna.palette|)])
  }

  lemma {:induction false} ShareTextParts(dna: StyleDna, origin: string)
    ensures ShareText(dna, origin) == BeforeColours(dna) + Join(SharedHexes(dna), " ") + (ShareFooter + origin + SharedPath)
  {
  }

  lemma {:induction false} ShareTextEnds(dna: StyleDna, origin: string)
    ensures ShareText(dna, origin)[..|ShareHeader|] == ShareHeader
    ensures var t := ShareText(dna, origin);
            |t| >= |origin| + |SharedPath| && t[|t| - |origin| - |SharedPath|..] == origin + SharedPath
  {
    ShareTextParts(dna, origin);
    ShareTextStart(BeforeColours(dna), Join(SharedHexes(dna), " "), ShareFooter + origin + SharedPath);
    ShareTextLink(BeforeColours(dna) + Join(SharedHexes(dna), " ") + ShareFooter, origin + SharedPath);
  }

  lemma {:induction false} ShareTextStart(before: string, colours: string, after: string)
    requires |ShareHeader| <= |before| && before[..|ShareHeader|] == ShareHeader
    ensures (before + colours + after)[..|ShareHeader|] == ShareHeader
  {
    ReadBack([], before, colours + after, 0, |ShareHeader|);
    assert [] + before + (colours + after) == before + colours + after;
  }

  lemma {:induction false} ShareTextLink(front: string, tail: string)
    ensures (front + tail)[|front + tail| - |tail|..] == tail
  {
    ReadBack(front, tail, [], 0, |tail|);
    assert front + tail + [] == front + tail;
  }

  lemma {:induction false} ShareTextColour(dna: StyleDna, origin: string, i: nat)
    requires forall k :: 0 <= k < |dna.palette| ==> |dna.palette[k].hex| == 7
    requires i < Min(SharedColours, |dna.palette|)
    ensures var start := |ShareHeader| + |Join(dna.vibeTags, TagSeparator)| + |PaletteHeader| + 8 * i;
            start + 7 <= |ShareText(dna, origin)| && ShareText(dna, origin)[start..start + 7] == dna.palette[i].hex
  {
    ShareTextParts(dna, origin);
    var hs := SharedHexes(dna);
    JoinFixedWidth(hs, " ", 7, i, i * 8);
    assert hs[i] == dna.palette[i].hex;
    ReadBack(BeforeColours(dna), Join(hs, " "), ShareFooter + origin + SharedPath, i * 8, 7);
  }

  /** A slice of the middle part of a concatenation is a slice of that part. */
  lemma {:induction false} ReadBack(before: string, mid: string, after: string, off: nat, w: nat)
    requires off + w <= |mid|
    ensures |before| + off + w <= |before + mid + after|
    ensures (before + mid + after)[|before| + off..|before| + off + w] == mid[off..off + w]
  {
    var whole := before + mid + after;
    assert forall j :: |before| <= j < |before| + |mid| ==> whole[j] == mid[j - |before|];
  }
}
