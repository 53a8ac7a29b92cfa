/** The vibe-tag rule table and the confidence lookup of `analyzeImages`.
    Every metric group contributes at most one pair of tags, in the fixed
    order brightness, saturation, contrast, density; when no rule fires the
    pair "Balanced", "Neutral" is used instead. The list is then
    de-duplicated through a `Set` and cut to four entries. */
module Vibe {
  import opened Common
  import opened Metrics

  const MaxTags: nat := 4

  function BrightnessTags(b: Score): seq<string>
  {
    if b.Below(30) then ["Dark Mode", "Moody"]
    else if b.Above(85) then ["Clean", "Airy"]
    else []
  }

  function SaturationTags(s: Score): seq<string>
  {
    if s.Below(15) then ["Monochrome", "Muted"]
    else if s.Above(70) then ["Vibrant", "Playful"]
    else []
  }

  function ContrastTags(c: Score): seq<string>
  {
    if c.Above(70) then ["High-Contrast", "Editorial"] else []
  }

  function DensityTags(d: Score): seq<string>
  {
    if d.Below(30) then ["Minimalist", "Spacious"]
    else if d.Above(75) then ["Data-Dense", "Complex"]
    else []
  }

  /** The tags pushed by the rules, in rule order. */
  function RuleTags(m: StyleMetrics): seq<string>
  {
    BrightnessTags(m.brightness) + SaturationTags(m.saturation)
    + ContrastTags(m.contrast) + DensityTags(m.density)
  }

  const Fallback: seq<string> := ["Balanced", "Neutral"]

  /** The tag list before de-duplication, including the fallback. */
  function RawTags(m: StyleMetrics): seq<string>
  {
    var tags := RuleTags(m);
    if |tags| == 0 then Fallback else tags
  }

  /** Position of the first occurrence of `x` in `s`, or `|s|` when there is
      none. */
  function FirstPos(s: seq<string>, x: string): (k: nat)
    ensures k <= |s|
    ensures k < |s| <==> x in s
    ensures k < |s| ==> s[k] == x
  {
    if |s| == 0 then 0
    else if s[0] == x then 0
    else 1 + FirstPos(s[1..], x)
  }

  /** Appending never moves a first occurrence, and a new element's first
      occurrence is the appended position. */
  lemma {:induction false} FirstPosAppend(s: seq<string>, x: string, y: string)
    ensures y in s ==> FirstPos(s + [x], y) == FirstPos(s, y)
    ensures y !in s && y == x ==> FirstPos(s + [x], y) == |s|
  {
    if |s| > 0 {
      assert (s + [x])[1..] == s[1..] + [x];
      FirstPosAppend(s[1..], x, y);
    }
  }

  /** `Array.from(new Set(tags))`: the first occurrence of every tag, in
      order. The order is stated by DedupeKeepsFirstOccurrences. */
  function Dedupe(s: seq<string>): (r: seq<string>)
    ensures NoDuplicates(r)
    ensures forall x :: x in r <==> x in s
    ensures Subsequence(r, s)
  {
    if |s| == 0 then []
    else
      var front, x := s[..|s| - 1], s[|s| - 1];
      var r := Dedupe(front);
      assert forall y :: y in s <==> y in front || y == x;
      if x in r then
        SubsequenceExtend(r, front, x);
        assert s == front + [x];
        r
      else
        SubsequenceAppendBoth(r, front, x);
        assert s == front + [x];
        r + [x]
  }

  /** The de-duplicated list holds every tag exactly once, ordered by where
      the tag first occurs in the input, as a `Set` iterates in insertion
      order. */
  lemma {:induction false} DedupeKeepsFirstOccurrences(s: seq<string>)
    ensures forall i, j :: 0 <= i < j < |Dedupe(s)| ==> FirstPos(s, Dedupe(s)[i]) < FirstPos(s, Dedupe(s)[j])
  {
    if |s| > 0 {
      var front, x := s[..|s| - 1], s[|s| - 1];
      DedupeKeepsFirstOccurrences(front);
      assert s == front + [x];
      var r := Dedupe(front);
      assert Dedupe(s) == if x in r then r else r + [x];
      DedupeOrderStep(front, x, r);
    }
  }

  lemma {:induction false} DedupeOrderStep(front: seq<string>, x: string, r: seq<string>)
    requires forall y :: y in r <==> y in front
    requires forall i, j :: 0 <= i < j < |r| ==> FirstPos(front, r[i]) < FirstPos(front, r[j])
    ensures x in r ==> forall i, j :: 0 <= i < j < |r| ==> FirstPos(front + [x], r[i]) < FirstPos(front + [x], r[j])
    ensures x !in r ==> forall i, j :: 0 <= i < j < |r + [x]| ==>
              FirstPos(front + [x], (r + [x])[i]) < FirstPos(front + [x], (r + [x])[j])
  {
    forall i | 0 <= i < |r|
      ensures FirstPos(front + [x], r[i]) == FirstPos(front, r[i]) < |front|
    {
      assert r[i] in front;
      FirstPosAppend(front, x, r[i]);
    }
    if x !in r {
      FirstPosAppend(front, x, x);
      forall i, j | 0 <= i < j < |r + [x]|
        ensures FirstPos(front + [x], (r + [x])[i]) < FirstPos(front + [x], (r + [x])[j])
      {
        if j == |r| {
          assert (r + [x])[j] == x;
          assert (r + [x])[i] == r[i];
        } else {
          assert (r + [x])[i] == r[i] && (r + [x])[j] == r[j];
        }
      }
    }
  }

  /** A list without repeated tags is left unchanged by de-duplication. */
  lemma {:induction false} DedupeOfDistinct(s: seq<string>)
    requires NoDuplicates(s)
    ensures Dedupe(s) == s
  {
    if |s| > 0 {
      var front, x := s[..|s| - 1], s[|s| - 1];
      DedupeOfDistinct(front);
      assert x !in front;
      assert s == front + [x];
    }
  }

  /** `Array.from(new Set(vibeTags)).slice(0, 4)`. */
  function VibeTags(m: StyleMetrics): seq<string>
  {
    var d := Dedupe(RawTags(m));
    d[..Min(MaxTags, |d|)]
  }

  /** The rules never push the same tag twice, so the result is the first
      four tags of the rule-ordered list: two or four of them, without
      repetition. */
  lemma {:induction false} VibeTagsShape(m: StyleMetrics)
    ensures NoDuplicates(RawTags(m))
    ensures |RawTags(m)| in {2, 4, 6, 8}
    ensures VibeTags(m) == RawTags(m)[..Min(MaxTags, |RawTags(m)|)]
    ensures |VibeTags(m)| in {2, 4}
    ensures NoDuplicates(VibeTags(m))
  {
    RuleTagsDistinct(m);
    DedupeOfDistinct(RawTags(m));
  }

  lemma {:induction false} RuleTagsDistinct(m: StyleMetrics)
    ensures NoDuplicates(RawTags(m))
  {
    var b, s, c, d := BrightnessTags(m.brightness), SaturationTags(m.saturation),
                      ContrastTags(m.contrast), DensityTags(m.density);
    assert RuleTags(m) == b + s + c + d;
    GroupWords(m);
    NoDuplicatesAppend(b, s);
    NoDuplicatesAppend(b + s, c);
    NoDuplicatesAppend(b + s + c, d);
  }

  const BrightnessWords: set<string> := {"Dark Mode", "Moody", "Clean", "Airy"}
  const SaturationWords: set<string> := {"Monochrome", "Muted", "Vibrant", "Playful"}
  const ContrastWords: set<string> := {"High-Contrast", "Editorial"}
  const DensityWords: set<string> := {"Minimalist", "Spacious", "Data-Dense", "Complex"}

  /** Each group pushes two different tags from its own vocabulary, and no
      two groups share a word. */
  lemma {:induction false} GroupWords(m: StyleMetrics)
    ensures NoDuplicates(BrightnessTags(m.brightness)) && NoDuplicates(SaturationTags(m.saturation))
    ensures NoDuplicates(ContrastTags(m.contrast)) && NoDuplicates(DensityTags(m.density))
    ensures forall x :: x in BrightnessTags(m.brightness) ==> x in BrightnessWords
    ensures forall x :: x in SaturationTags(m.saturation) ==> x in SaturationWords
    ensures forall x :: x in ContrastTags(m.contrast) ==> x in ContrastWords
    ensures forall x :: x in DensityTags(m.density) ==> x in DensityWords
    ensures BrightnessWords !! SaturationWords && BrightnessWords !! ContrastWords
    ensures BrightnessWords !! DensityWords && SaturationWords !! ContrastWords
    ensures SaturationWords !! DensityWords && ContrastWords !! DensityWords
  {
    PairWords(BrightnessTags(m.brightness), BrightnessWords);
    PairWords(SaturationTags(m.saturation), SaturationWords);
    PairWords(ContrastTags(m.contrast), ContrastWords);
    PairWords(DensityTags(m.density), DensityWords);
    VocabulariesDisjoint();
  }

  /** An empty group or a pair of different words of the vocabulary. */
  lemma {:induction false} PairWords(tags: seq<string>, words: set<string>)
    requires tags == [] || (|tags| == 2 && tags[0] != tags[1] && tags[0] in words && tags[1] in words)
    ensures NoDuplicates(tags)
    ensures forall x :: x in tags ==> x in words
  {
  }

  lemma {:induction false} VocabulariesDisjoint()
    ensures BrightnessWords !! SaturationWords && BrightnessWords !! ContrastWords
    ensures BrightnessWords !! DensityWords && SaturationWords !! ContrastWords
    ensures SaturationWords !! DensityWords && ContrastWords !! DensityWords
  {
  }

  /** "Balanced" appears exactly when none of the rules fired. */
  lemma {:induction false} BalancedIffNoRule(m: StyleMetrics)
    ensures "Balanced" in VibeTags(m) <==> |RuleTags(m)| == 0
    ensures |RuleTags(m)| == 0 ==> VibeTags(m) == Fallback
  {
    VibeTagsShape(m);
    var raw, v := RawTags(m), VibeTags(m);
    if |RuleTags(m)| > 0 {
      RuleMembership(m, "Balanced");
      GroupWords(m);
      assert "Balanced" !in BrightnessWords && "Balanced" !in SaturationWords;
      assert "Balanced" !in ContrastWords && "Balanced" !in DensityWords;
      assert "Balanced" !in raw;
      assert forall i :: 0 <= i < |v| ==> v[i] == raw[i];
    } else {
      assert raw == Fallback && v == raw[..2];
    }
  }

  /** Each group's first tag is present in the rule list exactly when its
      condition holds, and the two branches of an `else if` never both fire. */
  lemma {:induction false} RuleConditions(m: StyleMetrics)
    ensures "Dark Mode" in RuleTags(m) <==> m.brightness.Below(30)
    ensures "Clean" in RuleTags(m) <==> m.brightness.Above(85)
    ensures "Monochrome" in RuleTags(m) <==> m.saturation.Below(15)
    ensures "Vibrant" in RuleTags(m) <==> m.saturation.Above(70)
    ensures "High-Contrast" in RuleTags(m) <==> m.contrast.Above(70)
    ensures "Minimalist" in RuleTags(m) <==> m.density.Below(30)
    ensures "Data-Dense" in RuleTags(m) <==> m.density.Above(75)
    ensures !("Dark Mode" in RuleTags(m) && "Clean" in RuleTags(m))
    ensures !("Monochrome" in RuleTags(m) && "Vibrant" in RuleTags(m))
    ensures !("Minimalist" in RuleTags(m) && "Data-Dense" in RuleTags(m))
  {
    BrightnessRule(m);
    SaturationRule(m);
    ContrastRule(m);
    DensityRule(m);
  }

  lemma {:induction false} BrightnessRule(m: StyleMetrics)
    ensures "Dark Mode" in RuleTags(m) <==> m.brightness.Below(30)
    ensures "Clean" in RuleTags(m) <==> m.brightness.Above(85)
    ensures !("Dark Mode" in RuleTags(m) && "Clean" in RuleTags(m))
  {
    RuleMembership(m, "Dark Mode");
    RuleMembership(m, "Clean");
    GroupWords(m);
    assert "Dark Mode" in BrightnessWords && "Clean" in BrightnessWords;
  }

  lemma {:induction false} SaturationRule(m: StyleMetrics)
    ensures "Monochrome" in RuleTags(m) <==> m.saturation.Below(15)
    ensures "Vibrant" in RuleTags(m) <==> m.saturation.Above(70)
    ensures !("Monochrome" in RuleTags(m) && "Vibrant" in RuleTags(m))
  {
    RuleMembership(m, "Monochrome");
    RuleMembership(m, "Vibrant");
    GroupWords(m);
    assert "Monochrome" in SaturationWords && "Vibrant" in SaturationWords;
  }

  lemma {:induction false} ContrastRule(m: StyleMetrics)
    ensures "High-Contrast" in RuleTags(m) <==> m.contrast.Above(70)
  {
    RuleMembership(m, "High-Contrast");
    GroupWords(m);
    assert "High-Contrast" in ContrastWords;
  }

  lemma {:induction false} DensityRule(m: StyleMetrics)
    ensures "Minimalist" in RuleTags(m) <==> m.density.Below(30)
    ensures "Data-Dense" in RuleTags(m) <==> m.density.Above(75)
    ensures !("Minimalist" in RuleTags(m) && "Data-Dense" in RuleTags(m))
  {
    RuleMembership(m, "Minimalist");
    RuleMembership(m, "Data-Dense");
    GroupWords(m);
    assert "Minimalist" in DensityWords && "Data-Dense" in DensityWords;
  }

  lemma {:induction false} RuleMembership(m: StyleMetrics, x: string)
    ensures x in RuleTags(m) <==>
              x in BrightnessTags(m.brightness) || x in SaturationTags(m.saturation)
              || x in ContrastTags(m.contrast) || x in DensityTags(m.density)
  {
  }

  /** With no opaque sample every metric is `NaN`, no rule fires and the
      fallback pair is reported. */
  lemma {:induction false} NaNMetricsAreBalanced()
    ensures VibeTags(AllNaN) == Fallback
  {
    BalancedIffNoRule(AllNaN);
  }

  /** `files.length === 1 ? 75 : (files.length === 3 ? 92 : 85)`. */
  function Confidence(fileCount: nat): (score: nat)
    ensures score == 75 <==> fileCount == 1
    ensures score == 92 <==> fileCount == 3
    ensures score == 85 <==> fileCount != 1 && fileCount != 3
  {
    if fileCount == 1 then 75 else if fileCount == 3 then 92 else 85
  }
}
