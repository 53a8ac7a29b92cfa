/** Palette extraction of `analyzeImages`: the eight most frequent buckets
    are the candidates, a greedy pass keeps up to five of them that are
    pairwise far apart, the selection is padded from the candidates when it
    has fewer than five, and the first five become palette entries with a hex
    colour, a percentage and a role. */
module Palette {
  import opened Common
  import opened Colour
  import opened Buckets
  import opened Ranking

  /** Number of ranked buckets considered. */
  const CandidateCount: nat := 8

  /** Largest palette. */
  const PaletteSize: nat := 5

  /** Two representatives closer than this (Manhattan distance) are too
      similar to both be selected. */
  const SimilarityThreshold: nat := 60

  datatype Role = Dominant | Secondary | Accent | Muted

  datatype PaletteColour = PaletteColour(hex: string, pct: int, role: Role)

  /** `sortedBuckets.slice(0, 8)`: up to eight of the buckets, largest
      count first. TopBucketsAreLargest states which ones. */
  function TopBuckets(buckets: seq<Bucket>): (top: seq<Bucket>)
    ensures |top| == Min(CandidateCount, |buckets|)
    ensures SortedByCount(top)
    ensures forall b :: b in top ==> b in buckets
    ensures |top| > 0 ==> forall b :: b in buckets ==> top[0].count >= b.count
  {
    var sorted := SortByCount(buckets);
    var top := sorted[..Min(CandidateCount, |sorted|)];
    forall b | b in top
      ensures b in buckets
    {
      assert b in multiset(sorted);
    }
    if |top| > 0 then
      SortedFirstIsLargest(buckets);
      top
    else
      top
  }

  /** The candidates are taken from the buckets, each at most as often as it
      occurs, and no bucket left out has a larger count than a kept one. */
  lemma {:induction false} TopBucketsAreLargest(buckets: seq<Bucket>)
    ensures multiset(TopBuckets(buckets)) <= multiset(buckets)
    ensures |TopBuckets(buckets)| > 0 ==>
              forall b :: b in multiset(buckets) - multiset(TopBuckets(buckets)) ==>
                b.count <= TopBuckets(buckets)[|TopBuckets(buckets)| - 1].count
  {
    var sorted := SortByCount(buckets);
    TopOfSorted(sorted, Min(CandidateCount, |sorted|));
  }

  /** Ties keep their order: for every count, the candidates with that count
      are the first buckets with that count, in insertion order. */
  lemma {:induction false} TopBucketsStable(buckets: seq<Bucket>, n: nat)
    ensures |WithCount(TopBuckets(buckets), n)| <= |WithCount(buckets, n)|
    ensures WithCount(TopBuckets(buckets), n) == WithCount(buckets, n)[..|WithCount(TopBuckets(buckets), n)|]
  {
    var sorted := SortByCount(buckets);
    WithCountPrefix(sorted, Min(CandidateCount, |sorted|), n);
    SortIsStable(buckets, n);
  }

  /** Cutting a sorted sequence after `n` entries: the prefix is part of the
      whole, and everything cut off is no larger than the last entry kept. */
  lemma {:induction false} TopOfSorted(sorted: seq<Bucket>, n: nat)
    requires SortedByCount(sorted) && n <= |sorted|
    ensures multiset(sorted[..n]) <= multiset(sorted)
    ensures n > 0 ==> forall b :: b in multiset(sorted) - multiset(sorted[..n]) ==> b.count <= sorted[n - 1].count
  {
    var top, rest := sorted[..n], sorted[n..];
    assert sorted == top + rest;
    assert multiset(sorted) - multiset(top) == multiset(rest);
    if n > 0 {
      forall b: Bucket | b in multiset(rest)
        ensures b.count <= sorted[n - 1].count
      {
        var j :| 0 <= j < |rest| && rest[j] == b;
        assert sorted[n + j] == b;
      }
    }
  }

  /** `distinctPalette.some(d => distance(d, bucket) < 60)`, comparing
      representative colours. */
  predicate TooSimilar(acc: seq<Bucket>, b: Bucket)
  {
    exists i :: 0 <= i < |acc| && Distance(acc[i].rep, b.rep) < SimilarityThreshold
  }

  /** Pairwise distance of the representatives is at least the threshold. */
  predicate FarApart(s: seq<Bucket>)
  {
    forall i, j :: 0 <= i < j < |s| ==> Distance(s[i].rep, s[j].rep) >= SimilarityThreshold
  }

  /** One iteration of the selection loop. */
  function Consider(acc: seq<Bucket>, b: Bucket): seq<Bucket>
  {
    if |acc| == 0 then [b]
    else if !TooSimilar(acc, b) && |acc| < PaletteSize then acc + [b]
    else acc
  }

  /** The selection loop over the candidates in rank order. The first
      candidate is always kept, the kept buckets are pairwise far apart, there
      are at most five, and they appear in rank order. */
  function SelectDistinct(cands: seq<Bucket>): (r: seq<Bucket>)
    ensures |r| <= PaletteSize
    ensures |cands| > 0 <==> |r| > 0
    ensures |cands| > 0 ==> r[0] == cands[0]
    ensures FarApart(r)
    ensures Subsequence(r, cands)
  {
    if |cands| == 0 then []
    else
      var front, b := cands[..|cands| - 1], cands[|cands| - 1];
      var acc := SelectDistinct(front);
      var r := Consider(acc, b);
      SelectStep(front, b, acc, r);
      assert |front| > 0 ==> front[0] == cands[0];
      r
  }

  lemma {:induction false} SelectStep(front: seq<Bucket>, b: Bucket, acc: seq<Bucket>, r: seq<Bucket>)
    requires Subsequence(acc, front) && FarApart(acc) && (|front| > 0 <==> |acc| > 0)
    requires r == Consider(acc, b)
    ensures FarApart(r)
    ensures Subsequence(r, front + [b])
  {
    if |acc| == 0 {
      assert front == [];
      assert r == [] + [b];
      SubsequenceAppendBoth(acc, front, b);
    } else if r == acc + [b] {
      forall i | 0 <= i < |acc|
        ensures Distance(acc[i].rep, b.rep) >= SimilarityThreshold
      {
        assert !(0 <= i < |acc| && Distance(acc[i].rep, b.rep) < SimilarityThreshold);
      }
      SubsequenceAppendBoth(acc, front, b);
    } else {
      SubsequenceExtend(acc, front, b);
    }
  }

  /** A candidate is accounted for by a selection when it was kept, when the
      selection is full, or when a kept bucket is too similar to it. */
  predicate Covered(r: seq<Bucket>, c: Bucket)
  {
    c in r || |r| == PaletteSize || TooSimilar(r, c)
  }

  /** The selection is greedy and maximal: every candidate left out was too
      similar to a kept bucket, or five had already been kept. */
  lemma {:induction false} SelectDistinctMaximal(cands: seq<Bucket>)
    ensures forall k :: 0 <= k < |cands| ==> Covered(SelectDistinct(cands), cands[k])
  {
    if |cands| > 0 {
      var front, b := cands[..|cands| - 1], cands[|cands| - 1];
      SelectDistinctMaximal(front);
      assert cands == front + [b];
      forall k | 0 <= k < |cands|
        ensures Covered(SelectDistinct(cands), cands[k])
      {
        CoveredStep(front, b, k);
      }
    }
  }

  lemma {:induction false} CoveredStep(front: seq<Bucket>, b: Bucket, k: nat)
    requires k <= |front|
    requires forall k' :: 0 <= k' < |front| ==> Covered(SelectDistinct(front), front[k'])
    ensures Covered(SelectDistinct(front + [b]), (front + [b])[k])
  {
    var cands := front + [b];
    assert cands[..|cands| - 1] == front;
    var acc := SelectDistinct(front);
    var r := Consider(acc, b);
    assert SelectDistinct(cands) == r;
    ConsiderKeeps(acc, b);
    if k < |front| {
      assert cands[k] == front[k];
      MaximalKept(acc, r, front[k]);
    } else {
      assert cands[k] == b;
    }
  }

  /** The selection is greedy in rank order: running the loop over the first
      `k` candidates gives a prefix of the final selection, and candidate `k`
      is added to what was kept before it exactly when it is not accounted
      for by that earlier selection. */
  lemma {:induction false} SelectDistinctGreedy(cands: seq<Bucket>)
    ensures forall k :: 0 <= k <= |cands| ==>
              |SelectDistinct(cands[..k])| <= |SelectDistinct(cands)| &&
              SelectDistinct(cands[..k]) == SelectDistinct(cands)[..|SelectDistinct(cands[..k])|]
    ensures forall k :: 0 <= k < |cands| ==>
              (Covered(SelectDistinct(cands[..k]), cands[k]) ==> SelectDistinct(cands[..k + 1]) == SelectDistinct(cands[..k]))
    ensures forall k :: 0 <= k < |cands| ==>
              (!Covered(SelectDistinct(cands[..k]), cands[k]) ==>
                 SelectDistinct(cands[..k + 1]) == SelectDistinct(cands[..k]) + [cands[k]])
  {
    forall k | 0 <= k <= |cands|
      ensures |SelectDistinct(cands[..k])| <= |SelectDistinct(cands)|
      ensures SelectDistinct(cands[..k]) == SelectDistinct(cands)[..|SelectDistinct(cands[..k])|]
    {
      SelectPrefix(cands, k);
    }
    forall k | 0 <= k < |cands|
      ensures Covered(SelectDistinct(cands[..k]), cands[k]) ==> SelectDistinct(cands[..k + 1]) == SelectDistinct(cands[..k])
      ensures !Covered(SelectDistinct(cands[..k]), cands[k]) ==>
                SelectDistinct(cands[..k + 1]) == SelectDistinct(cands[..k]) + [cands[k]]
    {
      var pre := cands[..k + 1];
      assert pre[..|pre| - 1] == cands[..k] && pre[|pre| - 1] == cands[k];
      ConsiderCovered(SelectDistinct(cands[..k]), cands[k]);
    }
  }

  /** The selection over a prefix of the candidates is a prefix of the
      selection over all of them. */
  lemma {:induction false} SelectPrefix(cands: seq<Bucket>, k: nat)
    requires k <= |cands|
    ensures |SelectDistinct(cands[..k])| <= |SelectDistinct(cands)|
    ensures SelectDistinct(cands[..k]) == SelectDistinct(cands)[..|SelectDistinct(cands[..k])|]
    decreases |cands|
  {
    if k == |cands| {
      assert cands[..k] == cands;
    } else {
      var front := cands[..|cands| - 1];
      SelectPrefix(front, k);
      assert front[..k] == cands[..k];
      ConsiderKeeps(SelectDistinct(front), cands[|cands| - 1]);
    }
  }

  /** A loop step keeps the selection when the bucket is accounted for, and
      appends the bucket otherwise. */
  lemma {:induction false} ConsiderCovered(acc: seq<Bucket>, b: Bucket)
    requires |acc| <= PaletteSize
    ensures Covered(acc, b) ==> Consider(acc, b) == acc
    ensures !Covered(acc, b) ==> Consider(acc, b) == acc + [b]
  {
    if b in acc {
      var i :| 0 <= i < |acc| && acc[i] == b;
      assert Distance(acc[i].rep, b.rep) < SimilarityThreshold;
    }
  }

  /** One loop step only appends, appends nothing once five are kept, and
      accounts for the bucket it considered. */
  lemma {:induction false} ConsiderKeeps(acc: seq<Bucket>, b: Bucket)
    requires |acc| <= PaletteSize
    ensures |acc| <= |Consider(acc, b)| && acc == Consider(acc, b)[..|acc|]
    ensures |acc| == PaletteSize ==> Consider(acc, b) == acc
    ensures Covered(Consider(acc, b), b)
  {
    var r := Consider(acc, b);
    if r == acc + [b] {
      assert r[|acc|] == b;
    }
  }

  lemma {:induction false} MaximalKept(acc: seq<Bucket>, r: seq<Bucket>, c: Bucket)
    requires |acc| <= |r| && acc == r[..|acc|]
    requires Covered(acc, c)
    requires |acc| == PaletteSize ==> r == acc
    ensures Covered(r, c)
  {
    if c in acc {
      var i :| 0 <= i < |acc| && acc[i] == c;
      assert r[i] == c;
    } else if TooSimilar(acc, c) {
      var i :| 0 <= i < |acc| && Distance(acc[i].rep, c.rep) < SimilarityThreshold;
      assert r[i] == acc[i];
    }
  }

  /** `if (distinctPalette.length < 5) distinctPalette.push(...topBuckets.slice(0, 5 - length))`
      followed by `.slice(0, 5)`: the buckets that become palette entries. */
  function Padded(distinct: seq<Bucket>, top: seq<Bucket>): (ch: seq<Bucket>)
    requires |distinct| <= PaletteSize
    ensures |ch| == Min(PaletteSize, |distinct| + |top|)
    ensures ch[..|distinct|] == distinct
    ensures forall i :: |distinct| <= i < |ch| ==> ch[i] == top[i - |distinct|]
  {
    var padded := if |distinct| < PaletteSize then distinct + top[..Min(|top|, PaletteSize - |distinct|)] else distinct;
    padded[..Min(PaletteSize, |padded|)]
  }

  /** The buckets behind the palette entries, in entry order: the kept
      buckets first, then padding from the candidates. There are five entries
      when there are at least five buckets, none when there is none, and in
      general `min(5, kept + candidates)`, since padding may repeat a kept
      bucket. The first entry is a most frequent bucket. */
  function Chosen(buckets: seq<Bucket>): (ch: seq<Bucket>)
    ensures |ch| == Min(PaletteSize, |SelectDistinct(TopBuckets(buckets))| + Min(CandidateCount, |buckets|))
    ensures |buckets| >= PaletteSize ==> |ch| == PaletteSize
    ensures |buckets| == 0 <==> |ch| == 0
    ensures ch[..|SelectDistinct(TopBuckets(buckets))|] == SelectDistinct(TopBuckets(buckets))
    ensures |ch| > 0 ==> forall b :: b in buckets ==> ch[0].count >= b.count
    ensures forall b :: b in ch ==> b in buckets
  {
    var top := TopBuckets(buckets);
    var distinct := SelectDistinct(top);
    var ch := Padded(distinct, top);
    PaddedMembers(distinct, top, buckets);
    assert |ch| > 0 ==> ch[0] == distinct[0] == top[0];
    ch
  }

  /** Padding the selection from the candidates only uses candidates. */
  lemma {:induction false} PaddedMembers(distinct: seq<Bucket>, top: seq<Bucket>, buckets: seq<Bucket>)
    requires |distinct| <= PaletteSize && Subsequence(distinct, top)
    requires forall b :: b in top ==> b in buckets
    ensures forall b :: b in Padded(distinct, top) ==> b in buckets
  {
    var ch := Padded(distinct, top);
    SubsequenceMembers(distinct, top);
    forall b | b in ch
      ensures b in buckets
    {
      var i :| 0 <= i < |ch| && ch[i] == b;
      if i < |distinct| {
        assert b == distinct[i];
      }
    }
  }

  /** An image set of a single colour gives a palette of two entries, the same
      bucket twice. */
  lemma {:induction false} SingleBucketRepeats(b: Bucket)
    ensures Chosen([b]) == [b, b]
  {
    var top := TopBuckets([b]);
    assert top == [b];
    var distinct := SelectDistinct(top);
    assert distinct == [b];
  }

  /** `Math.max(1, Math.round(count / totalPixels * 100))`: the share in
      percent, rounded half-up, but never below 1. */
  function Percentage(count: nat, total: nat): (pct: int)
    requires total > 0
    ensures pct >= 1
    ensures count <= total ==> pct <= 100
    ensures pct == 1 <==> count as real / total as real * 100.0 < 1.5
    ensures count as real / total as real * 100.0 >= 0.5 ==>
              pct as real - 0.5 <= count as real / total as real * 100.0 < pct as real + 0.5
  {
    var p := Round(count as real / total as real * 100.0);
    if count <= total then
      DivWithin(count as real, total as real, 0.0, 1.0);
      RoundWithin(count as real / total as real * 100.0, 0, 100);
      Max(1, p)
    else
      Max(1, p)
  }

  /** The role of the entry at `index`: by position for the first two, by
      the HSL saturation of the representative for the others. */
  function RoleAt(index: nat, rep: Rgb): (role: Role)
    ensures index == 0 <==> role == Dominant
    ensures index == 1 <==> role == Secondary
    ensures index >= 2 ==> (role == Accent <==> Saturation(rep) > 30.0)
    ensures role == Muted <==> index >= 2 && Saturation(rep) <= 30.0
  {
    if index == 0 then Dominant
    else if index == 1 then Secondary
    else if Saturation(rep) > 30.0 then Accent
    else Muted
  }

  /** The palette entry of bucket `b` at position `index`; its hex colour is
      in canonical form ("#" and six upper-case digits) and reads back as the
      representative, which by HexRoundTripBack makes it the representative's
      `rgbToHex`. */
  function Entry(b: Bucket, index: nat, total: nat): (e: PaletteColour)
    requires total > 0
    ensures |e.hex| == 7 && ParseHex(e.hex) == Some(b.rep)
    ensures e.hex[0] == '#' && forall i :: 1 <= i < 7 ==> e.hex[i] in UpperHexDigits
    ensures e.pct == Percentage(b.count, total)
    ensures e.role == RoleAt(index, b.rep)
  {
    HexRoundTrip(b.rep);
    PaletteColour(RgbToHex(b.rep), Percentage(b.count, total), RoleAt(index, b.rep))
  }

  /** One entry per bucket, in order. */
  function Entries(ch: seq<Bucket>, total: nat): (p: seq<PaletteColour>)
    requires total > 0
    ensures |p| == |ch|
    ensures forall i :: 0 <= i < |ch| ==> p[i] == Entry(ch[i], i, total)
  {
    seq(|ch|, i requires 0 <= i < |ch| => Entry(ch[i], i, total))
  }

  /** The palette built from the buckets and the opaque-sample count. */
  function ExtractPalette(buckets: seq<Bucket>, total: nat): (p: seq<PaletteColour>)
    requires total > 0 || |buckets| == 0
    ensures |p| == |Chosen(buckets)|
    ensures forall i :: 0 <= i < |p| ==> |p[i].hex| == 7
    ensures forall i :: 0 <= i < |p| ==> ParseHex(p[i].hex) == Some(Chosen(buckets)[i].rep)
    ensures forall i :: 0 <= i < |p| ==> p[i].hex == RgbToHex(Chosen(buckets)[i].rep)
    ensures forall i :: 0 <= i < |p| ==> p[i].pct == Percentage(Chosen(buckets)[i].count, total)
    ensures forall i :: 0 <= i < |p| ==> p[i].role == RoleAt(i, Chosen(buckets)[i].rep)
  {
    var ch := Chosen(buckets);
    if |ch| == 0 then [] else Entries(ch, total)
  }

  /** Percentages lie in [1, 100] when no bucket holds more samples than were
      counted, and the dominant entry has the largest percentage. */
  lemma {:induction false} PaletteShares(buckets: seq<Bucket>, total: nat)
    requires total > 0
    requires forall b :: b in buckets ==> b.count <= total
    ensures forall i :: 0 <= i < |ExtractPalette(buckets, total)| ==> 1 <= ExtractPalette(buckets, total)[i].pct <= 100
    ensures forall i :: 0 <= i < |ExtractPalette(buckets, total)| ==>
              ExtractPalette(buckets, total)[0].pct >= ExtractPalette(buckets, total)[i].pct
  {
    var p := ExtractPalette(buckets, total);
    var ch := Chosen(buckets);
    forall i | 0 <= i < |p|
      ensures 1 <= p[i].pct <= 100 && p[0].pct >= p[i].pct
    {
      assert ch[i] in ch && ch[0] in ch;
      PercentageShare(ch[i].count, ch[0].count, total);
    }
  }

  /** A smaller count never gets a larger percentage. */
  lemma {:induction false} PercentageShare(x: nat, y: nat, total: nat)
    requires x <= y <= total && total > 0
    ensures 1 <= Percentage(x, total) <= 100
    ensures Percentage(x, total) <= Percentage(y, total)
  {
    DivMonotone(x as real, y as real, total as real);
    RoundMonotone(x as real / total as real * 100.0, y as real / total as real * 100.0);
  }

  lemma {:induction false} DivMonotone(x: real, y: real, d: real)
    requires x <= y && d > 0.0
    ensures x / d * 100.0 <= y / d * 100.0
  {
    if x < y {
      DivPositive(y - x, d);
      assert y / d - x / d == (y - x) / d;
    }
  }
}
