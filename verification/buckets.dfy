/** Colour bucketing of the analyser. Every opaque sample belongs to the
    bucket of its 5-bit quantised colour; a bucket remembers how many samples
    it holds and the first raw sample that created it. Buckets are kept in
    insertion order, which is the order in which `Object.values` lists the
    properties of the JavaScript object that holds them. */
module Buckets {
  import opened Common
  import opened Colour

  datatype Bucket = Bucket(key: Rgb, count: nat, rep: Rgb)

  /** Position of the bucket with key `k`, or `|bs|` when there is none: the
      property lookup `colorBuckets[key]`. */
  function FindKey(bs: seq<Bucket>, k: Rgb): (j: nat)
    ensures j <= |bs|
    ensures j < |bs| ==> bs[j].key == k
    ensures j == |bs| <==> forall i :: 0 <= i < |bs| ==> bs[i].key != k
  {
    if |bs| == 0 then 0 else if bs[0].key == k then 0 else 1 + FindKey(bs[1..], k)
  }

  function SumCounts(bs: seq<Bucket>): nat
  {
    if |bs| == 0 then 0 else bs[0].count + SumCounts(bs[1..])
  }

  lemma {:induction false} SumCountsUpdate(bs: seq<Bucket>, j: nat, b: Bucket)
    requires j < |bs|
    ensures SumCounts(bs[j := b]) == SumCounts(bs) - bs[j].count + b.count
  {
    if j > 0 {
      SumCountsUpdate(bs[1..], j - 1, b);
      assert bs[j := b][1..] == bs[1..][j - 1 := b];
    }
  }

  lemma {:induction false} SumCountsAppend(bs: seq<Bucket>, b: Bucket)
    ensures SumCounts(bs + [b]) == SumCounts(bs) + b.count
  {
    if |bs| > 0 {
      SumCountsAppend(bs[1..], b);
      assert (bs + [b])[1..] == bs[1..] + [b];
    }
  }

  /** The body of the pixel loop that touches `colorBuckets`: create the
      bucket with count 0 and the raw sample as representative if its key is
      new, then increment that bucket's count. Exactly one count goes up. */
  function AddSample(bs: seq<Bucket>, c: Rgb): (r: seq<Bucket>)
    ensures SumCounts(r) == SumCounts(bs) + 1
    ensures |r| == if FindKey(bs, Quantize(c)) < |bs| then |bs| else |bs| + 1
  {
    var k := Quantize(c);
    var created := if FindKey(bs, k) < |bs| then bs else bs + [Bucket(k, 0, c)];
    assert FindKey(bs, k) == |bs| ==> created[|bs|].key == k;
    var j := FindKey(created, k);
    var r := created[j := created[j].(count := created[j].count + 1)];
    SumCountsUpdate(created, j, created[j].(count := created[j].count + 1));
    if FindKey(bs, k) == |bs| then
      SumCountsAppend(bs, Bucket(k, 0, c));
      r
    else
      r
  }

  /** Exactly one bucket changes: the one with the sample's key gets one
      more sample, or a new bucket with count 1 and the sample as
      representative is appended. */
  lemma {:induction false} AddSampleShape(bs: seq<Bucket>, c: Rgb)
    ensures var r := AddSample(bs, c);
      FindKey(bs, Quantize(c)) < |bs| ==>
        && (forall i :: 0 <= i < |bs| ==> r[i].key == bs[i].key && r[i].rep == bs[i].rep)
        && (forall i :: 0 <= i < |bs| && i != FindKey(bs, Quantize(c)) ==> r[i].count == bs[i].count)
        && r[FindKey(bs, Quantize(c))].count == bs[FindKey(bs, Quantize(c))].count + 1
    ensures FindKey(bs, Quantize(c)) == |bs| ==> AddSample(bs, c) == bs + [Bucket(Quantize(c), 1, c)]
  {
    var k := Quantize(c);
    if FindKey(bs, k) == |bs| {
      var created := bs + [Bucket(k, 0, c)];
      assert created[|bs|].key == k;
      assert FindKey(created, k) == |bs|;
    }
  }

  /** The buckets built from a stream of opaque samples, in scan order. */
  function Bucketize(s: seq<Rgb>): seq<Bucket>
  {
    if |s| == 0 then [] else AddSample(Bucketize(s[..|s| - 1]), s[|s| - 1])
  }

  /** Reference definitions over the sample stream. */

  /** Number of samples whose quantised colour is `k`. */
  function CountKey(s: seq<Rgb>, k: Rgb): (n: nat)
    ensures n <= |s|
  {
    if |s| == 0 then 0
    else CountKey(s[..|s| - 1], k) + (if Quantize(s[|s| - 1]) == k then 1 else 0)
  }

  /** Index of the first sample whose quantised colour is `k`, or `|s|`. */
  function FirstIndex(s: seq<Rgb>, k: Rgb): (f: nat)
    ensures f <= |s|
    ensures f < |s| ==> Quantize(s[f]) == k
    ensures forall i :: 0 <= i < f ==> Quantize(s[i]) != k
  {
    if |s| == 0 then 0
    else
      var f := FirstIndex(s[..|s| - 1], k);
      if f < |s| - 1 then f
      else if Quantize(s[|s| - 1]) == k then |s| - 1
      else |s|
  }

  lemma {:induction false} CountKeyAbsent(s: seq<Rgb>, k: Rgb)
    requires FirstIndex(s, k) == |s|
    ensures CountKey(s, k) == 0
  {
    if |s| > 0 {
      var s' := s[..|s| - 1];
      assert forall i :: 0 <= i < |s'| ==> s'[i] == s[i];
      CountKeyAbsent(s', k);
    }
  }

  /** What the bucket list says about the stream it was built from: keys
      are distinct, every bucket counts exactly the samples of its key and
      holds the first of them as representative, every sample has a bucket,
      and buckets appear in the order their keys first occur. */
  ghost predicate Describes(bs: seq<Bucket>, s: seq<Rgb>)
  {
    && (forall i, j :: 0 <= i < j < |bs| ==> bs[i].key != bs[j].key)
    && (forall j :: 0 <= j < |bs| ==>
          FirstIndex(s, bs[j].key) < |s| && bs[j].rep == s[FirstIndex(s, bs[j].key)])
    && (forall j :: 0 <= j < |bs| ==> bs[j].count == CountKey(s, bs[j].key))
    && (forall i :: 0 <= i < |s| ==> FindKey(bs, Quantize(s[i])) < |bs|)
    && (forall i, j :: 0 <= i < j < |bs| ==> FirstIndex(s, bs[i].key) < FirstIndex(s, bs[j].key))
  }

  lemma {:induction false} BucketizeDescribes(s: seq<Rgb>)
    ensures Describes(Bucketize(s), s)
    ensures SumCounts(Bucketize(s)) == |s|
  {
    if |s| > 0 {
      var s0, c := s[..|s| - 1], s[|s| - 1];
      assert s0 + [c] == s;
      BucketizeDescribes(s0);
      DescribesStep(Bucketize(s0), s0, c);
    }
  }

  lemma {:induction false} DescribesStep(bs: seq<Bucket>, s: seq<Rgb>, c: Rgb)
    requires Describes(bs, s)
    ensures Describes(AddSample(bs, c), s + [c])
  {
    if FindKey(bs, Quantize(c)) < |bs| {
      DescribesStepKnownKey(bs, s, c);
    } else {
      DescribesStepNewKey(bs, s, c);
    }
  }

  /** How the reference definitions move when one sample is appended. */
  lemma {:induction false} AppendSample(s: seq<Rgb>, c: Rgb, key: Rgb)
    ensures FirstIndex(s + [c], key) == (if FirstIndex(s, key) < |s| then FirstIndex(s, key)
                                         else if key == Quantize(c) then |s| else |s| + 1)
    ensures CountKey(s + [c], key) == CountKey(s, key) + (if key == Quantize(c) then 1 else 0)
    ensures (s + [c])[..|s|] == s
  {
    assert (s + [c])[..|s|] == s;
  }

  lemma {:induction false} DescribesStepKnownKey(bs: seq<Bucket>, s: seq<Rgb>, c: Rgb)
    requires Describes(bs, s) && FindKey(bs, Quantize(c)) < |bs|
    ensures Describes(AddSample(bs, c), s + [c])
  {
    var s', r := s + [c], AddSample(bs, c);
    forall m | 0 <= m < |r|
      ensures FirstIndex(s', r[m].key) < |s'| && r[m].rep == s'[FirstIndex(s', r[m].key)]
      ensures r[m].count == CountKey(s', r[m].key)
    {
      KnownKeyBucket(bs, s, c, m);
    }
    forall a, b | 0 <= a < b < |r|
      ensures FirstIndex(s', r[a].key) < FirstIndex(s', r[b].key)
    {
      KnownKeyOrder(bs, s, c, a, b);
    }
    forall i | 0 <= i < |s'| ensures FindKey(r, Quantize(s'[i])) < |r| {
      KnownKeyCovers(bs, s, c, i);
    }
  }

  lemma {:induction false} KnownKeyBucket(bs: seq<Bucket>, s: seq<Rgb>, c: Rgb, m: nat)
    requires Describes(bs, s) && FindKey(bs, Quantize(c)) < |bs| && m < |AddSample(bs, c)|
    ensures var s', r := s + [c], AddSample(bs, c);
      && FirstIndex(s', r[m].key) < |s'| && r[m].rep == s'[FirstIndex(s', r[m].key)]
      && r[m].count == CountKey(s', r[m].key)
  {
    KnownKeyRep(bs, s, c, m, FirstIndex(s, bs[m].key));
    KnownKeyCount(bs, s, c, m);
  }

  lemma {:induction false} KnownKeyRep(bs: seq<Bucket>, s: seq<Rgb>, c: Rgb, m: nat, f: nat)
    requires FindKey(bs, Quantize(c)) < |bs| && m < |bs|
    requires f == FirstIndex(s, bs[m].key) && f < |s| && bs[m].rep == s[f]
    ensures var s', r := s + [c], AddSample(bs, c);
      FirstIndex(s', r[m].key) == f && r[m].rep == s'[f]
  {
    var r := AddSample(bs, c);
    AppendSample(s, c, bs[m].key);
    assert r[m].key == bs[m].key && r[m].rep == bs[m].rep;
    assert (s + [c])[f] == s[f];
  }

  lemma {:induction false} KnownKeyCount(bs: seq<Bucket>, s: seq<Rgb>, c: Rgb, m: nat)
    requires FindKey(bs, Quantize(c)) < |bs| && m < |bs|
    requires forall i, j :: 0 <= i < j < |bs| ==> bs[i].key != bs[j].key
    requires bs[m].count == CountKey(s, bs[m].key)
    ensures AddSample(bs, c)[m].count == CountKey(s + [c], AddSample(bs, c)[m].key)
  {
    var r, k := AddSample(bs, c), Quantize(c);
    var j, key := FindKey(bs, k), bs[m].key;
    AppendSample(s, c, key);
    assert r[m].key == key;
    assert key == k <==> m == j;
  }

  lemma {:induction false} KnownKeyOrder(bs: seq<Bucket>, s: seq<Rgb>, c: Rgb, a: nat, b: nat)
    requires Describes(bs, s) && FindKey(bs, Quantize(c)) < |bs| && a < b < |AddSample(bs, c)|
    ensures var s', r := s + [c], AddSample(bs, c);
      FirstIndex(s', r[a].key) < FirstIndex(s', r[b].key)
  {
    var r, ka, kb := AddSample(bs, c), bs[a].key, bs[b].key;
    AppendSample(s, c, ka);
    AppendSample(s, c, kb);
    assert r[a].key == ka && r[b].key == kb;
    assert FirstIndex(s, ka) < |s| && FirstIndex(s, kb) < |s|;
    assert FirstIndex(s, ka) < FirstIndex(s, kb);
  }

  lemma {:induction false} KnownKeyCovers(bs: seq<Bucket>, s: seq<Rgb>, c: Rgb, i: nat)
    requires Describes(bs, s) && FindKey(bs, Quantize(c)) < |bs| && i <= |s|
    ensures FindKey(AddSample(bs, c), Quantize((s + [c])[i])) < |AddSample(bs, c)|
  {
    var r := AddSample(bs, c);
    if i < |s| {
      var m := FindKey(bs, Quantize(s[i]));
      assert r[m].key == Quantize((s + [c])[i]);
    } else {
      assert r[FindKey(bs, Quantize(c))].key == Quantize(c);
    }
  }

  lemma {:induction false} DescribesStepNewKey(bs: seq<Bucket>, s: seq<Rgb>, c: Rgb)
    requires Describes(bs, s) && FindKey(bs, Quantize(c)) == |bs|
    ensures Describes(AddSample(bs, c), s + [c])
  {
    var k := Quantize(c);
    assert FirstIndex(s, k) == |s|;
    CountKeyAbsent(s, k);
    NewKeyBuckets(bs, s, c);
    NewKeyOrders(bs, s, c);
    NewKeyCoversAll(bs, s, c);
  }

  lemma {:induction false} NewKeyBuckets(bs: seq<Bucket>, s: seq<Rgb>, c: Rgb)
    requires Describes(bs, s) && FindKey(bs, Quantize(c)) == |bs|
    requires FirstIndex(s, Quantize(c)) == |s| && CountKey(s, Quantize(c)) == 0
    ensures var s', r := s + [c], AddSample(bs, c);
      forall m :: 0 <= m < |r| ==>
        && FirstIndex(s', r[m].key) < |s'| && r[m].rep == s'[FirstIndex(s', r[m].key)]
        && r[m].count == CountKey(s', r[m].key)
  {
    var r := AddSample(bs, c);
    forall m | 0 <= m < |r|
      ensures FirstIndex(s + [c], r[m].key) < |s + [c]| && r[m].rep == (s + [c])[FirstIndex(s + [c], r[m].key)]
      ensures r[m].count == CountKey(s + [c], r[m].key)
    {
      NewKeyBucket(bs, s, c, m);
    }
  }

  lemma {:induction false} NewKeyOrders(bs: seq<Bucket>, s: seq<Rgb>, c: Rgb)
    requires Describes(bs, s) && FindKey(bs, Quantize(c)) == |bs|
    requires FirstIndex(s, Quantize(c)) == |s|
    ensures var s', r := s + [c], AddSample(bs, c);
      forall a, b :: 0 <= a < b < |r| ==>
        r[a].key != r[b].key && FirstIndex(s', r[a].key) < FirstIndex(s', r[b].key)
  {
    var r := AddSample(bs, c);
    forall a, b | 0 <= a < b < |r|
      ensures r[a].key != r[b].key && FirstIndex(s + [c], r[a].key) < FirstIndex(s + [c], r[b].key)
    {
      NewKeyOrder(bs, s, c, a, b);
    }
  }

  lemma {:induction false} NewKeyCoversAll(bs: seq<Bucket>, s: seq<Rgb>, c: Rgb)
    requires Describes(bs, s) && FindKey(bs, Quantize(c)) == |bs|
    ensures var s', r := s + [c], AddSample(bs, c);
      forall i :: 0 <= i < |s'| ==> FindKey(r, Quantize(s'[i])) < |r|
  {
    forall i | 0 <= i < |s + [c]| ensures FindKey(AddSample(bs, c), Quantize((s + [c])[i])) < |AddSample(bs, c)| {
      NewKeyCovers(bs, s, c, i);
    }
  }

  lemma {:induction false} NewKeyBucket(bs: seq<Bucket>, s: seq<Rgb>, c: Rgb, m: nat)
    requires Describes(bs, s) && FindKey(bs, Quantize(c)) == |bs| && m < |AddSample(bs, c)|
    requires FirstIndex(s, Quantize(c)) == |s| && CountKey(s, Quantize(c)) == 0
    ensures var s', r := s + [c], AddSample(bs, c);
      && FirstIndex(s', r[m].key) < |s'| && r[m].rep == s'[FirstIndex(s', r[m].key)]
      && r[m].count == CountKey(s', r[m].key)
  {
    AddSampleShape(bs, c);
    AppendSample(s, c, AddSample(bs, c)[m].key);
  }

  lemma {:induction false} NewKeyOrder(bs: seq<Bucket>, s: seq<Rgb>, c: Rgb, a: nat, b: nat)
    requires Describes(bs, s) && FindKey(bs, Quantize(c)) == |bs| && a < b < |AddSample(bs, c)|
    requires FirstIndex(s, Quantize(c)) == |s|
    ensures var s', r := s + [c], AddSample(bs, c);
      r[a].key != r[b].key && FirstIndex(s', r[a].key) < FirstIndex(s', r[b].key)
  {
    AddSampleShape(bs, c);
    AppendSample(s, c, AddSample(bs, c)[a].key);
    AppendSample(s, c, AddSample(bs, c)[b].key);
  }

  lemma {:induction false} NewKeyCovers(bs: seq<Bucket>, s: seq<Rgb>, c: Rgb, i: nat)
    requires Describes(bs, s) && FindKey(bs, Quantize(c)) == |bs| && i <= |s|
    ensures FindKey(AddSample(bs, c), Quantize((s + [c])[i])) < |AddSample(bs, c)|
  {
    var r := AddSample(bs, c);
    AddSampleShape(bs, c);
    if i < |s| {
      var m := FindKey(bs, Quantize(s[i]));
      assert r[m].key == Quantize((s + [c])[i]);
    } else {
      assert r[|bs|].key == Quantize(c);
    }
  }

  /** Consequences used by the palette: keys are the quantised
      representatives, and every count lies between 1 and the number of
      samples. */
  lemma {:induction false} BucketFacts(s: seq<Rgb>)
    ensures forall j :: 0 <= j < |Bucketize(s)| ==>
              && Bucketize(s)[j].key == Quantize(Bucketize(s)[j].rep)
              && 1 <= Bucketize(s)[j].count <= |s|
  {
    BucketizeDescribes(s);
    var bs := Bucketize(s);
    forall j | 0 <= j < |bs|
      ensures bs[j].key == Quantize(bs[j].rep) && 1 <= bs[j].count <= |s|
    {
      var k := bs[j].key;
      if CountKey(s, k) == 0 {
        CountKeyPresent(s, k);
      }
    }
  }

  lemma {:induction false} CountKeyPresent(s: seq<Rgb>, k: Rgb)
    requires FirstIndex(s, k) < |s|
    ensures CountKey(s, k) >= 1
  {
    var s' := s[..|s| - 1];
    if FirstIndex(s', k) < |s'| {
      CountKeyPresent(s', k);
    }
  }
}
