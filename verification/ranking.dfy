/** `Object.values(colorBuckets).sort((a, b) => b.count - a.count)`: the
    buckets ordered by descending count. `Array.prototype.sort` is stable, so
    buckets with equal counts keep their insertion order; the model is a
    stable insertion sort. */
module Ranking {
  import opened Buckets

  predicate SortedByCount(s: seq<Bucket>)
  {
    forall i, j :: 0 <= i < j < |s| ==> s[i].count >= s[j].count
  }

  /** Insert `b` into the descending sequence `s` after every bucket whose
      count is at least `b.count`. */
  function Insert(s: seq<Bucket>, b: Bucket): (r: seq<Bucket>)
    ensures |r| == |s| + 1
    ensures multiset(r) == multiset(s) + multiset{b}
    ensures SortedByCount(s) ==> SortedByCount(r)
  {
    if |s| == 0 || s[|s| - 1].count >= b.count then
      s + [b]
    else
      var front, x := s[..|s| - 1], s[|s| - 1];
      assert s == front + [x];
      var r := Insert(front, b) + [x];
      InsertSortedStep(s, b, r);
      r
  }

  lemma {:induction false} InsertSortedStep(s: seq<Bucket>, b: Bucket, r: seq<Bucket>)
    requires |s| > 0 && s[|s| - 1].count < b.count
    requires r == Insert(s[..|s| - 1], b) + [s[|s| - 1]]
    ensures SortedByCount(s) ==> SortedByCount(r)
  {
    if SortedByCount(s) {
      var front, x := s[..|s| - 1], s[|s| - 1];
      var ins := Insert(front, b);
      assert SortedByCount(front);
      forall i | 0 <= i < |ins|
        ensures ins[i].count >= x.count
      {
        assert ins[i] in multiset(front) + multiset{b};
        if ins[i] != b {
          assert ins[i] in front;
        }
      }
    }
  }

  /** The buckets in sorted order. */
  function SortByCount(bs: seq<Bucket>): (r: seq<Bucket>)
    ensures SortedByCount(r)
    ensures multiset(r) == multiset(bs)
    ensures |r| == |bs|
  {
    if |bs| == 0 then []
    else
      assert bs == bs[..|bs| - 1] + [bs[|bs| - 1]];
      Insert(SortByCount(bs[..|bs| - 1]), bs[|bs| - 1])
  }

  /** The buckets with count `n`, in order. */
  function WithCount(s: seq<Bucket>, n: nat): seq<Bucket>
  {
    if |s| == 0 then []
    else WithCount(s[..|s| - 1], n) + (if s[|s| - 1].count == n then [s[|s| - 1]] else [])
  }

  lemma {:induction false} WithCountAppend(s: seq<Bucket>, b: Bucket, n: nat)
    ensures WithCount(s + [b], n) == WithCount(s, n) + (if b.count == n then [b] else [])
  {
    assert (s + [b])[..|s|] == s;
  }

  lemma {:induction false} InsertWithCount(s: seq<Bucket>, b: Bucket, n: nat)
    ensures WithCount(Insert(s, b), n) == WithCount(s, n) + (if b.count == n then [b] else [])
    decreases |s|
  {
    if |s| == 0 || s[|s| - 1].count >= b.count {
      WithCountAppend(s, b, n);
    } else {
      InsertWithCount(s[..|s| - 1], b, n);
      InsertWithCountPastLast(s, b, n);
    }
  }

  /** The step of InsertWithCount when `b` moves past the last bucket. */
  lemma {:induction false} InsertWithCountPastLast(s: seq<Bucket>, b: Bucket, n: nat)
    requires |s| > 0 && s[|s| - 1].count < b.count
    requires WithCount(Insert(s[..|s| - 1], b), n) == WithCount(s[..|s| - 1], n) + (if b.count == n then [b] else [])
    ensures WithCount(Insert(s, b), n) == WithCount(s, n) + (if b.count == n then [b] else [])
  {
    var front, x := s[..|s| - 1], s[|s| - 1];
    InsertPastLast(s, b);
    assert s == front + [x];
    WithCountPastLast(front, x, b, n, Insert(front, b));
  }

  /** Appending a bucket smaller than `b` to both sides keeps the buckets
      with count `n` of `ins` equal to those of `front` followed by `b`'s
      contribution. */
  lemma {:induction false} WithCountPastLast(front: seq<Bucket>, x: Bucket, b: Bucket, n: nat, ins: seq<Bucket>)
    requires x.count < b.count
    requires WithCount(ins, n) == WithCount(front, n) + (if b.count == n then [b] else [])
    ensures WithCount(ins + [x], n) == WithCount(front + [x], n) + (if b.count == n then [b] else [])
  {
    var w := WithCount(front, n);
    WithCountAppend(ins, x, n);
    WithCountAppend(front, x, n);
    if b.count == n {
      assert x.count != n;
      assert WithCount(ins + [x], n) == w + [b];
      assert WithCount(front + [x], n) == w;
    } else {
      assert WithCount(ins, n) == w;
    }
  }

  /** A bucket larger than the last one is inserted before it. */
  lemma {:induction false} InsertPastLast(s: seq<Bucket>, b: Bucket)
    requires |s| > 0 && s[|s| - 1].count < b.count
    ensures Insert(s, b) == Insert(s[..|s| - 1], b) + [s[|s| - 1]]
  {
  }

  /** Stability: for every count, the buckets with that count appear in the
      sorted sequence in the same order as in the input. */
  lemma {:induction false} SortIsStable(bs: seq<Bucket>, n: nat)
    ensures WithCount(SortByCount(bs), n) == WithCount(bs, n)
  {
    if |bs| > 0 {
      var front, x := bs[..|bs| - 1], bs[|bs| - 1];
      SortIsStable(front, n);
      InsertWithCount(SortByCount(front), x, n);
    }
  }

  /** Cutting a sequence short cuts the buckets with count `n` short. */
  lemma {:induction false} WithCountPrefix(s: seq<Bucket>, k: nat, n: nat)
    requires k <= |s|
    ensures |WithCount(s[..k], n)| <= |WithCount(s, n)|
    ensures WithCount(s[..k], n) == WithCount(s, n)[..|WithCount(s[..k], n)|]
    decreases |s|
  {
    if k == |s| {
      assert s[..k] == s;
    } else {
      var front := s[..|s| - 1];
      WithCountPrefix(front, k, n);
      assert front[..k] == s[..k];
    }
  }

  /** The first bucket of the sorted sequence has the largest count. */
  lemma {:induction false} SortedFirstIsLargest(bs: seq<Bucket>)
    requires |bs| > 0
    ensures forall b :: b in bs ==> SortByCount(bs)[0].count >= b.count
  {
    var r := SortByCount(bs);
    forall b | b in bs
      ensures r[0].count >= b.count
    {
      assert b in multiset(r);
      var k :| 0 <= k < |r| && r[k] == b;
    }
  }
}
