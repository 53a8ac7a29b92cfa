/** Shared vocabulary for the model: an option type, integer and real helpers
    (including JavaScript's `Math.round`), subsequences, duplicate-freedom and
    `Array.prototype.join` on strings. */
module Common {

  datatype Option<T> = None | Some(value: T)

  function Min(a: int, b: int): int { if a <= b then a else b }

  function Max(a: int, b: int): int { if a >= b then a else b }

  function Abs(x: int): nat { if x < 0 then -x else x }

  function MinR(a: real, b: real): real { if a <= b then a else b }

  function MaxR(a: real, b: real): real { if a >= b then a else b }

  /** `Math.round` on a finite number: the nearest integer, half-way cases
      going towards +infinity, which is `floor(x + 0.5)`. */
  function Round(x: real): (n: int)
    ensures n as real - 0.5 <= x < n as real + 0.5
  {
    (x + 0.5).Floor
  }

  /** Rounding a value inside an integer interval stays inside it. */
  lemma {:induction false} RoundWithin(x: real, lo: int, hi: int)
    requires lo as real <= x <= hi as real
    ensures lo <= Round(x) <= hi
  {
  }

  lemma {:induction false} RoundMonotone(x: real, y: real)
    requires x <= y
    ensures Round(x) <= Round(y)
  {
  }

  /** The integer that rounding picks is the only one within half a unit. */
  lemma {:induction false} RoundUnique(x: real, n: int)
    requires n as real - 0.5 <= x < n as real + 0.5
    ensures Round(x) == n
  {
  }

  lemma {:induction false} SquareNonNegative(x: real)
    ensures x * x >= 0.0
  {
    if x < 0.0 {
      assert x * x == (-x) * (-x);
    }
  }

  lemma {:induction false} MulPositive(x: real, y: real)
    requires x > 0.0 && y > 0.0
    ensures x * y > 0.0
  {
  }

  /** Squaring is strictly increasing on the non-negative reals. */
  lemma {:induction false} SquareStrict(a: real, b: real)
    requires 0.0 <= a < b
    ensures a * a < b * b
  {
    assert b * b - a * a == (b - a) * (b + a);
    MulPositive(b - a, b + a);
  }

  lemma {:induction false} SquareMonotone(a: real, b: real)
    requires 0.0 <= a && 0.0 <= b
    ensures a < b ==> a * a < b * b
    ensures a * a <= b * b ==> a <= b
  {
    if a < b {
      SquareStrict(a, b);
    } else if b < a {
      SquareStrict(b, a);
    }
  }

  lemma {:induction false} DivCancel(n: real, v: real)
    requires n > 0.0
    ensures n * v / n == v
  {
  }

  /** Elements pairwise distinct. */
  predicate NoDuplicates<T(==)>(s: seq<T>)
  {
    forall i, j :: 0 <= i < j < |s| ==> s[i] != s[j]
  }

  /** Two lists without repetition and without a common element concatenate
      to a list without repetition. */
  lemma {:induction false} NoDuplicatesAppend<T>(a: seq<T>, b: seq<T>)
    requires NoDuplicates(a) && NoDuplicates(b)
    requires forall x :: x in a ==> x !in b
    ensures NoDuplicates(a + b)
  {
    forall i, j | 0 <= i < j < |a + b|
      ensures (a + b)[i] != (a + b)[j]
    {
      if i < |a| && |a| <= j {
        assert (a + b)[i] in a && (a + b)[j] == b[j - |a|];
      }
    }
  }

  /** `xs` occurs in `ys` in the same order, possibly with gaps. Matching
      proceeds from the back, which suits the left folds of the model. */
  predicate Subsequence<T(==)>(xs: seq<T>, ys: seq<T>)
    decreases |ys|
  {
    if |xs| == 0 then true
    else if |ys| == 0 then false
    else if xs[|xs| - 1] == ys[|ys| - 1] then Subsequence(xs[..|xs| - 1], ys[..|ys| - 1])
    else Subsequence(xs, ys[..|ys| - 1])
  }

  lemma {:induction false} SubsequenceDropLast<T>(xs: seq<T>, ys: seq<T>)
    requires |xs| > 0 && Subsequence(xs, ys)
    ensures Subsequence(xs[..|xs| - 1], ys)
    decreases |ys|
  {
    var xs' := xs[..|xs| - 1];
    if |xs'| == 0 {
    } else {
      var ys' := ys[..|ys| - 1];
      if xs[|xs| - 1] != ys[|ys| - 1] {
        SubsequenceDropLast(xs, ys');
      }
      if xs'[|xs'| - 1] == ys[|ys| - 1] {
        SubsequenceDropLast(xs', ys');
      }
    }
  }

  lemma {:induction false} SubsequenceExtend<T>(xs: seq<T>, ys: seq<T>, z: T)
    requires Subsequence(xs, ys)
    ensures Subsequence(xs, ys + [z])
  {
    assert (ys + [z])[..|ys|] == ys;
    if |xs| > 0 && xs[|xs| - 1] == z {
      SubsequenceDropLast(xs, ys);
    }
  }

  lemma {:induction false} SubsequenceAppendBoth<T>(xs: seq<T>, ys: seq<T>, z: T)
    requires Subsequence(xs, ys)
    ensures Subsequence(xs + [z], ys + [z])
  {
    assert (xs + [z])[..|xs|] == xs;
    assert (ys + [z])[..|ys|] == ys;
  }

  lemma {:induction false} SubsequencePrefix<T>(xs: seq<T>, ys: seq<T>, k: nat)
    requires k <= |xs| && Subsequence(xs, ys)
    ensures Subsequence(xs[..k], ys)
    decreases |xs| - k
  {
    if k == |xs| {
      assert xs[..k] == xs;
    } else {
      SubsequenceDropLast(xs, ys);
      SubsequencePrefix(xs[..|xs| - 1], ys, k);
      assert xs[..|xs| - 1][..k] == xs[..k];
    }
  }

  /** Every element of a subsequence is an element of the whole. */
  lemma {:induction false} SubsequenceMembers<T>(xs: seq<T>, ys: seq<T>)
    requires Subsequence(xs, ys)
    ensures forall x :: x in xs ==> x in ys
    decreases |ys|
  {
    if |xs| > 0 {
      var ys' := ys[..|ys| - 1];
      if xs[|xs| - 1] == ys[|ys| - 1] {
        SubsequenceMembers(xs[..|xs| - 1], ys');
        forall x | x in xs ensures x in ys {
          if x != xs[|xs| - 1] {
            var i :| 0 <= i < |xs| && xs[i] == x;
            assert x in xs[..|xs| - 1];
            assert x in ys';
          }
        }
      } else {
        SubsequenceMembers(xs, ys');
      }
    }
  }

  /** `Array.prototype.join` on strings. */
  function Join(xs: seq<string>, sep: string): string
  {
    if |xs| == 0 then ""
    else if |xs| == 1 then xs[0]
    else xs[0] + sep + Join(xs[1..], sep)
  }

  /** Joining `k` pieces of width `w` with a one-character separator yields
      `k * (w + 1) - 1` characters. */
  lemma {:induction false} JoinFixedWidthLength(xs: seq<string>, sep: string, w: nat)
    requires |sep| == 1 && |xs| > 0
    requires forall k :: 0 <= k < |xs| ==> |xs[k]| == w
    ensures |Join(xs, sep)| == |xs| * (w + 1) - 1
  {
    if |xs| > 1 {
      JoinFixedWidthLength(xs[1..], sep, w);
      assert |xs| * (w + 1) == (|xs| - 1) * (w + 1) + (w + 1);
    }
  }

  /** ... and piece `i` sits at offset `i * (w + 1)`, so each piece can be
      read back from the joined string. */
  lemma {:induction false} JoinFixedWidth(xs: seq<string>, sep: string, w: nat, i: nat, off: nat)
    requires |sep| == 1 && i < |xs| && off == i * (w + 1)
    requires forall k :: 0 <= k < |xs| ==> |xs[k]| == w
    ensures off + w <= |Join(xs, sep)|
    ensures Join(xs, sep)[off..off + w] == xs[i]
  {
    JoinFixedWidthLength(xs, sep, w);
    if |xs| > 1 {
      var rest := Join(xs[1..], sep);
      var s := xs[0] + sep + rest;
      if i == 0 {
        assert s[..w] == xs[0];
      } else {
        var off' := (i - 1) * (w + 1);
        assert off == off' + (w + 1);
        JoinFixedWidth(xs[1..], sep, w, i - 1, off');
        assert s[w + 1..] == rest;
        assert s[off..off + w] == rest[off'..off' + w];
      }
    }
  }
}
