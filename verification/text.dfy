/** Decimal rendering of numbers as JavaScript's template literals produce
    it, for the integers and the `NaN` the metrics can hold, with the parsing
    needed to show that nothing is lost. */
module Text {
  import opened Metrics

  const DecimalDigits: string := "0123456789"

  /** Decimal digits of a natural number, without leading zeros. */
  function NatToString(n: nat): (s: string)
    ensures |s| >= 1
    ensures forall i :: 0 <= i < |s| ==> s[i] in DecimalDigits
  {
    if n < 10 then [DecimalDigits[n]] else NatToString(n / 10) + [DecimalDigits[n % 10]]
  }

  /** `String(n)` for an integer: a minus sign, then the digits. */
  function IntToString(n: int): (s: string)
    ensures |s| >= 1
    ensures s[0] == '-' <==> n < 0
  {
    if n < 0 then "-" + NatToString(-n) else NatToString(n)
  }

  /** How a metric appears in a template literal. */
  function ScoreText(s: Score): string
  {
    match s
    case NaN => "NaN"
    case Num(n) => IntToString(n)
  }

  function DigitValue(ch: char): nat
  {
    if '0' <= ch <= '9' then ch as int - '0' as int else 0
  }

  /** Reads a string of decimal digits back. */
  function ParseNat(s: string): nat
  {
    if |s| == 0 then 0 else ParseNat(s[..|s| - 1]) * 10 + DigitValue(s[|s| - 1])
  }

  lemma {:induction false} ParseNatToString(n: nat)
    ensures ParseNat(NatToString(n)) == n
  {
    var s := NatToString(n);
    if n >= 10 {
      ParseNatToString(n / 10);
      assert s[..|s| - 1] == NatToString(n / 10);
    }
  }

  lemma {:induction false} NatToStringInjective(m: nat, n: nat)
    requires NatToString(m) == NatToString(n)
    ensures m == n
  {
    ParseNatToString(m);
    ParseNatToString(n);
  }

  /** Different integers print differently. */
  lemma {:induction false} IntToStringInjective(a: int, b: int)
    requires IntToString(a) == IntToString(b)
    ensures a == b
  {
    if a < 0 && b < 0 {
      var sa, sb := NatToString(-a), NatToString(-b);
      assert IntToString(a) == "-" + sa && IntToString(b) == "-" + sb;
      assert sa == IntToString(a)[1..];
      assert sb == IntToString(b)[1..];
      NatToStringInjective(-a, -b);
    } else if a >= 0 && b >= 0 {
      NatToStringInjective(a, b);
    }
  }

  /** Different scores print differently: `NaN` starts with a letter, a
      number with a digit or a minus sign. */
  lemma {:induction false} ScoreTextInjective(a: Score, b: Score)
    requires ScoreText(a) == ScoreText(b)
    ensures a == b
  {
    if a.Num? && b.Num? {
      IntToStringInjective(a.value, b.value);
    } else if a.Num? {
      NumberTextStart(a.value);
    } else if b.Num? {
      NumberTextStart(b.value);
    }
  }

  lemma {:induction false} NumberTextStart(n: int)
    ensures IntToString(n)[0] == '-' || IntToString(n)[0] in DecimalDigits
  {
  }

  /** Splitting at a separator is unique when the left part cannot contain
      the separator's first character. */
  lemma {:induction false} SplitUnique(x: string, y: string, x': string, y': string, sep: string)
    requires |sep| > 0 && sep[0] !in x && sep[0] !in x'
    requires x + sep + y == x' + sep + y'
    ensures x == x' && y == y'
  {
    var whole := x + sep + y;
    assert whole[..|x|] == x && whole[..|x'|] == x';
    assert whole[|x|] == sep[0] && whole[|x'|] == sep[0];
    assert x == whole[..|x|] == x';
    assert y == whole[|x| + |sep|..] == y';
  }

  /** A printed score never contains a space. */
  lemma {:induction false} NoSpaceInScore(s: Score)
    ensures ' ' !in ScoreText(s)
  {
    if s.Num? {
      var t := IntToString(s.value);
      if s.value < 0 {
        assert t == "-" + NatToString(-s.value);
      }
    }
  }
}
