/** Colour arithmetic of the analyser: channels, luminance, the RGB to HSL
    conversion, hexadecimal formatting, the Manhattan colour distance and the
    5-bit quantisation used for bucketing. Numbers of the JavaScript source
    are modelled as exact reals. */
module Colour {
  import opened Common

  /** One 8-bit channel as read back from a canvas. */
  type Byte = x: int | 0 <= x < 256

  datatype Rgb = Rgb(r: Byte, g: Byte, b: Byte)

  /** One sample of the RGBA read-back buffer. */
  datatype Rgba = Rgba(r: Byte, g: Byte, b: Byte, a: Byte)
  {
    function Colour(): Rgb { Rgb(r, g, b) }

    /** The analyser skips every sample with `a < 255`. */
    predicate Opaque() { a >= 255 }
  }

  /** Perceived brightness `0.299 R + 0.587 G + 0.114 B`. */
  function Luminance(c: Rgb): (l: real)
    ensures 0.0 <= l <= 255.0
    ensures c.r == c.g == c.b ==> l == c.r as real
  {
    0.299 * c.r as real + 0.587 * c.g as real + 0.114 * c.b as real
  }

  /** Hue in degrees, saturation and lightness in percent. */
  datatype Hsl = Hsl(h: real, s: real, l: real)

  function Max3(a: real, b: real, c: real): real { MaxR(MaxR(a, b), c) }

  function Min3(a: real, b: real, c: real): real { MinR(MinR(a, b), c) }

  /** `x / d` lies in `[lo, hi]` when `x` lies in `[lo * d, hi * d]`. */
  lemma {:induction false} DivWithin(x: real, d: real, lo: real, hi: real)
    requires d > 0.0 && lo * d <= x <= hi * d
    ensures lo <= x / d <= hi
  {
    assert x / d * d == x;
  }

  lemma {:induction false} DivPositive(x: real, d: real)
    requires d > 0.0 && x > 0.0
    ensures x / d > 0.0
  {
    assert x / d * d == x;
  }

  /** The hue branch of `rgbToHsl`, before the division by 6: the `switch`
      tests red first, then green, then blue. */
  function HueSixths(r: real, g: real, b: real, mx: real, d: real): (h: real)
    requires d > 0.0
    requires mx == Max3(r, g, b) && d == mx - Min3(r, g, b)
    ensures 0.0 <= h < 6.0
  {
    if mx == r then
      HueSixthsRed(r, g, b, d)
    else if mx == g then
      DivWithin(b - r, d, -1.0, 1.0);
      (b - r) / d + 2.0
    else
      DivWithin(r - g, d, -1.0, 1.0);
      (r - g) / d + 4.0
  }

  function HueSixthsRed(r: real, g: real, b: real, d: real): (h: real)
    requires d > 0.0 && r >= g && r >= b && d == r - MinR(g, b)
    ensures 0.0 <= h < 6.0
  {
    if g < b then
      DivWithin(g - b, d, -1.0, 0.0);
      DivPositive(b - g, d);
      assert (g - b) / d == -((b - g) / d);
      (g - b) / d + 6.0
    else
      DivWithin(g - b, d, 0.0, 1.0);
      (g - b) / d
  }

  /** `rgbToHsl`: hue in [0, 360), saturation and lightness in [0, 100];
      the saturation is zero exactly for greys. */
  function RgbToHsl(c: Rgb): (hsl: Hsl)
    ensures 0.0 <= hsl.h < 360.0
    ensures 0.0 <= hsl.s <= 100.0
    ensures 0.0 <= hsl.l <= 100.0
    ensures hsl.s == 0.0 <==> c.r == c.g == c.b
  {
    var r, g, b := c.r as real / 255.0, c.g as real / 255.0, c.b as real / 255.0;
    var mx, mn := Max3(r, g, b), Min3(r, g, b);
    var l := (mx + mn) / 2.0;
    if mx == mn then
      Hsl(0.0, 0.0, l * 100.0)
    else
      var d := mx - mn;
      var s := SaturationFraction(mx, mn, l);
      var h := HueSixths(r, g, b, mx, d);
      Hsl(h / 6.0 * 360.0, s * 100.0, l * 100.0)
  }

  /** The saturation branch `l > 0.5 ? d / (2 - max - min) : d / (max + min)`. */
  function SaturationFraction(mx: real, mn: real, l: real): (s: real)
    requires 0.0 <= mn < mx <= 1.0 && l == (mx + mn) / 2.0
    ensures 0.0 < s <= 1.0
  {
    var d := mx - mn;
    if l > 0.5 then
      DivWithin(d, 2.0 - mx - mn, 0.0, 1.0);
      DivPositive(d, 2.0 - mx - mn);
      d / (2.0 - mx - mn)
    else
      DivWithin(d, mx + mn, 0.0, 1.0);
      DivPositive(d, mx + mn);
      d / (mx + mn)
  }

  /** The HSL saturation of a colour, in percent, computed without the hue:
      the middle component of `rgbToHsl`, which is all the analyser keeps. */
  function Saturation(c: Rgb): real
  {
    var r, g, b := c.r as real / 255.0, c.g as real / 255.0, c.b as real / 255.0;
    var mx, mn := Max3(r, g, b), Min3(r, g, b);
    if mx == mn then 0.0 else SaturationFraction(mx, mn, (mx + mn) / 2.0) * 100.0
  }

  /** It is the saturation `rgbToHsl` returns, so it lies in [0, 100] and
      is zero exactly for greys. */
  lemma {:induction false} SaturationIsHsl(c: Rgb)
    ensures Saturation(c) == RgbToHsl(c).s
    ensures 0.0 <= Saturation(c) <= 100.0
    ensures Saturation(c) == 0.0 <==> c.r == c.g == c.b
  {
  }

  /** Sum of absolute channel differences. */
  function Distance(x: Rgb, y: Rgb): nat
  {
    Abs(x.r - y.r) + Abs(x.g - y.g) + Abs(x.b - y.b)
  }

  /** Width of one colour bucket per channel. */
  const BucketSize: int := 32

  /** `Math.floor(c / 32) * 32` per channel: the lower corner of the 32-wide
      cell holding the colour. The corner facts are stated apart, in
      QuantizeCorner, so that they are in scope only where a proof asks for
      them. */
  function Quantize(c: Rgb): (q: Rgb)
    ensures q.r <= c.r < q.r + BucketSize
    ensures q.g <= c.g < q.g + BucketSize
    ensures q.b <= c.b < q.b + BucketSize
  {
    Rgb(c.r / BucketSize * BucketSize, c.g / BucketSize * BucketSize, c.b / BucketSize * BucketSize)
  }

  /** Each quantised channel is a multiple of the bucket width no more than
      one width below the channel. */
  lemma {:induction false} QuantizeCorner(c: Rgb)
    ensures Quantize(c).r % BucketSize == 0 && Quantize(c).r <= c.r < Quantize(c).r + BucketSize
    ensures Quantize(c).g % BucketSize == 0 && Quantize(c).g <= c.g < Quantize(c).g + BucketSize
    ensures Quantize(c).b % BucketSize == 0 && Quantize(c).b <= c.b < Quantize(c).b + BucketSize
  {
    CellCorner(c.r);
    CellCorner(c.g);
    CellCorner(c.b);
  }

  /** That corner is the only one: any colour whose channels are multiples
      of the bucket width within one width below `c`'s is `Quantize(c)`. */
  lemma {:induction false} QuantizeUnique(c: Rgb, q: Rgb)
    requires q.r % BucketSize == 0 && q.r <= c.r < q.r + BucketSize
    requires q.g % BucketSize == 0 && q.g <= c.g < q.g + BucketSize
    requires q.b % BucketSize == 0 && q.b <= c.b < q.b + BucketSize
    ensures q == Quantize(c)
  {
    CellUnique(c.r, q.r);
    CellUnique(c.g, q.g);
    CellUnique(c.b, q.b);
  }

  lemma {:induction false} CellCorner(x: Byte)
    ensures (x / 32 * 32) % 32 == 0 && x / 32 * 32 <= x < x / 32 * 32 + 32
  {
  }

  lemma {:induction false} CellUnique(x: Byte, m: int)
    requires m % 32 == 0 && m <= x < m + 32
    ensures m == x / 32 * 32
  {
    var k := m / 32;
    assert m == 32 * k;
    assert 32 * k <= x < 32 * k + 32;
    assert x / 32 == k;
  }

  // ---------------------------------------------------------------------
  // Hexadecimal formatting: rgbToHex
  // ---------------------------------------------------------------------

  const LowerHexDigits: string := "0123456789abcdef"
  const UpperHexDigits: string := "0123456789ABCDEF"

  /** `Number.prototype.toString(16)` on a non-negative integer: lower-case
      digits, no leading zeros. */
  function ToString16(x: nat): (s: string)
    ensures |s| >= 1
  {
    if x < 16 then [LowerHexDigits[x]] else ToString16(x / 16) + [LowerHexDigits[x % 16]]
  }

  /** The mapping step of `rgbToHex`: pad a one-digit result with "0". */
  function PadHex(x: Byte): string
  {
    var hex := ToString16(x);
    if |hex| == 1 then "0" + hex else hex
  }

  /** `String.prototype.toUpperCase` restricted to ASCII letters, which is all
      that can occur in hexadecimal digits. */
  function UpperChar(ch: char): char
  {
    if 'a' <= ch <= 'z' then (ch as int - 32) as char else ch
  }

  function ToUpper(s: string): (u: string)
    ensures |u| == |s|
    ensures forall i :: 0 <= i < |s| ==> u[i] == UpperChar(s[i])
  {
    seq(|s|, i requires 0 <= i < |s| => UpperChar(s[i]))
  }

  /** `rgbToHex`: "#" followed by the upper-cased concatenation of the padded
      channel digits. */
  function RgbToHex(c: Rgb): (hex: string)
    ensures hex == ['#', UpperHexDigits[c.r / 16], UpperHexDigits[c.r % 16],
                         UpperHexDigits[c.g / 16], UpperHexDigits[c.g % 16],
                         UpperHexDigits[c.b / 16], UpperHexDigits[c.b % 16]]
    ensures |hex| == 7 && hex[0] == '#'
    ensures forall i :: 1 <= i < 7 ==> hex[i] in UpperHexDigits
  {
    var digits := PadHex(c.r) + PadHex(c.g) + PadHex(c.b);
    HexSpelling(c, digits);
    "#" + ToUpper(digits)
  }

  lemma {:induction false} HexSpelling(c: Rgb, digits: string)
    requires digits == PadHex(c.r) + PadHex(c.g) + PadHex(c.b)
    ensures ToUpper(digits) == [UpperHexDigits[c.r / 16], UpperHexDigits[c.r % 16],
                                UpperHexDigits[c.g / 16], UpperHexDigits[c.g % 16],
                                UpperHexDigits[c.b / 16], UpperHexDigits[c.b % 16]]
  {
    PadHexDigits(c.r);
    PadHexDigits(c.g);
    PadHexDigits(c.b);
    UpperDigitValue(c.r / 16);
    UpperDigitValue(c.r % 16);
    UpperDigitValue(c.g / 16);
    UpperDigitValue(c.g % 16);
    UpperDigitValue(c.b / 16);
    UpperDigitValue(c.b % 16);
  }

  /** A byte is printed as its high and its low hexadecimal digit. */
  lemma {:induction false} PadHexDigits(x: Byte)
    ensures PadHex(x) == [LowerHexDigits[x / 16], LowerHexDigits[x % 16]]
  {
    if x >= 16 {
      assert ToString16(x / 16) == [LowerHexDigits[x / 16]];
    }
  }

  /** The value of a hexadecimal digit of either case. */
  function HexValue(ch: char): Option<nat>
  {
    if '0' <= ch <= '9' then Some(ch as int - '0' as int)
    else if 'A' <= ch <= 'F' then Some(ch as int - 'A' as int + 10)
    else if 'a' <= ch <= 'f' then Some(ch as int - 'a' as int + 10)
    else None
  }

  function ParseByte(hi: char, lo: char): Option<Byte>
  {
    match (HexValue(hi), HexValue(lo))
    case (Some(h), Some(l)) => if h * 16 + l < 256 then Some(h * 16 + l) else None
    case _ => None
  }

  /** Reads a `#RRGGBB` string back into a colour. */
  function ParseHex(s: string): Option<Rgb>
  {
    if |s| != 7 || s[0] != '#' then None
    else
      match (ParseByte(s[1], s[2]), ParseByte(s[3], s[4]), ParseByte(s[5], s[6]))
      case (Some(r), Some(g), Some(b)) => Some(Rgb(r, g, b))
      case _ => None
  }

  lemma {:induction false} UpperDigitValue(x: nat)
    requires x < 16
    ensures UpperChar(LowerHexDigits[x]) == UpperHexDigits[x]
    ensures HexValue(UpperHexDigits[x]) == Some(x)
  {
  }

  lemma {:induction false} ByteDigits(x: Byte)
    ensures ParseByte(UpperHexDigits[x / 16], UpperHexDigits[x % 16]) == Some(x)
  {
    UpperDigitValue(x / 16);
    UpperDigitValue(x % 16);
  }

  /** Formatting then parsing gives back the colour. */
  lemma {:induction false} HexRoundTrip(c: Rgb)
    ensures ParseHex(RgbToHex(c)) == Some(c)
  {
    ByteDigits(c.r);
    ByteDigits(c.g);
    ByteDigits(c.b);
  }

  /** A digit in canonical (upper-case) form is printed back as itself. */
  lemma {:induction false} CanonicalDigit(ch: char)
    requires ch in UpperHexDigits
    ensures HexValue(ch).Some? && HexValue(ch).value < 16
    ensures UpperHexDigits[HexValue(ch).value] == ch
  {
  }

  lemma {:induction false} CanonicalByte(hi: char, lo: char)
    requires hi in UpperHexDigits && lo in UpperHexDigits
    ensures ParseByte(hi, lo).Some?
    ensures UpperHexDigits[ParseByte(hi, lo).value / 16] == hi
    ensures UpperHexDigits[ParseByte(hi, lo).value % 16] == lo
  {
    CanonicalDigit(hi);
    CanonicalDigit(lo);
    var h, l := HexValue(hi).value, HexValue(lo).value;
    assert (h * 16 + l) / 16 == h;
    assert (h * 16 + l) % 16 == l;
  }

  /** Conversely, every canonical `#RRGGBB` string is the hex of the colour it
      parses to, so `RgbToHex` is a bijection onto such strings. */
  lemma {:induction false} HexRoundTripBack(s: string)
    requires |s| == 7 && s[0] == '#'
    requires forall i :: 1 <= i < 7 ==> s[i] in UpperHexDigits
    ensures ParseHex(s).Some? && RgbToHex(ParseHex(s).value) == s
  {
    assert s[1] in UpperHexDigits && s[2] in UpperHexDigits;
    assert s[3] in UpperHexDigits && s[4] in UpperHexDigits;
    assert s[5] in UpperHexDigits && s[6] in UpperHexDigits;
    CanonicalByte(s[1], s[2]);
    CanonicalByte(s[3], s[4]);
    CanonicalByte(s[5], s[6]);
    var c := Rgb(ParseByte(s[1], s[2]).value, ParseByte(s[3], s[4]).value, ParseByte(s[5], s[6]).value);
    assert ParseHex(s) == Some(c);
    var hex := RgbToHex(c);
    assert hex[1] == s[1] && hex[2] == s[2];
    assert hex[3] == s[3] && hex[4] == s[4];
    assert hex[5] == s[5] && hex[6] == s[6];
    assert hex[0] == s[0] && |hex| == |s|;
    forall i | 0 <= i < |s| ensures hex[i] == s[i] {
      if i == 0 {} else if i == 1 {} else if i == 2 {} else if i == 3 {}
      else if i == 4 {} else if i == 5 {} else {}
    }
    assert hex == s;
  }
}
