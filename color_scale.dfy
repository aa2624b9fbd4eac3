/** The palette engine: hex <-> RGB, per-channel blending, the five-step gradient
    between two endpoints and the clamped level -> colour lookup. */
module ColorScale {
  import opened Numbers
  import opened Strings
  import opened HexColor

  /** `IntensityPalette`: exactly five colours, index = intensity level. */
  type Palette = p: seq<string> | |p| == 5 witness ["", "", "", "", ""]

  const DefaultPalette: Palette := ["#ebedf0", "#9be9a8", "#40c463", "#30a14e", "#216e39"]

  datatype Rgb = Rgb(r: int, g: int, b: int)

  predicate InRange(c: Rgb)
  {
    0 <= c.r <= 255 && 0 <= c.g <= 255 && 0 <= c.b <= 255
  }

  /** `Number.parseInt(s, 16)` on a string made of hex digits. */
  function ParseHex(s: string): nat
    requires AllHexDigits(s)
  {
    if s == [] then 0 else ParseHex(s[..|s| - 1]) * 16 + DigitValue(s[|s| - 1])
  }

  /** The value of the two-digit group `ab`. */
  function Pair(a: char, b: char): nat
    requires IsHexDigit(a) && IsHexDigit(b)
  {
    16 * DigitValue(a) + DigitValue(b)
  }

  lemma ParseHexSix(v: string)
    requires |v| == 6 && AllHexDigits(v)
    ensures ParseHex(v) == Pair(v[0], v[1]) * 65536 + Pair(v[2], v[3]) * 256 + Pair(v[4], v[5])
  {
    var d0, d1, d2 := DigitValue(v[0]), DigitValue(v[1]), DigitValue(v[2]);
    var d3, d4, d5 := DigitValue(v[3]), DigitValue(v[4]), DigitValue(v[5]);
    assert v[..1][..0] == [];
    assert ParseHex(v[..1]) == d0;
    assert v[..2][..1] == v[..1];
    assert ParseHex(v[..2]) == d0 * 16 + d1;
    assert v[..3][..2] == v[..2];
    assert ParseHex(v[..3]) == (d0 * 16 + d1) * 16 + d2;
    assert v[..4][..3] == v[..3];
    assert ParseHex(v[..4]) == ((d0 * 16 + d1) * 16 + d2) * 16 + d3;
    assert v[..5][..4] == v[..4];
    assert ParseHex(v[..5]) == (((d0 * 16 + d1) * 16 + d2) * 16 + d3) * 16 + d4;
    assert v[..6] == v;
    assert ParseHex(v) == ((((d0 * 16 + d1) * 16 + d2) * 16 + d3) * 16 + d4) * 16 + d5;
  }

  /** The digits `hexToRgb` parses: the first '#' dropped, a three-digit form
      split into characters, each doubled, and joined again. */
  function Expand(v: string): (w: string)
    ensures |v| == 3 ==> |w| == 6 && w == [v[0], v[0], v[1], v[1], v[2], v[2]]
    ensures |v| != 3 ==> w == v
  {
    if |v| == 3 then
      var doubled := seq(|v|, i requires 0 <= i < |v| => [v[i], v[i]]);
      assert Join(doubled[2..], "") == [v[2], v[2]];
      assert Join(doubled[1..], "") == [v[1], v[1]] + Join(doubled[2..], "");
      Join(doubled, "")
    else v
  }

  function Digits(hex: string): string
  {
    Expand(RemoveFirst(hex, '#'))
  }

  /** What `hexToRgb` decodes meaningfully: after dropping the first '#', three or
      six hex digits. */
  predicate IsColorLiteral(hex: string)
  {
    var v := RemoveFirst(hex, '#');
    (|v| == 3 || |v| == 6) && AllHexDigits(v)
  }

  lemma DigitsOfLiteral(hex: string)
    requires IsColorLiteral(hex)
    ensures |Digits(hex)| == 6 && AllHexDigits(Digits(hex))
  {
  }

  /** `hexToRgb`: parse the digits as one number and take its bytes 2, 1, 0. */
  function HexToRgb(hex: string): (c: Rgb)
    requires IsColorLiteral(hex)
    ensures InRange(c)
    ensures |Digits(hex)| == 6 && AllHexDigits(Digits(hex))
    ensures c == Rgb(Pair(Digits(hex)[0], Digits(hex)[1]), Pair(Digits(hex)[2], Digits(hex)[3]),
                     Pair(Digits(hex)[4], Digits(hex)[5]))
  {
    var v := Digits(hex);
    DigitsOfLiteral(hex);
    var n := ParseHex(v);
    ParseHexSix(v);
    ByteSplit(Pair(v[0], v[1]), Pair(v[2], v[3]), Pair(v[4], v[5]));
    Rgb((n / 65536) % 256, (n / 256) % 256, n % 256)
  }

  lemma ByteSplit(a: nat, b: nat, c: nat)
    requires a < 256 && b < 256 && c < 256
    ensures var n := a * 65536 + b * 256 + c;
      (n / 65536) % 256 == a && (n / 256) % 256 == b && n % 256 == c
  {
    var n := a * 65536 + b * 256 + c;
    assert n / 65536 == a;
    assert n / 256 == a * 256 + b;
  }

  /** `value.toString(16)` for an integer. */
  function ToHexString(v: int): string
  {
    if v < 0 then "-" + NatToHex(-v) else NatToHex(v)
  }

  function NatToHex(n: nat): (s: string)
    ensures |s| > 0
  {
    if n < 16 then [HexChar(n)] else NatToHex(n / 16) + [HexChar(n % 16)]
  }

  /** `s.padStart(2, "0")`. */
  function PadStart2(s: string): string
  {
    if |s| >= 2 then s else seq(2 - |s|, _ => '0') + s
  }

  function Channel(v: int): string
  {
    PadStart2(ToHexString(v))
  }

  lemma ChannelDigits(v: int)
    requires 0 <= v <= 255
    ensures Channel(v) == [HexChar(v / 16), HexChar(v % 16)]
  {
    if v < 16 {
      assert ToHexString(v) == [HexChar(v)];
      assert HexChar(0) == '0';
    } else {
      assert NatToHex(v / 16) == [HexChar(v / 16)];
    }
  }

  /** `rgbToHex`: '#' followed by each channel as padded lower-case hex. */
  function RgbToHex(c: Rgb): string
  {
    "#" + Channel(c.r) + Channel(c.g) + Channel(c.b)
  }

  /** For channels in 0..255, '#' and exactly six lower-case hex digits, two per channel. */
  lemma RgbToHexForm(c: Rgb)
    requires InRange(c)
    ensures RgbToHex(c) == ['#', HexChar(c.r / 16), HexChar(c.r % 16), HexChar(c.g / 16),
                            HexChar(c.g % 16), HexChar(c.b / 16), HexChar(c.b % 16)]
    ensures IsHex(RgbToHex(c))
    ensures forall i :: 1 <= i < |RgbToHex(c)| ==> !('A' <= RgbToHex(c)[i] <= 'F')
  {
    ChannelDigits(c.r); ChannelDigits(c.g); ChannelDigits(c.b);
    var h := RgbToHex(c);
    SixDigitsIsHex(h);
  }

  lemma SixDigitsIsHex(h: string)
    requires |h| == 7 && h[0] == '#' && forall i :: 1 <= i < 7 ==> IsHexDigit(h[i])
    ensures IsHex(h)
  {
  }

  /** Decoding what `rgbToHex` printed gives the channels back. */
  lemma RgbHexRoundTrip(c: Rgb)
    requires InRange(c)
    ensures IsColorLiteral(RgbToHex(c)) && HexToRgb(RgbToHex(c)) == c
  {
    var h := RgbToHex(c);
    RgbToHexForm(c);
    assert RemoveFirst(h, '#') == h[1..];
    assert Digits(h) == h[1..];
  }

  /** A strict `#RRGGBB` colour is something `hexToRgb` decodes. */
  lemma HexIsLiteral(h: string)
    requires IsHex(h)
    ensures IsColorLiteral(h) && Digits(h) == h[1..]
  {
    assert RemoveFirst(h, '#') == h[1..];
  }

  lemma LowerDigit(c: char)
    requires IsHexDigit(c)
    ensures HexChar(DigitValue(c)) == AsciiLower(c)
  {
  }

  /** Re-encoding a decoded colour gives its six-digit lower-case form. */
  lemma NormalForm(hex: string)
    requires IsColorLiteral(hex)
    ensures RgbToHex(HexToRgb(hex)) == "#" + LowerCase(Digits(hex))
  {
    var v := Digits(hex);
    var c := HexToRgb(hex);
    var lower := ['#', AsciiLower(v[0]), AsciiLower(v[1]), AsciiLower(v[2]),
                  AsciiLower(v[3]), AsciiLower(v[4]), AsciiLower(v[5])];
    assert "#" + LowerCase(v) == lower;
    RgbToHexForm(c);
    DigitPairsOfChannels(v, c);
  }

  lemma DigitPairsOfChannels(v: string, c: Rgb)
    requires |v| == 6 && AllHexDigits(v)
    requires c == Rgb(Pair(v[0], v[1]), Pair(v[2], v[3]), Pair(v[4], v[5]))
    ensures ['#', HexChar(c.r / 16), HexChar(c.r % 16), HexChar(c.g / 16),
             HexChar(c.g % 16), HexChar(c.b / 16), HexChar(c.b % 16)]
         == ['#', AsciiLower(v[0]), AsciiLower(v[1]), AsciiLower(v[2]),
             AsciiLower(v[3]), AsciiLower(v[4]), AsciiLower(v[5])]
  {
    LowerDigit(v[0]); LowerDigit(v[1]); LowerDigit(v[2]);
    LowerDigit(v[3]); LowerDigit(v[4]); LowerDigit(v[5]);
    PairDigits(v[0], v[1]); PairDigits(v[2], v[3]); PairDigits(v[4], v[5]);
  }

  lemma PairDigits(a: char, b: char)
    requires IsHexDigit(a) && IsHexDigit(b)
    ensures Pair(a, b) / 16 == DigitValue(a) && Pair(a, b) % 16 == DigitValue(b)
  {
  }

  /** `Math.round(s + (e - s) * ratio)`. */
  function Blend(s: int, e: int, ratio: real): int
  {
    Round(s as real + (e - s) as real * ratio)
  }

  /** `interpolateHex`: blend each channel of the two colours by `ratio`. */
  function InterpolateHex(startHex: string, endHex: string, ratio: real): (h: string)
    requires IsColorLiteral(startHex) && IsColorLiteral(endHex)
    ensures 0.0 <= ratio <= 1.0 ==> IsHex(h)
  {
    var s := HexToRgb(startHex);
    var e := HexToRgb(endHex);
    var c := Rgb(Blend(s.r, e.r, ratio), Blend(s.g, e.g, ratio), Blend(s.b, e.b, ratio));
    if 0.0 <= ratio <= 1.0 then
      BlendBetween(s.r, e.r, ratio); BlendBetween(s.g, e.g, ratio); BlendBetween(s.b, e.b, ratio);
      RgbToHexForm(c);
      RgbToHex(c)
    else RgbToHex(c)
  }

  /** For a ratio in [0, 1] the blend lies between the two channel values. */
  lemma BlendBetween(s: int, e: int, ratio: real)
    requires 0.0 <= ratio <= 1.0
    ensures Min(s, e) <= Blend(s, e, ratio) <= Max(s, e)
  {
    var x := s as real + (e - s) as real * ratio;
    if s <= e {
      LerpUp(s, e, ratio, x);
      RoundBetween(s, e, x);
    } else {
      LerpDown(s, e, ratio, x);
      RoundBetween(e, s, x);
    }
  }

  /** Interpolating upwards stays between the endpoints. */
  lemma LerpUp(s: int, e: int, t: real, x: real)
    requires s <= e && 0.0 <= t <= 1.0 && x == s as real + (e - s) as real * t
    ensures s as real <= x <= e as real
  {
    ScaleNonNegative((e - s) as real, t, (e - s) as real * t);
  }

  /** Interpolating downwards stays between the endpoints. */
  lemma LerpDown(s: int, e: int, t: real, x: real)
    requires e < s && 0.0 <= t <= 1.0 && x == s as real + (e - s) as real * t
    ensures e as real <= x <= s as real
  {
    ScaleNonPositive((e - s) as real, t, (e - s) as real * t);
  }

  /** Rounding a value between two integers stays between them. */
  lemma RoundBetween(lo: int, hi: int, x: real)
    requires lo as real <= x <= hi as real
    ensures lo <= Round(x) <= hi
  {
    RoundMonotone(lo as real, x);
    RoundMonotone(x, hi as real);
    RoundOfInteger(lo);
    RoundOfInteger(hi);
  }

  lemma ScaleNonNegative(d: real, t: real, m: real)
    requires d >= 0.0 && 0.0 <= t <= 1.0 && m == d * t
    ensures 0.0 <= m <= d
  {
  }

  lemma ScaleNonPositive(d: real, t: real, m: real)
    requires d <= 0.0 && 0.0 <= t <= 1.0 && m == d * t
    ensures d <= m <= 0.0
  {
  }

  /** Ratio 0 gives the start colour and ratio 1 the end colour, both in
      six-digit lower-case form. */
  lemma InterpolateEndpoints(startHex: string, endHex: string)
    requires IsColorLiteral(startHex) && IsColorLiteral(endHex)
    ensures InterpolateHex(startHex, endHex, 0.0) == "#" + LowerCase(Digits(startHex))
    ensures InterpolateHex(startHex, endHex, 1.0) == "#" + LowerCase(Digits(endHex))
  {
    var s := HexToRgb(startHex);
    var e := HexToRgb(endHex);
    RoundOfInteger(s.r); RoundOfInteger(s.g); RoundOfInteger(s.b);
    RoundOfInteger(e.r); RoundOfInteger(e.g); RoundOfInteger(e.b);
    assert Rgb(Blend(s.r, e.r, 0.0), Blend(s.g, e.g, 0.0), Blend(s.b, e.b, 0.0)) == s;
    assert Rgb(Blend(s.r, e.r, 1.0), Blend(s.g, e.g, 1.0), Blend(s.b, e.b, 1.0)) == e;
    NormalForm(startHex);
    NormalForm(endHex);
  }

  /** Every channel of an interpolated colour lies between the endpoints' channels. */
  lemma InterpolateBetween(startHex: string, endHex: string, ratio: real)
    requires IsColorLiteral(startHex) && IsColorLiteral(endHex)
    requires 0.0 <= ratio <= 1.0
    ensures var s := HexToRgb(startHex); var e := HexToRgb(endHex);
      var h := InterpolateHex(startHex, endHex, ratio);
      IsColorLiteral(h) &&
      Min(s.r, e.r) <= HexToRgb(h).r <= Max(s.r, e.r) &&
      Min(s.g, e.g) <= HexToRgb(h).g <= Max(s.g, e.g) &&
      Min(s.b, e.b) <= HexToRgb(h).b <= Max(s.b, e.b)
  {
    var s := HexToRgb(startHex);
    var e := HexToRgb(endHex);
    BlendBetween(s.r, e.r, ratio); BlendBetween(s.g, e.g, ratio); BlendBetween(s.b, e.b, ratio);
    RgbHexRoundTrip(Rgb(Blend(s.r, e.r, ratio), Blend(s.g, e.g, ratio), Blend(s.b, e.b, ratio)));
  }

  /** Step `k` (of 4) of the gradient from `s` to `e`, in integers:
      Math.round(s + (e - s) * k / 4) with halves rounded up. */
  function QuarterStep(s: int, e: int, k: int): int
  {
    (4 * s + k * (e - s) + 2) / 4
  }

  lemma BlendQuarter(s: int, e: int, k: int)
    requires 0 <= k <= 4
    ensures Blend(s, e, k as real / 4.0) == QuarterStep(s, e, k)
  {
    var n := 4 * s + k * (e - s) + 2;
    assert s as real + (e - s) as real * (k as real / 4.0) + 0.5 == n as real / 4.0;
    FloorQuarter(n);
  }

  lemma FloorQuarter(n: int)
    ensures (n as real / 4.0).Floor == n / 4
  {
    var q, r := n / 4, n % 4;
    assert n as real / 4.0 == q as real + r as real / 4.0;
  }

  lemma QuarterStepMonotone(s: int, e: int, k: int)
    requires 0 <= k < 4
    ensures QuarterStep(s, e, 0) == s && QuarterStep(s, e, 4) == e
    ensures s <= e ==> QuarterStep(s, e, k) <= QuarterStep(s, e, k + 1)
    ensures e <= s ==> QuarterStep(s, e, k) >= QuarterStep(s, e, k + 1)
  {
    assert 4 * s + (k + 1) * (e - s) + 2 == (4 * s + k * (e - s) + 2) + (e - s);
  }

  /** `buildPaletteFromEndpoints`: the two endpoints verbatim at 0 and 4, blends
      at 0.25, 0.5 and 0.75 between. */
  function BuildPaletteFromEndpoints(inactiveColor: string, activeColor: string): (p: Palette)
    requires IsColorLiteral(inactiveColor) && IsColorLiteral(activeColor)
    ensures p[0] == inactiveColor && p[4] == activeColor
  {
    var steps: seq<string> := [ inactiveColor,
                                InterpolateHex(inactiveColor, activeColor, 0.25),
                                InterpolateHex(inactiveColor, activeColor, 0.5),
                                InterpolateHex(inactiveColor, activeColor, 0.75),
                                activeColor ];
    steps
  }

  /** Entry `k` of the gradient decodes to QuarterStep of the endpoints' channels. */
  lemma PaletteChannels(inactiveColor: string, activeColor: string, k: nat)
    requires IsColorLiteral(inactiveColor) && IsColorLiteral(activeColor)
    requires k <= 4
    ensures var p := BuildPaletteFromEndpoints(inactiveColor, activeColor);
      var s := HexToRgb(inactiveColor); var e := HexToRgb(activeColor);
      IsColorLiteral(p[k]) &&
      HexToRgb(p[k]) == Rgb(QuarterStep(s.r, e.r, k), QuarterStep(s.g, e.g, k), QuarterStep(s.b, e.b, k))
    ensures 1 <= k <= 3 ==> IsHex(BuildPaletteFromEndpoints(inactiveColor, activeColor)[k])
  {
    var s := HexToRgb(inactiveColor);
    var e := HexToRgb(activeColor);
    QuarterStepMonotone(s.r, e.r, 0); QuarterStepMonotone(s.g, e.g, 0); QuarterStepMonotone(s.b, e.b, 0);
    if 1 <= k <= 3 {
      var ratio := k as real / 4.0;
      assert ratio == [0.0, 0.25, 0.5, 0.75][k];
      BlendQuarter(s.r, e.r, k); BlendQuarter(s.g, e.g, k); BlendQuarter(s.b, e.b, k);
      BlendBetween(s.r, e.r, ratio); BlendBetween(s.g, e.g, ratio); BlendBetween(s.b, e.b, ratio);
      RgbHexRoundTrip(Rgb(Blend(s.r, e.r, ratio), Blend(s.g, e.g, ratio), Blend(s.b, e.b, ratio)));
    }
  }

  /** Along the gradient every channel moves monotonically from the inactive
      colour's value to the active colour's. */
  lemma PaletteMonotone(inactiveColor: string, activeColor: string, k: nat)
    requires IsColorLiteral(inactiveColor) && IsColorLiteral(activeColor)
    requires k < 4
    ensures var p := BuildPaletteFromEndpoints(inactiveColor, activeColor);
      var s := HexToRgb(inactiveColor); var e := HexToRgb(activeColor);
      IsColorLiteral(p[k]) && IsColorLiteral(p[k + 1]) &&
      (s.r <= e.r ==> HexToRgb(p[k]).r <= HexToRgb(p[k + 1]).r) &&
      (e.r <= s.r ==> HexToRgb(p[k]).r >= HexToRgb(p[k + 1]).r) &&
      (s.g <= e.g ==> HexToRgb(p[k]).g <= HexToRgb(p[k + 1]).g) &&
      (e.g <= s.g ==> HexToRgb(p[k]).g >= HexToRgb(p[k + 1]).g) &&
      (s.b <= e.b ==> HexToRgb(p[k]).b <= HexToRgb(p[k + 1]).b) &&
      (e.b <= s.b ==> HexToRgb(p[k]).b >= HexToRgb(p[k + 1]).b)
  {
    var s := HexToRgb(inactiveColor);
    var e := HexToRgb(activeColor);
    PaletteChannels(inactiveColor, activeColor, k);
    PaletteChannels(inactiveColor, activeColor, k + 1);
    QuarterStepMonotone(s.r, e.r, k); QuarterStepMonotone(s.g, e.g, k); QuarterStepMonotone(s.b, e.b, k);
  }

  /** `Math.max(0, Math.min(4, Math.round(level)))`: always a valid palette index. */
  function LevelIndex(level: real): (i: nat)
    ensures i <= 4
  {
    Max(0, Min(4, Round(level)))
  }

  /** `colorForLevel`. */
  function ColorForLevel(level: real, palette: Palette): (c: string)
    ensures c in palette
  {
    palette[LevelIndex(level)]
  }

  /** Levels at or below 0 give the first colour, at or above 4 the last, and a
      level within half a step of k gives colour k. */
  lemma ColorForLevelClamps(level: real, palette: Palette, k: int)
    requires 0 <= k <= 4
    ensures level <= 0.0 ==> ColorForLevel(level, palette) == palette[0]
    ensures level >= 4.0 ==> ColorForLevel(level, palette) == palette[4]
    ensures k as real - 0.5 <= level < k as real + 0.5 ==> ColorForLevel(level, palette) == palette[k]
    ensures ColorForLevel(k as real, palette) == palette[k]
  {
    RoundOfInteger(k);
  }

  /** The default palette is made of strict six-digit colours. */
  lemma DefaultPaletteIsHex()
    ensures forall i :: 0 <= i < 5 ==> IsHex(DefaultPalette[i])
  {
  }
}
