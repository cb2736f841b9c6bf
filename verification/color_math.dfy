/**
 * Colour arithmetic of the neopixel aggregator: the `#RRGGBB` parser used for
 * configured colours, the `#%02X%02X%02X` dump format, the 8-bit colour
 * operations of esphome's `Color`, and the fixed-point hue wheel `to_rgb`.
 * Everything here is pure; the channels are `uint8_t`.
 */
module ColorMath {

  /** An 8-bit channel value (`uint8_t`). */
  type Byte = x: int | 0 <= x < 256

  /** An RGB colour. esphome's `Color` also has a white channel, which this component never reads. */
  datatype Color = Color(r: Byte, g: Byte, b: Byte)

  const BLACK := Color(0, 0, 0)
  const RED := Color(255, 0, 0)
  const BLUE := Color(0, 0, 255)

  /** Storing an `int` into a `uint8_t`: the value is reduced modulo 256. */
  function Wrap8(x: int): (r: Byte)
    ensures 0 <= x < 256 ==> r == x
    ensures (r - x) % 256 == 0
  {
    x % 256
  }

  // ---------------------------------------------------------------------------
  // hex_to_color and the dump format
  // ---------------------------------------------------------------------------

  predicate IsHexDigit(ch: char) {
    '0' <= ch <= '9' || 'a' <= ch <= 'f' || 'A' <= ch <= 'F'
  }

  /** The value of one hexadecimal digit, either case (as `%x` reads it). */
  function HexValue(ch: char): (v: nat)
    requires IsHexDigit(ch)
    ensures v < 16
  {
    if '0' <= ch <= '9' then ch as int - '0' as int
    else if 'a' <= ch <= 'f' then ch as int - 'a' as int + 10
    else ch as int - 'A' as int + 10
  }

  /** The upper-case digit `%X` prints for a value below 16; reading it back gives the value. */
  function HexDigit(v: nat): (ch: char)
    requires v < 16
    ensures IsHexDigit(ch) && HexValue(ch) == v
    ensures !('a' <= ch <= 'f')
  {
    if v < 10 then ('0' as int + v) as char else ('A' as int + v - 10) as char
  }

  /** The value of a two-digit field read by `%02x`. */
  function HexPair(hi: char, lo: char): (v: int)
    requires IsHexDigit(hi) && IsHexDigit(lo)
    ensures 0 <= v < 256
    ensures v / 16 == HexValue(hi) && v % 16 == HexValue(lo)
  {
    HexValue(hi) * 16 + HexValue(lo)
  }

  /** A string of the form `#RRGGBB`, digits in either case. */
  predicate IsColorCode(hex: string) {
    |hex| == 7 && hex[0] == '#' && forall i | 1 <= i < 7 :: IsHexDigit(hex[i])
  }

  /**
   * `hex_to_color`: a string that is not 7 characters long or does not start
   * with `#` yields black; a well-formed `#RRGGBB` yields its three bytes (the
   * `& 0xFF` masks never change a two-digit field). A 7-character string whose
   * digits do not all parse also yields black here.
   */
  function HexToColor(hex: string): (c: Color)
    ensures !(|hex| == 7 && hex[0] == '#') ==> c == BLACK
    ensures !IsColorCode(hex) ==> c == BLACK
    ensures IsColorCode(hex) ==>
      c.r == HexPair(hex[1], hex[2]) && c.g == HexPair(hex[3], hex[4]) && c.b == HexPair(hex[5], hex[6])
  {
    if |hex| != 7 || hex[0] != '#' then BLACK
    else if !IsColorCode(hex) then BLACK
    else Color(Wrap8(HexPair(hex[1], hex[2])), Wrap8(HexPair(hex[3], hex[4])), Wrap8(HexPair(hex[5], hex[6])))
  }

  /** The colour as the diagnostics dump prints it: `#%02X%02X%02X`. */
  function ColorToHex(c: Color): (hex: string)
    ensures IsColorCode(hex)
    ensures forall i | 0 <= i < |hex| :: !('a' <= hex[i] <= 'f')
  {
    ['#', HexDigit(c.r / 16), HexDigit(c.r % 16), HexDigit(c.g / 16), HexDigit(c.g % 16),
     HexDigit(c.b / 16), HexDigit(c.b % 16)]
  }

  /** Upper-casing of a hex digit, the only difference between a parsed code and its dump. */
  function UpperHex(ch: char): char {
    if 'a' <= ch <= 'f' then (ch as int - 'a' as int + 'A' as int) as char else ch
  }

  function UpperHexString(s: string): (u: string)
    ensures |u| == |s|
  {
    seq(|s|, i requires 0 <= i < |s| => UpperHex(s[i]))
  }

  lemma HexDigitOfValue(ch: char)
    requires IsHexDigit(ch)
    ensures HexDigit(HexValue(ch)) == UpperHex(ch)
  {
  }

  /** Parsing the dump of a colour gives the colour back. */
  lemma HexRoundTrip(c: Color)
    ensures HexToColor(ColorToHex(c)) == c
  {
    var hex := ColorToHex(c);
    assert HexPair(hex[1], hex[2]) == c.r;
    assert HexPair(hex[3], hex[4]) == c.g;
    assert HexPair(hex[5], hex[6]) == c.b;
  }

  /** Dumping a parsed colour code gives the code back, digits upper-cased. */
  lemma HexDumpOfParse(hex: string)
    requires IsColorCode(hex)
    ensures ColorToHex(HexToColor(hex)) == UpperHexString(hex)
  {
    var c := HexToColor(hex);
    var out := ColorToHex(c);
    forall i | 1 <= i < 7
      ensures out[i] == UpperHexString(hex)[i]
    {
      HexDigitOfValue(hex[i]);
    }
    assert out[0] == UpperHexString(hex)[0];
  }

  // ---------------------------------------------------------------------------
  // esphome colour primitives (not part of this component's source)
  // ---------------------------------------------------------------------------

  /**
   * `esp_scale8(i, scale)` of esphome's colour header: `i * (1 + scale) / 256`
   * in 16-bit arithmetic, so that a scale of 255 is the identity.
   */
  function Scale8(i: Byte, scale: Byte): (r: Byte)
  {
    Scale8Fits(i, scale);
    (i * (1 + scale)) / 256
  }

  /** The 16-bit product `i * (1 + scale)` stays below 65536, so the quotient is a byte. */
  lemma Scale8Fits(i: Byte, scale: Byte)
    ensures 0 <= i * (1 + scale) <= 255 * 256
  {
    MulMonotone(i, 255, 1 + scale);
    MulMonotone(1 + scale, 256, 255);
  }

  /** Scaling by 255 leaves a channel as it is. */
  lemma Scale8Full(i: Byte)
    ensures Scale8(i, 255) == i
  {
  }

  /** A scaled channel never exceeds either factor. */
  lemma Scale8Bounds(i: Byte, scale: Byte)
    ensures Scale8(i, scale) <= i && Scale8(i, scale) <= scale
  {
    assert i * (1 + scale) <= 256 * i by { MulMonotone(1 + scale, 256, i); }
    assert i * (1 + scale) <= 255 * (1 + scale) by { MulMonotone(i, 255, 1 + scale); }
  }

  lemma MulMonotone(x: int, y: int, k: nat)
    requires x <= y
    ensures x * k <= y * k
  {
  }

  /** `Color::operator*=(uint8_t)`: every channel through `esp_scale8`. */
  function ScaleColor(c: Color, scale: Byte): Color {
    Color(Scale8(c.r, scale), Scale8(c.g, scale), Scale8(c.b, scale))
  }

  /** `uint8_t` addition that clips at 255, as esphome's `Color::operator+`. */
  function AddSat(x: Byte, y: Byte): (r: Byte)
  {
    if x + y > 255 then 255 else x + y
  }

  /** `Color::operator+=(uint8_t)`: the same amount added to every channel, clipping at 255. */
  function AddGray(c: Color, add: Byte): Color {
    Color(AddSat(c.r, add), AddSat(c.g, add), AddSat(c.b, add))
  }

  // ---------------------------------------------------------------------------
  // to_rgb
  // ---------------------------------------------------------------------------

  /** `hue >> 5`: which of the eight 32-unit sectors the hue is in. */
  function HueSector(hue: Byte): (s: nat)
    ensures s < 8
  {
    hue / 32
  }

  /** `(hue & 0x1F) << 3`, stored in a `uint8_t`: the position inside the sector. */
  function Offset8(hue: Byte): (o: Byte) {
    Wrap8((hue % 32) * 8)
  }

  /**
   * The sector table of `to_rgb` in unbounded integers: one triple per
   * sector, and the initial white for the `default` branch.
   */
  function SectorRamp(sector: nat, third: int, twoThirds: int): (int, int, int) {
    if sector == 0 then (255 - third, third, 0)
    else if sector == 1 then (171, 85 + third, 0)
    else if sector == 2 then (171 - twoThirds, 170 + third, 0)
    else if sector == 3 then (0, 255 - third, third)
    else if sector == 4 then (0, 171 - twoThirds, 85 + twoThirds)
    else if sector == 5 then (third, 0, 255 - third)
    else if sector == 6 then (85 + third, 0, 171 - third)
    else if sector == 7 then (170 + third, 0, 85 - third)
    else (255, 255, 255)
  }

  /** The sector table as the source computes it: each assignment stores into a `uint8_t`. */
  function SectorColor(sector: nat, third: Byte, twoThirds: Byte): Color {
    var (r, g, b) := SectorRamp(sector, third, twoThirds);
    Color(Wrap8(r), Wrap8(g), Wrap8(b))
  }

  /** The fully saturated, full-value colour of a hue (the colour before the saturation step). */
  function HueColor(hue: Byte): Color {
    var offset8 := Offset8(hue);
    SectorColor(HueSector(hue), Scale8(offset8, 85), Scale8(offset8, 170))
  }

  /**
   * The saturation step: `rgb *= sat` and then `rgb += scale8(255 - sat, 255 - sat)`,
   * which adds a grey that grows with the square of `255 - sat`.
   */
  function Desaturate(c: Color, sat: Byte): Color {
    var desat := 255 - sat;
    AddGray(ScaleColor(c, sat), Scale8(desat, desat))
  }

  /** `to_rgb(hue, sat, val)`: hue wheel, then the saturation step, then `rgb *= val`. */
  function ToRgb(hue: Byte, sat: Byte, val: Byte): Color {
    ScaleColor(Desaturate(HueColor(hue), sat), val)
  }

  /**
   * The table never wraps: as long as `third <= 85` and `twoThirds <= 170`,
   * every entry of every sector is already a byte, so the stores keep it.
   */
  lemma SectorRampFits(sector: nat, third: Byte, twoThirds: Byte)
    requires sector < 8 && third <= 85 && twoThirds <= 170
    ensures var (r, g, b) := SectorRamp(sector, third, twoThirds);
      0 <= r < 256 && 0 <= g < 256 && 0 <= b < 256 &&
      SectorColor(sector, third, twoThirds) == Color(r, g, b)
  {
  }

  /**
   * For every hue the position is at most 248, so `third <= 83` and
   * `twoThirds <= 165`; the sector is 0..7, so the `default` branch never
   * runs; and the table entries reach the colour without truncation.
   */
  lemma HueColorNoWrap(hue: Byte)
    ensures Offset8(hue) == (hue % 32) * 8 <= 248
    ensures Scale8(Offset8(hue), 85) <= 83 && Scale8(Offset8(hue), 170) <= 165
    ensures HueSector(hue) < 8
    ensures var (r, g, b) := SectorRamp(HueSector(hue), Scale8(Offset8(hue), 85), Scale8(Offset8(hue), 170));
      HueColor(hue) == Color(r, g, b)
  {
    var o: int := Offset8(hue);
    assert o <= 248;
    assert o * 86 <= 248 * 86;
    assert o * 171 <= 248 * 171;
    SectorRampFits(HueSector(hue), Scale8(o, 85), Scale8(o, 170));
  }

  /** The colours at the eight sector boundaries (hue 0, 32, ..., 224). */
  const WHEEL_STOPS: seq<Color> := [
    Color(255, 0, 0), Color(171, 85, 0), Color(171, 170, 0), Color(0, 255, 0),
    Color(0, 171, 85), Color(0, 0, 255), Color(85, 0, 171), Color(170, 0, 85)
  ]

  lemma HueColorAtSectorStart(k: nat)
    requires k < 8
    ensures HueColor(32 * k) == WHEEL_STOPS[k]
  {
    var hue: Byte := 32 * k;
    assert Offset8(hue) == 0;
    assert HueSector(hue) == k;
    assert Scale8(0, 85) == 0 && Scale8(0, 170) == 0;
    assert HueColor(hue) == SectorColor(k, 0, 0);
  }

  /**
   * The grey added by the saturation step never clips: a channel scaled by
   * `sat` plus `scale8(255 - sat, 255 - sat)` is at most 255.
   */
  lemma DesaturationNeverClips(x: Byte, sat: Byte)
    ensures Scale8(x, sat) + Scale8(255 - sat, 255 - sat) <= 255
  {
    var d: nat := 255 - sat;
    var a := x * (1 + sat);
    assert a <= 255 * (1 + sat) by { MulMonotone(x, 255, 1 + sat); }
    var b := d * (1 + d);
    var slack := sat * (256 - sat);
    assert slack >= 0 by { MulMonotone(0, 256 - sat, sat); }
    assert b == 65280 - 511 * sat + sat * sat by { assert b == (255 - sat) * (256 - sat); }
    assert 255 * (1 + sat) + b == 65535 - slack;
    QuotientSumBound(a, b);
  }

  /** Two quotients by 256 add up to at most 255 when the dividends add up to at most 65535. */
  lemma QuotientSumBound(a: nat, b: nat)
    requires a + b <= 65535
    ensures a / 256 + b / 256 <= 255
  {
    var qa, qb := a / 256, b / 256;
    assert 256 * qa <= a && 256 * qb <= b;
  }

  /** Hence the saturating add of the saturation step never saturates: it is a plain sum. */
  lemma DesaturateUnclipped(c: Color, sat: Byte)
    ensures var grey := Scale8(255 - sat, 255 - sat); var d := Desaturate(c, sat);
      d.r == Scale8(c.r, sat) + grey && d.g == Scale8(c.g, sat) + grey && d.b == Scale8(c.b, sat) + grey
  {
    var grey := Scale8(255 - sat, 255 - sat);
    var scaled := ScaleColor(c, sat);
    DesaturationNeverClips(c.r, sat);
    DesaturationNeverClips(c.g, sat);
    DesaturationNeverClips(c.b, sat);
    assert AddSat(scaled.r, grey) == scaled.r + grey;
    assert AddSat(scaled.g, grey) == scaled.g + grey;
    assert AddSat(scaled.b, grey) == scaled.b + grey;
  }

  /** Value zero is black, whatever the hue and saturation. */
  lemma ToRgbValueZero(hue: Byte, sat: Byte)
    ensures ToRgb(hue, sat, 0) == BLACK
  {
  }

  /** Scaling a colour by 255 leaves it as it is. */
  lemma ScaleColorFull(c: Color)
    ensures ScaleColor(c, 255) == c
  {
    Scale8Full(c.r);
    Scale8Full(c.g);
    Scale8Full(c.b);
  }

  /** Full saturation and full value give the hue wheel's colour unchanged: hue 0 is pure red. */
  lemma ToRgbFullSaturation(hue: Byte)
    ensures ToRgb(hue, 255, 255) == HueColor(hue)
    ensures ToRgb(0, 255, 255) == Color(255, 0, 0)
  {
    var h := HueColor(hue);
    ScaleColorFull(h);
    assert Scale8(0, 0) == 0;
    assert Desaturate(h, 255) == h;
    HueColorAtSectorStart(0);
    ScaleColorFull(HueColor(0));
    assert Desaturate(HueColor(0), 255) == HueColor(0);
  }

  /** Saturation zero is a grey that does not depend on the hue. */
  lemma ToRgbSaturationZero(hue: Byte, val: Byte)
    ensures var c := ToRgb(hue, 0, val); c.r == c.g == c.b
    ensures ToRgb(hue, 0, val) == ToRgb(0, 0, val)
  {
    DesaturateZero(HueColor(hue));
    DesaturateZero(HueColor(0));
  }

  /** Saturation zero turns every colour into full white. */
  lemma DesaturateZero(c: Color)
    ensures Desaturate(c, 0) == Color(255, 255, 255)
  {
    ScaleColorZero(c);
    assert Scale8(255, 255) == 255;
  }

  /** Scaling any colour by 0 gives black. */
  lemma ScaleColorZero(c: Color)
    ensures ScaleColor(c, 0) == BLACK
  {
    assert Scale8(c.r, 0) == 0 && Scale8(c.g, 0) == 0 && Scale8(c.b, 0) == 0;
  }
}
