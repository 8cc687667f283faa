/** Colours as the editor stores them, and the decoder of the colour picker's `#RRGGBB` text. */
module Colors {

  /** Red, green and blue are 0..255; alpha is a percentage 0..100, not 0..255. */
  datatype Color = Color(r: int, g: int, b: int, a: int)

  /** The "unpainted" placeholder of a fresh cell; distinct from true transparency. */
  const Sentinel: Color := Color(100, 100, 100, 100)

  /** Fully transparent black: what an unpainted cell becomes on export, and the hex fallback. */
  const Transparent: Color := Color(0, 0, 0, 0)

  predicate ValidColor(c: Color) {
    0 <= c.r <= 255 && 0 <= c.g <= 255 && 0 <= c.b <= 255 && 0 <= c.a <= 100
  }

  predicate IsHexDigit(ch: char) {
    '0' <= ch <= '9' || 'a' <= ch <= 'f' || 'A' <= ch <= 'F'
  }

  predicate AllHex(s: string) {
    forall i | 0 <= i < |s| :: IsHexDigit(s[i])
  }

  function HexDigitValue(ch: char): (v: nat)
    requires IsHexDigit(ch)
    ensures v < 16
  {
    if '0' <= ch <= '9' then ch as int - '0' as int
    else if 'a' <= ch <= 'f' then ch as int - 'a' as int + 10
    else ch as int - 'A' as int + 10
  }

  /** The value of a run of hex digits, most significant first (what `parseInt(s, 16)` gives for it). */
  function HexValue(ds: string): nat
    requires AllHex(ds)
  {
    if ds == [] then 0 else HexValue(ds[..|ds| - 1]) * 16 + HexDigitValue(ds[|ds| - 1])
  }

  /** The byte written by the two hex digits at `i` and `i + 1`: the reference reading of `#RRGGBB`. */
  function ByteAt(s: string, i: nat): (b: nat)
    requires i + 1 < |s| && IsHexDigit(s[i]) && IsHexDigit(s[i + 1])
    ensures b < 256
  {
    16 * HexDigitValue(s[i]) + HexDigitValue(s[i + 1])
  }

  /** The shape `hexToRgb` accepts: seven characters starting with `#`. */
  predicate HasHexShape(hex: string) {
    |hex| == 7 && hex[0] == '#'
  }

  /**
   * hexToRgb: a malformed text yields transparent black; `#RRGGBB` yields its three bytes, opaque.
   * The source shifts and masks the parsed value (`(v >> 16) & 255`, `(v >> 8) & 255`, `v & 255`);
   * the value is below 2^24, so these are the divisions and remainders written here.
   */
  function HexToRgb(hex: string): (c: Color)
    requires HasHexShape(hex) ==> AllHex(hex[1..])
    ensures ValidColor(c)
    ensures !HasHexShape(hex) ==> c == Transparent
    ensures HasHexShape(hex) ==> c == Color(ByteAt(hex, 1), ByteAt(hex, 3), ByteAt(hex, 5), 100)
  {
    if |hex| != 7 || hex[0] != '#' then Color(0, 0, 0, 0)
    else
      var v := HexValue(hex[1..]);
      HexSixDigits(hex);
      SplitBytes(ByteAt(hex, 1), ByteAt(hex, 3), ByteAt(hex, 5));
      Color((v / 0x1_0000) % 0x100, (v / 0x100) % 0x100, v % 0x100, 100)
  }

  /** Six hex digits after the `#` are three bytes, most significant first. */
  lemma {:induction false} HexSixDigits(hex: string)
    requires HasHexShape(hex) && AllHex(hex[1..])
    ensures HexValue(hex[1..]) == ByteAt(hex, 1) * 0x1_0000 + ByteAt(hex, 3) * 0x100 + ByteAt(hex, 5)
  {
    var ds := hex[1..];
    assert forall i | 1 <= i < 7 :: IsHexDigit(hex[i]) by {
      forall i | 1 <= i < 7 ensures IsHexDigit(hex[i]) { assert hex[i] == ds[i - 1]; }
    }
    assert ds[..5][..4] == ds[..4] && ds[..4][..3] == ds[..3] && ds[..3][..2] == ds[..2];
    assert ds[..2][..1] == ds[..1] && ds[..1][..0] == [];
    calc {
      HexValue(ds);
      HexValue(ds[..5]) * 16 + HexDigitValue(hex[6]);
      (HexValue(ds[..4]) * 16 + HexDigitValue(hex[5])) * 16 + HexDigitValue(hex[6]);
      ((HexValue(ds[..3]) * 16 + HexDigitValue(hex[4])) * 16 + HexDigitValue(hex[5])) * 16 + HexDigitValue(hex[6]);
      (((HexValue(ds[..2]) * 16 + HexDigitValue(hex[3])) * 16 + HexDigitValue(hex[4])) * 16 + HexDigitValue(hex[5])) * 16
        + HexDigitValue(hex[6]);
      ((((HexValue(ds[..1]) * 16 + HexDigitValue(hex[2])) * 16 + HexDigitValue(hex[3])) * 16 + HexDigitValue(hex[4])) * 16
        + HexDigitValue(hex[5])) * 16 + HexDigitValue(hex[6]);
      (((((HexDigitValue(hex[1])) * 16 + HexDigitValue(hex[2])) * 16 + HexDigitValue(hex[3])) * 16 + HexDigitValue(hex[4])) * 16
        + HexDigitValue(hex[5])) * 16 + HexDigitValue(hex[6]);
    }
  }

  /** A 24-bit value built from three bytes gives them back by division and remainder. */
  lemma SplitBytes(b0: nat, b1: nat, b2: nat)
    requires b0 < 256 && b1 < 256 && b2 < 256
    ensures var v := b0 * 0x1_0000 + b1 * 0x100 + b2;
      (v / 0x1_0000) % 0x100 == b0 && (v / 0x100) % 0x100 == b1 && v % 0x100 == b2
  {
  }

  /** The fallbacks and the decoding of a typical picker value. */
  lemma HexToRgbExamples()
    ensures HexToRgb("bad") == Transparent
    ensures HexToRgb("#12345") == Transparent
    ensures HexToRgb("#336699") == Color(51, 102, 153, 100)
    ensures HexToRgb("#FFffFF") == Color(255, 255, 255, 100)
  {
  }
}
