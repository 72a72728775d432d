/** Color creation of blcolor/color.go: a colour is four float64 channels,
    nominally in [0, 1], here reals. Integer arguments are Go ints: `>>` is
    an arithmetic shift (a floored division by a power of two) and `& 0xff`
    keeps the low byte of the two's-complement value, which is Dafny's
    non-negative `% 256`. */
module BlColor {
  import BlMath

  datatype Color = Color(R: real, G: real, B: real, A: real)

  /** RGB: the three channels as given, fully opaque. */
  function RGB(r: real, g: real, b: real): (c: Color)
    ensures c == RGBA(r, g, b, 1.0)
  {
    Color(r, g, b, 1.0)
  }

  /** RGBA: the four channels as given. */
  function RGBA(r: real, g: real, b: real, a: real): (c: Color)
    ensures c.R == r && c.G == g && c.B == b && c.A == a
  {
    Color(r, g, b, a)
  }

  /** v >> k for a Go int. */
  function Shr(v: int, k: nat): int
  {
    v / Pow2(k)
  }

  function Pow2(k: nat): (p: nat)
    ensures p >= 1
  {
    if k == 0 then 1 else 2 * Pow2(k - 1)
  }

  /** v & 0xff for a Go int: the low byte. */
  function LowByte(v: int): (b: int)
    ensures 0 <= b < 256
  {
    v % 256
  }

  /** RGBAHex: channels given in 0..255, divided by 255. */
  function RGBAHex(r: int, g: int, b: int, a: int): (c: Color)
    ensures c.R * 255.0 == r as real && c.G * 255.0 == g as real
    ensures c.B * 255.0 == b as real && c.A * 255.0 == a as real
  {
    RGBA(r as real / 255.0, g as real / 255.0, b as real / 255.0, a as real / 255.0)
  }

  /** RGBHex: RGBAHex with alpha 255, that is alpha 1. */
  function RGBHex(r: int, g: int, b: int): (c: Color)
    ensures c == RGBAHex(r, g, b, 255) && c.A == 1.0
  {
    RGBAHex(r, g, b, 255)
  }

  /** Number: a 24-bit 0xRRGGBB value; bits above the low 24 are ignored
      and every channel lands in [0, 1], alpha 1. */
  function Number(value: int): (c: Color)
    ensures c.A == 1.0
    ensures 0.0 <= c.R <= 1.0 && 0.0 <= c.G <= 1.0 && 0.0 <= c.B <= 1.0
  {
    var r := LowByte(Shr(value, 16));
    var g := LowByte(Shr(value, 8));
    var b := LowByte(value);
    RGBHex(r, g, b)
  }

  /** NumberWithAlpha: a 32-bit 0xAARRGGBB value. Alpha is value >> 24
      without a mask, so it is whatever lies above bit 24. */
  function NumberWithAlpha(value: int): (c: Color)
    ensures 0.0 <= c.R <= 1.0 && 0.0 <= c.G <= 1.0 && 0.0 <= c.B <= 1.0
    ensures c.A * 255.0 == Shr(value, 24) as real
  {
    var a := Shr(value, 24);
    var r := LowByte(Shr(value, 16));
    var g := LowByte(Shr(value, 8));
    var b := LowByte(value);
    RGBAHex(r, g, b, a)
  }

  /** Lerp: each channel, alpha included, interpolated by t. */
  function Lerp(colorA: Color, colorB: Color, t: real): (c: Color)
    ensures t == 0.0 ==> c == colorA
    ensures t == 1.0 ==> c == colorB
  {
    RGBA(BlMath.Lerp(t, colorA.R, colorB.R), BlMath.Lerp(t, colorA.G, colorB.G),
         BlMath.Lerp(t, colorA.B, colorB.B), BlMath.Lerp(t, colorA.A, colorB.A))
  }

  /** Grey: equal red, green and blue, alpha 1. */
  function Grey(shade: real): (c: Color)
    ensures c.R == shade && c.G == shade && c.B == shade && c.A == 1.0
  {
    RGB(shade, shade, shade)
  }

  /** GreyHex: a 0..255 shade; the same colour as RGBHex with three equal
      channels. */
  function GreyHex(shade: int): (c: Color)
    ensures c == RGBHex(shade, shade, shade)
  {
    Grey(shade as real / 255.0)
  }

  /** The shifts by 8, 16 and 24 bits divide by these powers of two. */
  lemma Pow2Values()
    ensures Pow2(8) == 256 && Pow2(16) == 65536 && Pow2(24) == 0x100_0000
  {
    assert Pow2(4) == 16;
    assert Pow2(8) == 256;
    assert Pow2(12) == 4096;
    assert Pow2(16) == 65536;
    assert Pow2(20) == 0x10_0000;
  }

  /** Packing three bytes as 0xRRGGBB and reading them back with Number
      gives RGBHex of the same bytes. */
  lemma {:induction false} NumberOfBytes(r: int, g: int, b: int)
    requires 0 <= r < 256 && 0 <= g < 256 && 0 <= b < 256
    ensures Number(r * 65536 + g * 256 + b) == RGBHex(r, g, b)
  {
    var v := r * 65536 + g * 256 + b;
    Pow2Values();
    BlMath.DivModUnique(v, 65536, r, g * 256 + b);
    BlMath.DivModUnique(v, 256, r * 256 + g, b);
    BlMath.DivModUnique(r * 256 + g, 256, r, g);
    assert LowByte(Shr(v, 16)) == r && LowByte(Shr(v, 8)) == g && LowByte(v) == b;
  }

  /** The alpha of NumberWithAlpha is in [0, 1] exactly for values in
      [0, 2^32), the 32-bit range the source documents. */
  lemma {:induction false} NumberWithAlphaRange(value: int)
    ensures 0.0 <= NumberWithAlpha(value).A <= 1.0 <==> 0 <= value < 0x1_0000_0000
  {
    Pow2Values();
    var a := Shr(value, 24);
    assert 0.0 <= NumberWithAlpha(value).A <= 1.0 <==> 0 <= a <= 255;
  }
}
