/** EncodeBmp of bitmap/encoder.go: the bytes of a Windows BMP file, a
    14-byte BITMAPFILEHEADER and a 40-byte BITMAPINFOHEADER (24 bits per
    pixel, no compression) in little-endian order, followed by one byte
    per entry of the pixel data. Writing the file is not part of this
    model, and the conversion of a channel value to its byte,
    uint8(p*255) in the source, is the parameter toByte. */
module BitmapEncoder {

  newtype byte = x: int | 0 <= x < 256

  const TwoTo32: int := 0x1_0000_0000

  /** The low 16 bits of v, least significant byte first: what
      binary.Write puts down for a uint16. */
  function LE16(v: int): (r: seq<byte>)
    ensures |r| == 2
  {
    var u := v % 0x1_0000;
    [(u % 256) as byte, (u / 256) as byte]
  }

  /** The low 32 bits of v, least significant byte first: what
      binary.Write puts down for a uint32, and for an int32 in two's
      complement. */
  function LE32(v: int): (r: seq<byte>)
    ensures |r| == 4
  {
    var u := v % TwoTo32;
    [(u % 256) as byte, (u / 256 % 256) as byte, (u / 256 / 256 % 256) as byte, (u / 256 / 256 / 256) as byte]
  }

  /** Writing a value already cut to 32 bits writes the same bytes. */
  lemma LE32Wrapped(v: int)
    ensures LE32(v % TwoTo32) == LE32(v)
  {
    var u := v % TwoTo32;
    assert 0 <= u < TwoTo32;
    assert u % TwoTo32 == u;
  }

  /** 256 to the power k. */
  function Pow256(k: nat): (p: nat)
    ensures p >= 1
  {
    if k == 0 then 1 else 256 * Pow256(k - 1)
  }

  /** The unsigned number stored little-endian in b; it is below
      256^|b|. */
  function Unsigned(b: seq<byte>): (n: nat)
    ensures n < Pow256(|b|)
  {
    if b == [] then 0 else b[0] as nat + 256 * Unsigned(b[1..])
  }

  /** The two's-complement number stored little-endian in four bytes. */
  function Signed32(b: seq<byte>): int
    requires |b| == 4
  {
    var u := Unsigned(b);
    if u < 0x8000_0000 then u else u - TwoTo32
  }

  /** What a Go conversion int32(v) gives: v wrapped into [-2^31, 2^31). */
  function Int32(v: int): (r: int)
    ensures -0x8000_0000 <= r < 0x8000_0000
    ensures -0x8000_0000 <= v < 0x8000_0000 ==> r == v
    ensures (r - v) % TwoTo32 == 0
  {
    var u := v % TwoTo32;
    if u < 0x8000_0000 then u else u - TwoTo32
  }

  /** Reading back a uint16 gives the low 16 bits of what was written. */
  lemma LE16RoundTrip(v: int)
    ensures Unsigned(LE16(v)) == v % 0x1_0000
  {
    var b := LE16(v);
    assert b[1..][1..] == [];
  }

  /** Reading back a uint32 gives the low 32 bits of what was written. */
  lemma LE32RoundTrip(v: int)
    ensures Unsigned(LE32(v)) == v % TwoTo32
  {
    var b := LE32(v);
    var u := v % TwoTo32;
    var q1 := u / 256;
    var q2 := q1 / 256;
    var q3 := q2 / 256;
    assert b[1..][1..][1..][1..] == [];
    assert Unsigned(b[1..][1..][1..]) == q3;
    assert Unsigned(b[1..][1..]) == q2 % 256 + 256 * q3 == q2;
    assert Unsigned(b[1..]) == q1 % 256 + 256 * q2 == q1;
  }

  /** Reading back an int32 gives int32(v). */
  lemma LE32SignedRoundTrip(v: int)
    ensures Signed32(LE32(v)) == Int32(v)
  {
    LE32RoundTrip(v);
  }

  /** BITMAPFILEHEADER for n pixel-data bytes: signature, file size,
      reserved word, pixel-data offset. */
  function FileHeader(n: int): seq<byte>
  {
    [66, 77] + LE32(54 + n) + LE32(0) + LE32(54)
  }

  /** BITMAPINFOHEADER for a w by h image: its geometry part followed by
      its format part. */
  function InfoHeader(w: int, h: int): seq<byte>
  {
    InfoGeometry(w, h) + InfoFormat()
  }

  /** The first 16 bytes of BITMAPINFOHEADER: header size, width, height,
      planes and bit depth. */
  function InfoGeometry(w: int, h: int): seq<byte>
  {
    LE32(40) + LE32(w) + LE32(h) + LE16(1) + LE16(24)
  }

  /** The last 24 bytes of BITMAPINFOHEADER: compression, raw size,
      resolutions, palette and important-colour counts. */
  function InfoFormat(): seq<byte>
  {
    LE32(0) + LE32(0) + LE32(3780) + LE32(3780) + LE32(0) + LE32(0)
  }

  function BmpHeader(n: int, w: int, h: int): seq<byte>
  {
    FileHeader(n) + InfoHeader(w, h)
  }

  /** The file header: "BM", the file size as a uint32 (so it wraps for
      files of 4 GiB and more), the zero reserved word, and the pixel-data
      offset 54. */
  lemma FileHeaderLayout(n: int)
    ensures var f := FileHeader(n);
      && |f| == 14 && f[0] == 66 && f[1] == 77
      && Unsigned(f[2..6]) == (54 + n) % TwoTo32
      && Unsigned(f[6..10]) == 0
      && Unsigned(f[10..14]) == 54
  {
    var f := FileHeader(n);
    assert f[2..6] == LE32(54 + n);
    assert f[6..10] == LE32(0);
    assert f[10..14] == LE32(54);
    LE32RoundTrip(54 + n);
    LE32RoundTrip(0);
    LE32RoundTrip(54);
  }

  /** Where the five fields of the geometry part lie. */
  lemma Slices5(a: seq<byte>, b: seq<byte>, c: seq<byte>, d: seq<byte>, e: seq<byte>)
    requires |a| == 4 && |b| == 4 && |c| == 4 && |d| == 2 && |e| == 2
    ensures var s := a + b + c + d + e;
      s[0..4] == a && s[4..8] == b && s[8..12] == c && s[12..14] == d && s[14..16] == e
  {
    var s := a + b + c + d + e;
    assert s[..14] == a + b + c + d;
    assert s[..12] == a + b + c;
    assert s[..8] == a + b;
  }

  /** Where the six four-byte fields of the format part lie. */
  lemma Slices6(a: seq<byte>, b: seq<byte>, c: seq<byte>, d: seq<byte>, e: seq<byte>, g: seq<byte>)
    requires |a| == 4 && |b| == 4 && |c| == 4 && |d| == 4 && |e| == 4 && |g| == 4
    ensures var s := a + b + c + d + e + g;
      s[0..4] == a && s[4..8] == b && s[8..12] == c && s[12..16] == d && s[16..20] == e && s[20..24] == g
  {
    var s := a + b + c + d + e + g;
    assert s[..20] == a + b + c + d + e;
    assert s[..16] == a + b + c + d;
    assert s[..12] == a + b + c;
    assert s[..8] == a + b;
  }

  /** The geometry part of the info header: size 40, width and height as
      int32, one colour plane, 24 bits per pixel. */
  lemma InfoGeometryLayout(w: int, h: int)
    ensures var f := InfoGeometry(w, h);
      && |f| == 16
      && Unsigned(f[0..4]) == 40
      && Signed32(f[4..8]) == Int32(w)
      && Signed32(f[8..12]) == Int32(h)
      && Unsigned(f[12..14]) == 1
      && Unsigned(f[14..16]) == 24
  {
    var f := InfoGeometry(w, h);
    Slices5(LE32(40), LE32(w), LE32(h), LE16(1), LE16(24));
    LE32RoundTrip(40);
    LE32SignedRoundTrip(w);
    LE32SignedRoundTrip(h);
    LE16RoundTrip(1);
    LE16RoundTrip(24);
  }

  /** The format part of the info header: no compression, raw size 0, 3780
      pixels per metre in both directions, no palette or important
      colours. */
  lemma InfoFormatLayout()
    ensures var f := InfoFormat();
      && |f| == 24
      && Unsigned(f[0..4]) == 0 && Unsigned(f[4..8]) == 0
      && Unsigned(f[8..12]) == 3780 && Unsigned(f[12..16]) == 3780
      && Unsigned(f[16..20]) == 0 && Unsigned(f[20..24]) == 0
  {
    var f := InfoFormat();
    Slices6(LE32(0), LE32(0), LE32(3780), LE32(3780), LE32(0), LE32(0));
    LE32RoundTrip(0);
    LE32RoundTrip(3780);
  }

  /** The whole header is 54 bytes: the file header at offset 0 and the
      info header at offset 14. */
  lemma BmpHeaderLayout(n: int, w: int, h: int)
    ensures |BmpHeader(n, w, h)| == 54
    ensures BmpHeader(n, w, h)[..14] == FileHeader(n)
    ensures BmpHeader(n, w, h)[14..30] == InfoGeometry(w, h)
    ensures BmpHeader(n, w, h)[30..] == InfoFormat()
  {
    var f, g, m := FileHeader(n), InfoGeometry(w, h), InfoFormat();
    assert |f| == 14 && |g| == 16 && |m| == 24;
    Parts(f, g, m);
  }

  /** The three parts of f + (g + m) are found at their offsets. */
  lemma Parts(f: seq<byte>, g: seq<byte>, m: seq<byte>)
    ensures (f + (g + m))[..|f|] == f
    ensures (f + (g + m))[|f|..|f| + |g|] == g
    ensures (f + (g + m))[|f| + |g|..] == m
  {
    var b := f + (g + m);
    assert b[|f|..] == g + m;
    assert (g + m)[..|g|] == g && (g + m)[|g|..] == m;
  }

  /** EncodeBmp: the header, then one byte per pixel-data entry in the
      same order, with no row padding. */
  method EncodeBmp(pixelData: seq<real>, w: int, h: int, toByte: real -> byte) returns (data: seq<byte>)
    ensures |data| == 54 + |pixelData|
    ensures data[..54] == BmpHeader(|pixelData|, w, h)
    ensures forall i :: 0 <= i < |pixelData| ==> data[54 + i] == toByte(pixelData[i])
  {
    var size := (54 + |pixelData|) % TwoTo32;
    // BITMAPFILEHEADER
    var file := [66, 77];
    file := file + LE32(size);
    file := file + LE32(0);
    file := file + LE32(54);
    // BITMAPINFOHEADER
    var geometry := LE32(40);
    geometry := geometry + LE32(w);
    geometry := geometry + LE32(h);
    geometry := geometry + LE16(1);
    geometry := geometry + LE16(24);
    var format := LE32(0);
    format := format + LE32(0);
    format := format + LE32(3780);
    format := format + LE32(3780);
    format := format + LE32(0);
    format := format + LE32(0);
    LE32Wrapped(54 + |pixelData|);
    assert file == FileHeader(|pixelData|);
    assert geometry == InfoGeometry(w, h) && format == InfoFormat();
    data := file + (geometry + format);
    ghost var header := data;
    for i := 0 to |pixelData|
      invariant |data| == 54 + i && data[..54] == header
      invariant forall j :: 0 <= j < i ==> data[54 + j] == toByte(pixelData[j])
    {
      data := data + [toByte(pixelData[i])];
    }
  }
}
