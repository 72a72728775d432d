/** Bitmap of bitmap/bitmap.go: a Width by Height raster whose Pixels
    buffer holds three channel values per pixel, row by row, in the order
    blue, green, red. Channel values are float64 in the source and real
    here. */
module Bitmap {

  /** clamp: the channel value limited to [0, 1]. */
  function Clamp01(v: real): (r: real)
    ensures 0.0 <= r <= 1.0
    ensures 0.0 <= v <= 1.0 ==> r == v
    ensures v < 0.0 ==> r == 0.0
    ensures v > 1.0 ==> r == 1.0
  {
    if 1.0 < (if 0.0 < v then v else 0.0) then 1.0
    else if 0.0 < v then v else 0.0
  }

  /** The first of the three slots of the pixel at column x of row y in a
      raster w pixels wide. */
  function Slot(w: int, x: int, y: int): int
  {
    (y * w + x) * 3
  }

  /** The value a buffer cleared to (r, g, b) holds at slot j. */
  function Channel(j: int, r: real, g: real, b: real): real
  {
    if j % 3 == 0 then b else if j % 3 == 1 then g else r
  }

  /** A pixel's three slots lie inside a buffer of w * h * 3 slots and
      hold its blue, green and red channels. */
  lemma {:induction false} SlotInRange(w: int, h: int, x: int, y: int)
    requires 0 <= x < w && 0 <= y < h
    ensures 0 <= Slot(w, x, y) && Slot(w, x, y) + 2 < w * h * 3
    ensures Slot(w, x, y) % 3 == 0
  {
    var k := y * w + x;
    assert k < (y + 1) * w;
    assert (y + 1) * w <= h * w;
    assert Slot(w, x, y) == 3 * k;
  }

  /** Every pixel of row y comes before the first pixel of a later row. */
  lemma RowBefore(w: int, x: int, y: int, y2: int)
    requires 0 <= x < w && 0 <= y < y2
    ensures y * w + x < y2 * w
  {
    var gap := y2 - (y + 1);
    assert gap * w >= 0;
    assert y2 * w == y * w + w + gap * w;
  }

  /** Distinct pixels own disjoint slots. */
  lemma {:induction false} SlotsDisjoint(w: int, x: int, y: int, x2: int, y2: int)
    requires 0 <= x < w && 0 <= y && 0 <= x2 < w && 0 <= y2
    requires x != x2 || y != y2
    ensures Slot(w, x, y) + 3 <= Slot(w, x2, y2) || Slot(w, x2, y2) + 3 <= Slot(w, x, y)
  {
    var k, k2 := y * w + x, y2 * w + x2;
    if y < y2 {
      RowBefore(w, x, y, y2);
    } else if y2 < y {
      RowBefore(w, x2, y2, y);
    }
    assert Slot(w, x, y) == 3 * k && Slot(w, x2, y2) == 3 * k2;
  }

  class Bitmap {
    var Width: int
    var Height: int
    var Pixels: array<real>

    /** The buffer holds three slots for each of the Width * Height pixels. */
    ghost predicate Valid()
      reads this
    {
      Pixels.Length == Width * Height * 3
    }

    predicate InBounds(x: int, y: int)
      reads this
    {
      !(x >= Width || x < 0 || y >= Height || y < 0)
    }

    /** NewBitmap: a w by h raster, every channel 0. Go's make panics on a
        negative length, hence the precondition. */
    constructor (w: int, h: int)
      requires w * h >= 0
      ensures Valid() && Width == w && Height == h && fresh(Pixels)
      ensures forall i :: 0 <= i < Pixels.Length ==> Pixels[i] == 0.0
    {
      Width, Height := w, h;
      Pixels := new real[w * h * 3];
      new;
      Clear(0.0, 0.0, 0.0);
    }

    /** Clear: every pixel is set to (r, g, b), stored as b, g, r, without
        clamping. */
    method Clear(r: real, g: real, b: real)
      requires Valid()
      modifies Pixels
      ensures Valid()
      ensures forall i :: 0 <= i < Pixels.Length ==> Pixels[i] == Channel(i, r, g, b)
      ensures forall x, y :: InBounds(x, y) ==> GetPixel(x, y) == (r, g, b)
    {
      SlotCount();
      var i := 0;
      while i < Pixels.Length
        invariant 0 <= i && i % 3 == 0
        invariant i <= Pixels.Length
        invariant forall j :: 0 <= j < i ==> Pixels[j] == Channel(j, r, g, b)
      {
        Pixels[i] := b;
        Pixels[i + 1] := g;
        Pixels[i + 2] := r;
        i := i + 3;
      }
      ClearedReads(r, g, b);
    }

    /** A buffer holding (r, g, b) in every pixel's slots reads back as
        (r, g, b) everywhere inside the raster. */
    lemma ClearedReads(r: real, g: real, b: real)
      requires Valid()
      requires forall i :: 0 <= i < Pixels.Length ==> Pixels[i] == Channel(i, r, g, b)
      ensures forall x, y :: InBounds(x, y) ==> GetPixel(x, y) == (r, g, b)
    {
      forall x, y | InBounds(x, y)
        ensures GetPixel(x, y) == (r, g, b)
      {
        SlotInRange(Width, Height, x, y);
        var i := Slot(Width, x, y);
        assert Channel(i, r, g, b) == b && Channel(i + 1, r, g, b) == g && Channel(i + 2, r, g, b) == r;
      }
    }

    /** The buffer length is a multiple of three. */
    lemma SlotCount()
      requires Valid()
      ensures Pixels.Length % 3 == 0
    {
      assert Pixels.Length == (Width * Height) * 3;
    }

    /** GetPixel: (r, g, b) of the pixel at (x, y), or (0, 0, 0) without
        reading the buffer when (x, y) is outside the raster. */
    function GetPixel(x: int, y: int): (c: (real, real, real))
      requires Valid()
      reads this, Pixels
      ensures !InBounds(x, y) ==> c == (0.0, 0.0, 0.0)
      ensures InBounds(x, y) ==>
        var i := Slot(Width, x, y);
        0 <= i && i + 2 < Pixels.Length && c == (Pixels[i + 2], Pixels[i + 1], Pixels[i])
    {
      if x >= Width || x < 0 || y >= Height || y < 0 then (0.0, 0.0, 0.0)
      else
        SlotInRange(Width, Height, x, y);
        var index := Slot(Width, x, y);
        (Pixels[index + 2], Pixels[index + 1], Pixels[index])
    }

    /** SetPixel: outside the raster nothing changes; inside, only the
        pixel's three slots change, and reading the pixel back gives the
        inputs clamped to [0, 1] while every other pixel reads as before. */
    method SetPixel(x: int, y: int, r: real, g: real, b: real)
      requires Valid()
      modifies Pixels
      ensures Valid()
      ensures !InBounds(x, y) ==> Pixels[..] == old(Pixels[..])
      ensures InBounds(x, y) ==>
        var i := Slot(Width, x, y);
        0 <= i && i + 2 < Pixels.Length &&
        Pixels[..] == old(Pixels[..])[i := Clamp01(b)][i + 1 := Clamp01(g)][i + 2 := Clamp01(r)]
      ensures InBounds(x, y) ==> GetPixel(x, y) == (Clamp01(r), Clamp01(g), Clamp01(b))
      ensures forall x2, y2 :: (x2 != x || y2 != y) ==> GetPixel(x2, y2) == old(GetPixel(x2, y2))
    {
      if x >= Width || x < 0 || y >= Height || y < 0 {
        return;
      }
      SlotInRange(Width, Height, x, y);
      var index := Slot(Width, x, y);
      Pixels[index] := Clamp01(b);
      Pixels[index + 1] := Clamp01(g);
      Pixels[index + 2] := Clamp01(r);
      forall x2, y2 | (x2 != x || y2 != y) && InBounds(x2, y2)
        ensures GetPixel(x2, y2) == old(GetPixel(x2, y2))
      {
        SlotInRange(Width, Height, x2, y2);
        SlotsDisjoint(Width, x, y, x2, y2);
      }
    }

    /** SetPixelGray: SetPixel with the same value on all three channels. */
    method SetPixelGray(x: int, y: int, val: real)
      requires Valid()
      modifies Pixels
      ensures Valid()
      ensures !InBounds(x, y) ==> Pixels[..] == old(Pixels[..])
      ensures InBounds(x, y) ==> GetPixel(x, y) == (Clamp01(val), Clamp01(val), Clamp01(val))
      ensures forall x2, y2 :: (x2 != x || y2 != y) ==> GetPixel(x2, y2) == old(GetPixel(x2, y2))
    {
      SetPixel(x, y, val, val, val);
    }
  }
}
