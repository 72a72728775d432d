/** Palette of blcolor/palette.go: a list of colours that sort.Sort can
    order by luminance. Luminance is colour arithmetic outside this model,
    so Less and Sort take it as the key function `lum`. */
module BlColorPalette {
  import opened BlColor
  import opened Wrappers
  import Fmt
  import Sorting

  /** The message Get exits with for an index outside the palette. */
  function NoSuchIndex(index: int, size: int): string
  {
    "Can't get index " + Fmt.IntString(index) + " for palette of size " + Fmt.IntString(size) + "."
  }

  /** The order Sort establishes: by luminance, ties in either order. */
  function ByKey(lum: Color -> real): (Color, Color) -> bool
  {
    (a: Color, b: Color) => lum(a) <= lum(b)
  }

  lemma ByKeyTotal(lum: Color -> real)
    ensures Sorting.TotalPreorder(ByKey(lum))
  {
  }

  class Palette {
    var colors: seq<Color>

    /** NewPalette: no colours. */
    constructor ()
      ensures colors == [] && Size() == 0
    {
      colors := [];
    }

    function Size(): (n: nat)
      reads this
      ensures n == |colors|
    {
      |colors|
    }

    /** Get: the colour at index; any other index ends the program in the
        source (log.Fatalf), an error here. */
    function Get(index: int): (r: Result<Color>)
      reads this
      ensures r.Ok? <==> 0 <= index < Size()
      ensures r.Ok? ==> r.value == colors[index]
      ensures r.Err? ==> r.message == NoSuchIndex(index, Size())
    {
      if index >= Size() || index < 0 then Err(NoSuchIndex(index, Size()))
      else Ok(colors[index])
    }

    /** Add: the colour goes at the end and the size grows by one. */
    method Add(color: Color)
      modifies this
      ensures colors == old(colors) + [color]
      ensures Size() == old(Size()) + 1 && Get(old(Size())) == Ok(color)
    {
      colors := colors + [color];
    }

    /** AddRGB: adds the opaque colour RGB(r, g, b). */
    method AddRGB(r: real, g: real, b: real)
      modifies this
      ensures colors == old(colors) + [RGB(r, g, b)]
      ensures Get(old(Size())) == Ok(Color(r, g, b, 1.0))
    {
      Add(RGB(r, g, b));
    }

    /** AddRGBA: adds RGBA(r, g, b, a). */
    method AddRGBA(r: real, g: real, b: real, a: real)
      modifies this
      ensures colors == old(colors) + [RGBA(r, g, b, a)]
      ensures Get(old(Size())) == Ok(Color(r, g, b, a))
    {
      Add(RGBA(r, g, b, a));
    }

    /** Len: the size, for sort.Interface. */
    function Len(): (n: nat)
      reads this
      ensures n == Size()
    {
      |colors|
    }

    /** Less: colour i is darker than colour j. An index out of range
        panics in the source, hence the precondition. */
    function Less(i: int, j: int, lum: Color -> real): (b: bool)
      requires 0 <= i < |colors| && 0 <= j < |colors|
      reads this
      ensures b ==> i != j && colors[i] != colors[j]
    {
      lum(colors[i]) < lum(colors[j])
    }

    /** Less is a strict order: never both ways round, and two colours
        neither of which is Less than the other have equal luminance. */
    lemma LessStrict(i: int, j: int, lum: Color -> real)
      requires 0 <= i < |colors| && 0 <= j < |colors|
      ensures Less(i, j, lum) ==> !Less(j, i, lum)
      ensures !Less(i, j, lum) && !Less(j, i, lum) ==> lum(colors[i]) == lum(colors[j])
    {
    }

    /** Swap: exchanges colours i and j and leaves the others; the
        palette keeps the same colours. */
    method Swap(i: int, j: int)
      requires 0 <= i < |colors| && 0 <= j < |colors|
      modifies this
      ensures |colors| == |old(colors)|
      ensures colors[i] == old(colors)[j] && colors[j] == old(colors)[i]
      ensures forall k :: 0 <= k < |colors| && k != i && k != j ==> colors[k] == old(colors)[k]
      ensures multiset(colors) == multiset(old(colors))
    {
      colors := colors[i := colors[j]][j := colors[i]];
    }

    /** Sort: the same colours, by non-decreasing luminance. sort.Sort is
        not stable, so the order among equal luminances is not promised. */
    method Sort(lum: Color -> real)
      modifies this
      ensures multiset(colors) == multiset(old(colors))
      ensures forall i, j :: 0 <= i < j < |colors| ==> !Less(j, i, lum)
    {
      ByKeyTotal(lum);
      Sorting.SortBySorted(colors, ByKey(lum));
      colors := Sorting.SortBy(colors, ByKey(lum));
    }
  }
}
