/** Size of geom/size.go: a width and a height compared with the AreClose
    tolerance. Equal pointers give equal values, and AreClose is
    reflexive, so the source's pointer short-cut agrees with the value
    comparison here. */
module GeomSize {
  import opened GeomUtils

  datatype Size = Size(width: real, height: real)

  /** NewSize: stores Width and Height as given. */
  function NewSize(w: real, h: real): (s: Size)
    ensures s.width == w && s.height == h
  {
    Size(w, h)
  }

  /** Equals: both dimensions within the tolerance of the other's. */
  function Equals(s: Size, z: Size): (b: bool)
    ensures b <==> AreClose(s.width, z.width) && AreClose(s.height, z.height)
  {
    s == z || (AreClose(s.width, z.width) && AreClose(s.height, z.height))
  }

  /** Equals is reflexive and symmetric, holds for sizes less than the
      tolerance apart and fails for sizes the tolerance apart. */
  lemma EqualsProperties(s: Size, z: Size)
    ensures Equals(s, s)
    ensures Equals(s, z) == Equals(z, s)
    ensures Equals(s, Size(s.width + Epsilon / 2.0, s.height - Epsilon / 2.0))
    ensures !Equals(s, Size(s.width + Epsilon, s.height))
  {
    AreCloseMeaning(s.width, z.width);
    AreCloseMeaning(s.height, z.height);
    AreCloseMeaning(s.width, s.width + Epsilon);
  }
}
