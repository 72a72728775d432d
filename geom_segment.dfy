/** Segment of geom/segment.go: two endpoint Point objects. The endpoints
    are pointers, so an in-place transform applied to a segment whose
    PointA and PointB are the same object moves that point twice; the
    contracts count slots (see GeomPoint.Transformed). */
module GeomSegment {
  import BlMath
  import opened GeomPoint

  /** The endpoints of a segment, as values. */
  datatype Seg = Seg(a: Pos, b: Pos)

  /** The per-coordinate tolerance of Segment.Equals: 1e-6, inclusive. */
  const EqualsTolerance: real := 0.000001

  /** Two positions agree within EqualsTolerance on both axes. */
  predicate Near(p: Pos, q: Pos) {
    BlMath.Equalish(p.x, q.x, EqualsTolerance) && BlMath.Equalish(p.y, q.y, EqualsTolerance)
  }

  /** Segment.Equals on values: the endpoints agree in the same order or
      in swapped order. */
  predicate SegEquals(s: Seg, o: Seg) {
    (Near(s.a, o.a) && Near(s.b, o.b)) || (Near(s.a, o.b) && Near(s.b, o.a))
  }

  /** SegEquals is reflexive and symmetric, ignores the direction of
      either segment, and holds for endpoints shifted by exactly the
      tolerance but not by twice it when the segment is not degenerate. */
  lemma SegEqualsProperties(s: Seg, o: Seg)
    ensures SegEquals(s, s)
    ensures SegEquals(s, o) == SegEquals(o, s)
    ensures SegEquals(s, o) == SegEquals(Seg(s.b, s.a), o) == SegEquals(s, Seg(o.b, o.a))
    ensures SegEquals(s, Seg(Pos(s.a.x + EqualsTolerance, s.a.y), Pos(s.b.x, s.b.y - EqualsTolerance)))
    ensures !Near(s.a, s.b) ==> !SegEquals(s, Seg(Pos(s.a.x + 2.0 * EqualsTolerance, s.a.y), s.b))
  {
  }

  class Segment {
    // Neither pointer is ever reassigned after construction, so both are
    // constant; the points they refer to change in place.
    const PointA: Point
    const PointB: Point

    /** NewSegment: two new endpoint points. */
    constructor (x0: real, y0: real, x1: real, y1: real)
      ensures fresh(PointA) && fresh(PointB) && PointA != PointB
      ensures Value() == Seg(Pos(x0, y0), Pos(x1, y1))
    {
      PointA := new Point(x0, y0);
      PointB := new Point(x1, y1);
    }

    /** The endpoint values now. */
    function Value(): Seg
      reads PointA, PointB
    {
      Seg(PointA.Value(), PointB.Value())
    }

    /** The endpoint slots, PointA first. */
    function Slots(): seq<Point>
    {
      [PointA, PointB]
    }

    /** Equals: the same object, or SegEquals on the endpoint values; the
        object shortcut never changes the answer, as SegEquals is
        reflexive. */
    function Equals(other: Segment): (b: bool)
      reads PointA, PointB, other.PointA, other.PointB
      ensures b <==> SegEquals(Value(), other.Value())
    {
      if this == other then true
      else SegEquals(Value(), other.Value())
    }

    /** Scale: both endpoints multiplied by the factors. */
    method Scale(sx: real, sy: real)
      modifies PointA, PointB
      ensures Transformed(Slots(), old(Values(Slots())), Slots(), Scaling(sx, sy))
    {
      // the four field updates, X and Y of PointA and then of PointB
      PointA.Scale(sx, sy);
      PointB.Scale(sx, sy);
      PairTransformed(PointA, PointB, old(Values(Slots())), Scaling(sx, sy));
    }

    /** ScaleFrom: both endpoints scaled about (x, y), which stays fixed. */
    method ScaleFrom(x: real, y: real, sx: real, sy: real)
      modifies PointA, PointB
      ensures Transformed(Slots(), old(Values(Slots())), Slots(), ScalingFrom(x, y, sx, sy))
    {
      ghost var a0, b0 := PointA.Value(), PointB.Value();
      PointA.X := (PointA.X - x) * sx + x;
      PointA.Y := (PointA.Y - y) * sy + y;
      PointB.X := (PointB.X - x) * sx + x;
      PointB.Y := (PointB.Y - y) * sy + y;
      if PointA != PointB {
        assert PointA.Value() == Apply(ScalingFrom(x, y, sx, sy), a0);
        assert PointB.Value() == Apply(ScalingFrom(x, y, sx, sy), b0);
      } else {
        assert PointA.Value() == Apply(ScalingFrom(x, y, sx, sy), Apply(ScalingFrom(x, y, sx, sy), a0));
      }
      PairTransformed(PointA, PointB, old(Values(Slots())), ScalingFrom(x, y, sx, sy));
    }

    /** ScaleLocal: ScaleFrom about the midpoint, which therefore stays
        where it was, also when both endpoints are one object. */
    method ScaleLocal(sx: real, sy: real)
      modifies PointA, PointB
      ensures Transformed(Slots(), old(Values(Slots())), Slots(),
        ScalingFrom((old(PointA.X) + old(PointB.X)) / 2.0, (old(PointA.Y) + old(PointB.Y)) / 2.0, sx, sy))
      ensures MidPoint(PointA.Value(), PointB.Value()) == old(MidPoint(PointA.Value(), PointB.Value()))
    {
      var cx := (PointA.X + PointB.X) / 2.0;
      var cy := (PointA.Y + PointB.Y) / 2.0;
      ScaleFrom(cx, cy, sx, sy);
      PairTransformed(PointA, PointB, old(Values(Slots())), ScalingFrom(cx, cy, sx, sy));
      LerpPointEnds(0.0, old(PointA.Value()), old(PointB.Value()));
      if PointA != PointB {
        ScaleAboutMidPoint(old(PointA.Value()), old(PointB.Value()), sx, sy);
      } else {
        assert old(PointA.Value()) == Pos(cx, cy);
        CentreFixed(cx, cy, sx, sy, 2);
      }
    }

    /** UniScale: Scale with one factor for both axes. */
    method UniScale(scale: real)
      modifies PointA, PointB
      ensures Transformed(Slots(), old(Values(Slots())), Slots(), Scaling(scale, scale))
    {
      Scale(scale, scale);
    }

    /** UniScaleFrom: ScaleFrom with one factor for both axes. */
    method UniScaleFrom(x: real, y: real, scale: real)
      modifies PointA, PointB
      ensures Transformed(Slots(), old(Values(Slots())), Slots(), ScalingFrom(x, y, scale, scale))
    {
      ScaleFrom(x, y, scale, scale);
    }

    /** Translate: both endpoints moved by (x, y). */
    method Translate(x: real, y: real)
      modifies PointA, PointB
      ensures Transformed(Slots(), old(Values(Slots())), Slots(), Translation(x, y))
    {
      PointA.X := PointA.X + x;
      PointA.Y := PointA.Y + y;
      PointB.X := PointB.X + x;
      PointB.Y := PointB.Y + y;
      PairTransformed(PointA, PointB, old(Values(Slots())), Translation(x, y));
    }

    /** A new segment with new endpoints holding this segment's values. */
    method Copy() returns (s2: Segment)
      ensures fresh(s2) && fresh(s2.PointA) && fresh(s2.PointB) && s2.PointA != s2.PointB
      ensures s2.Value() == Value()
    {
      s2 := new Segment(PointA.X, PointA.Y, PointB.X, PointB.Y);
    }

    /** Scaled: a new segment, this one scaled; the receiver is untouched. */
    method Scaled(sx: real, sy: real) returns (s2: Segment)
      ensures fresh(s2) && fresh(s2.PointA) && fresh(s2.PointB)
      ensures s2.Value() == Seg(Apply(Scaling(sx, sy), PointA.Value()), Apply(Scaling(sx, sy), PointB.Value()))
    {
      s2 := new Segment(PointA.X * sx, PointA.Y * sy, PointB.X * sx, PointB.Y * sy);
    }

    /** ScaledFrom: a new segment, this one scaled about (x, y). */
    method ScaledFrom(x: real, y: real, sx: real, sy: real) returns (s2: Segment)
      ensures fresh(s2) && fresh(s2.PointA) && fresh(s2.PointB)
      ensures s2.Value() == Seg(Apply(ScalingFrom(x, y, sx, sy), PointA.Value()),
                                Apply(ScalingFrom(x, y, sx, sy), PointB.Value()))
    {
      s2 := Copy();
      ghost var before := Values(s2.Slots());
      s2.ScaleFrom(x, y, sx, sy);
      PairTransformed(s2.PointA, s2.PointB, before, ScalingFrom(x, y, sx, sy));
    }

    /** UniScaled: a new segment, this one scaled equally on both axes. */
    method UniScaled(scale: real) returns (s2: Segment)
      ensures fresh(s2) && fresh(s2.PointA) && fresh(s2.PointB)
      ensures s2.Value() == Seg(Apply(Scaling(scale, scale), PointA.Value()),
                                Apply(Scaling(scale, scale), PointB.Value()))
    {
      s2 := Copy();
      ghost var before := Values(s2.Slots());
      s2.UniScale(scale);
      PairTransformed(s2.PointA, s2.PointB, before, Scaling(scale, scale));
    }

    /** UniScaledFrom as written: the copy's ScaledFrom result is dropped,
        so the returned segment is an unscaled copy of the receiver. */
    method UniScaledFrom(x: real, y: real, scale: real) returns (s2: Segment)
      ensures fresh(s2) && fresh(s2.PointA) && fresh(s2.PointB)
      ensures s2.Value() == Value()
    {
      s2 := Copy();
      var _ := s2.ScaledFrom(x, y, scale, scale);
    }

    /** UniScaledFrom as intended: a new segment scaled about (x, y) by the
        same factor on both axes, as UniScaled is. */
    method UniScaledFromIntended(x: real, y: real, scale: real) returns (s2: Segment)
      ensures fresh(s2) && fresh(s2.PointA) && fresh(s2.PointB)
      ensures s2.Value() == Seg(Apply(ScalingFrom(x, y, scale, scale), PointA.Value()),
                                Apply(ScalingFrom(x, y, scale, scale), PointB.Value()))
    {
      s2 := ScaledFrom(x, y, scale, scale);
    }

    /** Translated: a new segment, this one moved by (x, y). */
    method Translated(x: real, y: real) returns (s2: Segment)
      ensures fresh(s2) && fresh(s2.PointA) && fresh(s2.PointB)
      ensures s2.Value() == Seg(Apply(Translation(x, y), PointA.Value()), Apply(Translation(x, y), PointB.Value()))
    {
      s2 := Copy();
      ghost var before := Values(s2.Slots());
      s2.Translate(x, y);
      PairTransformed(s2.PointA, s2.PointB, before, Translation(x, y));
    }
  }

  /** NewSegmentFromPoints: a segment with new endpoints holding the
      coordinates of p0 and p1, sharing neither object. */
  method NewSegmentFromPoints(p0: Point, p1: Point) returns (s: Segment)
    ensures fresh(s) && fresh(s.PointA) && fresh(s.PointB) && s.PointA != s.PointB
    ensures s.Value() == Seg(p0.Value(), p1.Value())
  {
    s := new Segment(p0.X, p0.Y, p1.X, p1.Y);
  }

  /** The product of two reals, named so that a fact about it carries
      over to the caller's arguments whole. */
  function Times(a: real, b: real): real {
    a * b
  }

  /** A product of non-zero factors is non-zero. */
  lemma ProductNonZero(d: real, e: real)
    requires d != 0.0 && e != 0.0
    ensures Times(d, e) != 0.0
  {
    if d > 0.0 {
      if e > 0.0 { assert d * e > 0.0; } else { assert d * e < 0.0; }
    } else {
      if e > 0.0 { assert d * e < 0.0; } else { assert d * e > 0.0; }
    }
  }

  /** Scaling about c by a factor other than 1 moves every v other than
      c. */
  lemma ScaleMoves(v: real, c: real, s: real)
    requires v != c && s != 1.0
    ensures (v - c) * s + c != v
  {
    ProductNonZero(v - c, s - 1.0);
    assert Times(v - c, s - 1.0) == (v - c) * (s - 1.0);
  }

  /** The as-written UniScaledFrom differs from the intended one whenever
      the scale is not 1 and an endpoint is off the centre. */
  lemma UniScaledFromDiscrepancy(p: Pos, x: real, y: real, scale: real)
    requires scale != 1.0 && p.x != x
    ensures Apply(ScalingFrom(x, y, scale, scale), p) != p
  {
    ScaleMoves(p.x, x, scale);
  }
}
