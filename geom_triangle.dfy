/** Triangle of geom/triangle.go: three vertex Point objects. As with
    Segment, the vertices are pointers: NewTriangleFromPoints keeps the
    caller's points, and the copying transforms Scaled and Translated
    build their result from the same three pointers. Point.Equals is not
    part of this model; the point equality is a parameter `peq`. */
module GeomTriangle {
  import opened GeomPoint
  import opened GeomSegment
  import GeomSegmentList
  import GeomPointList

  /** The vertices of a triangle, as values. */
  datatype Tri = Tri(a: Pos, b: Pos, c: Pos)

  /** A transform applied to each vertex once. */
  function TriMap(t: Transform, v: Tri): Tri {
    Tri(Apply(t, v.a), Apply(t, v.b), Apply(t, v.c))
  }

  /** The three edges AB, BC, CA, in that order. */
  function TriEdges(v: Tri): seq<Seg> {
    [Seg(v.a, v.b), Seg(v.b, v.c), Seg(v.c, v.a)]
  }

  /** Contains on values: p is not on the counter-clockwise side of one
      edge while on the clockwise side of another. */
  predicate TriContains(v: Tri, p: Pos) {
    var d1 := Clockwise(p, v.a, v.b);
    var d2 := Clockwise(p, v.b, v.c);
    var d3 := Clockwise(p, v.c, v.a);
    var hasCCW := !(d1 && d2 && d3);
    var hasCW := d1 || d2 || d3;
    !(hasCCW && hasCW)
  }

  /** Containment means the three clockwise tests agree; it does not
      depend on which vertex is listed first; a vertex is contained
      exactly when the triangle is not listed clockwise. */
  lemma ContainsProperties(v: Tri, p: Pos)
    ensures TriContains(v, p) <==> Clockwise(p, v.a, v.b) == Clockwise(p, v.b, v.c) == Clockwise(p, v.c, v.a)
    ensures TriContains(Tri(v.b, v.c, v.a), p) == TriContains(v, p)
    ensures TriContains(v, v.a) <==> !Clockwise(v.a, v.b, v.c)
    ensures TriContains(v, v.b) <==> !Clockwise(v.a, v.b, v.c)
  {
    ClockwiseSymmetries(v.a, v.a, v.b);
    ClockwiseSymmetries(v.a, v.b, v.c);
    ClockwiseSymmetries(v.a, v.c, v.a);
    ClockwiseSymmetries(v.b, v.a, v.b);
    ClockwiseSymmetries(v.b, v.b, v.c);
    ClockwiseSymmetries(v.b, v.c, v.a);
  }

  /** The inner test of Equals: the pair (pA, pB) matches the pair
      (pC, pD) in either order. */
  predicate TestTwo(peq: (Pos, Pos) -> bool, pA: Pos, pB: Pos, pC: Pos, pD: Pos) {
    (peq(pA, pC) && peq(pB, pD)) || (peq(pA, pD) && peq(pB, pC))
  }

  /** Equals on values: find the first vertex of o that v.a matches, then
      match the remaining two pairs in either order. */
  predicate TriEquals(peq: (Pos, Pos) -> bool, v: Tri, o: Tri) {
    if peq(v.a, o.a) then TestTwo(peq, v.b, v.c, o.b, o.c)
    else if peq(v.a, o.b) then TestTwo(peq, v.b, v.c, o.a, o.c)
    else if peq(v.a, o.c) then TestTwo(peq, v.b, v.c, o.a, o.b)
    else false
  }

  /** p matches some vertex of o. */
  predicate MatchesVertex(peq: (Pos, Pos) -> bool, p: Pos, o: Tri) {
    peq(p, o.a) || peq(p, o.b) || peq(p, o.c)
  }

  /** Some vertex of v matches q. */
  predicate MatchedByVertex(peq: (Pos, Pos) -> bool, v: Tri, q: Pos) {
    peq(v.a, q) || peq(v.b, q) || peq(v.c, q)
  }

  /** With a reflexive and symmetric point equality, a triangle equals
      each of the six orderings of its own vertices. */
  lemma TriEqualsReorderings(peq: (Pos, Pos) -> bool, v: Tri)
    requires forall p :: peq(p, p)
    requires forall p, q :: peq(p, q) ==> peq(q, p)
    ensures TriEquals(peq, v, v)
    ensures TriEquals(peq, v, Tri(v.a, v.c, v.b))
    ensures TriEquals(peq, v, Tri(v.b, v.a, v.c))
    ensures TriEquals(peq, v, Tri(v.b, v.c, v.a))
    ensures TriEquals(peq, v, Tri(v.c, v.a, v.b))
    ensures TriEquals(peq, v, Tri(v.c, v.b, v.a))
  {
    assert peq(v.a, v.a) && peq(v.b, v.b) && peq(v.c, v.c);
    assert peq(v.a, v.b) ==> peq(v.b, v.a);
    assert peq(v.a, v.c) ==> peq(v.c, v.a);
    assert peq(v.b, v.c) ==> peq(v.c, v.b);
  }

  /** Equals never holds unless every vertex of v matches a vertex of o
      and every vertex of o is matched by one of v; so a triangle with a
      vertex that matches nothing in the other (a coordinate moved by more
      than the tolerance of peq) is not equal, degenerate triangles with
      repeated vertices included. */
  lemma TriEqualsSound(peq: (Pos, Pos) -> bool, v: Tri, o: Tri)
    ensures TriEquals(peq, v, o) ==>
      MatchesVertex(peq, v.a, o) && MatchesVertex(peq, v.b, o) && MatchesVertex(peq, v.c, o) &&
      MatchedByVertex(peq, v, o.a) && MatchedByVertex(peq, v, o.b) && MatchedByVertex(peq, v, o.c)
    ensures !MatchedByVertex(peq, v, o.c) ==> !TriEquals(peq, v, o)
  {
  }

  /** Three distinct points transformed once per slot of [a, b, c] have
      each moved exactly once. */
  lemma TripleTransformed(a: Point, b: Point, c: Point, before: map<Point, Pos>, t: Transform)
    requires a != b && b != c && a != c
    requires a in before && b in before && c in before
    ensures Transformed([a, b, c], before, [a, b, c], t) ==>
      a.Value() == Apply(t, before[a]) && b.Value() == Apply(t, before[b]) && c.Value() == Apply(t, before[c])
  {
    CountSmall(a, b, c, a);
    CountSmall(a, b, c, b);
    CountSmall(a, b, c, c);
    assert ApplyN(t, before[a], 1) == Apply(t, before[a]);
    assert ApplyN(t, before[b], 1) == Apply(t, before[b]);
    assert ApplyN(t, before[c], 1) == Apply(t, before[c]);
  }

  /** Translating by a non-zero x offset, once or more, moves a point:
      the copying Translated, which moves the receiver's own vertices,
      therefore changes the receiver. */
  lemma TranslationMoves(v: Pos, x: real, y: real, n: nat)
    requires x != 0.0 && n >= 1
    ensures ApplyN(Translation(x, y), v, n) != v
  {
    ApplyNTranslation(x, y, v, n);
    assert n as real * x != 0.0;
  }

  class Triangle {
    // The vertex pointers are never reassigned; the points change in place.
    const PointA: Point
    const PointB: Point
    const PointC: Point

    /** NewTriangleFromPoints: the triangle keeps the given points
        themselves, not copies. */
    constructor (pA: Point, pB: Point, pC: Point)
      ensures PointA == pA && PointB == pB && PointC == pC
    {
      PointA := pA;
      PointB := pB;
      PointC := pC;
    }

    /** The vertex values now. */
    function Value(): Tri
      reads PointA, PointB, PointC
    {
      Tri(PointA.Value(), PointB.Value(), PointC.Value())
    }

    /** The vertex slots, A, B, C. */
    function Slots(): seq<Point>
    {
      [PointA, PointB, PointC]
    }

    /** Points: a new list holding the three vertex pointers in order. */
    method Points() returns (pl: GeomPointList.PointList)
      ensures fresh(pl)
      ensures pl.points == Slots()
    {
      pl := new GeomPointList.PointList();
      pl.Add(PointA);
      pl.Add(PointB);
      pl.Add(PointC);
    }

    /** Edges: three new segments with new endpoints, AB, BC and CA in
        that order. */
    method Edges() returns (edges: GeomSegmentList.SegmentList)
      ensures fresh(edges) && |edges.segments| == 3
      ensures forall k :: 0 <= k < 3 ==>
        fresh(edges.segments[k]) && fresh(edges.segments[k].PointA) && fresh(edges.segments[k].PointB)
      ensures forall k :: 0 <= k < 3 ==> edges.segments[k].Value() == TriEdges(Value())[k]
    {
      ghost var v := Value();
      edges := new GeomSegmentList.SegmentList();
      var ab := NewSegmentFromPoints(PointA, PointB);
      edges.Add(ab);
      var bc := NewSegmentFromPoints(PointB, PointC);
      edges.Add(bc);
      var ca := NewSegmentFromPoints(PointC, PointA);
      edges.Add(ca);
      assert edges.segments == [ab, bc, ca];
      assert ab.Value() == Seg(v.a, v.b) && bc.Value() == Seg(v.b, v.c) && ca.Value() == Seg(v.c, v.a);
    }

    /** Contains: the three clockwise tests of p against AB, BC and CA
        are all true or all false. */
    function Contains(p: Point): (b: bool)
      reads PointA, PointB, PointC, p
      ensures b <==> Clockwise(p.Value(), PointA.Value(), PointB.Value()) ==
                     Clockwise(p.Value(), PointB.Value(), PointC.Value()) ==
                     Clockwise(p.Value(), PointC.Value(), PointA.Value())
    {
      TriContains(Value(), p.Value())
    }

    /** Equals: the same object, or TriEquals on the vertex values; with a
        reflexive point equality the object shortcut changes nothing. */
    function Equals(other: Triangle, peq: (Pos, Pos) -> bool): (b: bool)
      reads PointA, PointB, PointC, other.PointA, other.PointB, other.PointC
      ensures this == other ==> b
      ensures (forall p :: peq(p, p)) ==> (b <==> TriEquals(peq, Value(), other.Value()))
    {
      if this == other then true
      else TriEquals(peq, Value(), other.Value())
    }

    /** Translate: each vertex call moves its point by (x, y); a point
        held by two vertices moves twice. */
    method Translate(x: real, y: real)
      modifies PointA, PointB, PointC
      ensures Transformed(Slots(), old(Values(Slots())), Slots(), Translation(x, y))
    {
      var t := Translation(x, y);
      ghost var slots := Slots();
      ghost var before := Values(slots);
      assert Transformed(slots, before, [], t);
      TransformPoint(PointA, t, slots, before, []);
      assert [] + [PointA] == [PointA];
      TransformPoint(PointB, t, slots, before, [PointA]);
      assert [PointA] + [PointB] == [PointA, PointB];
      TransformPoint(PointC, t, slots, before, [PointA, PointB]);
      assert [PointA, PointB] + [PointC] == slots;
    }

    /** Scale: each vertex call multiplies its point by (sx, sy). */
    method Scale(sx: real, sy: real)
      modifies PointA, PointB, PointC
      ensures Transformed(Slots(), old(Values(Slots())), Slots(), Scaling(sx, sy))
    {
      var t := Scaling(sx, sy);
      ghost var slots := Slots();
      ghost var before := Values(slots);
      assert Transformed(slots, before, [], t);
      TransformPoint(PointA, t, slots, before, []);
      assert [] + [PointA] == [PointA];
      TransformPoint(PointB, t, slots, before, [PointA]);
      assert [PointA] + [PointB] == [PointA, PointB];
      TransformPoint(PointC, t, slots, before, [PointA, PointB]);
      assert [PointA, PointB] + [PointC] == slots;
    }

    /** UniScale: Scale with one factor for both axes. */
    method UniScale(scale: real)
      modifies PointA, PointB, PointC
      ensures Transformed(Slots(), old(Values(Slots())), Slots(), Scaling(scale, scale))
    {
      Scale(scale, scale);
    }

    /** Scaled as written: the new triangle shares this triangle's three
        points and is scaled in place, so this triangle is scaled too. */
    method Scaled(sx: real, sy: real) returns (t2: Triangle)
      modifies PointA, PointB, PointC
      ensures fresh(t2) && t2.Slots() == Slots()
      ensures Transformed(Slots(), old(Values(Slots())), Slots(), Scaling(sx, sy))
    {
      t2 := new Triangle(PointA, PointB, PointC);
      t2.Scale(sx, sy);
    }

    /** UniScaled as written: Scaled with one factor, with the same
        sharing. */
    method UniScaled(scale: real) returns (t2: Triangle)
      modifies PointA, PointB, PointC
      ensures fresh(t2) && t2.Slots() == Slots()
      ensures Transformed(Slots(), old(Values(Slots())), Slots(), Scaling(scale, scale))
    {
      t2 := Scaled(scale, scale);
    }

    /** Translated as written: the new triangle shares this triangle's
        three points and is translated in place, so this triangle moves
        too. */
    method Translated(x: real, y: real) returns (t2: Triangle)
      modifies PointA, PointB, PointC
      ensures fresh(t2) && t2.Slots() == Slots()
      ensures Transformed(Slots(), old(Values(Slots())), Slots(), Translation(x, y))
    {
      t2 := new Triangle(PointA, PointB, PointC);
      t2.Translate(x, y);
    }

    /** Scaled as its doc comment promises: a new triangle on new points,
        this one left as it was. */
    method ScaledIntended(sx: real, sy: real) returns (t2: Triangle)
      ensures fresh(t2) && fresh(t2.PointA) && fresh(t2.PointB) && fresh(t2.PointC)
      ensures t2.Value() == TriMap(Scaling(sx, sy), Value())
    {
      var a := PointA.Scaled(sx, sy);
      var b := PointB.Scaled(sx, sy);
      var c := PointC.Scaled(sx, sy);
      t2 := new Triangle(a, b, c);
    }

    /** Translated as its doc comment promises: a new triangle on new
        points, this one left as it was. */
    method TranslatedIntended(x: real, y: real) returns (t2: Triangle)
      ensures fresh(t2) && fresh(t2.PointA) && fresh(t2.PointB) && fresh(t2.PointC)
      ensures t2.Value() == TriMap(Translation(x, y), Value())
    {
      var a := new Point(PointA.X + x, PointA.Y + y);
      var b := new Point(PointB.X + x, PointB.Y + y);
      var c := new Point(PointC.X + x, PointC.Y + y);
      t2 := new Triangle(a, b, c);
    }
  }

  /** NewTriangle: three new points holding the given coordinates. */
  method NewTriangle(x0: real, y0: real, x1: real, y1: real, x2: real, y2: real) returns (t: Triangle)
    ensures fresh(t) && fresh(t.PointA) && fresh(t.PointB) && fresh(t.PointC)
    ensures t.PointA != t.PointB && t.PointB != t.PointC && t.PointA != t.PointC
    ensures t.Value() == Tri(Pos(x0, y0), Pos(x1, y1), Pos(x2, y2))
  {
    var a := new Point(x0, y0);
    var b := new Point(x1, y1);
    var c := new Point(x2, y2);
    t := new Triangle(a, b, c);
  }
}
