/** Line of geom/line.go: two endpoints like a segment, but the collision
    tests treat it as unbounded. No modelled operation changes a line, so
    it is a value holding copies of its endpoint coordinates. */
module GeomLine {
  import BlMath
  import opened GeomPoint
  import opened GeomSegment
  import opened GeomVector
  import opened GeomCollision

  datatype Line = Line(a: Pos, b: Pos)

  /** NewLine: the line through (x0, y0) and (x1, y1). */
  function NewLine(x0: real, y0: real, x1: real, y1: real): (l: Line)
    ensures l.a.x == x0 && l.a.y == y0 && l.b.x == x1 && l.b.y == y1
  {
    Line(Pos(x0, y0), Pos(x1, y1))
  }

  /** NewLineFromPoints: copies the coordinates of the two points. */
  function NewLineFromPoints(p0: Pos, p1: Pos): (l: Line)
    ensures l.a == p0 && l.b == p1
  {
    NewLine(p0.x, p0.y, p1.x, p1.y)
  }

  /** NewLineFromSegment: copies the coordinates of the segment's ends. */
  function NewLineFromSegment(s: Seg): (l: Line)
    ensures l.a == s.a && l.b == s.b
  {
    NewLine(s.a.x, s.a.y, s.b.x, s.b.y)
  }

  /** The direction of a line, from its first point to its second. */
  function Direction(l: Line): Vector {
    VectorBetween(l.a.x, l.a.y, l.b.x, l.b.y)
  }

  /** Perpendicular: the line from p along the direction turned a quarter
      turn, so it starts at p, is orthogonal to l and as long as l. */
  function Perpendicular(l: Line, p: Pos): (r: Line)
    ensures r.a == p
    ensures DotProduct(Direction(r), Direction(l)) == 0.0
    ensures DotProduct(Direction(r), Direction(r)) == DotProduct(Direction(l), Direction(l))
    ensures CrossProduct(Direction(l), Direction(r)) == DotProduct(Direction(l), Direction(l))
  {
    var dx := l.b.x - l.a.x;
    var dy := l.b.y - l.a.y;
    NewLine(p.x, p.y, p.x - dy, p.y + dx)
  }

  /** HitSegment: the segment is the first, parameter-bounded operand of
      SegmentOnLine and the line the second. A hit lies on the segment and
      on the line; parallel directions never hit. */
  function HitSegment(l: Line, s: Seg): (r: Hit)
    ensures !r.hit ==> r == Miss
    ensures Parallel(s.a.x, s.a.y, s.b.x, s.b.y, l.a.x, l.a.y, l.b.x, l.b.y) ==> !r.hit
    ensures r.hit ==> OnSegment(r.x, r.y, s.a.x, s.a.y, s.b.x, s.b.y) && OnLine(r.x, r.y, l.a.x, l.a.y, l.b.x, l.b.y)
  {
    SegmentOnLineMeaning(s.a.x, s.a.y, s.b.x, s.b.y, l.a.x, l.a.y, l.b.x, l.b.y);
    SegmentOnLine(s.a.x, s.a.y, s.b.x, s.b.y, l.a.x, l.a.y, l.b.x, l.b.y)
  }

  /** HitLine: LineOnLine of the two lines. It misses exactly when the
      directions are parallel within 1e-5, and a hit lies on both lines. */
  function HitLine(l: Line, m: Line): (r: Hit)
    ensures r.hit <==> !BlMath.Equalish(CrossProduct(Direction(l), Direction(m)), 0.0, ParallelTolerance)
    ensures !r.hit ==> r == Miss
    ensures r.hit ==> OnLine(r.x, r.y, l.a.x, l.a.y, l.b.x, l.b.y) && OnLine(r.x, r.y, m.a.x, m.a.y, m.b.x, m.b.y)
  {
    LineOnLineMeaning(l.a.x, l.a.y, l.b.x, l.b.y, m.a.x, m.a.y, m.b.x, m.b.y);
    LineOnLine(l.a.x, l.a.y, l.b.x, l.b.y, m.a.x, m.a.y, m.b.x, m.b.y)
  }

  /** Whether two lines hit does not depend on their order, and a line
      never hits itself or its own reversal. */
  lemma HitLineSymmetric(l: Line, m: Line)
    ensures HitLine(l, m).hit == HitLine(m, l).hit
    ensures !HitLine(l, l).hit
    ensures !HitLine(l, Line(l.b, l.a)).hit
  {
    VectorAlgebra(Direction(l), Direction(m));
    VectorAlgebra(Direction(l), Direction(l));
    assert CrossProduct(Direction(l), Direction(Line(l.b, l.a))) == 0.0;
  }
}
