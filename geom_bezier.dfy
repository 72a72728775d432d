/** BezierCurve of geom/bezier.go: four shared control points and a
    segmented path of points on the cubic curve, rebuilt whenever the
    segment count changes. The path is computed from the control points'
    positions at that moment; moving a control point later leaves the
    path as it was. */
module GeomBezier {
  import opened GeomPoint

  /** The segment count NewBezierCurve starts with. */
  const DefaultSegCount: int := 200

  /** The number of points makeSegPath produces for a count: count + 1,
      or none when the count is negative. */
  function PathLength(count: int): nat {
    if count < 0 then 0 else count + 1
  }

  class BezierCurve {
    var P0: Point
    var P1: Point
    var P2: Point
    var P3: Point
    var path: seq<Point>
    var segCount: int

    /** The curve point at parameter t for the control points' current
        positions. */
    function At(t: real): Pos
      reads this, P0, P1, P2, P3
    {
      BezierPoint(t, P0.Value(), P1.Value(), P2.Value(), P3.Value())
    }

    /** Point i of the path is the curve at i / segCount. */
    predicate PathFits()
      reads this, P0, P1, P2, P3, set p | p in path
    {
      segCount != 0 && |path| == PathLength(segCount) &&
      forall i :: 0 <= i < |path| ==> path[i].Value() == At(i as real / segCount as real)
    }

    /** NewBezierCurve: the control points given, 200 segments, and a path
        of 201 points on the curve. */
    constructor (p0: Point, p1: Point, p2: Point, p3: Point)
      ensures P0 == p0 && P1 == p1 && P2 == p2 && P3 == p3
      ensures segCount == DefaultSegCount && |path| == 201
      ensures PathFits()
    {
      P0, P1, P2, P3 := p0, p1, p2, p3;
      path := [];
      segCount := DefaultSegCount;
      new;
      MakeSegPath();
    }

    /** makeSegPath: segCount + 1 new points, point i at t = i / segCount.
        A zero count is excluded: the source divides 0 by 0 there. */
    method MakeSegPath()
      requires segCount != 0
      modifies this
      ensures P0 == old(P0) && P1 == old(P1) && P2 == old(P2) && P3 == old(P3) && segCount == old(segCount)
      ensures PathFits()
      ensures forall i :: 0 <= i < |path| ==> fresh(path[i])
    {
      var count := segCount as real;
      var ps: seq<Point> := [];
      var i := 0;
      while i <= segCount
        modifies {}
        invariant 0 <= i && (segCount >= 0 ==> i <= segCount + 1) && (segCount < 0 ==> i == 0)
        invariant |ps| == i
        invariant forall k :: 0 <= k < i ==> fresh(ps[k]) && ps[k].Value() == At(k as real / count)
      {
        var t := i as real / count;
        var q := Point(t);
        ps := ps + [q];
        i := i + 1;
      }
      path := ps;
    }

    /** Point: a new point on the curve at parameter t. */
    method Point(t: real) returns (q: Point)
      ensures fresh(q) && q.Value() == At(t)
    {
      var v := BezierPoint(t, P0.Value(), P1.Value(), P2.Value(), P3.Value());
      q := new Point(v.x, v.y);
    }

    /** SetSegmentCount: stores the count and rebuilds the path. */
    method SetSegmentCount(count: int)
      requires count != 0
      modifies this
      ensures segCount == count && GetSegmentCount() == count
      ensures P0 == old(P0) && P1 == old(P1) && P2 == old(P2) && P3 == old(P3)
      ensures PathFits() && |GetPath()| == PathLength(count)
    {
      segCount := count;
      MakeSegPath();
    }

    /** GetSegmentCount: the stored count. */
    function GetSegmentCount(): (n: int)
      reads this
      ensures n == segCount
    {
      segCount
    }

    /** GetPath: the stored path itself, not a copy of its points. */
    function GetPath(): (r: seq<Point>)
      reads this
      ensures r == path
    {
      path
    }

    /** A fitted path with at least one segment starts at P0 and ends at
        P3. */
    lemma PathEnds()
      requires PathFits() && segCount >= 1
      ensures path[0].Value() == P0.Value()
      ensures path[segCount].Value() == P3.Value()
    {
      BezierEnds(0.0, P0.Value(), P1.Value(), P2.Value(), P3.Value());
      assert 0 as real / segCount as real == 0.0;
      assert segCount as real / segCount as real == 1.0;
    }
  }
}
