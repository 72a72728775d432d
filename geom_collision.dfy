/** The collision tests of geom/collision.go, on coordinates. The line and
    segment tests solve p0 + t1·v0 = p2 + t2·v1 by Cramer's rule; they
    give up when the cross product of the directions is within 1e-5 of
    zero, and otherwise return the point at t1 on the first operand. A
    result is the Go triple (x, y, hit), which is (0, 0, false) on a
    miss. */
module GeomCollision {
  import BlMath
  import opened GeomUtils
  import opened GeomVector

  datatype Hit = Hit(x: real, y: real, hit: bool)

  /** The tolerance below which two directions count as parallel. */
  const ParallelTolerance: real := 0.00001

  /** The Go result of a miss. */
  const Miss: Hit := Hit(0.0, 0.0, false)

  /** The directions of (x0, y0)-(x1, y1) and (x2, y2)-(x3, y3) are
      parallel within the tolerance. */
  predicate Parallel(x0: real, y0: real, x1: real, y1: real, x2: real, y2: real, x3: real, y3: real) {
    BlMath.Equalish(CrossProduct(VectorBetween(x0, y0, x1, y1), VectorBetween(x2, y2, x3, y3)), 0.0, ParallelTolerance)
  }

  /** The parameter t1 along the first operand where the two lines cross. */
  function T1(x0: real, y0: real, x1: real, y1: real, x2: real, y2: real, x3: real, y3: real): real
    requires !Parallel(x0, y0, x1, y1, x2, y2, x3, y3)
  {
    var v0 := VectorBetween(x0, y0, x1, y1);
    var v1 := VectorBetween(x2, y2, x3, y3);
    var delta := VectorBetween(x0, y0, x2, y2);
    (delta.u * v1.v - delta.v * v1.u) / CrossProduct(v0, v1)
  }

  /** The parameter t2 along the second operand where the two lines cross. */
  function T2(x0: real, y0: real, x1: real, y1: real, x2: real, y2: real, x3: real, y3: real): real
    requires !Parallel(x0, y0, x1, y1, x2, y2, x3, y3)
  {
    var v0 := VectorBetween(x0, y0, x1, y1);
    var v1 := VectorBetween(x2, y2, x3, y3);
    var delta := VectorBetween(x0, y0, x2, y2);
    (delta.u * v0.v - delta.v * v0.u) / CrossProduct(v0, v1)
  }

  /** (px, py) is on the segment from (x0, y0) to (x1, y1). */
  ghost predicate OnSegment(px: real, py: real, x0: real, y0: real, x1: real, y1: real) {
    exists t :: 0.0 <= t <= 1.0 && px == BlMath.Lerp(t, x0, x1) && py == BlMath.Lerp(t, y0, y1)
  }

  /** (px, py) is on the infinite line through (x2, y2) and (x3, y3). */
  predicate OnLine(px: real, py: real, x2: real, y2: real, x3: real, y3: real) {
    CrossProduct(VectorBetween(x2, y2, px, py), VectorBetween(x2, y2, x3, y3)) == 0.0
  }

  /** PointInRect: inside the rectangle or on any of its four edges. */
  predicate PointInRect(x: real, y: real, rx: real, ry: real, rw: real, rh: real) {
    x >= rx && x <= rx + rw && y >= ry && y <= ry + rh
  }

  /** PointInPolygon is unimplemented in the source and always false. */
  function PointInPolygon(x: real, y: real, points: seq<real>): (b: bool)
    ensures !b
  {
    false
  }

  /** SegmentOnLine: the first operand is a segment, the second a line. */
  function SegmentOnLine(x0: real, y0: real, x1: real, y1: real, x2: real, y2: real, x3: real, y3: real): (r: Hit)
    ensures !r.hit ==> r == Miss
    ensures Parallel(x0, y0, x1, y1, x2, y2, x3, y3) ==> !r.hit
  {
    if Parallel(x0, y0, x1, y1, x2, y2, x3, y3) then Miss
    else
      var t1 := T1(x0, y0, x1, y1, x2, y2, x3, y3);
      if TIsValid(t1) then Hit(BlMath.Lerp(t1, x0, x1), BlMath.Lerp(t1, y0, y1), true) else Miss
  }

  /** SegmentOnSegment: both operands are segments. */
  function SegmentOnSegment(x0: real, y0: real, x1: real, y1: real, x2: real, y2: real, x3: real, y3: real): (r: Hit)
    ensures !r.hit ==> r == Miss
    ensures Parallel(x0, y0, x1, y1, x2, y2, x3, y3) ==> !r.hit
  {
    if Parallel(x0, y0, x1, y1, x2, y2, x3, y3) then Miss
    else
      var t1 := T1(x0, y0, x1, y1, x2, y2, x3, y3);
      var t2 := T2(x0, y0, x1, y1, x2, y2, x3, y3);
      if TIsValid(t1) && TIsValid(t2) then Hit(BlMath.Lerp(t1, x0, x1), BlMath.Lerp(t1, y0, y1), true) else Miss
  }

  /** LineOnLine: both operands are infinite lines. */
  function LineOnLine(x0: real, y0: real, x1: real, y1: real, x2: real, y2: real, x3: real, y3: real): (r: Hit)
    ensures !r.hit ==> r == Miss
    ensures r.hit <==> !Parallel(x0, y0, x1, y1, x2, y2, x3, y3)
  {
    if Parallel(x0, y0, x1, y1, x2, y2, x3, y3) then Miss
    else
      var t1 := T1(x0, y0, x1, y1, x2, y2, x3, y3);
      Hit(BlMath.Lerp(t1, x0, x1), BlMath.Lerp(t1, y0, y1), true)
  }

  /** RectOnRect: false exactly when one rectangle lies wholly to one
      side of the other. */
  predicate RectOnRect(x0: real, y0: real, w0: real, h0: real, x1: real, y1: real, w1: real, h1: real) {
    !(x1 > x0 + w0 || x1 + w1 < x0 || y1 > y0 + h0 || y1 + h1 < y0)
  }

  /** SegmentOnRect: the segment hits one of the four sides, taken in the
      order top, right, bottom, left. */
  predicate SegmentOnRect(x0: real, y0: real, x1: real, y1: real, rx: real, ry: real, rw: real, rh: real) {
    SegmentOnSegment(x0, y0, x1, y1, rx, ry, rx + rw, ry).hit ||
    SegmentOnSegment(x0, y0, x1, y1, rx + rw, ry, rx + rw, ry + rh).hit ||
    SegmentOnSegment(x0, y0, x1, y1, rx + rw, ry + rh, rx, ry + rh).hit ||
    SegmentOnSegment(x0, y0, x1, y1, rx, ry + rh, rx, ry).hit
  }

  /** (px, py) is on one of the four sides of the rectangle. */
  ghost predicate OnRectSide(px: real, py: real, rx: real, ry: real, rw: real, rh: real) {
    OnSegment(px, py, rx, ry, rx + rw, ry) || OnSegment(px, py, rx + rw, ry, rx + rw, ry + rh) ||
    OnSegment(px, py, rx + rw, ry + rh, rx, ry + rh) || OnSegment(px, py, rx, ry + rh, rx, ry)
  }

  // ---------------------------------------------------------------------
  // The crossing point.

  /** The point at t1 on the first line lies on the second line. */
  lemma CrossingOnLine(x0: real, y0: real, x1: real, y1: real, x2: real, y2: real, x3: real, y3: real)
    requires !Parallel(x0, y0, x1, y1, x2, y2, x3, y3)
    ensures var t1 := T1(x0, y0, x1, y1, x2, y2, x3, y3);
      OnLine(BlMath.Lerp(t1, x0, x1), BlMath.Lerp(t1, y0, y1), x2, y2, x3, y3)
  {
    var v0 := VectorBetween(x0, y0, x1, y1);
    var v1 := VectorBetween(x2, y2, x3, y3);
    var d := VectorBetween(x0, y0, x2, y2);
    var c := CrossProduct(v0, v1);
    var n1 := d.u * v1.v - d.v * v1.u;
    var t1 := n1 / c;
    BlMath.DivMul(n1, c);
    // (t1·v0 − d) × v1 = t1·c − n1 = 0
    assert CrossProduct(Vector(t1 * v0.u - d.u, t1 * v0.v - d.v), v1) == t1 * c - n1;
  }

  /** The point at t1 on the first line is the point at t2 on the
      second. */
  lemma CrossingPoint(x0: real, y0: real, x1: real, y1: real, x2: real, y2: real, x3: real, y3: real)
    requires !Parallel(x0, y0, x1, y1, x2, y2, x3, y3)
    ensures var t1, t2 := T1(x0, y0, x1, y1, x2, y2, x3, y3), T2(x0, y0, x1, y1, x2, y2, x3, y3);
      BlMath.Lerp(t1, x0, x1) == BlMath.Lerp(t2, x2, x3) && BlMath.Lerp(t1, y0, y1) == BlMath.Lerp(t2, y2, y3)
  {
    MeetOnBothAxes(x0, y0, x1 - x0, y1 - y0, x2, y2, x3 - x2, y3 - y2);
  }

  /** Two lines from (x0, y0) along w0 and from (x2, y2) along w1, with
      a non-zero cross product c, meet at the parameters n1 / c and
      n2 / c given by Cramer's rule. */
  lemma MeetOnBothAxes(x0: real, y0: real, wu0: real, wv0: real, x2: real, y2: real, wu1: real, wv1: real)
    requires wu0 * wv1 - wv0 * wu1 != 0.0
    ensures var du, dv, c := x2 - x0, y2 - y0, wu0 * wv1 - wv0 * wu1;
      var n1, n2 := du * wv1 - dv * wu1, du * wv0 - dv * wu0;
      x0 + wu0 * (n1 / c) == x2 + wu1 * (n2 / c) && y0 + wv0 * (n1 / c) == y2 + wv1 * (n2 / c)
  {
    var du, dv, c := x2 - x0, y2 - y0, wu0 * wv1 - wv0 * wu1;
    var n1, n2 := du * wv1 - dv * wu1, du * wv0 - dv * wu0;
    Cramer(du, dv, wu0, wv0, wu1, wv1);
    assert n1 * wu0 - n2 * wu1 == du * c;
    assert n1 * wv0 - n2 * wv1 == dv * c;
    AxisMeet(x0, wu0, x2, wu1, n1, n2, c);
    AxisMeet(y0, wv0, y2, wv1, n1, n2, c);
  }

  /** Cramer's rule for the offset d between the starts of directions a
      and b: the two numerators combine to d times the cross product. */
  lemma Cramer(du: real, dv: real, au: real, av: real, bu: real, bv: real)
    ensures (du * bv - dv * bu) * au - (du * av - dv * au) * bu == du * (au * bv - av * bu)
    ensures (du * bv - dv * bu) * av - (du * av - dv * au) * bv == dv * (au * bv - av * bu)
  {
  }

  /** One axis of the crossing: with t1 = n1 / c and t2 = n2 / c, the
      points p0 + w0·t1 and p2 + w1·t2 agree when n1·w0 − n2·w1 is c
      times their starting offset. */
  lemma AxisMeet(p0: real, w0: real, p2: real, w1: real, n1: real, n2: real, c: real)
    requires c != 0.0 && n1 * w0 - n2 * w1 == (p2 - p0) * c
    ensures p0 + w0 * (n1 / c) == p2 + w1 * (n2 / c)
  {
    var t1, t2 := n1 / c, n2 / c;
    BlMath.DivMul(n1, c);
    BlMath.DivMul(n2, c);
    assert (t1 * w0 - t2 * w1) * c == (t1 * c) * w0 - (t2 * c) * w1;
    CancelNonZero(t1 * w0 - t2 * w1, p2 - p0, c);
  }

  /** A non-zero factor cancels. */
  lemma CancelNonZero(a: real, b: real, c: real)
    requires c != 0.0 && a * c == b * c
    ensures a == b
  {
    assert (a - b) * c == 0.0;
  }

  /** A point at a parameter in [0, 1] is on the segment and within its
      bounding box. */
  lemma OnSegmentAt(t: real, x0: real, y0: real, x1: real, y1: real)
    requires 0.0 <= t <= 1.0
    ensures OnSegment(BlMath.Lerp(t, x0, x1), BlMath.Lerp(t, y0, y1), x0, y0, x1, y1)
    ensures BlMath.RMin(x0, x1) <= BlMath.Lerp(t, x0, x1) <= BlMath.RMax(x0, x1)
    ensures BlMath.RMin(y0, y1) <= BlMath.Lerp(t, y0, y1) <= BlMath.RMax(y0, y1)
  {
    BlMath.ScaledStep(x1 - x0, t);
    BlMath.ScaledStep(y1 - y0, t);
  }

  /** SegmentOnLine hits exactly when the directions are not parallel and
      the crossing is within the segment; the point is on the segment and
      on the line. */
  lemma SegmentOnLineMeaning(x0: real, y0: real, x1: real, y1: real, x2: real, y2: real, x3: real, y3: real)
    ensures var r := SegmentOnLine(x0, y0, x1, y1, x2, y2, x3, y3);
      r.hit <==> !Parallel(x0, y0, x1, y1, x2, y2, x3, y3) && TIsValid(T1(x0, y0, x1, y1, x2, y2, x3, y3))
    ensures var r := SegmentOnLine(x0, y0, x1, y1, x2, y2, x3, y3);
      r.hit ==> OnSegment(r.x, r.y, x0, y0, x1, y1) && OnLine(r.x, r.y, x2, y2, x3, y3)
  {
    if !Parallel(x0, y0, x1, y1, x2, y2, x3, y3) {
      var t1 := T1(x0, y0, x1, y1, x2, y2, x3, y3);
      CrossingOnLine(x0, y0, x1, y1, x2, y2, x3, y3);
      if TIsValid(t1) {
        OnSegmentAt(t1, x0, y0, x1, y1);
      }
    }
  }

  /** SegmentOnSegment hits exactly when the directions are not parallel
      and the crossing is within both segments; the point is on both
      segments, so inside the first segment's bounding box. */
  lemma SegmentOnSegmentMeaning(x0: real, y0: real, x1: real, y1: real, x2: real, y2: real, x3: real, y3: real)
    ensures var r := SegmentOnSegment(x0, y0, x1, y1, x2, y2, x3, y3);
      r.hit <==> !Parallel(x0, y0, x1, y1, x2, y2, x3, y3) &&
                 TIsValid(T1(x0, y0, x1, y1, x2, y2, x3, y3)) && TIsValid(T2(x0, y0, x1, y1, x2, y2, x3, y3))
    ensures var r := SegmentOnSegment(x0, y0, x1, y1, x2, y2, x3, y3);
      r.hit ==> OnSegment(r.x, r.y, x0, y0, x1, y1) && OnSegment(r.x, r.y, x2, y2, x3, y3)
    ensures var r := SegmentOnSegment(x0, y0, x1, y1, x2, y2, x3, y3);
      r.hit ==> BlMath.RMin(x0, x1) <= r.x <= BlMath.RMax(x0, x1) && BlMath.RMin(y0, y1) <= r.y <= BlMath.RMax(y0, y1)
  {
    if !Parallel(x0, y0, x1, y1, x2, y2, x3, y3) {
      var t1 := T1(x0, y0, x1, y1, x2, y2, x3, y3);
      var t2 := T2(x0, y0, x1, y1, x2, y2, x3, y3);
      CrossingPoint(x0, y0, x1, y1, x2, y2, x3, y3);
      if TIsValid(t1) && TIsValid(t2) {
        OnSegmentAt(t1, x0, y0, x1, y1);
        OnSegmentAt(t2, x2, y2, x3, y3);
      }
    }
  }

  /** LineOnLine returns the crossing at the unrestricted parameter t1
      along the first line, and it lies on both lines. */
  lemma LineOnLineMeaning(x0: real, y0: real, x1: real, y1: real, x2: real, y2: real, x3: real, y3: real)
    ensures var r := LineOnLine(x0, y0, x1, y1, x2, y2, x3, y3);
      r.hit ==> r.x == BlMath.Lerp(T1(x0, y0, x1, y1, x2, y2, x3, y3), x0, x1) &&
                r.y == BlMath.Lerp(T1(x0, y0, x1, y1, x2, y2, x3, y3), y0, y1)
    ensures var r := LineOnLine(x0, y0, x1, y1, x2, y2, x3, y3);
      r.hit ==> OnLine(r.x, r.y, x0, y0, x1, y1) && OnLine(r.x, r.y, x2, y2, x3, y3)
  {
    if !Parallel(x0, y0, x1, y1, x2, y2, x3, y3) {
      var t1 := T1(x0, y0, x1, y1, x2, y2, x3, y3);
      CrossingOnLine(x0, y0, x1, y1, x2, y2, x3, y3);
      OnOwnLine(t1, x0, y0, x1, y1);
    }
  }

  /** Every point at a parameter along a line is on that line. */
  lemma OnOwnLine(t: real, x0: real, y0: real, x1: real, y1: real)
    ensures OnLine(BlMath.Lerp(t, x0, x1), BlMath.Lerp(t, y0, y1), x0, y0, x1, y1)
  {
    var dx, dy := x1 - x0, y1 - y0;
    assert CrossProduct(Vector(dx * t, dy * t), Vector(dx, dy)) == t * (dx * dy - dy * dx);
  }

  /** RectOnRect is symmetric; two rectangles sharing a point overlap;
      and for non-negative sizes overlapping rectangles share the corner
      made of the larger x and the larger y. */
  lemma RectOnRectMeaning(x0: real, y0: real, w0: real, h0: real, x1: real, y1: real, w1: real, h1: real,
                          px: real, py: real)
    ensures RectOnRect(x0, y0, w0, h0, x1, y1, w1, h1) == RectOnRect(x1, y1, w1, h1, x0, y0, w0, h0)
    ensures PointInRect(px, py, x0, y0, w0, h0) && PointInRect(px, py, x1, y1, w1, h1) ==>
      RectOnRect(x0, y0, w0, h0, x1, y1, w1, h1)
    ensures w0 >= 0.0 && h0 >= 0.0 && w1 >= 0.0 && h1 >= 0.0 && RectOnRect(x0, y0, w0, h0, x1, y1, w1, h1) ==>
      var cx, cy := BlMath.RMax(x0, x1), BlMath.RMax(y0, y1);
      PointInRect(cx, cy, x0, y0, w0, h0) && PointInRect(cx, cy, x1, y1, w1, h1)
  {
  }

  /** When SegmentOnRect holds, the point SegmentOnSegment found is on the
      segment and on a side of the rectangle. */
  lemma SegmentOnRectMeaning(x0: real, y0: real, x1: real, y1: real, rx: real, ry: real, rw: real, rh: real)
    requires SegmentOnRect(x0, y0, x1, y1, rx, ry, rw, rh)
    ensures exists px, py :: OnSegment(px, py, x0, y0, x1, y1) && OnRectSide(px, py, rx, ry, rw, rh)
  {
    var r := SegmentOnSegment(x0, y0, x1, y1, rx, ry, rx + rw, ry);
    SegmentOnSegmentMeaning(x0, y0, x1, y1, rx, ry, rx + rw, ry);
    if !r.hit {
      r := SegmentOnSegment(x0, y0, x1, y1, rx + rw, ry, rx + rw, ry + rh);
      SegmentOnSegmentMeaning(x0, y0, x1, y1, rx + rw, ry, rx + rw, ry + rh);
      if !r.hit {
        r := SegmentOnSegment(x0, y0, x1, y1, rx + rw, ry + rh, rx, ry + rh);
        SegmentOnSegmentMeaning(x0, y0, x1, y1, rx + rw, ry + rh, rx, ry + rh);
        if !r.hit {
          r := SegmentOnSegment(x0, y0, x1, y1, rx, ry + rh, rx, ry);
          SegmentOnSegmentMeaning(x0, y0, x1, y1, rx, ry + rh, rx, ry);
        }
      }
    }
    assert OnSegment(r.x, r.y, x0, y0, x1, y1) && OnRectSide(r.x, r.y, rx, ry, rw, rh);
  }
}
