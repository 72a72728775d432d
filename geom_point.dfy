/** Point of geom/point.go. A Point object is mutable and may be shared by
    several segments, triangles or lists; `Pos` is the value it holds at a
    given moment, on which the pure operations are stated. */
module GeomPoint {
  import BlMath

  /** The coordinates of a point, as a value. */
  datatype Pos = Pos(x: real, y: real)

  /** The in-place transforms a point undergoes: Translate, Scale (and
      UniScale as Scale with equal factors) and the fixed-point scaling
      that ScaleFrom performs on segment endpoints. */
  datatype Transform =
    | Translation(dx: real, dy: real)
    | Scaling(sx: real, sy: real)
    | ScalingFrom(cx: real, cy: real, fx: real, fy: real)

  /** The position after one application of t. */
  function Apply(t: Transform, p: Pos): Pos {
    match t
    case Translation(dx, dy) => Pos(p.x + dx, p.y + dy)
    case Scaling(sx, sy) => Pos(p.x * sx, p.y * sy)
    case ScalingFrom(cx, cy, fx, fy) => Pos((p.x - cx) * fx + cx, (p.y - cy) * fy + cy)
  }

  /** The position after n applications of t, as a point listed n times in
      a transformed collection ends up. */
  function ApplyN(t: Transform, p: Pos, n: nat): Pos {
    if n == 0 then p else Apply(t, ApplyN(t, p, n - 1))
  }

  /** n translations add up to one translation by n times the offset. */
  lemma {:induction false} ApplyNTranslation(dx: real, dy: real, p: Pos, n: nat)
    ensures ApplyN(Translation(dx, dy), p, n) == Pos(p.x + n as real * dx, p.y + n as real * dy)
  {
    if n > 0 {
      ApplyNTranslation(dx, dy, p, n - 1);
      var m := (n - 1) as real;
      assert m * dx + dx == n as real * dx && m * dy + dy == n as real * dy;
    }
  }

  lemma PowerStep(x: real, s: real, n: nat)
    requires n > 0
    ensures (x * Power(s, n - 1)) * s == x * Power(s, n)
  {
    var k := Power(s, n - 1);
    assert Power(s, n) == k * s;
  }

  /** n scalings add up to one scaling by the n-th powers of the factors. */
  lemma {:induction false} ApplyNScaling(sx: real, sy: real, p: Pos, n: nat)
    ensures ApplyN(Scaling(sx, sy), p, n) == Pos(p.x * Power(sx, n), p.y * Power(sy, n))
  {
    if n > 0 {
      ApplyNScaling(sx, sy, p, n - 1);
      PowerStep(p.x, sx, n);
      PowerStep(p.y, sy, n);
    }
  }

  function Power(b: real, n: nat): real {
    if n == 0 then 1.0 else Power(b, n - 1) * b
  }

  class Point {
    var X: real
    var Y: real

    /** NewPoint: a point holding x and y. */
    constructor (x: real, y: real)
      ensures X == x && Y == y
    {
      X := x;
      Y := y;
    }

    /** The value the point holds now. */
    function Value(): Pos
      reads this
    {
      Pos(X, Y)
    }

    /** Coords: the two coordinates, X first. */
    function Coords(): (c: (real, real))
      reads this
      ensures Pos(c.0, c.1) == Value()
    {
      (X, Y)
    }

    /** Translate: X and Y move by x and y. */
    method Translate(x: real, y: real)
      modifies this
      ensures Value() == Apply(Translation(x, y), old(Value()))
    {
      X := X + x;
      Y := Y + y;
    }

    /** Scale: X and Y are multiplied by their factors. */
    method Scale(scaleX: real, scaleY: real)
      modifies this
      ensures Value() == Apply(Scaling(scaleX, scaleY), old(Value()))
    {
      X := X * scaleX;
      Y := Y * scaleY;
    }

    /** UniScale: both coordinates are multiplied by the same factor. */
    method UniScale(scale: real)
      modifies this
      ensures Value() == Apply(Scaling(scale, scale), old(Value()))
    {
      X := X * scale;
      Y := Y * scale;
    }

    /** Scaled: a new point, the receiver scaled; the receiver is left as
        it was (the method changes nothing). */
    method Scaled(scaleX: real, scaleY: real) returns (q: Point)
      ensures fresh(q)
      ensures q.Value() == Apply(Scaling(scaleX, scaleY), Value())
    {
      q := new Point(X * scaleX, Y * scaleY);
    }

    /** UniScaled: a new point, the receiver scaled equally on both axes. */
    method UniScaled(scale: real) returns (q: Point)
      ensures fresh(q)
      ensures q.Value() == Apply(Scaling(scale, scale), Value())
    {
      q := new Point(X * scale, Y * scale);
    }
  }

  /** The number of slots of ps that hold the object p. */
  function Count(ps: seq<Point>, p: Point): (n: nat)
    ensures n <= |ps|
    ensures n == 0 <==> p !in ps
  {
    if ps == [] then 0
    else
      assert ps == ps[..|ps| - 1] + [ps[|ps| - 1]];
      Count(ps[..|ps| - 1], p) + (if ps[|ps| - 1] == p then 1 else 0)
  }

  /** Counting over a concatenation adds the counts. */
  lemma {:induction false} CountAppend(a: seq<Point>, b: seq<Point>, p: Point)
    ensures Count(a + b, p) == Count(a, p) + Count(b, p)
  {
    if b != [] {
      assert (a + b)[..|a + b| - 1] == a + b[..|b| - 1];
      CountAppend(a, b[..|b| - 1], p);
    } else {
      assert a + b == a;
    }
  }

  /** Counting in a literal pair or triple of slots. */
  lemma CountSmall(a: Point, b: Point, c: Point, p: Point)
    ensures Count([a, b], p) == (if a == p then 1 else 0) + (if b == p then 1 else 0)
    ensures Count([a, b, c], p) == Count([a, b], p) + (if c == p then 1 else 0)
  {
    assert [a, b][..1] == [a];
    assert [a, b, c][..2] == [a, b];
    assert [a][..0] == [];
  }

  /** The values held by the objects listed in ps, keyed by object. */
  function Values(ps: seq<Point>): (m: map<Point, Pos>)
    reads ps
    ensures forall p :: p in ps ==> p in m && m[p] == p.Value()
  {
    map p | p in ps :: p.Value()
  }

  /** Every point listed in ps holds its value in `before` with t applied
      once for each slot of done that holds it: the state an in-place
      transform of a collection leaves behind, shared points included. */
  predicate Transformed(ps: seq<Point>, before: map<Point, Pos>, done: seq<Point>, t: Transform)
    reads ps
  {
    forall p :: p in ps ==> p in before && p.Value() == ApplyN(t, before[p], Count(done, p))
  }

  /** For the two slots of a segment, Transformed means: each endpoint
      moved once, or the one shared endpoint moved twice. */
  lemma PairTransformed(a: Point, b: Point, before: map<Point, Pos>, t: Transform)
    requires a in before && b in before
    ensures Transformed([a, b], before, [a, b], t) <==>
      if a != b then a.Value() == Apply(t, before[a]) && b.Value() == Apply(t, before[b])
      else a.Value() == Apply(t, Apply(t, before[a]))
  {
    CountSmall(a, b, b, a);
    CountSmall(a, b, b, b);
    assert ApplyN(t, before[a], 1) == Apply(t, before[a]);
    assert ApplyN(t, before[b], 1) == Apply(t, before[b]);
    assert ApplyN(t, before[a], 2) == Apply(t, Apply(t, before[a]));
  }

  /** m applications followed by n are m + n applications. */
  lemma {:induction false} ApplyNAdd(t: Transform, v: Pos, m: nat, n: nat)
    ensures ApplyN(t, ApplyN(t, v, m), n) == ApplyN(t, v, m + n)
  {
    if n > 0 {
      ApplyNAdd(t, v, m, n - 1);
    }
  }

  /** One step of an in-place transform loop over a collection whose slots
      are `slots`: before the step the points hold `mid`, t applied once per
      slot of done to their values in `before`; the step applies t once
      per slot of `step` and leaves the other points alone; afterwards they
      hold `now`, t applied once per slot of done + step. */
  lemma TransformedStep(slots: seq<Point>, before: map<Point, Pos>, mid: map<Point, Pos>,
                        now: map<Point, Pos>, done: seq<Point>, step: seq<Point>, t: Transform)
    requires forall p :: p in slots ==> p in before && p in mid && p in now
    requires forall p :: p in slots ==> mid[p] == ApplyN(t, before[p], Count(done, p))
    requires forall p :: p in slots && p !in step ==> now[p] == mid[p]
    requires forall p :: p in step ==> p in slots && now[p] == ApplyN(t, mid[p], Count(step, p))
    ensures forall p :: p in slots ==> now[p] == ApplyN(t, before[p], Count(done + step, p))
  {
    forall p | p in slots
      ensures now[p] == ApplyN(t, before[p], Count(done + step, p))
    {
      CountAppend(done, step, p);
      ApplyNAdd(t, before[p], Count(done, p), Count(step, p));
    }
  }

  /** One point call of an in-place transform of a collection whose slots
      are `slots`: q is translated or scaled once, every other point keeps
      its value, and the slots moved so far grow by [q]. */
  method TransformPoint(q: Point, t: Transform, ghost slots: seq<Point>,
                        ghost before: map<Point, Pos>, ghost done: seq<Point>)
    requires t.Translation? || t.Scaling?
    requires q in slots
    requires Transformed(slots, before, done, t)
    modifies q
    ensures Transformed(slots, before, done + [q], t)
  {
    ghost var mid := Values(slots);
    if t.Translation? {
      q.Translate(t.dx, t.dy);
    } else {
      q.Scale(t.sx, t.sy);
    }
    assert Count([q], q) == 1 by {
      assert [q][..0] == [];
    }
    assert ApplyN(t, mid[q], 1) == Apply(t, mid[q]);
    TransformedStep(slots, before, mid, Values(slots), done, [q], t);
  }

  /** ScalingFrom keeps its centre fixed, however often it is applied. */
  lemma {:induction false} CentreFixed(cx: real, cy: real, fx: real, fy: real, n: nat)
    ensures ApplyN(ScalingFrom(cx, cy, fx, fy), Pos(cx, cy), n) == Pos(cx, cy)
  {
    if n > 0 {
      CentreFixed(cx, cy, fx, fy, n - 1);
    }
  }

  /** LerpPoint: blmath.Lerp on each axis. */
  function LerpPoint(t: real, p0: Pos, p1: Pos): Pos {
    Pos(BlMath.Lerp(t, p0.x, p1.x), BlMath.Lerp(t, p0.y, p1.y))
  }

  /** MidPoint: LerpPoint at one half. */
  function MidPoint(p0: Pos, p1: Pos): Pos {
    LerpPoint(0.5, p0, p1)
  }

  /** LerpPoint starts at p0, ends at p1 and stays put between equal
      points; MidPoint is the coordinate average, equally far from both
      ends on each axis. */
  lemma LerpPointEnds(t: real, p0: Pos, p1: Pos)
    ensures LerpPoint(0.0, p0, p1) == p0 && LerpPoint(1.0, p0, p1) == p1
    ensures LerpPoint(t, p0, p0) == p0
    ensures MidPoint(p0, p1) == Pos((p0.x + p1.x) / 2.0, (p0.y + p1.y) / 2.0)
    ensures MidPoint(p0, p1).x - p0.x == p1.x - MidPoint(p0, p1).x
    ensures MidPoint(p0, p1).y - p0.y == p1.y - MidPoint(p0, p1).y
  {
  }

  /** Scaling two points about their midpoint keeps the midpoint. */
  lemma ScaleAboutMidPoint(p: Pos, q: Pos, fx: real, fy: real)
    ensures var m := MidPoint(p, q);
      MidPoint(Apply(ScalingFrom(m.x, m.y, fx, fy), p), Apply(ScalingFrom(m.x, m.y, fx, fy), q)) == m
  {
    var m := MidPoint(p, q);
    LerpPointEnds(0.0, p, q);
    assert (p.x - m.x) * fx + (q.x - m.x) * fx == ((p.x - m.x) + (q.x - m.x)) * fx;
    assert (p.y - m.y) * fy + (q.y - m.y) * fy == ((p.y - m.y) + (q.y - m.y)) * fy;
  }

  /** BezierPoint: the cubic Bernstein combination of four control points. */
  function BezierPoint(t: real, p0: Pos, p1: Pos, p2: Pos, p3: Pos): Pos {
    var u := 1.0 - t;
    var m0 := u * u * u;
    var m1 := 3.0 * u * u * t;
    var m2 := 3.0 * u * t * t;
    var m3 := t * t * t;
    Pos(m0 * p0.x + m1 * p1.x + m2 * p2.x + m3 * p3.x,
        m0 * p0.y + m1 * p1.y + m2 * p2.y + m3 * p3.y)
  }

  /** QuadraticPoint: the quadratic Bernstein combination of three points. */
  function QuadraticPoint(t: real, p0: Pos, p1: Pos, p2: Pos): Pos {
    var u := 1.0 - t;
    var m0 := u * u;
    var m1 := 2.0 * u * t;
    var m2 := t * t;
    Pos(m0 * p0.x + m1 * p1.x + m2 * p2.x, m0 * p0.y + m1 * p1.y + m2 * p2.y)
  }

  /** The cubic weights sum to one for every t. */
  lemma CubicWeights(t: real)
    ensures (1.0 - t) * (1.0 - t) * (1.0 - t) + 3.0 * (1.0 - t) * (1.0 - t) * t
      + 3.0 * (1.0 - t) * t * t + t * t * t == 1.0
  {
    var u := 1.0 - t;
    assert u * u * u + 3.0 * u * u * t + 3.0 * u * t * t + t * t * t == (u + t) * (u + t) * (u + t);
  }

  /** A cubic curve starts at p0 and ends at p3, and one whose control
      points coincide is that single point for every t. */
  lemma BezierEnds(t: real, p0: Pos, p1: Pos, p2: Pos, p3: Pos)
    ensures BezierPoint(0.0, p0, p1, p2, p3) == p0
    ensures BezierPoint(1.0, p0, p1, p2, p3) == p3
    ensures BezierPoint(t, p0, p0, p0, p0) == p0
  {
    var u := 1.0 - t;
    var m0, m1, m2, m3 := u * u * u, 3.0 * u * u * t, 3.0 * u * t * t, t * t * t;
    CubicWeights(t);
    assert m0 * p0.x + m1 * p0.x + m2 * p0.x + m3 * p0.x == (m0 + m1 + m2 + m3) * p0.x;
    assert m0 * p0.y + m1 * p0.y + m2 * p0.y + m3 * p0.y == (m0 + m1 + m2 + m3) * p0.y;
  }

  /** A quadratic curve starts at p0 and ends at p2, and one whose control
      points coincide is that single point for every t. */
  lemma QuadraticEnds(t: real, p0: Pos, p1: Pos, p2: Pos)
    ensures QuadraticPoint(0.0, p0, p1, p2) == p0
    ensures QuadraticPoint(1.0, p0, p1, p2) == p2
    ensures QuadraticPoint(t, p0, p0, p0) == p0
  {
    var u := 1.0 - t;
    var m0, m1, m2 := u * u, 2.0 * u * t, t * t;
    assert m0 + m1 + m2 == (u + t) * (u + t);
    assert m0 * p0.x + m1 * p0.x + m2 * p0.x == (m0 + m1 + m2) * p0.x;
    assert m0 * p0.y + m1 * p0.y + m2 * p0.y == (m0 + m1 + m2) * p0.y;
  }

  /** The orientation determinant of p1, p2 relative to p3. */
  function Orientation(p1: Pos, p2: Pos, p3: Pos): real {
    (p1.x - p3.x) * (p2.y - p3.y) - (p2.x - p3.x) * (p1.y - p3.y)
  }

  /** Clockwise: the orientation determinant is strictly positive. */
  predicate Clockwise(p1: Pos, p2: Pos, p3: Pos) {
    Orientation(p1, p2, p3) > 0.0
  }

  /** The determinant is unchanged by rotating the three points and
      negated by swapping two, so Clockwise survives rotation and cannot
      hold in both orders; three points with two equal are never
      Clockwise. */
  lemma ClockwiseSymmetries(p1: Pos, p2: Pos, p3: Pos)
    ensures Orientation(p2, p3, p1) == Orientation(p1, p2, p3)
    ensures Orientation(p1, p3, p2) == -Orientation(p1, p2, p3)
    ensures Clockwise(p1, p2, p3) == Clockwise(p2, p3, p1) == Clockwise(p3, p1, p2)
    ensures !(Clockwise(p1, p2, p3) && Clockwise(p1, p3, p2))
    ensures !Clockwise(p1, p1, p3) && !Clockwise(p1, p2, p2) && !Clockwise(p1, p2, p1)
  {
    var a, b, c, d := p1.x - p3.x, p2.y - p3.y, p2.x - p3.x, p1.y - p3.y;
    assert Orientation(p2, p3, p1) == (p2.x - p1.x) * (p3.y - p1.y) - (p3.x - p1.x) * (p2.y - p1.y);
    assert (p2.x - p1.x) * (p3.y - p1.y) - (p3.x - p1.x) * (p2.y - p1.y) == a * b - c * d by {
      assert p2.x - p1.x == c - a && p3.y - p1.y == -d && p3.x - p1.x == -a && p2.y - p1.y == b - d;
      assert (c - a) * (-d) - (-a) * (b - d) == a * b - c * d;
    }
    assert Orientation(p1, p3, p2) == (p1.x - p2.x) * (p3.y - p2.y) - (p3.x - p2.x) * (p1.y - p2.y);
    assert (p1.x - p2.x) * (p3.y - p2.y) - (p3.x - p2.x) * (p1.y - p2.y) == -(a * b - c * d) by {
      assert p1.x - p2.x == a - c && p3.y - p2.y == -b && p3.x - p2.x == -c && p1.y - p2.y == d - b;
      assert (a - c) * (-b) - (-c) * (d - b) == -(a * b - c * d);
    }
  }
}
