/** AffineTransform of geom/affine.go: the map
      (x, y) -> (sx·x + shx·y + tx, sy·y + shy·x + ty).
    No method changes a transform, so it is a value here. */
module GeomAffine {
  import opened Wrappers
  import opened GeomUtils
  import opened GeomPoint
  import opened GeomSegment
  import GeomPolygon

  /** NewAffineTransform is this datatype's constructor. */
  datatype AffineTransform = AffineTransform(sx: real, sy: real, tx: real, ty: real, shx: real, shy: real)

  /** ApplyToPoint: the image of p. */
  function ApplyToPoint(a: AffineTransform, p: Pos): Pos {
    Pos(a.sx * p.x + a.shx * p.y + a.tx, a.sy * p.y + a.shy * p.x + a.ty)
  }

  /** NewAffineTransformIdentity: the transform that maps every point to
      itself. */
  function Identity(): (a: AffineTransform)
    ensures forall p :: ApplyToPoint(a, p) == p
  {
    AffineTransform(1.0, 1.0, 0.0, 0.0, 0.0, 0.0)
  }

  /** MakeScaleTransform: scaling by (sx, sy) about the centre c, which it
      leaves fixed; it moves every point as the fixed-point scaling of
      Segment.ScaleFrom does. */
  function MakeScaleTransform(sx: real, sy: real, c: Pos): (a: AffineTransform)
    ensures ApplyToPoint(a, c) == c
    ensures forall p :: ApplyToPoint(a, p) == Apply(ScalingFrom(c.x, c.y, sx, sy), p)
  {
    AffineTransform(sx, sy, c.x * (1.0 - sx), c.y * (1.0 - sy), 0.0, 0.0)
  }

  /** ApplyToSegment, on a segment given by its two endpoints. */
  function ApplyToSegment(a: AffineTransform, s: Seg): (r: Seg)
    ensures r.a == ApplyToPoint(a, s.a) && r.b == ApplyToPoint(a, s.b)
    ensures a == Identity() ==> r == s
  {
    Seg(ApplyToPoint(a, s.a), ApplyToPoint(a, s.b))
  }

  /** Then: a followed by b. */
  function Then(a: AffineTransform, b: AffineTransform): AffineTransform {
    AffineTransform(
      b.sx * a.sx + b.shx * a.shy,
      b.shy * a.shx + b.sy * a.sy,
      b.sx * a.tx + b.shx * a.ty + b.tx,
      b.shy * a.tx + b.sy * a.ty + b.ty,
      b.sx * a.shx + b.shx * a.sy,
      b.shy * a.sx + b.sy * a.shy)
  }

  /** The x coordinate of a composition, as a polynomial identity: with
      b's first row (b1, b2, b3) and a's rows (a1, a2, a3) and (c1, c2,
      c3), the combined coefficients applied to (x, y) give b's first
      row applied to a's image of (x, y). */
  lemma ComposeRowX(b1: real, b2: real, b3: real, a1: real, a2: real, a3: real,
                    c1: real, c2: real, c3: real, x: real, y: real)
    ensures (b1 * a1 + b2 * c1) * x + (b1 * a2 + b2 * c2) * y + (b1 * a3 + b2 * c3 + b3) ==
            b1 * (a1 * x + a2 * y + a3) + b2 * (c2 * y + c1 * x + c3) + b3
  {
  }

  /** The y coordinate of a composition, with b's second row (k, l, m)
      written in the order Then uses. */
  lemma ComposeRowY(k: real, l: real, m: real, a1: real, a2: real, a3: real,
                    c1: real, c2: real, c3: real, x: real, y: real)
    ensures (k * a2 + l * c2) * y + (k * a1 + l * c1) * x + (k * a3 + l * c3 + m) ==
            l * (c2 * y + c1 * x + c3) + k * (a1 * x + a2 * y + a3) + m
  {
  }

  /** The x coordinate of a.Then(b) is b's x of a's image. */
  lemma ThenComposesX(a: AffineTransform, b: AffineTransform, p: Pos)
    ensures ApplyToPoint(Then(a, b), p).x == ApplyToPoint(b, ApplyToPoint(a, p)).x
  {
    ComposeRowX(b.sx, b.shx, b.tx, a.sx, a.shx, a.tx, a.shy, a.sy, a.ty, p.x, p.y);
  }

  /** The y coordinate of a.Then(b) is b's y of a's image. */
  lemma ThenComposesY(a: AffineTransform, b: AffineTransform, p: Pos)
    ensures ApplyToPoint(Then(a, b), p).y == ApplyToPoint(b, ApplyToPoint(a, p)).y
  {
    ComposeRowY(b.shy, b.sy, b.ty, a.sx, a.shx, a.tx, a.shy, a.sy, a.ty, p.x, p.y);
  }

  /** a.Then(b) applies a first and b second. */
  lemma ThenComposes(a: AffineTransform, b: AffineTransform, p: Pos)
    ensures ApplyToPoint(Then(a, b), p) == ApplyToPoint(b, ApplyToPoint(a, p))
  {
    ThenComposesX(a, b, p);
    ThenComposesY(a, b, p);
  }

  /** The identity is neutral on either side of Then. */
  lemma ThenIdentity(a: AffineTransform)
    ensures Then(a, Identity()) == a && Then(Identity(), a) == a
  {
  }

  /** The determinant of the linear part. */
  function Det(a: AffineTransform): real {
    a.sx * a.sy - a.shx * a.shy
  }

  /** Inverse: the source divides by the determinant, so a singular
      transform is excluded. */
  function Inverse(a: AffineTransform): AffineTransform
    requires Det(a) != 0.0
  {
    var d := Det(a);
    AffineTransform(a.sy / d, a.sx / d, (a.ty * a.shx - a.sy * a.tx) / d, (a.tx * a.shy - a.sx * a.ty) / d,
                    -a.shx / d, -a.shy / d)
  }

  /** The x coordinate of the inverse image, times the determinant. */
  lemma InverseX(a: AffineTransform, q: Pos)
    requires Det(a) != 0.0
    ensures ApplyToPoint(Inverse(a), q).x * Det(a) == a.sy * (q.x - a.tx) - a.shx * (q.y - a.ty)
  {
    var d := Det(a);
    var t := a.ty * a.shx - a.sy * a.tx;
    QuotientSum(d, a.sy, -a.shx, t, q.x, q.y);
    assert a.sy * q.x + -a.shx * q.y + t == a.sy * (q.x - a.tx) - a.shx * (q.y - a.ty);
  }

  /** The y coordinate of the inverse image, times the determinant. */
  lemma InverseY(a: AffineTransform, q: Pos)
    requires Det(a) != 0.0
    ensures ApplyToPoint(Inverse(a), q).y * Det(a) == a.sx * (q.y - a.ty) - a.shy * (q.x - a.tx)
  {
    var d := Det(a);
    var t := a.tx * a.shy - a.sx * a.ty;
    QuotientSum(d, a.sx, -a.shy, t, q.y, q.x);
    assert a.sx * q.y + -a.shy * q.x + t == a.sx * (q.y - a.ty) - a.shy * (q.x - a.tx);
  }

  /** A combination whose coefficients are all divided by d, times d,
      is the combination of the undivided coefficients. */
  lemma QuotientSum(d: real, p: real, s: real, t: real, x: real, y: real)
    requires d != 0.0
    ensures ((p / d) * x + (s / d) * y + t / d) * d == p * x + s * y + t
  {
    BlMath.DivMul(p, d);
    BlMath.DivMul(s, d);
    BlMath.DivMul(t, d);
    assert ((p / d) * x + (s / d) * y + t / d) * d == ((p / d) * d) * x + ((s / d) * d) * y + (t / d) * d;
  }

  /** Two values whose products with a non-zero d agree are equal. */
  lemma CancelFactor(u: real, v: real, d: real)
    requires d != 0.0 && u * d == v * d
    ensures u == v
  {
    assert (u - v) * d == 0.0;
  }

  /** Solving the linear part for one coordinate: if r·d is the
      eliminated combination of the image (u, v) of (x, y), with d the
      non-zero determinant, then r is x (resp. y). */
  lemma SolveX(r: real, d: real, sx: real, sy: real, shx: real, shy: real, x: real, y: real, u: real, v: real)
    requires d == sx * sy - shx * shy && d != 0.0
    requires u == sx * x + shx * y && v == sy * y + shy * x
    requires r * d == sy * u - shx * v
    ensures r == x
  {
    assert sy * u - shx * v == x * d;
    CancelFactor(r, x, d);
  }

  lemma SolveY(r: real, d: real, sx: real, sy: real, shx: real, shy: real, x: real, y: real, u: real, v: real)
    requires d == sx * sy - shx * shy && d != 0.0
    requires u == sx * x + shx * y && v == sy * y + shy * x
    requires r * d == sx * v - shy * u
    ensures r == y
  {
    assert sx * v - shy * u == y * d;
    CancelFactor(r, y, d);
  }

  /** The x coordinate comes back through Inverse. */
  lemma InverseUndoesX(a: AffineTransform, p: Pos)
    requires Det(a) != 0.0
    ensures ApplyToPoint(Inverse(a), ApplyToPoint(a, p)).x == p.x
  {
    var q := ApplyToPoint(a, p);
    InverseX(a, q);
    BackX(a, p, ApplyToPoint(Inverse(a), q).x);
  }

  /** A value that, times the determinant, is the x elimination of p's
      image is p.x. */
  lemma BackX(a: AffineTransform, p: Pos, r: real)
    requires Det(a) != 0.0
    requires var q := ApplyToPoint(a, p); r * Det(a) == a.sy * (q.x - a.tx) - a.shx * (q.y - a.ty)
    ensures r == p.x
  {
    var q := ApplyToPoint(a, p);
    SolveX(r, Det(a), a.sx, a.sy, a.shx, a.shy, p.x, p.y, q.x - a.tx, q.y - a.ty);
  }

  /** The y coordinate comes back through Inverse. */
  lemma InverseUndoesY(a: AffineTransform, p: Pos)
    requires Det(a) != 0.0
    ensures ApplyToPoint(Inverse(a), ApplyToPoint(a, p)).y == p.y
  {
    var q := ApplyToPoint(a, p);
    InverseY(a, q);
    BackY(a, p, ApplyToPoint(Inverse(a), q).y);
  }

  /** A value that, times the determinant, is the y elimination of p's
      image is p.y. */
  lemma BackY(a: AffineTransform, p: Pos, r: real)
    requires Det(a) != 0.0
    requires var q := ApplyToPoint(a, p); r * Det(a) == a.sx * (q.y - a.ty) - a.shy * (q.x - a.tx)
    ensures r == p.y
  {
    var q := ApplyToPoint(a, p);
    SolveY(r, Det(a), a.sx, a.sy, a.shx, a.shy, p.x, p.y, q.x - a.tx, q.y - a.ty);
  }

  /** For a non-singular transform, Inverse undoes ApplyToPoint. */
  lemma InverseUndoes(a: AffineTransform, p: Pos)
    requires Det(a) != 0.0
    ensures ApplyToPoint(Inverse(a), ApplyToPoint(a, p)) == p
  {
    InverseUndoesX(a, p);
    InverseUndoesY(a, p);
  }

  /** Mapping a solution (rx, ry) of the eliminated equations forward
      again gives back the offsets (u, v). */
  lemma Recombine(d: real, sx: real, sy: real, shx: real, shy: real, rx: real, ry: real, u: real, v: real)
    requires d == sx * sy - shx * shy && d != 0.0
    requires rx * d == sy * u - shx * v && ry * d == sx * v - shy * u
    ensures sx * rx + shx * ry == u && sy * ry + shy * rx == v
  {
    assert (sx * rx + shx * ry) * d == sx * (rx * d) + shx * (ry * d);
    assert sx * (sy * u - shx * v) + shx * (sx * v - shy * u) == u * d;
    CancelFactor(sx * rx + shx * ry, u, d);
    assert (sy * ry + shy * rx) * d == sy * (ry * d) + shy * (rx * d);
    assert sy * (sx * v - shy * u) + shy * (sy * u - shx * v) == v * d;
    CancelFactor(sy * ry + shy * rx, v, d);
  }

  /** For a non-singular transform, ApplyToPoint undoes Inverse. */
  lemma InverseIsUndone(a: AffineTransform, q: Pos)
    requires Det(a) != 0.0
    ensures ApplyToPoint(a, ApplyToPoint(Inverse(a), q)) == q
  {
    var r := ApplyToPoint(Inverse(a), q);
    InverseX(a, q);
    InverseY(a, q);
    ForwardOfSolution(a, q, r.x, r.y);
  }

  /** A point whose coordinates, times the determinant, are the
      eliminated combinations of q's offsets maps forward to q. */
  lemma ForwardOfSolution(a: AffineTransform, q: Pos, rx: real, ry: real)
    requires Det(a) != 0.0
    requires rx * Det(a) == a.sy * (q.x - a.tx) - a.shx * (q.y - a.ty)
    requires ry * Det(a) == a.sx * (q.y - a.ty) - a.shy * (q.x - a.tx)
    ensures ApplyToPoint(a, Pos(rx, ry)) == q
  {
    Recombine(Det(a), a.sx, a.sy, a.shx, a.shy, rx, ry, q.x - a.tx, q.y - a.ty);
  }

  /** Equals as written: the fourth and fifth comparisons both test ty,
      and tx is never compared. */
  predicate EqualsAsWritten(a: AffineTransform, b: AffineTransform) {
    a == b ||
    (AreClose(a.sx, b.sx) && AreClose(a.sy, b.sy) && AreClose(a.shx, b.shx) &&
     AreClose(a.ty, b.ty) && AreClose(a.ty, b.ty) && AreClose(a.shy, b.shy))
  }

  /** As written, Equals holds exactly when the five coefficients other
      than tx are within the tolerance, so changing the x offsets of either
      transform, to anything, never changes the answer. */
  lemma EqualsIgnoresTx(a: AffineTransform, b: AffineTransform, x: real, y: real)
    ensures EqualsAsWritten(a, b) <==>
      AreClose(a.sx, b.sx) && AreClose(a.sy, b.sy) && AreClose(a.shx, b.shx) &&
      AreClose(a.shy, b.shy) && AreClose(a.ty, b.ty)
    ensures EqualsAsWritten(a, b) == EqualsAsWritten(a.(tx := x), b.(tx := y))
  {
    AreCloseMeaning(a.sx, b.sx);
    AreCloseMeaning(a.sy, b.sy);
    AreCloseMeaning(a.shx, b.shx);
    AreCloseMeaning(a.shy, b.shy);
    AreCloseMeaning(a.ty, b.ty);
  }

  /** Equals corrected: all six coefficients within the tolerance. */
  predicate EqualsIntended(a: AffineTransform, b: AffineTransform) {
    a == b ||
    (AreClose(a.sx, b.sx) && AreClose(a.sy, b.sy) && AreClose(a.shx, b.shx) &&
     AreClose(a.tx, b.tx) && AreClose(a.ty, b.ty) && AreClose(a.shy, b.shy))
  }

  /** As written, the identity equals a translation by 1 along x, which
      moves the origin; the corrected comparison tells them apart. */
  lemma EqualsDiscrepancy()
    ensures var shift := AffineTransform(1.0, 1.0, 1.0, 0.0, 0.0, 0.0);
      EqualsAsWritten(Identity(), shift) && ApplyToPoint(shift, Pos(0.0, 0.0)) != Pos(0.0, 0.0) &&
      !EqualsIntended(Identity(), shift)
  {
    AreCloseMeaning(0.0, 1.0);
  }

  /** The corrected comparison is reflexive and symmetric, implies the one
      as written, and holds only for transforms that send the origin to
      points within the tolerance of each other on both axes. */
  lemma EqualsIntendedProperties(a: AffineTransform, b: AffineTransform)
    ensures EqualsIntended(a, a)
    ensures EqualsIntended(a, b) == EqualsIntended(b, a)
    ensures EqualsIntended(a, b) ==> EqualsAsWritten(a, b)
    ensures EqualsIntended(a, b) ==>
      AreClose(ApplyToPoint(a, Pos(0.0, 0.0)).x, ApplyToPoint(b, Pos(0.0, 0.0)).x) &&
      AreClose(ApplyToPoint(a, Pos(0.0, 0.0)).y, ApplyToPoint(b, Pos(0.0, 0.0)).y)
  {
    AreCloseMeaning(a.sx, b.sx);
    AreCloseMeaning(a.sy, b.sy);
    AreCloseMeaning(a.tx, b.tx);
    AreCloseMeaning(a.ty, b.ty);
    AreCloseMeaning(a.shx, b.shx);
    AreCloseMeaning(a.shy, b.shy);
    AreCloseMeaning(ApplyToPoint(a, Pos(0.0, 0.0)).x, ApplyToPoint(b, Pos(0.0, 0.0)).x);
    AreCloseMeaning(ApplyToPoint(a, Pos(0.0, 0.0)).y, ApplyToPoint(b, Pos(0.0, 0.0)).y);
  }

  /** ApplyToPolygon's loop: the images of the vertices, in order. */
  method MapVertices(a: AffineTransform, vs: seq<Pos>) returns (ws: seq<Pos>)
    ensures |ws| == |vs|
    ensures forall i :: 0 <= i < |vs| ==> ws[i] == ApplyToPoint(a, vs[i])
  {
    ws := [];
    var i := 0;
    while i < |vs|
      invariant 0 <= i <= |vs| && |ws| == i
      invariant forall k :: 0 <= k < i ==> ws[k] == ApplyToPoint(a, vs[k])
    {
      ws := ws + [ApplyToPoint(a, vs[i])];
      i := i + 1;
    }
  }

  /** ApplyToPolygon: a new polygon on the images of the vertices, in
      order; it fails as NewPolygon does on fewer than 3 vertices. */
  method ApplyToPolygon(a: AffineTransform, p: GeomPolygon.Polygon) returns (r: Result<GeomPolygon.Polygon>)
    ensures r.Err? <==> |p.vertices| < 3
    ensures r.Ok? ==> fresh(r.value) && |r.value.vertices| == |p.vertices|
    ensures r.Ok? ==> forall i :: 0 <= i < |p.vertices| ==> r.value.vertices[i] == ApplyToPoint(a, p.vertices[i])
    ensures r.Ok? ==> r.value.sides == GeomPolygon.SidesOf(r.value.vertices)
  {
    var vertices := MapVertices(a, p.vertices);
    r := GeomPolygon.NewPolygon(vertices);
  }
}
