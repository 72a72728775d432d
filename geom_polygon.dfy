/** Polygon of geom/polygon.go: a vertex list and the closed chain of
    sides joining consecutive vertices. makeSides appends to the Sides
    field, so a polygon is an object here. No modelled operation moves a
    vertex, so the vertices are held as values and a side as its two
    endpoints. */
module GeomPolygon {
  import opened Wrappers
  import SeqUtil
  import opened GeomPoint
  import opened GeomSegment

  /** The message NewPolygon exits with. */
  const TooFewVertices: string := "A Polygon needs 3 or more vertices."

  /** The message NewPolygonFromCoords exits with. */
  const OddCoords: string := "Polygon needs an even number of coords."

  /** The sides of the closed chain through vs: side i runs from vertex i
      to vertex i + 1, and the last one back to vertex 0. */
  function SidesOf(vs: seq<Pos>): seq<Seg> {
    seq(|vs|, i requires 0 <= i < |vs| => Seg(vs[i], vs[(i + 1) % |vs|]))
  }

  /** The index after i in a cyclic list of n: i + 1, or 0 after the last. */
  lemma NextIndex(i: int, n: int)
    requires 0 <= i < n
    ensures (i + 1) % n == if i + 1 == n then 0 else i + 1
  {
  }

  /** There are as many sides as vertices; every vertex starts one side
      and ends the one before it, so the chain closes at vertex 0. */
  lemma SidesClosed(vs: seq<Pos>)
    requires |vs| >= 1
    ensures |SidesOf(vs)| == |vs|
    ensures forall i :: 0 <= i < |vs| ==> SidesOf(vs)[i].a == vs[i]
    ensures forall i :: 0 <= i < |vs| - 1 ==> SidesOf(vs)[i].b == SidesOf(vs)[i + 1].a
    ensures SidesOf(vs)[|vs| - 1].b == SidesOf(vs)[0].a
  {
    var n := |vs|;
    var sides := SidesOf(vs);
    forall i | 0 <= i < n - 1
      ensures sides[i].b == sides[i + 1].a
    {
      NextIndex(i, n);
    }
    NextIndex(n - 1, n);
  }

  /** Sum of the x (resp. y) coordinates, accumulated left to right. */
  function SumX(vs: seq<Pos>): real {
    if vs == [] then 0.0 else SumX(vs[..|vs| - 1]) + vs[|vs| - 1].x
  }

  function SumY(vs: seq<Pos>): real {
    if vs == [] then 0.0 else SumY(vs[..|vs| - 1]) + vs[|vs| - 1].y
  }

  /** The arithmetic mean of the vertices. */
  function Mean(vs: seq<Pos>): Pos
    requires |vs| >= 1
  {
    Pos(SumX(vs) / |vs| as real, SumY(vs) / |vs| as real)
  }

  /** Translating every vertex adds n times the offset to the sums. */
  lemma {:induction false} SumsTranslated(vs: seq<Pos>, dx: real, dy: real)
    ensures SumX(seq(|vs|, i requires 0 <= i < |vs| => Apply(Translation(dx, dy), vs[i])))
      == SumX(vs) + |vs| as real * dx
    ensures SumY(seq(|vs|, i requires 0 <= i < |vs| => Apply(Translation(dx, dy), vs[i])))
      == SumY(vs) + |vs| as real * dy
  {
    var ws := seq(|vs|, i requires 0 <= i < |vs| => Apply(Translation(dx, dy), vs[i]));
    if vs != [] {
      var n := |vs|;
      var front := vs[..n - 1];
      assert ws[..n - 1] == seq(|front|, i requires 0 <= i < |front| => Apply(Translation(dx, dy), front[i]));
      SumsTranslated(front, dx, dy);
      assert (n - 1) as real * dx + dx == n as real * dx;
      assert (n - 1) as real * dy + dy == n as real * dy;
    }
  }

  /** The sums of n copies of one point are n times its coordinates. */
  lemma {:induction false} SumsConstant(p: Pos, n: nat)
    ensures SumX(seq(n, i => p)) == n as real * p.x
    ensures SumY(seq(n, i => p)) == n as real * p.y
  {
    if n > 0 {
      assert seq(n, i => p)[..n - 1] == seq(n - 1, i => p);
      SumsConstant(p, n - 1);
      assert (n - 1) as real * p.x + p.x == n as real * p.x;
      assert (n - 1) as real * p.y + p.y == n as real * p.y;
    }
  }

  /** Dividing a sum that includes k times d by k gives d on top. */
  lemma DivShift(s: real, k: real, d: real)
    requires k > 0.0
    ensures (s + k * d) / k == s / k + d
  {
    assert (s + k * d) / k * k == (s / k + d) * k;
  }

  /** The mean moves with a translation of every vertex. */
  lemma MeanTranslated(vs: seq<Pos>, dx: real, dy: real)
    requires |vs| >= 1
    ensures Mean(seq(|vs|, i requires 0 <= i < |vs| => Apply(Translation(dx, dy), vs[i])))
      == Apply(Translation(dx, dy), Mean(vs))
  {
    SumsTranslated(vs, dx, dy);
    DivShift(SumX(vs), |vs| as real, dx);
    DivShift(SumY(vs), |vs| as real, dy);
  }

  /** The mean of copies of one point is that point. */
  lemma MeanConstant(p: Pos, n: nat)
    requires n >= 1
    ensures Mean(seq(n, i => p)) == p
  {
    SumsConstant(p, n);
    DivShift(0.0, n as real, p.x);
    DivShift(0.0, n as real, p.y);
  }

  /** The vertices are pairwise equal in order, with no rotation. */
  predicate VerticesEqual(peq: (Pos, Pos) -> bool, a: seq<Pos>, b: seq<Pos>) {
    |a| == |b| && forall i :: 0 <= i < |a| ==> peq(a[i], b[i])
  }

  /** VerticesEqual is reflexive and symmetric when Point.Equals is, and a
      triangle is not equal to its own rotation under exact equality. */
  lemma VerticesEqualProperties(peq: (Pos, Pos) -> bool, a: seq<Pos>, b: seq<Pos>)
    ensures (forall p :: peq(p, p)) ==> VerticesEqual(peq, a, a)
    ensures (forall p, q :: peq(p, q) ==> peq(q, p)) ==> (VerticesEqual(peq, a, b) ==> VerticesEqual(peq, b, a))
    ensures var p0, p1, p2 := Pos(0.0, 0.0), Pos(1.0, 0.0), Pos(0.0, 1.0);
      !VerticesEqual((p, q) => p == q, [p0, p1, p2], [p1, p2, p0])
  {
    var p0, p1, p2 := Pos(0.0, 0.0), Pos(1.0, 0.0), Pos(0.0, 1.0);
    assert [p0, p1, p2][0] != [p1, p2, p0][0];
  }

  class Polygon {
    var vertices: seq<Pos>
    var sides: seq<Seg>

    /** The polygon literal: the vertices given, no sides yet. */
    constructor (vs: seq<Pos>)
      ensures vertices == vs && sides == []
    {
      vertices := vs;
      sides := [];
    }

    /** makeSides: appends one side per vertex, side i joining vertex i to
        vertex (i + 1) mod n. */
    method MakeSides()
      modifies this
      ensures vertices == old(vertices)
      ensures sides == old(sides) + SidesOf(vertices)
    {
      var n := |vertices|;
      var i := 0;
      while i < n
        invariant 0 <= i <= n && vertices == old(vertices)
        invariant sides == old(sides) + SidesOf(vertices)[..i]
      {
        var a := i;
        var b := (i + 1) % n;
        SeqUtil.TakeNext(SidesOf(vertices), i);
        sides := sides + [Seg(vertices[a], vertices[b])];
        i := i + 1;
      }
      assert SidesOf(vertices)[..n] == SidesOf(vertices);
    }

    /** Centroid: the arithmetic mean of the vertices. A polygon without
        vertices is excluded; NewPolygon never builds one. */
    method Centroid() returns (c: Pos)
      requires |vertices| >= 1
      ensures c == Mean(vertices)
    {
      var sx, sy := 0.0, 0.0;
      var i := 0;
      while i < |vertices|
        invariant 0 <= i <= |vertices|
        invariant sx == SumX(vertices[..i]) && sy == SumY(vertices[..i])
      {
        SeqUtil.TakeNext(vertices, i);
        sx := sx + vertices[i].x;
        sy := sy + vertices[i].y;
        i := i + 1;
      }
      assert vertices[..i] == vertices;
      var count := |vertices| as real;
      c := Pos(sx / count, sy / count);
    }

    /** Equals: the same object, or the same vertex count with the
        vertices pairwise equal in order. */
    method Equals(q: Polygon, peq: (Pos, Pos) -> bool) returns (b: bool)
      ensures b <==> this == q || VerticesEqual(peq, vertices, q.vertices)
    {
      if this == q {
        return true;
      }
      if |vertices| != |q.vertices| {
        return false;
      }
      var i := 0;
      while i < |vertices|
        invariant 0 <= i <= |vertices|
        invariant forall k :: 0 <= k < i ==> peq(vertices[k], q.vertices[k])
      {
        if !peq(vertices[i], q.vertices[i]) {
          return false;
        }
        i := i + 1;
      }
      return true;
    }
  }

  /** NewPolygon: fails with fewer than 3 vertices; otherwise a new
      polygon holding the vertices and their closed chain of sides. */
  method NewPolygon(vs: seq<Pos>) returns (r: Result<Polygon>)
    ensures r.Err? <==> |vs| < 3
    ensures r.Err? ==> r.message == TooFewVertices
    ensures r.Ok? ==> fresh(r.value) && r.value.vertices == vs && r.value.sides == SidesOf(vs)
  {
    if |vs| < 3 {
      return Err(TooFewVertices);
    }
    var p := new Polygon(vs);
    p.MakeSides();
    return Ok(p);
  }

  /** The vertex list of a flat coordinate list: vertex k is
      (coords[2k], coords[2k + 1]). */
  method CoordsToVertices(coords: seq<real>) returns (vs: seq<Pos>)
    requires |coords| % 2 == 0
    ensures |vs| == |coords| / 2
    ensures forall k :: 0 <= k < |vs| ==> vs[k] == Pos(coords[2 * k], coords[2 * k + 1])
  {
    vs := [];
    var i := 0;
    while i < |coords| - 1
      invariant 0 <= i <= |coords| && i % 2 == 0
      invariant |vs| == i / 2
      invariant forall k :: 0 <= k < |vs| ==> vs[k] == Pos(coords[2 * k], coords[2 * k + 1])
    {
      vs := vs + [Pos(coords[i], coords[i + 1])];
      i := i + 2;
    }
  }

  /** NewPolygonFromCoords: fails on an odd number of coordinates, and
      otherwise as NewPolygon does on the pairs (coords[2k], coords[2k+1]). */
  method NewPolygonFromCoords(coords: seq<real>) returns (r: Result<Polygon>)
    ensures |coords| % 2 != 0 ==> r == Err(OddCoords)
    ensures |coords| % 2 == 0 ==> (r.Err? <==> |coords| < 6)
    ensures r.Ok? ==> fresh(r.value) && |r.value.vertices| == |coords| / 2
    ensures r.Ok? ==> forall k :: 0 <= k < |coords| / 2 ==> r.value.vertices[k] == Pos(coords[2 * k], coords[2 * k + 1])
    ensures r.Ok? ==> r.value.sides == SidesOf(r.value.vertices)
  {
    if |coords| % 2 != 0 {
      return Err(OddCoords);
    }
    var vs := CoordsToVertices(coords);
    r := NewPolygon(vs);
  }
}
