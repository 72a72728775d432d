/** The loops of delaunay/delaunay.go, each proved to compute the step
    that DelaunayModel describes. The triangulation is a sequence that
    each step replaces, as the source's append and splice calls replace
    the slice; a new Triangle object takes the next unused identity. */
module Delaunay {
  import SeqUtil
  import opened GeomPoint
  import opened GeomSegment
  import opened GeomTriangle
  import opened GeomUnique
  import opened DelaunayModel

  /** getBadTriangles: the triangles, in list order, whose circumcircle
      contains p. */
  method GetBadTriangles(inCircle: (Tri, Pos) -> bool, tris: seq<DTri>, p: Pos) returns (bad: seq<DTri>)
    ensures bad == BadOf(inCircle, tris, p)
  {
    bad := [];
    var i := 0;
    while i < |tris|
      invariant 0 <= i <= |tris|
      invariant bad == BadOf(inCircle, tris[..i], p)
    {
      SeqUtil.TakeNext(tris, i);
      if inCircle(tris[i].tri, p) {
        bad := bad + [tris[i]];
      }
      i := i + 1;
    }
    assert tris[..i] == tris;
  }

  /** hasSharedEdge: whether a triangle other than t has an edge equal
      to e; it stops at the first one. */
  method HasSharedEdge(tris: seq<DTri>, t: DTri, e: Seg) returns (b: bool)
    ensures b == SharedEdge(tris, t, e)
  {
    var k := 0;
    while k < |tris|
      invariant 0 <= k <= |tris|
      invariant forall k', j :: 0 <= k' < k && 0 <= j < 3 && tris[k'].id != t.id ==> !SegEquals(e, TriEdges(tris[k'].tri)[j])
    {
      if tris[k].id != t.id {
        var edges := TriEdges(tris[k].tri);
        var j := 0;
        while j < 3
          invariant 0 <= j <= 3
          invariant forall j' :: 0 <= j' < j ==> !SegEquals(e, edges[j'])
        {
          if SegEquals(e, edges[j]) {
            return true;
          }
          j := j + 1;
        }
      }
      k := k + 1;
    }
    return false;
  }

  /** addEdgeToPolygon: the list unchanged when a kept edge equals the
      new one, and the list with the edge appended otherwise. */
  method AddEdgeToPolygon(list: seq<Seg>, edge: Seg) returns (r: seq<Seg>)
    ensures r == AddIfNew(EdgeMatch, list, edge)
    ensures (exists k :: 0 <= k < |list| && SegEquals(list[k], edge)) ==> r == list
    ensures (forall k :: 0 <= k < |list| ==> !SegEquals(list[k], edge)) ==> r == list + [edge]
  {
    var i := 0;
    while i < |list|
      invariant 0 <= i <= |list|
      invariant forall k :: 0 <= k < i ==> !SegEquals(list[k], edge)
    {
      if SegEquals(list[i], edge) {
        assert EdgeMatch(edge, list[i]);
        return list;
      }
      i := i + 1;
    }
    return list + [edge];
  }

  /** The inner loop of getPolygon: the unshared edges of t, added one by
      one. */
  method AddUnsharedEdges(bad: seq<DTri>, t: DTri, polygon: seq<Seg>, ghost seen: seq<Seg>) returns (r: seq<Seg>)
    requires polygon == UniqueBy(EdgeMatch, seen)
    ensures r == UniqueBy(EdgeMatch, seen + Keep(bad, t, TriEdges(t.tri)))
  {
    var edges := TriEdges(t.tri);
    r := polygon;
    var j := 0;
    assert seen + Keep(bad, t, edges[..0]) == seen;
    while j < 3
      invariant 0 <= j <= 3
      invariant r == UniqueBy(EdgeMatch, seen + Keep(bad, t, edges[..j]))
    {
      KeepNext(bad, t, edges, seen, j);
      var shared := HasSharedEdge(bad, t, edges[j]);
      if !shared {
        UniqueBySnoc(EdgeMatch, seen + Keep(bad, t, edges[..j]), edges[j]);
        r := AddEdgeToPolygon(r, edges[j]);
      }
      j := j + 1;
    }
    assert edges[..3] == edges;
  }

  /** getPolygon: the unshared edges of the bad triangles, with no two
      equal. */
  method GetPolygon(bad: seq<DTri>) returns (polygon: seq<Seg>)
    ensures polygon == PolygonOf(bad)
  {
    polygon := [];
    var i := 0;
    while i < |bad|
      invariant 0 <= i <= |bad|
      invariant polygon == UniqueBy(EdgeMatch, Candidates(bad, bad[..i]))
    {
      SeqUtil.TakeNext(bad, i);
      polygon := AddUnsharedEdges(bad, bad[i], polygon, Candidates(bad, bad[..i]));
      i := i + 1;
    }
    assert bad[..i] == bad;
  }

  /** removeTriangle: the list without its first triangle equal to t,
      or unchanged when there is none. */
  method RemoveTriangle(peq: (Pos, Pos) -> bool, tris: seq<DTri>, t: DTri) returns (r: seq<DTri>)
    ensures r == RemoveFirst(peq, tris, t)
  {
    var i := 0;
    while i < |tris|
      invariant 0 <= i <= |tris|
      invariant forall k :: 0 <= k < i ==> !Same(peq, tris[k], t)
    {
      if Same(peq, tris[i], t) {
        RemoveFirstAt(peq, tris, t, i);
        return SeqUtil.RemoveAt(tris, i);
      }
      i := i + 1;
    }
    RemoveFirstNone(peq, tris, t);
    return tris;
  }

  /** cullBadTriangles: removeTriangle for each bad triangle in turn. */
  method CullBadTriangles(peq: (Pos, Pos) -> bool, tris: seq<DTri>, bad: seq<DTri>) returns (r: seq<DTri>)
    ensures r == CullAll(peq, tris, bad)
  {
    r := tris;
    var i := 0;
    while i < |bad|
      invariant 0 <= i <= |bad|
      invariant r == CullAll(peq, tris, bad[..i])
    {
      SeqUtil.TakeNext(bad, i);
      r := RemoveTriangle(peq, r, bad[i]);
      i := i + 1;
    }
    assert bad[..i] == bad;
  }

  /** addTriangles: one new triangle per polygon edge appended, in
      polygon order, with the identities from next on. */
  method AddTriangles(p: Pos, polygon: seq<Seg>, tris: seq<DTri>, next: nat) returns (r: seq<DTri>, next': nat)
    ensures r == tris + Fan(polygon, p, next)
    ensures next' == next + |polygon|
  {
    r := tris;
    next' := next;
    var i := 0;
    while i < |polygon|
      invariant 0 <= i <= |polygon| && next' == next + i
      invariant r == tris + Fan(polygon, p, next)[..i]
    {
      SeqUtil.TakeNext(Fan(polygon, p, next), i);
      r := r + [DTri(next', Tri(polygon[i].a, polygon[i].b, p))];
      next' := next' + 1;
      i := i + 1;
    }
    assert Fan(polygon, p, next)[..i] == Fan(polygon, p, next);
  }

  /** getSuperTri: the bounding box accumulated point by point, and the
      triangle built around it. */
  method GetSuperTri(points: seq<Pos>) returns (v: Tri)
    ensures v == SuperTri(BoundsOf(points))
    ensures forall k :: 0 <= k < |points| ==> TriContains(v, points[k])
  {
    var minX, maxX, minY, maxY := MaxFloat64, -MaxFloat64, MaxFloat64, -MaxFloat64;
    var i := 0;
    while i < |points|
      invariant 0 <= i <= |points|
      invariant Bounds(minX, maxX, minY, maxY) == BoundsOf(points[..i])
    {
      SeqUtil.TakeNext(points, i);
      var p := points[i];
      minX := if minX <= p.x then minX else p.x;
      maxX := if maxX >= p.x then maxX else p.x;
      minY := if minY <= p.y then minY else p.y;
      maxY := if maxY >= p.y then maxY else p.y;
      i := i + 1;
    }
    assert points[..i] == points;
    var x, y := minX, minY;
    var w, h := maxX - minX, maxY - minY;
    v := Tri(Pos(x - w * 0.1, y - h), Pos(x - w * 0.1, y + h * 2.0), Pos(x + w * 1.7, y + h * 0.5));
    SuperTriContainsAll(points);
  }

  /** contains: whether the triangle contains every point; it stops at
      the first point outside. */
  method Contains(v: Tri, points: seq<Pos>) returns (b: bool)
    ensures b <==> forall k :: 0 <= k < |points| ==> TriContains(v, points[k])
  {
    var i := 0;
    while i < |points|
      invariant 0 <= i <= |points|
      invariant forall k :: 0 <= k < i ==> TriContains(v, points[k])
    {
      if !TriContains(v, points[i]) {
        return false;
      }
      i := i + 1;
    }
    return true;
  }

  /** The first loop of removeOuter: one removal entry per vertex of a
      triangle that equals a super-triangle vertex. */
  method CollectRemovals(peq: (Pos, Pos) -> bool, super: Tri, tris: seq<DTri>) returns (removals: seq<DTri>)
    ensures removals == Removals(peq, super, tris)
  {
    removals := [];
    var i := 0;
    while i < |tris|
      invariant 0 <= i <= |tris|
      invariant removals == Removals(peq, super, tris[..i])
    {
      SeqUtil.TakeNext(tris, i);
      var t := tris[i];
      var ps := Vertices(t.tri);
      var hits := [];
      var j := 0;
      while j < 3
        invariant 0 <= j <= 3
        invariant hits == HitsOf(peq, super, t, ps[..j])
      {
        SeqUtil.TakeNext(ps, j);
        if MatchesVertex(peq, ps[j], super) {
          hits := hits + [t];
        }
        j := j + 1;
      }
      assert ps[..3] == ps;
      removals := removals + hits;
      i := i + 1;
    }
    assert tris[..i] == tris;
  }

  /** The inner loop of the second part of removeOuter: every triangle
      equal to t is spliced out, the index moving on after each
      deletion as well. */
  method Sweep(peq: (Pos, Pos) -> bool, s: seq<DTri>, t: DTri) returns (r: seq<DTri>)
    ensures r == SweepFrom(peq, s, t, 0)
  {
    r := s;
    var i := 0;
    while i < |r|
      invariant 0 <= i
      invariant SweepFrom(peq, r, t, i) == SweepFrom(peq, s, t, 0)
      decreases |r| - i
    {
      if Same(peq, r[i], t) {
        r := SeqUtil.RemoveAt(r, i);
      }
      i := i + 1;
    }
  }

  /** removeOuter: every triangle equal to a removal entry is spliced
      out, entry by entry. */
  method RemoveOuter(peq: (Pos, Pos) -> bool, super: Tri, tris: seq<DTri>) returns (r: seq<DTri>)
    ensures r == RemoveOuterOf(peq, super, tris)
  {
    var removals := CollectRemovals(peq, super, tris);
    r := tris;
    var i := 0;
    while i < |removals|
      invariant 0 <= i <= |removals|
      invariant r == SweepAll(peq, tris, removals[..i])
    {
      SeqUtil.TakeNext(removals, i);
      r := Sweep(peq, r, removals[i]);
      i := i + 1;
    }
    assert removals[..i] == removals;
  }

  /** Triangulate: from the super-triangle alone, each point in turn
      selects the bad triangles, takes their cavity polygon, culls them
      and fans the polygon to the point; the outer triangles go last. */
  method Triangulate(peq: (Pos, Pos) -> bool, inCircle: (Tri, Pos) -> bool, points: seq<Pos>) returns (r: seq<DTri>)
    ensures r == TriangulateOf(peq, inCircle, points)
  {
    var super := GetSuperTri(points);
    var tris := [DTri(0, super)];
    var next: nat := 1;
    var i := 0;
    while i < |points|
      invariant 0 <= i <= |points|
      invariant Progress(tris, next) == Run(peq, inCircle, Progress([DTri(0, super)], 1), points[..i])
    {
      SeqUtil.TakeNext(points, i);
      var p := points[i];
      var bad := GetBadTriangles(inCircle, tris, p);
      var polygon := GetPolygon(bad);
      tris := CullBadTriangles(peq, tris, bad);
      tris, next := AddTriangles(p, polygon, tris, next);
      i := i + 1;
    }
    assert points[..i] == points;
    r := RemoveOuter(peq, super, tris);
  }
}
