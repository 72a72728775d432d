/** The value-level description of the Bowyer–Watson bookkeeping in
    delaunay/delaunay.go, one function per step, with the properties of
    each step. A triangle is a `DTri`: the identity of the Triangle object
    (the source compares pointers in Triangle.Equals and hasSharedEdge)
    and the positions of its three vertices. Point.Equals is the
    parameter `peq`, and the circumcircle test the parameter `inCircle`. */
module DelaunayModel {
  import BlMath
  import SeqUtil
  import opened GeomPoint
  import opened GeomSegment
  import opened GeomTriangle
  import opened GeomUnique

  /** A Triangle object: its identity and its vertex positions. */
  datatype DTri = DTri(id: nat, tri: Tri)

  /** Triangle.Equals: the same object, or the same three vertices in
      any order under Point.Equals. */
  predicate Same(peq: (Pos, Pos) -> bool, t: DTri, u: DTri) {
    t.id == u.id || TriEquals(peq, t.tri, u.tri)
  }

  // ---------------------------------------------------------------------
  // getBadTriangles

  /** The triangles, in list order, whose circumcircle contains p. */
  function BadOf(inCircle: (Tri, Pos) -> bool, tris: seq<DTri>, p: Pos): seq<DTri> {
    if tris == [] then []
    else BadOf(inCircle, tris[..|tris| - 1], p) + (if inCircle(tris[|tris| - 1].tri, p) then [tris[|tris| - 1]] else [])
  }

  /** A triangle is bad exactly when it is listed and its circumcircle
      contains p. */
  lemma {:induction false} BadOfMembers(inCircle: (Tri, Pos) -> bool, tris: seq<DTri>, p: Pos)
    ensures forall t :: t in BadOf(inCircle, tris, p) <==> t in tris && inCircle(t.tri, p)
  {
    if tris != [] {
      BadOfMembers(inCircle, tris[..|tris| - 1], p);
      assert tris == tris[..|tris| - 1] + [tris[|tris| - 1]];
    }
  }

  /** The selection keeps list order: selecting from two lists one after
      the other is selecting from their concatenation. */
  lemma {:induction false} BadOfAppend(inCircle: (Tri, Pos) -> bool, tris: seq<DTri>, more: seq<DTri>, p: Pos)
    ensures BadOf(inCircle, tris + more, p) == BadOf(inCircle, tris, p) + BadOf(inCircle, more, p)
  {
    if more == [] {
      assert tris + more == tris;
    } else {
      var front := more[..|more| - 1];
      BadOfAppend(inCircle, tris, front, p);
      assert (tris + more)[..|tris + more| - 1] == tris + front;
    }
  }

  // ---------------------------------------------------------------------
  // hasSharedEdge, addEdgeToPolygon and getPolygon

  /** hasSharedEdge: a triangle other than t (by identity) has an edge
      that Segment.Equals accepts against e. */
  predicate SharedEdge(tris: seq<DTri>, t: DTri, e: Seg) {
    exists k, j :: 0 <= k < |tris| && 0 <= j < 3 && tris[k].id != t.id && SegEquals(e, TriEdges(tris[k].tri)[j])
  }

  /** The comparison addEdgeToPolygon makes, with the new edge first:
      the kept edge is the receiver of Segment.Equals. */
  predicate EdgeMatch(edge: Seg, kept: Seg) {
    SegEquals(kept, edge)
  }

  /** The edges of es, in order, that no other triangle of all shares. */
  function Keep(all: seq<DTri>, t: DTri, es: seq<Seg>): seq<Seg> {
    if es == [] then []
    else Keep(all, t, es[..|es| - 1]) + (if !SharedEdge(all, t, es[|es| - 1]) then [es[|es| - 1]] else [])
  }

  /** Keep over one more edge of es, after the edges seen before. */
  lemma KeepNext(all: seq<DTri>, t: DTri, es: seq<Seg>, seen: seq<Seg>, j: int)
    requires 0 <= j < |es|
    ensures !SharedEdge(all, t, es[j]) ==> seen + Keep(all, t, es[..j + 1]) == seen + Keep(all, t, es[..j]) + [es[j]]
    ensures SharedEdge(all, t, es[j]) ==> seen + Keep(all, t, es[..j + 1]) == seen + Keep(all, t, es[..j])
  {
    assert es[..j + 1][..j] == es[..j];
  }

  /** The unshared edges of the triangles ts, triangle by triangle. */
  function Candidates(all: seq<DTri>, ts: seq<DTri>): seq<Seg> {
    if ts == [] then [] else Candidates(all, ts[..|ts| - 1]) + Keep(all, ts[|ts| - 1], TriEdges(ts[|ts| - 1].tri))
  }

  /** getPolygon: the unshared edges of the bad triangles, de-duplicated
      as addEdgeToPolygon does. */
  function PolygonOf(bad: seq<DTri>): seq<Seg> {
    UniqueBy(EdgeMatch, Candidates(bad, bad))
  }

  lemma {:induction false} KeepMembers(all: seq<DTri>, t: DTri, es: seq<Seg>)
    ensures forall e :: e in Keep(all, t, es) <==> e in es && !SharedEdge(all, t, e)
  {
    if es != [] {
      KeepMembers(all, t, es[..|es| - 1]);
      assert es == es[..|es| - 1] + [es[|es| - 1]];
    }
  }

  /** Every candidate is an edge of one of ts that no other triangle of
      all shares. */
  lemma {:induction false} CandidatesSound(all: seq<DTri>, ts: seq<DTri>)
    ensures forall e :: e in Candidates(all, ts) ==>
      exists k, j :: 0 <= k < |ts| && 0 <= j < 3 && e == TriEdges(ts[k].tri)[j] && !SharedEdge(all, ts[k], e)
  {
    if ts != [] {
      var front, t := ts[..|ts| - 1], ts[|ts| - 1];
      CandidatesSound(all, front);
      KeepMembers(all, t, TriEdges(t.tri));
      forall e | e in Candidates(all, ts)
        ensures exists k, j :: 0 <= k < |ts| && 0 <= j < 3 && e == TriEdges(ts[k].tri)[j] && !SharedEdge(all, ts[k], e)
      {
        if e in Candidates(all, front) {
          var k, j :| 0 <= k < |front| && 0 <= j < 3 && e == TriEdges(front[k].tri)[j] && !SharedEdge(all, front[k], e);
          assert ts[k] == front[k];
        } else {
          var j :| 0 <= j < 3 && e == TriEdges(t.tri)[j];
          assert ts[|ts| - 1] == t;
        }
      }
    }
  }

  /** Every edge of one of ts that no other triangle of all shares is a
      candidate. */
  lemma {:induction false} CandidatesComplete(all: seq<DTri>, ts: seq<DTri>)
    ensures forall k, j :: 0 <= k < |ts| && 0 <= j < 3 && !SharedEdge(all, ts[k], TriEdges(ts[k].tri)[j]) ==>
      TriEdges(ts[k].tri)[j] in Candidates(all, ts)
  {
    if ts != [] {
      var front, t := ts[..|ts| - 1], ts[|ts| - 1];
      CandidatesComplete(all, front);
      KeepMembers(all, t, TriEdges(t.tri));
      forall k, j | 0 <= k < |ts| && 0 <= j < 3 && !SharedEdge(all, ts[k], TriEdges(ts[k].tri)[j])
        ensures TriEdges(ts[k].tri)[j] in Candidates(all, ts)
      {
        if k < |front| {
          assert front[k] == ts[k];
        }
      }
    }
  }

  /** The cavity polygon: every edge is an edge of a bad triangle that no
      other bad triangle shares; no two of its edges are Equals, in
      either order; and every unshared edge of a bad triangle is in it or
      Equals one of its edges. */
  lemma PolygonProperties(bad: seq<DTri>)
    ensures forall e :: e in PolygonOf(bad) ==>
      exists k, j :: 0 <= k < |bad| && 0 <= j < 3 && e == TriEdges(bad[k].tri)[j] && !SharedEdge(bad, bad[k], e)
    ensures forall i, j :: 0 <= i < j < |PolygonOf(bad)| ==>
      !SegEquals(PolygonOf(bad)[i], PolygonOf(bad)[j]) && !SegEquals(PolygonOf(bad)[j], PolygonOf(bad)[i])
    ensures forall k, j :: 0 <= k < |bad| && 0 <= j < 3 && !SharedEdge(bad, bad[k], TriEdges(bad[k].tri)[j]) ==>
      exists i :: 0 <= i < |PolygonOf(bad)| && SegEquals(PolygonOf(bad)[i], TriEdges(bad[k].tri)[j])
  {
    var xs := Candidates(bad, bad);
    var u := PolygonOf(bad);
    CandidatesSound(bad, bad);
    CandidatesComplete(bad, bad);
    UniqueByProperties(EdgeMatch, xs);
    forall i, j | 0 <= i < j < |u|
      ensures !SegEquals(u[i], u[j]) && !SegEquals(u[j], u[i])
    {
      assert !EdgeMatch(u[j], u[i]);
      SegEqualsProperties(u[i], u[j]);
    }
    forall k, j | 0 <= k < |bad| && 0 <= j < 3 && !SharedEdge(bad, bad[k], TriEdges(bad[k].tri)[j])
      ensures exists i :: 0 <= i < |u| && SegEquals(u[i], TriEdges(bad[k].tri)[j])
    {
      var e := TriEdges(bad[k].tri)[j];
      assert e in xs;
      var n :| 0 <= n < |xs| && xs[n] == e;
      if e in u {
        var i :| 0 <= i < |u| && u[i] == e;
        SegEqualsProperties(e, e);
      } else {
        assert Matched(EdgeMatch, xs[n], u);
      }
    }
  }

  // ---------------------------------------------------------------------
  // removeTriangle and cullBadTriangles

  /** removeTriangle: the list without its first triangle that Equals t. */
  function RemoveFirst(peq: (Pos, Pos) -> bool, tris: seq<DTri>, t: DTri): seq<DTri> {
    if tris == [] then []
    else if Same(peq, tris[0], t) then tris[1..]
    else [tris[0]] + RemoveFirst(peq, tris[1..], t)
  }

  /** When position i holds the first triangle equal to t, exactly that
      position goes. */
  lemma {:induction false} RemoveFirstAt(peq: (Pos, Pos) -> bool, tris: seq<DTri>, t: DTri, i: int)
    requires 0 <= i < |tris| && Same(peq, tris[i], t)
    requires forall k :: 0 <= k < i ==> !Same(peq, tris[k], t)
    ensures RemoveFirst(peq, tris, t) == SeqUtil.RemoveAt(tris, i)
  {
    if i > 0 {
      RemoveFirstAt(peq, tris[1..], t, i - 1);
    }
  }

  /** With no triangle equal to t the list comes back unchanged. */
  lemma {:induction false} RemoveFirstNone(peq: (Pos, Pos) -> bool, tris: seq<DTri>, t: DTri)
    requires forall k :: 0 <= k < |tris| ==> !Same(peq, tris[k], t)
    ensures RemoveFirst(peq, tris, t) == tris
  {
    if tris != [] {
      RemoveFirstNone(peq, tris[1..], t);
    }
  }

  /** removeTriangle removes at most one triangle, only one equal to t,
      and keeps every triangle not equal to t. */
  lemma {:induction false} RemoveFirstProperties(peq: (Pos, Pos) -> bool, tris: seq<DTri>, t: DTri)
    ensures forall x :: x in RemoveFirst(peq, tris, t) ==> x in tris
    ensures forall x :: x in tris && !Same(peq, x, t) ==> x in RemoveFirst(peq, tris, t)
    ensures |RemoveFirst(peq, tris, t)| == if exists k :: 0 <= k < |tris| && Same(peq, tris[k], t) then |tris| - 1 else |tris|
  {
    if tris != [] {
      RemoveFirstProperties(peq, tris[1..], t);
      if !Same(peq, tris[0], t) {
        if exists k :: 0 <= k < |tris| && Same(peq, tris[k], t) {
          var k :| 0 <= k < |tris| && Same(peq, tris[k], t);
          assert tris[1..][k - 1] == tris[k];
        }
        if exists k :: 0 <= k < |tris| - 1 && Same(peq, tris[1..][k], t) {
          var k :| 0 <= k < |tris| - 1 && Same(peq, tris[1..][k], t);
          assert tris[k + 1] == tris[1..][k];
        }
      }
      assert tris == [tris[0]] + tris[1..];
    }
  }

  /** cullBadTriangles: removeTriangle for each bad triangle in turn. */
  function CullAll(peq: (Pos, Pos) -> bool, tris: seq<DTri>, bad: seq<DTri>): seq<DTri> {
    if bad == [] then tris else RemoveFirst(peq, CullAll(peq, tris, bad[..|bad| - 1]), bad[|bad| - 1])
  }

  /** Culling removes at most one triangle per bad triangle, only
      triangles of the list, and keeps every triangle equal to no bad
      one. */
  lemma {:induction false} CullAllProperties(peq: (Pos, Pos) -> bool, tris: seq<DTri>, bad: seq<DTri>)
    ensures forall x :: x in CullAll(peq, tris, bad) ==> x in tris
    ensures forall x :: x in tris && (forall b :: b in bad ==> !Same(peq, x, b)) ==> x in CullAll(peq, tris, bad)
    ensures |CullAll(peq, tris, bad)| >= |tris| - |bad|
  {
    if bad != [] {
      var front, b := bad[..|bad| - 1], bad[|bad| - 1];
      CullAllProperties(peq, tris, front);
      RemoveFirstProperties(peq, CullAll(peq, tris, front), b);
      forall x | x in tris && (forall c :: c in bad ==> !Same(peq, x, c))
        ensures x in CullAll(peq, tris, bad)
      {
        assert forall c :: c in front ==> c in bad;
      }
    }
  }

  // ---------------------------------------------------------------------
  // addTriangles

  /** addTriangles' new triangles: one per polygon edge, in polygon
      order, joining the edge's endpoints to p, with new identities from
      next on. */
  function Fan(polygon: seq<Seg>, p: Pos, next: nat): seq<DTri> {
    seq(|polygon|, k requires 0 <= k < |polygon| => DTri(next + k, Tri(polygon[k].a, polygon[k].b, p)))
  }

  /** Each new triangle has the polygon edge as its first edge and p as
      its third vertex, and their identities are all different and none
      below next. */
  lemma FanProperties(polygon: seq<Seg>, p: Pos, next: nat)
    ensures |Fan(polygon, p, next)| == |polygon|
    ensures forall k :: 0 <= k < |polygon| ==>
      TriEdges(Fan(polygon, p, next)[k].tri)[0] == polygon[k] && Fan(polygon, p, next)[k].tri.c == p
    ensures forall k, l :: 0 <= k < l < |polygon| ==> next <= Fan(polygon, p, next)[k].id < Fan(polygon, p, next)[l].id
  {
  }

  // ---------------------------------------------------------------------
  // getSuperTri and contains

  /** The largest finite float64, the source's starting bound. */
  const MaxFloat64: real := 179769313486231570814527423731704356798070567525844996598917476803157260780028538760589558632766878171540458953514382464234321326889464182768467546703537516986049910576551282076245490090389328944075868508455133942304583236903222948165808559332123348274797826204144723168738177180919299881250404026184124858368.0

  datatype Bounds = Bounds(minX: real, maxX: real, minY: real, maxY: real)

  /** The bounding box getSuperTri accumulates, point by point. */
  function BoundsOf(points: seq<Pos>): Bounds {
    if points == [] then Bounds(MaxFloat64, -MaxFloat64, MaxFloat64, -MaxFloat64)
    else
      var b := BoundsOf(points[..|points| - 1]);
      var p := points[|points| - 1];
      Bounds(BlMath.RMin(b.minX, p.x), BlMath.RMax(b.maxX, p.x), BlMath.RMin(b.minY, p.y), BlMath.RMax(b.maxY, p.y))
  }

  /** Every point lies within the accumulated box. */
  lemma {:induction false} BoundsContain(points: seq<Pos>)
    ensures forall k :: 0 <= k < |points| ==>
      BoundsOf(points).minX <= points[k].x <= BoundsOf(points).maxX &&
      BoundsOf(points).minY <= points[k].y <= BoundsOf(points).maxY
  {
    if points != [] {
      var front := points[..|points| - 1];
      BoundsContain(front);
      forall k | 0 <= k < |points| - 1
        ensures points[k] == front[k]
      {
      }
    }
  }

  /** getSuperTri's triangle around a box. */
  function SuperTri(b: Bounds): Tri {
    var x, y := b.minX, b.minY;
    var w, h := b.maxX - b.minX, b.maxY - b.minY;
    Tri(Pos(x - w * 0.1, y - h), Pos(x - w * 0.1, y + h * 2.0), Pos(x + w * 1.7, y + h * 0.5))
  }

  /** The three orientations of a point at offset (u, t) inside a w by h
      box, against the super-triangle's edges, are never positive. */
  lemma SuperSigns(w: real, h: real, u: real, t: real)
    requires 0.0 <= u <= w && 0.0 <= t <= h
    ensures (u + w * 0.1) * (-3.0 * h) <= 0.0
    ensures 1.5 * (h * u) + 1.8 * (w * t) - 3.45 * (h * w) <= 0.0
    ensures 1.5 * (h * u) + 0.15 * (h * w) - 1.8 * (w * t) - 1.8 * (w * h) <= 0.0
  {
    var hu, wt, hw := h * u, w * t, h * w;
    assert 0.0 <= hu <= hw;
    assert 0.0 <= wt <= hw == w * h;
  }

  /** Every point of a box is contained in the box's super-triangle: it
      is on the inner side of all three edges. */
  lemma SuperTriContainsBox(b: Bounds, p: Pos)
    requires b.minX <= p.x <= b.maxX && b.minY <= p.y <= b.maxY
    ensures TriContains(SuperTri(b), p)
  {
    var v := SuperTri(b);
    var x, y := b.minX, b.minY;
    var w, h := b.maxX - b.minX, b.maxY - b.minY;
    var u, t := p.x - x, p.y - y;
    SuperSigns(w, h, u, t);
    assert Orientation(p, v.a, v.b) == (u + w * 0.1) * (-3.0 * h);
    assert Orientation(p, v.b, v.c) == 1.5 * (h * u) + 1.8 * (w * t) - 3.45 * (h * w);
    assert Orientation(p, v.c, v.a) == 1.5 * (h * u) + 0.15 * (h * w) - 1.8 * (w * t) - 1.8 * (w * h);
  }

  /** Every input point is contained in the super-triangle of the input;
      a non-empty input always has a box with non-negative sides. */
  lemma SuperTriContainsAll(points: seq<Pos>)
    ensures forall k :: 0 <= k < |points| ==> TriContains(SuperTri(BoundsOf(points)), points[k])
  {
    BoundsContain(points);
    forall k | 0 <= k < |points|
      ensures TriContains(SuperTri(BoundsOf(points)), points[k])
    {
      SuperTriContainsBox(BoundsOf(points), points[k]);
    }
  }

  // ---------------------------------------------------------------------
  // removeOuter

  /** The vertices of t, in the order Triangle.Points lists them, that
      equal a vertex of the super-triangle add one entry t each. */
  function HitsOf(peq: (Pos, Pos) -> bool, super: Tri, t: DTri, ps: seq<Pos>): seq<DTri> {
    if ps == [] then []
    else HitsOf(peq, super, t, ps[..|ps| - 1]) + (if MatchesVertex(peq, ps[|ps| - 1], super) then [t] else [])
  }

  /** The vertices of a triangle in the order Triangle.Points lists them. */
  function Vertices(v: Tri): seq<Pos> {
    [v.a, v.b, v.c]
  }

  /** removeOuter's removal list, one entry per vertex that matches. */
  function Removals(peq: (Pos, Pos) -> bool, super: Tri, tris: seq<DTri>): seq<DTri> {
    if tris == [] then []
    else Removals(peq, super, tris[..|tris| - 1]) + HitsOf(peq, super, tris[|tris| - 1], Vertices(tris[|tris| - 1].tri))
  }

  /** Every listed triangle with a vertex equal to a super vertex is in
      the removal list, and the list holds nothing else. */
  lemma {:induction false} RemovalsMembers(peq: (Pos, Pos) -> bool, super: Tri, tris: seq<DTri>)
    ensures forall t :: t in Removals(peq, super, tris) ==> t in tris
    ensures forall k, j :: 0 <= k < |tris| && 0 <= j < 3 && MatchesVertex(peq, Vertices(tris[k].tri)[j], super) ==>
      tris[k] in Removals(peq, super, tris)
  {
    if tris != [] {
      var front, t := tris[..|tris| - 1], tris[|tris| - 1];
      RemovalsMembers(peq, super, front);
      HitsMembers(peq, super, t, Vertices(t.tri));
      forall k, j | 0 <= k < |tris| && 0 <= j < 3 && MatchesVertex(peq, Vertices(tris[k].tri)[j], super)
        ensures tris[k] in Removals(peq, super, tris)
      {
        if k < |front| {
          assert tris[k] == front[k];
        } else {
          assert Vertices(t.tri)[j] in Vertices(t.tri);
        }
      }
    }
  }

  lemma {:induction false} HitsMembers(peq: (Pos, Pos) -> bool, super: Tri, t: DTri, ps: seq<Pos>)
    ensures forall x :: x in HitsOf(peq, super, t, ps) ==> x == t
    ensures (exists q :: q in ps && MatchesVertex(peq, q, super)) ==> t in HitsOf(peq, super, t, ps)
  {
    if ps != [] {
      HitsMembers(peq, super, t, ps[..|ps| - 1]);
      assert ps == ps[..|ps| - 1] + [ps[|ps| - 1]];
    }
  }

  /** The inner loop of removeOuter from position i on: a triangle equal
      to t is deleted, and the index then moves on past the triangle that
      took its place. */
  function SweepFrom(peq: (Pos, Pos) -> bool, s: seq<DTri>, t: DTri, i: nat): seq<DTri>
    decreases |s| - i
  {
    if i >= |s| then s
    else if Same(peq, s[i], t) then SweepFrom(peq, SeqUtil.RemoveAt(s, i), t, i + 1)
    else SweepFrom(peq, s, t, i + 1)
  }

  /** The outer loop of removeOuter: one sweep per removal entry. */
  function SweepAll(peq: (Pos, Pos) -> bool, s: seq<DTri>, rs: seq<DTri>): seq<DTri> {
    if rs == [] then s else SweepFrom(peq, SweepAll(peq, s, rs[..|rs| - 1]), rs[|rs| - 1], 0)
  }

  /** removeOuter. */
  function RemoveOuterOf(peq: (Pos, Pos) -> bool, super: Tri, tris: seq<DTri>): seq<DTri> {
    SweepAll(peq, tris, Removals(peq, super, tris))
  }

  /** At most one triangle of s equals t. */
  predicate NoTwoMatch(peq: (Pos, Pos) -> bool, s: seq<DTri>, t: DTri) {
    forall k, l :: 0 <= k < l < |s| ==> !(Same(peq, s[k], t) && Same(peq, s[l], t))
  }

  /** Deleting a position keeps at most one match. */
  lemma NoTwoMatchRemove(peq: (Pos, Pos) -> bool, s: seq<DTri>, i: int, t: DTri)
    requires 0 <= i < |s| && NoTwoMatch(peq, s, t)
    ensures NoTwoMatch(peq, SeqUtil.RemoveAt(s, i), t)
  {
    var r := SeqUtil.RemoveAt(s, i);
    forall k, l | 0 <= k < l < |r|
      ensures !(Same(peq, r[k], t) && Same(peq, r[l], t))
    {
      var k', l' := if k < i then k else k + 1, if l < i then l else l + 1;
      assert r[k] == s[k'] && r[l] == s[l'];
    }
  }

  /** A sweep only deletes: what is left was in s, and at most one match
      for any triangle stays at most one. */
  lemma {:induction false} SweepFromKeeps(peq: (Pos, Pos) -> bool, s: seq<DTri>, t: DTri, i: nat, o: DTri)
    ensures forall x :: x in SweepFrom(peq, s, t, i) ==> x in s
    ensures NoTwoMatch(peq, s, o) ==> NoTwoMatch(peq, SweepFrom(peq, s, t, i), o)
    decreases |s| - i
  {
    if i < |s| {
      if Same(peq, s[i], t) {
        var r := SeqUtil.RemoveAt(s, i);
        SweepFromKeeps(peq, r, t, i + 1, o);
        SeqUtil.RemoveAtSlices(s, i);
        assert forall x :: x in r ==> x in s;
        if NoTwoMatch(peq, s, o) {
          NoTwoMatchRemove(peq, s, i, o);
        }
      } else {
        SweepFromKeeps(peq, s, t, i + 1, o);
      }
    }
  }

  /** A sweep from i, with no match before i and at most one match in s,
      leaves no triangle equal to t. */
  lemma {:induction false} SweepFromClears(peq: (Pos, Pos) -> bool, s: seq<DTri>, t: DTri, i: nat)
    requires NoTwoMatch(peq, s, t)
    requires forall k :: 0 <= k < i && k < |s| ==> !Same(peq, s[k], t)
    ensures forall x :: x in SweepFrom(peq, s, t, i) ==> !Same(peq, x, t)
    decreases |s| - i
  {
    if i < |s| {
      if Same(peq, s[i], t) {
        var r := SeqUtil.RemoveAt(s, i);
        NoTwoMatchRemove(peq, s, i, t);
        forall k | 0 <= k < i + 1 && k < |r|
          ensures !Same(peq, r[k], t)
        {
          if k == i {
            assert r[k] == s[i + 1];
          }
        }
        SweepFromClears(peq, r, t, i + 1);
      } else {
        SweepFromClears(peq, s, t, i + 1);
      }
    }
  }

  /** The sweeps only delete, keep at most one match, and, when every
      removal entry has at most one match in s, leave no triangle equal
      to any removal entry. */
  lemma {:induction false} SweepAllClears(peq: (Pos, Pos) -> bool, s: seq<DTri>, rs: seq<DTri>)
    requires forall j :: 0 <= j < |rs| ==> NoTwoMatch(peq, s, rs[j])
    ensures forall x :: x in SweepAll(peq, s, rs) ==> x in s
    ensures forall x, j :: x in SweepAll(peq, s, rs) && 0 <= j < |rs| ==> !Same(peq, x, rs[j])
  {
    if rs != [] {
      var front, t := rs[..|rs| - 1], rs[|rs| - 1];
      SweepAllClears(peq, s, front);
      var mid := SweepAll(peq, s, front);
      SweepAllKeepsOne(peq, s, front, t);
      SweepFromKeeps(peq, mid, t, 0, t);
      SweepFromClears(peq, mid, t, 0);
      forall x, j | x in SweepAll(peq, s, rs) && 0 <= j < |rs|
        ensures !Same(peq, x, rs[j])
      {
        if j < |front| {
          assert rs[j] == front[j];
        }
      }
    }
  }

  /** The sweeps keep at most one match for any triangle. */
  lemma {:induction false} SweepAllKeepsOne(peq: (Pos, Pos) -> bool, s: seq<DTri>, rs: seq<DTri>, o: DTri)
    requires NoTwoMatch(peq, s, o)
    ensures NoTwoMatch(peq, SweepAll(peq, s, rs), o)
  {
    if rs != [] {
      SweepAllKeepsOne(peq, s, rs[..|rs| - 1], o);
      SweepFromKeeps(peq, SweepAll(peq, s, rs[..|rs| - 1]), rs[|rs| - 1], 0, o);
    }
  }

  /** After removeOuter, provided no two triangles of the list equal the
      same removal entry, no remaining triangle has a vertex equal to a
      super-triangle vertex, and every remaining triangle was listed. */
  lemma RemoveOuterClean(peq: (Pos, Pos) -> bool, super: Tri, tris: seq<DTri>)
    requires forall j :: 0 <= j < |Removals(peq, super, tris)| ==> NoTwoMatch(peq, tris, Removals(peq, super, tris)[j])
    ensures forall x :: x in RemoveOuterOf(peq, super, tris) ==> x in tris
    ensures forall x, j :: x in RemoveOuterOf(peq, super, tris) && 0 <= j < 3 ==>
      !MatchesVertex(peq, Vertices(x.tri)[j], super)
  {
    var rs := Removals(peq, super, tris);
    SweepAllClears(peq, tris, rs);
    RemovalsMembers(peq, super, tris);
  }

  /** Without that proviso the sweep can miss one: with two adjacent
      triangles equal to the removal entry, deleting the first moves the
      second into its slot, which the index then passes. */
  lemma SweepSkipsNeighbour(v: Tri)
    ensures var s := [DTri(0, v), DTri(1, v)];
      SweepFrom((p, q) => p == q, s, DTri(0, v), 0) == [DTri(1, v)] &&
      Same((p, q) => p == q, DTri(1, v), DTri(0, v))
  {
    var peq := (p: Pos, q: Pos) => p == q;
    var s := [DTri(0, v), DTri(1, v)];
    assert SeqUtil.RemoveAt(s, 0) == [DTri(1, v)];
    assert SweepFrom(peq, [DTri(1, v)], DTri(0, v), 1) == [DTri(1, v)];
  }

  // ---------------------------------------------------------------------
  // Triangulate

  /** The state Triangulate carries from point to point: the list and the
      next unused identity. */
  datatype Progress = Progress(tris: seq<DTri>, next: nat)

  /** One point's pass: select the bad triangles, take their cavity
      polygon, cull them, and add the fan to p. */
  function Step(peq: (Pos, Pos) -> bool, inCircle: (Tri, Pos) -> bool, st: Progress, p: Pos): Progress {
    var bad := BadOf(inCircle, st.tris, p);
    var polygon := PolygonOf(bad);
    Progress(CullAll(peq, st.tris, bad) + Fan(polygon, p, st.next), st.next + |polygon|)
  }

  /** The passes over the points, in order. */
  function Run(peq: (Pos, Pos) -> bool, inCircle: (Tri, Pos) -> bool, st: Progress, points: seq<Pos>): Progress {
    if points == [] then st else Step(peq, inCircle, Run(peq, inCircle, st, points[..|points| - 1]), points[|points| - 1])
  }

  /** Triangulate: start from the super-triangle (identity 0), run the
      passes, and remove the outer triangles. */
  function TriangulateOf(peq: (Pos, Pos) -> bool, inCircle: (Tri, Pos) -> bool, points: seq<Pos>): seq<DTri> {
    var super := SuperTri(BoundsOf(points));
    RemoveOuterOf(peq, super, Run(peq, inCircle, Progress([DTri(0, super)], 1), points).tris)
  }

  /** Every pass keeps all identities below the next unused one. */
  lemma {:induction false} RunFresh(peq: (Pos, Pos) -> bool, inCircle: (Tri, Pos) -> bool, st: Progress, points: seq<Pos>)
    requires forall t :: t in st.tris ==> t.id < st.next
    ensures Run(peq, inCircle, st, points).next >= st.next
    ensures forall t :: t in Run(peq, inCircle, st, points).tris ==> t.id < Run(peq, inCircle, st, points).next
  {
    if points != [] {
      var mid := Run(peq, inCircle, st, points[..|points| - 1]);
      RunFresh(peq, inCircle, st, points[..|points| - 1]);
      var p := points[|points| - 1];
      var bad := BadOf(inCircle, mid.tris, p);
      CullAllProperties(peq, mid.tris, bad);
      FanProperties(PolygonOf(bad), p, mid.next);
    }
  }

  /** No two listed triangles are the same object. */
  predicate IdsDistinct(s: seq<DTri>) {
    forall k, l :: 0 <= k < l < |s| ==> s[k].id != s[l].id
  }

  /** removeTriangle never duplicates an object. */
  lemma {:induction false} RemoveFirstDistinct(peq: (Pos, Pos) -> bool, tris: seq<DTri>, t: DTri)
    requires IdsDistinct(tris)
    ensures IdsDistinct(RemoveFirst(peq, tris, t))
  {
    if tris != [] && !Same(peq, tris[0], t) {
      var rest := RemoveFirst(peq, tris[1..], t);
      RemoveFirstDistinct(peq, tris[1..], t);
      RemoveFirstProperties(peq, tris[1..], t);
      var r := [tris[0]] + rest;
      forall k, l | 0 <= k < l < |r|
        ensures r[k].id != r[l].id
      {
        if k == 0 {
          assert r[l] == rest[l - 1] && rest[l - 1] in rest;
          var m :| 0 <= m < |tris[1..]| && tris[1..][m] == rest[l - 1];
          assert tris[m + 1] == r[l];
        } else {
          assert r[k] == rest[k - 1] && r[l] == rest[l - 1];
        }
      }
    }
  }

  /** cullBadTriangles never duplicates an object. */
  lemma {:induction false} CullAllDistinct(peq: (Pos, Pos) -> bool, tris: seq<DTri>, bad: seq<DTri>)
    requires IdsDistinct(tris)
    ensures IdsDistinct(CullAll(peq, tris, bad))
  {
    if bad != [] {
      CullAllDistinct(peq, tris, bad[..|bad| - 1]);
      RemoveFirstDistinct(peq, CullAll(peq, tris, bad[..|bad| - 1]), bad[|bad| - 1]);
    }
  }

  /** One pass keeps the objects distinct and below the next unused
      identity: the culled list only loses triangles, and the fan's new
      identities are all different and all unused. */
  lemma StepDistinct(peq: (Pos, Pos) -> bool, inCircle: (Tri, Pos) -> bool, st: Progress, p: Pos)
    requires IdsDistinct(st.tris) && forall t :: t in st.tris ==> t.id < st.next
    ensures IdsDistinct(Step(peq, inCircle, st, p).tris)
    ensures forall t :: t in Step(peq, inCircle, st, p).tris ==> t.id < Step(peq, inCircle, st, p).next
  {
    var bad := BadOf(inCircle, st.tris, p);
    var kept := CullAll(peq, st.tris, bad);
    var fan := Fan(PolygonOf(bad), p, st.next);
    CullAllProperties(peq, st.tris, bad);
    CullAllDistinct(peq, st.tris, bad);
    FanProperties(PolygonOf(bad), p, st.next);
    var r := kept + fan;
    forall k, l | 0 <= k < l < |r|
      ensures r[k].id != r[l].id
    {
      if l >= |kept| {
        assert r[l] == fan[l - |kept|];
        if k < |kept| {
          assert r[k] in st.tris;
        }
      }
    }
  }

  /** Triangulate's passes never list one object twice: the identities
      model the pointers the source compares, and distinct objects get
      distinct ones. */
  lemma {:induction false} RunDistinct(peq: (Pos, Pos) -> bool, inCircle: (Tri, Pos) -> bool, st: Progress, points: seq<Pos>)
    requires IdsDistinct(st.tris) && forall t :: t in st.tris ==> t.id < st.next
    ensures IdsDistinct(Run(peq, inCircle, st, points).tris)
    ensures forall t :: t in Run(peq, inCircle, st, points).tris ==> t.id < Run(peq, inCircle, st, points).next
  {
    if points != [] {
      RunDistinct(peq, inCircle, st, points[..|points| - 1]);
      StepDistinct(peq, inCircle, Run(peq, inCircle, st, points[..|points| - 1]), points[|points| - 1]);
    }
  }
}
