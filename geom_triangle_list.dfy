/** TriangleList of geom/triangle_list.go: a slice of Triangle pointers.
    The in-place transforms loop over the triangles, so a point shared by
    several triangles moves once per vertex slot that holds it; Edges
    collects the edges of all triangles without Segment.Equals
    duplicates. */
module GeomTriangleList {
  import SeqUtil
  import opened GeomPoint
  import opened GeomSegment
  import opened GeomUnique
  import GeomSegmentList
  import opened GeomTriangle

  /** The vertex slots of ts, triangle by triangle, A, B, C. */
  function VertexSlots(ts: seq<Triangle>): (r: seq<Point>)
    ensures |r| == 3 * |ts|
  {
    if ts == [] then [] else VertexSlots(ts[..|ts| - 1]) + ts[|ts| - 1].Slots()
  }

  /** The slots of one more triangle follow the slots of the prefix. */
  lemma VertexSlotsNext(ts: seq<Triangle>, i: int)
    requires 0 <= i < |ts|
    ensures VertexSlots(ts[..i + 1]) == VertexSlots(ts[..i]) + ts[i].Slots()
    ensures ts[i].PointA in VertexSlots(ts) && ts[i].PointB in VertexSlots(ts) && ts[i].PointC in VertexSlots(ts)
  {
    assert ts[..i + 1][..i] == ts[..i];
    VertexSlotsPrefix(ts, i + 1);
    var r := VertexSlots(ts[..i + 1]);
    assert r[3 * i] == ts[i].PointA && r[3 * i + 1] == ts[i].PointB && r[3 * i + 2] == ts[i].PointC;
    assert VertexSlots(ts)[3 * i] == ts[i].PointA;
    assert VertexSlots(ts)[3 * i + 1] == ts[i].PointB;
    assert VertexSlots(ts)[3 * i + 2] == ts[i].PointC;
  }

  /** The slots of a prefix of the list are a prefix of its slots. */
  lemma {:induction false} VertexSlotsPrefix(ts: seq<Triangle>, i: int)
    requires 0 <= i <= |ts|
    ensures VertexSlots(ts[..i]) <= VertexSlots(ts)
  {
    if i < |ts| {
      assert ts[..|ts| - 1][..i] == ts[..i];
      VertexSlotsPrefix(ts[..|ts| - 1], i);
    } else {
      assert ts[..i] == ts;
    }
  }

  /** The vertex values of the triangles, in list order. */
  function TriVals(ts: seq<Triangle>): (r: seq<Tri>)
    reads set t | t in ts :: t.PointA, set t | t in ts :: t.PointB, set t | t in ts :: t.PointC
    ensures |r| == |ts|
    ensures forall i :: 0 <= i < |ts| ==> r[i] == ts[i].Value()
  {
    seq(|ts|, i requires 0 <= i < |ts|
               reads set t | t in ts :: t.PointA, set t | t in ts :: t.PointB, set t | t in ts :: t.PointC
               => ts[i].Value())
  }

  /** The edges of all triangles, triangle by triangle, AB, BC, CA. */
  function AllEdges(vs: seq<Tri>): (r: seq<Seg>)
    ensures |r| == 3 * |vs|
  {
    if vs == [] then [] else AllEdges(vs[..|vs| - 1]) + TriEdges(vs[|vs| - 1])
  }

  /** The edges of one more triangle follow those of the prefix. */
  lemma AllEdgesNext(vs: seq<Tri>, i: int)
    requires 0 <= i < |vs|
    ensures AllEdges(vs[..i + 1]) == AllEdges(vs[..i]) + TriEdges(vs[i])
  {
    assert vs[..i + 1][..i] == vs[..i];
  }

  /** The edges of a prefix of the list come first, and every edge of
      every triangle is among the edges. */
  lemma {:induction false} AllEdgesPrefix(vs: seq<Tri>, i: int)
    requires 0 <= i <= |vs|
    ensures AllEdges(vs[..i]) <= AllEdges(vs)
    ensures forall e :: i < |vs| && e in TriEdges(vs[i]) ==> e in AllEdges(vs)
  {
    if i < |vs| {
      var init := vs[..|vs| - 1];
      if i < |vs| - 1 {
        assert init[..i] == vs[..i];
        AllEdgesPrefix(init, i);
        assert init[i] == vs[i];
      }
    } else {
      assert vs[..i] == vs;
    }
  }

  /** No edge Edges returns is Equals to an earlier returned edge. */
  lemma EdgesDistinct(vs: seq<Tri>)
    ensures NoneMatchEarlier(SegEquals, UniqueBy(SegEquals, AllEdges(vs)))
  {
    UniqueByProperties(SegEquals, AllEdges(vs));
  }

  /** Every edge of every triangle is Equals to some edge Edges returns. */
  lemma EdgesCover(vs: seq<Tri>, i: int, e: Seg)
    requires 0 <= i < |vs| && e in TriEdges(vs[i])
    ensures Matched(SegEquals, e, UniqueBy(SegEquals, AllEdges(vs)))
  {
    var all := AllEdges(vs);
    var u := UniqueBy(SegEquals, all);
    AllEdgesPrefix(vs, i);
    UniqueByProperties(SegEquals, all);
    var j :| 0 <= j < |all| && all[j] == e;
    assert e in u || Matched(SegEquals, e, u);
    if e in u {
      var k :| 0 <= k < |u| && u[k] == e;
      SegEqualsProperties(e, e);
    }
  }

  /** The edges Edges returns for the first i triangles are a prefix of
      those it returns for all of them: edges come in first-occurrence
      order. */
  lemma EdgesOrder(vs: seq<Tri>, i: int)
    requires 0 <= i <= |vs|
    ensures UniqueBy(SegEquals, AllEdges(vs[..i])) <= UniqueBy(SegEquals, AllEdges(vs))
  {
    AllEdgesPrefix(vs, i);
    var all := AllEdges(vs);
    var n := |AllEdges(vs[..i])|;
    assert all[..n] == AllEdges(vs[..i]);
    UniqueByPrefix(SegEquals, all, n);
  }

  /** The body of the list transforms' loops: triangle tr moved by t
      through the Triangle method that performs t (UniScale is Scale with
      equal factors). Its three vertex slots join those already moved,
      whatever points they share with other triangles. */
  method TransformTriangle(tr: Triangle, t: Transform, ghost slots: seq<Point>,
                           ghost before: map<Point, Pos>, ghost done: seq<Point>)
    requires t.Translation? || t.Scaling?
    requires tr.PointA in slots && tr.PointB in slots && tr.PointC in slots
    requires Transformed(slots, before, done, t)
    modifies tr.PointA, tr.PointB, tr.PointC
    ensures Transformed(slots, before, done + tr.Slots(), t)
  {
    ghost var mid := Values(slots);
    if t.Translation? {
      tr.Translate(t.dx, t.dy);
    } else {
      tr.Scale(t.sx, t.sy);
    }
    TransformedStep(slots, before, mid, Values(slots), done, tr.Slots(), t);
  }

  class TriangleList {
    var triangles: seq<Triangle>

    /** NewTriangleList: no triangles. */
    constructor ()
      ensures triangles == []
    {
      triangles := [];
    }

    /** Add: the triangle itself goes at the end. */
    method Add(triangle: Triangle)
      modifies this
      ensures triangles == old(triangles) + [triangle]
    {
      triangles := triangles + [triangle];
    }

    /** Translate: every triangle moved by (x, y); the list is kept. */
    method Translate(x: real, y: real)
      modifies VertexSlots(triangles)
      ensures triangles == old(triangles)
      ensures Transformed(VertexSlots(triangles), old(Values(VertexSlots(triangles))),
                          VertexSlots(triangles), Translation(x, y))
    {
      ghost var slots := VertexSlots(triangles);
      ghost var before := Values(slots);
      ghost var done: seq<Point> := [];
      var i := 0;
      while i < |triangles|
        invariant 0 <= i <= |triangles| && done == VertexSlots(triangles[..i])
        invariant Transformed(slots, before, done, Translation(x, y))
      {
        VertexSlotsNext(triangles, i);
        TransformTriangle(triangles[i], Translation(x, y), slots, before, done);
        done, i := done + triangles[i].Slots(), i + 1;
      }
      assert triangles[..i] == triangles;
    }

    /** Scale: every triangle scaled by (sx, sy); the list is kept. */
    method Scale(sx: real, sy: real)
      modifies VertexSlots(triangles)
      ensures triangles == old(triangles)
      ensures Transformed(VertexSlots(triangles), old(Values(VertexSlots(triangles))),
                          VertexSlots(triangles), Scaling(sx, sy))
    {
      ghost var slots := VertexSlots(triangles);
      ghost var before := Values(slots);
      ghost var done: seq<Point> := [];
      var i := 0;
      while i < |triangles|
        invariant 0 <= i <= |triangles| && done == VertexSlots(triangles[..i])
        invariant Transformed(slots, before, done, Scaling(sx, sy))
      {
        VertexSlotsNext(triangles, i);
        TransformTriangle(triangles[i], Scaling(sx, sy), slots, before, done);
        done, i := done + triangles[i].Slots(), i + 1;
      }
      assert triangles[..i] == triangles;
    }

    /** UniScale: every triangle scaled equally on both axes. */
    method UniScale(scale: real)
      modifies VertexSlots(triangles)
      ensures triangles == old(triangles)
      ensures Transformed(VertexSlots(triangles), old(Values(VertexSlots(triangles))),
                          VertexSlots(triangles), Scaling(scale, scale))
    {
      ghost var slots := VertexSlots(triangles);
      ghost var before := Values(slots);
      ghost var done: seq<Point> := [];
      var i := 0;
      while i < |triangles|
        invariant 0 <= i <= |triangles| && done == VertexSlots(triangles[..i])
        invariant Transformed(slots, before, done, Scaling(scale, scale))
      {
        VertexSlotsNext(triangles, i);
        TransformTriangle(triangles[i], Scaling(scale, scale), slots, before, done);
        done, i := done + triangles[i].Slots(), i + 1;
      }
      assert triangles[..i] == triangles;
    }

    /** Edges: the new segments of each triangle's Edges, in order, each
        appended unless a segment already collected is Equals to it. */
    method Edges() returns (edges: GeomSegmentList.SegmentList)
      ensures fresh(edges)
      ensures GeomSegmentList.SegVals(edges.segments) == UniqueBy(SegEquals, AllEdges(TriVals(triangles)))
    {
      ghost var vs := TriVals(triangles);
      edges := new GeomSegmentList.SegmentList();
      ghost var u: seq<Seg> := [];
      var i := 0;
      while i < |triangles|
        invariant 0 <= i <= |triangles|
        invariant fresh(edges)
        invariant u == UniqueBy(SegEquals, AllEdges(vs[..i]))
        invariant |edges.segments| == |u|
        invariant forall k :: 0 <= k < |u| ==> edges.segments[k].Value() == u[k]
        modifies edges
      {
        var sides := triangles[i].Edges();
        AllEdgesNext(vs, i);
        u := AddSides(edges, sides, AllEdges(vs[..i]), TriEdges(vs[i]), u);
        i := i + 1;
      }
      assert vs[..i] == vs;
      GeomSegmentList.SegValsAre(edges.segments, u);
    }
  }

  /** The loop of TriangleList.Edges over the three sides of one triangle
      (with values es), run when the collected edges hold the unique
      edges of `prior`; the ghost result is what they hold afterwards. */
  method AddSides(edges: GeomSegmentList.SegmentList, sides: GeomSegmentList.SegmentList,
                  ghost prior: seq<Seg>, ghost es: seq<Seg>, ghost u0: seq<Seg>) returns (ghost u: seq<Seg>)
    requires edges != sides
    requires u0 == UniqueBy(SegEquals, prior)
    requires |edges.segments| == |u0|
    requires forall k :: 0 <= k < |u0| ==> edges.segments[k].Value() == u0[k]
    requires |sides.segments| == |es|
    requires forall k :: 0 <= k < |es| ==> sides.segments[k].Value() == es[k]
    modifies edges
    ensures u == UniqueBy(SegEquals, prior + es)
    ensures |edges.segments| == |u|
    ensures forall k :: 0 <= k < |u| ==> edges.segments[k].Value() == u[k]
  {
    u := u0;
    assert prior + es[..0] == prior;
    var j := 0;
    while j < |sides.segments|
      invariant 0 <= j <= |es|
      invariant u == UniqueBy(SegEquals, prior + es[..j])
      invariant |edges.segments| == |u|
      invariant forall k :: 0 <= k < |u| ==> edges.segments[k].Value() == u[k]
      modifies edges
    {
      var side := sides.segments[j];
      SeqUtil.TakeNext(es, j);
      assert prior + es[..j + 1] == (prior + es[..j]) + [side.Value()];
      u := AddSide(edges, side, prior + es[..j], u);
      j := j + 1;
    }
    assert es[..j] == es;
  }

  /** One turn of the loop of AddSides: the collected edges hold the
      unique edges of `prior` before, and of `prior` and side after. */
  method AddSide(edges: GeomSegmentList.SegmentList, side: Segment,
                 ghost prior: seq<Seg>, ghost u0: seq<Seg>) returns (ghost u: seq<Seg>)
    requires u0 == UniqueBy(SegEquals, prior)
    requires |edges.segments| == |u0|
    requires forall k :: 0 <= k < |u0| ==> edges.segments[k].Value() == u0[k]
    modifies edges
    ensures u == UniqueBy(SegEquals, prior + [side.Value()])
    ensures |edges.segments| == |u|
    ensures forall k :: 0 <= k < |u| ==> edges.segments[k].Value() == u[k]
  {
    AddIfNotFound(edges, side, u0);
    UniqueBySnoc(SegEquals, prior, side.Value());
    u := AddIfNew(SegEquals, u0, side.Value());
  }

  /** The inner loops of TriangleList.Edges for one side: search the
      collected edges for one that side is Equals to, and append side
      when there is none. The collected edges hold the values u. */
  method AddIfNotFound(edges: GeomSegmentList.SegmentList, side: Segment, ghost u: seq<Seg>)
    requires |edges.segments| == |u|
    requires forall k :: 0 <= k < |u| ==> edges.segments[k].Value() == u[k]
    modifies edges
    ensures |edges.segments| == |AddIfNew(SegEquals, u, side.Value())|
    ensures forall k :: 0 <= k < |edges.segments| ==>
      edges.segments[k].Value() == AddIfNew(SegEquals, u, side.Value())[k]
    ensures edges.segments == old(edges.segments) || edges.segments == old(edges.segments) + [side]
  {
    var found := false;
    var k := 0;
    while k < |edges.segments|
      invariant 0 <= k <= |edges.segments|
      invariant !found
      invariant forall m :: 0 <= m < k ==> !SegEquals(side.Value(), u[m])
      modifies {}
    {
      if side.Equals(edges.segments[k]) {
        found := true;
        break;
      }
      k := k + 1;
    }
    if !found {
      edges.segments := edges.segments + [side];
    }
  }
}
