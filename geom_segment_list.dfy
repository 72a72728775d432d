/** SegmentList of geom/segment_list.go: a slice of Segment pointers whose
    in-place transforms loop over the segments. A point shared by several
    segments, or a segment listed twice, is transformed once per slot that
    holds it; the contracts say so through GeomPoint.Transformed over the
    endpoint slots of the list. */
module GeomSegmentList {
  import opened GeomPoint
  import opened GeomSegment

  /** The endpoint slots of ss, segment by segment, PointA before PointB. */
  function EndpointSlots(ss: seq<Segment>): (r: seq<Point>)
    ensures |r| == 2 * |ss|
  {
    if ss == [] then [] else EndpointSlots(ss[..|ss| - 1]) + ss[|ss| - 1].Slots()
  }

  /** The endpoint values of the segments, in list order. */
  function SegVals(ss: seq<Segment>): (r: seq<Seg>)
    reads set s | s in ss :: s.PointA, set s | s in ss :: s.PointB
    ensures |r| == |ss|
    ensures forall i :: 0 <= i < |ss| ==> r[i] == ss[i].Value()
  {
    seq(|ss|, i requires 0 <= i < |ss|
               reads set s | s in ss :: s.PointA, set s | s in ss :: s.PointB => ss[i].Value())
  }

  /** Segments holding the values u, index by index, have SegVals u. */
  lemma SegValsAre(ss: seq<Segment>, u: seq<Seg>)
    requires |ss| == |u|
    requires forall k :: 0 <= k < |u| ==> ss[k].Value() == u[k]
    ensures SegVals(ss) == u
  {
  }

  /** The slots of a prefix of the list are a prefix of its slots. */
  lemma {:induction false} EndpointSlotsPrefix(ss: seq<Segment>, i: int)
    requires 0 <= i <= |ss|
    ensures EndpointSlots(ss[..i]) <= EndpointSlots(ss)
    decreases |ss|
  {
    if i < |ss| {
      assert ss[..|ss| - 1][..i] == ss[..i];
      EndpointSlotsPrefix(ss[..|ss| - 1], i);
    } else {
      assert ss[..i] == ss;
    }
  }

  /** The slots of the first i + 1 segments extend those of the first i by
      the endpoints of segment i, which are slots of the whole list. */
  lemma EndpointSlotsNext(ss: seq<Segment>, i: int)
    requires 0 <= i < |ss|
    ensures EndpointSlots(ss[..i + 1]) == EndpointSlots(ss[..i]) + ss[i].Slots()
    ensures ss[i].PointA in EndpointSlots(ss) && ss[i].PointB in EndpointSlots(ss)
  {
    assert ss[..i + 1][..i] == ss[..i];
    EndpointSlotsPrefix(ss, i + 1);
    var r := EndpointSlots(ss[..i + 1]);
    assert r[2 * i] == ss[i].PointA && r[2 * i + 1] == ss[i].PointB;
    assert EndpointSlots(ss)[2 * i] == ss[i].PointA;
    assert EndpointSlots(ss)[2 * i + 1] == ss[i].PointB;
  }

  /** The body of the list transforms' loops: segment s moved by t through
      the Segment method that performs t. Its two endpoint slots join those
      already moved, whatever points they share with other segments. */
  method TransformSegment(s: Segment, t: Transform, ghost slots: seq<Point>,
                          ghost before: map<Point, Pos>, ghost done: seq<Point>)
    requires s.PointA in slots && s.PointB in slots
    requires Transformed(slots, before, done, t)
    modifies s.PointA, s.PointB
    ensures Transformed(slots, before, done + s.Slots(), t)
  {
    ghost var mid := Values(slots);
    match t {
      case Translation(dx, dy) => s.Translate(dx, dy);
      case Scaling(sx, sy) => s.Scale(sx, sy);
      case ScalingFrom(cx, cy, fx, fy) => s.ScaleFrom(cx, cy, fx, fy);
    }
    TransformedStep(slots, before, mid, Values(slots), done, s.Slots(), t);
  }

  class SegmentList {
    var segments: seq<Segment>

    /** NewSegmentList: no segments. */
    constructor ()
      ensures segments == []
    {
      segments := [];
    }

    /** Add: the segment itself (not a copy) goes at the end. */
    method Add(segment: Segment)
      modifies this
      ensures segments == old(segments) + [segment]
    {
      segments := segments + [segment];
    }

    /** AddXY: a new segment with exactly these endpoints goes at the end. */
    method AddXY(x0: real, y0: real, x1: real, y1: real)
      modifies this
      ensures |segments| == |old(segments)| + 1 && segments[..|old(segments)|] == old(segments)
      ensures var s := segments[|old(segments)|];
        fresh(s) && fresh(s.PointA) && fresh(s.PointB) && s.Value() == Seg(Pos(x0, y0), Pos(x1, y1))
    {
      var s := new Segment(x0, y0, x1, y1);
      segments := segments + [s];
    }

    /** Translate: every segment moved by (x, y); the list itself is kept. */
    method Translate(x: real, y: real)
      modifies EndpointSlots(segments)
      ensures segments == old(segments)
      ensures Transformed(EndpointSlots(segments), old(Values(EndpointSlots(segments))),
                          EndpointSlots(segments), Translation(x, y))
    {
      ghost var slots := EndpointSlots(segments);
      ghost var before := Values(slots);
      ghost var done: seq<Point> := [];
      var i := 0;
      while i < |segments|
        invariant 0 <= i <= |segments| && done == EndpointSlots(segments[..i])
        invariant Transformed(slots, before, done, Translation(x, y))
      {
        EndpointSlotsNext(segments, i);
        TransformSegment(segments[i], Translation(x, y), slots, before, done);
        done, i := done + segments[i].Slots(), i + 1;
      }
      assert segments[..i] == segments;
    }

    /** Scale: every segment scaled by (sx, sy); the list itself is kept. */
    method Scale(sx: real, sy: real)
      modifies EndpointSlots(segments)
      ensures segments == old(segments)
      ensures Transformed(EndpointSlots(segments), old(Values(EndpointSlots(segments))),
                          EndpointSlots(segments), Scaling(sx, sy))
    {
      ghost var slots := EndpointSlots(segments);
      ghost var before := Values(slots);
      ghost var done: seq<Point> := [];
      var i := 0;
      while i < |segments|
        invariant 0 <= i <= |segments| && done == EndpointSlots(segments[..i])
        invariant Transformed(slots, before, done, Scaling(sx, sy))
      {
        EndpointSlotsNext(segments, i);
        TransformSegment(segments[i], Scaling(sx, sy), slots, before, done);
        done, i := done + segments[i].Slots(), i + 1;
      }
      assert segments[..i] == segments;
    }

    /** ScaleFrom: every segment scaled about the one fixed point (x, y). */
    method ScaleFrom(x: real, y: real, sx: real, sy: real)
      modifies EndpointSlots(segments)
      ensures segments == old(segments)
      ensures Transformed(EndpointSlots(segments), old(Values(EndpointSlots(segments))),
                          EndpointSlots(segments), ScalingFrom(x, y, sx, sy))
    {
      ghost var slots := EndpointSlots(segments);
      ghost var before := Values(slots);
      ghost var done: seq<Point> := [];
      var i := 0;
      while i < |segments|
        invariant 0 <= i <= |segments| && done == EndpointSlots(segments[..i])
        invariant Transformed(slots, before, done, ScalingFrom(x, y, sx, sy))
      {
        EndpointSlotsNext(segments, i);
        TransformSegment(segments[i], ScalingFrom(x, y, sx, sy), slots, before, done);
        done, i := done + segments[i].Slots(), i + 1;
      }
      assert segments[..i] == segments;
    }
  }
}
