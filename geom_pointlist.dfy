/** PointList of geom/pointlist.go: a slice of Point pointers. Cull and
    Unique keep the very objects of the receiver; Clone, Culled, Split and
    the sorts hand back new points. Point.Clone and Point.Equals are not
    part of this model: a clone is a new point with the same coordinates,
    and point equality is the caller's predicate `peq` on coordinates. */
module GeomPointList {
  import opened Wrappers
  import opened GeomPoint
  import opened GeomUnique
  import SeqUtil
  import Sorting

  /** The coordinates held by the points of ps, in order. */
  function Vals(ps: seq<Point>): (vs: seq<Pos>)
    reads ps
    ensures |vs| == |ps|
    ensures forall i :: 0 <= i < |ps| ==> vs[i] == ps[i].Value()
  {
    seq(|ps|, i requires 0 <= i < |ps| reads ps => ps[i].Value())
  }

  /** The coordinates in vs that pass the test, in order. */
  function KeptVals(vs: seq<Pos>, test: Pos -> bool): (r: seq<Pos>)
    ensures |r| <= |vs|
    ensures forall v :: v in r ==> v in vs && test(v)
    ensures forall v :: v in vs && test(v) ==> v in r
  {
    if vs == [] then []
    else
      var init, last := vs[..|vs| - 1], vs[|vs| - 1];
      assert vs == init + [last];
      KeptVals(init, test) + (if test(last) then [last] else [])
  }

  /** The objects of ps whose coordinates, listed alongside in vs, pass
      the test, in order: the objects Cull keeps. */
  function KeptBy(ps: seq<Point>, vs: seq<Pos>, test: Pos -> bool): seq<Point>
    requires |ps| == |vs|
  {
    if ps == [] then []
    else KeptBy(ps[..|ps| - 1], vs[..|vs| - 1], test) + (if test(vs[|vs| - 1]) then [ps[|ps| - 1]] else [])
  }

  /** Extending the prefixes by slot i appends that slot's object when its
      coordinates pass. */
  lemma KeptByNext(ps: seq<Point>, vs: seq<Pos>, test: Pos -> bool, i: int)
    requires |ps| == |vs| && 0 <= i < |ps|
    ensures KeptBy(ps[..i + 1], vs[..i + 1], test)
      == KeptBy(ps[..i], vs[..i], test) + (if test(vs[i]) then [ps[i]] else [])
  {
    assert ps[..i + 1][..i] == ps[..i];
    assert vs[..i + 1][..i] == vs[..i];
  }

  /** When vs lists the coordinates of ps, the kept objects hold exactly
      the kept coordinates, and each is an object of ps. */
  lemma {:induction false} KeptByValues(ps: seq<Point>, vs: seq<Pos>, test: Pos -> bool)
    requires |ps| == |vs|
    requires forall k :: 0 <= k < |ps| ==> ps[k].Value() == vs[k]
    ensures |KeptBy(ps, vs, test)| == |KeptVals(vs, test)|
    ensures forall k :: 0 <= k < |KeptVals(vs, test)| ==> KeptBy(ps, vs, test)[k].Value() == KeptVals(vs, test)[k]
    ensures forall q :: q in KeptBy(ps, vs, test) ==> q in ps
  {
    if ps != [] {
      KeptByValues(ps[..|ps| - 1], vs[..|vs| - 1], test);
    }
  }

  /** A test and its negation split the coordinates between them. */
  lemma {:induction false} KeptSplit(vs: seq<Pos>, test: Pos -> bool)
    ensures |KeptVals(vs, test)| + |KeptVals(vs, v => !test(v))| == |vs|
  {
    if vs != [] {
      KeptSplit(vs[..|vs| - 1], test);
    }
  }

  /** The order SortXY sorts by: x first, ties decided by y. */
  predicate LexXY(a: Pos, b: Pos) {
    a.x < b.x || (a.x == b.x && a.y <= b.y)
  }

  /** The order SortYX sorts by: y first, ties decided by x. */
  predicate LexYX(a: Pos, b: Pos) {
    a.y < b.y || (a.y == b.y && a.x <= b.x)
  }

  /** Both orders are total orders: they rank every pair, transitively,
      and rank two points equal only when the points coincide, so the
      sorted result does not depend on how the sort breaks ties. */
  lemma LexTotalOrders()
    ensures Sorting.TotalOrder(LexXY) && Sorting.TotalOrder(LexYX)
  {
  }

  /** The sorted coordinates are ordered, a permutation of the input, and
      the only ordered permutation of it. */
  lemma SortedXY(vs: seq<Pos>, other: seq<Pos>)
    ensures Sorting.SortedBy(Sorting.SortBy(vs, LexXY), LexXY)
    ensures multiset(Sorting.SortBy(vs, LexXY)) == multiset(vs)
    ensures Sorting.SortedBy(other, LexXY) && multiset(other) == multiset(vs) ==>
      other == Sorting.SortBy(vs, LexXY)
  {
    LexTotalOrders();
    Sorting.SortBySorted(vs, LexXY);
    if Sorting.SortedBy(other, LexXY) && multiset(other) == multiset(vs) {
      Sorting.SortedUnique(other, Sorting.SortBy(vs, LexXY), LexXY);
    }
  }

  /** The same for the y-first order. */
  lemma SortedYX(vs: seq<Pos>, other: seq<Pos>)
    ensures Sorting.SortedBy(Sorting.SortBy(vs, LexYX), LexYX)
    ensures multiset(Sorting.SortBy(vs, LexYX)) == multiset(vs)
    ensures Sorting.SortedBy(other, LexYX) && multiset(other) == multiset(vs) ==>
      other == Sorting.SortBy(vs, LexYX)
  {
    LexTotalOrders();
    Sorting.SortBySorted(vs, LexYX);
    if Sorting.SortedBy(other, LexYX) && multiset(other) == multiset(vs) {
      Sorting.SortedUnique(other, Sorting.SortBy(vs, LexYX), LexYX);
    }
  }

  /** Uniqued as written hands back every point: for a point listed twice
      the clone keeps both, where Unique keeps one. */
  lemma UniquedDiscrepancy(peq: (Pos, Pos) -> bool, v: Pos)
    requires peq(v, v)
    ensures UniqueBy(peq, [v, v]) == [v]
    ensures |UniqueBy(peq, [v, v])| < |[v, v]|
  {
    assert [v, v][..1] == [v];
    assert [v][..0] == [];
    assert peq(v, [v][0]);
    assert Matched(peq, v, [v]);
    assert UniqueBy(peq, [v]) == [v];
  }

  class PointList {
    var points: seq<Point>

    /** NewPointList: no points. */
    constructor ()
      ensures points == []
    {
      points := [];
    }

    /** Add: the point itself (not a copy) goes at the end. */
    method Add(point: Point)
      modifies this
      ensures points == old(points) + [point]
    {
      points := points + [point];
    }

    /** AddXY: a new point with these coordinates goes at the end. */
    method AddXY(x: real, y: real)
      modifies this
      ensures |points| == |old(points)| + 1 && points[..|old(points)|] == old(points)
      ensures fresh(points[|old(points)|]) && points[|old(points)|].Value() == Pos(x, y)
    {
      var p := new Point(x, y);
      points := points + [p];
    }

    /** Insert: an index outside [0, len) is an error and changes nothing
        (so Insert never appends); otherwise the point goes at index and
        the points from index on move up by one. */
    method Insert(index: int, point: Point) returns (err: Option<string>)
      modifies this
      ensures index < 0 || index >= |old(points)| ==> err == Some("index out of range") && points == old(points)
      ensures 0 <= index < |old(points)| ==> err == None && points == SeqUtil.InsertAt(old(points), index, point)
    {
      if index < 0 || index >= |points| {
        return Some("index out of range");
      }
      ghost var before := points;
      points := points[..index + 1] + points[index..];
      points := points[index := point];
      assert points == SeqUtil.InsertAt(before, index, point);
      err := None;
    }

    /** First: the point at index 0 (Go panics on an empty list). */
    function First(): (p: Point)
      reads this
      requires |points| > 0
      ensures p in points && p == points[0]
    {
      points[0]
    }

    /** Last: the point at the last index. */
    function Last(): (p: Point)
      reads this
      requires |points| > 0
      ensures p in points && p == points[|points| - 1]
    {
      points[|points| - 1]
    }

    /** Get: a negative index counts back from the end; any index outside
        [-len, len) panics in Go, so it is excluded here. */
    function Get(index: int): (p: Point)
      reads this
      requires -|points| <= index < |points|
      ensures p in points
    {
      if index < 0 then points[|points| + index] else points[index]
    }

    /** Get(i) and Get(i - len) are the same slot; Get(0) is First and
        Get(-1) is Last. */
    lemma GetNegative(i: int)
      requires 0 <= i < |points|
      ensures Get(i - |points|) == Get(i) == points[i]
      ensures Get(0) == First() && Get(-1) == Last()
    {
    }

    /** Cull: the receiver keeps exactly the points that pass, in order. */
    method Cull(test: Pos -> bool)
      modifies this
      ensures points == old(KeptBy(points, Vals(points), test))
      ensures Vals(points) == old(KeptVals(Vals(points), test))
    {
      ghost var vs := Vals(points);
      var out: seq<Point> := [];
      var i := 0;
      while i < |points|
        invariant 0 <= i <= |points|
        invariant out == KeptBy(points[..i], vs[..i], test)
        modifies {}
      {
        KeptByNext(points, vs, test, i);
        if test(points[i].Value()) {
          out := out + [points[i]];
        }
        i := i + 1;
      }
      assert out == KeptBy(points, vs, test) by {
        assert points[..i] == points && vs[..i] == vs;
      }
      KeptByValues(points, vs, test);
      points := out;
      assert Vals(points) == KeptVals(vs, test);
    }

    /** Clone: a new list of new points, one per slot, with the same
        coordinates in the same order. */
    method Clone() returns (temp: PointList)
      ensures fresh(temp)
      ensures Vals(temp.points) == Vals(points)
      ensures forall k :: 0 <= k < |temp.points| ==> fresh(temp.points[k])
      ensures forall j, k :: 0 <= j < k < |temp.points| ==> temp.points[j] != temp.points[k]
    {
      temp := new PointList();
      var i := 0;
      while i < |points|
        invariant 0 <= i <= |points|
        invariant fresh(temp) && |temp.points| == i
        invariant forall k :: 0 <= k < i ==> temp.points[k].Value() == points[k].Value()
        invariant forall k :: 0 <= k < i ==> fresh(temp.points[k])
        invariant forall j, k :: 0 <= j < k < i ==> temp.points[j] != temp.points[k]
      {
        var q := new Point(points[i].X, points[i].Y);
        temp.Add(q);
        i := i + 1;
      }
    }

    /** Culled: a new list holding copies of the points that pass. */
    method Culled(test: Pos -> bool) returns (p1: PointList)
      ensures fresh(p1)
      ensures Vals(p1.points) == KeptVals(Vals(points), test)
    {
      ghost var vs := Vals(points);
      p1 := Clone();
      ghost var cv := Vals(p1.points);
      p1.Cull(test);
      assert Vals(points) == vs == cv;
    }

    /** Split: the receiver keeps the points that pass; copies of the
        others come back in a new list, both in their original order. */
    method Split(test: Pos -> bool) returns (culled: PointList)
      modifies this
      ensures points == old(KeptBy(points, Vals(points), test))
      ensures fresh(culled)
      ensures Vals(culled.points) == KeptVals(old(Vals(points)), v => !test(v))
    {
      ghost var vs := Vals(points);
      culled := Culled(v => !test(v));
      assert Vals(points) == vs;
      ghost var cv := Vals(culled.points);
      Cull(test);
      assert Vals(culled.points) == cv;
    }

    /** Translate: every slot's point moved by (x, y); a point listed in
        k slots moves k times. */
    method Translate(x: real, y: real)
      modifies points
      ensures Transformed(points, old(Values(points)), points, Translation(x, y))
    {
      ghost var before := Values(points);
      var i := 0;
      while i < |points|
        invariant 0 <= i <= |points|
        invariant Transformed(points, before, points[..i], Translation(x, y))
      {
        TransformPoint(points[i], Translation(x, y), points, before, points[..i]);
        SeqUtil.TakeNext(points, i);
        i := i + 1;
      }
      assert points[..i] == points;
    }

    /** Unique: a new list of the receiver's own points, each kept unless a
        point already kept is peq to it; the receiver is not changed. */
    method Unique(peq: (Pos, Pos) -> bool) returns (temp: PointList)
      ensures fresh(temp)
      ensures Vals(temp.points) == UniqueBy(peq, Vals(points))
      ensures forall q :: q in temp.points ==> q in points
    {
      ghost var vs := Vals(points);
      temp := new PointList();
      var i := 0;
      while i < |points|
        invariant 0 <= i <= |points|
        invariant fresh(temp)
        invariant |temp.points| == |UniqueBy(peq, vs[..i])|
        invariant forall k :: 0 <= k < |temp.points| ==> temp.points[k].Value() == UniqueBy(peq, vs[..i])[k]
        invariant forall q :: q in temp.points ==> q in points
      {
        ghost var u := UniqueBy(peq, vs[..i]);
        var found := false;
        var j := 0;
        while j < |temp.points|
          invariant 0 <= j <= |temp.points|
          invariant !found
          invariant forall k :: 0 <= k < j ==> !peq(vs[i], u[k])
        {
          if peq(points[i].Value(), temp.points[j].Value()) {
            found := true;
            break;
          }
          j := j + 1;
        }
        SeqUtil.TakeNext(vs, i);
        assert UniqueBy(peq, vs[..i + 1]) == AddIfNew(peq, u, vs[i]);
        if !found {
          temp.Add(points[i]);
        }
        i := i + 1;
      }
      assert vs[..i] == vs;
    }

    /** Uniqued as written: the result of Unique on the clone is dropped, so
        every point comes back, duplicates included. */
    method Uniqued(peq: (Pos, Pos) -> bool) returns (p1: PointList)
      ensures fresh(p1)
      ensures Vals(p1.points) == Vals(points)
    {
      p1 := Clone();
      var _ := p1.Unique(peq);
    }

    /** Uniqued as intended: a new list of copies with duplicates removed,
        as Unique removes them. */
    method UniquedIntended(peq: (Pos, Pos) -> bool) returns (p1: PointList)
      ensures fresh(p1)
      ensures Vals(p1.points) == UniqueBy(peq, Vals(points))
    {
      var c := Clone();
      p1 := c.Unique(peq);
    }

    /** SortXY: a new list of copies, ordered by x and then y; the receiver
        is not changed. */
    method SortXY() returns (temp: PointList)
      ensures fresh(temp)
      ensures Vals(temp.points) == Sorting.SortBy(Vals(points), LexXY)
    {
      temp := FromValues(Sorting.SortBy(Vals(points), LexXY));
    }

    /** SortYX: a new list of copies, ordered by y and then x. */
    method SortYX() returns (temp: PointList)
      ensures fresh(temp)
      ensures Vals(temp.points) == Sorting.SortBy(Vals(points), LexYX)
    {
      temp := FromValues(Sorting.SortBy(Vals(points), LexYX));
    }
  }

  /** A new list of new points holding vs in order. */
  method FromValues(vs: seq<Pos>) returns (temp: PointList)
    ensures fresh(temp)
    ensures Vals(temp.points) == vs
  {
    temp := new PointList();
    var i := 0;
    while i < |vs|
      invariant 0 <= i <= |vs|
      invariant fresh(temp) && |temp.points| == i
      invariant forall k :: 0 <= k < i ==> temp.points[k].Value() == vs[k]
    {
      temp.AddXY(vs[i].x, vs[i].y);
      i := i + 1;
    }
  }
}
