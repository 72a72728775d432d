/** Rect of geom/rect.go: a corner (X, Y) and a size (W, H), with the
    containment and collision tests delegated to geom/collision.go. */
module GeomRect {
  import BlMath
  import opened GeomPoint
  import opened GeomSegment
  import opened GeomCollision

  datatype Rect = Rect(x: real, y: real, w: real, h: real)

  /** NewRect: stores X, Y, W and H as given. */
  function NewRect(x: real, y: real, w: real, h: real): (r: Rect)
    ensures r.x == x && r.y == y && r.w == w && r.h == h
  {
    Rect(x, y, w, h)
  }

  /** Contains: the point is inside the rectangle or on any of its edges. */
  function Contains(r: Rect, p: Pos): (b: bool)
    ensures b <==> r.x <= p.x <= r.x + r.w && r.y <= p.y <= r.y + r.h
  {
    PointInRect(p.x, p.y, r.x, r.y, r.w, r.h)
  }

  /** HitRect: RectOnRect of the two rectangles; a point both contain
      makes them hit. */
  function HitRect(r: Rect, s: Rect): (b: bool)
    ensures !b <==> s.x > r.x + r.w || s.x + s.w < r.x || s.y > r.y + r.h || s.y + s.h < r.y
    ensures forall p :: Contains(r, p) && Contains(s, p) ==> b
  {
    RectOnRect(r.x, r.y, r.w, r.h, s.x, s.y, s.w, s.h)
  }

  /** HitSegment: the segment, given by its two endpoints, hits one of the
      rectangle's four sides; the hit point is then on the segment and on
      that side. */
  function HitSegment(r: Rect, s: Seg): (b: bool)
    ensures b ==> exists px, py :: OnSegment(px, py, s.a.x, s.a.y, s.b.x, s.b.y) && OnRectSide(px, py, r.x, r.y, r.w, r.h)
  {
    var b := SegmentOnRect(s.a.x, s.a.y, s.b.x, s.b.y, r.x, r.y, r.w, r.h);
    if b then
      SegmentOnRectMeaning(s.a.x, s.a.y, s.b.x, s.b.y, r.x, r.y, r.w, r.h);
      b
    else b
  }

  /** HitRect is symmetric; a rectangle with non-negative size contains
      its two opposite corners and hits itself; overlapping rectangles of
      non-negative size share a point. */
  lemma RectProperties(r: Rect, s: Rect)
    ensures HitRect(r, s) == HitRect(s, r)
    ensures r.w >= 0.0 && r.h >= 0.0 ==>
      Contains(r, Pos(r.x, r.y)) && Contains(r, Pos(r.x + r.w, r.y + r.h)) && HitRect(r, r)
    ensures r.w >= 0.0 && r.h >= 0.0 && s.w >= 0.0 && s.h >= 0.0 && HitRect(r, s) ==>
      exists p :: Contains(r, p) && Contains(s, p)
  {
    RectOnRectMeaning(r.x, r.y, r.w, r.h, s.x, s.y, s.w, s.h, r.x, r.y);
    if r.w >= 0.0 && r.h >= 0.0 && s.w >= 0.0 && s.h >= 0.0 && HitRect(r, s) {
      var c := Pos(BlMath.RMax(r.x, s.x), BlMath.RMax(r.y, s.y));
      assert Contains(r, c) && Contains(s, c);
    }
  }
}
