/** OpenInterval of geom/interval.go: the open interval (Start, End).
    The constructor's fatal exit on start > end is an Err here. */
module GeomInterval {
  import opened Wrappers
  import BlMath
  import opened GeomUtils

  datatype OpenInterval = OpenInterval(start: real, end: real)

  /** The message NewOpenInterval exits with. */
  const StartAfterEnd: string := "OpenInterval: start should be smaller than end."

  /** An interval the constructor accepts. */
  predicate Valid(o: OpenInterval) {
    o.start <= o.end
  }

  /** NewOpenInterval: fails exactly when start > end; otherwise the
      interval is valid, with a non-negative length. */
  function NewOpenInterval(start: real, end: real): (r: Result<OpenInterval>)
    ensures r.Err? <==> start > end
    ensures r.Err? ==> r.message == StartAfterEnd
    ensures r.Ok? ==> r.value.start == start && r.value.end == end && Valid(r.value) && Length(r.value) >= 0.0
  {
    if start > end then Err(StartAfterEnd) else Ok(OpenInterval(start, end))
  }

  /** Length: how far End lies past Start. */
  function Length(o: OpenInterval): (r: real)
    ensures o.start + r == o.end
    ensures Valid(o) <==> r >= 0.0
  {
    o.end - o.start
  }

  /** Contains: strictly between the ends, which are both excluded. */
  function Contains(o: OpenInterval, value: real): (b: bool)
    ensures b ==> value != o.start && value != o.end
    ensures b <==> o.start < value < o.end
  {
    o.start < value && value < o.end
  }

  /** Overlaps: the ends are pairwise close, or one interval contains an
      end of the other. */
  predicate Overlaps(o: OpenInterval, p: OpenInterval) {
    if AreClose(o.start, p.start) && AreClose(o.end, p.end) then true
    else Contains(o, p.start) || Contains(o, p.end) || Contains(p, o.start) || Contains(p, o.end)
  }

  /** Overlaps is symmetric; it holds for intervals whose ends are close
      even when neither contains an end of the other; and between valid
      intervals whose ends are not pairwise close, the larger start is at
      most the smaller end whenever they overlap. */
  lemma OverlapsProperties(o: OpenInterval, p: OpenInterval)
    ensures Overlaps(o, p) == Overlaps(p, o)
    ensures Overlaps(OpenInterval(0.0, 0.000001), OpenInterval(0.000004, 0.000005))
    ensures Valid(o) && Valid(p) && !(AreClose(o.start, p.start) && AreClose(o.end, p.end)) ==>
      (Overlaps(o, p) ==> BlMath.RMax(o.start, p.start) <= BlMath.RMin(o.end, p.end))
  {
    AreCloseMeaning(o.start, p.start);
    AreCloseMeaning(o.end, p.end);
  }

  /** ComputeOverlap as written: nil when the intervals do not overlap,
      otherwise NewOpenInterval of the larger start and the smaller end,
      which exits when those are in the wrong order. */
  function ComputeOverlap(o: OpenInterval, p: OpenInterval): (r: Result<Option<OpenInterval>>)
    ensures r == Ok(None) <==> !Overlaps(o, p)
    ensures r.Ok? && r.value.Some? ==>
      r.value.value == OpenInterval(BlMath.RMax(o.start, p.start), BlMath.RMin(o.end, p.end))
    ensures r.Err? ==> Overlaps(o, p) && r.message == StartAfterEnd
  {
    if !Overlaps(o, p) then Ok(None)
    else
      match NewOpenInterval(BlMath.RMax(o.start, p.start), BlMath.RMin(o.end, p.end))
      case Err(m) => Err(m)
      case Ok(i) => Ok(Some(i))
  }

  /** Between valid intervals ComputeOverlap only exits when the ends are
      pairwise close, and these two valid intervals make it exit: their
      starts and their ends are within 1e-5, but the larger start lies
      past the smaller end. */
  lemma ComputeOverlapFatal(o: OpenInterval, p: OpenInterval)
    ensures Valid(o) && Valid(p) && ComputeOverlap(o, p).Err? ==>
      AreClose(o.start, p.start) && AreClose(o.end, p.end)
    ensures ComputeOverlap(OpenInterval(0.0, 0.000001), OpenInterval(0.000004, 0.000005)).Err?
  {
    OverlapsProperties(o, p);
    OverlapsProperties(OpenInterval(0.0, 0.000001), OpenInterval(0.000004, 0.000005));
  }

  /** ComputeOverlap corrected to never exit: when the tolerant match
      leaves the larger start past the smaller end there is no common
      point, and the result is nil. */
  function ComputeOverlapIntended(o: OpenInterval, p: OpenInterval): (r: Option<OpenInterval>)
    ensures r.Some? <==> Overlaps(o, p) && BlMath.RMax(o.start, p.start) <= BlMath.RMin(o.end, p.end)
    ensures r.Some? ==> Valid(r.value)
    ensures r.Some? ==> o.start <= r.value.start && p.start <= r.value.start && r.value.end <= o.end && r.value.end <= p.end
    ensures r.Some? ==> forall v :: Contains(r.value, v) <==> Contains(o, v) && Contains(p, v)
  {
    var lo := BlMath.RMax(o.start, p.start);
    var hi := BlMath.RMin(o.end, p.end);
    if Overlaps(o, p) && lo <= hi then Some(OpenInterval(lo, hi)) else None
  }

  /** The corrected version agrees with the source wherever the source
      does not exit. */
  lemma ComputeOverlapAgrees(o: OpenInterval, p: OpenInterval)
    ensures ComputeOverlap(o, p).Ok? ==> ComputeOverlap(o, p).value == ComputeOverlapIntended(o, p)
  {
  }
}
