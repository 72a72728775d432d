/** Tolerance helpers of geom/utils.go. */
module GeomUtils {
  import BlMath

  /** The tolerance of AreClose: 1e-5. */
  const Epsilon: real := 0.00001

  /** AreClose: the two values differ by strictly less than Epsilon. */
  predicate AreClose(a: real, b: real) {
    BlMath.RAbs(a - b) < Epsilon
  }

  /** IsCloseToOne: AreClose to 1. */
  predicate IsCloseToOne(v: real) {
    AreClose(v, 1.0)
  }

  /** IsCloseToZero: AreClose to 0. */
  predicate IsCloseToZero(v: real) {
    AreClose(v, 0.0)
  }

  /** tIsValid: a curve or segment parameter inside [0, 1]. */
  predicate TIsValid(t: real) {
    t >= 0.0 && t <= 1.0
  }

  /** AreClose is reflexive and symmetric, means lying strictly inside the
      open band of half-width Epsilon, and so fails exactly at distance
      Epsilon, unlike the inclusive Equalish with the same delta. */
  lemma AreCloseMeaning(a: real, b: real)
    ensures AreClose(a, a)
    ensures AreClose(a, b) == AreClose(b, a)
    ensures AreClose(a, b) <==> a - Epsilon < b < a + Epsilon
    ensures AreClose(a, b) <==> BlMath.Equalish(a, b, Epsilon) && BlMath.Difference(a, b) != Epsilon
    ensures !AreClose(a, a + Epsilon) && BlMath.Equalish(a, a + Epsilon, Epsilon)
    ensures IsCloseToOne(b) <==> 1.0 - Epsilon < b < 1.0 + Epsilon
    ensures IsCloseToZero(b) <==> -Epsilon < b < Epsilon
  {
  }

  /** tIsValid holds exactly on the closed unit interval, ends included. */
  lemma TIsValidMeaning(t: real)
    ensures TIsValid(t) <==> BlMath.Clamp(t, 0.0, 1.0) == t
    ensures TIsValid(0.0) && TIsValid(1.0)
  {
  }
}
