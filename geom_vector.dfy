/** Vector of geom/vector.go. Every method returns a new vector and none
    changes its receiver, so a vector is a value here. */
module GeomVector {
  import BlMath
  import opened GeomPoint

  datatype Vector = Vector(u: real, v: real)

  /** VectorBetween: the displacement from (x0, y0) to (x1, y1). */
  function VectorBetween(x0: real, y0: real, x1: real, y1: real): (r: Vector)
    ensures x0 + r.u == x1 && y0 + r.v == y1
  {
    Vector(x1 - x0, y1 - y0)
  }

  /** VectorFromPoints: the displacement that carries p0 onto p1. */
  function VectorFromPoints(p0: Pos, p1: Pos): (r: Vector)
    ensures r == VectorBetween(p0.x, p0.y, p1.x, p1.y)
    ensures Apply(Translation(r.u, r.v), p0) == p1
  {
    Vector(p1.x - p0.x, p1.y - p0.y)
  }

  function Add(a: Vector, b: Vector): Vector {
    Vector(a.u + b.u, a.v + b.v)
  }

  function Subtract(a: Vector, b: Vector): Vector {
    Vector(a.u - b.u, a.v - b.v)
  }

  function DotProduct(a: Vector, b: Vector): real {
    a.u * b.u + a.v * b.v
  }

  function CrossProduct(a: Vector, b: Vector): real {
    a.u * b.v - a.v * b.u
  }

  function Scaled(a: Vector, factor: real): Vector {
    Vector(a.u * factor, a.v * factor)
  }

  /** Abs: each component made non-negative, keeping its magnitude. */
  function Abs(a: Vector): (r: Vector)
    ensures r.u >= 0.0 && r.v >= 0.0
    ensures (r.u == a.u || r.u == -a.u) && (r.v == a.v || r.v == -a.v)
  {
    Vector(BlMath.RAbs(a.u), BlMath.RAbs(a.v))
  }

  /** Max: each component raised to at least `other`. */
  function Max(a: Vector, other: real): (r: Vector)
    ensures r.u >= a.u && r.u >= other && (r.u == a.u || r.u == other)
    ensures r.v >= a.v && r.v >= other && (r.v == a.v || r.v == other)
  {
    Vector(BlMath.RMax(a.u, other), BlMath.RMax(a.v, other))
  }

  /** Min: each component lowered to at most `other`. */
  function Min(a: Vector, other: real): (r: Vector)
    ensures r.u <= a.u && r.u <= other && (r.u == a.u || r.u == other)
    ensures r.v <= a.v && r.v <= other && (r.v == a.v || r.v == other)
  {
    Vector(BlMath.RMin(a.u, other), BlMath.RMin(a.v, other))
  }

  /** Add and Subtract undo each other and Add commutes; the dot product
      is symmetric; the cross product is antisymmetric and zero for a
      vector with itself. */
  lemma VectorAlgebra(a: Vector, b: Vector)
    ensures Subtract(Add(a, b), b) == a && Add(Subtract(a, b), b) == a
    ensures Add(a, b) == Add(b, a)
    ensures DotProduct(a, b) == DotProduct(b, a)
    ensures CrossProduct(a, b) == -CrossProduct(b, a)
    ensures CrossProduct(a, a) == 0.0
  {
  }

  /** Scaling a vector scales both products; adding a multiple of b to a
      leaves the cross product with b unchanged. */
  lemma VectorScaling(a: Vector, b: Vector, f: real)
    ensures DotProduct(Scaled(a, f), b) == f * DotProduct(a, b)
    ensures CrossProduct(Scaled(a, f), b) == f * CrossProduct(a, b)
    ensures CrossProduct(Add(a, Scaled(b, f)), b) == CrossProduct(a, b)
  {
    ScaledTerms(a.u, b.u, a.v, b.v, f);
    ScaledTerms(a.u, b.v, a.v, b.u, f);
  }

  /** The polynomial identities behind VectorScaling, on the components. */
  lemma ScaledTerms(p: real, q: real, r: real, s: real, f: real)
    ensures (p * f) * q + (r * f) * s == f * (p * q + r * s)
    ensures (p * f) * q - (r * f) * s == f * (p * q - r * s)
    ensures (p + q * f) * s - (r + s * f) * q == p * s - r * q
  {
  }
}
