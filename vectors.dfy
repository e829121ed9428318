/**
 * Plane vectors and rotations (src/vect.c) over the reals. A rotation is kept as the
 * (sin, cos) pair the library caches; only the arithmetic of vect.c is modelled, the
 * trigonometric helpers that build a rotation from an angle are not.
 */
module Vectors {
  datatype Vect = Vect(x: real, y: real)

  const Zero: Vect := Vect(0.0, 0.0)

  function Add(a: Vect, b: Vect): Vect
  {
    Vect(a.x + b.x, a.y + b.y)
  }

  function Sub(a: Vect, b: Vect): Vect
  {
    Vect(a.x - b.x, a.y - b.y)
  }

  function Scale(a: Vect, k: real): Vect
  {
    Vect(a.x * k, a.y * k)
  }

  /** Squared magnitude; jwb_vect_magnitude is its square root. */
  function Norm2(v: Vect): real
  {
    v.x * v.x + v.y * v.y
  }

  /** `mag` is what jwb_vect_magnitude returns for `v`. */
  predicate IsMagnitudeOf(mag: real, v: Vect)
  {
    mag >= 0.0 && mag * mag == Norm2(v)
  }

  /** `mag` computes magnitudes, as jwb_vect_magnitude does. */
  ghost predicate Magnitude(mag: Vect -> real)
  {
    forall v :: IsMagnitudeOf(mag(v), v)
  }

  datatype Rotation = Rotation(sin: real, cos: real)

  /** A proper rotation: sin^2 + cos^2 = 1. */
  predicate IsUnit(r: Rotation)
  {
    r.sin * r.sin + r.cos * r.cos == 1.0
  }

  /** jwb_rotation_flip: the rotation by the opposite angle. */
  function Flip(r: Rotation): (f: Rotation)
    ensures IsUnit(f) <==> IsUnit(r)
  {
    Rotation(-r.sin, r.cos)
  }

  /** jwb_vect_rotate. */
  function Rotate(v: Vect, r: Rotation): Vect
  {
    Vect(v.x * r.cos - v.y * r.sin, v.x * r.sin + v.y * r.cos)
  }

  /** A unit rotation keeps the magnitude. */
  lemma RotateKeepsNorm(v: Vect, r: Rotation)
    requires IsUnit(r)
    ensures Norm2(Rotate(v, r)) == Norm2(v)
  {
    RotatedNorm(v.x, v.y, r.sin, r.cos);
  }

  /** jwb_vect_rotation, with the magnitude of `v` given instead of computed. */
  function RotationOf(v: Vect, mag: real): (r: Rotation)
    requires mag != 0.0
    ensures IsMagnitudeOf(mag, v) ==> IsUnit(r)
  {
    var r := Rotation(v.y / mag, v.x / mag);
    if IsMagnitudeOf(mag, v) then
      UnitQuotients(v.x, v.y, mag);
      r
    else
      r
  }

  /** Rotating by a unit rotation and then by its flip gives the vector back. */
  lemma RotateFlipUndoes(v: Vect, r: Rotation)
    requires IsUnit(r)
    ensures Rotate(Rotate(v, r), Flip(r)) == v
  {
    RotatedBack(v.x, v.y, r.sin, r.cos);
  }

  /** Rotation is linear: it commutes with mass-weighted sums. */
  lemma RotateWeightedSum(a: Vect, ka: real, b: Vect, kb: real, r: Rotation)
    ensures Rotate(Add(Scale(a, ka), Scale(b, kb)), r)
         == Add(Scale(Rotate(a, r), ka), Scale(Rotate(b, r), kb))
  {
    var sum, ra, rb := Add(Scale(a, ka), Scale(b, kb)), Rotate(a, r), Rotate(b, r);
    RotatedSum(sum.x, sum.y, a.x, a.y, b.x, b.y, ra.x, ra.y, rb.x, rb.y, ka, kb, r.sin, r.cos);
  }

  /**
   * Flipping the rotation derived from a non-zero vector and rotating the vector by it
   * aligns the vector with the x axis, keeping its magnitude and leaving no y component.
   */
  lemma FlippedRotationAligns(v: Vect, mag: real)
    requires mag > 0.0 && IsMagnitudeOf(mag, v)
    ensures Rotate(v, Flip(RotationOf(v, mag))) == Vect(mag, 0.0)
  {
    var r := RotationOf(v, mag);
    var w := Rotate(v, Flip(r));
    assert w.x * mag == Norm2(v) by {
      assert r.cos * mag == v.x && r.sin * mag == v.y;
      assert w.x * mag == v.x * (r.cos * mag) + v.y * (r.sin * mag);
    }
    assert w.x == mag by {
      assert w.x * mag == mag * mag;
    }
    assert w.y == 0.0 by {
      assert w.y * mag == v.y * (r.cos * mag) - v.x * (r.sin * mag);
    }
  }

  // Polynomial identities behind the lemmas above, stated on plain reals.

  lemma RotatedNorm(x: real, y: real, s: real, c: real)
    ensures (x * c - y * s) * (x * c - y * s) + (x * s + y * c) * (x * s + y * c)
         == (x * x + y * y) * (s * s + c * c)
  {
  }

  lemma RotatedBack(x: real, y: real, s: real, c: real)
    requires s * s + c * c == 1.0
    ensures (x * c - y * s) * c + (x * s + y * c) * s == x
    ensures -(x * c - y * s) * s + (x * s + y * c) * c == y
  {
    assert (x * c - y * s) * c + (x * s + y * c) * s == x * (s * s + c * c);
    assert -(x * c - y * s) * s + (x * s + y * c) * c == y * (s * s + c * c);
  }

  lemma RotatedSum(sx: real, sy: real, ax: real, ay: real, bx: real, bY: real,
                   rax: real, ray: real, rbx: real, rby: real, ka: real, kb: real, s: real, c: real)
    requires sx == ax * ka + bx * kb && sy == ay * ka + bY * kb
    requires rax == ax * c - ay * s && ray == ax * s + ay * c
    requires rbx == bx * c - bY * s && rby == bx * s + bY * c
    ensures sx * c - sy * s == rax * ka + rbx * kb
    ensures sx * s + sy * c == ray * ka + rby * kb
  {
  }

  lemma UnitQuotients(x: real, y: real, m: real)
    requires m != 0.0 && m * m == x * x + y * y
    ensures (y / m) * (y / m) + (x / m) * (x / m) == 1.0
  {
    QuotientTimesDivisor(y, m);
    QuotientTimesDivisor(x, m);
    UnitFromProducts(y / m, x / m, m, x, y);
  }

  lemma QuotientTimesDivisor(a: real, m: real)
    requires m != 0.0
    ensures (a / m) * m == a
  {
  }

  lemma UnitFromProducts(s: real, c: real, m: real, x: real, y: real)
    requires m != 0.0 && s * m == y && c * m == x && m * m == x * x + y * y
    ensures s * s + c * c == 1.0
  {
    ScaledUnit(s, c, m, x, y);
    ZeroBySquare(s * s + c * c - 1.0, m);
  }

  lemma ScaledUnit(s: real, c: real, m: real, x: real, y: real)
    requires s * m == y && c * m == x && m * m == x * x + y * y
    ensures (s * s + c * c - 1.0) * (m * m) == 0.0
  {
    assert (s * s + c * c - 1.0) * (m * m) == (s * m) * (s * m) + (c * m) * (c * m) - m * m;
  }

  lemma ZeroBySquare(a: real, m: real)
    requires m != 0.0 && a * (m * m) == 0.0
    ensures a == 0.0
  {
    assert (a * m) * m == 0.0;
    ZeroProduct(a * m, m);
    ZeroProduct(a, m);
  }

  lemma ZeroProduct(a: real, k: real)
    requires k != 0.0 && a * k == 0.0
    ensures a == 0.0
  {
  }
}
