/**
 * The collision-response algebra of src/world-util.c over the reals: the hit axis, the
 * one-dimensional elastic and perfectly inelastic exchanges along it, the overlap
 * correction split by mass, and the friction law. The resolvers that write these values
 * into the entity table live in module Resolvers; everything here is a pure value.
 */
module Collision {
  import opened Vectors
  import opened Options

  /** struct jwb_hit_info: the vector from the first centre to the second and its length. */
  datatype HitInfo = HitInfo(rel: Vect, dist: real)

  /** The hit information that check_hit builds: `dist` is the magnitude of `rel`. */
  predicate WellFormed(info: HitInfo)
  {
    IsMagnitudeOf(info.dist, info.rel)
  }

  /**
   * jwb_get_hit_axis: no axis when the centres coincide; otherwise the flipped rotation
   * of `rel`, which turns the line of centres onto the x axis.
   */
  function HitAxis(info: HitInfo): (r: Option<Rotation>)
    ensures r.None? <==> info.dist == 0.0
    ensures WellFormed(info) && r.Some? ==>
      IsUnit(r.value) && Rotate(info.rel, r.value) == Vect(info.dist, 0.0)
  {
    if info.dist == 0.0 then None
    else
      var rot := Flip(RotationOf(info.rel, info.dist));
      if WellFormed(info) then
        FlippedRotationAligns(info.rel, info.dist);
        Some(rot)
      else
        Some(rot)
  }

  // ---------------------------------------------------------------------------------
  // One-dimensional exchanges along the hit axis (world-util.c, lines 52-54 and 84)

  /** The first body's velocity along the axis after an elastic hit. */
  function Bounced1(m1: real, m2: real, u1: real, u2: real): real
    requires m1 + m2 != 0.0
  {
    (m1 - m2) / (m1 + m2) * u1 + 2.0 * m2 / (m1 + m2) * u2
  }

  /** The second body's velocity, derived from the first as the source does. */
  function Bounced2(m1: real, m2: real, u1: real, u2: real): real
    requires m1 + m2 != 0.0
  {
    u1 - u2 + Bounced1(m1, m2, u1, u2)
  }

  /** The older resolver in src/world.c computes the second velocity symmetrically. */
  function LegacyBounced2(m1: real, m2: real, u1: real, u2: real): real
    requires m1 + m2 != 0.0
  {
    (m2 - m1) / (m2 + m1) * u2 + 2.0 * m1 / (m2 + m1) * u1
  }

  /** The common velocity after a perfectly inelastic hit. */
  function Smashed(m1: real, m2: real, u1: real, u2: real): real
    requires m1 + m2 != 0.0
  {
    (m1 * u1 + m2 * u2) / (m1 + m2)
  }

  /**
   * The elastic exchange conserves momentum and kinetic energy, and reverses the
   * relative velocity.
   */
  lemma ElasticConserves(m1: real, m2: real, u1: real, u2: real)
    requires m1 + m2 != 0.0
    ensures m1 * Bounced1(m1, m2, u1, u2) + m2 * Bounced2(m1, m2, u1, u2) == m1 * u1 + m2 * u2
    ensures Bounced2(m1, m2, u1, u2) - Bounced1(m1, m2, u1, u2) == u1 - u2
    ensures m1 * Bounced1(m1, m2, u1, u2) * Bounced1(m1, m2, u1, u2)
          + m2 * Bounced2(m1, m2, u1, u2) * Bounced2(m1, m2, u1, u2)
         == m1 * u1 * u1 + m2 * u2 * u2
  {
    var b1, b2 := Bounced1(m1, m2, u1, u2), Bounced2(m1, m2, u1, u2);
    BouncedScaled(m1, m2, u1, u2);
    MomentumFromScaled(m1, m2, u1, u2, b1);
    EnergyFromMomentum(m1, m2, u1, u2, b1, b2);
  }

  /** Both resolvers in the code base agree on the second velocity. */
  lemma LegacyAgrees(m1: real, m2: real, u1: real, u2: real)
    requires m1 + m2 != 0.0
    ensures LegacyBounced2(m1, m2, u1, u2) == Bounced2(m1, m2, u1, u2)
  {
    var M := m1 + m2;
    BouncedScaled(m1, m2, u1, u2);
    assert m2 + m1 == M;
    WeightedQuotient(m2 - m1, M, u2);
    WeightedQuotient(2.0 * m1, M, u1);
    assert LegacyBounced2(m1, m2, u1, u2) * M == (m2 - m1) * u2 + 2.0 * m1 * u1;
    assert Bounced2(m1, m2, u1, u2) * M == (u1 - u2) * M + (m1 - m2) * u1 + 2.0 * m2 * u2;
    CancelNonzero(LegacyBounced2(m1, m2, u1, u2), Bounced2(m1, m2, u1, u2), M);
  }

  /** The inelastic exchange conserves momentum and leaves no relative velocity. */
  lemma InelasticConserves(m1: real, m2: real, u1: real, u2: real)
    requires m1 + m2 != 0.0
    ensures m1 * Smashed(m1, m2, u1, u2) + m2 * Smashed(m1, m2, u1, u2) == m1 * u1 + m2 * u2
  {
    var s := Smashed(m1, m2, u1, u2);
    QuotientTimesDivisor(m1 * u1 + m2 * u2, m1 + m2);
    assert m1 * s + m2 * s == s * (m1 + m2);
  }

  /** With positive masses the inelastic exchange never gains kinetic energy. */
  lemma InelasticLosesEnergy(m1: real, m2: real, u1: real, u2: real)
    requires m1 > 0.0 && m2 > 0.0
    ensures m1 * Smashed(m1, m2, u1, u2) * Smashed(m1, m2, u1, u2)
          + m2 * Smashed(m1, m2, u1, u2) * Smashed(m1, m2, u1, u2)
         <= m1 * u1 * u1 + m2 * u2 * u2
  {
    var s, M := Smashed(m1, m2, u1, u2), m1 + m2;
    QuotientTimesDivisor(m1 * u1 + m2 * u2, M);
    SmashedEnergyGap(m1, m2, u1, u2, s);
  }

  // Arithmetic steps behind the exchange lemmas, kept to low degree.

  lemma WeightedQuotient(a: real, M: real, u: real)
    requires M != 0.0
    ensures a / M * u * M == a * u
  {
    QuotientTimesDivisor(a, M);
    assert a / M * u * M == (a / M * M) * u;
  }

  lemma BouncedScaled(m1: real, m2: real, u1: real, u2: real)
    requires m1 + m2 != 0.0
    ensures Bounced1(m1, m2, u1, u2) * (m1 + m2) == (m1 - m2) * u1 + 2.0 * m2 * u2
  {
    var M := m1 + m2;
    WeightedQuotient(m1 - m2, M, u1);
    WeightedQuotient(2.0 * m2, M, u2);
    assert Bounced1(m1, m2, u1, u2) * M
        == (m1 - m2) / M * u1 * M + 2.0 * m2 / M * u2 * M;
  }

  lemma MomentumFromScaled(m1: real, m2: real, u1: real, u2: real, b1: real)
    requires b1 * (m1 + m2) == (m1 - m2) * u1 + 2.0 * m2 * u2
    ensures m1 * b1 + m2 * (u1 - u2 + b1) == m1 * u1 + m2 * u2
  {
    assert m1 * b1 + m2 * (u1 - u2 + b1) == b1 * (m1 + m2) + m2 * (u1 - u2);
  }

  lemma EnergyFromMomentum(m1: real, m2: real, u1: real, u2: real, b1: real, b2: real)
    requires m1 * b1 + m2 * b2 == m1 * u1 + m2 * u2
    requires b2 == u1 - u2 + b1
    ensures m1 * b1 * b1 + m2 * b2 * b2 == m1 * u1 * u1 + m2 * u2 * u2
  {
    var s := b1 + u1;
    assert b2 + u2 == s;
    var d := m1 * (b1 - u1);
    assert m2 * (b2 - u2) == -d;
    assert m1 * b1 * b1 - m1 * u1 * u1 == d * s;
    assert m2 * b2 * b2 - m2 * u2 * u2 == (m2 * (b2 - u2)) * s;
  }

  lemma SmashedEnergyGap(m1: real, m2: real, u1: real, u2: real, s: real)
    requires m1 > 0.0 && m2 > 0.0
    requires s * (m1 + m2) == m1 * u1 + m2 * u2
    ensures m1 * s * s + m2 * s * s <= m1 * u1 * u1 + m2 * u2 * u2
  {
    // Each body's energy change is m (s - u)^2 plus a cross term; the cross terms
    // cancel because momentum is conserved.
    assert m1 * u1 * u1 == m1 * s * s + 2.0 * (m1 * (u1 - s)) * s + m1 * (u1 - s) * (u1 - s);
    assert m2 * u2 * u2 == m2 * s * s + 2.0 * (m2 * (u2 - s)) * s + m2 * (u2 - s) * (u2 - s);
    assert m1 * (u1 - s) + m2 * (u2 - s) == 0.0;
    NonnegSquareTimes(m1, u1 - s);
    NonnegSquareTimes(m2, u2 - s);
  }

  lemma NonnegSquareTimes(m: real, d: real)
    requires m > 0.0
    ensures m * d * d >= 0.0
  {
    assert d * d >= 0.0;
    assert m * d * d == m * (d * d);
  }

  lemma CancelNonzero(a: real, b: real, M: real)
    requires M != 0.0 && a * M == b * M
    ensures a == b
  {
    assert (a - b) * M == 0.0;
    ZeroProduct(a - b, M);
  }

  // ---------------------------------------------------------------------------------
  // The exchanges in the plane: rotate onto the axis, change x, rotate back

  /** jwb_elastic_collision's new velocities, given the hit axis `rot`. */
  function ElasticVels(rot: Rotation, m1: real, m2: real, v1: Vect, v2: Vect): (Vect, Vect)
    requires m1 + m2 != 0.0
  {
    var w1, w2 := Rotate(v1, rot), Rotate(v2, rot);
    var b1, b2 := Bounced1(m1, m2, w1.x, w2.x), Bounced2(m1, m2, w1.x, w2.x);
    (Rotate(Vect(b1, w1.y), Flip(rot)), Rotate(Vect(b2, w2.y), Flip(rot)))
  }

  /** jwb_inelastic_collision's new velocities, given the hit axis `rot`. */
  function InelasticVels(rot: Rotation, m1: real, m2: real, v1: Vect, v2: Vect): (Vect, Vect)
    requires m1 + m2 != 0.0
  {
    var w1, w2 := Rotate(v1, rot), Rotate(v2, rot);
    var s := Smashed(m1, m2, w1.x, w2.x);
    (Rotate(Vect(s, w1.y), Flip(rot)), Rotate(Vect(s, w2.y), Flip(rot)))
  }

  /** Total momentum of two bodies. */
  function Momentum(m1: real, v1: Vect, m2: real, v2: Vect): Vect
  {
    Add(Scale(v1, m1), Scale(v2, m2))
  }

  /** Twice the total kinetic energy of two bodies. */
  function Energy(m1: real, v1: Vect, m2: real, v2: Vect): real
  {
    m1 * Norm2(v1) + m2 * Norm2(v2)
  }

  /**
   * The planar exchange seen in the collision frame: only the along-axis component is
   * replaced, the perpendicular component of each velocity is untouched.
   */
  lemma ExchangeInFrame(rot: Rotation, a1: real, a2: real, v1: Vect, v2: Vect)
    requires IsUnit(rot)
    ensures Rotate(Rotate(Vect(a1, Rotate(v1, rot).y), Flip(rot)), rot) == Vect(a1, Rotate(v1, rot).y)
    ensures Rotate(Rotate(Vect(a2, Rotate(v2, rot).y), Flip(rot)), rot) == Vect(a2, Rotate(v2, rot).y)
  {
    FlipFlip(rot);
    RotateFlipUndoes(Vect(a1, Rotate(v1, rot).y), Flip(rot));
    RotateFlipUndoes(Vect(a2, Rotate(v2, rot).y), Flip(rot));
  }

  /** A planar exchange that conserves momentum along the axis conserves it in the plane. */
  lemma PlanarMomentum(rot: Rotation, m1: real, m2: real, v1: Vect, v2: Vect, a1: real, a2: real)
    requires IsUnit(rot)
    requires m1 * a1 + m2 * a2 == m1 * Rotate(v1, rot).x + m2 * Rotate(v2, rot).x
    ensures Momentum(m1, Rotate(Vect(a1, Rotate(v1, rot).y), Flip(rot)),
                     m2, Rotate(Vect(a2, Rotate(v2, rot).y), Flip(rot)))
         == Momentum(m1, v1, m2, v2)
  {
    var w1, w2 := Rotate(v1, rot), Rotate(v2, rot);
    var n1, n2 := Vect(a1, w1.y), Vect(a2, w2.y);
    assert Momentum(m1, n1, m2, n2) == Momentum(m1, w1, m2, w2);
    RotateWeightedSum(v1, m1, v2, m2, rot);
    RotateWeightedSum(n1, m1, n2, m2, Flip(rot));
    RotateFlipUndoes(Momentum(m1, v1, m2, v2), rot);
  }

  /** A planar exchange that conserves energy along the axis conserves it in the plane. */
  lemma PlanarEnergy(rot: Rotation, m1: real, m2: real, v1: Vect, v2: Vect, a1: real, a2: real)
    requires IsUnit(rot)
    requires m1 * a1 * a1 + m2 * a2 * a2
          == m1 * Rotate(v1, rot).x * Rotate(v1, rot).x + m2 * Rotate(v2, rot).x * Rotate(v2, rot).x
    ensures Energy(m1, Rotate(Vect(a1, Rotate(v1, rot).y), Flip(rot)),
                   m2, Rotate(Vect(a2, Rotate(v2, rot).y), Flip(rot)))
         == Energy(m1, v1, m2, v2)
  {
    var w1, w2 := Rotate(v1, rot), Rotate(v2, rot);
    RotateKeepsNorm(Vect(a1, w1.y), Flip(rot));
    RotateKeepsNorm(Vect(a2, w2.y), Flip(rot));
    RotateKeepsNorm(v1, rot);
    RotateKeepsNorm(v2, rot);
    EnergySplit(m1, a1, w1.x, w1.y);
    EnergySplit(m2, a2, w2.x, w2.y);
  }

  lemma EnergySplit(m: real, a: real, wx: real, wy: real)
    ensures m * (a * a + wy * wy) == m * a * a + m * wy * wy
    ensures m * (wx * wx + wy * wy) == m * wx * wx + m * wy * wy
  {
  }

  lemma FlipFlip(r: Rotation)
    ensures Flip(Flip(r)) == r
  {
  }

  /**
   * An elastic hit on a unit axis conserves momentum and kinetic energy in the plane
   * and changes each velocity only along the axis.
   */
  lemma ElasticVelsConserve(rot: Rotation, m1: real, m2: real, v1: Vect, v2: Vect)
    requires IsUnit(rot) && m1 + m2 != 0.0
    ensures Momentum(m1, ElasticVels(rot, m1, m2, v1, v2).0, m2, ElasticVels(rot, m1, m2, v1, v2).1)
         == Momentum(m1, v1, m2, v2)
    ensures Energy(m1, ElasticVels(rot, m1, m2, v1, v2).0, m2, ElasticVels(rot, m1, m2, v1, v2).1)
         == Energy(m1, v1, m2, v2)
    ensures Rotate(ElasticVels(rot, m1, m2, v1, v2).0, rot).y == Rotate(v1, rot).y
    ensures Rotate(ElasticVels(rot, m1, m2, v1, v2).1, rot).y == Rotate(v2, rot).y
  {
    ElasticVelsMomentum(rot, m1, m2, v1, v2);
    ElasticVelsEnergy(rot, m1, m2, v1, v2);
    var w1, w2 := Rotate(v1, rot), Rotate(v2, rot);
    ExchangeInFrame(rot, Bounced1(m1, m2, w1.x, w2.x), Bounced2(m1, m2, w1.x, w2.x), v1, v2);
  }

  lemma ElasticVelsMomentum(rot: Rotation, m1: real, m2: real, v1: Vect, v2: Vect)
    requires IsUnit(rot) && m1 + m2 != 0.0
    ensures Momentum(m1, ElasticVels(rot, m1, m2, v1, v2).0, m2, ElasticVels(rot, m1, m2, v1, v2).1)
         == Momentum(m1, v1, m2, v2)
  {
    var w1, w2 := Rotate(v1, rot), Rotate(v2, rot);
    ElasticConserves(m1, m2, w1.x, w2.x);
    PlanarMomentum(rot, m1, m2, v1, v2, Bounced1(m1, m2, w1.x, w2.x), Bounced2(m1, m2, w1.x, w2.x));
  }

  lemma ElasticVelsEnergy(rot: Rotation, m1: real, m2: real, v1: Vect, v2: Vect)
    requires IsUnit(rot) && m1 + m2 != 0.0
    ensures Energy(m1, ElasticVels(rot, m1, m2, v1, v2).0, m2, ElasticVels(rot, m1, m2, v1, v2).1)
         == Energy(m1, v1, m2, v2)
  {
    var w1, w2 := Rotate(v1, rot), Rotate(v2, rot);
    ElasticConserves(m1, m2, w1.x, w2.x);
    PlanarEnergy(rot, m1, m2, v1, v2, Bounced1(m1, m2, w1.x, w2.x), Bounced2(m1, m2, w1.x, w2.x));
  }

  /**
   * An inelastic hit on a unit axis conserves momentum, leaves both bodies with the same
   * velocity along the axis, and keeps the perpendicular components.
   */
  lemma InelasticVelsConserve(rot: Rotation, m1: real, m2: real, v1: Vect, v2: Vect)
    requires IsUnit(rot) && m1 + m2 != 0.0
    ensures Momentum(m1, InelasticVels(rot, m1, m2, v1, v2).0, m2, InelasticVels(rot, m1, m2, v1, v2).1)
         == Momentum(m1, v1, m2, v2)
    ensures Rotate(InelasticVels(rot, m1, m2, v1, v2).0, rot)
         == Vect(Smashed(m1, m2, Rotate(v1, rot).x, Rotate(v2, rot).x), Rotate(v1, rot).y)
    ensures Rotate(InelasticVels(rot, m1, m2, v1, v2).1, rot)
         == Vect(Smashed(m1, m2, Rotate(v1, rot).x, Rotate(v2, rot).x), Rotate(v2, rot).y)
  {
    var w1, w2 := Rotate(v1, rot), Rotate(v2, rot);
    var s := Smashed(m1, m2, w1.x, w2.x);
    InelasticConserves(m1, m2, w1.x, w2.x);
    PlanarMomentum(rot, m1, m2, v1, v2, s, s);
    ExchangeInFrame(rot, s, s, v1, v2);
  }

  // ---------------------------------------------------------------------------------
  // jwb_no_overlap: the correction split (world-util.c, lines 24-26)

  /** The fraction of the summed radii by which the bodies overlap. */
  function Overlap(dist: real, r1: real, r2: real): real
    requires r1 + r2 != 0.0
  {
    1.0 - dist / (r1 + r2)
  }

  function Cor1(overlap: real, m1: real, m2: real): real
    requires m2 != 0.0 && m1 / m2 + 1.0 != 0.0
  {
    -overlap / (m1 / m2 + 1.0)
  }

  function Cor2(overlap: real, m1: real, m2: real): real
    requires m2 != 0.0 && m1 / m2 + 1.0 != 0.0
  {
    Cor1(overlap, m1, m2) + overlap
  }

  /**
   * The corrections push the bodies apart by the overlap and leave the mass-weighted
   * centre where it was.
   */
  lemma CorrectionSplit(overlap: real, m1: real, m2: real)
    requires m2 != 0.0 && m1 + m2 != 0.0
    ensures m1 / m2 + 1.0 != 0.0
    ensures Cor2(overlap, m1, m2) - Cor1(overlap, m1, m2) == overlap
    ensures m1 * Cor1(overlap, m1, m2) + m2 * Cor2(overlap, m1, m2) == 0.0
  {
    var k := m1 / m2 + 1.0;
    QuotientTimesDivisor(m1, m2);
    assert k * m2 == m1 + m2;
    if k == 0.0 {
      assert false;
    }
    var c1 := Cor1(overlap, m1, m2);
    QuotientTimesDivisor(-overlap, k);
    assert c1 * k == -overlap;
    assert c1 * (m1 + m2) == -overlap * m2 by {
      assert c1 * (m1 + m2) == (c1 * k) * m2;
    }
    assert m1 * c1 + m2 * (c1 + overlap) == c1 * (m1 + m2) + m2 * overlap;
  }

  /** The corrections, as displacements along `rel`, conserve the centre of mass. */
  lemma CorrectionVectors(rel: Vect, overlap: real, m1: real, m2: real)
    requires m2 != 0.0 && m1 + m2 != 0.0
    ensures m1 / m2 + 1.0 != 0.0
    ensures Momentum(m1, Scale(rel, Cor1(overlap, m1, m2)), m2, Scale(rel, Cor2(overlap, m1, m2))) == Zero
    ensures Sub(Scale(rel, Cor2(overlap, m1, m2)), Scale(rel, Cor1(overlap, m1, m2))) == Scale(rel, overlap)
  {
    CorrectionSplit(overlap, m1, m2);
    var c1, c2 := Cor1(overlap, m1, m2), Cor2(overlap, m1, m2);
    ScaledPair(rel.x, m1, c1, m2, c2);
    ScaledPair(rel.y, m1, c1, m2, c2);
  }

  lemma ScaledPair(r: real, m1: real, c1: real, m2: real, c2: real)
    requires m1 * c1 + m2 * c2 == 0.0
    ensures r * c1 * m1 + r * c2 * m2 == 0.0
  {
    assert r * c1 * m1 + r * c2 * m2 == r * (m1 * c1 + m2 * c2);
  }

  // ---------------------------------------------------------------------------------
  // apply_friction (world-util.c, lines 95-110)

  /**
   * The velocity after friction `f`, where `speed` is the magnitude of `vel`. A body at
   * rest stays at rest.
   */
  function Friction(vel: Vect, speed: real, f: real): Vect
  {
    if speed == 0.0 then Zero
    else
      var ratio := (speed - f) / speed;
      if ratio > 0.0 then Scale(vel, ratio) else Zero
  }

  /**
   * Friction lowers the speed by `f`, stopping the body when the speed is `f` or less,
   * and never turns the velocity around.
   */
  lemma FrictionSlows(vel: Vect, speed: real, f: real)
    requires IsMagnitudeOf(speed, vel) && f >= 0.0
    ensures speed <= f ==> Friction(vel, speed, f) == Zero
    ensures speed > f ==> IsMagnitudeOf(speed - f, Friction(vel, speed, f))
    ensures speed > f ==> exists k: real :: k > 0.0 && Friction(vel, speed, f) == Scale(vel, k)
  {
    if speed > 0.0 {
      var ratio := (speed - f) / speed;
      QuotientTimesDivisor(speed - f, speed);
      assert ratio * speed == speed - f;
      if speed > f {
        PositiveQuotient(speed - f, speed);
        var g := Scale(vel, ratio);
        assert Norm2(g) == ratio * ratio * Norm2(vel) by {
          ScaledNorm(vel.x, vel.y, ratio);
        }
        assert Norm2(g) == (speed - f) * (speed - f) by {
          assert ratio * ratio * (speed * speed) == (ratio * speed) * (ratio * speed);
        }
      } else {
        NonpositiveQuotient(speed - f, speed);
      }
    }
  }

  lemma ScaledNorm(x: real, y: real, k: real)
    ensures (x * k) * (x * k) + (y * k) * (y * k) == k * k * (x * x + y * y)
  {
  }

  lemma PositiveQuotient(a: real, b: real)
    requires a > 0.0 && b > 0.0
    ensures a / b > 0.0
  {
  }

  lemma NonpositiveQuotient(a: real, b: real)
    requires a <= 0.0 && b > 0.0
    ensures a / b <= 0.0
  {
  }
}
