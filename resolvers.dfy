/**
 * The hit handlers of src/world-util.c acting on the entity table. jwb_elastic_collision and
 * jwb_inelastic_collision write the two new velocities and then call jwb_no_overlap, which
 * adds the overlap corrections to `correct`; apply_friction scales one velocity. Each method
 * is specified by a function on the sequence of bodies, and the lemmas below say what those
 * functions do to the pair of bodies involved.
 */
module Resolvers {
  import opened Vectors
  import opened Options
  import opened Collision
  import opened WorldModel

  /**
   * The divisions the handlers perform are defined: by the total mass, by the second mass,
   * by the mass ratio plus one, and by the summed radii. Where the library divides by zero
   * it computes infinities or NaN, which the reals do not have.
   */
  predicate Divisible(b1: Body, b2: Body)
  {
    b1.mass + b2.mass != 0.0 && b2.mass != 0.0 && b1.mass / b2.mass + 1.0 != 0.0 &&
    b1.radius + b2.radius != 0.0
  }

  /** Positive masses and a non-negative distance below the summed radii make the divisions defined. */
  lemma PositiveDivisible(b1: Body, b2: Body, dist: real)
    requires b1.mass > 0.0 && b2.mass > 0.0 && 0.0 <= dist < b1.radius + b2.radius
    ensures Divisible(b1, b2)
  {
    PositiveQuotient(b1.mass, b2.mass);
  }

  /** The two bodies touched by a handler differ from the originals in velocity and correction only. */
  predicate Unmoved(b: Body, r: Body)
  {
    r.pos == b.pos && r.mass == b.mass && r.radius == b.radius
  }

  /** jwb_no_overlap (world-util.c, lines 14-31) on the table of bodies. */
  function NoOverlapOn(b: seq<Body>, e1: nat, e2: nat, info: HitInfo): seq<Body>
    requires e1 < |b| && e2 < |b| && Divisible(b[e1], b[e2])
  {
    var overlap := Overlap(info.dist, b[e1].radius, b[e2].radius);
    var cor1 := Cor1(overlap, b[e1].mass, b[e2].mass);
    var cor2 := Cor2(overlap, b[e1].mass, b[e2].mass);
    var b1 := b[e1 := b[e1].(correct := Add(b[e1].correct, Scale(info.rel, cor1)))];
    b1[e2 := b1[e2].(correct := Add(b1[e2].correct, Scale(info.rel, cor2)))]
  }

  /** jwb_elastic_collision (world-util.c, lines 33-63) on the table of bodies. */
  function ElasticOn(b: seq<Body>, e1: nat, e2: nat, info: HitInfo): seq<Body>
    requires e1 < |b| && e2 < |b| && Divisible(b[e1], b[e2])
  {
    match HitAxis(info)
    case None => b
    case Some(rot) =>
      var vels := ElasticVels(rot, b[e1].mass, b[e2].mass, b[e1].vel, b[e2].vel);
      var b1 := b[e1 := b[e1].(vel := vels.0)];
      var b2 := b1[e2 := b1[e2].(vel := vels.1)];
      NoOverlapOn(b2, e1, e2, info)
  }

  /** jwb_inelastic_collision (world-util.c, lines 65-93) on the table of bodies. */
  function InelasticOn(b: seq<Body>, e1: nat, e2: nat, info: HitInfo): seq<Body>
    requires e1 < |b| && e2 < |b| && Divisible(b[e1], b[e2])
  {
    match HitAxis(info)
    case None => b
    case Some(rot) =>
      var vels := InelasticVels(rot, b[e1].mass, b[e2].mass, b[e1].vel, b[e2].vel);
      var b1 := b[e1 := b[e1].(vel := vels.0)];
      var b2 := b1[e2 := b1[e2].(vel := vels.1)];
      NoOverlapOn(b2, e1, e2, info)
  }

  /** The world's on_hit handler applied to `e1` and `e2`. */
  function Handle(h: Handler, b: seq<Body>, e1: nat, e2: nat, info: HitInfo): seq<Body>
    requires e1 < |b| && e2 < |b| && Divisible(b[e1], b[e2])
  {
    match h
    case Elastic => ElasticOn(b, e1, e2, info)
    case Inelastic => InelasticOn(b, e1, e2, info)
  }

  // ---------------------------------------------------------------------------------
  // What a handler does to the table

  /**
   * jwb_no_overlap adds to the corrections of both bodies (it never overwrites them): the
   * increments point along `rel`, pull the bodies apart by the overlap, and balance by mass
   * so that the centre of mass stays put. Nothing else changes.
   */
  lemma NoOverlapBalances(b: seq<Body>, e1: nat, e2: nat, info: HitInfo)
    requires e1 < |b| && e2 < |b| && e1 != e2 && Divisible(b[e1], b[e2])
    ensures var r := NoOverlapOn(b, e1, e2, info);
      var overlap := Overlap(info.dist, b[e1].radius, b[e2].radius);
      var d1, d2 := Sub(r[e1].correct, b[e1].correct), Sub(r[e2].correct, b[e2].correct);
      |r| == |b| &&
      d1 == Scale(info.rel, Cor1(overlap, b[e1].mass, b[e2].mass)) &&
      d2 == Scale(info.rel, Cor2(overlap, b[e1].mass, b[e2].mass)) &&
      Momentum(b[e1].mass, d1, b[e2].mass, d2) == Zero &&
      Sub(d2, d1) == Scale(info.rel, overlap) &&
      r[e1].vel == b[e1].vel && r[e2].vel == b[e2].vel &&
      Unmoved(b[e1], r[e1]) && Unmoved(b[e2], r[e2]) &&
      forall e :: 0 <= e < |b| && e != e1 && e != e2 ==> r[e] == b[e]
  {
    var overlap := Overlap(info.dist, b[e1].radius, b[e2].radius);
    CorrectionVectors(info.rel, overlap, b[e1].mass, b[e2].mass);
  }

  /** Every handler leaves the positions, masses and radii alone, and all bodies but the pair. */
  lemma HandleFrame(h: Handler, b: seq<Body>, e1: nat, e2: nat, info: HitInfo)
    requires e1 < |b| && e2 < |b| && Divisible(b[e1], b[e2])
    ensures var r := Handle(h, b, e1, e2, info);
      |r| == |b| &&
      (forall e :: 0 <= e < |b| ==> Unmoved(b[e], r[e])) &&
      (forall e :: 0 <= e < |b| && e != e1 && e != e2 ==> r[e] == b[e])
  {
  }

  /** Coincident centres give no hit axis, and then neither handler changes anything. */
  lemma CoincidentCentresIgnored(h: Handler, b: seq<Body>, e1: nat, e2: nat, info: HitInfo)
    requires e1 < |b| && e2 < |b| && Divisible(b[e1], b[e2]) && info.dist == 0.0
    ensures Handle(h, b, e1, e2, info) == b
  {
  }

  /**
   * An elastic hit between two distinct bodies conserves their total momentum and kinetic
   * energy, keeps each velocity's component across the hit axis, and reverses their relative
   * velocity along it.
   */
  lemma ElasticOnConserves(b: seq<Body>, e1: nat, e2: nat, info: HitInfo)
    requires e1 < |b| && e2 < |b| && e1 != e2 && Divisible(b[e1], b[e2])
    requires WellFormed(info) && info.dist != 0.0
    ensures var r, m1, m2 := ElasticOn(b, e1, e2, info), b[e1].mass, b[e2].mass;
      Momentum(m1, r[e1].vel, m2, r[e2].vel) == Momentum(m1, b[e1].vel, m2, b[e2].vel) &&
      Energy(m1, r[e1].vel, m2, r[e2].vel) == Energy(m1, b[e1].vel, m2, b[e2].vel)
    ensures var r, rot := ElasticOn(b, e1, e2, info), HitAxis(info).value;
      Rotate(r[e1].vel, rot).y == Rotate(b[e1].vel, rot).y &&
      Rotate(r[e2].vel, rot).y == Rotate(b[e2].vel, rot).y &&
      Rotate(r[e2].vel, rot).x - Rotate(r[e1].vel, rot).x
        == Rotate(b[e1].vel, rot).x - Rotate(b[e2].vel, rot).x
  {
    var rot := HitAxis(info).value;
    var m1, m2, v1, v2 := b[e1].mass, b[e2].mass, b[e1].vel, b[e2].vel;
    var vels := ElasticVels(rot, m1, m2, v1, v2);
    var b1 := b[e1 := b[e1].(vel := vels.0)];
    var b2 := b1[e2 := b1[e2].(vel := vels.1)];
    NoOverlapBalances(b2, e1, e2, info);
    ElasticVelsConserve(rot, m1, m2, v1, v2);
    var w1, w2 := Rotate(v1, rot), Rotate(v2, rot);
    var a1, a2 := Bounced1(m1, m2, w1.x, w2.x), Bounced2(m1, m2, w1.x, w2.x);
    ExchangeInFrame(rot, a1, a2, v1, v2);
    ElasticConserves(m1, m2, w1.x, w2.x);
  }

  /**
   * An inelastic hit between two distinct bodies conserves their total momentum, gives both
   * the same velocity along the hit axis, and keeps each velocity's component across it.
   */
  lemma InelasticOnConserves(b: seq<Body>, e1: nat, e2: nat, info: HitInfo)
    requires e1 < |b| && e2 < |b| && e1 != e2 && Divisible(b[e1], b[e2])
    requires WellFormed(info) && info.dist != 0.0
    ensures var r, m1, m2 := InelasticOn(b, e1, e2, info), b[e1].mass, b[e2].mass;
      Momentum(m1, r[e1].vel, m2, r[e2].vel) == Momentum(m1, b[e1].vel, m2, b[e2].vel)
    ensures var r, rot := InelasticOn(b, e1, e2, info), HitAxis(info).value;
      Rotate(r[e1].vel, rot).y == Rotate(b[e1].vel, rot).y &&
      Rotate(r[e2].vel, rot).y == Rotate(b[e2].vel, rot).y &&
      Rotate(r[e1].vel, rot).x == Rotate(r[e2].vel, rot).x
  {
    var rot := HitAxis(info).value;
    var m1, m2, v1, v2 := b[e1].mass, b[e2].mass, b[e1].vel, b[e2].vel;
    var vels := InelasticVels(rot, m1, m2, v1, v2);
    var b1 := b[e1 := b[e1].(vel := vels.0)];
    var b2 := b1[e2 := b1[e2].(vel := vels.1)];
    NoOverlapBalances(b2, e1, e2, info);
    InelasticVelsConserve(rot, m1, m2, v1, v2);
  }

  // ---------------------------------------------------------------------------------
  // The handlers as the library runs them, writing into the world

  /** jwb_no_overlap: adds the two corrections to the bodies' `correct`. */
  method NoOverlap(w: World, info: HitInfo, e1: nat, e2: nat)
    requires e1 < |w.bodies| && e2 < |w.bodies| && Divisible(w.bodies[e1], w.bodies[e2])
    modifies w`bodies
    ensures w.bodies == NoOverlapOn(old(w.bodies), e1, e2, info)
  {
    var overlap := Overlap(info.dist, w.bodies[e1].radius, w.bodies[e2].radius);
    var cor1 := Cor1(overlap, w.bodies[e1].mass, w.bodies[e2].mass);
    var cor2 := cor1 + overlap;
    w.bodies := w.bodies[e1 := w.bodies[e1].(correct := Add(w.bodies[e1].correct, Scale(info.rel, cor1)))];
    w.bodies := w.bodies[e2 := w.bodies[e2].(correct := Add(w.bodies[e2].correct, Scale(info.rel, cor2)))];
  }

  /** jwb_elastic_collision: nothing happens when the centres coincide. */
  method ElasticCollision(w: World, e1: nat, e2: nat, info: HitInfo)
    requires e1 < |w.bodies| && e2 < |w.bodies| && Divisible(w.bodies[e1], w.bodies[e2])
    modifies w`bodies
    ensures w.bodies == ElasticOn(old(w.bodies), e1, e2, info)
  {
    var axis := HitAxis(info);
    if axis.None? {
      return;
    }
    var rot := axis.value;
    var mass1, mass2 := w.bodies[e1].mass, w.bodies[e2].mass;
    var vel1, vel2 := Rotate(w.bodies[e1].vel, rot), Rotate(w.bodies[e2].vel, rot);
    var bounced1 := Bounced1(mass1, mass2, vel1.x, vel2.x);
    var bounced2 := vel1.x - vel2.x + bounced1;
    vel1 := vel1.(x := bounced1);
    vel2 := vel2.(x := bounced2);
    var back := Flip(rot);
    vel1, vel2 := Rotate(vel1, back), Rotate(vel2, back);
    w.bodies := w.bodies[e1 := w.bodies[e1].(vel := vel1)];
    w.bodies := w.bodies[e2 := w.bodies[e2].(vel := vel2)];
    NoOverlap(w, info, e1, e2);
  }

  /** jwb_inelastic_collision: nothing happens when the centres coincide. */
  method InelasticCollision(w: World, e1: nat, e2: nat, info: HitInfo)
    requires e1 < |w.bodies| && e2 < |w.bodies| && Divisible(w.bodies[e1], w.bodies[e2])
    modifies w`bodies
    ensures w.bodies == InelasticOn(old(w.bodies), e1, e2, info)
  {
    var axis := HitAxis(info);
    if axis.None? {
      return;
    }
    var rot := axis.value;
    var mass1, mass2 := w.bodies[e1].mass, w.bodies[e2].mass;
    var vel1, vel2 := Rotate(w.bodies[e1].vel, rot), Rotate(w.bodies[e2].vel, rot);
    var smashed := Smashed(mass1, mass2, vel1.x, vel2.x);
    vel1 := vel1.(x := smashed);
    vel2 := vel2.(x := smashed);
    var back := Flip(rot);
    vel1, vel2 := Rotate(vel1, back), Rotate(vel2, back);
    w.bodies := w.bodies[e1 := w.bodies[e1].(vel := vel1)];
    w.bodies := w.bodies[e2 := w.bodies[e2].(vel := vel2)];
    NoOverlap(w, info, e1, e2);
  }

  /** The body after apply_friction: its velocity as Friction says for its speed. */
  function FrictionOn(b: Body, friction: real, mag: Vect -> real): Body
  {
    b.(vel := Friction(b.vel, mag(b.vel), friction))
  }

  /**
   * `r` is `v` slowed by friction `f`: stopped when the speed was at most `f`, otherwise
   * pointing the same way with the speed lowered by `f`.
   */
  ghost predicate Slowed(v: Vect, r: Vect, f: real, mag: Vect -> real)
  {
    (mag(v) <= f ==> r == Zero) &&
    (mag(v) > f ==> IsMagnitudeOf(mag(v) - f, r) && exists k: real :: k > 0.0 && r == Scale(v, k))
  }

  /**
   * apply_friction (world-util.c, lines 95-110): the speed is the magnitude of the
   * velocity, which is scaled by (speed - friction) / speed when that ratio is positive
   * and zeroed otherwise. At speed zero the library divides by zero; the model zeroes the
   * velocity there.
   */
  method ApplyFriction(w: World, e: nat, friction: real, mag: Vect -> real) returns (r: int)
    requires e < |w.bodies| && Magnitude(mag)
    modifies w`bodies
    ensures r == 0
    ensures w.bodies == old(w.bodies)[e := FrictionOn(old(w.bodies[e]), friction, mag)]
    ensures friction >= 0.0 ==> Slowed(old(w.bodies[e].vel), w.bodies[e].vel, friction, mag)
  {
    var vel := w.bodies[e].vel;
    var speed := mag(vel);
    if friction >= 0.0 {
      FrictionSlows(vel, speed, friction);
    }
    if speed != 0.0 && (speed - friction) / speed > 0.0 {
      vel := Scale(vel, (speed - friction) / speed);
    } else {
      vel := Zero;
    }
    w.bodies := w.bodies[e := w.bodies[e].(vel := vel)];
    return 0;
  }

  /**
   * jwb_world_apply_friction (world-util.c, lines 112-118): apply_friction on every live
   * entity, in ascending slot order; removed and destroyed slots keep their velocities.
   */
  method ApplyFrictionAll(w: World, friction: real, mag: Vect -> real)
    requires w.Valid() && Magnitude(mag)
    modifies w`bodies
    ensures w.Valid() && |w.bodies| == old(|w.bodies|)
    ensures forall e :: 0 <= e < |w.bodies| ==>
      w.bodies[e] == if w.Confirm(e) == 0 then FrictionOn(old(w.bodies[e]), friction, mag) else old(w.bodies[e])
    ensures friction >= 0.0 ==> forall e :: 0 <= e < |w.bodies| && w.Confirm(e) == 0 ==>
      Slowed(old(w.bodies[e].vel), w.bodies[e].vel, friction, mag)
  {
    var e := 0;
    while e < |w.bodies|
      invariant e <= |w.bodies| == old(|w.bodies|) && w.Valid()
      invariant forall d :: 0 <= d < e ==>
        w.bodies[d] == if w.Confirm(d) == 0 then FrictionOn(old(w.bodies[d]), friction, mag) else old(w.bodies[d])
      invariant friction >= 0.0 ==> forall d :: 0 <= d < e && w.Confirm(d) == 0 ==>
        Slowed(old(w.bodies[d].vel), w.bodies[d].vel, friction, mag)
      invariant forall d :: e <= d < |w.bodies| ==> w.bodies[d] == old(w.bodies[d])
    {
      if w.Confirm(e) == 0 {
        var _ := ApplyFriction(w, e, friction, mag);
      }
      e := e + 1;
    }
  }
}
