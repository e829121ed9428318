/**
 * The whole-world totals tests/conservation.c watches across steps: the total momentum
 * (sum of mass times velocity) and twice the total kinetic energy (sum of mass times
 * squared speed), each summed over the slots a selector keeps -- all of them, or the
 * live entities jwb_world_for_each visits. A collision scan keeps the momentum total with
 * either handler and the energy total with the elastic one.
 */
module Totals {
  import opened Vectors
  import opened WorldModel
  import opened Collision
  import opened Resolvers
  import opened Scan
  import opened Hits

  /** The sum of `f` over the slots below `n` that `keep` selects. */
  function Sum(b: seq<Body>, f: Body -> real, keep: int -> bool, n: nat): real
    requires n <= |b|
  {
    if n == 0 then 0.0 else Sum(b, f, keep, n - 1) + (if keep(n - 1) then f(b[n - 1]) else 0.0)
  }

  function MomentumX(x: Body): real { x.vel.x * x.mass }
  function MomentumY(x: Body): real { x.vel.y * x.mass }
  function Kinetic(x: Body): real { x.mass * Norm2(x.vel) }

  /** Selects every slot. */
  function All(e: int): bool { true }

  /** Selects the slots that lie on one of the first `ncells` lists: the live entities. */
  function LiveIn(owner: seq<int>, ncells: nat): int -> bool
  {
    e => 0 <= e < |owner| && 0 <= owner[e] < ncells
  }

  /** Total momentum of the selected slots. */
  function TotalMomentum(b: seq<Body>, keep: int -> bool): Vect
  {
    Vect(Sum(b, MomentumX, keep, |b|), Sum(b, MomentumY, keep, |b|))
  }

  /** Twice the total kinetic energy of the selected slots. */
  function TotalEnergy(b: seq<Body>, keep: int -> bool): real
  {
    Sum(b, Kinetic, keep, |b|)
  }

  /** What a step under handler `h` keeps: momentum always, energy when hits are elastic. */
  ghost predicate Conserved(b: seq<Body>, r: seq<Body>, h: Handler, keep: int -> bool)
  {
    TotalMomentum(r, keep) == TotalMomentum(b, keep) &&
    (h == Elastic ==> TotalEnergy(r, keep) == TotalEnergy(b, keep))
  }

  /** `r` has the velocities and masses of `b`, slot by slot. */
  ghost predicate SameMotion(b: seq<Body>, r: seq<Body>)
  {
    |r| == |b| && forall e :: 0 <= e < |b| ==> r[e].vel == b[e].vel && r[e].mass == b[e].mass
  }

  // ---------------------------------------------------------------------------------
  // Sums

  /** Overwriting one slot changes a sum by the difference it makes at that slot. */
  lemma {:induction false} SumUpdate(b: seq<Body>, f: Body -> real, keep: int -> bool, n: nat, i: nat, x: Body)
    requires n <= |b| && i < |b|
    ensures Sum(b[i := x], f, keep, n)
         == Sum(b, f, keep, n) + (if i < n && keep(i) then f(x) - f(b[i]) else 0.0)
  {
    if n > 0 {
      SumUpdate(b, f, keep, n - 1, i, x);
    }
  }

  /** Tables that agree on `f` at every selected slot have the same sum. */
  lemma {:induction false} SumAgree(b: seq<Body>, r: seq<Body>, f: Body -> real, keep: int -> bool, n: nat)
    requires n <= |b| == |r|
    requires forall e :: 0 <= e < n && keep(e) ==> f(r[e]) == f(b[e])
    ensures Sum(r, f, keep, n) == Sum(b, f, keep, n)
  {
    if n > 0 {
      SumAgree(b, r, f, keep, n - 1);
    }
  }

  /** The sum over all slots is the sum over the selected ones plus the sum over the rest. */
  lemma {:induction false} SumSplit(b: seq<Body>, f: Body -> real, keep: int -> bool, n: nat)
    requires n <= |b|
    ensures Sum(b, f, All, n) == Sum(b, f, keep, n) + Sum(b, f, e => !keep(e), n)
  {
    if n > 0 {
      SumSplit(b, f, keep, n - 1);
    }
  }

  /**
   * Two distinct slots changed so that `f` summed over the pair is kept, the rest
   * untouched: the sum over all slots is kept.
   */
  lemma PairSum(b: seq<Body>, r: seq<Body>, f: Body -> real, e1: nat, e2: nat)
    requires |r| == |b| && e1 < |b| && e2 < |b| && e1 != e2
    requires forall e :: 0 <= e < |b| && e != e1 && e != e2 ==> r[e] == b[e]
    requires f(r[e1]) + f(r[e2]) == f(b[e1]) + f(b[e2])
    ensures Sum(r, f, All, |r|) == Sum(b, f, All, |b|)
  {
    var b1 := b[e1 := r[e1]];
    SumUpdate(b, f, All, |b|, e1, r[e1]);
    SumUpdate(b1, f, All, |b|, e2, r[e2]);
    assert b1[e2 := r[e2]] == r;
  }

  /** Tables with the same motion have the same totals over any selection. */
  lemma MotionTotals(b: seq<Body>, r: seq<Body>, h: Handler, keep: int -> bool)
    requires SameMotion(b, r)
    ensures Conserved(b, r, h, keep)
  {
    SumAgree(b, r, MomentumX, keep, |b|);
    SumAgree(b, r, MomentumY, keep, |b|);
    SumAgree(b, r, Kinetic, keep, |b|);
  }

  /**
   * A change that keeps the totals over all slots and leaves every slot `keep` drops as it
   * was keeps the totals over the selected slots too.
   */
  lemma SelectedTotals(b: seq<Body>, r: seq<Body>, h: Handler, keep: int -> bool)
    requires |r| == |b| && Conserved(b, r, h, All)
    requires forall e :: 0 <= e < |b| && !keep(e) ==> r[e] == b[e]
    ensures Conserved(b, r, h, keep)
  {
    var drop: int -> bool := e => !keep(e);
    forall f: Body -> real {:trigger Sum(r, f, keep, |r|)}
      ensures Sum(r, f, keep, |r|) - Sum(b, f, keep, |b|) == Sum(r, f, All, |r|) - Sum(b, f, All, |b|)
    {
      SumSplit(b, f, keep, |b|);
      SumSplit(r, f, keep, |r|);
      SumAgree(b, r, f, drop, |b|);
    }
  }

  // ---------------------------------------------------------------------------------
  // One check_hit, a run of them, a run of scan calls

  /**
   * A change to two distinct slots that keeps their masses and their pair momentum (and
   * their pair energy under the elastic handler) keeps the totals over all slots.
   */
  lemma PairConserved(b: seq<Body>, r: seq<Body>, h: Handler, e1: nat, e2: nat)
    requires |r| == |b| && e1 < |b| && e2 < |b| && e1 != e2
    requires forall e :: 0 <= e < |b| && e != e1 && e != e2 ==> r[e] == b[e]
    requires r[e1].mass == b[e1].mass && r[e2].mass == b[e2].mass
    requires Momentum(b[e1].mass, r[e1].vel, b[e2].mass, r[e2].vel) == Momentum(b[e1].mass, b[e1].vel, b[e2].mass, b[e2].vel)
    requires h == Elastic ==>
      Energy(b[e1].mass, r[e1].vel, b[e2].mass, r[e2].vel) == Energy(b[e1].mass, b[e1].vel, b[e2].mass, b[e2].vel)
    ensures Conserved(b, r, h, All)
  {
    PairSum(b, r, MomentumX, e1, e2);
    PairSum(b, r, MomentumY, e1, e2);
    if h == Elastic {
      PairSum(b, r, Kinetic, e1, e2);
    }
  }

  /** A handler that runs on two distinct slots keeps their momentum, and their energy if elastic. */
  lemma HandleConserves(h: Handler, b: seq<Body>, e1: nat, e2: nat, info: HitInfo)
    requires e1 < |b| && e2 < |b| && e1 != e2 && Divisible(b[e1], b[e2])
    requires WellFormed(info) && info.dist != 0.0
    ensures Conserved(b, Handle(h, b, e1, e2, info), h, All)
  {
    HandleFrame(h, b, e1, e2, info);
    match h {
      case Elastic =>
        ElasticOnConserves(b, e1, e2, info);
        PairConserved(b, ElasticOn(b, e1, e2, info), h, e1, e2);
      case Inelastic =>
        InelasticOnConserves(b, e1, e2, info);
        PairConserved(b, InelasticOn(b, e1, e2, info), h, e1, e2);
    }
  }

  /**
   * check_hit keeps the totals over all slots: on two distinct slots by HandleConserves, and
   * a slot checked against itself has coincident centres, so no handler changes anything.
   */
  lemma CheckHitConserves(b: seq<Body>, e1: int, e2: int, sc: Scene)
    requires Magnitude(sc.mag)
    ensures Conserved(b, CheckHitOn(b, e1, e2, sc), sc.handler, All)
  {
    if 0 <= e1 < |b| && 0 <= e2 < |b| {
      var rel := Sub(b[e2].pos, b[e1].pos);
      var info := HitInfo(rel, sc.mag(rel));
      assert IsMagnitudeOf(info.dist, rel);
      if info.dist < b[e1].radius + b[e2].radius && Divisible(b[e1], b[e2]) {
        if e1 == e2 {
          assert Norm2(rel) == 0.0;
          NoLengthIsZero(info.dist);
        }
        if info.dist == 0.0 {
          CoincidentCentresIgnored(sc.handler, b, e1, e2, info);
        } else {
          HandleConserves(sc.handler, b, e1, e2, info);
        }
      }
    }
  }

  /** A length whose square is zero is zero. */
  lemma NoLengthIsZero(d: real)
    requires d >= 0.0 && d * d == 0.0
    ensures d == 0.0
  {
    if d != 0.0 {
      ZeroProduct(d, d);
    }
  }

  /** check_hit on a list of pairs keeps the totals over all slots. */
  lemma {:induction false} HitAllConserves(b: seq<Body>, ps: seq<(int, int)>, sc: Scene)
    requires Magnitude(sc.mag)
    ensures Conserved(b, HitAll(b, ps, sc), sc.handler, All)
    decreases |ps|
  {
    if ps != [] {
      var b1 := CheckHitOn(b, ps[0].0, ps[0].1, sc);
      CheckHitConserves(b, ps[0].0, ps[0].1, sc);
      HitAllConserves(b1, ps[1..], sc);
    }
  }

  /** Translating a list of bodies changes only positions. */
  lemma {:induction false} TranslateMotion(b: seq<Body>, l: seq<int>, d: Vect)
    ensures SameMotion(b, TranslateAll(b, l, d))
    decreases |l|
  {
    if l != [] {
      TranslateMotion(Shift(b, l[0], d), l[1..], d);
    }
  }

  /** Any run of scan calls keeps the totals over all slots. */
  lemma {:induction false} RunConserves(b: seq<Body>, ops: seq<Op>, sc: Scene)
    requires Magnitude(sc.mag)
    ensures Conserved(b, RunOps(b, ops, sc), sc.handler, All)
    decreases |ops|
  {
    if ops != [] {
      var b1 := RunOp(b, ops[0], sc);
      match ops[0] {
        case Check(c) =>
          HitAllConserves(b, Pairs(CellList(sc, c)), sc);
        case CheckPair(c1, c2) =>
          HitAllConserves(b, Cross(CellList(sc, c1), CellList(sc, c2)), sc);
        case Translate(c, dx, dy) =>
          TranslateMotion(b, CellList(sc, c), Disp(sc, dx, dy));
          MotionTotals(b, b1, sc.handler, All);
      }
      RunConserves(b1, ops[1..], sc);
    }
  }
}
