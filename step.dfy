/**
 * jwb_world_step (src/world-sim.c, lines 348-364): the collision scan of module Collide,
 * then the move pass of module Move.
 */
module Sim {
  import opened Vectors
  import opened WorldModel
  import Hits
  import Scan
  import Collide
  import Move
  import Grid
  import Totals

  /**
   * One step. Every entity that was live takes the bodies the scan left (`c`: new
   * velocities and pending corrections) and moves once by velocity plus correction,
   * ending up in the cell its new position lies in; removed and destroyed entities keep
   * what the scan left them and stay on their lists. The world stays valid. When `mag`
   * computes magnitudes, the entities live before the step keep their total momentum, and
   * under the elastic handler their total kinetic energy: the scan keeps both and the move
   * changes no velocity and no mass.
   */
  method Step(w: World, mag: Vect -> real)
    requires w.Valid() && Collide.Ready(w, mag)
    modifies w`bodies, w`entFlags, w`next, w`last, w`lists, w`owner, w.cells
    ensures w.Valid() && |w.bodies| == old(|w.bodies|) == old(|w.owner|)
    ensures var c := Hits.RunOps(old(w.bodies), Scan.Schedule(w.width, w.height), old(Collide.SceneOf(w, mag)));
      |c| == |w.bodies| &&
      forall e :: 0 <= e < |w.bodies| ==>
        if old(w.owner[e]) < w.NCells() then
          w.bodies[e] == Move.Advance(c[e], w.width, w.height, w.cellSize) &&
          w.owner[e] == Move.Target(c[e], w.width, w.height, w.cellSize) &&
          w.owner[e] == Grid.CellIndexOf(w.bodies[e].pos, w.width, w.height, w.cellSize)
        else
          w.bodies[e] == c[e] && w.owner[e] == old(w.owner[e]) && w.entFlags[e] == old(w.entFlags[e])
    ensures Magnitude(mag) ==>
      Totals.Conserved(old(w.bodies), w.bodies, w.onHit, Totals.LiveIn(old(w.owner), w.NCells()))
  {
    Collide.Collide(w, mag);
    ghost var c := w.bodies;
    Move.MovePass(w);
    if Magnitude(mag) {
      assert Totals.SameMotion(c, w.bodies);
      Totals.MotionTotals(c, w.bodies, w.onHit, Totals.LiveIn(old(w.owner), w.NCells()));
    }
  }
}
