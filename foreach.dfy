/**
 * jwb_world_for_each (src/world-for-each.c): the iterator is called on every slot in use
 * whose flags carry neither REMOVED nor DESTROYED, in ascending order, and the first
 * nonzero answer stops the walk and is returned. The iterator is a function of the
 * handle; what a C iterator does to the world or to its `data` is not modelled.
 */
module Iteration {
  import opened WorldModel

  /** The slots for_each calls the iterator on: neither removed nor destroyed. */
  predicate Visible(f: bv32)
  {
    f & (REMOVED | DESTROYED) == 0
  }

  /** In a valid world the visible slots in use are exactly the live entities, those in a cell. */
  lemma VisibleIsLive(w: World, e: nat)
    requires w.Valid() && e < w.NEnts()
    ensures Visible(w.entFlags[e]) <==> w.Confirm(e) == 0
    ensures Visible(w.entFlags[e]) <==> w.owner[e] < w.NCells()
  {
    assert w.owner[e] >= 0 && FlagsFit(w.entFlags[e], w.owner[e], w.NCells());
    w.ConfirmReportsList(e);
  }

  /** `s` is strictly ascending. */
  predicate Ascending(s: seq<nat>)
  {
    forall i, j :: 0 <= i < j < |s| ==> s[i] < s[j]
  }

  /**
   * jwb_world_for_each (world-for-each.c, lines 4-18). `calls` lists the handles the
   * iterator was called on: the visible slots in ascending order, up to the first one it
   * answered nonzero for. That answer is the result; when every answer was 0, every
   * visible slot was called and the result is 0.
   */
  method ForEach(w: World, iter: nat -> int) returns (r: int, calls: seq<nat>)
    requires |w.entFlags| == w.NEnts()
    ensures Ascending(calls)
    ensures forall j :: 0 <= j < |calls| ==> calls[j] < w.NEnts() && Visible(w.entFlags[calls[j]])
    ensures forall j :: 0 <= j < |calls| - 1 ==> iter(calls[j]) == 0
    ensures r == 0 ==> forall e :: 0 <= e < w.NEnts() && Visible(w.entFlags[e]) ==> e in calls
    ensures r == 0 ==> forall j :: 0 <= j < |calls| ==> iter(calls[j]) == 0
    ensures r != 0 ==> calls != [] && r == iter(calls[|calls| - 1])
    ensures r != 0 && calls != [] ==>
      forall e :: 0 <= e < calls[|calls| - 1] && Visible(w.entFlags[e]) ==> e in calls
  {
    calls := [];
    var e := 0;
    while e < w.NEnts()
      invariant e <= w.NEnts()
      invariant Ascending(calls)
      invariant forall j :: 0 <= j < |calls| ==> calls[j] < e && Visible(w.entFlags[calls[j]])
      invariant forall j :: 0 <= j < |calls| ==> iter(calls[j]) == 0
      invariant forall d :: 0 <= d < e && Visible(w.entFlags[d]) ==> d in calls
    {
      if !Visible(w.entFlags[e]) {
        e := e + 1;
        continue;
      }
      calls := calls + [e];
      var err := iter(e);
      if err != 0 {
        return err, calls;
      }
      e := e + 1;
    }
    return 0, calls;
  }
}
