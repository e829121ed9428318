/**
 * The world and its entity table (include/jwb.h, struct jwb__world and struct
 * jwb__entity; src/world-sim.c): the table grows by reallocation, every slot is on exactly
 * one list (the cell it lies in while live, `freed` while removed, `available` once
 * destroyed), and the three-way `confirm` check reads the slot's flags.
 *
 * The entity records are kept as parallel sequences: the link fields `next` and `last`,
 * the physical state `bodies`, and `entFlags`. The number of slots in use, n_ents, is
 * their common length. The ghost fields `lists` and `owner` name the lists the pointers
 * spell out (see module Links); slot `width*height` is `freed` and the next one
 * `available`.
 */
module WorldModel {
  import opened Vectors
  import opened Errors
  import Grid
  import Links

  /** Entity flags (include/jwb.h, lines 219-224) and the world's flag. */
  const REMOVED: bv32 := 1
  const MOVED_THIS_STEP: bv32 := 2
  const DESTROYED: bv32 := 4
  const HAS_WALLS: bv32 := 1

  /** The cell size jwb_world_alloc starts with (src/world-alloc.c, line 43). */
  const DEFAULT_CELL_SIZE: real := 10.0

  /** The physical part of struct jwb__entity. */
  datatype Body = Body(pos: Vect, vel: Vect, correct: Vect, mass: real, radius: real)

  /** The hit handlers the library ships (src/world-util.c); the default is Elastic. */
  datatype Handler = Elastic | Inelastic

  /** The two dead lists link_dead and unlink_dead are handed. */
  datatype DeadList = Freed | Available

  /**
   * The flags a slot carries on each list: none while live, REMOVED on `freed`, and
   * DESTROYED, possibly with REMOVED, on `available`.
   */
  predicate FlagsFit(f: bv32, k: int, ncells: nat)
  {
    (k < ncells ==> f == 0) &&
    (k == ncells ==> f == REMOVED) &&
    (k == ncells + 1 ==> f == DESTROYED || f == REMOVED | DESTROYED)
  }

  /** Every slot except possibly `skip` is on a list, and its flags say which. */
  ghost predicate LifecycleExcept(owner: seq<int>, flags: seq<bv32>, ncells: nat, skip: int)
  {
    |flags| == |owner| &&
    forall e :: 0 <= e < |owner| && e != skip ==> owner[e] >= 0 && FlagsFit(flags[e], owner[e], ncells)
  }

  /** Moving one slot to another list, with flags that fit it, keeps every slot's flags fitting. */
  lemma LifecycleMove(owner: seq<int>, flags: seq<bv32>, ncells: nat, e: nat, k: nat, f: bv32)
    requires LifecycleExcept(owner, flags, ncells, e) && e < |owner| && FlagsFit(f, k, ncells)
    ensures LifecycleExcept(owner[e := k], flags[e := f], ncells, -1)
  {
  }

  /** Destroying a living or removed slot leaves flags that fit the available list. */
  lemma DestroyedFits(f: bv32, ncells: nat)
    requires f == 0 || f == REMOVED
    ensures FlagsFit(f | DESTROYED, ncells + 1, ncells)
  {
  }

  /** Every slot fitting implies every slot but `e` fits, whatever becomes of `e`. */
  lemma LifecycleRelease(owner: seq<int>, flags: seq<bv32>, ncells: nat, e: nat)
    requires LifecycleExcept(owner, flags, ncells, -1) && e < |owner|
    ensures LifecycleExcept(owner[e := -1], flags, ncells, e)
  {
  }

  /** A slot appended by the allocator is the only one off the lists. */
  lemma LifecycleGrow(owner: seq<int>, flags: seq<bv32>, ncells: nat)
    requires LifecycleExcept(owner, flags, ncells, -1)
    ensures LifecycleExcept(owner + [-1], flags + [0], ncells, |owner|)
  {
  }

  class World {
    const cellSize: real
    var onHit: Handler
    const width: nat
    const height: nat
    var entCap: nat
    var cells: array<int>
    var next: seq<int>
    var last: seq<int>
    var bodies: seq<Body>
    var entFlags: seq<bv32>
    var freed: int
    var available: int
    var flags: bv32
    var offset: Vect
    ghost var lists: seq<seq<int>>
    ghost var owner: seq<int>

    /** The number of slots handed out, n_ents. */
    function NEnts(): nat
      reads this`next
    {
      |next|
    }

    function NCells(): nat
    {
      width * height
    }

    /** The list slot of a dead list. */
    function DeadSlot(list: DeadList): nat
    {
      if list == Freed then NCells() else NCells() + 1
    }

    function LinkState(): Links.Links
      reads this`cells, cells, this`freed, this`available, this`next, this`last
    {
      Links.Links(cells[..] + [freed, available], next, last)
    }

    ghost predicate Linked()
      reads this`cells, cells, this`freed, this`available, this`next, this`last
      reads this`lists, this`owner
    {
      cells.Length == NCells() && Links.Linked(LinkState(), lists, owner, NCells())
    }

    /** Every slot is on a list, and its flags say which. */
    ghost predicate Lifecycle()
      reads this`owner, this`entFlags
    {
      LifecycleExcept(owner, entFlags, NCells(), -1)
    }

    ghost predicate Valid()
      reads this, cells
    {
      width >= 1 && height >= 1 && cellSize > 0.0 &&
      |bodies| == |next| && |next| <= entCap &&
      Linked() && Lifecycle()
    }

    /**
     * The assignments of jwb_world_alloc (world-alloc.c, lines 15-25 and 35-43) once its
     * buffers exist: a buffer the caller passes as `cellBuf` is taken as it is, a buffer
     * the library allocates has every handle set to -1. No slot is in use, both dead lists
     * are empty, and the handler, flags and cell size take their defaults. The world is
     * valid when the cell array holds only -1 and the grid is not empty.
     */
    constructor Init(width: nat, height: nat, entBufSize: nat, cellBuf: array?<int>)
      requires cellBuf != null ==> cellBuf.Length == width * height
      ensures this.width == width && this.height == height && entCap == entBufSize
      ensures next == [] && last == [] && bodies == [] && entFlags == [] && owner == []
      ensures freed == -1 && available == -1
      ensures onHit == Elastic && flags == HAS_WALLS && cellSize == DEFAULT_CELL_SIZE
      ensures cells.Length == width * height
      ensures cellBuf == null ==> fresh(cells) && forall k :: 0 <= k < cells.Length ==> cells[k] == -1
      ensures cellBuf != null ==> cells == cellBuf && cells[..] == old(cellBuf[..])
      ensures width >= 1 && height >= 1 && (forall k :: 0 <= k < cells.Length ==> cells[k] == -1) ==> Valid()
    {
      if cellBuf != null {
        cells := cellBuf;
      } else {
        cells := new int[width * height](_ => -1);
      }
      this.width := width;
      this.height := height;
      next, last, bodies, entFlags := [], [], [], [];
      entCap := entBufSize;
      onHit := Elastic;
      freed := -1;
      available := -1;
      flags := HAS_WALLS;
      cellSize := DEFAULT_CELL_SIZE;
      offset := Zero;
      lists := seq(width * height + 2, _ => []);
      owner := [];
      new;
      if forall k :: 0 <= k < cells.Length ==> cells[k] == -1 {
        Links.EmptyLinked(cells[..] + [freed, available], NCells());
      }
    }

    /**
     * jwb_world_alloc (world-alloc.c, lines 6-52). `cellsOk` says whether allocating the
     * cell array succeeds (it is only tried when `cellBuf` is null), `entsOk` whether the
     * entity buffer is passed in or allocating it succeeds. A failed allocation returns
     * -NO_MEMORY and no world.
     */
    static method Alloc(width: nat, height: nat, entBufSize: nat, cellBuf: array?<int>, cellsOk: bool, entsOk: bool)
        returns (r: int, w: World?)
      requires cellBuf != null ==> cellBuf.Length == width * height
      ensures r == -NO_MEMORY <==> (cellBuf == null && !cellsOk) || !entsOk
      ensures r != -NO_MEMORY <==> r == 0
      ensures r == 0 <==> w != null
      ensures w != null ==> fresh(w) && w.width == width && w.height == height && w.entCap == entBufSize
      ensures w != null ==> w.NEnts() == 0 && w.freed == -1 && w.available == -1
      ensures w != null ==> w.onHit == Elastic && w.flags == HAS_WALLS && w.cellSize == DEFAULT_CELL_SIZE
      ensures w != null && cellBuf == null ==> fresh(w.cells) && w.Valid() == (width >= 1 && height >= 1)
      ensures w != null && cellBuf != null ==> w.cells == cellBuf && w.cells[..] == old(cellBuf[..])
    {
      if (cellBuf == null && !cellsOk) || !entsOk {
        return -NO_MEMORY, null;
      }
      w := new World.Init(width, height, entBufSize, cellBuf);
      r := 0;
    }

    /** jwb_world_confirm_ent (world-sim.c, lines 421-435). */
    function Confirm(e: nat): (r: int)
      reads this`entFlags
      ensures r == 0 || r == -REMOVED_ENTITY || r == -DESTROYED_ENTITY
    {
      if e >= |entFlags| then -DESTROYED_ENTITY
      else if entFlags[e] & DESTROYED != 0 then -DESTROYED_ENTITY
      else if entFlags[e] & REMOVED != 0 then -REMOVED_ENTITY
      else 0
    }

    /**
     * confirm reports the list a handle is on: 0 for a live entity in a cell, REMOVED for
     * one on `freed`, DESTROYED for one on `available` or a handle never handed out.
     */
    lemma ConfirmReportsList(e: nat)
      requires Valid()
      ensures Confirm(e) == 0 <==> e < NEnts() && owner[e] < NCells()
      ensures Confirm(e) == -REMOVED_ENTITY <==> e < NEnts() && owner[e] == NCells()
      ensures Confirm(e) == -DESTROYED_ENTITY <==> e >= NEnts() || owner[e] == NCells() + 1
    {
      if e < NEnts() {
        assert owner[e] >= 0 && FlagsFit(entFlags[e], owner[e], NCells());
        assert Links.Owners(lists, owner);
      }
    }

    /** The live entities are exactly the members of the cell lists. */
    lemma LiveAreInCells(e: nat)
      requires Valid() && e < NEnts() && Confirm(e) == 0
      ensures owner[e] < NCells() && e in lists[owner[e]]
      ensures forall k :: 0 <= k < |lists| && e in lists[k] ==> k == owner[e]
    {
      ConfirmReportsList(e);
      assert Links.Owners(lists, owner);
    }

    // -------------------------------------------------------------------------------
    // The static helpers of world-sim.c

    /**
     * alloc_new_ent (world-sim.c, lines 16-35). `grows` says whether realloc succeeds.
     * The library does not initialise the new slot's memory; `junk` is what it holds.
     */
    method AllocNewEnt(grows: bool, junk: Body) returns (r: int)
      requires Linked() && |bodies| == |next| == |entFlags| && |next| <= entCap
      modifies this`next, this`last, this`bodies, this`entFlags, this`owner, this`entCap
      ensures Linked() && |bodies| == |next| == |entFlags| && |next| <= entCap
      ensures r == -NO_MEMORY <==> old(|next|) >= old(entCap) && !grows
      ensures old(|next|) < old(entCap) ==> entCap == old(entCap)
      ensures old(|next|) >= old(entCap) && grows ==> entCap == old(entCap) * 3 / 2 + 1 > old(entCap)
      ensures old(|next|) >= old(entCap) && !grows ==>
        r == -NO_MEMORY && next == old(next) && last == old(last) && bodies == old(bodies) &&
        entFlags == old(entFlags) && owner == old(owner) && entCap == old(entCap)
      ensures r != -NO_MEMORY ==>
        r == old(|next|) && |next| == r + 1 && owner == old(owner) + [-1] &&
        next[..r] == old(next) && last[..r] == old(last) && bodies == old(bodies) + [junk] &&
        entFlags[..r] == old(entFlags)
    {
      if |next| >= entCap {
        var newCap := entCap * 3 / 2 + 1;
        if grows {
          entCap := newCap;
        } else {
          return -NO_MEMORY;
        }
      }
      Links.GrowKeepsLinked(LinkState(), lists, owner, NCells(), -1, -1);
      r := |next|;
      next := next + [-1];
      last := last + [-1];
      bodies := bodies + [junk];
      entFlags := entFlags + [0];
      owner := owner + [-1];
      assert next[..r] == old(next) && last[..r] == old(last);
      assert entFlags[..r] == old(entFlags);
    }

    /** unlink_dead (world-sim.c, lines 37-52): takes `e` off the dead list it is on. */
    method UnlinkDead(e: nat, list: DeadList)
      requires Linked() && e < |owner| && owner[e] == DeadSlot(list)
      modifies this`next, this`last, this`freed, this`available, this`lists, this`owner
      ensures Linked()
      ensures |next| == old(|next|)
      ensures lists == old(lists)[DeadSlot(list) := Links.Delete(old(lists)[DeadSlot(list)], e)]
      ensures owner == old(owner)[e := -1]
    {
      ghost var cs0, f0, a0, nx0, ls0 := cells[..], freed, available, next, last;
      ghost var lists0, owner0 := lists, owner;
      ghost var k := owner[e];
      ghost var i :| 0 <= i < |lists[k]| && lists[k][i] == e;
      Links.HeadIsMarked(LinkState(), lists, owner, NCells(), e);
      var n, l := next[e], last[e];
      if n >= 0 {
        last := last[n := l];
      }
      if l >= 0 {
        next := next[l := n];
      } else if list == Freed {
        freed := n;
      } else {
        available := n;
      }
      lists := lists[k := Links.Without(lists[k], i)];
      owner := owner[e := -1];
      UnlinkedFrom(cs0, f0, a0, nx0, ls0, lists0, owner0, e, i);
    }

    /**
     * link_dead with the old first element's `last` pointed back at `e` (the corrected
     * form of world-sim.c, lines 54-59; see Links.PushAsWritten).
     */
    method LinkDead(e: nat, list: DeadList)
      requires Linked() && e < |owner| && owner[e] == -1
      modifies this`next, this`last, this`freed, this`available, this`lists, this`owner
      ensures Linked()
      ensures |next| == old(|next|)
      ensures lists == old(lists)[DeadSlot(list) := [e] + old(lists)[DeadSlot(list)]]
      ensures owner == old(owner)[e := DeadSlot(list)]
    {
      ghost var cs0, f0, a0, nx0, ls0 := cells[..], freed, available, next, last;
      ghost var lists0, owner0 := lists, owner;
      ghost var k := DeadSlot(list);
      var h := if list == Freed then freed else available;
      Links.HeadInRange(LinkState(), lists, owner, NCells(), k);
      last := last[e := -1];
      next := next[e := h];
      if h >= 0 {
        last := last[h := e];
      }
      if list == Freed {
        freed := e;
      } else {
        available := e;
      }
      lists := lists[k := [e] + lists[k]];
      owner := owner[e := k];
      Links.PushWrites(cs0, f0, a0, nx0, ls0, lists0, owner0, e, k, h,
                       cells[..], freed, available, next, last);
    }

    /** unlink_living (world-sim.c, lines 74-88): the cell is found from ~last of the first element. */
    method UnlinkLiving(e: nat)
      requires Linked() && e < |owner| && 0 <= owner[e] < NCells()
      modifies this`next, this`last, this`lists, this`owner, cells
      ensures Linked()
      ensures |next| == old(|next|)
      ensures lists == old(lists)[old(owner[e]) := Links.Delete(old(lists)[old(owner[e])], e)]
      ensures owner == old(owner)[e := -1]
    {
      ghost var cs0, f0, a0, nx0, ls0 := cells[..], freed, available, next, last;
      ghost var lists0, owner0 := lists, owner;
      ghost var k := owner[e];
      ghost var i :| 0 <= i < |lists[k]| && lists[k][i] == e;
      Links.HeadIsMarked(LinkState(), lists, owner, NCells(), e);
      var n, l := next[e], last[e];
      if n >= 0 {
        last := last[n := l];
      }
      if l >= 0 {
        next := next[l := n];
      } else {
        var c := -l - 1;
        cells[c] := n;
      }
      lists := lists[k := Links.Without(lists[k], i)];
      owner := owner[e := -1];
      UnlinkedFrom(cs0, f0, a0, nx0, ls0, lists0, owner0, e, i);
    }

    /**
     * The state an unlink leaves behind, given field by field from the state before
     * (`cs0`, `f0`, `a0` the heads, `nx0` and `ls0` the links), is linked again.
     */
    lemma UnlinkedFrom(cs0: seq<int>, f0: int, a0: int, nx0: seq<int>, ls0: seq<int>,
                       lists0: seq<seq<int>>, owner0: seq<int>, e: nat, i: nat)
      requires cells.Length == NCells() == |cs0|
      requires Links.Linked(Links.Links(cs0 + [f0, a0], nx0, ls0), lists0, owner0, |cs0|)
      requires e < |owner0| && owner0[e] >= 0 && i < |lists0[owner0[e]]| && lists0[owner0[e]][i] == e
      requires nx0[e] < |nx0| && ls0[e] < |nx0|
      requires last == (if nx0[e] >= 0 then ls0[nx0[e] := ls0[e]] else ls0)
      requires next == (if ls0[e] >= 0 then nx0[ls0[e] := nx0[e]] else nx0)
      requires ls0[e] >= 0 || owner0[e] != |cs0| ==> freed == f0
      requires ls0[e] >= 0 || owner0[e] != |cs0| + 1 ==> available == a0
      requires ls0[e] >= 0 || owner0[e] >= |cs0| ==> cells[..] == cs0
      requires ls0[e] < 0 && owner0[e] == |cs0| ==> freed == nx0[e]
      requires ls0[e] < 0 && owner0[e] == |cs0| + 1 ==> available == nx0[e]
      requires ls0[e] < 0 && owner0[e] < |cs0| ==> cells[..] == cs0[owner0[e] := nx0[e]]
      requires lists == lists0[owner0[e] := Links.Without(lists0[owner0[e]], i)]
      requires owner == owner0[e := -1]
      ensures Linked()
      ensures lists == lists0[owner0[e] := Links.Delete(lists0[owner0[e]], e)]
    {
      Links.UnlinkWrites(cs0, f0, a0, nx0, ls0, lists0, owner0, e, i,
                         cells[..], freed, available, next, last);
    }

    /** link_living (world-sim.c, lines 90-99): `e` becomes the first element of cell `c`. */
    method LinkLiving(e: nat, c: nat)
      requires Linked() && e < |owner| && owner[e] == -1 && c < NCells()
      modifies this`next, this`last, this`lists, this`owner, cells
      ensures Linked()
      ensures |next| == old(|next|)
      ensures lists == old(lists)[c := [e] + old(lists)[c]]
      ensures owner == old(owner)[e := c]
      ensures cells[c] == e
    {
      ghost var cs0, f0, a0, nx0, ls0 := cells[..], freed, available, next, last;
      ghost var lists0, owner0 := lists, owner;
      var h := cells[c];
      Links.HeadInRange(LinkState(), lists, owner, NCells(), c);
      last := last[e := -(c as int) - 1];
      next := next[e := h];
      if h >= 0 {
        last := last[h := e];
      }
      cells[c] := e;
      lists := lists[c := [e] + lists[c]];
      owner := owner[e := c];
      Links.PushWrites(cs0, f0, a0, nx0, ls0, lists0, owner0, e, c, h,
                       cells[..], freed, available, next, last);
    }

    /**
     * reposition (world-sim.c, lines 61-72): wraps the position onto the torus, writes it
     * back, and returns the row-major index of the cell it lies in.
     */
    method Reposition(e: nat) returns (c: nat)
      requires e < |bodies| && width >= 1 && height >= 1 && cellSize > 0.0
      modifies this`bodies
      ensures var p := Grid.Reposition(old(bodies[e].pos), width, height, cellSize);
        bodies == old(bodies)[e := old(bodies[e]).(pos := p.0)] && c == p.1
      ensures c < NCells() && Grid.InWorld(bodies[e].pos, width, height, cellSize)
    {
      var pos := bodies[e].pos;
      ghost var wrapped := Grid.Wrap(pos, width, height, cellSize);
      pos := Vect(Grid.FFrame(pos.x, Grid.Extent(width, cellSize)), Grid.FFrame(pos.y, Grid.Extent(height, cellSize)));
      assert pos == wrapped;
      var x := Grid.CellCoord(pos.x, cellSize);
      var y := Grid.CellCoord(pos.y, cellSize);
      bodies := bodies[e := bodies[e].(pos := pos)];
      c := Grid.CellIndexOf(pos, width, height, cellSize);
      assert c == y * width + x;
    }

    /** place_ent (world-sim.c, lines 101-104): wrap the position, then link into its cell. */
    method PlaceEnt(e: nat) returns (ghost c: nat)
      requires Linked() && e < |owner| && owner[e] == -1 && e < |bodies|
      requires width >= 1 && height >= 1 && cellSize > 0.0
      modifies this`next, this`last, this`lists, this`owner, cells, this`bodies
      ensures var p := Grid.Reposition(old(bodies[e].pos), width, height, cellSize);
        bodies == old(bodies)[e := old(bodies[e]).(pos := p.0)] && c == p.1
      ensures Linked() && c < NCells()
      ensures lists == old(lists)[c := [e] + old(lists)[c]]
      ensures owner == old(owner)[e := c]
    {
      var cell := Reposition(e);
      LinkLiving(e, cell);
      c := cell;
    }

    // -------------------------------------------------------------------------------
    // The lifecycle (world-sim.c, lines 366-435)

    /**
     * jwb_world_add_ent (world-sim.c, lines 366-389): reuses the first slot of
     * `available`, or else allocates one (`grows` says whether a needed realloc succeeds,
     * `junk` is what a fresh slot holds). The record gets the given position, velocity,
     * mass and radius and no flags, and is linked into the cell of its wrapped position.
     * Its pending correction is not reset: a reused slot keeps the one its destroyed
     * entity had, a fresh one holds whatever the memory held.
     */
    method AddEnt(pos: Vect, vel: Vect, mass: real, radius: real, grows: bool, junk: Body) returns (r: int)
      requires Valid()
      modifies this`next, this`last, this`freed, this`available, this`lists, this`owner, cells
      modifies this`bodies, this`entFlags, this`entCap
      ensures Valid()
      ensures old(available) >= 0 ==> r == old(available) && NEnts() == old(NEnts()) && entCap == old(entCap)
      ensures old(available) < 0 ==> r == -NO_MEMORY || r == old(NEnts())
      ensures old(available) < 0 && r >= 0 ==>
        NEnts() == old(NEnts()) + 1 &&
        entCap == if old(NEnts()) < old(entCap) then old(entCap) else old(entCap) * 3 / 2 + 1
      ensures r == -NO_MEMORY <==> old(available) < 0 && old(NEnts()) >= old(entCap) && !grows
      ensures r == -NO_MEMORY ==> unchanged(this) && unchanged(cells)
      ensures r >= 0 ==>
        var p := Grid.Reposition(pos, width, height, cellSize);
        var stale := if r < old(NEnts()) then old(bodies[r].correct) else junk.correct;
        r < NEnts() && Confirm(r) == 0 &&
        bodies[r] == Body(p.0, vel, stale, mass, radius) && owner[r] == p.1 &&
        lists == old(lists)[NCells() + 1 := Links.Delete(old(lists)[NCells() + 1], r)]
                           [p.1 := [r] + old(lists)[p.1]]
      ensures old(available) >= 0 ==> [r] + lists[NCells() + 1] == old(lists)[NCells() + 1]
      ensures r >= 0 ==> forall e :: 0 <= e < old(NEnts()) && e != r ==>
        bodies[e] == old(bodies[e]) && owner[e] == old(owner[e]) && entFlags[e] == old(entFlags[e])
    {
      r := TakeSlot(grows, junk);
      if r < 0 {
        return;
      }
      Fill(r, pos, vel, mass, radius);
    }

    /** The rest of jwb_world_add_ent (lines 382-387): the taken slot's fields are written and it is placed. */
    method Fill(r: nat, pos: Vect, vel: Vect, mass: real, radius: real)
      requires Linked() && width >= 1 && height >= 1 && cellSize > 0.0 && |bodies| == |next|
      requires r < |owner| && owner[r] == -1 && LifecycleExcept(owner, entFlags, NCells(), r)
      modifies this`next, this`last, this`lists, this`owner, cells, this`bodies, this`entFlags
      ensures Linked() && Lifecycle() && |bodies| == |next| == old(|next|)
      ensures var p := Grid.Reposition(pos, width, height, cellSize);
        bodies == old(bodies)[r := old(bodies[r]).(pos := p.0, vel := vel, mass := mass, radius := radius)] &&
        entFlags == old(entFlags)[r := 0] && owner == old(owner)[r := p.1] &&
        lists == old(lists)[p.1 := [r] + old(lists)[p.1]]
    {
      ghost var owner1, flags1 := owner, entFlags;
      bodies := bodies[r := bodies[r].(pos := pos, vel := vel, mass := mass, radius := radius)];
      entFlags := entFlags[r := 0];
      ghost var c := PlaceEnt(r);
      LifecycleMove(owner1, flags1, NCells(), r, c, 0);
    }

    /**
     * The slot jwb_world_add_ent fills: the first of `available`, taken off that list,
     * or else a fresh one from alloc_new_ent holding `junk`. Either is on no list afterwards.
     */
    method TakeSlot(grows: bool, junk: Body) returns (r: int)
      requires Valid()
      modifies this`next, this`last, this`freed, this`available, this`lists, this`owner
      modifies this`bodies, this`entFlags, this`entCap
      ensures Linked() && |bodies| == |next| && |next| <= entCap
      ensures old(available) >= 0 ==> r == old(available) && NEnts() == old(NEnts()) && entCap == old(entCap)
      ensures old(available) < 0 ==> r == -NO_MEMORY || r == old(NEnts())
      ensures old(available) < 0 && r >= 0 ==>
        NEnts() == old(NEnts()) + 1 &&
        entCap == if old(NEnts()) < old(entCap) then old(entCap) else old(entCap) * 3 / 2 + 1
      ensures r == -NO_MEMORY <==> old(available) < 0 && old(NEnts()) >= old(entCap) && !grows
      ensures r == -NO_MEMORY ==> unchanged(this)
      ensures r >= 0 ==> r < NEnts() && owner[r] == -1 && LifecycleExcept(owner, entFlags, NCells(), r)
      ensures r >= 0 ==> bodies[r] == if old(available) >= 0 then old(bodies[available]) else junk
      ensures r >= 0 ==> forall e :: 0 <= e < old(NEnts()) && e != r ==>
        bodies[e] == old(bodies[e]) && owner[e] == old(owner[e]) && entFlags[e] == old(entFlags[e])
      ensures r >= 0 ==> lists == old(lists)[NCells() + 1 := Links.Delete(old(lists)[NCells() + 1], r)]
      ensures old(available) >= 0 ==> [r] + lists[NCells() + 1] == old(lists)[NCells() + 1]
    {
      if available >= 0 {
        r := available;
        AvailableHead();
        LifecycleRelease(owner, entFlags, NCells(), r);
        UnlinkDead(r, Available);
      } else {
        LifecycleGrow(owner, entFlags, NCells());
        r := AllocNewEnt(grows, junk);
      }
    }

    /** The first slot of `available` is a destroyed entity's. */
    lemma AvailableHead()
      requires Valid() && available >= 0
      ensures available < |owner| && owner[available] == NCells() + 1
      ensures lists[NCells() + 1] != [] && lists[NCells() + 1][0] == available
    {
      var k := NCells() + 1;
      assert Links.Chain(LinkState(), lists[k], k, NCells());
      assert LinkState().heads[k] == available;
      assert Links.Owners(lists, owner);
      assert lists[k][0] == available;
    }

    /**
     * jwb_world_remove_ent: a live entity moves from its cell to `freed` and is flagged
     * REMOVED; any other handle gets confirm's error and nothing changes.
     */
    method RemoveEnt(e: nat) returns (r: int)
      requires Valid()
      modifies this`next, this`last, this`freed, this`available, this`lists, this`owner, cells
      modifies this`entFlags
      ensures Valid()
      ensures bodies == old(bodies)
      ensures r == old(Confirm(e))
      ensures r != 0 ==> unchanged(this) && unchanged(cells)
      ensures r == 0 ==>
        Confirm(e) == -REMOVED_ENTITY &&
        entFlags == old(entFlags)[e := old(entFlags[e]) | REMOVED] &&
        owner == old(owner)[e := NCells()] &&
        lists == old(lists)[old(owner[e]) := Links.Delete(old(lists)[old(owner[e])], e)]
                           [NCells() := [e] + old(lists)[NCells()]]
    {
      var status := Confirm(e);
      if status == 0 {
        ConfirmReportsList(e);
        Bury(e, true, Freed);
        entFlags := entFlags[e := entFlags[e] | REMOVED];
        assert entFlags[e] == REMOVED;
        LifecycleMove(old(owner), old(entFlags), NCells(), e, NCells(), REMOVED);
        return 0;
      }
      return status;
    }

    /**
     * jwb_world_destroy_ent: a live entity leaves its cell, a removed one leaves `freed`;
     * either goes onto `available` flagged DESTROYED. A destroyed handle is refused.
     */
    method DestroyEnt(e: nat) returns (r: int)
      requires Valid()
      modifies this`next, this`last, this`freed, this`available, this`lists, this`owner, cells
      modifies this`entFlags
      ensures Valid()
      ensures bodies == old(bodies)
      ensures old(Confirm(e)) == -DESTROYED_ENTITY ==> r == -DESTROYED_ENTITY && unchanged(this) && unchanged(cells)
      ensures old(Confirm(e)) != -DESTROYED_ENTITY ==>
        r == 0 && Confirm(e) == -DESTROYED_ENTITY &&
        entFlags == old(entFlags)[e := old(entFlags[e]) | DESTROYED] &&
        owner == old(owner)[e := NCells() + 1] &&
        lists == old(lists)[old(owner[e]) := Links.Delete(old(lists)[old(owner[e])], e)]
                           [NCells() + 1 := [e] + old(lists)[NCells() + 1]]
    {
      var status := Confirm(e);
      ConfirmReportsList(e);
      if status == -DESTROYED_ENTITY {
        return status;
      }
      Retire(e, status == 0);
      return 0;
    }

    /** The body of jwb_world_destroy_ent once confirm has let `e` through. */
    method Retire(e: nat, living: bool)
      requires Valid() && e < NEnts() && 0 <= owner[e] <= NCells()
      requires living <==> owner[e] < NCells()
      modifies this`next, this`last, this`freed, this`available, this`lists, this`owner, cells
      modifies this`entFlags
      ensures Linked() && Lifecycle() && |next| == old(|next|)
      ensures Confirm(e) == -DESTROYED_ENTITY
      ensures entFlags == old(entFlags)[e := old(entFlags[e]) | DESTROYED]
      ensures owner == old(owner)[e := NCells() + 1]
      ensures lists == old(lists)[old(owner[e]) := Links.Delete(old(lists)[old(owner[e])], e)]
                                 [NCells() + 1 := [e] + old(lists)[NCells() + 1]]
    {
      Bury(e, living, Available);
      entFlags := entFlags[e := entFlags[e] | DESTROYED];
      DestroyedFits(old(entFlags[e]), NCells());
      LifecycleMove(old(owner), old(entFlags), NCells(), e, NCells() + 1, entFlags[e]);
    }

    /**
     * Moves `e` from the list it is on onto a different dead list: unlink_living from a
     * cell or unlink_dead from `freed`, then link_dead.
     */
    method Bury(e: nat, living: bool, list: DeadList)
      requires Linked() && e < |owner| && 0 <= owner[e] <= NCells() && owner[e] != DeadSlot(list)
      requires living <==> owner[e] < NCells()
      modifies this`next, this`last, this`freed, this`available, this`lists, this`owner, cells
      ensures Linked() && |next| == old(|next|)
      ensures owner == old(owner)[e := DeadSlot(list)]
      ensures lists == old(lists)[old(owner[e]) := Links.Delete(old(lists)[old(owner[e])], e)]
                                 [DeadSlot(list) := [e] + old(lists)[DeadSlot(list)]]
    {
      if living {
        UnlinkLiving(e);
      } else {
        UnlinkDead(e, Freed);
      }
      LinkDead(e, list);
    }
  }
}
