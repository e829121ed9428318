/**
 * The move half of jwb_world_step (src/world-sim.c, move_ents at lines 158-186 and the
 * pass over the cells at lines 359-363): every live entity is advanced once by its
 * velocity and its pending correction, wrapped onto the torus and relinked into the cell
 * it lands in. An entity relinked into a cell the row-major pass has still to visit is
 * marked MOVED_THIS_STEP, and there it is unmarked and skipped.
 */
module Move {
  import opened Vectors
  import opened WorldModel
  import Grid
  import Links

  /** What the move pass reads and writes of one entity: its body, its flags and its list. */
  datatype Moved = Moved(body: Body, flags: bv32, cell: int)

  /** The body after its move: advanced by velocity and correction, wrapped, correction spent. */
  function Advance(b: Body, width: nat, height: nat, cellSize: real): Body
    requires width > 0 && height > 0 && cellSize > 0.0
  {
    b.(pos := Grid.Reposition(Add(b.pos, Add(b.vel, b.correct)), width, height, cellSize).0,
       correct := Zero)
  }

  /** The cell the moved body lands in, as reposition reports it. */
  function Target(b: Body, width: nat, height: nat, cellSize: real): int
    requires width > 0 && height > 0 && cellSize > 0.0
  {
    Grid.Reposition(Add(b.pos, Add(b.vel, b.correct)), width, height, cellSize).1
  }

  /**
   * A moved body lies inside the world, in the cell the entity is relinked into, and keeps
   * its velocity, mass and radius.
   */
  lemma AdvanceLands(b: Body, width: nat, height: nat, cellSize: real)
    requires width > 0 && height > 0 && cellSize > 0.0
    ensures var r := Advance(b, width, height, cellSize);
      Grid.InWorld(r.pos, width, height, cellSize) &&
      Target(b, width, height, cellSize) == Grid.CellIndexOf(r.pos, width, height, cellSize) &&
      0 <= Target(b, width, height, cellSize) < width * height
    ensures var r := Advance(b, width, height, cellSize);
      r.vel == b.vel && r.mass == b.mass && r.radius == b.radius && r.correct == Zero
  {
  }

  /**
   * One turn of move_ents' loop for an entity on the list of cell `here`: a marked entity
   * is unmarked and left alone; any other is advanced, and marked when it lands in a later
   * cell.
   */
  function MoveOne(b: Body, f: bv32, here: int, width: nat, height: nat, cellSize: real): Moved
    requires width > 0 && height > 0 && cellSize > 0.0
  {
    if f & MOVED_THIS_STEP != 0 then Moved(b, f & !MOVED_THIS_STEP, here)
    else
      var t := Target(b, width, height, cellSize);
      Moved(Advance(b, width, height, cellSize), if t > here then f | MOVED_THIS_STEP else f, t)
  }

  /**
   * An unmarked entity that lands in a later cell is met again when that cell is visited,
   * and that second visit only takes the mark off: it moves once, not twice.
   */
  lemma MovesOnce(b: Body, here: int, width: nat, height: nat, cellSize: real)
    requires width > 0 && height > 0 && cellSize > 0.0
    ensures var m := MoveOne(b, 0, here, width, height, cellSize);
      m.cell > here ==>
        m.flags == MOVED_THIS_STEP &&
        MoveOne(m.body, m.flags, m.cell, width, height, cellSize) == Moved(m.body, 0, m.cell)
    ensures var m := MoveOne(b, 0, here, width, height, cellSize);
      m.cell <= here ==> m.flags == 0
  {
  }

  /** The entity table as the move pass sees it: one record per slot. */
  ghost function Table(b: seq<Body>, f: seq<bv32>, o: seq<int>): seq<Moved>
    requires |b| == |f| == |o|
  {
    seq(|o|, e requires 0 <= e < |o| => Moved(b[e], f[e], o[e]))
  }

  /** move_ents on cell `here`: the entities listed there move as MoveOne says, the rest stay. */
  ghost function VisitCell(t: seq<Moved>, here: int, width: nat, height: nat, cellSize: real): seq<Moved>
    requires width > 0 && height > 0 && cellSize > 0.0
  {
    seq(|t|, e requires 0 <= e < |t| =>
      if t[e].cell == here then MoveOne(t[e].body, t[e].flags, here, width, height, cellSize) else t[e])
  }

  /**
   * The state of an entity once the pass has visited cells 0 .. k-1, from its state `m`
   * before the pass: if its cell has been visited it has moved, and it is still marked
   * when it landed in a cell yet to come; otherwise it is untouched.
   */
  function Staged(m: Moved, k: int, width: nat, height: nat, cellSize: real): Moved
    requires width > 0 && height > 0 && cellSize > 0.0
  {
    if m.cell < k then
      var t := Target(m.body, width, height, cellSize);
      Moved(Advance(m.body, width, height, cellSize), if t >= k then MOVED_THIS_STEP else 0, t)
    else m
  }

  /** The whole table once the pass has visited cells 0 .. k-1. */
  ghost function Visited(t0: seq<Moved>, k: int, width: nat, height: nat, cellSize: real): seq<Moved>
    requires width > 0 && height > 0 && cellSize > 0.0
  {
    seq(|t0|, e requires 0 <= e < |t0| => Staged(t0[e], k, width, height, cellSize))
  }

  /** Every slot is on a list, and the live ones carry no flags, as Lifecycle says before a step. */
  ghost predicate Settled(t: seq<Moved>, ncells: nat)
  {
    forall e :: 0 <= e < |t| ==> t[e].cell >= 0 && FlagsFit(t[e].flags, t[e].cell, ncells)
  }

  /** A world whose lifecycle holds starts the pass settled. */
  lemma TableSettled(o: seq<int>, f: seq<bv32>, b: seq<Body>, ncells: nat)
    requires |b| == |o| && LifecycleExcept(o, f, ncells, -1)
    ensures Settled(Table(b, f, o), ncells)
  {
  }

  /** Before the pass nothing has moved. */
  lemma VisitedNone(t0: seq<Moved>, width: nat, height: nat, cellSize: real)
    requires width > 0 && height > 0 && cellSize > 0.0 && Settled(t0, width * height)
    ensures Visited(t0, 0, width, height, cellSize) == t0
  {
  }

  /**
   * Visiting cell k takes the pass from k visited cells to k+1: the cell holds its own
   * unmoved entities, which move, and the entities earlier cells sent to it, which lose
   * their mark.
   */
  lemma VisitedStep(t0: seq<Moved>, k: nat, width: nat, height: nat, cellSize: real)
    requires width > 0 && height > 0 && cellSize > 0.0 && k < width * height
    requires Settled(t0, width * height)
    ensures VisitCell(Visited(t0, k, width, height, cellSize), k, width, height, cellSize) ==
            Visited(t0, k + 1, width, height, cellSize)
  {
    var t := Visited(t0, k, width, height, cellSize);
    forall e | 0 <= e < |t0|
      ensures VisitCell(t, k, width, height, cellSize)[e] == Staged(t0[e], k + 1, width, height, cellSize)
    {
      assert t0[e].cell >= 0 && FlagsFit(t0[e].flags, t0[e].cell, width * height);
      if t0[e].cell == k {
        MovesOnce(t0[e].body, k, width, height, cellSize);
      }
    }
  }

  /**
   * Once every cell has been visited, every live entity has moved exactly once, into the
   * cell its new position lies in and with no mark left; every dead one is untouched.
   */
  lemma VisitedAll(t0: seq<Moved>, width: nat, height: nat, cellSize: real)
    requires width > 0 && height > 0 && cellSize > 0.0 && Settled(t0, width * height)
    ensures var t := Visited(t0, width * height, width, height, cellSize);
      |t| == |t0| && Settled(t, width * height) &&
      forall e :: 0 <= e < |t0| ==>
        if t0[e].cell < width * height then
          t[e] == Moved(Advance(t0[e].body, width, height, cellSize), 0, Target(t0[e].body, width, height, cellSize)) &&
          Grid.InWorld(t[e].body.pos, width, height, cellSize) &&
          t[e].cell == Grid.CellIndexOf(t[e].body.pos, width, height, cellSize)
        else t[e] == t0[e]
  {
    var t := Visited(t0, width * height, width, height, cellSize);
    forall e | 0 <= e < |t0|
      ensures t[e].cell >= 0 && FlagsFit(t[e].flags, t[e].cell, width * height)
      ensures t0[e].cell < width * height ==>
          Grid.InWorld(t[e].body.pos, width, height, cellSize) &&
          t[e].cell == Grid.CellIndexOf(t[e].body.pos, width, height, cellSize)
    {
      assert t0[e].cell >= 0 && FlagsFit(t0[e].flags, t0[e].cell, width * height);
      AdvanceLands(t0[e].body, width, height, cellSize);
    }
  }

  /** The entities of `done` have had their turn of move_ents on cell `here`; the rest have not. */
  ghost function VisitSome(t: seq<Moved>, done: seq<int>, here: int, width: nat, height: nat, cellSize: real): seq<Moved>
    requires width > 0 && height > 0 && cellSize > 0.0
  {
    seq(|t|, e requires 0 <= e < |t| =>
      if e in done then MoveOne(t[e].body, t[e].flags, here, width, height, cellSize) else t[e])
  }

  /** A slot's turn comes after the turns of the slots before it in the list. */
  lemma VisitNext(t: seq<Moved>, l: seq<int>, i: nat, here: int, width: nat, height: nat, cellSize: real)
    requires width > 0 && height > 0 && cellSize > 0.0
    requires i < |l| && 0 <= l[i] < |t| && Links.NoDup(l)
    ensures VisitSome(t, l[..i], here, width, height, cellSize)[l[i]] == t[l[i]]
    ensures VisitSome(t, l[..i + 1], here, width, height, cellSize) ==
      VisitSome(t, l[..i], here, width, height, cellSize)[l[i] :=
        MoveOne(t[l[i]].body, t[l[i]].flags, here, width, height, cellSize)]
  {
    assert l[i] !in l[..i] by {
      forall j | 0 <= j < i ensures l[j] != l[i] { Links.Differ(l, j, i); }
    }
    assert l[..i + 1] == l[..i] + [l[i]];
  }

  /** When the list holds exactly the slots whose cell is `here`, its turns are the whole visit. */
  lemma VisitListed(t: seq<Moved>, l: seq<int>, here: int, width: nat, height: nat, cellSize: real)
    requires width > 0 && height > 0 && cellSize > 0.0
    requires forall e :: 0 <= e < |t| ==> (e in l <==> t[e].cell == here)
    ensures VisitSome(t, l, here, width, height, cellSize) == VisitCell(t, here, width, height, cellSize)
  {
  }

  /** Before the walk no slot has had its turn. */
  lemma VisitNone(t: seq<Moved>, l: seq<int>, kept: seq<int>, here: int, width: nat, height: nat, cellSize: real)
    requires width > 0 && height > 0 && cellSize > 0.0 && kept == []
    ensures VisitSome(t, l[..0], here, width, height, cellSize) == t
    ensures kept + l[0..] == l
  {
  }

  /** Once the whole list has had its turns, the cell has been visited. */
  lemma VisitAllListed(t: seq<Moved>, t0: seq<Moved>, l: seq<int>, i: nat, here: int, width: nat, height: nat, cellSize: real)
    requires width > 0 && height > 0 && cellSize > 0.0 && i == |l|
    requires forall e :: 0 <= e < |t0| ==> (e in l <==> t0[e].cell == here)
    requires t == VisitSome(t0, l[..i], here, width, height, cellSize)
    ensures t == VisitCell(t0, here, width, height, cellSize)
  {
    assert l[..i] == l;
    VisitListed(t0, l, here, width, height, cellSize);
  }

  /** Writing one slot's fields writes its record. */
  lemma TableWrite(b: seq<Body>, f: seq<bv32>, o: seq<int>, e: nat, nb: Body, nf: bv32, no: int)
    requires |b| == |f| == |o| && e < |o|
    ensures Table(b[e := nb], f[e := nf], o[e := no]) == Table(b, f, o)[e := Moved(nb, nf, no)]
  {
  }

  /** A list's slots are those whose owner is its cell, each once. */
  lemma Listed(w: World, here: nat)
    requires w.Linked() && here < w.NCells()
    ensures Links.NoDup(w.lists[here])
    ensures forall e :: 0 <= e < |w.owner| ==> (e in w.lists[here] <==> w.owner[e] == here)
    ensures forall j :: 0 <= j < |w.lists[here]| ==> 0 <= w.lists[here][j] < |w.owner|
  {
    assert Links.Owners(w.lists, w.owner);
  }

  /** The `next` field of the j-th entity on list k points at the (j+1)-th, or -1 after the last. */
  lemma ListNext(w: World, k: nat, j: nat)
    requires w.Linked() && k < |w.lists| && j < |w.lists[k]|
    ensures 0 <= w.lists[k][j] < |w.next|
    ensures w.next[w.lists[k][j]] == if j + 1 < |w.lists[k]| then w.lists[k][j + 1] else -1
    ensures w.owner[w.lists[k][j]] == k && Links.NoDup(w.lists[k])
  {
    Links.ChainAt(w.LinkState(), w.lists[k], k, w.NCells(), j);
    assert Links.Owners(w.lists, w.owner);
  }

  /** The list of cell `here` holds, once each, exactly the slots whose record says `here`; its head is its first entity. */
  lemma CellListed(w: World, here: nat)
    requires w.Linked() && here < w.NCells() && |w.bodies| == |w.entFlags| == |w.owner|
    ensures Links.NoDup(w.lists[here])
    ensures forall j :: 0 <= j < |w.lists[here]| ==> 0 <= w.lists[here][j] < |w.owner|
    ensures var t := Table(w.bodies, w.entFlags, w.owner);
      forall e :: 0 <= e < |t| ==> (e in w.lists[here] <==> t[e].cell == here)
    ensures w.cells[here] == if w.lists[here] == [] then -1 else w.lists[here][0]
  {
    Listed(w, here);
    ListHead(w, here);
  }

  /** The state before move_ents walks the list of cell `here`. */
  lemma StartWalk(w: World, here: nat)
    requires w.Linked() && w.width > 0 && w.height > 0 && w.cellSize > 0.0 && here < w.NCells()
    requires |w.bodies| == |w.next| && |w.entFlags| == |w.next| == |w.owner|
    ensures var t0, l := Table(w.bodies, w.entFlags, w.owner), w.lists[here];
      Walking(w, here, t0, l, 0, []) && w.cells[here] == (if l == [] then -1 else l[0]) &&
      (forall j :: 0 <= j < |l| ==> 0 <= l[j]) &&
      (forall e :: 0 <= e < |t0| ==> (e in l <==> t0[e].cell == here))
  {
    var t0, l := Table(w.bodies, w.entFlags, w.owner), w.lists[here];
    CellListed(w, here);
    VisitNone(t0, l, [], here, w.width, w.height, w.cellSize);
  }

  /** The head of cell list k is its first entity, or -1 when it is empty. */
  lemma ListHead(w: World, k: nat)
    requires w.Linked() && k < w.NCells()
    ensures w.cells[k] == if w.lists[k] == [] then -1 else w.lists[k][0]
  {
    assert Links.Chain(w.LinkState(), w.lists[k], k, w.NCells());
    assert w.LinkState().heads[k] == w.cells[k];
  }

  /** One turn of the loop: the record of the slot in front of the walk becomes its MoveOne. */
  lemma EntStep(t0: seq<Moved>, l: seq<int>, i: nat, here: int,
                width: nat, height: nat, cellSize: real, b: seq<Body>, f: seq<bv32>, o: seq<int>)
    requires width > 0 && height > 0 && cellSize > 0.0
    requires i < |l| && 0 <= l[i] < |t0| && Links.NoDup(l)
    requires |b| == |f| == |o| == |t0|
    requires Table(b, f, o) == VisitSome(t0, l[..i], here, width, height, cellSize)
    ensures var e := l[i];
      var m := MoveOne(b[e], f[e], here, width, height, cellSize);
      Table(b[e := m.body], f[e := m.flags], o[e := m.cell]) == VisitSome(t0, l[..i + 1], here, width, height, cellSize)
  {
    var e := l[i];
    var m := MoveOne(b[e], f[e], here, width, height, cellSize);
    VisitNext(t0, l, i, here, width, height, cellSize);
    TableWrite(b, f, o, e, m.body, m.flags, m.cell);
    assert Table(b, f, o)[e] == t0[e];
  }

  /** An entity that stays in its cell passes from the unvisited part of the list to the kept part. */
  lemma Shift(kept: seq<int>, l: seq<int>, i: nat)
    requires i < |l|
    ensures kept + l[i..] == (kept + [l[i]]) + l[i + 1..]
  {
    assert l[i..] == [l[i]] + l[i + 1..];
  }

  /** An entity that leaves its cell leaves the kept part and the rest of the list as they were. */
  lemma Drop(kept: seq<int>, l: seq<int>, i: nat)
    requires i < |l| && Links.NoDup(kept + l[i..])
    ensures Links.Delete(kept + l[i..], l[i]) == kept + l[i + 1..]
  {
    var s := kept + l[i..];
    Links.DeleteAt(s, |kept|);
    assert Links.Without(s, |kept|) == kept + l[i + 1..];
  }

  /** unlink_living followed by link_living (lines 182-183): the entity leaves its list for the head of list `c`. */
  method Relink(w: World, e: nat, c: nat)
    requires w.Linked() && e < |w.owner| && 0 <= w.owner[e] < w.NCells() && c < w.NCells() && c != w.owner[e]
    modifies w`next, w`last, w`lists, w`owner, w.cells
    ensures w.Linked() && |w.next| == old(|w.next|)
    ensures w.lists == old(w.lists)[old(w.owner[e]) := Links.Delete(old(w.lists[w.owner[e]]), e)][c := [e] + old(w.lists[c])]
    ensures w.owner == old(w.owner)[e := c]
  {
    w.UnlinkLiving(e);
    w.LinkLiving(e, c);
  }

  /** MoveOne on a marked entity. */
  lemma MoveOneMarked(b: Body, f: bv32, here: int, width: nat, height: nat, cellSize: real)
    requires width > 0 && height > 0 && cellSize > 0.0 && f & MOVED_THIS_STEP != 0
    ensures MoveOne(b, f, here, width, height, cellSize) == Moved(b, f & !MOVED_THIS_STEP, here)
  {
  }

  /** MoveOne on an unmarked entity. */
  lemma MoveOneFresh(b: Body, f: bv32, here: int, width: nat, height: nat, cellSize: real)
    requires width > 0 && height > 0 && cellSize > 0.0 && f & MOVED_THIS_STEP == 0
    ensures var t := Target(b, width, height, cellSize);
      MoveOne(b, f, here, width, height, cellSize) ==
      Moved(Advance(b, width, height, cellSize), if t > here then f | MOVED_THIS_STEP else f, t)
  {
  }

  /**
   * The entity part of a turn of move_ents (world-sim.c, lines 167-181) for the entity
   * `self` of cell `here`: a marked entity only loses its mark; any other advances by its
   * velocity plus its correction, is wrapped back into the world by reposition, and is
   * marked when it lands in a later cell.
   */
  method AdvanceEnt(w: World, self: nat, here: nat) returns (cell: int)
    requires w.width > 0 && w.height > 0 && w.cellSize > 0.0
    requires |w.bodies| == |w.entFlags| && self < |w.bodies| && 0 <= here < w.NCells()
    modifies w`bodies, w`entFlags
    ensures 0 <= cell < w.NCells()
    ensures var m := MoveOne(old(w.bodies[self]), old(w.entFlags[self]), here, w.width, w.height, w.cellSize);
      w.bodies == old(w.bodies)[self := m.body] && w.entFlags == old(w.entFlags)[self := m.flags] && cell == m.cell
  {
    if w.entFlags[self] & MOVED_THIS_STEP != 0 {
      MoveOneMarked(w.bodies[self], w.entFlags[self], here, w.width, w.height, w.cellSize);
      w.entFlags := w.entFlags[self := w.entFlags[self] & !MOVED_THIS_STEP];
      return here;
    }
    var b := w.bodies[self];
    MoveOneFresh(b, w.entFlags[self], here, w.width, w.height, w.cellSize);
    w.bodies := w.bodies[self := b.(pos := Add(b.pos, Add(b.vel, b.correct)), correct := Zero)];
    cell := w.Reposition(self);
    assert w.bodies[self] == Advance(b, w.width, w.height, w.cellSize) && cell == Target(b, w.width, w.height, w.cellSize);
    if cell > here {
      w.entFlags := w.entFlags[self := w.entFlags[self] | MOVED_THIS_STEP];
    }
  }

  /**
   * The state of move_ents after the first `i` entities of the list `l` of cell `here`
   * have had their turns: the turns are recorded against the starting table `t0`, and the
   * list still holds the entities that stayed (`kept`) followed by those not yet visited.
   */
  ghost predicate Walking(w: World, here: nat, t0: seq<Moved>, l: seq<int>, i: nat, kept: seq<int>)
    reads w, w.cells
  {
    w.Linked() && w.width > 0 && w.height > 0 && w.cellSize > 0.0 && here < w.NCells() &&
    |w.bodies| == |w.next| && |w.entFlags| == |w.next| == |w.owner| && |w.next| == |t0| &&
    i <= |l| && Links.NoDup(l) && w.lists[here] == kept + l[i..] &&
    Table(w.bodies, w.entFlags, w.owner) == VisitSome(t0, l[..i], here, w.width, w.height, w.cellSize)
  }

  /** One turn of the loop of move_ents (lines 163-184), for the entity at position `i` of `l`. */
  method Turn(w: World, self: nat, here: nat, ghost t0: seq<Moved>, ghost l: seq<int>, ghost i: nat, ghost kept: seq<int>)
      returns (next: int, ghost kept': seq<int>)
    requires w.Linked() && w.width > 0 && w.height > 0 && w.cellSize > 0.0 && here < w.NCells()
    requires |w.bodies| == |w.next| && |w.entFlags| == |w.next| == |w.owner| && |w.next| == |t0|
    requires i < |l| && self == l[i] && Links.NoDup(l)
    requires w.lists[here] == kept + l[i..]
    requires Table(w.bodies, w.entFlags, w.owner) == VisitSome(t0, l[..i], here, w.width, w.height, w.cellSize)
    modifies w`bodies, w`entFlags, w`next, w`last, w`lists, w`owner, w.cells
    ensures w.Linked() && |w.bodies| == |w.next| && |w.entFlags| == |w.next| == |w.owner| && |w.next| == |t0|
    ensures w.lists[here] == kept' + l[i + 1..]
    ensures Table(w.bodies, w.entFlags, w.owner) == VisitSome(t0, l[..i + 1], here, w.width, w.height, w.cellSize)
    ensures next == if i + 1 < |l| then l[i + 1] else -1
  {
    ListNext(w, here, |kept|);
    next := w.next[self];
    ghost var b0, f0, o0 := w.bodies, w.entFlags, w.owner;
    var c := AdvanceEnt(w, self, here);
    kept' := Refile(w, self, here, c, l, i, kept);
    EntStep(t0, l, i, here, w.width, w.height, w.cellSize, b0, f0, o0);
  }

  /** The relinking part of a turn: an entity whose cell changed leaves the list being walked. */
  method Refile(w: World, self: nat, here: nat, c: nat, ghost l: seq<int>, ghost i: nat, ghost kept: seq<int>)
      returns (ghost kept': seq<int>)
    requires w.Linked() && here < w.NCells() && c < w.NCells()
    requires self < |w.owner| && w.owner[self] == here
    requires i < |l| && self == l[i] && w.lists[here] == kept + l[i..]
    modifies w`next, w`last, w`lists, w`owner, w.cells
    ensures w.Linked() && |w.next| == old(|w.next|)
    ensures w.owner == old(w.owner)[self := c]
    ensures w.lists[here] == kept' + l[i + 1..]
  {
    Listed(w, here);
    if c != here {
      Drop(kept, l, i);
      Relink(w, self, c);
      kept' := kept;
    } else {
      Shift(kept, l, i);
      kept' := kept + [self];
    }
  }

  /** The loop of move_ents (lines 162-185): every entity of the list `l` takes its turn. */
  method WalkList(w: World, here: nat, first: int, ghost t0: seq<Moved>, ghost l: seq<int>)
      returns (ghost kept: seq<int>)
    requires Walking(w, here, t0, l, 0, []) && first == (if l == [] then -1 else l[0])
    requires forall j :: 0 <= j < |l| ==> 0 <= l[j]
    requires forall e :: 0 <= e < |t0| ==> (e in l <==> t0[e].cell == here)
    modifies w`bodies, w`entFlags, w`next, w`last, w`lists, w`owner, w.cells
    ensures w.Linked() && |w.bodies| == |w.next| && |w.entFlags| == |w.next| == |w.owner| && |w.next| == |t0|
    ensures Table(w.bodies, w.entFlags, w.owner) == VisitCell(t0, here, w.width, w.height, w.cellSize)
  {
    var next := first;
    kept := [];
    ghost var i: nat := 0;
    while next >= 0
      invariant Walking(w, here, t0, l, i, kept)
      invariant next == if i < |l| then l[i] else -1
      decreases |l| - i
    {
      next, kept := Turn(w, next, here, t0, l, i, kept);
      i := i + 1;
    }
    VisitAllListed(Table(w.bodies, w.entFlags, w.owner), t0, l, i, here, w.width, w.height, w.cellSize);
  }

  /**
   * move_ents (world-sim.c, lines 158-186): walks the list of cell (x, y), saving each
   * entity's successor before the entity may be relinked, and gives every entity listed
   * there its turn, as VisitCell says.
   */
  method MoveEnts(w: World, x: nat, y: nat)
    requires w.Linked() && x < w.width && y < w.height && w.cellSize > 0.0
    requires |w.bodies| == |w.next| && |w.entFlags| == |w.next| == |w.owner|
    modifies w`bodies, w`entFlags, w`next, w`last, w`lists, w`owner, w.cells
    ensures w.Linked() && |w.bodies| == |w.next| && |w.entFlags| == |w.next| == |w.owner| && |w.next| == old(|w.next|)
    ensures Table(w.bodies, w.entFlags, w.owner) ==
      VisitCell(old(Table(w.bodies, w.entFlags, w.owner)), y * w.width + x, w.width, w.height, w.cellSize)
  {
    Grid.RowMajorInRange(x, y, w.width, w.height);
    var here := y * w.width + x;
    StartWalk(w, here);
    ghost var kept := WalkList(w, here, w.cells[here], Table(w.bodies, w.entFlags, w.owner), w.lists[here]);
  }

  /**
   * The move loop of jwb_world_step (world-sim.c, lines 359-363): move_ents on every cell
   * in row-major order. Every live entity moves exactly once and ends up listed in the
   * cell its new position lies in; removed and destroyed slots are untouched.
   */
  method MovePass(w: World)
    requires w.Valid()
    modifies w`bodies, w`entFlags, w`next, w`last, w`lists, w`owner, w.cells
    ensures w.Valid()
    ensures |w.bodies| == old(|w.bodies|)
    ensures forall e :: 0 <= e < |w.bodies| && old(w.owner[e]) < w.NCells() ==>
      w.bodies[e] == Advance(old(w.bodies[e]), w.width, w.height, w.cellSize) &&
      w.owner[e] == Target(old(w.bodies[e]), w.width, w.height, w.cellSize) &&
      w.owner[e] == Grid.CellIndexOf(w.bodies[e].pos, w.width, w.height, w.cellSize)
    ensures forall e :: 0 <= e < |w.bodies| && old(w.owner[e]) >= w.NCells() ==>
      w.bodies[e] == old(w.bodies[e]) && w.entFlags[e] == old(w.entFlags[e]) && w.owner[e] == old(w.owner[e])
  {
    ghost var t0 := Table(w.bodies, w.entFlags, w.owner);
    TableSettled(w.owner, w.entFlags, w.bodies, w.NCells());
    VisitedNone(t0, w.width, w.height, w.cellSize);
    var y := 0;
    while y < w.height
      invariant y <= w.height
      invariant w.Linked() && |w.bodies| == |w.next| && |w.entFlags| == |w.next| == |w.owner| && |w.next| == old(|w.next|)
      invariant Table(w.bodies, w.entFlags, w.owner) == Visited(t0, y * w.width, w.width, w.height, w.cellSize)
    {
      MoveRow(w, y, t0);
      y := y + 1;
    }
    assert y * w.width == w.width * w.height;
    VisitedAll(t0, w.width, w.height, w.cellSize);
    assert forall e :: 0 <= e < |w.owner| ==> Table(w.bodies, w.entFlags, w.owner)[e] == Moved(w.bodies[e], w.entFlags[e], w.owner[e]);
  }

  /** One turn of the outer loop: move_ents on every cell of row y, left to right. */
  method MoveRow(w: World, y: nat, ghost t0: seq<Moved>)
    requires w.Linked() && |w.bodies| == |w.next| && |w.entFlags| == |w.next| == |w.owner|
    requires y < w.height && w.width >= 1 && w.cellSize > 0.0 && Settled(t0, w.width * w.height)
    requires Table(w.bodies, w.entFlags, w.owner) == Visited(t0, y * w.width, w.width, w.height, w.cellSize)
    modifies w`bodies, w`entFlags, w`next, w`last, w`lists, w`owner, w.cells
    ensures w.Linked() && |w.bodies| == |w.next| && |w.entFlags| == |w.next| == |w.owner| && |w.next| == old(|w.next|)
    ensures Table(w.bodies, w.entFlags, w.owner) == Visited(t0, (y + 1) * w.width, w.width, w.height, w.cellSize)
  {
    var x := 0;
    while x < w.width
      invariant x <= w.width
      invariant w.Linked() && |w.bodies| == |w.next| && |w.entFlags| == |w.next| == |w.owner| && |w.next| == old(|w.next|)
      invariant Table(w.bodies, w.entFlags, w.owner) == Visited(t0, y * w.width + x, w.width, w.height, w.cellSize)
    {
      MoveEnts(w, x, y);
      Grid.RowMajorInRange(x, y, w.width, w.height);
      VisitedStep(t0, y * w.width + x, w.width, w.height, w.cellSize);
      x := x + 1;
    }
    NextRow(y, w.width);
  }

  /** The first cell of row y + 1 follows the last cell of row y. */
  lemma NextRow(y: int, width: int)
    ensures y * width + width == (y + 1) * width
  {
  }
}
