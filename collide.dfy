/**
 * The collision half of jwb_world_step (src/world-sim.c, lines 106-346) as the library
 * runs it: loops that follow the `next` pointers of the cell lists and call the world's
 * hit handler. Each method is proved to do what module Hits says its calls do, so the
 * whole scan is RunOps over Scan.Schedule.
 */
module Collide {
  import opened Vectors
  import opened Collision
  import opened WorldModel
  import opened Resolvers
  import opened Scan
  import opened Hits
  import Grid
  import Links
  import Totals

  /** The scene of a world: its cell lists, dimensions and handler. */
  ghost function SceneOf(w: World, mag: Vect -> real): Scene
    reads w`lists, w`onHit
  {
    Scene(w.lists, w.width, w.height, w.cellSize, w.onHit, mag)
  }

  /**
   * What the scan needs of a world apart from its bodies: its lists are linked, the grid
   * is at least 3 by 3, and the magnitude function returns lengths.
   */
  ghost predicate Layout(w: World, mag: Vect -> real)
    reads w`cells, w.cells, w`freed, w`available, w`next, w`last, w`lists, w`owner
  {
    w.Linked() && w.width >= 3 && w.height >= 3 && w.cellSize > 0.0 && NonNegative(mag)
  }

  /** ... and every live body has a positive mass, so the handlers' divisions are defined. */
  ghost predicate Ready(w: World, mag: Vect -> real)
    reads w, w.cells
  {
    Layout(w, mag) && |w.bodies| == |w.next| && Heavy(w.bodies, w.owner, w.NCells())
  }

  /** The `next` pointers walk the list `l` from its first entity to its last. */
  ghost predicate Walk(nx: seq<int>, l: seq<int>)
  {
    forall i :: 0 <= i < |l| ==> 0 <= l[i] < |nx| && nx[l[i]] == (if i + 1 < |l| then l[i + 1] else -1)
  }

  lemma WalkAt(nx: seq<int>, l: seq<int>, i: nat)
    requires Walk(nx, l) && i < |l|
    ensures 0 <= l[i] < |nx| && nx[l[i]] == (if i + 1 < |l| then l[i + 1] else -1)
  {
  }

  /** Every entity of `l` is a slot of the table with a positive mass. */
  ghost predicate Positive(b: seq<Body>, l: seq<int>)
  {
    forall i :: 0 <= i < |l| ==> 0 <= l[i] < |b| && b[l[i]].mass > 0.0
  }

  /** A change that keeps the masses keeps the masses of a list positive. */
  lemma PositiveKept(b: seq<Body>, r: seq<Body>, l: seq<int>)
    requires Positive(b, l) && SameMasses(b, r)
    ensures Positive(r, l)
  {
  }

  /** The parts of a world the scan reads and never writes, apart from the cell array. */
  datatype Shape = Shape(next: seq<int>, lists: seq<seq<int>>, width: nat, height: nat, cellSize: real)

  ghost function ShapeOf(w: World): Shape
    reads w`next, w`lists
  {
    Shape(w.next, w.lists, w.width, w.height, w.cellSize)
  }

  /**
   * What the scan loops need of a shape, cell by cell: the `next` pointers walk each
   * cell's list, and the list has no repeats.
   */
  ghost predicate Lined(s: Shape, mag: Vect -> real)
  {
    s.width >= 3 && s.height >= 3 && s.cellSize > 0.0 && NonNegative(mag) &&
    |s.lists| == s.width * s.height + 2 &&
    forall k :: 0 <= k < s.width * s.height ==> ListOk(s, k)
  }

  /** The `next` pointers walk list `k` of `s`, which has no repeats. */
  ghost predicate ListOk(s: Shape, k: int)
  {
    0 <= k < |s.lists| && Walk(s.next, s.lists[k]) && Links.NoDup(s.lists[k])
  }

  /** Each cell of the array holds the head of its list. */
  ghost predicate Headed(w: World)
    reads w`cells, w.cells, w`lists
  {
    w.cells.Length == w.width * w.height && w.cells.Length <= |w.lists| &&
    forall k :: 0 <= k < w.cells.Length ==> HeadOk(w, k)
  }

  ghost predicate HeadOk(w: World, k: int)
    reads w`cells, w.cells, w`lists
  {
    0 <= k < w.cells.Length && k < |w.lists| &&
    w.cells[k] == (if w.lists[k] == [] then -1 else w.lists[k][0])
  }

  /** The bodies on the cell lists of `s` have positive masses, in a table as long as `next`. */
  ghost predicate Weighty(b: seq<Body>, s: Shape)
  {
    |b| == |s.next| && forall k :: 0 <= k < s.width * s.height ==> ListHeavy(b, s, k)
  }

  /** The bodies on list `k` have positive masses. */
  ghost predicate ListHeavy(b: seq<Body>, s: Shape, k: int)
  {
    0 <= k < |s.lists| && Positive(b, s.lists[k])
  }

  lemma WeightyKept(b: seq<Body>, r: seq<Body>, s: Shape)
    requires Weighty(b, s) && SameMasses(b, r)
    ensures Weighty(r, s)
  {
    forall k | 0 <= k < s.width * s.height ensures ListHeavy(r, s, k) {
      assert ListHeavy(b, s, k);
      PositiveKept(b, r, s.lists[k]);
    }
  }

  /** A ready world is lined and weighty. */
  lemma ReadyLined(w: World, mag: Vect -> real)
    requires Ready(w, mag)
    ensures Lined(ShapeOf(w), mag) && Headed(w) && Weighty(w.bodies, ShapeOf(w))
  {
    var s := w.LinkState();
    var n := w.NCells();
    forall k | 0 <= k < n
      ensures w.cells[k] == (if w.lists[k] == [] then -1 else w.lists[k][0])
      ensures Walk(w.next, w.lists[k]) && Links.NoDup(w.lists[k])
      ensures Positive(w.bodies, w.lists[k])
    {
      var l := w.lists[k];
      assert Links.Chain(s, l, k, n);
      assert s.heads[k] == w.cells[k];
      forall i | 0 <= i < |l| ensures 0 <= l[i] < |w.next| && w.next[l[i]] == (if i + 1 < |l| then l[i + 1] else -1) {
        Links.ChainAt(s, l, k, n, i);
      }
      forall i | 0 <= i < |l| ensures 0 <= l[i] < |w.bodies| && w.bodies[l[i]].mass > 0.0 {
        assert l[i] in l;
        OwnerOf(w, k, l[i]);
      }
      assert Links.Owners(w.lists, w.owner);
      assert Links.NoDup(w.lists[k]);
    }
  }

  /** What the loops over cell (x, y) of a lined, weighty world read. */
  lemma CellAt(w: World, mag: Vect -> real, x: nat, y: nat)
    requires Lined(ShapeOf(w), mag) && Headed(w) && Weighty(w.bodies, ShapeOf(w)) && x < w.width && y < w.height
    ensures y * w.width + x < w.cells.Length && y * w.width + x < |w.lists|
    ensures CellList(SceneOf(w, mag), Cell(x, y)) == w.lists[y * w.width + x]
    ensures var l := w.lists[y * w.width + x];
      w.cells[y * w.width + x] == (if l == [] then -1 else l[0]) &&
      Walk(w.next, l) && Positive(w.bodies, l) && Links.NoDup(l) && |w.bodies| == |w.next|
  {
    Grid.RowMajorInRange(x, y, w.width, w.height);
    var c := y * w.width + x;
    assert ListOk(ShapeOf(w), c) && ListHeavy(w.bodies, ShapeOf(w), c) && HeadOk(w, c);
  }

  /** An entity on list `k` is owned by `k`. */
  lemma OwnerOf(w: World, k: nat, e: int)
    requires w.Linked() && k < |w.lists| && e in w.lists[k]
    ensures 0 <= e < |w.owner| && w.owner[e] == k
  {
    var i :| 0 <= i < |w.lists[k]| && w.lists[k][i] == e;
  }

  /** An entity on the list of cell `c` is owned by the row-major index of `c`. */
  lemma CellOwner(w: World, mag: Vect -> real, c: Cell, e: int)
    requires Ready(w, mag) && e in CellList(SceneOf(w, mag), c)
    ensures InGrid(w.width, w.height, c) && 0 <= e < |w.owner| && w.owner[e] == c.y * w.width + c.x
  {
    Grid.RowMajorInRange(c.x, c.y, w.width, w.height);
    OwnerOf(w, c.y * w.width + c.x, e);
  }

  /** The list of a cell of a linked world holds no repeats. */
  lemma CellNoDup(w: World, mag: Vect -> real, c: Cell)
    requires Ready(w, mag)
    ensures Links.NoDup(CellList(SceneOf(w, mag), c))
  {
    var k := c.y * w.width + c.x;
    if InGrid(w.width, w.height, c) && k < |w.lists| {
      assert Links.Owners(w.lists, w.owner);
      assert Links.NoDup(w.lists[k]);
    }
  }

  /** The cell lists of a linked world hold no repeats and share no entity. */
  lemma SceneApart(w: World, mag: Vect -> real)
    requires Ready(w, mag)
    ensures CellsApart(SceneOf(w, mag))
  {
    var sc := SceneOf(w, mag);
    forall c ensures Links.NoDup(CellList(sc, c)) {
      CellNoDup(w, mag, c);
    }
    forall c1, c2, e | e in CellList(sc, c1) && e in CellList(sc, c2) ensures c1 == c2 {
      CellOwner(w, mag, c1, e);
      CellOwner(w, mag, c2, e);
      Grid.RowMajorInjective(c1.x, c1.y, c2.x, c2.y, sc.width);
    }
  }

  /** check_hit (lines 106-115) with the world's handler. */
  method CheckHit(w: World, mag: Vect -> real, e1: nat, e2: nat)
    requires NonNegative(mag) && e1 < |w.bodies| && e2 < |w.bodies|
    requires w.bodies[e1].mass > 0.0 && w.bodies[e2].mass > 0.0
    modifies w`bodies
    ensures w.bodies == CheckHitOn(old(w.bodies), e1, e2, SceneOf(w, mag))
    ensures SameMasses(old(w.bodies), w.bodies)
  {
    ghost var b0 := w.bodies;
    var rel := Sub(w.bodies[e2].pos, w.bodies[e1].pos);
    var info := HitInfo(rel, mag(rel));
    if info.dist < w.bodies[e1].radius + w.bodies[e2].radius {
      PositiveDivisible(w.bodies[e1], w.bodies[e2], info.dist);
      match w.onHit
      case Elastic => ElasticCollision(w, e1, e2, info);
      case Inelastic => InelasticCollision(w, e1, e2, info);
    }
    CheckHitFrame(b0, e1, e2, SceneOf(w, mag));
    FrameMasses(b0, w.bodies);
  }

  /** A suffix of a walked list is walked by the same pointers. */
  lemma WalkSuffix(nx: seq<int>, b: seq<Body>, l: seq<int>, k: nat)
    requires Walk(nx, l) && Positive(b, l) && k <= |l|
    ensures Walk(nx, l[k..]) && Positive(b, l[k..])
  {
    var s := l[k..];
    forall i | 0 <= i < |s|
      ensures 0 <= s[i] < |nx| && nx[s[i]] == (if i + 1 < |s| then s[i + 1] else -1)
    {
      WalkAt(nx, l, k + i);
      assert s[i] == l[k + i];
      if i + 1 < |s| {
        assert s[i + 1] == l[k + i + 1];
      }
    }
    assert Walk(nx, s);
    forall i | 0 <= i < |s|
      ensures 0 <= s[i] < |b| && b[s[i]].mass > 0.0
    {
      assert s[i] == l[k + i];
    }
  }

  /**
   * The inner loop of update_cell and update_cells (lines 124-129 and 145-152): `self`
   * against each entity of the list that starts at `first`.
   */
  method CheckWith(w: World, mag: Vect -> real, self: nat, first: int, ghost l: seq<int>)
    requires NonNegative(mag) && self < |w.bodies| && w.bodies[self].mass > 0.0
    requires Walk(w.next, l) && Positive(w.bodies, l) && |w.bodies| == |w.next|
    requires first == (if l == [] then -1 else l[0])
    modifies w`bodies
    ensures w.bodies == HitAll(old(w.bodies), With(self, l), SceneOf(w, mag))
    ensures SameMasses(old(w.bodies), w.bodies)
  {
    ghost var sc := SceneOf(w, mag);
    ghost var b0, nx := w.bodies, w.next;
    ghost var goal := HitAll(w.bodies, With(self, l), sc);
    var nextOther := first;
    ghost var j := 0;
    assert l[0..] == l;
    while nextOther >= 0
      invariant 0 <= j <= |l| && SceneOf(w, mag) == sc && w.next == nx && SameMasses(b0, w.bodies)
      invariant nextOther == (if j < |l| then l[j] else -1)
      invariant HitAll(w.bodies, With(self, l[j..]), sc) == goal
      decreases |l| - j
    {
      WalkAt(nx, l, j);
      var other := nextOther;
      nextOther := w.next[nextOther];
      WithAdvance(w.bodies, self, l, j, sc);
      PositiveKept(b0, w.bodies, l);
      ghost var before := w.bodies;
      CheckHit(w, mag, self, other);
      MassesTrans(b0, before, w.bodies);
      j := j + 1;
    }
    assert l[j..] == [];
  }

  /** The loop of update_cell (lines 120-131): the list that starts at `first`, pair by pair. */
  method CheckPairs(w: World, mag: Vect -> real, first: int, ghost l: seq<int>)
    requires NonNegative(mag) && Walk(w.next, l) && Positive(w.bodies, l) && |w.bodies| == |w.next|
    requires first == (if l == [] then -1 else l[0])
    modifies w`bodies
    ensures w.bodies == HitAll(old(w.bodies), Pairs(l), SceneOf(w, mag))
    ensures SameMasses(old(w.bodies), w.bodies)
  {
    ghost var sc := SceneOf(w, mag);
    ghost var b0, nx := w.bodies, w.next;
    ghost var goal := HitAll(w.bodies, Pairs(l), sc);
    var next := first;
    ghost var i := 0;
    assert l[0..] == l;
    while next >= 0
      invariant 0 <= i <= |l| && SceneOf(w, mag) == sc && w.next == nx && SameMasses(b0, w.bodies)
      invariant next == (if i < |l| then l[i] else -1)
      invariant HitAll(w.bodies, Pairs(l[i..]), sc) == goal
      decreases |l| - i
    {
      WalkAt(nx, l, i);
      var self := next;
      next := w.next[next];
      PairsThen(w.bodies, l, i, sc);
      PositiveKept(b0, w.bodies, l);
      WalkSuffix(nx, w.bodies, l, i + 1);
      ghost var before := w.bodies;
      CheckWith(w, mag, self, next, l[i + 1..]);
      MassesTrans(b0, before, w.bodies);
      i := i + 1;
    }
    assert l[i..] == [];
  }

  /** update_cell (lines 117-132): each entity of the cell against every later one. */
  method UpdateCell(w: World, mag: Vect -> real, ghost sc: Scene, ghost sh: Shape, x: nat, y: nat)
    requires sc == SceneOf(w, mag) && sh == ShapeOf(w) && Lined(sh, mag) && Headed(w) && Weighty(w.bodies, sh) && x < sh.width && y < sh.height
    modifies w`bodies
    ensures w.bodies == RunOps(old(w.bodies), [Check(Cell(x, y))], sc)
    ensures Weighty(w.bodies, sh)
    ensures sc == SceneOf(w, mag) && sh == ShapeOf(w) && Headed(w)
  {
    CellAt(w, mag, x, y);
    ghost var b := w.bodies;
    ghost var l := w.lists[y * w.width + x];
    CheckPairs(w, mag, w.cells[y * w.width + x], l);
    WeightyKept(b, w.bodies, sh);
    RunOne(b, Check(Cell(x, y)), sc);
  }

  /** The loop of update_cells (lines 140-155): the list at `first1` against the list at `first2`. */
  method CheckCross(w: World, mag: Vect -> real, first1: int, first2: int, ghost l1: seq<int>, ghost l2: seq<int>)
    requires NonNegative(mag) && |w.bodies| == |w.next|
    requires Walk(w.next, l1) && Positive(w.bodies, l1) && Walk(w.next, l2) && Positive(w.bodies, l2)
    requires first1 == (if l1 == [] then -1 else l1[0]) && first2 == (if l2 == [] then -1 else l2[0])
    modifies w`bodies
    ensures w.bodies == HitAll(old(w.bodies), Cross(l1, l2), SceneOf(w, mag))
    ensures SameMasses(old(w.bodies), w.bodies)
  {
    ghost var sc := SceneOf(w, mag);
    ghost var b0, nx := w.bodies, w.next;
    ghost var goal := HitAll(w.bodies, Cross(l1, l2), sc);
    var next1 := first1;
    ghost var i := 0;
    assert l1[0..] == l1;
    while next1 >= 0
      invariant 0 <= i <= |l1| && SceneOf(w, mag) == sc && w.next == nx && SameMasses(b0, w.bodies)
      invariant next1 == (if i < |l1| then l1[i] else -1)
      invariant HitAll(w.bodies, Cross(l1[i..], l2), sc) == goal
      decreases |l1| - i
    {
      WalkAt(nx, l1, i);
      var self := next1;
      next1 := w.next[next1];
      CrossThen(w.bodies, l1, l2, i, sc);
      PositiveKept(b0, w.bodies, l1);
      PositiveKept(b0, w.bodies, l2);
      ghost var before := w.bodies;
      CheckWith(w, mag, self, first2, l2);
      MassesTrans(b0, before, w.bodies);
      i := i + 1;
    }
    assert l1[i..] == [];
  }

  /** update_cells (lines 134-156): each entity of the first cell against each of the second. */
  method UpdateCells(w: World, mag: Vect -> real, ghost sc: Scene, ghost sh: Shape, x1: nat, y1: nat, x2: nat, y2: nat)
    requires sc == SceneOf(w, mag) && sh == ShapeOf(w) && Lined(sh, mag) && Headed(w) && Weighty(w.bodies, sh)
    requires x1 < sh.width && y1 < sh.height && x2 < sh.width && y2 < sh.height
    modifies w`bodies
    ensures w.bodies == RunOps(old(w.bodies), [CheckPair(Cell(x1, y1), Cell(x2, y2))], sc)
    ensures Weighty(w.bodies, sh)
    ensures sc == SceneOf(w, mag) && sh == ShapeOf(w) && Headed(w)
  {
    CellAt(w, mag, x1, y1);
    CellAt(w, mag, x2, y2);
    ghost var b := w.bodies;
    ghost var l1, l2 := w.lists[y1 * w.width + x1], w.lists[y2 * w.width + x2];
    CheckCross(w, mag, w.cells[y1 * w.width + x1], w.cells[y2 * w.width + x2], l1, l2);
    WeightyKept(b, w.bodies, sh);
    RunOne(b, CheckPair(Cell(x1, y1), Cell(x2, y2)), sc);
  }

  /** The loop of cell_translate (lines 191-197): every body of the list at `first` moves by `disp`. */
  method TranslateList(w: World, first: int, disp: Vect, ghost l: seq<int>)
    requires Walk(w.next, l) && |w.bodies| == |w.next|
    requires first == (if l == [] then -1 else l[0])
    modifies w`bodies
    ensures w.bodies == TranslateAll(old(w.bodies), l, disp)
  {
    ghost var goal := TranslateAll(w.bodies, l, disp);
    ghost var nx := w.next;
    var next := first;
    ghost var i := 0;
    assert l[0..] == l;
    while next >= 0
      invariant 0 <= i <= |l| && w.next == nx && |w.bodies| == |nx|
      invariant next == (if i < |l| then l[i] else -1)
      invariant TranslateAll(w.bodies, l[i..], disp) == goal
      decreases |l| - i
    {
      WalkAt(nx, l, i);
      TranslateStep(w.bodies, l, disp, i);
      w.bodies := w.bodies[next := w.bodies[next].(pos := Add(w.bodies[next].pos, disp))];
      next := w.next[next];
      i := i + 1;
    }
    assert l[i..] == [];
  }

  /**
   * cell_translate (lines 188-198): every body of the cell moves by `disp`. The routines only
   * ever pass a whole world extent, `(dx, dy)` times the world's size.
   */
  method CellTranslate(w: World, mag: Vect -> real, ghost sc: Scene, ghost sh: Shape, x: nat, y: nat, disp: Vect, ghost dx: int, ghost dy: int)
    requires sc == SceneOf(w, mag) && sh == ShapeOf(w) && Lined(sh, mag) && Headed(w) && Weighty(w.bodies, sh) && x < sh.width && y < sh.height
    requires disp == Disp(sc, dx, dy)
    modifies w`bodies
    ensures w.bodies == RunOps(old(w.bodies), [Translate(Cell(x, y), dx, dy)], sc)
    ensures Weighty(w.bodies, sh)
    ensures sc == SceneOf(w, mag) && sh == ShapeOf(w) && Headed(w)
  {
    CellAt(w, mag, x, y);
    ghost var b := w.bodies;
    ghost var l := w.lists[y * w.width + x];
    TranslateList(w, w.cells[y * w.width + x], disp, l);
    TranslateKeepsMasses(b, l, disp);
    WeightyKept(b, w.bodies, sh);
    RunOne(b, Translate(Cell(x, y), dx, dy), sc);
  }

  // ---------------------------------------------------------------------------------
  // The calls of each routine, one state after the next, make up its op list

  /** A run of one call is that call. */
  lemma RunOne(b: seq<Body>, o: Op, sc: Scene)
    ensures RunOps(b, [o], sc) == RunOp(b, o, sc)
  {
    RunFirst(b, o, [], sc);
    assert [o] + [] == [o];
  }

  lemma RunTopLeft(last: int, sc: Scene, b0: seq<Body>, b1: seq<Body>, b2: seq<Body>, b3: seq<Body>,
                   b4: seq<Body>, b5: seq<Body>, b6: seq<Body>, b7: seq<Body>)
    requires b1 == RunOps(b0, [Check(Cell(0, 0))], sc)
    requires b2 == RunOps(b1, [CheckPair(Cell(0, 0), Cell(1, 0))], sc)
    requires b3 == RunOps(b2, [CheckPair(Cell(0, 0), Cell(1, 1))], sc)
    requires b4 == RunOps(b3, [CheckPair(Cell(0, 0), Cell(0, 1))], sc)
    requires b5 == RunOps(b4, [Translate(Cell(0, 0), 1, 0)], sc)
    requires b6 == RunOps(b5, [CheckPair(Cell(0, 0), Cell(last, 1))], sc)
    requires b7 == RunOps(b6, [Translate(Cell(0, 0), -1, 0)], sc)
    ensures RunOps(b0, TopLeft(last + 1), sc) == b7
  {
    RunOne(b0, Check(Cell(0, 0)), sc);
    RunOne(b1, CheckPair(Cell(0, 0), Cell(1, 0)), sc);
    RunOne(b2, CheckPair(Cell(0, 0), Cell(1, 1)), sc);
    RunOne(b3, CheckPair(Cell(0, 0), Cell(0, 1)), sc);
    RunOne(b4, Translate(Cell(0, 0), 1, 0), sc);
    RunOne(b5, CheckPair(Cell(0, 0), Cell(last, 1)), sc);
    RunOne(b6, Translate(Cell(0, 0), -1, 0), sc);
    var c := Cell(0, 0);
    RunSeven(Check(c), CheckPair(c, Cell(1, 0)), CheckPair(c, Cell(1, 1)), CheckPair(c, Cell(0, 1)),
             Translate(c, 1, 0), CheckPair(c, Cell(last, 1)), Translate(c, -1, 0), sc,
             b0, b1, b2, b3, b4, b5, b6, b7);
  }

  lemma RunTopRight(x: int, sc: Scene, b0: seq<Body>, b1: seq<Body>, b2: seq<Body>, b3: seq<Body>,
                    b4: seq<Body>, b5: seq<Body>, b6: seq<Body>, b7: seq<Body>)
    requires b1 == RunOps(b0, [Check(Cell(x, 0))], sc)
    requires b2 == RunOps(b1, [Translate(Cell(x, 0), -1, 0)], sc)
    requires b3 == RunOps(b2, [CheckPair(Cell(x, 0), Cell(0, 0))], sc)
    requires b4 == RunOps(b3, [CheckPair(Cell(x, 0), Cell(0, 1))], sc)
    requires b5 == RunOps(b4, [Translate(Cell(x, 0), 1, 0)], sc)
    requires b6 == RunOps(b5, [CheckPair(Cell(x, 0), Cell(x, 1))], sc)
    requires b7 == RunOps(b6, [CheckPair(Cell(x, 0), Cell(x - 1, 1))], sc)
    ensures RunOps(b0, TopRight(x + 1), sc) == b7
  {
    RunOne(b0, Check(Cell(x, 0)), sc);
    RunOne(b1, Translate(Cell(x, 0), -1, 0), sc);
    RunOne(b2, CheckPair(Cell(x, 0), Cell(0, 0)), sc);
    RunOne(b3, CheckPair(Cell(x, 0), Cell(0, 1)), sc);
    RunOne(b4, Translate(Cell(x, 0), 1, 0), sc);
    RunOne(b5, CheckPair(Cell(x, 0), Cell(x, 1)), sc);
    RunOne(b6, CheckPair(Cell(x, 0), Cell(x - 1, 1)), sc);
    var c := Cell(x, 0);
    RunSeven(Check(c), Translate(c, -1, 0), CheckPair(c, Cell(0, 0)), CheckPair(c, Cell(0, 1)),
             Translate(c, 1, 0), CheckPair(c, Cell(x, 1)), CheckPair(c, Cell(x - 1, 1)), sc,
             b0, b1, b2, b3, b4, b5, b6, b7);
  }

  lemma RunLeftBlock(last: int, y: int, sc: Scene, b0: seq<Body>, b1: seq<Body>, b2: seq<Body>,
                     b3: seq<Body>, b4: seq<Body>, b5: seq<Body>, b6: seq<Body>, b7: seq<Body>)
    requires b1 == RunOps(b0, [Check(Cell(0, y))], sc)
    requires b2 == RunOps(b1, [CheckPair(Cell(0, y), Cell(1, y))], sc)
    requires b3 == RunOps(b2, [CheckPair(Cell(0, y), Cell(1, y + 1))], sc)
    requires b4 == RunOps(b3, [CheckPair(Cell(0, y), Cell(0, y + 1))], sc)
    requires b5 == RunOps(b4, [Translate(Cell(0, y), 1, 0)], sc)
    requires b6 == RunOps(b5, [CheckPair(Cell(0, y), Cell(last, y + 1))], sc)
    requires b7 == RunOps(b6, [Translate(Cell(0, y), -1, 0)], sc)
    ensures RunOps(b0, LeftBlock(last + 1, y), sc) == b7
  {
    RunOne(b0, Check(Cell(0, y)), sc);
    RunOne(b1, CheckPair(Cell(0, y), Cell(1, y)), sc);
    RunOne(b2, CheckPair(Cell(0, y), Cell(1, y + 1)), sc);
    RunOne(b3, CheckPair(Cell(0, y), Cell(0, y + 1)), sc);
    RunOne(b4, Translate(Cell(0, y), 1, 0), sc);
    RunOne(b5, CheckPair(Cell(0, y), Cell(last, y + 1)), sc);
    RunOne(b6, Translate(Cell(0, y), -1, 0), sc);
    var c := Cell(0, y);
    RunSeven(Check(c), CheckPair(c, Cell(1, y)), CheckPair(c, Cell(1, y + 1)), CheckPair(c, Cell(0, y + 1)),
             Translate(c, 1, 0), CheckPair(c, Cell(last, y + 1)), Translate(c, -1, 0), sc,
             b0, b1, b2, b3, b4, b5, b6, b7);
  }

  lemma RunMiddleBlock(x: int, y: int, sc: Scene, b0: seq<Body>, b1: seq<Body>, b2: seq<Body>,
                       b3: seq<Body>, b4: seq<Body>, b5: seq<Body>)
    requires b1 == RunOps(b0, [Check(Cell(x, y))], sc)
    requires b2 == RunOps(b1, [CheckPair(Cell(x, y), Cell(x + 1, y))], sc)
    requires b3 == RunOps(b2, [CheckPair(Cell(x, y), Cell(x + 1, y + 1))], sc)
    requires b4 == RunOps(b3, [CheckPair(Cell(x, y), Cell(x, y + 1))], sc)
    requires b5 == RunOps(b4, [CheckPair(Cell(x, y), Cell(x - 1, y + 1))], sc)
    ensures RunOps(b0, MiddleBlock(x, y), sc) == b5
  {
    RunOne(b0, Check(Cell(x, y)), sc);
    RunOne(b1, CheckPair(Cell(x, y), Cell(x + 1, y)), sc);
    RunOne(b2, CheckPair(Cell(x, y), Cell(x + 1, y + 1)), sc);
    RunOne(b3, CheckPair(Cell(x, y), Cell(x, y + 1)), sc);
    RunOne(b4, CheckPair(Cell(x, y), Cell(x - 1, y + 1)), sc);
    var c := Cell(x, y);
    RunFive(Check(c), CheckPair(c, Cell(x + 1, y)), CheckPair(c, Cell(x + 1, y + 1)),
            CheckPair(c, Cell(x, y + 1)), CheckPair(c, Cell(x - 1, y + 1)), sc,
            b0, b1, b2, b3, b4, b5);
  }

  lemma RunRightBlock(x: int, y: int, sc: Scene, b0: seq<Body>, b1: seq<Body>, b2: seq<Body>,
                      b3: seq<Body>, b4: seq<Body>, b5: seq<Body>, b6: seq<Body>, b7: seq<Body>)
    requires b1 == RunOps(b0, [Check(Cell(x, y))], sc)
    requires b2 == RunOps(b1, [Translate(Cell(x, y), -1, 0)], sc)
    requires b3 == RunOps(b2, [CheckPair(Cell(x, y), Cell(0, y))], sc)
    requires b4 == RunOps(b3, [CheckPair(Cell(x, y), Cell(0, y + 1))], sc)
    requires b5 == RunOps(b4, [Translate(Cell(x, y), 1, 0)], sc)
    requires b6 == RunOps(b5, [CheckPair(Cell(x, y), Cell(x, y + 1))], sc)
    requires b7 == RunOps(b6, [CheckPair(Cell(x, y), Cell(x - 1, y + 1))], sc)
    ensures RunOps(b0, RightBlock(x + 1, y), sc) == b7
  {
    RunOne(b0, Check(Cell(x, y)), sc);
    RunOne(b1, Translate(Cell(x, y), -1, 0), sc);
    RunOne(b2, CheckPair(Cell(x, y), Cell(0, y)), sc);
    RunOne(b3, CheckPair(Cell(x, y), Cell(0, y + 1)), sc);
    RunOne(b4, Translate(Cell(x, y), 1, 0), sc);
    RunOne(b5, CheckPair(Cell(x, y), Cell(x, y + 1)), sc);
    RunOne(b6, CheckPair(Cell(x, y), Cell(x - 1, y + 1)), sc);
    var c := Cell(x, y);
    RunSeven(Check(c), Translate(c, -1, 0), CheckPair(c, Cell(0, y)), CheckPair(c, Cell(0, y + 1)),
             Translate(c, 1, 0), CheckPair(c, Cell(x, y + 1)), CheckPair(c, Cell(x - 1, y + 1)), sc,
             b0, b1, b2, b3, b4, b5, b6, b7);
  }

  lemma RunBottomLeft(last: int, y: int, sc: Scene, b0: seq<Body>, b1: seq<Body>, b2: seq<Body>,
                      b3: seq<Body>, b4: seq<Body>, b5: seq<Body>, b6: seq<Body>, b7: seq<Body>,
                      b8: seq<Body>, b9: seq<Body>)
    requires b1 == RunOps(b0, [Check(Cell(0, y))], sc)
    requires b2 == RunOps(b1, [CheckPair(Cell(0, y), Cell(1, y))], sc)
    requires b3 == RunOps(b2, [Translate(Cell(0, y), 0, -1)], sc)
    requires b4 == RunOps(b3, [CheckPair(Cell(0, y), Cell(1, 0))], sc)
    requires b5 == RunOps(b4, [CheckPair(Cell(0, y), Cell(0, 0))], sc)
    requires b6 == RunOps(b5, [Translate(Cell(0, y), 1, 0)], sc)
    requires b7 == RunOps(b6, [CheckPair(Cell(0, y), Cell(last, 0))], sc)
    requires b8 == RunOps(b7, [Translate(Cell(0, y), -1, 0)], sc)
    requires b9 == RunOps(b8, [Translate(Cell(0, y), 0, 1)], sc)
    ensures RunOps(b0, BottomLeft(last + 1, y + 1), sc) == b9
  {
    RunOne(b0, Check(Cell(0, y)), sc);
    RunOne(b1, CheckPair(Cell(0, y), Cell(1, y)), sc);
    RunOne(b2, Translate(Cell(0, y), 0, -1), sc);
    RunOne(b3, CheckPair(Cell(0, y), Cell(1, 0)), sc);
    RunOne(b4, CheckPair(Cell(0, y), Cell(0, 0)), sc);
    RunOne(b5, Translate(Cell(0, y), 1, 0), sc);
    RunOne(b6, CheckPair(Cell(0, y), Cell(last, 0)), sc);
    RunOne(b7, Translate(Cell(0, y), -1, 0), sc);
    RunOne(b8, Translate(Cell(0, y), 0, 1), sc);
    var c := Cell(0, y);
    RunNine(Check(c), CheckPair(c, Cell(1, y)), Translate(c, 0, -1), CheckPair(c, Cell(1, 0)),
            CheckPair(c, Cell(0, 0)), Translate(c, 1, 0), CheckPair(c, Cell(last, 0)),
            Translate(c, -1, 0), Translate(c, 0, 1), sc, b0, b1, b2, b3, b4, b5, b6, b7, b8, b9);
  }

  lemma RunBottomBlock(x: int, y: int, sc: Scene, b0: seq<Body>, b1: seq<Body>, b2: seq<Body>,
                       b3: seq<Body>, b4: seq<Body>, b5: seq<Body>, b6: seq<Body>, b7: seq<Body>)
    requires b1 == RunOps(b0, [Check(Cell(x, y))], sc)
    requires b2 == RunOps(b1, [CheckPair(Cell(x, y), Cell(x + 1, y))], sc)
    requires b3 == RunOps(b2, [Translate(Cell(x, y), 0, -1)], sc)
    requires b4 == RunOps(b3, [CheckPair(Cell(x, y), Cell(x + 1, 0))], sc)
    requires b5 == RunOps(b4, [CheckPair(Cell(x, y), Cell(x, 0))], sc)
    requires b6 == RunOps(b5, [CheckPair(Cell(x, y), Cell(x - 1, 0))], sc)
    requires b7 == RunOps(b6, [Translate(Cell(x, y), 0, 1)], sc)
    ensures RunOps(b0, BottomBlock(y + 1, x), sc) == b7
  {
    RunOne(b0, Check(Cell(x, y)), sc);
    RunOne(b1, CheckPair(Cell(x, y), Cell(x + 1, y)), sc);
    RunOne(b2, Translate(Cell(x, y), 0, -1), sc);
    RunOne(b3, CheckPair(Cell(x, y), Cell(x + 1, 0)), sc);
    RunOne(b4, CheckPair(Cell(x, y), Cell(x, 0)), sc);
    RunOne(b5, CheckPair(Cell(x, y), Cell(x - 1, 0)), sc);
    RunOne(b6, Translate(Cell(x, y), 0, 1), sc);
    var c := Cell(x, y);
    RunSeven(Check(c), CheckPair(c, Cell(x + 1, y)), Translate(c, 0, -1), CheckPair(c, Cell(x + 1, 0)),
             CheckPair(c, Cell(x, 0)), CheckPair(c, Cell(x - 1, 0)), Translate(c, 0, 1), sc,
             b0, b1, b2, b3, b4, b5, b6, b7);
  }

  lemma RunBottomRight(x: int, y: int, sc: Scene, b0: seq<Body>, b1: seq<Body>, b2: seq<Body>,
                       b3: seq<Body>, b4: seq<Body>, b5: seq<Body>, b6: seq<Body>, b7: seq<Body>,
                       b8: seq<Body>, b9: seq<Body>)
    requires b1 == RunOps(b0, [Check(Cell(x, y))], sc)
    requires b2 == RunOps(b1, [Translate(Cell(x, y), -1, 0)], sc)
    requires b3 == RunOps(b2, [CheckPair(Cell(x, y), Cell(0, y))], sc)
    requires b4 == RunOps(b3, [Translate(Cell(x, y), 0, -1)], sc)
    requires b5 == RunOps(b4, [CheckPair(Cell(x, y), Cell(0, 0))], sc)
    requires b6 == RunOps(b5, [Translate(Cell(x, y), 1, 0)], sc)
    requires b7 == RunOps(b6, [CheckPair(Cell(x, y), Cell(x, 0))], sc)
    requires b8 == RunOps(b7, [CheckPair(Cell(x, y), Cell(x - 1, 0))], sc)
    requires b9 == RunOps(b8, [Translate(Cell(x, y), 0, 1)], sc)
    ensures RunOps(b0, BottomRight(x + 1, y + 1), sc) == b9
  {
    RunOne(b0, Check(Cell(x, y)), sc);
    RunOne(b1, Translate(Cell(x, y), -1, 0), sc);
    RunOne(b2, CheckPair(Cell(x, y), Cell(0, y)), sc);
    RunOne(b3, Translate(Cell(x, y), 0, -1), sc);
    RunOne(b4, CheckPair(Cell(x, y), Cell(0, 0)), sc);
    RunOne(b5, Translate(Cell(x, y), 1, 0), sc);
    RunOne(b6, CheckPair(Cell(x, y), Cell(x, 0)), sc);
    RunOne(b7, CheckPair(Cell(x, y), Cell(x - 1, 0)), sc);
    RunOne(b8, Translate(Cell(x, y), 0, 1), sc);
    var c := Cell(x, y);
    RunNine(Check(c), Translate(c, -1, 0), CheckPair(c, Cell(0, y)), Translate(c, 0, -1),
            CheckPair(c, Cell(0, 0)), Translate(c, 1, 0), CheckPair(c, Cell(x, 0)),
            CheckPair(c, Cell(x - 1, 0)), Translate(c, 0, 1), sc, b0, b1, b2, b3, b4, b5, b6, b7, b8, b9);
  }

  // The loops of the routines, block after block. Each is the op list it runs, as the
  // lemmas after each show; the loops keep to these forms, which stay small for the solver.

  /** Rows `y` to `hi - 1` of update_left. */
  ghost function LeftRun(b: seq<Body>, width: int, y: int, hi: int, sc: Scene): seq<Body>
    decreases hi - y
  {
    if y >= hi then b else LeftRun(RunOps(b, LeftBlock(width, y), sc), width, y + 1, hi, sc)
  }

  lemma {:induction false} LeftRunOps(b: seq<Body>, width: int, y: int, hi: int, sc: Scene)
    ensures RunOps(b, LeftFrom(width, y, hi), sc) == LeftRun(b, width, y, hi, sc)
    decreases hi - y
  {
    if y < hi {
      RunConcat(b, LeftBlock(width, y), LeftFrom(width, y + 1, hi), sc);
      LeftRunOps(RunOps(b, LeftBlock(width, y), sc), width, y + 1, hi, sc);
    }
  }

  /** Columns `x` to `width - 2` of row `y` of update_middle. */
  ghost function MiddleRowRun(b: seq<Body>, width: int, y: int, x: int, sc: Scene): seq<Body>
    decreases width - 1 - x
  {
    if x >= width - 1 then b else MiddleRowRun(RunOps(b, MiddleBlock(x, y), sc), width, y, x + 1, sc)
  }

  lemma {:induction false} MiddleRowRunOps(b: seq<Body>, width: int, y: int, x: int, sc: Scene)
    ensures RunOps(b, MiddleRow(width, y, x), sc) == MiddleRowRun(b, width, y, x, sc)
    decreases width - 1 - x
  {
    if x < width - 1 {
      RunConcat(b, MiddleBlock(x, y), MiddleRow(width, y, x + 1), sc);
      MiddleRowRunOps(RunOps(b, MiddleBlock(x, y), sc), width, y, x + 1, sc);
    }
  }

  /** Rows `y` to `hi - 1` of update_middle. */
  ghost function MiddleRun(b: seq<Body>, width: int, y: int, hi: int, sc: Scene): seq<Body>
    decreases hi - y
  {
    if y >= hi then b else MiddleRun(MiddleRowRun(b, width, y, 1, sc), width, y + 1, hi, sc)
  }

  lemma {:induction false} MiddleRunOps(b: seq<Body>, width: int, y: int, hi: int, sc: Scene)
    ensures RunOps(b, MiddleFrom(width, y, hi), sc) == MiddleRun(b, width, y, hi, sc)
    decreases hi - y
  {
    if y < hi {
      RunConcat(b, MiddleRow(width, y, 1), MiddleFrom(width, y + 1, hi), sc);
      MiddleRowRunOps(b, width, y, 1, sc);
      MiddleRunOps(MiddleRowRun(b, width, y, 1, sc), width, y + 1, hi, sc);
    }
  }

  /** Rows `y` to `hi - 1` of update_right. */
  ghost function RightRun(b: seq<Body>, width: int, y: int, hi: int, sc: Scene): seq<Body>
    decreases hi - y
  {
    if y >= hi then b else RightRun(RunOps(b, RightBlock(width, y), sc), width, y + 1, hi, sc)
  }

  lemma {:induction false} RightRunOps(b: seq<Body>, width: int, y: int, hi: int, sc: Scene)
    ensures RunOps(b, RightFrom(width, y, hi), sc) == RightRun(b, width, y, hi, sc)
    decreases hi - y
  {
    if y < hi {
      RunConcat(b, RightBlock(width, y), RightFrom(width, y + 1, hi), sc);
      RightRunOps(RunOps(b, RightBlock(width, y), sc), width, y + 1, hi, sc);
    }
  }

  /** Columns `x` to `width - 2` of update_bottom. */
  ghost function BottomRun(b: seq<Body>, width: int, height: int, x: int, sc: Scene): seq<Body>
    decreases width - 1 - x
  {
    if x >= width - 1 then b else BottomRun(RunOps(b, BottomBlock(height, x), sc), width, height, x + 1, sc)
  }

  lemma {:induction false} BottomRunOps(b: seq<Body>, width: int, height: int, x: int, sc: Scene)
    ensures RunOps(b, BottomFrom(width, height, x), sc) == BottomRun(b, width, height, x, sc)
    decreases width - 1 - x
  {
    if x < width - 1 {
      RunConcat(b, BottomBlock(height, x), BottomFrom(width, height, x + 1), sc);
      BottomRunOps(RunOps(b, BottomBlock(height, x), sc), width, height, x + 1, sc);
    }
  }

  // ---------------------------------------------------------------------------------
  // The eight routines of the scan. Each keeps the shape of the world and the masses of
  // its bodies, and leaves the bodies as the routine's op list says.

  /** update_top_left (lines 200-213). */
  method UpdateTopLeft(w: World, mag: Vect -> real, ghost sc: Scene, ghost sh: Shape)
    requires sc == SceneOf(w, mag) && sh == ShapeOf(w) && Lined(sh, mag) && Headed(w) && Weighty(w.bodies, sh)
    modifies w`bodies
    ensures w.bodies == RunOps(old(w.bodies), TopLeft(sh.width), sc)
    ensures Weighty(w.bodies, sh)
    ensures sc == SceneOf(w, mag) && sh == ShapeOf(w) && Headed(w)
  {
    var last := w.width - 1;
    var wrapLeft := Vect(w.cellSize * w.width as real, 0.0);
    assert wrapLeft == Disp(sc, 1, 0);
    assert Vect(wrapLeft.x * -1.0, 0.0) == Disp(sc, -1, 0);
    label L0:
    UpdateCell(w, mag, sc, sh, 0, 0);
    label L1:
    UpdateCells(w, mag, sc, sh, 0, 0, 1, 0);
    label L2:
    UpdateCells(w, mag, sc, sh, 0, 0, 1, 1);
    label L3:
    UpdateCells(w, mag, sc, sh, 0, 0, 0, 1);
    label L4:
    CellTranslate(w, mag, sc, sh, 0, 0, wrapLeft, 1, 0);
    label L5:
    UpdateCells(w, mag, sc, sh, 0, 0, last, 1);
    label L6:
    wrapLeft := wrapLeft.(x := wrapLeft.x * -1.0);
    CellTranslate(w, mag, sc, sh, 0, 0, wrapLeft, -1, 0);
    RunTopLeft(last, sc,
      old@L0(w.bodies), old@L1(w.bodies), old@L2(w.bodies),
      old@L3(w.bodies), old@L4(w.bodies), old@L5(w.bodies),
      old@L6(w.bodies), w.bodies);
  }

  /** update_top_right (lines 215-229). */
  method UpdateTopRight(w: World, mag: Vect -> real, ghost sc: Scene, ghost sh: Shape)
    requires sc == SceneOf(w, mag) && sh == ShapeOf(w) && Lined(sh, mag) && Headed(w) && Weighty(w.bodies, sh)
    modifies w`bodies
    ensures w.bodies == RunOps(old(w.bodies), TopRight(sh.width), sc)
    ensures Weighty(w.bodies, sh)
    ensures sc == SceneOf(w, mag) && sh == ShapeOf(w) && Headed(w)
  {
    var x := w.width - 1;
    var wrapRight := Vect(-w.cellSize * w.width as real, 0.0);
    assert wrapRight == Disp(sc, -1, 0);
    assert Vect(wrapRight.x * -1.0, 0.0) == Disp(sc, 1, 0);
    label L0:
    UpdateCell(w, mag, sc, sh, x, 0);
    label L1:
    CellTranslate(w, mag, sc, sh, x, 0, wrapRight, -1, 0);
    label L2:
    UpdateCells(w, mag, sc, sh, x, 0, 0, 0);
    label L3:
    UpdateCells(w, mag, sc, sh, x, 0, 0, 1);
    label L4:
    wrapRight := wrapRight.(x := wrapRight.x * -1.0);
    CellTranslate(w, mag, sc, sh, x, 0, wrapRight, 1, 0);
    label L5:
    UpdateCells(w, mag, sc, sh, x, 0, x, 1);
    label L6:
    UpdateCells(w, mag, sc, sh, x, 0, x - 1, 1);
    RunTopRight(x, sc,
      old@L0(w.bodies), old@L1(w.bodies), old@L2(w.bodies),
      old@L3(w.bodies), old@L4(w.bodies), old@L5(w.bodies),
      old@L6(w.bodies), w.bodies);
  }

  /** One pass of the loop of update_left (lines 237-247), on row `y`. */
  method LeftRow(w: World, mag: Vect -> real, ghost sc: Scene, ghost sh: Shape, y: nat, wrapLeft: Vect) returns (wrap: Vect)
    requires sc == SceneOf(w, mag) && sh == ShapeOf(w) && Lined(sh, mag) && Headed(w) && Weighty(w.bodies, sh) && 1 <= y < sh.height - 1
    requires wrapLeft == Disp(sc, 1, 0)
    modifies w`bodies
    ensures w.bodies == RunOps(old(w.bodies), LeftBlock(sh.width, y), sc)
    ensures wrap == wrapLeft
    ensures Weighty(w.bodies, sh)
    ensures sc == SceneOf(w, mag) && sh == ShapeOf(w) && Headed(w)
  {
    var last := w.width - 1;
    assert Vect(wrapLeft.x * -1.0, wrapLeft.y) == Disp(sc, -1, 0);
    assert Vect(wrapLeft.x * -1.0 * -1.0, wrapLeft.y) == wrapLeft;
    wrap := wrapLeft;
    label L0:
    UpdateCell(w, mag, sc, sh, 0, y);
    label L1:
    UpdateCells(w, mag, sc, sh, 0, y, 1, y);
    label L2:
    UpdateCells(w, mag, sc, sh, 0, y, 1, y + 1);
    label L3:
    UpdateCells(w, mag, sc, sh, 0, y, 0, y + 1);
    label L4:
    CellTranslate(w, mag, sc, sh, 0, y, wrap, 1, 0);
    label L5:
    UpdateCells(w, mag, sc, sh, 0, y, last, y + 1);
    label L6:
    wrap := wrap.(x := wrap.x * -1.0);
    CellTranslate(w, mag, sc, sh, 0, y, wrap, -1, 0);
    wrap := wrap.(x := wrap.x * -1.0);
    RunLeftBlock(last, y, sc,
      old@L0(w.bodies), old@L1(w.bodies), old@L2(w.bodies),
      old@L3(w.bodies), old@L4(w.bodies), old@L5(w.bodies),
      old@L6(w.bodies), w.bodies);
  }

  /** update_left (lines 231-248): rows 1 to height - 2 of the first column. */
  method UpdateLeft(w: World, mag: Vect -> real, ghost sc: Scene, ghost sh: Shape)
    requires sc == SceneOf(w, mag) && sh == ShapeOf(w) && Lined(sh, mag) && Headed(w) && Weighty(w.bodies, sh)
    modifies w`bodies
    ensures w.bodies == LeftRun(old(w.bodies), sh.width, 1, sh.height - 1, sc)
    ensures Weighty(w.bodies, sh)
    ensures sc == SceneOf(w, mag) && sh == ShapeOf(w) && Headed(w)
  {
    ghost var goal := LeftRun(w.bodies, sh.width, 1, sh.height - 1, sc);
    var wrapLeft := Vect(w.cellSize * w.width as real, 0.0);
    assert wrapLeft == Disp(sc, 1, 0);
    var y := 1;
    while y < w.height - 1
      invariant 1 <= y <= w.height - 1
      invariant SceneOf(w, mag) == sc && ShapeOf(w) == sh && Headed(w) && Weighty(w.bodies, sh)
      invariant wrapLeft == Disp(sc, 1, 0)
      invariant LeftRun(w.bodies, sh.width, y, sh.height - 1, sc) == goal
      decreases w.height - 1 - y
    {
      wrapLeft := LeftRow(w, mag, sc, sh, y, wrapLeft);
      y := y + 1;
    }
  }

  /** The inner loop of update_middle (lines 254-260), along row `y`. */
  method MiddleRowScan(w: World, mag: Vect -> real, ghost sc: Scene, ghost sh: Shape, y: nat)
    requires sc == SceneOf(w, mag) && sh == ShapeOf(w) && Lined(sh, mag) && Headed(w) && Weighty(w.bodies, sh) && y < sh.height - 1
    modifies w`bodies
    ensures w.bodies == MiddleRowRun(old(w.bodies), sh.width, y, 1, sc)
    ensures Weighty(w.bodies, sh)
    ensures sc == SceneOf(w, mag) && sh == ShapeOf(w) && Headed(w)
  {
    ghost var goal := MiddleRowRun(w.bodies, sh.width, y, 1, sc);
    var x := 1;
    while x < w.width - 1
      invariant 1 <= x <= w.width - 1
      invariant SceneOf(w, mag) == sc && ShapeOf(w) == sh && Headed(w) && Weighty(w.bodies, sh)
      invariant MiddleRowRun(w.bodies, sh.width, y, x, sc) == goal
      decreases w.width - 1 - x
    {
      MiddleCell(w, mag, sc, sh, x, y);
      x := x + 1;
    }
  }

  /** One pass of the inner loop of update_middle (lines 255-259), on cell (x, y). */
  method MiddleCell(w: World, mag: Vect -> real, ghost sc: Scene, ghost sh: Shape, x: nat, y: nat)
    requires sc == SceneOf(w, mag) && sh == ShapeOf(w) && Lined(sh, mag) && Headed(w) && Weighty(w.bodies, sh)
    requires 1 <= x < sh.width - 1 && y < sh.height - 1
    modifies w`bodies
    ensures w.bodies == RunOps(old(w.bodies), MiddleBlock(x, y), sc)
    ensures Weighty(w.bodies, sh)
    ensures sc == SceneOf(w, mag) && sh == ShapeOf(w) && Headed(w)
  {
    label L0:
    UpdateCell(w, mag, sc, sh, x, y);
    label L1:
    UpdateCells(w, mag, sc, sh, x, y, x + 1, y);
    label L2:
    UpdateCells(w, mag, sc, sh, x, y, x + 1, y + 1);
    label L3:
    UpdateCells(w, mag, sc, sh, x, y, x, y + 1);
    label L4:
    UpdateCells(w, mag, sc, sh, x, y, x - 1, y + 1);
    RunMiddleBlock(x, y, sc,
      old@L0(w.bodies), old@L1(w.bodies), old@L2(w.bodies),
      old@L3(w.bodies), old@L4(w.bodies), w.bodies);
  }

  /** update_middle (lines 250-262): every inner column of every row but the last. */
  method UpdateMiddle(w: World, mag: Vect -> real, ghost sc: Scene, ghost sh: Shape)
    requires sc == SceneOf(w, mag) && sh == ShapeOf(w) && Lined(sh, mag) && Headed(w) && Weighty(w.bodies, sh)
    modifies w`bodies
    ensures w.bodies == MiddleRun(old(w.bodies), sh.width, 0, sh.height - 1, sc)
    ensures Weighty(w.bodies, sh)
    ensures sc == SceneOf(w, mag) && sh == ShapeOf(w) && Headed(w)
  {
    ghost var goal := MiddleRun(w.bodies, sh.width, 0, sh.height - 1, sc);
    var y := 0;
    while y < w.height - 1
      invariant 0 <= y <= w.height - 1
      invariant SceneOf(w, mag) == sc && ShapeOf(w) == sh && Headed(w) && Weighty(w.bodies, sh)
      invariant MiddleRun(w.bodies, sh.width, y, sh.height - 1, sc) == goal
      decreases w.height - 1 - y
    {
      MiddleRowScan(w, mag, sc, sh, y);
      y := y + 1;
    }
  }

  /** One pass of the loop of update_right (lines 271-281), on row `y`. */
  method RightRow(w: World, mag: Vect -> real, ghost sc: Scene, ghost sh: Shape, x: nat, y: nat, wrapRight: Vect) returns (wrap: Vect)
    requires sc == SceneOf(w, mag) && sh == ShapeOf(w) && Lined(sh, mag) && Headed(w) && Weighty(w.bodies, sh) && 1 <= y < sh.height - 1
    requires x == sh.width - 1 && wrapRight == Disp(sc, -1, 0)
    modifies w`bodies
    ensures w.bodies == RunOps(old(w.bodies), RightBlock(sh.width, y), sc)
    ensures wrap == wrapRight
    ensures Weighty(w.bodies, sh)
    ensures sc == SceneOf(w, mag) && sh == ShapeOf(w) && Headed(w)
  {
    assert Vect(wrapRight.x * -1.0, wrapRight.y) == Disp(sc, 1, 0);
    assert Vect(wrapRight.x * -1.0 * -1.0, wrapRight.y) == wrapRight;
    wrap := wrapRight;
    label L0:
    UpdateCell(w, mag, sc, sh, x, y);
    label L1:
    CellTranslate(w, mag, sc, sh, x, y, wrap, -1, 0);
    label L2:
    UpdateCells(w, mag, sc, sh, x, y, 0, y);
    label L3:
    UpdateCells(w, mag, sc, sh, x, y, 0, y + 1);
    label L4:
    wrap := wrap.(x := wrap.x * -1.0);
    CellTranslate(w, mag, sc, sh, x, y, wrap, 1, 0);
    wrap := wrap.(x := wrap.x * -1.0);
    label L5:
    UpdateCells(w, mag, sc, sh, x, y, x, y + 1);
    label L6:
    UpdateCells(w, mag, sc, sh, x, y, x - 1, y + 1);
    RunRightBlock(x, y, sc,
      old@L0(w.bodies), old@L1(w.bodies), old@L2(w.bodies),
      old@L3(w.bodies), old@L4(w.bodies), old@L5(w.bodies),
      old@L6(w.bodies), w.bodies);
  }

  /** update_right (lines 264-282): rows 1 to height - 2 of the last column. */
  method UpdateRight(w: World, mag: Vect -> real, ghost sc: Scene, ghost sh: Shape)
    requires sc == SceneOf(w, mag) && sh == ShapeOf(w) && Lined(sh, mag) && Headed(w) && Weighty(w.bodies, sh)
    modifies w`bodies
    ensures w.bodies == RightRun(old(w.bodies), sh.width, 1, sh.height - 1, sc)
    ensures Weighty(w.bodies, sh)
    ensures sc == SceneOf(w, mag) && sh == ShapeOf(w) && Headed(w)
  {
    ghost var goal := RightRun(w.bodies, sh.width, 1, sh.height - 1, sc);
    var x := w.width - 1;
    var wrapRight := Vect(-w.cellSize * w.width as real, 0.0);
    assert wrapRight == Disp(sc, -1, 0);
    var y := 1;
    while y < w.height - 1
      invariant 1 <= y <= w.height - 1
      invariant SceneOf(w, mag) == sc && ShapeOf(w) == sh && Headed(w) && Weighty(w.bodies, sh)
      invariant wrapRight == Disp(sc, -1, 0)
      invariant RightRun(w.bodies, sh.width, y, sh.height - 1, sc) == goal
      decreases w.height - 1 - y
    {
      wrapRight := RightRow(w, mag, sc, sh, x, y, wrapRight);
      y := y + 1;
    }
  }

  /** update_bottom_left (lines 284-303). */
  method UpdateBottomLeft(w: World, mag: Vect -> real, ghost sc: Scene, ghost sh: Shape)
    requires sc == SceneOf(w, mag) && sh == ShapeOf(w) && Lined(sh, mag) && Headed(w) && Weighty(w.bodies, sh)
    modifies w`bodies
    ensures w.bodies == RunOps(old(w.bodies), BottomLeft(sh.width, sh.height), sc)
    ensures Weighty(w.bodies, sh)
    ensures sc == SceneOf(w, mag) && sh == ShapeOf(w) && Headed(w)
  {
    var last, y := w.width - 1, w.height - 1;
    var wrapLeft := Vect(w.cellSize * w.width as real, 0.0);
    var wrapDown := Vect(0.0, -w.cellSize * w.height as real);
    assert wrapLeft == Disp(sc, 1, 0);
    assert Vect(wrapLeft.x * -1.0, 0.0) == Disp(sc, -1, 0);
    assert wrapDown == Disp(sc, 0, -1);
    assert Vect(0.0, wrapDown.y * -1.0) == Disp(sc, 0, 1);
    label L0:
    UpdateCell(w, mag, sc, sh, 0, y);
    label L1:
    UpdateCells(w, mag, sc, sh, 0, y, 1, y);
    label L2:
    CellTranslate(w, mag, sc, sh, 0, y, wrapDown, 0, -1);
    label L3:
    UpdateCells(w, mag, sc, sh, 0, y, 1, 0);
    label L4:
    UpdateCells(w, mag, sc, sh, 0, y, 0, 0);
    label L5:
    CellTranslate(w, mag, sc, sh, 0, y, wrapLeft, 1, 0);
    label L6:
    UpdateCells(w, mag, sc, sh, 0, y, last, 0);
    label L7:
    wrapLeft := wrapLeft.(x := wrapLeft.x * -1.0);
    CellTranslate(w, mag, sc, sh, 0, y, wrapLeft, -1, 0);
    label L8:
    wrapDown := wrapDown.(y := wrapDown.y * -1.0);
    CellTranslate(w, mag, sc, sh, 0, y, wrapDown, 0, 1);
    RunBottomLeft(last, y, sc,
      old@L0(w.bodies), old@L1(w.bodies), old@L2(w.bodies),
      old@L3(w.bodies), old@L4(w.bodies), old@L5(w.bodies),
      old@L6(w.bodies), old@L7(w.bodies), old@L8(w.bodies),
      w.bodies);
  }

  /** One pass of the loop of update_bottom (lines 312-322), on column `x`. */
  method BottomCell(w: World, mag: Vect -> real, ghost sc: Scene, ghost sh: Shape, x: nat, y: nat, wrapDown: Vect) returns (wrap: Vect)
    requires sc == SceneOf(w, mag) && sh == ShapeOf(w) && Lined(sh, mag) && Headed(w) && Weighty(w.bodies, sh) && 1 <= x < sh.width - 1
    requires y == sh.height - 1 && wrapDown == Disp(sc, 0, -1)
    modifies w`bodies
    ensures w.bodies == RunOps(old(w.bodies), BottomBlock(sh.height, x), sc)
    ensures wrap == wrapDown
    ensures Weighty(w.bodies, sh)
    ensures sc == SceneOf(w, mag) && sh == ShapeOf(w) && Headed(w)
  {
    assert Vect(wrapDown.x, wrapDown.y * -1.0) == Disp(sc, 0, 1);
    assert Vect(wrapDown.x, wrapDown.y * -1.0 * -1.0) == wrapDown;
    wrap := wrapDown;
    label L0:
    UpdateCell(w, mag, sc, sh, x, y);
    label L1:
    UpdateCells(w, mag, sc, sh, x, y, x + 1, y);
    label L2:
    CellTranslate(w, mag, sc, sh, x, y, wrap, 0, -1);
    label L3:
    UpdateCells(w, mag, sc, sh, x, y, x + 1, 0);
    label L4:
    UpdateCells(w, mag, sc, sh, x, y, x, 0);
    label L5:
    UpdateCells(w, mag, sc, sh, x, y, x - 1, 0);
    label L6:
    wrap := wrap.(y := wrap.y * -1.0);
    CellTranslate(w, mag, sc, sh, x, y, wrap, 0, 1);
    wrap := wrap.(y := wrap.y * -1.0);
    RunBottomBlock(x, y, sc,
      old@L0(w.bodies), old@L1(w.bodies), old@L2(w.bodies),
      old@L3(w.bodies), old@L4(w.bodies), old@L5(w.bodies),
      old@L6(w.bodies), w.bodies);
  }

  /**
   * update_bottom (lines 305-323): the inner columns of the last row. The source counts
   * `x` and `y` in doubles; they only hold small whole numbers, which doubles represent
   * exactly, so they are naturals here.
   */
  method UpdateBottom(w: World, mag: Vect -> real, ghost sc: Scene, ghost sh: Shape)
    requires sc == SceneOf(w, mag) && sh == ShapeOf(w) && Lined(sh, mag) && Headed(w) && Weighty(w.bodies, sh)
    modifies w`bodies
    ensures w.bodies == BottomRun(old(w.bodies), sh.width, sh.height, 1, sc)
    ensures Weighty(w.bodies, sh)
    ensures sc == SceneOf(w, mag) && sh == ShapeOf(w) && Headed(w)
  {
    ghost var goal := BottomRun(w.bodies, sh.width, sh.height, 1, sc);
    var wrapDown := Vect(0.0, -w.cellSize * w.height as real);
    assert wrapDown == Disp(sc, 0, -1);
    var y := w.height - 1;
    var x := 1;
    while x < w.width - 1
      invariant 1 <= x <= w.width - 1
      invariant SceneOf(w, mag) == sc && ShapeOf(w) == sh && Headed(w) && Weighty(w.bodies, sh)
      invariant wrapDown == Disp(sc, 0, -1)
      invariant BottomRun(w.bodies, sh.width, sh.height, x, sc) == goal
      decreases w.width - 1 - x
    {
      wrapDown := BottomCell(w, mag, sc, sh, x, y, wrapDown);
      x := x + 1;
    }
  }

  /** update_bottom_right (lines 325-346). */
  method UpdateBottomRight(w: World, mag: Vect -> real, ghost sc: Scene, ghost sh: Shape)
    requires sc == SceneOf(w, mag) && sh == ShapeOf(w) && Lined(sh, mag) && Headed(w) && Weighty(w.bodies, sh)
    modifies w`bodies
    ensures w.bodies == RunOps(old(w.bodies), BottomRight(sh.width, sh.height), sc)
    ensures Weighty(w.bodies, sh)
    ensures sc == SceneOf(w, mag) && sh == ShapeOf(w) && Headed(w)
  {
    var x, y := w.width - 1, w.height - 1;
    var wrapRight := Vect(-w.cellSize * w.width as real, 0.0);
    var wrapDown := Vect(0.0, -w.cellSize * w.height as real);
    assert wrapRight == Disp(sc, -1, 0);
    assert Vect(wrapRight.x * -1.0, 0.0) == Disp(sc, 1, 0);
    assert wrapDown == Disp(sc, 0, -1);
    assert Vect(0.0, wrapDown.y * -1.0) == Disp(sc, 0, 1);
    label L0:
    UpdateCell(w, mag, sc, sh, x, y);
    label L1:
    CellTranslate(w, mag, sc, sh, x, y, wrapRight, -1, 0);
    label L2:
    UpdateCells(w, mag, sc, sh, x, y, 0, y);
    label L3:
    CellTranslate(w, mag, sc, sh, x, y, wrapDown, 0, -1);
    label L4:
    UpdateCells(w, mag, sc, sh, x, y, 0, 0);
    label L5:
    wrapRight := wrapRight.(x := wrapRight.x * -1.0);
    CellTranslate(w, mag, sc, sh, x, y, wrapRight, 1, 0);
    label L6:
    UpdateCells(w, mag, sc, sh, x, y, x, 0);
    label L7:
    UpdateCells(w, mag, sc, sh, x, y, x - 1, 0);
    label L8:
    wrapDown := wrapDown.(y := wrapDown.y * -1.0);
    CellTranslate(w, mag, sc, sh, x, y, wrapDown, 0, 1);
    RunBottomRight(x, y, sc,
      old@L0(w.bodies), old@L1(w.bodies), old@L2(w.bodies),
      old@L3(w.bodies), old@L4(w.bodies), old@L5(w.bodies),
      old@L6(w.bodies), old@L7(w.bodies), old@L8(w.bodies),
      w.bodies);
  }

  /** Four runs one after the other are the run of the four lists joined. */
  lemma RunChain(sc: Scene, o1: seq<Op>, o2: seq<Op>, o3: seq<Op>, o4: seq<Op>,
                 b0: seq<Body>, b1: seq<Body>, b2: seq<Body>, b3: seq<Body>, b4: seq<Body>)
    requires b1 == RunOps(b0, o1, sc) && b2 == RunOps(b1, o2, sc)
    requires b3 == RunOps(b2, o3, sc) && b4 == RunOps(b3, o4, sc)
    ensures RunOps(b0, o1 + o2 + o3 + o4, sc) == b4
  {
    RunConcat(b0, o1, o2, sc);
    RunConcat(b0, o1 + o2, o3, sc);
    RunConcat(b0, o1 + o2 + o3, o4, sc);
  }

  /** The first four routines in order run the upper half of the schedule. */
  lemma UpperRun(width: int, height: int, sc: Scene, b: seq<Body>)
    ensures RunOps(b, UpperHalf(width, height), sc)
      == MiddleRun(LeftRun(RunOps(RunOps(b, TopLeft(width), sc), TopRight(width), sc),
           width, 1, height - 1, sc), width, 0, height - 1, sc)
  {
    var b1 := RunOps(b, TopLeft(width), sc);
    var b2 := RunOps(b1, TopRight(width), sc);
    var b3 := LeftRun(b2, width, 1, height - 1, sc);
    LeftRunOps(b2, width, 1, height - 1, sc);
    MiddleRunOps(b3, width, 0, height - 1, sc);
    RunChain(sc, TopLeft(width), TopRight(width), Left(width, height), Middle(width, height),
      b, b1, b2, b3, MiddleRun(b3, width, 0, height - 1, sc));
  }

  /** The last four routines in order run the lower half of the schedule. */
  lemma LowerRun(width: int, height: int, sc: Scene, b: seq<Body>)
    ensures RunOps(b, LowerHalf(width, height), sc)
      == RunOps(BottomRun(RunOps(RightRun(b, width, 1, height - 1, sc), BottomLeft(width, height), sc),
           width, height, 1, sc), BottomRight(width, height), sc)
  {
    var b5 := RightRun(b, width, 1, height - 1, sc);
    var b6 := RunOps(b5, BottomLeft(width, height), sc);
    var b7 := BottomRun(b6, width, height, 1, sc);
    RightRunOps(b, width, 1, height - 1, sc);
    BottomRunOps(b6, width, height, 1, sc);
    RunChain(sc, Right(width, height), BottomLeft(width, height), Bottom(width, height),
      BottomRight(width, height), b, b5, b6, b7, RunOps(b7, BottomRight(width, height), sc));
  }

  /** The first four routines of the collision half of jwb_world_step (lines 351-354). */
  method CollideUpper(w: World, mag: Vect -> real, ghost sc: Scene, ghost sh: Shape)
    requires sc == SceneOf(w, mag) && sh == ShapeOf(w) && Lined(sh, mag) && Headed(w) && Weighty(w.bodies, sh)
    modifies w`bodies
    ensures w.bodies == RunOps(old(w.bodies), UpperHalf(sh.width, sh.height), sc)
    ensures Weighty(w.bodies, sh)
    ensures sc == SceneOf(w, mag) && sh == ShapeOf(w) && Headed(w)
  {
    UpperRun(sh.width, sh.height, sc, w.bodies);
    UpdateTopLeft(w, mag, sc, sh);
    UpdateTopRight(w, mag, sc, sh);
    UpdateLeft(w, mag, sc, sh);
    UpdateMiddle(w, mag, sc, sh);
  }

  /** The last four routines of the collision half of jwb_world_step (lines 355-358). */
  method CollideLower(w: World, mag: Vect -> real, ghost sc: Scene, ghost sh: Shape)
    requires sc == SceneOf(w, mag) && sh == ShapeOf(w) && Lined(sh, mag) && Headed(w) && Weighty(w.bodies, sh)
    modifies w`bodies
    ensures w.bodies == RunOps(old(w.bodies), LowerHalf(sh.width, sh.height), sc)
  {
    LowerRun(sh.width, sh.height, sc, w.bodies);
    UpdateRight(w, mag, sc, sh);
    UpdateBottomLeft(w, mag, sc, sh);
    UpdateBottom(w, mag, sc, sh);
    UpdateBottomRight(w, mag, sc, sh);
  }

  /** The eight routines of the collision half of jwb_world_step (lines 351-358), in order. */
  method CollideScan(w: World, mag: Vect -> real, ghost sc: Scene, ghost sh: Shape)
    requires sc == SceneOf(w, mag) && sh == ShapeOf(w) && Lined(sh, mag) && Headed(w) && Weighty(w.bodies, sh)
    modifies w`bodies
    ensures w.bodies == RunOps(old(w.bodies), Schedule(sh.width, sh.height), sc)
  {
    CollideUpper(w, mag, sc, sh);
    CollideLower(w, mag, sc, sh);
    ScheduleHalves(sh.width, sh.height);
    RunConcat(old(w.bodies), UpperHalf(sh.width, sh.height), LowerHalf(sh.width, sh.height), sc);
  }

  /** In a ready world every run of calls keeps the masses and the number of slots. */
  lemma RunMasses(w: World, mag: Vect -> real, b: seq<Body>, ops: seq<Op>)
    requires Ready(w, mag)
    ensures SameMasses(b, RunOps(b, ops, SceneOf(w, mag)))
  {
    SceneApart(w, mag);
    RunFrame(b, ops, SceneOf(w, mag));
  }

  /** An entity on a cell's list is live: it is owned by one of the cells. */
  lemma ListedIsLive(w: World, mag: Vect -> real, c: Cell, e: int)
    requires Ready(w, mag)
    ensures e in CellList(SceneOf(w, mag), c) ==> Totals.LiveIn(w.owner, w.NCells())(e)
  {
    if e in CellList(SceneOf(w, mag), c) {
      CellOwner(w, mag, c, e);
      Grid.RowMajorInRange(c.x, c.y, w.width, w.height);
    }
  }

  /**
   * When `mag` computes magnitudes, the whole scan keeps the total momentum of the table,
   * and under the elastic handler its total kinetic energy: over every slot, and over the
   * live entities alone, since a slot on no cell list comes out as it went in.
   */
  lemma ScanConserves(w: World, mag: Vect -> real, b: seq<Body>)
    requires Ready(w, mag) && Magnitude(mag)
    ensures var r := RunOps(b, Schedule(w.width, w.height), SceneOf(w, mag));
      Totals.Conserved(b, r, w.onHit, Totals.All) &&
      Totals.Conserved(b, r, w.onHit, Totals.LiveIn(w.owner, w.NCells()))
  {
    var sc, ops := SceneOf(w, mag), Schedule(w.width, w.height);
    var r := RunOps(b, ops, sc);
    var live := Totals.LiveIn(w.owner, w.NCells());
    Totals.RunConserves(b, ops, sc);
    SceneApart(w, mag);
    RunFrame(b, ops, sc);
    forall e | 0 <= e < |b| && !live(e)
      ensures r[e] == b[e]
    {
      forall c ensures e !in CellList(sc, c) {
        ListedIsLive(w, mag, c, e);
      }
      RunSkips(b, ops, sc, e);
    }
    Totals.SelectedTotals(b, r, w.onHit, live);
  }

  /**
   * The collision half of jwb_world_step (lines 351-358). The bodies come out as the run of
   * the whole schedule says, and the world stays ready: the scan keeps every mass and the
   * number of slots.
   */
  method Collide(w: World, mag: Vect -> real)
    requires Ready(w, mag)
    modifies w`bodies
    ensures w.bodies == RunOps(old(w.bodies), Schedule(w.width, w.height), SceneOf(w, mag))
    ensures Ready(w, mag)
    ensures Magnitude(mag) ==> Totals.Conserved(old(w.bodies), w.bodies, w.onHit, Totals.LiveIn(w.owner, w.NCells()))
  {
    ReadyLined(w, mag);
    RunMasses(w, mag, w.bodies, Schedule(w.width, w.height));
    ghost var sc, sh := SceneOf(w, mag), ShapeOf(w);
    CollideScan(w, mag, sc, sh);
    HeavyKept(old(w.bodies), w.bodies, w.owner, w.NCells());
    if Magnitude(mag) {
      ScanConserves(w, mag, old(w.bodies));
    }
  }
}
