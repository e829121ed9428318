/**
 * The collision scan of jwb_world_step (src/world-sim.c, lines 188-364): the calls the
 * eight update_* routines make, as data. Each cell is checked against itself and four
 * neighbours (right, below-right, below, below-left) on a torus; cells on the border
 * temporarily translate their bodies by a whole world extent so that the neighbour across
 * the seam is geometrically adjacent. The theorems below are about which cell pairs the
 * routines examine, on worlds of at least 3 by 3 cells.
 */
module Scan {
  datatype Cell = Cell(x: int, y: int)

  /** One call of a routine. Translations are counted in whole world extents. */
  datatype Op =
    | Check(c: Cell)                        // update_cell
    | CheckPair(a: Cell, b: Cell)           // update_cells
    | Translate(t: Cell, dx: int, dy: int)  // cell_translate

  // The eight routines, in the order of their calls.

  function TopLeft(width: int): seq<Op>
  {
    var c := Cell(0, 0);
    [Check(c), CheckPair(c, Cell(1, 0)), CheckPair(c, Cell(1, 1)), CheckPair(c, Cell(0, 1)),
     Translate(c, 1, 0), CheckPair(c, Cell(width - 1, 1)), Translate(c, -1, 0)]
  }

  function TopRight(width: int): seq<Op>
  {
    var x := width - 1;
    var c := Cell(x, 0);
    [Check(c), Translate(c, -1, 0), CheckPair(c, Cell(0, 0)), CheckPair(c, Cell(0, 1)),
     Translate(c, 1, 0), CheckPair(c, Cell(x, 1)), CheckPair(c, Cell(x - 1, 1))]
  }

  function LeftBlock(width: int, y: int): seq<Op>
  {
    var c := Cell(0, y);
    [Check(c), CheckPair(c, Cell(1, y)), CheckPair(c, Cell(1, y + 1)), CheckPair(c, Cell(0, y + 1)),
     Translate(c, 1, 0), CheckPair(c, Cell(width - 1, y + 1)), Translate(c, -1, 0)]
  }

  /** The loop over rows y in [y, hi) of update_left. */
  function LeftFrom(width: int, y: int, hi: int): seq<Op>
    decreases hi - y
  {
    if y >= hi then [] else LeftBlock(width, y) + LeftFrom(width, y + 1, hi)
  }

  function Left(width: int, height: int): seq<Op>
  {
    LeftFrom(width, 1, height - 1)
  }

  function MiddleBlock(x: int, y: int): seq<Op>
  {
    var c := Cell(x, y);
    [Check(c), CheckPair(c, Cell(x + 1, y)), CheckPair(c, Cell(x + 1, y + 1)),
     CheckPair(c, Cell(x, y + 1)), CheckPair(c, Cell(x - 1, y + 1))]
  }

  /** The inner loop of update_middle, over columns x in [x, width - 1) of row y. */
  function MiddleRow(width: int, y: int, x: int): seq<Op>
    decreases width - 1 - x
  {
    if x >= width - 1 then [] else MiddleBlock(x, y) + MiddleRow(width, y, x + 1)
  }

  /** The outer loop of update_middle, over rows y in [y, hi). */
  function MiddleFrom(width: int, y: int, hi: int): seq<Op>
    decreases hi - y
  {
    if y >= hi then [] else MiddleRow(width, y, 1) + MiddleFrom(width, y + 1, hi)
  }

  function Middle(width: int, height: int): seq<Op>
  {
    MiddleFrom(width, 0, height - 1)
  }

  function RightBlock(width: int, y: int): seq<Op>
  {
    var x := width - 1;
    var c := Cell(x, y);
    [Check(c), Translate(c, -1, 0), CheckPair(c, Cell(0, y)), CheckPair(c, Cell(0, y + 1)),
     Translate(c, 1, 0), CheckPair(c, Cell(x, y + 1)), CheckPair(c, Cell(x - 1, y + 1))]
  }

  function RightFrom(width: int, y: int, hi: int): seq<Op>
    decreases hi - y
  {
    if y >= hi then [] else RightBlock(width, y) + RightFrom(width, y + 1, hi)
  }

  function Right(width: int, height: int): seq<Op>
  {
    RightFrom(width, 1, height - 1)
  }

  function BottomLeft(width: int, height: int): seq<Op>
  {
    var y := height - 1;
    var c := Cell(0, y);
    [Check(c), CheckPair(c, Cell(1, y)), Translate(c, 0, -1), CheckPair(c, Cell(1, 0)),
     CheckPair(c, Cell(0, 0)), Translate(c, 1, 0), CheckPair(c, Cell(width - 1, 0)),
     Translate(c, -1, 0), Translate(c, 0, 1)]
  }

  function BottomBlock(height: int, x: int): seq<Op>
  {
    var y := height - 1;
    var c := Cell(x, y);
    [Check(c), CheckPair(c, Cell(x + 1, y)), Translate(c, 0, -1), CheckPair(c, Cell(x + 1, 0)),
     CheckPair(c, Cell(x, 0)), CheckPair(c, Cell(x - 1, 0)), Translate(c, 0, 1)]
  }

  function BottomFrom(width: int, height: int, x: int): seq<Op>
    decreases width - 1 - x
  {
    if x >= width - 1 then [] else BottomBlock(height, x) + BottomFrom(width, height, x + 1)
  }

  function Bottom(width: int, height: int): seq<Op>
  {
    BottomFrom(width, height, 1)
  }

  function BottomRight(width: int, height: int): seq<Op>
  {
    var x, y := width - 1, height - 1;
    var c := Cell(x, y);
    [Check(c), Translate(c, -1, 0), CheckPair(c, Cell(0, y)), Translate(c, 0, -1),
     CheckPair(c, Cell(0, 0)), Translate(c, 1, 0), CheckPair(c, Cell(x, 0)),
     CheckPair(c, Cell(x - 1, 0)), Translate(c, 0, 1)]
  }

  /** All calls of the collision half of jwb_world_step, routine after routine. */
  function Schedule(width: int, height: int): seq<Op>
  {
    TopLeft(width) + TopRight(width) + Left(width, height) + Middle(width, height)
      + Right(width, height) + BottomLeft(width, height) + Bottom(width, height)
      + BottomRight(width, height)
  }

  /** The calls of the first four routines: the top row, then the left, inner and... */
  function UpperHalf(width: int, height: int): seq<Op>
  {
    TopLeft(width) + TopRight(width) + Left(width, height) + Middle(width, height)
  }

  /** ... the right column and the bottom row. */
  function LowerHalf(width: int, height: int): seq<Op>
  {
    Right(width, height) + BottomLeft(width, height) + Bottom(width, height) + BottomRight(width, height)
  }

  lemma ScheduleHalves(width: int, height: int)
    ensures Schedule(width, height) == UpperHalf(width, height) + LowerHalf(width, height)
  {
    JoinFour(UpperHalf(width, height), Right(width, height), BottomLeft(width, height),
      Bottom(width, height), BottomRight(width, height));
  }

  lemma JoinFour(u: seq<Op>, a: seq<Op>, b: seq<Op>, c: seq<Op>, d: seq<Op>)
    ensures u + a + b + c + d == u + (a + b + c + d)
  {
  }

  // ---------------------------------------------------------------------------------
  // The torus neighbourhood

  predicate InGrid(width: int, height: int, c: Cell)
  {
    0 <= c.x < width && 0 <= c.y < height
  }

  /** The cell at offset (dx, dy) from `c`, wrapping around the edges. */
  function Neighbour(width: int, height: int, c: Cell, dx: int, dy: int): Cell
    requires width > 0 && height > 0
  {
    Cell((c.x + dx) % width, (c.y + dy) % height)
  }

  /** The eight cells around `c`. */
  function Around(width: int, height: int, c: Cell): seq<Cell>
    requires width > 0 && height > 0
  {
    [Neighbour(width, height, c, -1, -1), Neighbour(width, height, c, 0, -1),
     Neighbour(width, height, c, 1, -1), Neighbour(width, height, c, -1, 0),
     Neighbour(width, height, c, 1, 0), Neighbour(width, height, c, -1, 1),
     Neighbour(width, height, c, 0, 1), Neighbour(width, height, c, 1, 1)]
  }

  predicate Adjacent(width: int, height: int, p: Cell, q: Cell)
    requires width > 0 && height > 0
  {
    q in Around(width, height, p)
  }


  /** The checks every cell makes: itself, then right, below-right, below and below-left. */
  function Canonical(width: int, height: int, c: Cell): seq<Op>
    requires width > 0 && height > 0
  {
    [Check(c), CheckPair(c, Neighbour(width, height, c, 1, 0)),
     CheckPair(c, Neighbour(width, height, c, 1, 1)),
     CheckPair(c, Neighbour(width, height, c, 0, 1)),
     CheckPair(c, Neighbour(width, height, c, -1, 1))]
  }

  function CanonFlat(width: int, height: int, cells: seq<Cell>): seq<Op>
    requires width > 0 && height > 0
  {
    if cells == [] then [] else Canonical(width, height, cells[0]) + CanonFlat(width, height, cells[1..])
  }

  function Keep(o: Op): seq<Op>
  {
    if o.Translate? then [] else [o]
  }

  /** The calls that examine bodies, leaving out the translations. */
  function Checks(ops: seq<Op>): seq<Op>
  {
    if ops == [] then [] else Keep(ops[0]) + Checks(ops[1..])
  }

  // The cells in the order the routines visit them.

  function Column(x: int, y: int, hi: int): seq<Cell>
    decreases hi - y
  {
    if y >= hi then [] else [Cell(x, y)] + Column(x, y + 1, hi)
  }

  function Row(y: int, x: int, hi: int): seq<Cell>
    decreases hi - x
  {
    if x >= hi then [] else [Cell(x, y)] + Row(y, x + 1, hi)
  }

  /** The inner columns of rows y in [y, hi). */
  function Band(width: int, y: int, hi: int): seq<Cell>
    decreases hi - y
  {
    if y >= hi then [] else Row(y, 1, width - 1) + Band(width, y + 1, hi)
  }

  function Order(width: int, height: int): seq<Cell>
  {
    [Cell(0, 0)] + [Cell(width - 1, 0)] + Column(0, 1, height - 1) + Band(width, 0, height - 1)
      + Column(width - 1, 1, height - 1) + [Cell(0, height - 1)] + Row(height - 1, 1, width - 1)
      + [Cell(width - 1, height - 1)]
  }

  // ---------------------------------------------------------------------------------
  // Each routine makes, for its cell, exactly the canonical checks

  lemma ModSmall(a: int, n: int)
    requires 0 <= a < n
    ensures a % n == a
  {
  }

  lemma ModBelow(a: int, n: int)
    requires -n <= a < 0
    ensures a % n == a + n
  {
  }

  lemma ModAbove(a: int, n: int)
    requires n <= a < 2 * n
    ensures a % n == a - n
  {
  }

  /** Neighbours of a cell one step inside the grid need no wrapping. */
  lemma InnerNeighbour(width: int, height: int, c: Cell, dx: int, dy: int)
    requires width > 0 && height > 0
    requires 0 <= c.x + dx < width && 0 <= c.y + dy < height
    ensures Neighbour(width, height, c, dx, dy) == Cell(c.x + dx, c.y + dy)
  {
    ModSmall(c.x + dx, width);
    ModSmall(c.y + dy, height);
  }

  lemma ChecksConcat(a: seq<Op>, b: seq<Op>)
    ensures Checks(a + b) == Checks(a) + Checks(b)
  {
    if a == [] {
      assert a + b == b;
    } else {
      assert (a + b)[1..] == a[1..] + b;
      ChecksConcat(a[1..], b);
    }
  }

  lemma ChecksStep(s: seq<Op>, k: int)
    requires 0 <= k < |s|
    ensures Checks(s[k..]) == Keep(s[k]) + Checks(s[k + 1..])
  {
    assert s[k..][1..] == s[k + 1..];
  }

  lemma CanonFlatConcat(width: int, height: int, a: seq<Cell>, b: seq<Cell>)
    requires width > 0 && height > 0
    ensures CanonFlat(width, height, a + b) == CanonFlat(width, height, a) + CanonFlat(width, height, b)
  {
    if a == [] {
      assert a + b == b;
    } else {
      assert (a + b)[1..] == a[1..] + b;
      CanonFlatConcat(width, height, a[1..], b);
    }
  }

  lemma CanonFlatOne(width: int, height: int, c: Cell)
    requires width > 0 && height > 0
    ensures CanonFlat(width, height, [c]) == Canonical(width, height, c)
  {
    assert CanonFlat(width, height, [c][1..]) == [];
  }

  lemma Unroll7(s: seq<Op>)
    requires |s| == 7
    ensures Checks(s) == Keep(s[0]) + (Keep(s[1]) + (Keep(s[2]) + (Keep(s[3]) + (Keep(s[4])
                       + (Keep(s[5]) + Keep(s[6]))))))
  {
    ChecksStep(s, 0); ChecksStep(s, 1); ChecksStep(s, 2); ChecksStep(s, 3);
    ChecksStep(s, 4); ChecksStep(s, 5); ChecksStep(s, 6);
    assert s[0..] == s && s[7..] == [];
  }

  lemma Unroll9(s: seq<Op>)
    requires |s| == 9
    ensures Checks(s) == Keep(s[0]) + (Keep(s[1]) + (Keep(s[2]) + (Keep(s[3]) + (Keep(s[4])
                       + (Keep(s[5]) + (Keep(s[6]) + (Keep(s[7]) + Keep(s[8]))))))))
  {
    ChecksStep(s, 0); ChecksStep(s, 1); ChecksStep(s, 2); ChecksStep(s, 3); ChecksStep(s, 4);
    ChecksStep(s, 5); ChecksStep(s, 6); ChecksStep(s, 7); ChecksStep(s, 8);
    assert s[0..] == s && s[9..] == [];
  }

  lemma Unroll5(s: seq<Op>)
    requires |s| == 5
    ensures Checks(s) == Keep(s[0]) + (Keep(s[1]) + (Keep(s[2]) + (Keep(s[3]) + Keep(s[4]))))
  {
    ChecksStep(s, 0); ChecksStep(s, 1); ChecksStep(s, 2); ChecksStep(s, 3); ChecksStep(s, 4);
    assert s[0..] == s && s[5..] == [];
  }

  lemma TopLeftChecks(width: int, height: int)
    requires width >= 3 && height >= 3
    ensures Checks(TopLeft(width)) == CanonFlat(width, height, [Cell(0, 0)])
  {
    var c := Cell(0, 0);
    Unroll7(TopLeft(width));
    CanonFlatOne(width, height, c);
    InnerNeighbour(width, height, c, 1, 0);
    InnerNeighbour(width, height, c, 1, 1);
    InnerNeighbour(width, height, c, 0, 1);
    ModBelow(-1, width);
    ModSmall(1, height);
  }

  lemma TopRightChecks(width: int, height: int)
    requires width >= 3 && height >= 3
    ensures Checks(TopRight(width)) == CanonFlat(width, height, [Cell(width - 1, 0)])
  {
    var c := Cell(width - 1, 0);
    Unroll7(TopRight(width));
    CanonFlatOne(width, height, c);
    ModAbove(width, width);
    ModSmall(0, height);
    ModSmall(1, height);
    InnerNeighbour(width, height, c, 0, 1);
    InnerNeighbour(width, height, c, -1, 1);
  }

  lemma LeftChecks(width: int, height: int, y: int)
    requires width >= 3 && height >= 3 && 1 <= y < height - 1
    ensures Checks(LeftBlock(width, y)) == CanonFlat(width, height, [Cell(0, y)])
  {
    var c := Cell(0, y);
    Unroll7(LeftBlock(width, y));
    CanonFlatOne(width, height, c);
    InnerNeighbour(width, height, c, 1, 0);
    InnerNeighbour(width, height, c, 1, 1);
    InnerNeighbour(width, height, c, 0, 1);
    ModBelow(-1, width);
    ModSmall(y + 1, height);
  }

  lemma MiddleChecks(width: int, height: int, x: int, y: int)
    requires width >= 3 && height >= 3 && 1 <= x < width - 1 && 0 <= y < height - 1
    ensures Checks(MiddleBlock(x, y)) == CanonFlat(width, height, [Cell(x, y)])
  {
    var c := Cell(x, y);
    Unroll5(MiddleBlock(x, y));
    CanonFlatOne(width, height, c);
    InnerNeighbour(width, height, c, 1, 0);
    InnerNeighbour(width, height, c, 1, 1);
    InnerNeighbour(width, height, c, 0, 1);
    InnerNeighbour(width, height, c, -1, 1);
  }

  lemma RightChecks(width: int, height: int, y: int)
    requires width >= 3 && height >= 3 && 1 <= y < height - 1
    ensures Checks(RightBlock(width, y)) == CanonFlat(width, height, [Cell(width - 1, y)])
  {
    var c := Cell(width - 1, y);
    Unroll7(RightBlock(width, y));
    CanonFlatOne(width, height, c);
    ModAbove(width, width);
    ModSmall(y, height);
    ModSmall(y + 1, height);
    InnerNeighbour(width, height, c, 0, 1);
    InnerNeighbour(width, height, c, -1, 1);
  }

  lemma BottomLeftChecks(width: int, height: int)
    requires width >= 3 && height >= 3
    ensures Checks(BottomLeft(width, height)) == CanonFlat(width, height, [Cell(0, height - 1)])
  {
    var c := Cell(0, height - 1);
    Unroll9(BottomLeft(width, height));
    CanonFlatOne(width, height, c);
    InnerNeighbour(width, height, c, 1, 0);
    ModSmall(1, width);
    ModSmall(0, width);
    ModAbove(height, height);
    ModBelow(-1, width);
  }

  lemma BottomChecks(width: int, height: int, x: int)
    requires width >= 3 && height >= 3 && 1 <= x < width - 1
    ensures Checks(BottomBlock(height, x)) == CanonFlat(width, height, [Cell(x, height - 1)])
  {
    var c := Cell(x, height - 1);
    Unroll7(BottomBlock(height, x));
    CanonFlatOne(width, height, c);
    InnerNeighbour(width, height, c, 1, 0);
    ModSmall(x + 1, width);
    ModSmall(x, width);
    ModSmall(x - 1, width);
    ModAbove(height, height);
  }

  lemma BottomRightChecks(width: int, height: int)
    requires width >= 3 && height >= 3
    ensures Checks(BottomRight(width, height)) == CanonFlat(width, height, [Cell(width - 1, height - 1)])
  {
    var c := Cell(width - 1, height - 1);
    Unroll9(BottomRight(width, height));
    CanonFlatOne(width, height, c);
    ModAbove(width, width);
    ModSmall(height - 1, height);
    ModAbove(height, height);
    ModSmall(width - 1, width);
    ModSmall(width - 2, width);
  }

  lemma {:induction false} LeftFromChecks(width: int, height: int, y: int, hi: int)
    requires width >= 3 && height >= 3 && 1 <= y && hi <= height - 1
    ensures Checks(LeftFrom(width, y, hi)) == CanonFlat(width, height, Column(0, y, hi))
    decreases hi - y
  {
    if y < hi {
      LeftChecks(width, height, y);
      LeftFromChecks(width, height, y + 1, hi);
      ChecksConcat(LeftBlock(width, y), LeftFrom(width, y + 1, hi));
      CanonFlatConcat(width, height, [Cell(0, y)], Column(0, y + 1, hi));
    }
  }

  lemma {:induction false} MiddleRowChecks(width: int, height: int, y: int, x: int)
    requires width >= 3 && height >= 3 && 0 <= y < height - 1 && 1 <= x
    ensures Checks(MiddleRow(width, y, x)) == CanonFlat(width, height, Row(y, x, width - 1))
    decreases width - 1 - x
  {
    if x < width - 1 {
      MiddleChecks(width, height, x, y);
      MiddleRowChecks(width, height, y, x + 1);
      ChecksConcat(MiddleBlock(x, y), MiddleRow(width, y, x + 1));
      CanonFlatConcat(width, height, [Cell(x, y)], Row(y, x + 1, width - 1));
    }
  }

  lemma {:induction false} MiddleFromChecks(width: int, height: int, y: int, hi: int)
    requires width >= 3 && height >= 3 && 0 <= y && hi <= height - 1
    ensures Checks(MiddleFrom(width, y, hi)) == CanonFlat(width, height, Band(width, y, hi))
    decreases hi - y
  {
    if y < hi {
      MiddleRowChecks(width, height, y, 1);
      MiddleFromChecks(width, height, y + 1, hi);
      ChecksConcat(MiddleRow(width, y, 1), MiddleFrom(width, y + 1, hi));
      CanonFlatConcat(width, height, Row(y, 1, width - 1), Band(width, y + 1, hi));
    }
  }

  lemma {:induction false} RightFromChecks(width: int, height: int, y: int, hi: int)
    requires width >= 3 && height >= 3 && 1 <= y && hi <= height - 1
    ensures Checks(RightFrom(width, y, hi)) == CanonFlat(width, height, Column(width - 1, y, hi))
    decreases hi - y
  {
    if y < hi {
      RightChecks(width, height, y);
      RightFromChecks(width, height, y + 1, hi);
      ChecksConcat(RightBlock(width, y), RightFrom(width, y + 1, hi));
      CanonFlatConcat(width, height, [Cell(width - 1, y)], Column(width - 1, y + 1, hi));
    }
  }

  lemma {:induction false} BottomFromChecks(width: int, height: int, x: int)
    requires width >= 3 && height >= 3 && 1 <= x
    ensures Checks(BottomFrom(width, height, x)) == CanonFlat(width, height, Row(height - 1, x, width - 1))
    decreases width - 1 - x
  {
    if x < width - 1 {
      BottomChecks(width, height, x);
      BottomFromChecks(width, height, x + 1);
      ChecksConcat(BottomBlock(height, x), BottomFrom(width, height, x + 1));
      CanonFlatConcat(width, height, [Cell(x, height - 1)], Row(height - 1, x + 1, width - 1));
    }
  }

  /**
   * Leaving the translations aside, the eight routines make exactly the canonical checks
   * of every cell, cell after cell in the visiting order.
   */
  lemma ScheduleChecks(width: int, height: int)
    requires width >= 3 && height >= 3
    ensures Checks(Schedule(width, height)) == CanonFlat(width, height, Order(width, height))
  {
    var W, H := width, height;
    TopLeftChecks(W, H);
    TopRightChecks(W, H);
    LeftFromChecks(W, H, 1, H - 1);
    MiddleFromChecks(W, H, 0, H - 1);
    RightFromChecks(W, H, 1, H - 1);
    BottomLeftChecks(W, H);
    BottomFromChecks(W, H, 1);
    BottomRightChecks(W, H);
    ConcatChecks8(W, H, TopLeft(W), TopRight(W), Left(W, H), Middle(W, H), Right(W, H),
                  BottomLeft(W, H), Bottom(W, H), BottomRight(W, H),
                  [Cell(0, 0)], [Cell(W - 1, 0)], Column(0, 1, H - 1), Band(W, 0, H - 1),
                  Column(W - 1, 1, H - 1), [Cell(0, H - 1)], Row(H - 1, 1, W - 1),
                  [Cell(W - 1, H - 1)]);
  }

  lemma ConcatChecks8(width: int, height: int,
                      s0: seq<Op>, s1: seq<Op>, s2: seq<Op>, s3: seq<Op>,
                      s4: seq<Op>, s5: seq<Op>, s6: seq<Op>, s7: seq<Op>,
                      c0: seq<Cell>, c1: seq<Cell>, c2: seq<Cell>, c3: seq<Cell>,
                      c4: seq<Cell>, c5: seq<Cell>, c6: seq<Cell>, c7: seq<Cell>)
    requires width > 0 && height > 0
    requires Checks(s0) == CanonFlat(width, height, c0) && Checks(s1) == CanonFlat(width, height, c1)
    requires Checks(s2) == CanonFlat(width, height, c2) && Checks(s3) == CanonFlat(width, height, c3)
    requires Checks(s4) == CanonFlat(width, height, c4) && Checks(s5) == CanonFlat(width, height, c5)
    requires Checks(s6) == CanonFlat(width, height, c6) && Checks(s7) == CanonFlat(width, height, c7)
    ensures Checks(s0 + s1 + s2 + s3 + s4 + s5 + s6 + s7)
         == CanonFlat(width, height, c0 + c1 + c2 + c3 + c4 + c5 + c6 + c7)
  {
    var W, H := width, height;
    ChecksConcat(s0, s1);
    ChecksConcat(s0 + s1, s2);
    ChecksConcat(s0 + s1 + s2, s3);
    ChecksConcat(s0 + s1 + s2 + s3, s4);
    ChecksConcat(s0 + s1 + s2 + s3 + s4, s5);
    ChecksConcat(s0 + s1 + s2 + s3 + s4 + s5, s6);
    ChecksConcat(s0 + s1 + s2 + s3 + s4 + s5 + s6, s7);
    CanonFlatConcat(W, H, c0, c1);
    CanonFlatConcat(W, H, c0 + c1, c2);
    CanonFlatConcat(W, H, c0 + c1 + c2, c3);
    CanonFlatConcat(W, H, c0 + c1 + c2 + c3, c4);
    CanonFlatConcat(W, H, c0 + c1 + c2 + c3 + c4, c5);
    CanonFlatConcat(W, H, c0 + c1 + c2 + c3 + c4 + c5, c6);
    CanonFlatConcat(W, H, c0 + c1 + c2 + c3 + c4 + c5 + c6, c7);
  }

  // ---------------------------------------------------------------------------------
  // Counting: every cell once, every unordered pair of adjacent cells once

  /** How many of the four forward offsets of `p` land on `q`. */
  function Fwd(width: int, height: int, p: Cell, q: Cell): nat
    requires width > 0 && height > 0
  {
    (if Neighbour(width, height, p, 1, 0) == q then 1 else 0)
      + (if Neighbour(width, height, p, 1, 1) == q then 1 else 0)
      + (if Neighbour(width, height, p, 0, 1) == q then 1 else 0)
      + (if Neighbour(width, height, p, -1, 1) == q then 1 else 0)
  }

  /** How many times `x` occurs in `s`. */
  function Count<T(==)>(s: seq<T>, x: T): nat
  {
    if s == [] then 0 else (if s[0] == x then 1 else 0) + Count(s[1..], x)
  }

  lemma {:induction false} CountConcat<T>(a: seq<T>, b: seq<T>, x: T)
    ensures Count(a + b, x) == Count(a, x) + Count(b, x)
  {
    if a == [] {
      assert a + b == b;
    } else {
      assert (a + b)[1..] == a[1..] + b;
      CountConcat(a[1..], b, x);
    }
  }

  /** Count is the multiplicity of `x` in the multiset of `s`. */
  lemma {:induction false} CountIsMultiplicity<T>(s: seq<T>, x: T)
    ensures Count(s, x) == multiset(s)[x]
  {
    if s != [] {
      CountIsMultiplicity(s[1..], x);
      assert s == [s[0]] + s[1..];
      assert multiset(s) == multiset([s[0]]) + multiset(s[1..]);
    }
  }

  lemma CanonicalPairCount(width: int, height: int, c: Cell, p: Cell, q: Cell)
    requires width > 0 && height > 0
    ensures Count(Canonical(width, height, c), CheckPair(p, q)) == (if c == p then Fwd(width, height, p, q) else 0)
  {
    var s := Canonical(width, height, c);
    CountFive(s[0], s[1], s[2], s[3], s[4], CheckPair(p, q));
  }

  lemma CanonicalCheckCount(width: int, height: int, c: Cell, p: Cell)
    requires width > 0 && height > 0
    ensures Count(Canonical(width, height, c), Check(p)) == (if c == p then 1 else 0)
  {
    var s := Canonical(width, height, c);
    CountFive(s[0], s[1], s[2], s[3], s[4], Check(p));
  }

  lemma CountFive<T>(a: T, b: T, c: T, d: T, e: T, x: T)
    ensures Count([a, b, c, d, e], x)
         == (if a == x then 1 else 0) + (if b == x then 1 else 0) + (if c == x then 1 else 0)
          + (if d == x then 1 else 0) + (if e == x then 1 else 0)
  {
    assert [e][1..] == [];
    assert Count([e], x) == (if e == x then 1 else 0);
    assert [d, e][1..] == [e];
    assert Count([d, e], x) == (if d == x then 1 else 0) + Count([e], x);
    assert [c, d, e][1..] == [d, e];
    assert Count([c, d, e], x) == (if c == x then 1 else 0) + Count([d, e], x);
    assert [b, c, d, e][1..] == [c, d, e];
    assert Count([b, c, d, e], x) == (if b == x then 1 else 0) + Count([c, d, e], x);
    assert [a, b, c, d, e][1..] == [b, c, d, e];
  }

  lemma {:induction false} CanonFlatPairCount(width: int, height: int, cells: seq<Cell>, p: Cell, q: Cell)
    requires width > 0 && height > 0 && Count(cells, p) <= 1
    ensures Count(CanonFlat(width, height, cells), CheckPair(p, q))
         == (if Count(cells, p) == 1 then Fwd(width, height, p, q) else 0)
  {
    if cells != [] {
      var head, tail := cells[0], cells[1..];
      CountConcat(Canonical(width, height, head), CanonFlat(width, height, tail), CheckPair(p, q));
      CanonicalPairCount(width, height, head, p, q);
      CanonFlatPairCount(width, height, tail, p, q);
    }
  }

  lemma {:induction false} CanonFlatCheckCount(width: int, height: int, cells: seq<Cell>, p: Cell)
    requires width > 0 && height > 0
    ensures Count(CanonFlat(width, height, cells), Check(p)) == Count(cells, p)
  {
    if cells != [] {
      var head, tail := cells[0], cells[1..];
      CountConcat(Canonical(width, height, head), CanonFlat(width, height, tail), Check(p));
      CanonicalCheckCount(width, height, head, p);
      CanonFlatCheckCount(width, height, tail, p);
    }
  }

  /** Dropping the translations changes no count of a check. */
  lemma {:induction false} ChecksCount(ops: seq<Op>, o: Op)
    requires !o.Translate?
    ensures Count(Checks(ops), o) == Count(ops, o)
  {
    if ops != [] {
      var head, tail := ops[0], ops[1..];
      CountConcat(Keep(head), Checks(tail), o);
      ChecksCount(tail, o);
      assert Keep(head) == [] || Keep(head)[1..] == [];
    }
  }

  lemma {:induction false} ColumnCount(x: int, y: int, hi: int, c: Cell)
    ensures Count(Column(x, y, hi), c) == (if c.x == x && y <= c.y < hi then 1 else 0)
    decreases hi - y
  {
    if y < hi {
      assert Column(x, y, hi)[1..] == Column(x, y + 1, hi);
      ColumnCount(x, y + 1, hi, c);
    }
  }

  lemma {:induction false} RowCount(y: int, x: int, hi: int, c: Cell)
    ensures Count(Row(y, x, hi), c) == (if c.y == y && x <= c.x < hi then 1 else 0)
    decreases hi - x
  {
    if x < hi {
      assert Row(y, x, hi)[1..] == Row(y, x + 1, hi);
      RowCount(y, x + 1, hi, c);
    }
  }

  lemma {:induction false} BandCount(width: int, y: int, hi: int, c: Cell)
    ensures Count(Band(width, y, hi), c) == (if 1 <= c.x < width - 1 && y <= c.y < hi then 1 else 0)
    decreases hi - y
  {
    if y < hi {
      CountConcat(Row(y, 1, width - 1), Band(width, y + 1, hi), c);
      RowCount(y, 1, width - 1, c);
      BandCount(width, y + 1, hi, c);
    }
  }

  /** The routines visit every cell of the grid once and nothing outside it. */
  lemma OrderCount(width: int, height: int, c: Cell)
    requires width >= 3 && height >= 3
    ensures Count(Order(width, height), c) == (if InGrid(width, height, c) then 1 else 0)
  {
    var W, H := width, height;
    var s1 := [Cell(0, 0)] + [Cell(W - 1, 0)];
    var s2 := s1 + Column(0, 1, H - 1);
    var s3 := s2 + Band(W, 0, H - 1);
    var s4 := s3 + Column(W - 1, 1, H - 1);
    var s5 := s4 + [Cell(0, H - 1)];
    var s6 := s5 + Row(H - 1, 1, W - 1);
    CountConcat([Cell(0, 0)], [Cell(W - 1, 0)], c);
    CountConcat(s1, Column(0, 1, H - 1), c);
    CountConcat(s2, Band(W, 0, H - 1), c);
    CountConcat(s3, Column(W - 1, 1, H - 1), c);
    CountConcat(s4, [Cell(0, H - 1)], c);
    CountConcat(s5, Row(H - 1, 1, W - 1), c);
    CountConcat(s6, [Cell(W - 1, H - 1)], c);
    ColumnCount(0, 1, height - 1, c);
    BandCount(width, 0, height - 1, c);
    ColumnCount(width - 1, 1, height - 1, c);
    RowCount(height - 1, 1, width - 1, c);
  }

  /**
   * The step from `a` to `b` on a ring of `n` cells: 0, 1 or -1 when `b` is that far
   * along from `a`, and 2 when the two are farther apart.
   */
  function Offset(a: int, b: int, n: int): int
  {
    var e := if b >= a then b - a else b - a + n;
    if e == 0 then 0 else if e == 1 then 1 else if e == n - 1 then -1 else 2
  }

  lemma StepIff(a: int, b: int, n: int, d: int)
    requires n >= 3 && 0 <= a < n && 0 <= b < n && -1 <= d <= 1
    ensures (a + d) % n == b <==> Offset(a, b, n) == d
  {
    if a + d == n {
      ModAbove(a + d, n);
    } else if a + d == -1 {
      ModBelow(a + d, n);
    } else {
      ModSmall(a + d, n);
    }
  }

  lemma OffsetSwap(a: int, b: int, n: int)
    requires n >= 3 && 0 <= a < n && 0 <= b < n
    ensures Offset(b, a, n) == (if Offset(a, b, n) == 2 then 2 else -Offset(a, b, n))
    ensures Offset(a, b, n) == 0 <==> a == b
  {
  }

  lemma NeighbourIff(width: int, height: int, p: Cell, q: Cell, dx: int, dy: int)
    requires width >= 3 && height >= 3 && InGrid(width, height, p) && InGrid(width, height, q)
    requires -1 <= dx <= 1 && -1 <= dy <= 1
    ensures Neighbour(width, height, p, dx, dy) == q
        <==> Offset(p.x, q.x, width) == dx && Offset(p.y, q.y, height) == dy
  {
    StepIff(p.x, q.x, width, dx);
    StepIff(p.y, q.y, height, dy);
  }

  /** Of two distinct cells, exactly one sees the other at a forward offset iff they are adjacent. */
  lemma ForwardOnce(width: int, height: int, p: Cell, q: Cell)
    requires width >= 3 && height >= 3 && InGrid(width, height, p) && InGrid(width, height, q)
    requires p != q
    ensures Fwd(width, height, p, q) + Fwd(width, height, q, p)
         == (if Adjacent(width, height, p, q) then 1 else 0)
  {
    var W, H := width, height;
    OffsetSwap(p.x, q.x, W);
    OffsetSwap(p.y, q.y, H);
    NeighbourIff(W, H, p, q, 1, 0);
    NeighbourIff(W, H, p, q, 1, 1);
    NeighbourIff(W, H, p, q, 0, 1);
    NeighbourIff(W, H, p, q, -1, 1);
    NeighbourIff(W, H, q, p, 1, 0);
    NeighbourIff(W, H, q, p, 1, 1);
    NeighbourIff(W, H, q, p, 0, 1);
    NeighbourIff(W, H, q, p, -1, 1);
    NeighbourIff(W, H, p, q, -1, -1);
    NeighbourIff(W, H, p, q, 0, -1);
    NeighbourIff(W, H, p, q, 1, -1);
    NeighbourIff(W, H, p, q, -1, 0);
  }

  /** No forward offset of a cell is the cell itself. */
  lemma ForwardNeverSelf(width: int, height: int, p: Cell)
    requires width >= 3 && height >= 3 && InGrid(width, height, p)
    ensures Fwd(width, height, p, p) == 0
  {
    OffsetSwap(p.x, p.x, width);
    OffsetSwap(p.y, p.y, height);
    NeighbourIff(width, height, p, p, 1, 0);
    NeighbourIff(width, height, p, p, 1, 1);
    NeighbourIff(width, height, p, p, 0, 1);
    NeighbourIff(width, height, p, p, -1, 1);
  }

  /** Counting checks in the schedule is counting them in the canonical blocks of the order. */
  lemma ScheduleCount(width: int, height: int, o: Op)
    requires width >= 3 && height >= 3 && !o.Translate?
    ensures multiset(Schedule(width, height))[o] == Count(CanonFlat(width, height, Order(width, height)), o)
  {
    ScheduleChecks(width, height);
    ChecksCount(Schedule(width, height), o);
    CountIsMultiplicity(Schedule(width, height), o);
  }

  /** jwb_world_step checks the bodies of every cell among themselves exactly once. */
  lemma ScanChecksEveryCellOnce(width: int, height: int, c: Cell)
    requires width >= 3 && height >= 3
    ensures multiset(Schedule(width, height))[Check(c)] == (if InGrid(width, height, c) then 1 else 0)
  {
    ScheduleCount(width, height, Check(c));
    CanonFlatCheckCount(width, height, Order(width, height), c);
    OrderCount(width, height, c);
  }

  /**
   * jwb_world_step checks the bodies of two distinct cells against each other exactly once,
   * in one orientation or the other, when the cells are adjacent on the torus, and never
   * otherwise.
   */
  lemma ScanPairsAdjacentCellsOnce(width: int, height: int, p: Cell, q: Cell)
    requires width >= 3 && height >= 3 && InGrid(width, height, p) && InGrid(width, height, q)
    requires p != q
    ensures multiset(Schedule(width, height))[CheckPair(p, q)]
          + multiset(Schedule(width, height))[CheckPair(q, p)]
         == (if Adjacent(width, height, p, q) then 1 else 0)
  {
    var W, H := width, height;
    ScheduleCount(W, H, CheckPair(p, q));
    ScheduleCount(W, H, CheckPair(q, p));
    OrderCount(W, H, p);
    OrderCount(W, H, q);
    CanonFlatPairCount(W, H, Order(W, H), p, q);
    CanonFlatPairCount(W, H, Order(W, H), q, p);
    ForwardOnce(W, H, p, q);
  }

  /** No cell is ever paired with itself by update_cells. */
  lemma ScanNeverPairsCellWithItself(width: int, height: int, p: Cell)
    requires width >= 3 && height >= 3
    ensures multiset(Schedule(width, height))[CheckPair(p, p)] == 0
  {
    var W, H := width, height;
    ScheduleCount(W, H, CheckPair(p, p));
    OrderCount(W, H, p);
    CanonFlatPairCount(W, H, Order(W, H), p, p);
    if InGrid(W, H, p) {
      ForwardNeverSelf(W, H, p);
    }
  }

  // ---------------------------------------------------------------------------------
  // Translations: every routine moves the bodies of its cell back where they were

  /** The world extents by which one call moves the bodies of cell `c`, along x and along y. */
  function ShiftX(o: Op, c: Cell): int
  {
    if o.Translate? && o.t == c then o.dx else 0
  }

  function ShiftY(o: Op, c: Cell): int
  {
    if o.Translate? && o.t == c then o.dy else 0
  }

  /** The world extents by which the translations in `ops` move the bodies of cell `c`. */
  function NetX(ops: seq<Op>, c: Cell): int
  {
    if ops == [] then 0 else ShiftX(ops[0], c) + NetX(ops[1..], c)
  }

  function NetY(ops: seq<Op>, c: Cell): int
  {
    if ops == [] then 0 else ShiftY(ops[0], c) + NetY(ops[1..], c)
  }

  /** Every body translated by `ops` is translated back by them. */
  ghost predicate Undone(ops: seq<Op>)
  {
    forall c :: NetX(ops, c) == 0 && NetY(ops, c) == 0
  }

  lemma NetStep(s: seq<Op>, k: int, c: Cell)
    requires 0 <= k < |s|
    ensures NetX(s[k..], c) == ShiftX(s[k], c) + NetX(s[k + 1..], c)
    ensures NetY(s[k..], c) == ShiftY(s[k], c) + NetY(s[k + 1..], c)
  {
    assert s[k..][1..] == s[k + 1..];
  }

  lemma NetUnroll7(s: seq<Op>, c: Cell)
    requires |s| == 7
    ensures NetX(s, c) == ShiftX(s[0], c) + ShiftX(s[1], c) + ShiftX(s[2], c) + ShiftX(s[3], c)
                        + ShiftX(s[4], c) + ShiftX(s[5], c) + ShiftX(s[6], c)
    ensures NetY(s, c) == ShiftY(s[0], c) + ShiftY(s[1], c) + ShiftY(s[2], c) + ShiftY(s[3], c)
                        + ShiftY(s[4], c) + ShiftY(s[5], c) + ShiftY(s[6], c)
  {
    NetStep(s, 0, c); NetStep(s, 1, c); NetStep(s, 2, c); NetStep(s, 3, c);
    NetStep(s, 4, c); NetStep(s, 5, c); NetStep(s, 6, c);
    assert s[0..] == s && s[7..] == [];
  }

  lemma NetUnroll9(s: seq<Op>, c: Cell)
    requires |s| == 9
    ensures NetX(s, c) == ShiftX(s[0], c) + ShiftX(s[1], c) + ShiftX(s[2], c) + ShiftX(s[3], c)
                        + ShiftX(s[4], c) + ShiftX(s[5], c) + ShiftX(s[6], c) + ShiftX(s[7], c)
                        + ShiftX(s[8], c)
    ensures NetY(s, c) == ShiftY(s[0], c) + ShiftY(s[1], c) + ShiftY(s[2], c) + ShiftY(s[3], c)
                        + ShiftY(s[4], c) + ShiftY(s[5], c) + ShiftY(s[6], c) + ShiftY(s[7], c)
                        + ShiftY(s[8], c)
  {
    NetStep(s, 0, c); NetStep(s, 1, c); NetStep(s, 2, c); NetStep(s, 3, c); NetStep(s, 4, c);
    NetStep(s, 5, c); NetStep(s, 6, c); NetStep(s, 7, c); NetStep(s, 8, c);
    assert s[0..] == s && s[9..] == [];
  }

  lemma NetUnroll5(s: seq<Op>, c: Cell)
    requires |s| == 5
    ensures NetX(s, c) == ShiftX(s[0], c) + ShiftX(s[1], c) + ShiftX(s[2], c) + ShiftX(s[3], c)
                        + ShiftX(s[4], c)
    ensures NetY(s, c) == ShiftY(s[0], c) + ShiftY(s[1], c) + ShiftY(s[2], c) + ShiftY(s[3], c)
                        + ShiftY(s[4], c)
  {
    NetStep(s, 0, c); NetStep(s, 1, c); NetStep(s, 2, c); NetStep(s, 3, c); NetStep(s, 4, c);
    assert s[0..] == s && s[5..] == [];
  }

  // Each of the eight routines undoes every translation it makes before it returns.

  lemma TopLeftUndone(width: int)
    ensures Undone(TopLeft(width))
  {
    forall c
      ensures NetX(TopLeft(width), c) == 0 && NetY(TopLeft(width), c) == 0
    {
      NetUnroll7(TopLeft(width), c);
    }
  }

  lemma TopRightUndone(width: int)
    ensures Undone(TopRight(width))
  {
    forall c
      ensures NetX(TopRight(width), c) == 0 && NetY(TopRight(width), c) == 0
    {
      NetUnroll7(TopRight(width), c);
    }
  }

  lemma LeftBlockUndone(width: int, y: int)
    ensures Undone(LeftBlock(width, y))
  {
    forall c
      ensures NetX(LeftBlock(width, y), c) == 0 && NetY(LeftBlock(width, y), c) == 0
    {
      NetUnroll7(LeftBlock(width, y), c);
    }
  }

  lemma MiddleBlockUndone(x: int, y: int)
    ensures Undone(MiddleBlock(x, y))
  {
    forall c
      ensures NetX(MiddleBlock(x, y), c) == 0 && NetY(MiddleBlock(x, y), c) == 0
    {
      NetUnroll5(MiddleBlock(x, y), c);
    }
  }

  lemma RightBlockUndone(width: int, y: int)
    ensures Undone(RightBlock(width, y))
  {
    forall c
      ensures NetX(RightBlock(width, y), c) == 0 && NetY(RightBlock(width, y), c) == 0
    {
      NetUnroll7(RightBlock(width, y), c);
    }
  }

  lemma BottomLeftUndone(width: int, height: int)
    ensures Undone(BottomLeft(width, height))
  {
    forall c
      ensures NetX(BottomLeft(width, height), c) == 0 && NetY(BottomLeft(width, height), c) == 0
    {
      NetUnroll9(BottomLeft(width, height), c);
    }
  }

  lemma BottomBlockUndone(height: int, x: int)
    ensures Undone(BottomBlock(height, x))
  {
    forall c
      ensures NetX(BottomBlock(height, x), c) == 0 && NetY(BottomBlock(height, x), c) == 0
    {
      NetUnroll7(BottomBlock(height, x), c);
    }
  }

  lemma BottomRightUndone(width: int, height: int)
    ensures Undone(BottomRight(width, height))
  {
    forall c
      ensures NetX(BottomRight(width, height), c) == 0 && NetY(BottomRight(width, height), c) == 0
    {
      NetUnroll9(BottomRight(width, height), c);
    }
  }

  lemma {:induction false} NetConcat(a: seq<Op>, b: seq<Op>, c: Cell)
    ensures NetX(a + b, c) == NetX(a, c) + NetX(b, c)
    ensures NetY(a + b, c) == NetY(a, c) + NetY(b, c)
  {
    if a != [] {
      assert (a + b)[1..] == a[1..] + b;
      NetConcat(a[1..], b, c);
    } else {
      assert a + b == b;
    }
  }

  lemma UndoneConcat(a: seq<Op>, b: seq<Op>)
    requires Undone(a) && Undone(b)
    ensures Undone(a + b)
  {
    forall c
      ensures NetX(a + b, c) == 0 && NetY(a + b, c) == 0
    {
      NetConcat(a, b, c);
    }
  }

  lemma {:induction false} LeftFromUndone(width: int, y: int, hi: int)
    ensures Undone(LeftFrom(width, y, hi))
    decreases hi - y
  {
    if y < hi {
      LeftBlockUndone(width, y);
      LeftFromUndone(width, y + 1, hi);
      UndoneConcat(LeftBlock(width, y), LeftFrom(width, y + 1, hi));
    }
  }

  lemma {:induction false} MiddleRowUndone(width: int, y: int, x: int)
    ensures Undone(MiddleRow(width, y, x))
    decreases width - 1 - x
  {
    if x < width - 1 {
      MiddleBlockUndone(x, y);
      MiddleRowUndone(width, y, x + 1);
      UndoneConcat(MiddleBlock(x, y), MiddleRow(width, y, x + 1));
    }
  }

  lemma {:induction false} MiddleFromUndone(width: int, y: int, hi: int)
    ensures Undone(MiddleFrom(width, y, hi))
    decreases hi - y
  {
    if y < hi {
      MiddleRowUndone(width, y, 1);
      MiddleFromUndone(width, y + 1, hi);
      UndoneConcat(MiddleRow(width, y, 1), MiddleFrom(width, y + 1, hi));
    }
  }

  lemma {:induction false} RightFromUndone(width: int, y: int, hi: int)
    ensures Undone(RightFrom(width, y, hi))
    decreases hi - y
  {
    if y < hi {
      RightBlockUndone(width, y);
      RightFromUndone(width, y + 1, hi);
      UndoneConcat(RightBlock(width, y), RightFrom(width, y + 1, hi));
    }
  }

  lemma {:induction false} BottomFromUndone(width: int, height: int, x: int)
    ensures Undone(BottomFrom(width, height, x))
    decreases width - 1 - x
  {
    if x < width - 1 {
      BottomBlockUndone(height, x);
      BottomFromUndone(width, height, x + 1);
      UndoneConcat(BottomBlock(height, x), BottomFrom(width, height, x + 1));
    }
  }

  /** Over a whole collision scan, no body ends up translated. */
  lemma ScheduleUndoesTranslations(width: int, height: int)
    ensures Undone(Schedule(width, height))
  {
    var W, H := width, height;
    TopLeftUndone(W);
    TopRightUndone(W);
    BottomLeftUndone(W, H);
    BottomRightUndone(W, H);
    LeftFromUndone(W, 1, H - 1);
    MiddleFromUndone(W, 0, H - 1);
    RightFromUndone(W, 1, H - 1);
    BottomFromUndone(W, H, 1);
    var s0, s1, s2, s3 := TopLeft(W), TopRight(W), Left(W, H), Middle(W, H);
    var s4, s5, s6, s7 := Right(W, H), BottomLeft(W, H), Bottom(W, H), BottomRight(W, H);
    UndoneConcat(s0, s1);
    UndoneConcat(s0 + s1, s2);
    UndoneConcat(s0 + s1 + s2, s3);
    UndoneConcat(s0 + s1 + s2 + s3, s4);
    UndoneConcat(s0 + s1 + s2 + s3 + s4, s5);
    UndoneConcat(s0 + s1 + s2 + s3 + s4 + s5, s6);
    UndoneConcat(s0 + s1 + s2 + s3 + s4 + s5 + s6, s7);
  }
}
