/**
 * The arithmetic of the uniform grid (src/world-sim.c, fframe and reposition): wrapping a
 * position onto the torus of width*cell_size by height*cell_size, and finding the index
 * of the cell it lies in. Doubles are modelled as reals, so the rounding of fmod is not.
 */
module Grid {
  import opened Vectors

  /**
   * C's conversion of a double to an integer, which truncates toward zero: the integer
   * next to `q` on the side of zero, never further than one from it.
   */
  function Trunc(q: real): (t: int)
    ensures q >= 0.0 ==> 0 <= t && t as real <= q < t as real + 1.0
    ensures q < 0.0 ==> t <= 0 && t as real - 1.0 < q <= t as real
  {
    if q >= 0.0 then q.Floor else -((-q).Floor)
  }

  /** fmod: the remainder after truncating division, with the sign of `num`. */
  function Fmod(num: real, lim: real): real
    requires lim != 0.0
  {
    num - lim * (Trunc(num / lim) as real)
  }

  /** fframe: `num` brought into [0, lim) by whole multiples of `lim`. */
  function FFrame(num: real, lim: real): (r: real)
    requires lim > 0.0
    ensures 0.0 <= r < lim
  {
    FmodBounds(num, lim);
    var m := Fmod(num, lim);
    if m < 0.0 then m + lim else m
  }

  /** The number of periods fframe shifts `num` by. */
  function FFrameShift(num: real, lim: real): int
    requires lim > 0.0
  {
    var t := Trunc(num / lim);
    if Fmod(num, lim) < 0.0 then 1 - t else -t
  }

  /** fframe only ever moves a value by whole periods. */
  lemma FFrameIsShift(num: real, lim: real)
    requires lim > 0.0
    ensures FFrame(num, lim) == num + (FFrameShift(num, lim) as real) * lim
  {
  }

  /** A value already in [0, lim) is left where it is. */
  lemma FFrameFixes(num: real, lim: real)
    requires lim > 0.0 && 0.0 <= num < lim
    ensures FFrame(num, lim) == num
  {
    QuotientBounds(num, lim);
    assert Trunc(num / lim) == 0;
  }

  /** fframe is periodic: values a whole number of periods apart frame alike. */
  lemma FFramePeriodic(num: real, lim: real, k: int)
    requires lim > 0.0
    ensures FFrame(num + (k as real) * lim, lim) == FFrame(num, lim)
  {
    var a, b := FFrame(num + (k as real) * lim, lim), FFrame(num, lim);
    FFrameIsShift(num + (k as real) * lim, lim);
    FFrameIsShift(num, lim);
    var j := FFrameShift(num + (k as real) * lim, lim) + k - FFrameShift(num, lim);
    assert a - b == (j as real) * lim;
    UniqueRepresentative(a, b, lim, j);
  }

  lemma UniqueRepresentative(a: real, b: real, lim: real, j: int)
    requires lim > 0.0 && 0.0 <= a < lim && 0.0 <= b < lim && a - b == (j as real) * lim
    ensures a == b
  {
    if j >= 1 {
      MulNonneg((j as real) - 1.0, lim);
    } else if j <= -1 {
      MulNonneg(-(j as real) - 1.0, lim);
    }
  }

  lemma QuotientBounds(num: real, lim: real)
    requires lim > 0.0 && 0.0 <= num < lim
    ensures 0.0 <= num / lim < 1.0
  {
    var q := num / lim;
    assert q * lim == num;
    if q < 0.0 {
      MulPos(-q, lim);
      assert false;
    }
    if q >= 1.0 {
      MulNonneg(q - 1.0, lim);
      assert false;
    }
  }

  lemma FmodBounds(num: real, lim: real)
    requires lim > 0.0
    ensures -lim < Fmod(num, lim) < lim
  {
    var q := num / lim;
    FractionBounds(num, lim, q, Trunc(q) as real, Fmod(num, lim));
  }

  /** The remainder left by a whole part `t` within one of the quotient `q` is below `lim`. */
  lemma FractionBounds(num: real, lim: real, q: real, t: real, m: real)
    requires lim > 0.0 && q == num / lim && m == num - lim * t
    requires if q >= 0.0 then 0.0 <= q - t < 1.0 else 0.0 <= t - q < 1.0
    ensures -lim < m < lim
  {
    QuotientTimesDivisor(num, lim);
    if q >= 0.0 {
      var f := q - t;
      DifferenceTimes(q, t, f, lim, num, m);
      BoundedTimes(f, lim);
    } else {
      var g := t - q;
      DifferenceTimes(t, q, g, lim, lim * t, lim * t - num);
      BoundedTimes(g, lim);
    }
  }

  lemma DifferenceTimes(q: real, t: real, f: real, lim: real, num: real, m: real)
    requires f == q - t && q * lim == num && m == num - lim * t
    ensures f * lim == m
  {
  }

  lemma BoundedTimes(f: real, lim: real)
    requires lim > 0.0 && 0.0 <= f < 1.0
    ensures 0.0 <= f * lim < lim
  {
    MulNonneg(f, lim);
    MulPos(1.0 - f, lim);
    assert (1.0 - f) * lim == lim - f * lim;
  }

  lemma MulNonneg(a: real, b: real)
    requires a >= 0.0 && b >= 0.0
    ensures a * b >= 0.0
  {
  }

  lemma MulPos(a: real, b: real)
    requires a > 0.0 && b > 0.0
    ensures a * b > 0.0
  {
  }

  /** The extent of the world along an axis with `cells` cells. */
  function Extent(cells: nat, cellSize: real): real
  {
    (cells as real) * cellSize
  }

  /** reposition's write-back: the position wrapped onto the torus. */
  function Wrap(pos: Vect, width: nat, height: nat, cellSize: real): (p: Vect)
    requires width > 0 && height > 0 && cellSize > 0.0
    ensures InWorld(p, width, height, cellSize)
  {
    Vect(FFrame(pos.x, Extent(width, cellSize)), FFrame(pos.y, Extent(height, cellSize)))
  }

  predicate InWorld(p: Vect, width: nat, height: nat, cellSize: real)
  {
    0.0 <= p.x < Extent(width, cellSize) && 0.0 <= p.y < Extent(height, cellSize)
  }

  /** The column or row of a wrapped coordinate: the truncated quotient. */
  function CellCoord(p: real, cellSize: real): int
    requires cellSize > 0.0
  {
    Trunc(p / cellSize)
  }

  /** reposition's result: the row-major index of the cell holding a wrapped position. */
  function CellIndexOf(p: Vect, width: nat, height: nat, cellSize: real): (c: int)
    requires cellSize > 0.0 && InWorld(p, width, height, cellSize)
    ensures 0 <= c < width * height
  {
    var x, y := CellCoord(p.x, cellSize), CellCoord(p.y, cellSize);
    CoordInRange(p.x, width, cellSize);
    CoordInRange(p.y, height, cellSize);
    RowMajorInRange(x, y, width, height);
    y * width + x
  }

  /** A coordinate in [0, n*cellSize) lies in one of the n cells, and inside its bounds. */
  lemma CoordInRange(p: real, n: nat, cellSize: real)
    requires cellSize > 0.0 && 0.0 <= p < Extent(n, cellSize)
    ensures 0 <= CellCoord(p, cellSize) < n
    ensures (CellCoord(p, cellSize) as real) * cellSize <= p
    ensures p < ((CellCoord(p, cellSize) as real) + 1.0) * cellSize
  {
    var q := p / cellSize;
    QuotientTimesDivisor(p, cellSize);
    if q < 0.0 {
      MulPos(-q, cellSize);
      assert false;
    }
    var k := q.Floor;
    assert CellCoord(p, cellSize) == k;
    FloorBounds(p, q, k as real, cellSize);
    if k >= n {
      assert ((k as real) - (n as real)) * cellSize == (k as real) * cellSize - Extent(n, cellSize);
      MulNonneg((k as real) - (n as real), cellSize);
      assert false;
    }
  }

  lemma FloorBounds(p: real, q: real, k: real, c: real)
    requires c > 0.0 && k <= q < k + 1.0 && q * c == p
    ensures k * c <= p < (k + 1.0) * c
  {
    var below, above := q - k, k + 1.0 - q;
    assert below * c == p - k * c;
    assert above * c == (k + 1.0) * c - p;
    MulNonneg(below, c);
    MulPos(above, c);
  }

  lemma RowMajorInRange(x: int, y: int, width: nat, height: nat)
    requires 0 <= x < width && 0 <= y < height
    ensures 0 <= y * width + x < width * height
  {
    assert y * width <= (height - 1) * width;
  }

  /** Row-major indices name cells one to one. */
  lemma RowMajorInjective(x1: int, y1: int, x2: int, y2: int, width: nat)
    requires 0 <= x1 < width && 0 <= x2 < width && 0 <= y1 && 0 <= y2
    requires y1 * width + x1 == y2 * width + x2
    ensures x1 == x2 && y1 == y2
  {
    if y1 < y2 {
      assert (y2 - y1) * width == y2 * width - y1 * width;
      AtLeastOnce(y2 - y1, width);
      assert false;
    } else if y2 < y1 {
      assert (y1 - y2) * width == y1 * width - y2 * width;
      AtLeastOnce(y1 - y2, width);
      assert false;
    }
  }

  lemma AtLeastOnce(k: int, w: nat)
    requires k >= 1
    ensures k * w >= w
  {
  }

  /**
   * reposition (world-sim.c, lines 61-72): the wrapped position it writes back and the
   * index of the cell that position lies in.
   */
  function Reposition(pos: Vect, width: nat, height: nat, cellSize: real): (r: (Vect, int))
    requires width > 0 && height > 0 && cellSize > 0.0
    ensures InWorld(r.0, width, height, cellSize) && 0 <= r.1 < width * height
  {
    var p := Wrap(pos, width, height, cellSize);
    (p, CellIndexOf(p, width, height, cellSize))
  }

  /** A position already inside the world is written back unchanged. */
  lemma RepositionFixes(pos: Vect, width: nat, height: nat, cellSize: real)
    requires width > 0 && height > 0 && cellSize > 0.0 && InWorld(pos, width, height, cellSize)
    ensures Reposition(pos, width, height, cellSize).0 == pos
  {
    FFrameFixes(pos.x, Extent(width, cellSize));
    FFrameFixes(pos.y, Extent(height, cellSize));
  }
}
