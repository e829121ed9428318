/**
 * What the collision half of jwb_world_step (src/world-sim.c, lines 106-346) does to the
 * entity table, as functions: check_hit on one pair, the pairs update_cell and
 * update_cells visit, the effect of one scan call (module Scan) and of a run of them.
 * The cell lists do not change during the scan (the hit handlers only touch velocities
 * and corrections), so a Scene fixes them together with the world's handler and the
 * magnitude function the library takes from jwb_vect_magnitude.
 */
module Hits {
  import opened Vectors
  import opened Collision
  import opened WorldModel
  import opened Resolvers
  import opened Scan
  import Grid
  import Links

  /** The fixed context of a collision scan. */
  datatype Scene = Scene(cells: seq<seq<int>>, width: nat, height: nat, cellSize: real,
                         handler: Handler, mag: Vect -> real)

  /** The magnitude function never returns a negative length. */
  ghost predicate NonNegative(mag: Vect -> real)
  {
    forall v :: mag(v) >= 0.0
  }

  /** Every slot on a cell list has a positive mass. */
  ghost predicate Heavy(b: seq<Body>, owner: seq<int>, ncells: nat)
  {
    forall e :: 0 <= e < |b| && e < |owner| && 0 <= owner[e] < ncells ==> b[e].mass > 0.0
  }

  /** `r` differs from `b` at most in velocities and corrections. */
  ghost predicate Frame(b: seq<Body>, r: seq<Body>)
  {
    |r| == |b| && forall e :: 0 <= e < |b| ==> Unmoved(b[e], r[e])
  }

  /** `r` has the masses of `b`. */
  ghost predicate SameMasses(b: seq<Body>, r: seq<Body>)
  {
    |r| == |b| && forall e :: 0 <= e < |b| ==> r[e].mass == b[e].mass
  }

  lemma FrameMasses(b: seq<Body>, r: seq<Body>)
    requires Frame(b, r)
    ensures SameMasses(b, r)
  {
    forall e | 0 <= e < |b| ensures r[e].mass == b[e].mass {
      assert Unmoved(b[e], r[e]);
    }
  }

  lemma MassesTrans(a: seq<Body>, b: seq<Body>, c: seq<Body>)
    requires SameMasses(a, b) && SameMasses(b, c)
    ensures SameMasses(a, c)
  {
  }

  lemma FrameTrans(a: seq<Body>, b: seq<Body>, c: seq<Body>)
    requires Frame(a, b) && Frame(b, c)
    ensures Frame(a, c)
  {
  }

  /** Positive masses survive any change that keeps the masses. */
  lemma HeavyKept(b: seq<Body>, r: seq<Body>, owner: seq<int>, ncells: nat)
    requires Heavy(b, owner, ncells) && SameMasses(b, r)
    ensures Heavy(r, owner, ncells)
  {
  }

  // ---------------------------------------------------------------------------------
  // check_hit and the pairs it is called on

  /**
   * check_hit (lines 106-115): `rel` runs from the first centre to the second; the
   * handler runs when the distance is below the summed radii. The indices are slots of
   * the table, and the divisions the handlers make are defined (module Resolvers).
   */
  function CheckHitOn(b: seq<Body>, e1: int, e2: int, sc: Scene): seq<Body>
  {
    if 0 <= e1 < |b| && 0 <= e2 < |b| then
      var rel := Sub(b[e2].pos, b[e1].pos);
      var info := HitInfo(rel, sc.mag(rel));
      if info.dist < b[e1].radius + b[e2].radius && Divisible(b[e1], b[e2]) then
        Handle(sc.handler, b, e1, e2, info)
      else
        b
    else
      b
  }

  /** check_hit on each pair in turn. */
  function HitAll(b: seq<Body>, ps: seq<(int, int)>, sc: Scene): seq<Body>
    decreases |ps|, 1
  {
    if ps == [] then b else HitNext(b, ps, sc)
  }

  /**
   * check_hit on the first pair of `ps`, then on the others. Kept apart from HitAll so
   * that unfolding a run of checks once stops short of the handlers' arithmetic.
   */
  function HitNext(b: seq<Body>, ps: seq<(int, int)>, sc: Scene): seq<Body>
    requires ps != []
    decreases |ps|, 0
  {
    HitAll(CheckHitOn(b, ps[0].0, ps[0].1, sc), ps[1..], sc)
  }

  /** The pairs (a, x) for x in `l`, in order. */
  function With(a: int, l: seq<int>): seq<(int, int)>
  {
    if l == [] then [] else [(a, l[0])] + With(a, l[1..])
  }

  /** update_cell: every entity with each one after it in the same list. */
  function Pairs(l: seq<int>): seq<(int, int)>
  {
    if l == [] then [] else With(l[0], l[1..]) + Pairs(l[1..])
  }

  /** update_cells: every entity of the first list with every entity of the second. */
  function Cross(l1: seq<int>, l2: seq<int>): seq<(int, int)>
  {
    if l1 == [] then [] else With(l1[0], l2) + Cross(l1[1..], l2)
  }

  lemma HitFirst(b: seq<Body>, p: (int, int), rest: seq<(int, int)>, sc: Scene)
    ensures HitAll(b, [p] + rest, sc) == HitAll(CheckHitOn(b, p.0, p.1, sc), rest, sc)
  {
    assert ([p] + rest)[1..] == rest;
  }

  lemma {:induction false} HitAllConcat(b: seq<Body>, p: seq<(int, int)>, q: seq<(int, int)>, sc: Scene)
    ensures HitAll(b, p + q, sc) == HitAll(HitAll(b, p, sc), q, sc)
    decreases |p|
  {
    if p == [] {
      assert p + q == q;
    } else {
      assert (p + q)[1..] == p[1..] + q;
      HitAllConcat(CheckHitOn(b, p[0].0, p[0].1, sc), p[1..], q, sc);
    }
  }

  lemma WithStep(a: int, l: seq<int>, j: nat)
    requires j < |l|
    ensures With(a, l[j..]) == [(a, l[j])] + With(a, l[j + 1..])
  {
    assert l[j..][1..] == l[j + 1..];
  }

  /** Checking `a` against `l[j..]` is checking it against `l[j]`, then against the rest. */
  lemma WithAdvance(b: seq<Body>, a: int, l: seq<int>, j: nat, sc: Scene)
    requires j < |l|
    ensures HitAll(b, With(a, l[j..]), sc) == HitAll(CheckHitOn(b, a, l[j], sc), With(a, l[j + 1..]), sc)
  {
    WithStep(a, l, j);
    HitFirst(b, (a, l[j]), With(a, l[j + 1..]), sc);
  }

  /** The same step with the checks that follow the ones against `a`. */
  lemma WithThen(b: seq<Body>, a: int, l: seq<int>, j: nat, later: seq<(int, int)>, sc: Scene)
    requires j < |l|
    ensures HitAll(HitAll(b, With(a, l[j..]), sc), later, sc)
         == HitAll(HitAll(CheckHitOn(b, a, l[j], sc), With(a, l[j + 1..]), sc), later, sc)
  {
    WithAdvance(b, a, l, j, sc);
  }

  lemma PairsStep(l: seq<int>, i: nat)
    requires i < |l|
    ensures Pairs(l[i..]) == With(l[i], l[i + 1..]) + Pairs(l[i + 1..])
  {
    assert l[i..][1..] == l[i + 1..];
  }

  /** update_cell's checks from `l[i]` on are those of `l[i]`, then those from `l[i + 1]`. */
  lemma PairsThen(b: seq<Body>, l: seq<int>, i: nat, sc: Scene)
    requires i < |l|
    ensures HitAll(b, Pairs(l[i..]), sc) == HitAll(HitAll(b, With(l[i], l[i + 1..]), sc), Pairs(l[i + 1..]), sc)
  {
    PairsStep(l, i);
    HitAllConcat(b, With(l[i], l[i + 1..]), Pairs(l[i + 1..]), sc);
  }

  lemma CrossStep(l1: seq<int>, l2: seq<int>, i: nat)
    requires i < |l1|
    ensures Cross(l1[i..], l2) == With(l1[i], l2) + Cross(l1[i + 1..], l2)
  {
    assert l1[i..][1..] == l1[i + 1..];
  }

  /** update_cells' checks from `l1[i]` on are those of `l1[i]`, then those from `l1[i + 1]`. */
  lemma CrossThen(b: seq<Body>, l1: seq<int>, l2: seq<int>, i: nat, sc: Scene)
    requires i < |l1|
    ensures HitAll(b, Cross(l1[i..], l2), sc) == HitAll(HitAll(b, With(l1[i], l2), sc), Cross(l1[i + 1..], l2), sc)
  {
    CrossStep(l1, l2, i);
    HitAllConcat(b, With(l1[i], l2), Cross(l1[i + 1..], l2), sc);
  }

  // How often each pair is checked

  lemma {:induction false} WithCount(a: int, l: seq<int>, p: (int, int))
    ensures Count(With(a, l), p) == if p.0 == a then Count(l, p.1) else 0
  {
    if l != [] {
      WithCount(a, l[1..], p);
      CountConcat([(a, l[0])], With(a, l[1..]), p);
      assert [(a, l[0])][1..] == [];
    }
  }

  lemma CountHead<T>(s: seq<T>, x: T)
    requires s != []
    ensures Count(s, x) == (if s[0] == x then 1 else 0) + Count(s[1..], x)
  {
  }

  lemma {:induction false} CountMember<T>(s: seq<T>, x: T)
    ensures Count(s, x) > 0 <==> x in s
  {
    if s != [] {
      CountMember(s[1..], x);
      assert x in s <==> s[0] == x || x in s[1..];
    }
  }

  lemma NoDupTail(l: seq<int>)
    requires Links.NoDup(l) && l != []
    ensures Links.NoDup(l[1..]) && l[0] !in l[1..]
  {
    forall a, b | 0 <= a < b < |l[1..]| ensures Links.Apart(l[1..], a, b) {
      assert l[1..][a] == l[a + 1] && l[1..][b] == l[b + 1] && Links.Apart(l, a + 1, b + 1);
    }
    forall j | 0 <= j < |l[1..]| ensures l[1..][j] != l[0] {
      assert l[1..][j] == l[j + 1] && Links.Apart(l, 0, j + 1);
    }
  }

  /** In a list without repeats every element occurs once. */
  lemma {:induction false} CountNoDup(l: seq<int>, x: int)
    requires Links.NoDup(l)
    ensures Count(l, x) == if x in l then 1 else 0
  {
    if l != [] {
      NoDupTail(l);
      CountNoDup(l[1..], x);
      assert x in l <==> x == l[0] || x in l[1..];
    }
  }

  /**
   * update_cell checks each unordered pair of distinct entities of a cell exactly once,
   * in one of its two orders, and never an entity against itself.
   */
  lemma {:induction false} PairsOnce(l: seq<int>, x: int, y: int)
    requires Links.NoDup(l)
    ensures x != y ==> Count(Pairs(l), (x, y)) + Count(Pairs(l), (y, x))
                       == if x in l && y in l then 1 else 0
    ensures Count(Pairs(l), (x, x)) == 0
  {
    if l != [] {
      NoDupTail(l);
      PairsOnce(l[1..], x, y);
      var a, t := l[0], l[1..];
      CountConcat(With(a, t), Pairs(t), (x, y));
      CountConcat(With(a, t), Pairs(t), (y, x));
      CountConcat(With(a, t), Pairs(t), (x, x));
      WithCount(a, t, (x, y));
      WithCount(a, t, (y, x));
      WithCount(a, t, (x, x));
      CountNoDup(t, x);
      CountNoDup(t, y);
      assert x in l <==> x == a || x in t;
      assert y in l <==> y == a || y in t;
    }
  }

  /** update_cells checks each entity of the first list against each of the second, once. */
  lemma {:induction false} CrossOnce(l1: seq<int>, l2: seq<int>, x: int, y: int)
    requires Links.NoDup(l1) && Links.NoDup(l2)
    ensures Count(Cross(l1, l2), (x, y)) == if x in l1 && y in l2 then 1 else 0
  {
    if l1 != [] {
      NoDupTail(l1);
      CrossOnce(l1[1..], l2, x, y);
      CountConcat(With(l1[0], l2), Cross(l1[1..], l2), (x, y));
      WithCount(l1[0], l2, (x, y));
      CountNoDup(l2, y);
      assert x in l1 <==> x == l1[0] || x in l1[1..];
    }
  }

  // What the checks may change

  /** A check changes no position, mass or radius, and no entity but the two it is given. */
  lemma CheckHitFrame(b: seq<Body>, e1: int, e2: int, sc: Scene)
    ensures Frame(b, CheckHitOn(b, e1, e2, sc))
    ensures forall e :: 0 <= e < |b| && e != e1 && e != e2 ==> CheckHitOn(b, e1, e2, sc)[e] == b[e]
  {
    if 0 <= e1 < |b| && 0 <= e2 < |b| {
      var rel := Sub(b[e2].pos, b[e1].pos);
      var info := HitInfo(rel, sc.mag(rel));
      if info.dist < b[e1].radius + b[e2].radius && Divisible(b[e1], b[e2]) {
        HandleFrame(sc.handler, b, e1, e2, info);
      }
    }
  }

  /** No pair of `ps` names `e`. */
  ghost predicate Avoids(ps: seq<(int, int)>, e: int)
  {
    forall p :: p in ps ==> p.0 != e && p.1 != e
  }

  lemma {:induction false} HitAllFrame(b: seq<Body>, ps: seq<(int, int)>, sc: Scene)
    ensures Frame(b, HitAll(b, ps, sc))
    ensures forall e :: 0 <= e < |b| && Avoids(ps, e) ==> HitAll(b, ps, sc)[e] == b[e]
    decreases |ps|
  {
    if ps != [] {
      var b1 := CheckHitOn(b, ps[0].0, ps[0].1, sc);
      assert HitAll(b, ps, sc) == HitAll(b1, ps[1..], sc);
      CheckHitFrame(b, ps[0].0, ps[0].1, sc);
      HitAllFrame(b1, ps[1..], sc);
      FrameTrans(b, b1, HitAll(b1, ps[1..], sc));
      forall e | 0 <= e < |b| && Avoids(ps, e)
        ensures HitAll(b, ps, sc)[e] == b[e]
      {
        assert ps[0] in ps;
        forall p | p in ps[1..] ensures p.0 != e && p.1 != e {
          assert p in ps;
        }
      }
    }
  }

  lemma {:induction false} WithAvoids(a: int, l: seq<int>, e: int)
    requires a != e && e !in l
    ensures Avoids(With(a, l), e)
  {
    if l != [] {
      WithAvoids(a, l[1..], e);
    }
  }

  lemma {:induction false} PairsAvoid(l: seq<int>, e: int)
    requires e !in l
    ensures Avoids(Pairs(l), e)
  {
    if l != [] {
      WithAvoids(l[0], l[1..], e);
      PairsAvoid(l[1..], e);
    }
  }

  lemma {:induction false} CrossAvoids(l1: seq<int>, l2: seq<int>, e: int)
    requires e !in l1 && e !in l2
    ensures Avoids(Cross(l1, l2), e)
  {
    if l1 != [] {
      WithAvoids(l1[0], l2, e);
      CrossAvoids(l1[1..], l2, e);
    }
  }

  // ---------------------------------------------------------------------------------
  // One call of a scan routine, and a run of them

  /** The list of a cell given by its coordinates; empty outside the grid. */
  function CellList(sc: Scene, c: Cell): seq<int>
  {
    var k := c.y * sc.width + c.x;
    if InGrid(sc.width, sc.height, c) && k < |sc.cells| then sc.cells[k] else []
  }

  /** The displacement of `dx` world widths and `dy` world heights. */
  function Disp(sc: Scene, dx: int, dy: int): Vect
  {
    Vect((dx as real) * Grid.Extent(sc.width, sc.cellSize), (dy as real) * Grid.Extent(sc.height, sc.cellSize))
  }

  /** Moves one body by `d`. */
  function Shift(b: seq<Body>, e: int, d: Vect): seq<Body>
  {
    if 0 <= e < |b| then b[e := b[e].(pos := Add(b[e].pos, d))] else b
  }

  /** cell_translate (lines 188-198): every body of the list moves by `d`. */
  function TranslateAll(b: seq<Body>, l: seq<int>, d: Vect): seq<Body>
    decreases |l|
  {
    if l == [] then b else TranslateAll(Shift(b, l[0], d), l[1..], d)
  }

  lemma TranslateStep(b: seq<Body>, l: seq<int>, d: Vect, i: nat)
    requires i < |l|
    ensures TranslateAll(b, l[i..], d) == TranslateAll(Shift(b, l[i], d), l[i + 1..], d)
  {
    assert l[i..][1..] == l[i + 1..];
  }

  /** What one call of a routine does to the table. */
  function RunOp(b: seq<Body>, o: Op, sc: Scene): seq<Body>
  {
    match o
    case Check(c) => HitAll(b, Pairs(CellList(sc, c)), sc)
    case CheckPair(c1, c2) => HitAll(b, Cross(CellList(sc, c1), CellList(sc, c2)), sc)
    case Translate(c, dx, dy) => TranslateAll(b, CellList(sc, c), Disp(sc, dx, dy))
  }

  /** The calls of `ops`, in order. */
  function RunOps(b: seq<Body>, ops: seq<Op>, sc: Scene): seq<Body>
    decreases |ops|, 1
  {
    if ops == [] then b else RunNext(b, ops, sc)
  }

  /** The first call of `ops`, then the others. Kept apart from RunOps for the same reason
   * as HitNext: unfolding a run once stops after one call. */
  function RunNext(b: seq<Body>, ops: seq<Op>, sc: Scene): seq<Body>
    requires ops != []
    decreases |ops|, 0
  {
    RunOps(RunOp(b, ops[0], sc), ops[1..], sc)
  }

  /** Running `ops` from call `k` on is running call `k` and then the ones after it. */
  lemma RunStep(b: seq<Body>, ops: seq<Op>, k: nat, sc: Scene)
    requires k < |ops|
    ensures RunOps(b, ops[k..], sc) == RunOps(RunOp(b, ops[k], sc), ops[k + 1..], sc)
  {
    assert ops[k..][1..] == ops[k + 1..];
  }

  /** Running a list of calls is running its first call and then the rest. */
  lemma RunFirst(b: seq<Body>, o: Op, rest: seq<Op>, sc: Scene)
    ensures RunOps(b, [o] + rest, sc) == RunOps(RunOp(b, o, sc), rest, sc)
  {
    assert ([o] + rest)[1..] == rest;
  }

  /** Five calls in a row, one state after another. */
  lemma RunFive(o0: Op, o1: Op, o2: Op, o3: Op, o4: Op, sc: Scene,
                b0: seq<Body>, b1: seq<Body>, b2: seq<Body>, b3: seq<Body>, b4: seq<Body>, b5: seq<Body>)
    requires b1 == RunOp(b0, o0, sc) && b2 == RunOp(b1, o1, sc) && b3 == RunOp(b2, o2, sc)
    requires b4 == RunOp(b3, o3, sc) && b5 == RunOp(b4, o4, sc)
    ensures RunOps(b0, [o0, o1, o2, o3, o4], sc) == b5
  {
    RunFirst(b4, o4, [], sc);
    RunFirst(b3, o3, [o4], sc);
    RunFirst(b2, o2, [o3, o4], sc);
    RunFirst(b1, o1, [o2, o3, o4], sc);
    RunFirst(b0, o0, [o1, o2, o3, o4], sc);
    assert [o0] + [o1, o2, o3, o4] == [o0, o1, o2, o3, o4];
    assert [o1] + [o2, o3, o4] == [o1, o2, o3, o4];
    assert [o2] + [o3, o4] == [o2, o3, o4];
    assert [o3] + [o4] == [o3, o4];
    assert [o4] + [] == [o4];
  }

  /** Seven calls in a row. */
  lemma RunSeven(o0: Op, o1: Op, o2: Op, o3: Op, o4: Op, o5: Op, o6: Op, sc: Scene,
                 b0: seq<Body>, b1: seq<Body>, b2: seq<Body>, b3: seq<Body>, b4: seq<Body>,
                 b5: seq<Body>, b6: seq<Body>, b7: seq<Body>)
    requires b1 == RunOp(b0, o0, sc) && b2 == RunOp(b1, o1, sc) && b3 == RunOp(b2, o2, sc)
    requires b4 == RunOp(b3, o3, sc) && b5 == RunOp(b4, o4, sc) && b6 == RunOp(b5, o5, sc)
    requires b7 == RunOp(b6, o6, sc)
    ensures RunOps(b0, [o0, o1, o2, o3, o4, o5, o6], sc) == b7
  {
    RunFive(o2, o3, o4, o5, o6, sc, b2, b3, b4, b5, b6, b7);
    RunFirst(b1, o1, [o2, o3, o4, o5, o6], sc);
    RunFirst(b0, o0, [o1, o2, o3, o4, o5, o6], sc);
    assert [o0] + [o1, o2, o3, o4, o5, o6] == [o0, o1, o2, o3, o4, o5, o6];
    assert [o1] + [o2, o3, o4, o5, o6] == [o1, o2, o3, o4, o5, o6];
  }

  /** Nine calls in a row. */
  lemma RunNine(o0: Op, o1: Op, o2: Op, o3: Op, o4: Op, o5: Op, o6: Op, o7: Op, o8: Op, sc: Scene,
                b0: seq<Body>, b1: seq<Body>, b2: seq<Body>, b3: seq<Body>, b4: seq<Body>,
                b5: seq<Body>, b6: seq<Body>, b7: seq<Body>, b8: seq<Body>, b9: seq<Body>)
    requires b1 == RunOp(b0, o0, sc) && b2 == RunOp(b1, o1, sc) && b3 == RunOp(b2, o2, sc)
    requires b4 == RunOp(b3, o3, sc) && b5 == RunOp(b4, o4, sc) && b6 == RunOp(b5, o5, sc)
    requires b7 == RunOp(b6, o6, sc) && b8 == RunOp(b7, o7, sc) && b9 == RunOp(b8, o8, sc)
    ensures RunOps(b0, [o0, o1, o2, o3, o4, o5, o6, o7, o8], sc) == b9
  {
    RunSeven(o2, o3, o4, o5, o6, o7, o8, sc, b2, b3, b4, b5, b6, b7, b8, b9);
    RunFirst(b1, o1, [o2, o3, o4, o5, o6, o7, o8], sc);
    RunFirst(b0, o0, [o1, o2, o3, o4, o5, o6, o7, o8], sc);
    assert [o0] + [o1, o2, o3, o4, o5, o6, o7, o8] == [o0, o1, o2, o3, o4, o5, o6, o7, o8];
    assert [o1] + [o2, o3, o4, o5, o6, o7, o8] == [o1, o2, o3, o4, o5, o6, o7, o8];
  }

  lemma {:induction false} RunConcat(b: seq<Body>, p: seq<Op>, q: seq<Op>, sc: Scene)
    ensures RunOps(b, p + q, sc) == RunOps(RunOps(b, p, sc), q, sc)
    decreases |p|
  {
    if p == [] {
      assert p + q == q;
    } else {
      assert (p + q)[1..] == p[1..] + q;
      RunConcat(RunOp(b, p[0], sc), p[1..], q, sc);
    }
  }

  // ---------------------------------------------------------------------------------
  // Where the bodies end up

  /** Translating a list moves each body on it once and leaves every other slot alone. */
  lemma {:induction false} TranslateMoves(b: seq<Body>, l: seq<int>, d: Vect)
    requires Links.NoDup(l)
    ensures |TranslateAll(b, l, d)| == |b|
    ensures forall e :: 0 <= e < |b| ==>
      TranslateAll(b, l, d)[e] == if e in l then b[e].(pos := Add(b[e].pos, d)) else b[e]
    decreases |l|
  {
    if l != [] {
      NoDupTail(l);
      TranslateMoves(Shift(b, l[0], d), l[1..], d);
      forall e | 0 <= e < |b|
        ensures TranslateAll(b, l, d)[e] == if e in l then b[e].(pos := Add(b[e].pos, d)) else b[e]
      {
        assert e in l <==> e == l[0] || e in l[1..];
      }
    }
  }

  /** Translating a list changes no mass. */
  lemma TranslateKeepsMasses(b: seq<Body>, l: seq<int>, d: Vect)
    requires Links.NoDup(l)
    ensures SameMasses(b, TranslateAll(b, l, d))
  {
    TranslateMoves(b, l, d);
  }

  /** The cell lists of the grid hold no repeats, and no entity is on two of them. */
  ghost predicate CellsApart(sc: Scene)
  {
    (forall c :: Links.NoDup(CellList(sc, c))) &&
    forall c1, c2, e :: e in CellList(sc, c1) && e in CellList(sc, c2) ==> c1 == c2
  }

  /** The scale of a translation count along each axis. */
  function Net(sc: Scene, nx: int, ny: int): Vect
  {
    Disp(sc, nx, ny)
  }

  lemma DispSum(sc: Scene, a: int, b: int, c: int, d: int)
    ensures Add(Disp(sc, a, b), Disp(sc, c, d)) == Disp(sc, a + c, b + d)
  {
    var ex, ey := Grid.Extent(sc.width, sc.cellSize), Grid.Extent(sc.height, sc.cellSize);
    assert (a as real) * ex + (c as real) * ex == ((a + c) as real) * ex;
    assert (b as real) * ey + (d as real) * ey == ((b + d) as real) * ey;
  }

  /** One call moves a body on the list of cell `h` by the call's translation of `h`, if any. */
  lemma OpMoves(b: seq<Body>, o: Op, sc: Scene, e: nat, h: Cell)
    requires CellsApart(sc) && e < |b| && e in CellList(sc, h)
    ensures |RunOp(b, o, sc)| == |b|
    ensures RunOp(b, o, sc)[e].pos == Add(b[e].pos, Disp(sc, ShiftX(o, h), ShiftY(o, h)))
    ensures RunOp(b, o, sc)[e].mass == b[e].mass && RunOp(b, o, sc)[e].radius == b[e].radius
  {
    var b1 := RunOp(b, o, sc);
    match o {
      case Check(c) =>
        HitAllFrame(b, Pairs(CellList(sc, c)), sc);
        assert Unmoved(b[e], b1[e]);
        assert Disp(sc, 0, 0) == Zero;
      case CheckPair(c1, c2) =>
        HitAllFrame(b, Cross(CellList(sc, c1), CellList(sc, c2)), sc);
        assert Unmoved(b[e], b1[e]);
        assert Disp(sc, 0, 0) == Zero;
      case Translate(c, dx, dy) =>
        TranslateMoves(b, CellList(sc, c), Disp(sc, dx, dy));
        if c != h {
          assert e !in CellList(sc, c);
          assert Disp(sc, 0, 0) == Zero;
        }
    }
  }

  /**
   * Over a run of calls, a body on the list of cell `h` ends up displaced by the net
   * translations of `h`; its mass and radius and the table's length do not change.
   */
  lemma {:induction false} RunMoves(b: seq<Body>, ops: seq<Op>, sc: Scene, e: nat, h: Cell)
    requires CellsApart(sc) && e < |b| && e in CellList(sc, h)
    ensures |RunOps(b, ops, sc)| == |b|
    ensures RunOps(b, ops, sc)[e].pos == Add(b[e].pos, Disp(sc, NetX(ops, h), NetY(ops, h)))
    ensures RunOps(b, ops, sc)[e].mass == b[e].mass && RunOps(b, ops, sc)[e].radius == b[e].radius
    decreases |ops|
  {
    if ops == [] {
      assert Disp(sc, 0, 0) == Zero;
    } else {
      var o := ops[0];
      var b1 := RunOp(b, o, sc);
      OpMoves(b, o, sc, e, h);
      RunMoves(b1, ops[1..], sc, e, h);
      DispSum(sc, ShiftX(o, h), ShiftY(o, h), NetX(ops[1..], h), NetY(ops[1..], h));
    }
  }

  /** A slot on no cell list comes out of any run of calls as it went in. */
  lemma {:induction false} RunSkips(b: seq<Body>, ops: seq<Op>, sc: Scene, e: nat)
    requires CellsApart(sc) && e < |b| && forall c :: e !in CellList(sc, c)
    ensures |RunOps(b, ops, sc)| == |b| && RunOps(b, ops, sc)[e] == b[e]
    decreases |ops|
  {
    if ops != [] {
      var o := ops[0];
      var b1 := RunOp(b, o, sc);
      match o {
        case Check(c) =>
          PairsAvoid(CellList(sc, c), e);
          HitAllFrame(b, Pairs(CellList(sc, c)), sc);
        case CheckPair(c1, c2) =>
          CrossAvoids(CellList(sc, c1), CellList(sc, c2), e);
          HitAllFrame(b, Cross(CellList(sc, c1), CellList(sc, c2)), sc);
        case Translate(c, dx, dy) =>
          TranslateMoves(b, CellList(sc, c), Disp(sc, dx, dy));
      }
      RunSkips(b1, ops[1..], sc, e);
    }
  }

  /** A run of calls never changes a mass, a radius or the number of slots. */
  lemma {:induction false} RunFrame(b: seq<Body>, ops: seq<Op>, sc: Scene)
    requires CellsApart(sc)
    ensures |RunOps(b, ops, sc)| == |b|
    ensures forall e :: 0 <= e < |b| ==>
      RunOps(b, ops, sc)[e].mass == b[e].mass && RunOps(b, ops, sc)[e].radius == b[e].radius
    decreases |ops|
  {
    if ops != [] {
      var o := ops[0];
      var b1 := RunOp(b, o, sc);
      match o {
        case Check(c) =>
          HitAllFrame(b, Pairs(CellList(sc, c)), sc);
        case CheckPair(c1, c2) =>
          HitAllFrame(b, Cross(CellList(sc, c1), CellList(sc, c2)), sc);
        case Translate(c, dx, dy) =>
          TranslateMoves(b, CellList(sc, c), Disp(sc, dx, dy));
      }
      RunFrame(b1, ops[1..], sc);
    }
  }

  /**
   * The whole collision scan leaves every position where it was: each border cell's
   * temporary translations across the seam cancel out (Scan.ScheduleUndoesTranslations).
   */
  lemma ScanKeepsPositions(b: seq<Body>, sc: Scene, e: nat, h: Cell)
    requires CellsApart(sc) && e < |b| && e in CellList(sc, h)
    ensures |RunOps(b, Schedule(sc.width, sc.height), sc)| == |b|
    ensures RunOps(b, Schedule(sc.width, sc.height), sc)[e].pos == b[e].pos
  {
    var ops := Schedule(sc.width, sc.height);
    RunMoves(b, ops, sc, e, h);
    ScheduleUndoesTranslations(sc.width, sc.height);
    assert NetX(ops, h) == 0 && NetY(ops, h) == 0;
    assert Disp(sc, 0, 0) == Zero;
  }
}
