/**
 * The checked accessors of src/world-get-set.c. Each checked entry point tests its
 * arguments, then asks jwb_world_confirm_ent about the handle and refuses only a
 * destroyed one: a removed entity can still be read and written. The unchecked `_unck`
 * bodies are the field reads and writes the checked ones end in.
 *
 * A C pointer argument that may be NULL is an Option (a `VECT *` to read from) or a
 * flag saying whether the destination exists (a `VECT *` to write to).
 */
module Accessors {
  import opened Vectors
  import opened Errors
  import opened Options
  import opened WorldModel
  import Move

  /** The VECT_METHOD getters (lines 55-61). */
  datatype VectRead = GetPos | GetVel

  /** The VECT_METHOD writers (lines 63-84). */
  datatype VectWrite = SetPos | SetVel | Translate | MoveLater | Accelerate

  /** The field a getter copies out. */
  function Read(op: VectRead, b: Body): Vect
  {
    match op
    case GetPos => b.pos
    case GetVel => b.vel
  }

  /**
   * The `_unck` body of a writer: each writes one vector field of the record and leaves
   * the others and the mass and radius alone.
   */
  function Written(op: VectWrite, b: Body, v: Vect): (r: Body)
    ensures r.mass == b.mass && r.radius == b.radius
    ensures op == SetPos || op == Translate ==> r.vel == b.vel && r.correct == b.correct
    ensures op == SetVel || op == Accelerate ==> r.pos == b.pos && r.correct == b.correct
    ensures op == MoveLater ==> r.pos == b.pos && r.vel == b.vel
  {
    match op
    case SetPos => b.(pos := v)
    case SetVel => b.(vel := v)
    case Translate => b.(pos := Add(b.pos, v))
    case MoveLater => b.(correct := Add(b.correct, v))
    case Accelerate => b.(vel := Add(b.vel, v))
  }

  /**
   * The checks of VECT_METHOD (lines 41-48): a missing vector is refused before the
   * handle is looked at; then only a destroyed handle is refused.
   */
  function Check(w: World, e: nat, given: bool): (r: int)
    reads w`entFlags
    ensures r == 0 || r == -INVALID_ARGUMENT || r == -DESTROYED_ENTITY
    ensures !given ==> r == -INVALID_ARGUMENT
    ensures given ==> (r == 0 <==> w.Confirm(e) != -DESTROYED_ENTITY)
  {
    if !given then -INVALID_ARGUMENT
    else if w.Confirm(e) == -DESTROYED_ENTITY then -DESTROYED_ENTITY
    else 0
  }

  /**
   * A handle with a vector passes the check exactly when its slot is in use and on a cell
   * list or on `freed`: live and removed entities pass, destroyed ones and handles never
   * handed out do not.
   */
  lemma CheckByList(w: World, e: nat)
    requires w.Valid()
    ensures Check(w, e, true) == 0 <==> e < w.NEnts() && w.owner[e] <= w.NCells()
    ensures Check(w, e, true) == 0 ==> e < |w.bodies|
  {
    w.ConfirmReportsList(e);
  }

  /** jwb_world_get_pos and jwb_world_get_vel: the status, and the vector copied to `dest` on success. */
  function ReadVect(w: World, e: nat, op: VectRead, dest: bool): (r: (int, Option<Vect>))
    requires |w.bodies| == |w.entFlags|
    reads w`entFlags, w`bodies
    ensures r.0 == Check(w, e, dest)
    ensures r.0 == 0 <==> r.1.Some?
    ensures r.1.Some? ==> e < |w.bodies| && r.1.value == Read(op, w.bodies[e])
  {
    if Check(w, e, dest) != 0 then (Check(w, e, dest), None) else (0, Some(Read(op, w.bodies[e])))
  }

  /**
   * jwb_world_set_pos, set_vel, translate, move_later and accelerate: after the checks
   * the record of `e` takes the write, and nothing else changes. A refused call changes
   * nothing.
   */
  method WriteVect(w: World, e: nat, op: VectWrite, v: Option<Vect>) returns (r: int)
    requires w.Valid()
    modifies w`bodies
    ensures w.Valid()
    ensures r == Check(w, e, v.Some?)
    ensures r == 0 ==>
      e < old(|w.bodies|) && w.bodies == old(w.bodies)[e := Written(op, old(w.bodies[e]), v.value)]
    ensures r != 0 ==> w.bodies == old(w.bodies)
  {
    if v.None? {
      return -INVALID_ARGUMENT;
    }
    var err := w.Confirm(e);
    if err == -DESTROYED_ENTITY {
      return err;
    }
    CheckByList(w, e);
    w.bodies := w.bodies[e := Written(op, w.bodies[e], v.value)];
    return 0;
  }

  /** What a getter reads back is what the matching setter wrote. */
  lemma SetThenGet(b: Body, v: Vect)
    ensures Read(GetPos, Written(SetPos, b, v)) == v
    ensures Read(GetVel, Written(SetVel, b, v)) == v
  {
  }

  /** translate, move_later and accelerate add: two calls are one call with the sum, and a call is undone by its opposite. */
  lemma AddingWrites(op: VectWrite, b: Body, u: Vect, v: Vect)
    requires op == Translate || op == MoveLater || op == Accelerate
    ensures Written(op, Written(op, b, u), v) == Written(op, b, Add(u, v))
    ensures Written(op, Written(op, b, u), Vect(-u.x, -u.y)) == b
  {
  }

  /**
   * A displacement passed to move_later is spent by the next move pass: the entity ends
   * where it would have if it had been translated by it instead, and its correction is
   * used up either way.
   */
  lemma MoveLaterIsDeferredTranslate(b: Body, v: Vect, width: nat, height: nat, cellSize: real)
    requires width > 0 && height > 0 && cellSize > 0.0
    ensures Move.Advance(Written(MoveLater, b, v), width, height, cellSize) ==
            Move.Advance(Written(Translate, b, v), width, height, cellSize)
    ensures Move.Target(Written(MoveLater, b, v), width, height, cellSize) ==
            Move.Target(Written(Translate, b, v), width, height, cellSize)
  {
    assert Add(b.pos, Add(b.vel, Add(b.correct, v))) == Add(Add(b.pos, v), Add(b.vel, b.correct));
  }

  // ---------------------------------------------------------------------------------
  // Scalars (lines 86-125)

  /** The error a SCALAR_GETTER returns for a destroyed handle, as the double it returns. */
  const DESTROYED_AS_NUMBER: real := -3.0

  /** jwb_world_get_mass (lines 86-98): a destroyed handle gives its negated error code as the value. */
  function GetMass(w: World, e: nat): (r: real)
    requires |w.bodies| == |w.entFlags|
    reads w`entFlags, w`bodies
    ensures w.Confirm(e) == -DESTROYED_ENTITY ==> r == -DESTROYED_ENTITY as real
    ensures w.Confirm(e) != -DESTROYED_ENTITY ==> e < |w.bodies| && r == w.bodies[e].mass
  {
    if w.Confirm(e) == -DESTROYED_ENTITY then DESTROYED_AS_NUMBER else w.bodies[e].mass
  }

  /**
   * jwb_world_get_radius as written (lines 86-100): the checked getter generated for
   * the radius calls jwb_world_get_mass_unck, so it returns the mass.
   */
  function GetRadiusAsWritten(w: World, e: nat): (r: real)
    requires |w.bodies| == |w.entFlags|
    reads w`entFlags, w`bodies
    ensures r == GetMass(w, e)
  {
    if w.Confirm(e) == -DESTROYED_ENTITY then DESTROYED_AS_NUMBER else w.bodies[e].mass
  }

  /** jwb_world_get_radius as intended: the radius of a live or removed entity. */
  function GetRadius(w: World, e: nat): (r: real)
    requires |w.bodies| == |w.entFlags|
    reads w`entFlags, w`bodies
    ensures w.Confirm(e) == -DESTROYED_ENTITY ==> r == -DESTROYED_ENTITY as real
    ensures w.Confirm(e) != -DESTROYED_ENTITY ==> e < |w.bodies| && r == w.bodies[e].radius
  {
    if w.Confirm(e) == -DESTROYED_ENTITY then DESTROYED_AS_NUMBER else w.bodies[e].radius
  }

  /**
   * The radius getter as written answers with the mass: for any entity that is not
   * destroyed and whose mass and radius differ (a body of mass 1 and radius 2, say) it
   * does not return the radius, which the intended getter does.
   */
  lemma RadiusGetterReturnsMass(w: World, e: nat)
    requires |w.bodies| == |w.entFlags| && w.Confirm(e) != -DESTROYED_ENTITY
    ensures e < |w.bodies|
    ensures GetRadiusAsWritten(w, e) == w.bodies[e].mass
    ensures GetRadius(w, e) == w.bodies[e].radius
    ensures w.bodies[e].mass != w.bodies[e].radius ==> GetRadiusAsWritten(w, e) != GetRadius(w, e)
  {
  }

  /**
   * jwb_world_set_mass (lines 102-121): a negative value is refused before the handle is
   * looked at, then a destroyed handle is refused; otherwise the mass is written.
   */
  method SetMass(w: World, e: nat, v: real) returns (r: int)
    requires w.Valid()
    modifies w`bodies
    ensures w.Valid()
    ensures r == if v < 0.0 then -INVALID_ARGUMENT else Check(w, e, true)
    ensures r == 0 ==> e < old(|w.bodies|) && w.bodies == old(w.bodies)[e := old(w.bodies[e]).(mass := v)]
    ensures r != 0 ==> w.bodies == old(w.bodies)
  {
    if v < 0.0 {
      return -INVALID_ARGUMENT;
    }
    var err := w.Confirm(e);
    if err == -DESTROYED_ENTITY {
      return err;
    }
    CheckByList(w, e);
    w.bodies := w.bodies[e := w.bodies[e].(mass := v)];
    return 0;
  }

  /**
   * jwb_world_set_radius (lines 102-117 and 123-125): as set_mass, and a radius above
   * the cell size is refused too, so a body never reaches past the neighbouring cells.
   */
  method SetRadius(w: World, e: nat, v: real) returns (r: int)
    requires w.Valid()
    modifies w`bodies
    ensures w.Valid()
    ensures r == if v < 0.0 || v > w.cellSize then -INVALID_ARGUMENT else Check(w, e, true)
    ensures r == 0 ==> e < old(|w.bodies|) && w.bodies == old(w.bodies)[e := old(w.bodies[e]).(radius := v)]
    ensures r == 0 ==> 0.0 <= w.bodies[e].radius <= w.cellSize
    ensures r != 0 ==> w.bodies == old(w.bodies)
  {
    if v < 0.0 || v > w.cellSize {
      return -INVALID_ARGUMENT;
    }
    var err := w.Confirm(e);
    if err == -DESTROYED_ENTITY {
      return err;
    }
    CheckByList(w, e);
    w.bodies := w.bodies[e := w.bodies[e].(radius := v)];
    return 0;
  }

  // ---------------------------------------------------------------------------------
  // The world's own fields (lines 4-36 and 127-140)

  /** jwb_world_on_hit (lines 9-12): the handler is replaced. */
  method OnHit(w: World, h: Handler)
    modifies w`onHit
    ensures w.onHit == h
  {
    w.onHit := h;
  }

  /** jwb_world_get_hit_handler (lines 4-7). */
  function GetHitHandler(w: World): Handler
    reads w`onHit
  {
    w.onHit
  }

  /** jwb_world_offset (lines 20-27): a missing vector is refused, otherwise it becomes the offset. */
  method SetOffset(w: World, off: Option<Vect>) returns (r: int)
    modifies w`offset
    ensures r == 0 <==> off.Some?
    ensures r != 0 ==> r == -INVALID_ARGUMENT && w.offset == old(w.offset)
    ensures r == 0 ==> w.offset == off.value
  {
    if off.None? {
      return -INVALID_ARGUMENT;
    }
    w.offset := off.value;
    return 0;
  }

  /** jwb_world_get_offset (lines 29-36): the offset is copied to `dest` when there is one. */
  function GetOffset(w: World, dest: bool): (r: (int, Option<Vect>))
    reads w`offset
    ensures r.0 == 0 <==> dest
    ensures r.0 != 0 ==> r.0 == -INVALID_ARGUMENT && r.1 == None
    ensures dest ==> r.1 == Some(w.offset)
  {
    if dest then (0, Some(w.offset)) else (-INVALID_ARGUMENT, None)
  }

  /**
   * jwb_world_get_extra (lines 127-140): the extra payload of a live or removed entity,
   * named here by its slot, or NULL (None) for a destroyed handle.
   */
  function GetExtra(w: World, e: nat): (r: Option<nat>)
    reads w`entFlags
    ensures r == None <==> Check(w, e, true) != 0
    ensures r.Some? ==> r.value == e
  {
    if w.Confirm(e) == -DESTROYED_ENTITY then None else Some(e)
  }
}
