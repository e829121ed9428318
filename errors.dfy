/** Error codes (include/jwb.h) and their human-readable messages (src/error.c). */
module Errors {
  /** Positive error codes; fallible operations return their negation. */
  const NO_MEMORY: int := 1
  const REMOVED_ENTITY: int := 2
  const DESTROYED_ENTITY: int := 3
  const INVALID_ARGUMENT: int := 4

  const UNKNOWN_ERROR_MSG: string := "Unknown error"

  function Abs(code: int): nat
  {
    if code < 0 then -code else code
  }

  /** A code the library knows: success (0) or one of the four error codes, of either sign. */
  predicate Known(code: int)
  {
    Abs(code) <= INVALID_ARGUMENT
  }

  /** jwb_errmsg: the sign of the code is ignored, then each known code has its own message. */
  function ErrMsg(code: int): (msg: string)
    ensures Abs(code) == 0 ==> msg == "No error"
    ensures msg == UNKNOWN_ERROR_MSG <==> !Known(code)
  {
    match Abs(code)
    case 1 => "Out of memory"
    case 2 => "Entity handle referenced a removed entity"
    case 3 => "Entity handle referenced a destroyed entity (CRITICAL)"
    case 4 => "Invalid argument"
    case 0 => "No error"
    case _ => UNKNOWN_ERROR_MSG
  }

  /** A negated code (the form operations return) has the same message as the positive one. */
  lemma ErrMsgIgnoresSign(code: int)
    ensures ErrMsg(-code) == ErrMsg(code)
  {
  }

  /** The five known messages are pairwise distinct: the message identifies the code up to sign. */
  lemma ErrMsgInjective(a: int, b: int)
    requires Known(a) && Known(b)
    ensures ErrMsg(a) == ErrMsg(b) <==> Abs(a) == Abs(b)
  {
  }
}
