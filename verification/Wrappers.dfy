/** Types shared by every module of the model. */
module Wrappers {
  datatype Option<+T> = None | Some(value: T)

  datatype Result<+T, +E> = Ok(value: T) | Err(error: E)

  /** Row identifiers are opaque; NIL stands for the all-zero identifier. */
  type Uuid = nat

  const NIL: Uuid := 0

  /** Calendar days, counted from an arbitrary origin. */
  type Day = int
}
