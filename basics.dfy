/** Small value types shared by every module of the model. */
module Basics {

  /** Python's `None` or a present value. */
  datatype Option<+T> = None | Some(value: T) {
    function GetOr(default: T): T {
      match this
      case Some(v) => v
      case None => default
    }
  }

  /** One element of a Python `bytes` value. */
  newtype byte = x: int | 0 <= x < 256

  /** The smaller of two naturals. */
  function Min(a: nat, b: nat): nat {
    if a <= b then a else b
  }

  /** The larger of two naturals. */
  function Max(a: nat, b: nat): nat {
    if a >= b then a else b
  }
}
