/** Failure-carrying wrappers shared by the three apps: Kotlin's nullable
    values become `Option`, thrown exceptions become the `Err` arm of `Result`. */
module Basics {

  datatype Option<+T> = None | Some(value: T) {

    /** The Kotlin elvis operator `x ?: default`. */
    function GetOr(default: T): T {
      match this
      case Some(v) => v
      case None => default
    }
  }

  /** The exceptions the modelled code can throw. */
  datatype Failure =
    | IllegalArgument(message: string)
    | IndexOutOfBounds(index: int)

  datatype Result<+T> = Ok(value: T) | Err(error: Failure)

  /** Bounds of the JVM's 32-bit `Int`. */
  const IntMin: int := -0x8000_0000
  const IntMax: int := 0x7fff_ffff

  predicate InInt32(x: int) {
    IntMin <= x <= IntMax
  }

  /** Two's-complement wrap-around of a JVM `Int` operation whose exact
      result is `x`. */
  function Wrap32(x: int): (r: int)
    ensures InInt32(r)
    ensures (r - x) % 0x1_0000_0000 == 0
    ensures InInt32(x) ==> r == x
  {
    (x - IntMin) % 0x1_0000_0000 + IntMin
  }
}
