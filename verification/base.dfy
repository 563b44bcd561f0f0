/**
  Small failure-carrying datatypes shared by the rest of the model.

  `Option` stands for a Python value that may be `None`; `Result` stands for
  a computation that may raise instead of returning.
 */
module Base {

  /** A value that may be absent (Python's `None`). */
  datatype Option<+T> = None | Some(value: T) {

    /** The wrapped value, or `default` when absent (Python's `x or default`
        is NOT this: see `Text.Truthy` for truthiness). */
    function GetOr(default: T): T {
      match this
      case Some(v) => v
      case None => default
    }
  }

  /** The outcome of a computation that either returns a value or raises. */
  datatype Result<+T> = Ok(value: T) | Raised(reason: string)
}
