/** Option and Result values used for the source's nullable values, panics,
    failed assertions and thrown exceptions. */
module Wrappers {

  datatype Option<+T> = None | Some(value: T)

  /** `Err` stands for a Rust panic, a failed `assert!`/`Debug.Assert`, or a
      thrown exception; the error value names which one. */
  datatype Result<+T, +E> = Ok(value: T) | Err(error: E)
}
