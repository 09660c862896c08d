/** Option and Result values used by every module of the model: `Option` for
    JavaScript's `null`/`undefined`, `Result` for a computation that can throw. */
module Wrappers {

  datatype Option<+T> = None | Some(value: T)

  /** Either the computed value or the error the source code throws. */
  datatype Result<+T, +E> = Ok(value: T) | Err(error: E)
}
