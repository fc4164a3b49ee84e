/** The Option and Result datatypes used across the model: `Option` for lookups
    and decodes that may find nothing, `Result` for operations that can fail. */
module Wrappers {

  datatype Option<+T> = None | Some(value: T)

  datatype Result<+R, +E> = Success(value: R) | Failure(error: E)
}
