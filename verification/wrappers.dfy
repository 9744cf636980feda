/** Failure-carrying datatypes shared by the bingo modules. */
module Wrappers {

  /** An optional value, used where the source returns `None` or a falsy value. */
  datatype Option<+T> = None | Some(value: T)

  /** The outcome of an operation that the source can abort with an error. */
  datatype Result<+T, +E> = Ok(value: T) | Err(error: E)
}
