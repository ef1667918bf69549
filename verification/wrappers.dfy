/** Failure-carrying result types shared by the modules of this model. */
module Wrappers {

  /** A value that may be absent, such as the token of a word with no letters. */
  datatype Option<+T> = None | Some(value: T)

  /** Either a computed value or the error the computation raised instead. */
  datatype Result<+T, +E> = Success(value: T) | Failure(error: E)
}
