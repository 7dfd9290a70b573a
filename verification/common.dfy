/** Failure-carrying result types shared by every module of the model. */
module Common {

  /** A value that may be absent: a missing ODB key, a parse that found no digits. */
  datatype Option<+T> = None | Some(value: T)

  /** The outcome of an operation of the source that can raise, abort or exit. */
  datatype Result<+T, +E> = Ok(value: T) | Err(error: E)
}
