/** Optional values and results, for the fields a handler file may leave out and the
    configuration check that may fail. */
module Wrappers {

  /** A value that may be absent: an unset environment variable, a missing export. */
  datatype Option<+T> = None | Some(value: T)

  /** The outcome of a check that either yields a value or a message saying why not. */
  datatype Result<+T, +E> = Ok(value: T) | Err(error: E)
}
