/** Outcome types shared by the store: a missing row, a query result, an
    operation that either succeeds or fails with an error. */
module Wrappers {

  /** A value that may be absent (a lookup that found no row). */
  datatype Option<+T> = None | Some(value: T)

  /** A value or the error the store raised instead. */
  datatype Result<+T, +E> = Ok(value: T) | Err(error: E)

  /** Success without a value, or the error the store raised. */
  datatype Outcome<+E> = Pass | Fail(error: E)
}
