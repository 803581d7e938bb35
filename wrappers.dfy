/** Optional values and outcomes with an error message. */
module Wrappers {

  datatype Option<+T> = None | Some(value: T)

  /** The result of an operation that either succeeds or is rejected with a message. */
  datatype Outcome = Pass | Fail(error: string)
}
