/** Optional values and the two outcomes of an operation that may raise. */
module Outcomes {

  datatype Option<+T> = None | Some(value: T)

  /** A raised exception carries a fixed label in the repository; only the fact
      that the operation refused is kept here. */
  datatype Result<+T> = Ok(value: T) | Refused
}
