/** Optional values and error outcomes used by the ledger's operations. */
module Wrappers {

  /** An optional value: a record that may be absent, a query parameter that may be missing. */
  datatype Option<+T> = None | Some(value: T)

  /** Either a value or an error describing why none could be produced. */
  datatype Result<+T, +E> = Success(value: T) | Failure(error: E)
}
