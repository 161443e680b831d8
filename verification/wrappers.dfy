/** Optional values and the outcome of a call into a venue's market-data client. */
module Wrappers {

  /** A value that may be absent; `None` plays the part of JavaScript's `undefined`. */
  datatype Option<+T> = None | Some(value: T)

  /** What one remote call produced: its answer, or a thrown error (timeout, protocol
      error, malformed response). */
  datatype Outcome<+T> = Ok(value: T) | Failed
}
