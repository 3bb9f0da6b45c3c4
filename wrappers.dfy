/** Small result types shared by the other modules. */
module Wrappers {

  /** A value that may be missing: JavaScript's `undefined` returned by a lookup that misses. */
  datatype Option<T> = None | Some(value: T)

  /** The outcome of a call that can throw: either the value it returns or the name of the error it throws. */
  datatype Outcome<T> = Returns(value: T) | Throws(error: string)
}
