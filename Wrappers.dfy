/** Optional values and results that carry a JavaScript `Error` message. */
module Wrappers {

  /** `undefined` versus a present value. */
  datatype Option<+T> = None | Some(value: T)

  /** A call that returns a value or throws an `Error` whose message is `msg`. */
  datatype Result<+T> = Ok(value: T) | Err(msg: string)
}
