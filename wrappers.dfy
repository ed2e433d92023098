/** Option and Result, the two failure-carrying shapes the rest of the model uses. */
module Wrappers {

  /** `None` stands for a JavaScript value that is absent: `null`, `undefined` or `NaN`,
      as each use site says. */
  datatype Option<+T> = None | Some(value: T)

  /** The outcome of an awaited call that either resolves with a value or throws. */
  datatype Result<+R, +E> = Success(value: R) | Failure(error: E)
}
