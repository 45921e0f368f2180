/** Failure-carrying result shapes shared by the model. */
module Wrappers {

  /** A value that may be absent. */
  datatype Option<+T> = None | Some(value: T)

  /** The outcome of a call into C++ code that may throw: either the value it
      returned or the `what()` text of the exception it raised. */
  datatype Call<+T> = Returned(value: T) | Threw(what: string)
}
