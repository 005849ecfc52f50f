/** Option and Result, used where the Java code passes `null` around or throws. */
module Wrappers {

  /** `None` stands for a Java reference that is `null`. */
  datatype Option<+T> = None | Some(value: T)

  /** `Failure` stands for an exception on its way up the call stack. */
  datatype Result<+T, +E> = Success(value: T) | Failure(error: E)
}
