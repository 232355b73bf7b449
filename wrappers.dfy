/** Option, Result and Outcome: a missing reference, a value or a thrown exception. */
module Wrappers {

  /** `None` stands for a .NET null reference. */
  datatype Option<+T> = None | Some(value: T)

  /** `Failure` stands for an exception the call throws. */
  datatype Result<+T, +E> = Success(value: T) | Failure(error: E)

  /** The outcome of a `void` call that may throw. */
  datatype Outcome<+E> = Pass | Fail(error: E)
}
