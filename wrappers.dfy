/** Option, Result and Outcome: the values that stand in for C#'s null
    references and thrown exceptions in this model. */
module Wrappers {

  /** `None` plays the role of a null reference. */
  datatype Option<+T> = None | Some(value: T)

  /** `Failure` carries the exception a C# member would throw. */
  datatype Result<+R, +E> = Success(value: R) | Failure(error: E)

  /** The outcome of a `void` C# method that may throw. */
  datatype Outcome<+E> = Pass | Fail(error: E)
}
