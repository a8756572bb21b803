/** Failure-carrying datatypes shared by the model: Option stands for a Java
    reference that may be null, Result for a call that may throw. */
module Wrappers {

  /** A value that may be absent (Java `null`). */
  datatype Option<+T> = None | Some(value: T) {

    /** This value when present, otherwise `other`, which may itself be
        absent (Java `Optional.ofNullable(x).orElse(other)`). */
    function OrElse(other: Option<T>): Option<T> {
      match this
      case Some(_) => this
      case None => other
    }
  }

  /** The outcome of an operation that either returns a value or throws. */
  datatype Result<+R, +E> = Success(value: R) | Failure(error: E)
}
