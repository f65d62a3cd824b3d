/** Option and Result: the model's stand-ins for Java's null and for a thrown exception. */
module Wrappers {

  /** `None` plays the part of a Java `null` reference. */
  datatype Option<+T> = None | Some(value: T)

  /** `Failure` plays the part of a checked exception leaving a method. */
  datatype Result<+R, +E> = Success(value: R) | Failure(error: E)
}
