/** Option, Result and Outcome datatypes standing for Java's null references and exceptions. */
module Wrappers {

  /** The Java exceptions that the modelled code can raise. */
  datatype JavaException =
    | NoSuchElementException
    | IndexOutOfBoundsException
    | NullPointerException
    | ArithmeticException
    | ClassCastException

  /** A reference that may be null. */
  datatype Option<T> = None | Some(value: T)

  /** A value-returning call that either returns normally or throws. */
  datatype Result<T> = Ok(value: T) | Err(exception: JavaException)

  /** A void call that either returns normally or throws. */
  datatype Outcome = Normal | Thrown(exception: JavaException)
}
