/** Optional values, the exceptions the library throws, and results that may carry one. */
module Wrappers {

  /** `None` stands for Java's `null`. */
  datatype Option<+T> = None | Some(value: T)

  /** The Java exception classes the client raises or catches, with their messages. */
  datatype Exception =
    | IllegalState(msg: string)
    | IllegalArgument(msg: string)
    | NumberFormat(input: string)   // a subclass of IllegalArgumentException in Java
    | NullPointer
    | IndexOutOfBounds
    | BufferUnderflow
    | BufferOverflow
    | IOError(msg: string)
    | Timeout(msg: string)
  {
    /** `catch (IllegalArgumentException e)` also catches a NumberFormatException. */
    predicate IsIllegalArgument() {
      IllegalArgument? || NumberFormat?
    }

    /** The classes named by `catch (IllegalStateException | IOException | TimeoutException e)`. */
    predicate IsStateIoOrTimeout() {
      IllegalState? || IOError? || Timeout?
    }
  }

  /** The result of a Java call: a normal return carrying a value, or a thrown exception. */
  datatype Outcome<+T> = Ok(value: T) | Thrown(ex: Exception)
}
