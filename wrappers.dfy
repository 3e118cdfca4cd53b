/** Option and Result types, and the Java exceptions the modelled code can raise. */
module Wrappers {

  datatype Option<+T> = None | Some(value: T)

  /** The runtime failures of the Java code that the model keeps as explicit outcomes. */
  datatype Fault =
    | NullPointer          // a method called on a null reference
    | IllegalArgument      // Random.nextInt(0), an out-of-range argument
    | IndexOutOfBounds     // a list or sublist index outside the list
    | Arithmetic           // integer division by zero
    | GPFailure            // the application's own checked GPException
    | NumberFormat         // a string that does not parse as a number
    | RetriesExhausted     // a retry loop still running after the modelled number of attempts
    | NoSuchElement        // firstElement or Collections.min of an empty collection
    | StackOverflow        // a recursion that never reaches its base case (StackOverflowError)

  datatype Result<+T> = Ok(value: T) | Err(fault: Fault)

  /** The outcome of a void method that may throw. */
  datatype Outcome = Pass | Fail(fault: Fault)
}
