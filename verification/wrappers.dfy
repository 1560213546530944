/** Failure-compatible result type used for the exceptions the driver code throws. */
module Wrappers {

  datatype Option<+T> = None | Some(value: T)

  /** The .NET exception classes the modelled code raises, one constructor each. */
  datatype Error =
    | ArgumentOutOfRange  // System.ArgumentOutOfRangeException
    | ArgumentNull        // System.ArgumentNullException
    | Argument            // System.ArgumentException (duplicate dictionary key, bad Json.NET cast)
    | Overflow            // System.OverflowException (checked narrowing, Math.Abs of the minimum)
    | NotSupported        // System.NotSupportedException
    | InvalidOperation    // System.InvalidOperationException
    | InvalidCast         // System.InvalidCastException
    | NullReference       // System.NullReferenceException
    | Format              // System.FormatException
    | External            // raised by a collaborator outside the model (a parser, a reader)

  datatype Result<+T> = Ok(value: T) | Err(error: Error) {

    predicate IsFailure() {
      Err?
    }

    function PropagateFailure<U>(): Result<U>
      requires Err?
    {
      Err(error)
    }

    function Extract(): T
      requires Ok?
    {
      value
    }
  }
}
