/** Option and a failure-compatible outcome type. A `Fail` stands for an exception
    thrown by the interpreter; every caller propagates it with `:-`. */
module Wrappers {

  datatype Option<+T> = None | Some(value: T)

  /** The exceptions the interpreter can raise, one constructor per kind. */
  datatype Failure =
    | UnknownName(id: string)        // IllegalStateException from a scope lookup
    | CastFailure                    // ClassCastException from an `as` cast
    | NoUniqueVariant(name: string)  // Error raised when overload resolution is ambiguous or empty
    | NotAFunction(id: string)       // Error raised by a dot call on a non-function binding
    | NoSuchElement                  // `single()` on a collection with no matching element
    | SeveralElements                // `single()` on a collection with more than one
    | IndexOutOfBounds               // list or array index past the end
    | NullValue                      // `!!` applied to null
    | Uninitialized                  // a `lateinit` property read before it was set
    | NumberFormat                   // `String.toInt` on text that is not a 32-bit integer
    | DivisionByZero                 // ArithmeticException from `%` by zero
    | Unsupported                    // UnsupportedOperationException
    | EndOfInput                     // `readln` with no line left
    | NotModelled                    // a value whose text form this model does not give
    | OutOfFuel                      // the evaluation bound of this model was reached

  datatype Outcome<+T> = Ok(value: T) | Fail(failure: Failure) {
    predicate IsFailure() { Fail? }

    function PropagateFailure<U>(): Outcome<U>
      requires Fail?
    {
      Fail(failure)
    }

    function Extract(): T
      requires Ok?
    {
      value
    }
  }
}
