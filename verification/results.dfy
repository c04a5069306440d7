/** Failure-compatible result type standing in for the Python exceptions the
    driver raises, plus Option for the places where it returns None. */
module Results {

  /** The exception classes the modelled Python code can raise. */
  datatype Error =
    | ValueError          // explicit `raise ValueError(...)`; also `math.log2` of a
                          // non-positive number ("math domain error")
    | AssertionError      // a failed `assert`
    | IndexError          // indexing past the end of a list
    | OverflowError       // `int.to_bytes` on a value that does not fit
    | TypeError           // arithmetic on None
    | ZeroDivisionError   // division by zero
    | FieldOverflow       // a computed exponent that does not fit its register field
    | Stalled             // not an exception: the call is still polling the device
                          // when the modelled device answers run out

  datatype Option<+T> = None | Some(value: T)

  datatype Result<+T> = Ok(value: T) | Err(error: Error) {
    predicate IsFailure() {
      Err?
    }

    function PropagateFailure<U>(): Result<U>
      requires Err?
    {
      Err(error)
    }

    function Extract(): T
      requires Ok?
    {
      value
    }
  }
}
