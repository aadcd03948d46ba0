/** Values that may be absent and computations that may fail. */
module Results {
  datatype Option<+T> = None | Some(value: T)

  /** The exceptions the modelled Python code raises. */
  datatype Error =
    | ValueError
    | ZeroDivisionError
    | OverflowError
    | TypeError
    | EnvelopeShapeError

  datatype Result<+T> = Success(value: T) | Failure(error: Error) {
    predicate IsFailure() {
      Failure?
    }

    function PropagateFailure<U>(): Result<U>
      requires Failure?
    {
      Failure(error)
    }

    function Extract(): T
      requires Success?
    {
      value
    }
  }

  ghost function Any<T>(values: set<T>): (v: T)
    requires values != {}
    ensures v in values
  {
    var v :| v in values;
    v
  }
}
