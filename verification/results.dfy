/** Failure-compatible wrappers shared by the model: an optional value, and a
    computation that either succeeds or stops with one of the errors the
    modelled Python code can raise. */
module Results {

  datatype Option<+T> = None | Some(value: T)

  /** The exceptions the modelled code can raise on its own inputs. */
  datatype Error =
    | ZeroDivision      // a Python float division by zero
    | IndexError        // indexing a list past its end
    | MissingAttribute  // getattr on a ratio that was never stored

  datatype Result<+T> = Success(value: T) | Failure(error: Error) {
    predicate IsFailure() { Failure? }

    function PropagateFailure<U>(): Result<U>
      requires Failure?
    {
      Failure(error)
    }

    function Extract(): T
      requires Success?
    {
      value
    }
  }
}
