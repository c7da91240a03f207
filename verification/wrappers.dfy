/** The two kinds of "maybe" the model needs: a value Python may represent
    as `None`, and the outcome of a Python call that may raise. */
module Wrappers {

  /** Either nothing (`None`) or a present value. */
  datatype Option<+T> = None | Some(value: T) {

    /** The present value, else `fallback`. */
    function ValueOr(fallback: T): T {
      if Some? then value else fallback
    }
  }

  /** A call that returns `value` or raises `error`. The three members below
      let `:-` stop a computation at the first raise and pass it on. */
  datatype Result<+R, +E> = Success(value: R) | Failure(error: E) {

    predicate IsFailure() {
      Failure?
    }

    function PropagateFailure<U>(): Result<U, E>
      requires Failure?
    {
      Failure(error)
    }

    function Extract(): R
      requires Success?
    {
      value
    }
  }
}
