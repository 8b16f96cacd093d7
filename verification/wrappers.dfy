/** Optional values and results with an error, as used throughout the model.
    A Python `None` default becomes `None`; a raised exception becomes `Failure`.
    For a `str` parameter with a non-`None` default (a charset, a locale, a
    card, a policy), `None` stands for the omitted argument and maps to that
    default; an explicit Python `None` is outside the parameter's annotation. */
module Wrappers {

  datatype Option<+T> = None | Some(value: T) {

    /** The value, or `default` when absent. */
    function GetOr(default: T): T {
      match this
      case Some(v) => v
      case None => default
    }
  }

  datatype Result<+R, +E> = Success(value: R) | Failure(error: E) {

    predicate IsFailure() {
      Failure?
    }

    function PropagateFailure<U>(): Result<U, E>
      requires Failure?
    {
      Failure(error)
    }

    function Extract(): R
      requires Success?
    {
      value
    }
  }
}
