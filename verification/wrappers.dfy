/** Small result types of the relay model: `Option` for a wire field that
    may be absent, `Result` for a fallible conversion (the `Result<T, E>` of
    the relay code; `:-` on it plays the part of the `?` operator), and
    `Outcome` for a check that either passes or reports why not (the
    `Result<(), Error>` the verifiers return). */
module Wrappers {

  datatype Option<+T> = None | Some(value: T) {
    /** A missing value becomes the given error. */
    function OkOr<E>(error: E): (r: Result<T, E>)
      ensures r.Success? <==> Some?
      ensures Some? ==> r.value == value
      ensures None? ==> r.error == error
    {
      match this
      case Some(v) => Success(v)
      case None => Failure(error)
    }
  }

  datatype Result<+T, +E> = Success(value: T) | Failure(error: E) {
    predicate IsFailure() { Failure? }

    function PropagateFailure<U>(): Result<U, E>
      requires Failure?
    {
      Failure(error)
    }

    function Extract(): T
      requires Success?
    {
      value
    }
  }

  datatype Outcome<+E> = Pass | Fail(error: E)
}
