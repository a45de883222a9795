/** Failure-carrying values used across the model: an optional value (a Go
    pointer that may be nil) and a result that is either a value or an error
    (a Go `(value, error)` pair). */
module Wrappers {

  datatype Option<+T> = None | Some(value: T)

  datatype Result<+R, +E> = Success(value: R) | Failure(error: E) {

    /** Forgets the error, as a caller that discards it with `_` does. */
    function ToOption(): (o: Option<R>)
      ensures o.Some? <==> Success?
      ensures o.Some? ==> o.value == value
    {
      match this
      case Success(v) => Some(v)
      case Failure(_) => None
    }
  }
}
