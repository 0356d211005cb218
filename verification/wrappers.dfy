/** The optional values of request bodies, and the success-or-error result of
    the endpoints that can fail. */
module Wrappers {

  /** An optional value: the JSON fields that may be null or omitted. */
  datatype Option<+T> = None | Some(value: T) {

    /** The wrapped value, or `default` when there is none. */
    function GetOr(default: T): T
    {
      match this
      case Some(v) => v
      case None => default
    }
  }

  /** Either the value an endpoint returns or the error it raises. */
  datatype Result<+R, +E> = Success(value: R) | Failure(error: E)
}
