/** Option and Result values standing in for Python's None and for the error
    paths (exceptions, error responses) of the backend. */
module Wrappers {

  datatype Option<+T> = None | Some(value: T) {

    /** The value, or `default` when there is none. */
    function GetOr(default: T): T {
      match this
      case Some(v) => v
      case None => default
    }
  }

  datatype Result<+R, +E> = Success(value: R) | Failure(error: E)
}

/** The response values the backend's endpoints return: a status code and a
    one-field JSON body, named after the body's key. */
module Http {

  datatype Body =
    | Error(text: string)     // {"error": ...}
    | Message(text: string)   // {"message": ...}
    | Status(text: string)    // {"status": ...}
    | Detail(text: string)    // {"detail": ...}, the framework's own errors

  datatype Response = Response(status: int, body: Body)
}
