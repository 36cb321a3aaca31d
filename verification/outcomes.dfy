/** Optional values, the three request failures, and the result of a request. */
module Outcomes {

  datatype Option<T> = None | Some(value: T) {

    /** The value, or `default` when absent. */
    function GetOr(default: T): T {
      match this
      case Some(v) => v
      case None => default
    }
  }

  /** How a request can fail: bad input (HTTP 400/422), a missing row
      (404), or a missing or wrong admin key (401). */
  datatype Error = Validation | NotFound | Unauthorized

  datatype Result<T> = Ok(value: T) | Err(error: Error)
}
