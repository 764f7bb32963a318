/** Option, Result and Fetch, the failure-carrying shapes the pipeline uses. */
module Wrappers {

  datatype Option<+T> = None | Some(value: T) {
    /** The value when present, `default` when absent (`v if v is not None else default`). */
    function GetOr(default: T): T {
      match this
      case Some(v) => v
      case None => default
    }
  }

  datatype Result<+T, +E> = Ok(value: T) | Err(error: E)

  /** The outcome of a network request: what came back, or the message of the exception it raised. */
  datatype Fetch<+T> = Fetched(answer: T) | Failed(message: string)
}
