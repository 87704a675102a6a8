/** The optional values and the outcomes with an error that the rest of the model shares. */
module Wrappers {

  /** A value that may be absent: a file that may not exist, a failure that may not have happened. */
  datatype Option<+T> = None | Some(value: T) {

    /** The value, or `fallback` when there is none. */
    function GetOr(fallback: T): (r: T)
      ensures Some? ==> r == value
      ensures None? ==> r == fallback
    {
      if Some? then value else fallback
    }
  }

  /** What an operation that can fail gives back: its value, or the error it stopped on. */
  datatype Result<+R, +E> = Success(value: R) | Failure(error: E)
}
