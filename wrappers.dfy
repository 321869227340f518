/** Option and Result values shared by every module of the model. */
module Wrappers {
  datatype Option<T> = None | Some(value: T)
  {
    function GetOr(default: T): T
    {
      if Some? then value else default
    }
  }

  /** A computation that either returns a value or raises the exception `error`. */
  datatype Result<T, E> = Ok(value: T) | Err(error: E)

  /** A computation without a value that either completes or raises `error`. */
  datatype Outcome<E> = Pass | Fail(error: E)
}
