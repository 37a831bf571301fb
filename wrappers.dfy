/** Option and Result, used for the values pandas leaves missing and for the
    exceptions the script raises. */
module Wrappers {

  datatype Option<+T> = None | Some(value: T)
  {
    function Map<U>(f: T -> U): Option<U>
    {
      match this
      case None => None
      case Some(v) => Some(f(v))
    }
  }

  datatype Result<+T, +E> = Success(value: T) | Failure(error: E)
}
