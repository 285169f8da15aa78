/** Optional values, the exceptions the modelled code can throw, and results that carry them. */
module Wrappers {

  datatype Option<+T> = None | Some(value: T)

  /** The .NET exceptions that the modelled code throws on its error paths. */
  datatype Exception =
    | ArgumentException(paramName: string)
    | ArgumentOutOfRangeException(paramName: string)
    | InvalidCastException
    | InvalidOperationException
    | NotImplementedException
    | NullReferenceException
    | ObjectDisposedException

  /** A value, or the exception the source throws instead of returning one. */
  datatype Result<+T> = Success(value: T) | Failure(error: Exception)
}
