/** Optional values, results and the exceptions the modelled class raises. */
module Wrappers {

  /** A value that may be absent; `None` stands for Python's `None`. */
  datatype Option<+T> = None | Some(value: T)

  /** The outcome of an operation that can raise. */
  datatype Result<+T, +E> = Success(value: T) | Failure(error: E)

  /** The Python exceptions the class raises, with their messages. */
  datatype Error = ValueError(message: string) | TypeError(message: string)
}
