/** Optional values, Go's `error` values and results that carry one. */
module Wrappers {

  /** A Go pointer that may be nil: `None` is nil, `Some(v)` points at `v`. */
  datatype Option<+T> = None | Some(value: T) {
    function GetOr(default: T): T {
      match this
      case Some(v) => v
      case None => default
    }
  }

  /** A Go `error`: a leaf error with its message, or one wrapped by
      `fmt.Errorf("<context>: %w", cause)`. */
  datatype Error = Error(message: string) | Wrapped(context: string, cause: Error) {
    /** What `err.Error()` returns. */
    function Message(): string {
      match this
      case Error(m) => m
      case Wrapped(c, e) => c + ": " + e.Message()
    }
  }

  /** The Go pair `(value, err)`: exactly one of the two is meaningful. */
  datatype Result<+T> = Success(value: T) | Failure(error: Error)
}
