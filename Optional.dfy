/** Option, and the result of a library call that may throw. */
module Optional {

  /** A value that may be absent (C#'s `null`). */
  datatype Option<+T> = None | Some(value: T) {

    /** The value, or `default` when absent (C#'s `??`). */
    function GetOr(default: T): T {
      match this
      case Some(v) => v
      case None => default
    }
  }

  /** The result of a call into the JSON library: a value, or an exception
      (InvalidOperationException and the like) that the caller may catch. */
  datatype Fallible<+T> = Ok(value: T) | Throws {

    predicate IsFailure() {
      Throws?
    }

    function PropagateFailure<U>(): Fallible<U>
      requires Throws?
    {
      Throws
    }

    function Extract(): T
      requires Ok?
    {
      value
    }
  }
}
