/** Missing values and thrown errors, as data. */
module Wrappers {

  /** A value that may be missing: the `undefined` or `null` a JavaScript
      lookup returns when nothing matches. */
  datatype Option<T> = None | Some(value: T) {

    /** The carried value, or `default` when there is none (JavaScript's `x || default`
        for values whose only falsy form is absence). */
    function GetOr(default: T): T {
      match this
      case Some(v) => v
      case None => default
    }
  }

  /** The outcome of an operation that may throw. The store throws plain
      `Error`s that callers tell apart only by their message text. */
  datatype Result<T> = Ok(value: T) | Err(message: string)
}
