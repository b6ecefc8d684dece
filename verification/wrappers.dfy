/** Optional values: `None` stands for JavaScript's null/undefined (and, for
    numbers, NaN) wherever the front end guards with `?.` or a falsy test. */
module Wrappers {

  datatype Option<+T> = None | Some(value: T) {

    /** The value, or `default` when absent (JavaScript's `x ?? default`). */
    function GetOr(default: T): T {
      match this
      case Some(v) => v
      case None => default
    }
  }
}
