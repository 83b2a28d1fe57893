/** Nullable values and void outcomes, as the C# code uses `string?` and exceptions. */
module Wrappers {

  /** A value that may be null (`None`). */
  datatype Option<+T> = None | Some(value: T) {

    /** The value if present, otherwise `default`. */
    function GetOr(default: T): T {
      if Some? then value else default
    }
  }

  /** A call that returns normally (`Pass`) or throws `error`. */
  datatype Outcome<+E> = Pass | Fail(error: E)
}
