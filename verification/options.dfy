/** Nullable values: a database column that may hold NULL, a lookup that may miss. */
module Options {

  datatype Option<+T> = None | Some(value: T) {

    /** The value, or a default for None (JavaScript's `x || d` on a nullable string). */
    function GetOr(default: T): T {
      match this
      case Some(v) => v
      case None => default
    }
  }
}
