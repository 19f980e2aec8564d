/** The nullable-reference idiom of the C sources, as a value type. */
module Wrappers {

  /** `None` stands for NULL, `Some(v)` for a reference to `v`. */
  datatype Option<+T> = None | Some(value: T) {

    /** The value if there is one, `default` otherwise. */
    function GetOr(default: T): T {
      match this
      case Some(v) => v
      case None => default
    }
  }
}
