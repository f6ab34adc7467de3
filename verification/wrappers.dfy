/** The optional values the model uses in place of C# `null`. */
module Wrappers {

  /** `None` stands for a null reference, `Some(v)` for a present value. */
  datatype Option<+T> = None | Some(value: T) {

    /** The wrapped value, or `default` when there is none. */
    function GetOr(default: T): T {
      match this
      case Some(v) => v
      case None => default
    }
  }
}
