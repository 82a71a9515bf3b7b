/** Option and Outcome, as the model's error paths use them. */
module Wrappers {

  datatype Option<+T> = None | Some(value: T) {
    function GetOr(default: T): T {
      match this
      case Some(v) => v
      case None => default
    }
  }

  /** Pass, or Fail with the reason the source would log. */
  datatype Outcome<+E> = Pass | Fail(error: E)
}
