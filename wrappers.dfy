/** The optional value every accessor of the decoding layer returns (Rust's `Option`). */
module Wrappers {
  datatype Option<+T> = None | Some(value: T) {

    /** `None` makes `:-` return early, as `?` does on an `Option`. */
    predicate IsFailure() {
      None?
    }

    function PropagateFailure<U>(): Option<U>
      requires None?
    {
      None
    }

    function Extract(): T
      requires Some?
    {
      value
    }

    /** `unwrap_or`: the value, or `default` when absent. */
    function GetOr(default: T): T {
      match this
      case Some(v) => v
      case None => default
    }
  }
}
