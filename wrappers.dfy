/** The optional-value datatype used throughout the model: an absent JSON field,
    a lookup that finds nothing, a field error that is not set. */
module Wrappers {

  datatype Option<+T> = None | Some(value: T) {

    /** The wrapped value, or `default` when there is none (JavaScript's `??`). */
    function GetOr(default: T): T {
      match this
      case Some(v) => v
      case None => default
    }
  }
}
