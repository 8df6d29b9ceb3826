/** The Option datatype used for nullable and optional values throughout the model. */
module Wrappers {

  /** `undefined`/`null` are `None`; a present value is `Some`. */
  datatype Option<+T> = None | Some(value: T) {

    /** The value, or a default when absent (JavaScript `??`). */
    function GetOr(default: T): T {
      match this
      case Some(v) => v
      case None => default
    }
  }
}
