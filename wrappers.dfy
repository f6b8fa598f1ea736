/* The optional value used for nullable pointers and TOptional fields. */
module Wrappers {

  datatype Option<T> = None | Some(value: T) {
    predicate IsSet() { this.Some? }

    /** TOptional::Get(Default): the value, or the default when unset. */
    function GetOr(default: T): T {
      match this
      case Some(v) => v
      case None => default
    }
  }
}
