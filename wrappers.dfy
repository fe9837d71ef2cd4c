/** Kotlin's nullable values, as an Option datatype. */
module Wrappers {

  datatype Option<+T> = None | Some(value: T) {

    /** `this ?: default`, Kotlin's elvis operator. */
    function GetOr(default: T): T {
      match this
      case Some(v) => v
      case None => default
    }
  }
}
