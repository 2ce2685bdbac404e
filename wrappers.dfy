/** Option and Result wrappers shared by the whole model. */
module Wrappers {

  /** A value that may be missing: the model's stand-in for a null pointer or an absent key. */
  datatype Option<+T> = None | Some(value: T) {
    function GetOr(default: T): T {
      match this
      case Some(v) => v
      case None => default
    }
  }

  /** A value or the error that replaced it (a thrown exception, an undefined read). */
  datatype Result<+T, +E> = Success(value: T) | Failure(error: E)
}
