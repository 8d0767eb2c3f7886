/** Optional values (a JavaScript property that may be `undefined`) and results
    (a value or a thrown error). */
module Wrappers {

  /** `None` stands for `undefined`; `Some(v)` for a defined value. */
  datatype Option<+T> = None | Some(value: T) {

    /** The `??` operator: the value if defined, otherwise `default`. */
    function GetOr(default: T): (r: T)
      ensures Some? ==> r == value
      ensures None? ==> r == default
    {
      match this
      case Some(v) => v
      case None => default
    }
  }

  /** `Ok(v)` is a normal return; `Err(e)` an exception that reaches the caller. */
  datatype Result<+T, +E> = Ok(value: T) | Err(error: E)
}
