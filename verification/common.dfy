/**
 * Values shared by every widget model: an optional value, used wherever the
 * widgets read `undefined`/`null` or a lookup can miss.
 */
module Common {

  datatype Option<+T> = None | Some(value: T) {

    /** The wrapped value, or `default` when there is none (JavaScript's `x ?? default`). */
    function GetOr(default: T): (r: T)
      ensures Some? ==> r == value
      ensures None? ==> r == default
    {
      match this
      case Some(v) => v
      case None => default
    }
  }
}
