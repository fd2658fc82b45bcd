/** The optional value used throughout the model: JavaScript's `null` (no active
    reminder, nothing spoken yet) and the "this call threw" outcome of a parse. */
module Options {

  datatype Option<+T> = None | Some(value: T) {

    /** The wrapped value, or `default` when there is none. */
    function GetOr(default: T): (r: T)
      ensures Some? ==> r == value
      ensures None? ==> r == default
    {
      match this
      case Some(v) => v
      case None => default
    }
  }
}
