/** An optional value: JavaScript's `null`/`undefined` versus a present value. */
module Optional {

  datatype Option<+T> = None | Some(value: T) {

    /** The present value, or `fallback` when there is none. */
    function GetOr(fallback: T): (r: T)
      ensures Some? ==> r == value
      ensures None? ==> r == fallback
    {
      match this
      case Some(v) => v
      case None => fallback
    }
  }
}
