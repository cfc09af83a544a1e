/** The optional value used where the source passes or stores `None`. */
module Optional {

  datatype Option<T> = None | Some(value: T) {

    /** The wrapped value, or `default` for None (Python's `d.get(k, default)` shape). */
    function GetOr(default: T): (r: T)
      ensures Some? ==> r == value
      ensures None? ==> r == default
    {
      match this
      case Some(v) => v
      case None => default
    }
  }
}
