/** Small wrappers shared by every module of the model. */
module Common {
  /** A nullable value of the source (`int?`, `DateTime?`, a reference that may be null). */
  datatype Option<T> = None | Some(value: T)
  {
    function GetOr(default: T): (r: T)
      ensures this.Some? ==> r == value
      ensures this.None? ==> r == default
    {
      match this
      case Some(v) => v
      case None => default
    }
  }

  /** The outcome of a call into code outside the model: it returned a value or it threw. */
  datatype Call<T> = Returned(value: T) | Threw
}
