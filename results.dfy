/** The optional value and the success-or-error value that the source's
    `Option` and `Result` return types stand for. */
module Results {

  datatype Option<T> = None | Some(value: T)
  {
    /** `unwrap_or(default)` */
    function GetOr(default: T): T
    {
      match this
      case Some(v) => v
      case None => default
    }
  }

  datatype Result<T, E> = Ok(value: T) | Err(error: E)
}
