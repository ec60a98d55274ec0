/** Shared result types of the back-office controllers. */
module Common {

  datatype Option<T> = None | Some(value: T) {
    function GetOr(default: T): T {
      match this
      case Some(v) => v
      case None => default
    }
  }

  /**
   * The outcome of a controller operation. `NotFound` and `BadRequest` are the
   * rejections a controller answers itself (HTTP 404 and 400); `ServerError`
   * is the catch-all path (HTTP 500) reached when the database throws.
   */
  datatype Result<T, R> = Ok(value: T) | NotFound | BadRequest(reason: R) | ServerError
}
