/** Values shared by every component: optional values, the error kinds the
    controllers answer with, and the failures the persistence layer can raise. */
module Common {

  datatype Option<+T> = None | Some(value: T) {
    function GetOr(default: T): T {
      match this
      case Some(v) => v
      case None => default
    }
  }

  /** The kinds of error answer a controller gives (HTTP 404, 400 for a
      missing query parameter, 400 for a schema violation, 500). */
  datatype ErrorKind = NotFound | BadRequest | Validation | Internal

  datatype Result<+T> = Ok(value: T) | Err(error: ErrorKind)

  /** Failures raised by the persistence layer itself, outside the schema:
      a value or id that cannot be cast, or a storage error. */
  datatype Fault = CastFault | StorageFault
}
