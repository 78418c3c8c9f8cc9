/** Failure-carrying values used by every service model: `Option` for the
    source's `T | null` returns and `Result` for the `throw new Error(...)`
    paths of the services. */
module Wrappers {

  datatype Option<+T> = None | Some(value: T) {
    function GetOr(default: T): T {
      match this
      case Some(v) => v
      case None => default
    }
  }

  /** The error kinds the services raise. */
  datatype Error =
    | NotFound(what: string)      // "Contrato não encontrado", a missing document
    | Invalid(message: string)    // a rejected input (blank file id, malformed date)

  datatype Result<+T> = Ok(value: T) | Err(error: Error) {
    predicate IsFailure() { Err? }
  }
}
