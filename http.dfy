/**
  The crate's error type `HueError` and the translation of a bridge error
  code into it (src/http.rs).
*/
module Http {
  import ErrorCodes

  /**
    `HueError`. The `Response` variant carries an HTTP-library error in the
    crate; that payload is not part of this model.
  */
  datatype HueError =
    | Unauthorized
    | AlreadyAuthorized
    | Connection
    | Response
    | Unsupported
    | Unexpected
    | Unknown

  /** `impl From<ErrorCode> for HueError`. */
  function FromErrorCode(ec: ErrorCodes.ErrorCode): (r: HueError)
    ensures r == Unauthorized <==> ec == ErrorCodes.Unauthorized || ec == ErrorCodes.LinkButtonNotPressed
    ensures r == Unauthorized || r == Unknown
  {
    match ec
    case Unauthorized => Unauthorized
    case LinkButtonNotPressed => Unauthorized
    case _ => Unknown
  }

  /**
    Read off the wire: a code that decodes maps to `Unauthorized` exactly
    when it is 1 or 101, and to `Unknown` otherwise.
  */
  lemma FromWireCode(n: ErrorCodes.u32)
    requires ErrorCodes.Decode(n).Some?
    ensures FromErrorCode(ErrorCodes.Decode(n).value) == Unauthorized <==> n == 1 || n == 101
    ensures FromErrorCode(ErrorCodes.Decode(n).value) == Unknown <==> n != 1 && n != 101
  {
    ErrorCodes.EncodeDecode(n);
  }
}
