/**
  The bridge's numeric error codes (src/models/error.rs). `ErrorCode` is a
  `#[repr(u32)]` enum (de)serialised as its discriminant: serialising writes
  the number, deserialising accepts only numbers that are a discriminant.
*/
module ErrorCodes {
  import opened Wrappers

  newtype u32 = x: int | 0 <= x < 0x1_0000_0000

  datatype ErrorCode =
    | Unauthorized
    | InvalidJson
    | ResourceNotAvailable
    | ResourceMethodNotAvailable
    | ParameterMissing
    | ParameterNotAvailable
    | ParameterValue
    | ParameterNotModifiable
    | TooManyItems
    | PortalConnectionRequired
    | InternalError
    | LinkButtonNotPressed

  /** The twelve discriminants the enum declares. */
  const KnownCodes: set<u32> := {1, 2, 3, 4, 5, 6, 7, 8, 11, 12, 901, 101}

  /** Serialisation: the variant's discriminant. */
  function Encode(e: ErrorCode): (n: u32)
    ensures n in KnownCodes
  {
    match e
    case Unauthorized => 1
    case InvalidJson => 2
    case ResourceNotAvailable => 3
    case ResourceMethodNotAvailable => 4
    case ParameterMissing => 5
    case ParameterNotAvailable => 6
    case ParameterValue => 7
    case ParameterNotModifiable => 8
    case TooManyItems => 11
    case PortalConnectionRequired => 12
    case InternalError => 901
    case LinkButtonNotPressed => 101
  }

  /** Deserialisation: the variant with discriminant `n`, if there is one. */
  function Decode(n: u32): (r: Option<ErrorCode>)
    ensures r.Some? <==> n in KnownCodes
  {
    match n
    case 1 => Some(Unauthorized)
    case 2 => Some(InvalidJson)
    case 3 => Some(ResourceNotAvailable)
    case 4 => Some(ResourceMethodNotAvailable)
    case 5 => Some(ParameterMissing)
    case 6 => Some(ParameterNotAvailable)
    case 7 => Some(ParameterValue)
    case 8 => Some(ParameterNotModifiable)
    case 11 => Some(TooManyItems)
    case 12 => Some(PortalConnectionRequired)
    case 901 => Some(InternalError)
    case 101 => Some(LinkButtonNotPressed)
    case _ => None
  }

  /** The discriminant the enum declares for each variant. */
  lemma Discriminants()
    ensures Encode(Unauthorized) == 1 && Encode(InvalidJson) == 2
    ensures Encode(ResourceNotAvailable) == 3 && Encode(ResourceMethodNotAvailable) == 4
    ensures Encode(ParameterMissing) == 5 && Encode(ParameterNotAvailable) == 6
    ensures Encode(ParameterValue) == 7 && Encode(ParameterNotModifiable) == 8
    ensures Encode(TooManyItems) == 11 && Encode(PortalConnectionRequired) == 12
    ensures Encode(InternalError) == 901 && Encode(LinkButtonNotPressed) == 101
  {
  }

  /** Every variant decodes back from its own code. */
  lemma DecodeEncode(e: ErrorCode)
    ensures Decode(Encode(e)) == Some(e)
  {
  }

  /** Whatever decodes, encodes back to the same number. */
  lemma EncodeDecode(n: u32)
    requires Decode(n).Some?
    ensures Encode(Decode(n).value) == n
  {
  }

  /** No two variants share a code. */
  lemma EncodeInjective(e1: ErrorCode, e2: ErrorCode)
    requires Encode(e1) == Encode(e2)
    ensures e1 == e2
  {
    DecodeEncode(e1);
    DecodeEncode(e2);
  }

  /** There are exactly twelve codes, one per variant. */
  lemma CodeCount()
    ensures |KnownCodes| == 12
  {
  }

  /** Numbers in the gaps of the table do not decode. */
  lemma DecodeGaps()
    ensures Decode(0) == None && Decode(9) == None && Decode(10) == None
    ensures Decode(13) == None && Decode(100) == None && Decode(102) == None
  {
  }
}
