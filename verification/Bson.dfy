/** The BSON values that the codecs of this package produce and accept. */
module Bson {

  type Byte = b: int | 0 <= b < 256

  // The 12 bytes of an ObjectID.
  type ObjectID = id: seq<Byte> | |id| == 12 witness [0, 0, 0, 0, 0, 0, 0, 0, 0, 0, 0, 0]

  datatype Kind = NullKind | UndefinedKind | DateTimeKind | StringKind | ObjectIDKind | OtherKind

  // The truncated ones are values whose bytes do not decode as their kind says.
  datatype Value =
    | Null
    | Undefined
    | DateTime(milliseconds: int)
    | Str(text: string)
    | Oid(id: ObjectID)
    | TruncatedDateTime
    | TruncatedString
    | TruncatedOid
    | Other
  {
    function Type(): Kind {
      match this
      case Null => NullKind
      case Undefined => UndefinedKind
      case DateTime(_) | TruncatedDateTime => DateTimeKind
      case Str(_) | TruncatedString => StringKind
      case Oid(_) | TruncatedOid => ObjectIDKind
      case Other => OtherKind
    }
  }
}
