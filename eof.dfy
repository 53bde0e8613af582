/**
 * The vocabulary of the EOF ("EVM Object Format") container validator:
 * bytes, container versions, section kinds and headers, and the closed
 * taxonomy of validation outcomes returned by `validate_eof`.
 */
module Eof {

  /** One byte of a container. */
  newtype uint8 = x: int | 0 <= x < 0x100

  datatype Option<+T> = None | Some(value: T)

  /** The two container versions the validator knows. */
  datatype Version = Eof1 | Eof2

  /** The outcome of validation: `Success` or the one rule that rejected. */
  datatype EofValidationError =
    | Success
    | InvalidPrefix
    | EofVersionUnknown
    | SectionHeadersNotTerminated
    | CodeSectionMissing
    | MultipleCodeSections
    | MultipleDataSections
    | ZeroSectionSize
    | UnknownSectionId
    | OddTableSectionSize
    | UndefinedInstruction
    | TruncatedPush
    | MissingImmediateArgument

  /** A phase either produces a value or rejects with a classified error. */
  datatype Result<+T> = Ok(value: T) | Err(error: EofValidationError)

  datatype SectionKind = Code | Data | Table

  /** A section header as declared in the header table: its kind and body size. */
  datatype SectionHeader = SectionHeader(kind: SectionKind, size: nat)

  /** The three magic bytes every container starts with. */
  const Magic: seq<uint8> := [0xEF, 0xCA, 0xFE]

  /** The section id byte that ends the header table. */
  const Terminator: uint8 := 0x00

  /** Largest size a 2-byte big-endian size field can declare. */
  const MaxSectionSize: nat := 0xFFFF

  predicate HasMagic(b: seq<uint8>)
  {
    |b| >= |Magic| && b[0] == Magic[0] && b[1] == Magic[1] && b[2] == Magic[2]
  }

  function VersionByte(v: Version): (r: uint8)
    ensures r != Terminator
  {
    match v
    case Eof1 => 0x01
    case Eof2 => 0x02
  }

  /** The version a version byte selects, if it is a known one. */
  function VersionOf(x: uint8): (r: Option<Version>)
    ensures r.Some? <==> x == 0x01 || x == 0x02
    ensures r.Some? ==> VersionByte(r.value) == x
  {
    if x == 0x01 then Some(Eof1) else if x == 0x02 then Some(Eof2) else None
  }

  /** The section id byte of each kind of section. */
  function KindId(k: SectionKind): (r: uint8)
    ensures r != Terminator
  {
    match k
    case Code => 0x01
    case Data => 0x02
    case Table => 0x03
  }
}
