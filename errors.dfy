/** The errors that can reach the registration handler's `catch` (the
    runtime's `TypeError`, the schema's validation error and the database's
    duplicate-key error), with their `code` and `message`, and the paths of
    the doctor schema that a validation error names. */
module Errors {
  import opened DecimalText

  /** The top-level required paths of the doctor schema. */
  datatype Field =
    | FullName | Dob | Gender | ContactNumber | Email | Degree
    | LicenseNumber | IssuingAuthority | Fees | LicenseFile | Bio

  /** The required parts of an availability slot. */
  datatype SlotField = Day | From | To

  /** A path a validation error names: a top-level field, or a part of the
      slot at an index of `timingSlots`. */
  datatype Path = Top(field: Field) | InSlot(index: nat, part: SlotField)

  function FieldName(f: Field): string
  {
    match f
    case FullName => "fullName"
    case Dob => "dob"
    case Gender => "gender"
    case ContactNumber => "contactNumber"
    case Email => "email"
    case Degree => "degree"
    case LicenseNumber => "licenseNumber"
    case IssuingAuthority => "issuingAuthority"
    case Fees => "fees"
    case LicenseFile => "licenseFile"
    case Bio => "bio"
  }

  function SlotFieldName(part: SlotField): string
  {
    match part
    case Day => "day"
    case From => "from"
    case To => "to"
  }

  /** A path as the schema writes it, such as `email` or `timingSlots.0.day`. */
  function PathName(p: Path): string
  {
    match p
    case Top(f) => FieldName(f)
    case InSlot(i, part) => "timingSlots." + Decimal(i) + "." + SlotFieldName(part)
  }

  /** The errors that can reach the handler's `catch`. */
  datatype Error =
    | TypeError(message: string)       // thrown by the JavaScript runtime
    | ValidationError(paths: seq<Path>) // schema validation, one entry per failing path
    | DuplicateKey(index: string)      // the database's unique-index violation

  const DuplicateKeyCode := 11000

  /** The `code` property of an error: only the database's duplicate-key
      error carries one. */
  function Code(e: Error): (c: int)
    ensures c == DuplicateKeyCode <==> e.DuplicateKey?
  {
    if e.DuplicateKey? then DuplicateKeyCode else 0
  }

  /** The `message` property of an error. The texts of the validation and
      duplicate-key errors are representative of the libraries' wording: the
      database's message goes on to quote the duplicated key, which no reply
      shows, since the handler replaces it with a fixed text. */
  function Message(e: Error): string
  {
    match e
    case TypeError(m) => m
    case ValidationError(paths) => "Doctor validation failed: " + RequiredList(paths)
    case DuplicateKey(index) => "E11000 duplicate key error collection: doctorDB.doctors index: " + index + "_1"
  }

  function RequiredList(paths: seq<Path>): string
  {
    if paths == [] then ""
    else
      var name := PathName(paths[0]);
      var entry := name + ": Path `" + name + "` is required.";
      if |paths| == 1 then entry else entry + ", " + RequiredList(paths[1..])
  }

  /** The runtime's message for reading property `prop` of `undefined`. */
  function ReadOfUndefined(prop: string): Error
  {
    TypeError("Cannot read properties of undefined (reading '" + prop + "')")
  }
}
