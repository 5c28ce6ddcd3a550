/**
  The tags of ASN.1: the identifier octet of section 8.1.2 of X.690, computed from class, form and
  number, and the universal numbers of section 8 of X.680.
 */
module Asn1 {
  import opened Octets

  datatype TagClass = Universal | Application | ContextSpecific | Private

  datatype UniversalType =
    | Boolean
    | Integer
    | OctetString
    | ObjectIdentifier
    | Utf8String
    | Sequence
    | Set
    | NumericString
    | PrintableString
    | TeletexString
    | Ia5String
    | BmpString

  function UniversalNumber(t: UniversalType): nat {
    match t
    case Boolean => 1
    case Integer => 2
    case OctetString => 4
    case ObjectIdentifier => 6
    case Utf8String => 12
    case Sequence => 16
    case Set => 17
    case NumericString => 18
    case PrintableString => 19
    case TeletexString => 20
    case Ia5String => 22
    case BmpString => 30
  }

  function ClassBits(class_: TagClass): nat {
    match class_
    case Universal => 0
    case Application => 1
    case ContextSpecific => 2
    case Private => 3
  }

  /** Class in the two high bits, form in the next, then a number below 31. */
  function IdentifierOctet(class_: TagClass, constructed: bool, number: nat): byte
    requires number < 31
  {
    64 * ClassBits(class_) + (if constructed then 32 else 0) + number
  }

  /** DER writes a SEQUENCE and a SET constructed, and the other types here primitive. */
  function TypeOctet(t: UniversalType): byte {
    IdentifierOctet(Universal, t.Sequence? || t.Set?, UniversalNumber(t))
  }

  function ContextOctet(constructed: bool, number: nat): byte
    requires number < 31
  {
    IdentifierOctet(ContextSpecific, constructed, number)
  }

  /** The string types an attribute value may have, by their tag. */
  function StringTypeOf(tag: byte): Option<UniversalType> {
    if tag == TypeOctet(Utf8String) then Some(Utf8String)
    else if tag == TypeOctet(NumericString) then Some(NumericString)
    else if tag == TypeOctet(PrintableString) then Some(PrintableString)
    else if tag == TypeOctet(TeletexString) then Some(TeletexString)
    else if tag == TypeOctet(Ia5String) then Some(Ia5String)
    else if tag == TypeOctet(BmpString) then Some(BmpString)
    else None
  }
}
