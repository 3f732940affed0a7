/**
 * The primitive and container types that member and constant types are built
 * from (the `primitives` and `sequences` type modules of the msg-parse crate).
 * Integer types carry their value range, which the literal checks use.
 */
module Primitives {

  datatype BasicType = I8 | I16 | I32 | I64 | U8 | U16 | U32 | U64 | F32 | F64 | Char | Byte | Bool

  predicate IsInteger(t: BasicType) {
    t in {I8, I16, I32, I64, U8, U16, U32, U64}
  }

  /** Smallest value of an integer type. */
  function MinValue(t: BasicType): int
    requires IsInteger(t)
  {
    match t
    case I8 => -0x80
    case I16 => -0x8000
    case I32 => -0x8000_0000
    case I64 => -0x8000_0000_0000_0000
    case _ => 0
  }

  /** Largest value of an integer type. */
  function MaxValue(t: BasicType): int
    requires IsInteger(t)
  {
    match t
    case I8 => 0x7f
    case I16 => 0x7fff
    case I32 => 0x7fff_ffff
    case I64 => 0x7fff_ffff_ffff_ffff
    case U8 => 0xff
    case U16 => 0xffff
    case U32 => 0xffff_ffff
    case _ => 0xffff_ffff_ffff_ffff
  }

  /** `string` / `wstring` without a bound: the only string types a constant may have. */
  datatype GenericUnboundedString = UnboundedString | UnboundedWString

  /** Any string type, bounded (`string<=N`) or not. */
  datatype GenericString =
    | String
    | WString
    | BoundedString(maxSize: nat)
    | BoundedWString(maxSize: nat)

  /** The `From<GenericUnboundedString> for GenericString` conversion. */
  function FromUnbounded(t: GenericUnboundedString): GenericString {
    match t
    case UnboundedString => String
    case UnboundedWString => WString
  }

  /** A bare type name whose package is not known: `Name`. */
  datatype NamedType = NamedType(name: string)

  /** A qualified reference `package/namespace/Name`, never resolved here. */
  datatype NamespacedType = NamespacedType(package: string, namespace: string, name: string)

  /** A type that may stand alone or be the element of an array or sequence. */
  datatype NestableType =
    | BasicType(basic: BasicType)
    | NamedType(named: NamedType)
    | NamespacedType(namespaced: NamespacedType)
    | GenericString(str: GenericString)

  /** The element type of a constant. */
  datatype PrimitiveType =
    | BasicType(basic: BasicType)
    | GenericUnboundedString(ustr: GenericUnboundedString)

  /** `T[N]` */
  datatype Array = Array(valueType: NestableType, size: nat)

  /** `T[]` */
  datatype Sequence = Sequence(valueType: NestableType)

  /** `T[<=N]` */
  datatype BoundedSequence = BoundedSequence(valueType: NestableType, maxSize: nat)

  /** `T[N]` for a constant */
  datatype PrimitiveArray = PrimitiveArray(valueType: PrimitiveType, size: nat)
}
