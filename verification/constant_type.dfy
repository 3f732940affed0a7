/** The type of a constant and the `From` conversions into it. */
module ConstantTypes {
  import opened Primitives

  /** A type which is available for a constant: a primitive or a fixed-size primitive array. */
  datatype ConstantType =
    | PrimitiveType(primitive: PrimitiveType)
    | PrimitiveArray(primitiveArray: PrimitiveArray)

  function FromPrimitive(t: PrimitiveType): ConstantType { PrimitiveType(t) }
  function FromPrimitiveArray(t: PrimitiveArray): ConstantType { ConstantType.PrimitiveArray(t) }
  function FromBasic(t: BasicType): ConstantType { PrimitiveType(PrimitiveType.BasicType(t)) }
  function FromUnboundedString(t: GenericUnboundedString): ConstantType {
    PrimitiveType(PrimitiveType.GenericUnboundedString(t))
  }

  /**
   * Every constant type is a wrapped primitive or a wrapped fixed-size
   * primitive array, so no constant is typed as a (bounded) sequence and
   * no constant element is a named, namespaced or bounded-string type.
   */
  lemma ConstantTypeVariants(c: ConstantType)
    ensures || (c.PrimitiveType? && c == FromPrimitive(c.primitive))
            || (c.PrimitiveArray? && c == FromPrimitiveArray(c.primitiveArray))
  {
  }

  /** The shortcut conversions go through `PrimitiveType`. */
  lemma PrimitiveShortcuts(b: BasicType, u: GenericUnboundedString)
    ensures FromBasic(b) == FromPrimitive(PrimitiveType.BasicType(b))
    ensures FromUnboundedString(u) == FromPrimitive(PrimitiveType.GenericUnboundedString(u))
  {
  }
}
