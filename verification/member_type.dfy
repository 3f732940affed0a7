/** The type of a message member and the `From` conversions into it. */
module MemberTypes {
  import opened Primitives

  /** A type which is available for a member: exactly these four shapes. */
  datatype MemberType =
    | NestableType(nestable: NestableType)
    | Array(fixedArray: Array)
    | Sequence(sequence: Sequence)
    | BoundedSequence(boundedSequence: BoundedSequence)

  /** The type of a single value of the member: itself, or the element type of its container. */
  function ValueType(m: MemberType): NestableType {
    match m
    case NestableType(t) => t
    case Array(a) => a.valueType
    case Sequence(s) => s.valueType
    case BoundedSequence(b) => b.valueType
  }

  function FromNestable(t: NestableType): MemberType { NestableType(t) }
  function FromArray(t: Array): MemberType { MemberType.Array(t) }
  function FromSequence(t: Sequence): MemberType { MemberType.Sequence(t) }
  function FromBoundedSequence(t: BoundedSequence): MemberType { MemberType.BoundedSequence(t) }
  function FromBasic(t: BasicType): MemberType { NestableType(NestableType.BasicType(t)) }
  function FromNamed(t: NamedType): MemberType { NestableType(NestableType.NamedType(t)) }
  function FromNamespaced(t: NamespacedType): MemberType { NestableType(NestableType.NamespacedType(t)) }
  function FromGenericString(t: GenericString): MemberType { NestableType(NestableType.GenericString(t)) }

  /** Every member type is the image of exactly one of the four wrapping conversions. */
  lemma MemberTypeVariants(m: MemberType)
    ensures || (m.NestableType? && m == FromNestable(m.nestable))
            || (m.Array? && m == FromArray(m.fixedArray))
            || (m.Sequence? && m == FromSequence(m.sequence))
            || (m.BoundedSequence? && m == FromBoundedSequence(m.boundedSequence))
  {
  }

  /** The container conversions keep the container unchanged, and so its element type. */
  lemma ContainerConversions(a: Array, s: Sequence, b: BoundedSequence)
    ensures FromArray(a).Array? && FromArray(a).fixedArray == a && ValueType(FromArray(a)) == a.valueType
    ensures FromSequence(s).Sequence? && FromSequence(s).sequence == s && ValueType(FromSequence(s)) == s.valueType
    ensures FromBoundedSequence(b).BoundedSequence? && FromBoundedSequence(b).boundedSequence == b
    ensures ValueType(FromBoundedSequence(b)) == b.valueType
  {
  }

  /** Each shortcut conversion is the `NestableType` conversion after the matching injection. */
  lemma NestableShortcuts(b: BasicType, n: NamedType, q: NamespacedType, g: GenericString)
    ensures FromBasic(b) == FromNestable(NestableType.BasicType(b))
    ensures FromNamed(n) == FromNestable(NestableType.NamedType(n))
    ensures FromNamespaced(q) == FromNestable(NestableType.NamespacedType(q))
    ensures FromGenericString(g) == FromNestable(NestableType.GenericString(g))
  {
  }
}
