/** The errors the parsers report (`RclMsgError` and the bare `ensure!` failures). */
module ParseErrors {
  import opened Primitives

  /** The condition of a failed `ensure!`. */
  datatype Condition = RestIsEmpty | LengthIsSize | LengthWithinMaxSize

  datatype ParseError =
    | ParseMemberError(input: string)
    | ParseConstantError(input: string)
    | ParseDefaultValueError(text: string)
    | ParseConstantValueError(text: string)
    | InvalidDefaultError(nestable: NestableType)
    | ConditionFailed(condition: Condition)
    | InvalidServiceSpecification(package: string, service: string)
    | InvalidActionSpecification
}
