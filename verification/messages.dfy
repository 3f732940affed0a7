/** The assembled records: members, constants, messages, services and actions. */
module Messages {
  import opened Wrappers
  import opened MemberTypes
  import opened ConstantTypes

  /** A member of a structure; `default` holds one literal per element. */
  datatype Member = Member(name: string, memberType: MemberType, default: Option<seq<string>>)

  /** A constant definition; its value is mandatory. */
  datatype Constant = Constant(name: string, constantType: ConstantType, value: seq<string>)

  /** A message: members in source order (their order is the struct layout) and constants. */
  datatype Message = Message(package: string, name: string, members: seq<Member>, constants: seq<Constant>)

  datatype Service = Service(package: string, name: string, request: Message, response: Message)

  datatype Action = Action(package: string, name: string, goal: Message, result: Message, feedback: Message)
}
