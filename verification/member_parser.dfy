/**
 * Member declarations of a message file: `<type> <name> [<default>]`.
 *
 * The type and name parsers and the non-integer literal parsers are the
 * `Grammar` fields; the line structure, the default's validation against the
 * member type and the arity rules are modelled here.
 */
module MemberParser {
  import opened Wrappers
  import opened Primitives
  import opened MemberTypes
  import opened Messages
  import opened ParseErrors
  import opened SubParsers

  /** Only basic types and strings have literals; named and namespaced types take no default. */
  predicate HasLiteral(t: NestableType) {
    t.BasicType? || t.GenericString?
  }

  /** The literal parser for one value of type `t`. */
  function ScalarLiteral(g: Grammar, t: NestableType, d: string): Option<Parsed<string>> {
    match t
    case BasicType(b) => BasicLiteral(g, b, d)
    case GenericString(s) => g.stringLiteral(s, d)
    case _ => None
    }

  /** The literal parser for a bracketed list of values of element type `t`. */
  function ListLiteral(g: Grammar, t: NestableType, d: string): Option<Parsed<seq<string>>> {
    match t
    case BasicType(b) => g.basicSequence(b, d)
    case GenericString(_) => g.stringSequence(d)
    case _ => None
  }

  /** The values `d` spells for member type `m` when its literal parser takes all of `d`. */
  function WholeValues(g: Grammar, m: MemberType, d: string): Option<seq<string>> {
    if m.NestableType? then
      var p := ScalarLiteral(g, m.nestable, d);
      if p.Some? && p.value.rest == [] then Some([p.value.value]) else None
    else
      var p := ListLiteral(g, ValueType(m), d);
      if p.Some? && p.value.rest == [] then Some(p.value.value) else None
  }

  /**
   * How many default values a member type admits: one for a plain type,
   * exactly the size for an array, at most the bound for a bounded sequence,
   * any number for a sequence.
   */
  predicate ArityOk(m: MemberType, n: nat) {
    match m
    case NestableType(_) => n == 1
    case Array(a) => n == a.size
    case Sequence(_) => true
    case BoundedSequence(b) => n <= b.maxSize
  }

  /** Default of a non-container member: one literal that takes the whole text. */
  function NestableTypeDefault(g: Grammar, t: NestableType, d: string): (r: Result<seq<string>, ParseError>)
    ensures !HasLiteral(t) ==> r == Err(InvalidDefaultError(t))
    ensures HasLiteral(t) && ScalarLiteral(g, t, d).None? ==> r == Err(ParseDefaultValueError(d))
    ensures r.Ok? <==> WholeValues(g, MemberType.NestableType(t), d).Some?
    ensures r.Ok? ==> r.value == WholeValues(g, MemberType.NestableType(t), d).value && |r.value| == 1
  {
    if !HasLiteral(t) then Err(InvalidDefaultError(t))
    else
      match ScalarLiteral(g, t, d)
      case None => Err(ParseDefaultValueError(d))
      case Some(p) => if p.rest != [] then Err(ConditionFailed(RestIsEmpty)) else Ok([p.value])
  }

  /** Default of a container member: one list literal that takes the whole text. */
  function ArrayTypeDefault(g: Grammar, t: NestableType, d: string): (r: Result<seq<string>, ParseError>)
    ensures !HasLiteral(t) ==> r == Err(InvalidDefaultError(t))
    ensures HasLiteral(t) && ListLiteral(g, t, d).None? ==> r == Err(ParseDefaultValueError(d))
    ensures r.Ok? <==> ListLiteral(g, t, d).Some? && ListLiteral(g, t, d).value.rest == []
    ensures r.Ok? ==> r.value == ListLiteral(g, t, d).value.value
  {
    if !HasLiteral(t) then Err(InvalidDefaultError(t))
    else
      match ListLiteral(g, t, d)
      case None => Err(ParseDefaultValueError(d))
      case Some(p) => if p.rest != [] then Err(ConditionFailed(RestIsEmpty)) else Ok(p.value)
  }

  /** The default text of a member is checked against the member's type. */
  function ValidateDefault(g: Grammar, m: MemberType, d: string): (r: Result<seq<string>, ParseError>)
    ensures !HasLiteral(ValueType(m)) ==> r == Err(InvalidDefaultError(ValueType(m)))
    ensures r.Ok? <==> WholeValues(g, m, d).Some? && ArityOk(m, |WholeValues(g, m, d).value|)
    ensures r.Ok? ==> r.value == WholeValues(g, m, d).value
    ensures WholeValues(g, m, d).Some? && !ArityOk(m, |WholeValues(g, m, d).value|) ==>
      r == Err(ConditionFailed(if m.Array? then LengthIsSize else LengthWithinMaxSize))
  {
    match m
    case NestableType(t) => NestableTypeDefault(g, t, d)
    case Array(a) =>
      var r :- ArrayTypeDefault(g, a.valueType, d);
      if |r| != a.size then Err(ConditionFailed(LengthIsSize)) else Ok(r)
    case Sequence(s) => ArrayTypeDefault(g, s.valueType, d)
    case BoundedSequence(b) =>
      var r :- ArrayTypeDefault(g, b.valueType, d);
      if |r| > b.maxSize then Err(ConditionFailed(LengthWithinMaxSize)) else Ok(r)
  }

  /** The part of a member line before the default: `<type>`, at least one blank, `<name>`. */
  function MemberHead(g: Grammar, line: string): Option<(MemberType, string, string)> {
    match g.memberType(line)
    case None => None
    case Some(t) =>
      var b := BlankEnd(t.rest, 0);
      if b == 0 then None
      else
        match g.memberName(t.rest[b..])
        case None => None
        case Some(n) => Some((t.value, n.value, n.rest))
  }

  /** Parses one member line. */
  function MemberDef(g: Grammar, line: string): (r: Result<Member, ParseError>)
    ensures MemberHead(g, line).None? ==> r == Err(ParseMemberError(line))
    ensures r.Ok? ==>
      && MemberHead(g, line).Some?
      && var (t, name, rest) := MemberHead(g, line).value;
      && r.value.memberType == t && r.value.name == name
      && (r.value.default.None? <==> AllBlank(rest))
    ensures r.Ok? && r.value.default.Some? ==>
      HasLiteral(ValueType(r.value.memberType)) && ArityOk(r.value.memberType, |r.value.default.value|)
    ensures MemberHead(g, line).Some? && MemberTail(MemberHead(g, line).value.2).None? ==>
      r == Err(ParseMemberError(line))
    ensures (MemberHead(g, line).Some? && MemberTail(MemberHead(g, line).value.2).Some? &&
             MemberTail(MemberHead(g, line).value.2).value.Some?) ==>
      var (t, name, rest) := MemberHead(g, line).value;
      var v := ValidateDefault(g, t, MemberTail(rest).value.value);
      && (r.Ok? <==> v.Ok?)
      && (r.Ok? ==> r.value == Member(name, t, Some(v.value)))
      && (r.Err? ==> r.error == v.error)
  {
    match MemberHead(g, line)
    case None => Err(ParseMemberError(line))
    case Some((t, name, rest)) =>
      match MemberTail(rest)
      case None => Err(ParseMemberError(line))
      case Some(None) => Ok(Member(name, t, None))
      case Some(Some(d)) =>
        var values :- ValidateDefault(g, t, d);
        Ok(Member(name, t, Some(values)))
  }

  /** A member line without a default text is accepted. */
  lemma MemberDefNoDefault(g: Grammar, line: string)
    requires MemberHead(g, line).Some? && AllBlank(MemberHead(g, line).value.2)
    ensures var (t, name, _) := MemberHead(g, line).value;
      MemberDef(g, line) == Ok(Member(name, t, None))
  {
  }

  /**
   * A member line whose default text (after at least one blank, with blanks
   * only after it) spells values the type admits is accepted with those values.
   */
  lemma MemberDefWithDefault(g: Grammar, line: string, lead: string, v: string, trail: string)
    requires MemberHead(g, line).Some? && MemberHead(g, line).value.2 == lead + v + trail
    requires lead != [] && AllBlank(lead) && AllBlank(trail)
    requires v != [] && !IsBlank(v[0]) && !IsBlank(v[|v| - 1])
    requires var t := MemberHead(g, line).value.0;
      WholeValues(g, t, v).Some? && ArityOk(t, |WholeValues(g, t, v).value|)
    ensures var (t, name, _) := MemberHead(g, line).value;
      MemberDef(g, line) == Ok(Member(name, t, Some(WholeValues(g, t, v).value)))
  {
    MemberTailOf(lead, v, trail);
  }

  /** An integer member's default is accepted exactly when it is decimal integer text within the type's range. */
  lemma IntegerDefaultRange(g: Grammar, b: BasicType, d: string)
    requires IsInteger(b)
    ensures ValidateDefault(g, FromBasic(b), d).Ok? <==> IsIntegerText(d) && InRange(b, IntegerTextValue(d))
    ensures ValidateDefault(g, FromBasic(b), d).Ok? ==> ValidateDefault(g, FromBasic(b), d).value == [d]
  {
    IntegerLiteralWhole(b, d);
  }

  /** A bounded sequence default holds at most its bound; a sequence default has no length limit. */
  lemma SequenceDefaultLengths(g: Grammar, t: NestableType, n: nat, d: string)
    requires ListLiteral(g, t, d).Some? && ListLiteral(g, t, d).value.rest == []
    ensures ValidateDefault(g, FromSequence(Sequence.Sequence(t)), d) == Ok(ListLiteral(g, t, d).value.value)
    ensures ValidateDefault(g, FromBoundedSequence(BoundedSequence.BoundedSequence(t, n)), d).Ok?
      <==> |ListLiteral(g, t, d).value.value| <= n
    ensures ValidateDefault(g, FromArray(Array.Array(t, n)), d).Ok?
      <==> |ListLiteral(g, t, d).value.value| == n
  {
  }

  /** `int32 aaa` is a member named `aaa` of type int32 without default. */
  lemma ParseMemberDefExample(g: Grammar)
    requires g.memberType("int32 aaa") == Some(Parsed(FromBasic(I32), " aaa"))
    requires g.memberName("aaa") == Some(Parsed("aaa", ""))
    ensures MemberDef(g, "int32 aaa") == Ok(Member("aaa", FromBasic(I32), None))
  {
    HeadExample(g, "int32 aaa", " aaa", FromBasic(I32), "aaa", "");
    MemberDefNoDefault(g, "int32 aaa");
  }

  /** `int32 aaa 30` has the default `["30"]`. */
  lemma ParseMemberDefWithDefaultExample(g: Grammar)
    requires g.memberType("int32 aaa 30") == Some(Parsed(FromBasic(I32), " aaa 30"))
    requires g.memberName("aaa 30") == Some(Parsed("aaa", " 30"))
    ensures MemberDef(g, "int32 aaa 30") == Ok(Member("aaa", FromBasic(I32), Some(["30"])))
  {
    HeadExample(g, "int32 aaa 30", " aaa 30", FromBasic(I32), "aaa 30", " 30");
    DecimalExample(g, I32, "30", 30);
    IntegerDefaultRange(g, I32, "30");
    assert ValidateDefault(g, FromBasic(I32), "30") == Ok(["30"]);
    assert WholeValues(g, FromBasic(I32), "30") == Some(["30"]);
    assert " 30" == " " + "30" + "";
    MemberDefWithDefault(g, "int32 aaa 30", " ", "30", "");
  }

  /** `uint8 aaa -1` is rejected: -1 is below the range of uint8. */
  lemma ParseMemberDefNegativeExample(g: Grammar)
    requires g.memberType("uint8 aaa -1") == Some(Parsed(FromBasic(U8), " aaa -1"))
    requires g.memberName("aaa -1") == Some(Parsed("aaa", " -1"))
    ensures MemberDef(g, "uint8 aaa -1").Err?
  {
    HeadExample(g, "uint8 aaa -1", " aaa -1", FromBasic(U8), "aaa -1", " -1");
    DecimalExample(g, U8, "-1", -1);
    assert " -1" == " " + "-1" + "";
    MemberTailOf(" ", "-1", "");
  }

  /** `uint8 aaa 256` is rejected: 256 is above the range of uint8. */
  lemma ParseMemberDefOverflowExample(g: Grammar)
    requires g.memberType("uint8 aaa 256") == Some(Parsed(FromBasic(U8), " aaa 256"))
    requires g.memberName("aaa 256") == Some(Parsed("aaa", " 256"))
    ensures MemberDef(g, "uint8 aaa 256").Err?
  {
    HeadExample(g, "uint8 aaa 256", " aaa 256", FromBasic(U8), "aaa 256", " 256");
    DecimalExample(g, U8, "256", 256);
    assert " 256" == " " + "256" + "";
    MemberTailOf(" ", "256", "");
  }

  /** The head of a member line whose type parser leaves one blank before the name. */
  lemma HeadExample(g: Grammar, line: string, afterType: string, t: MemberType, afterBlank: string, rest: string)
    requires g.memberType(line) == Some(Parsed(t, afterType))
    requires |afterType| > 1 && afterType[0] == ' ' && !IsBlank(afterType[1]) && afterType[1..] == afterBlank
    requires g.memberName(afterBlank) == Some(Parsed("aaa", rest))
    ensures MemberHead(g, line) == Some((t, "aaa", rest))
  {
    BlankEndAt(afterType, 0, 1);
  }

  /** The default text of the examples, read as an integer of type `b`. */
  lemma DecimalExample(g: Grammar, b: BasicType, d: string, v: int)
    requires IsInteger(b)
    requires (d == "30" && v == 30) || (d == "-1" && v == -1) || (d == "256" && v == 256)
    ensures IsIntegerText(d) && IntegerTextValue(d) == v
    ensures ValidateDefault(g, FromBasic(b), d).Ok? <==> InRange(b, v)
  {
    ExampleIntegerTexts();
    IntegerDefaultRange(g, b, d);
  }
}
