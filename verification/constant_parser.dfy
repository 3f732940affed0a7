/**
 * Constant declarations of a message file: `<type> <NAME>=<value>`.
 *
 * Unlike a member default, the value is mandatory, and a string array
 * constant's value count is not compared with the array size.
 */
module ConstantParser {
  import opened Wrappers
  import opened Primitives
  import opened ConstantTypes
  import opened Messages
  import opened ParseErrors
  import opened SubParsers

  /** The values `v` spells for constant type `t` when its literal parser takes all of `v`. */
  function ConstantValues(g: Grammar, t: ConstantType, v: string): Option<seq<string>> {
    match t
    case PrimitiveType(p) =>
      var q := match p
        case BasicType(b) => BasicLiteral(g, b, v)
        case GenericUnboundedString(u) => g.stringLiteral(FromUnbounded(u), v);
      if q.Some? && q.value.rest == [] then Some([q.value.value]) else None
    case PrimitiveArray(a) =>
      var q := match a.valueType
        case BasicType(b) => g.basicSequence(b, v)
        case GenericUnboundedString(_) => g.stringSequence(v);
      if q.Some? && q.value.rest == [] then Some(q.value.value) else None
  }

  /** A fixed-size array of a basic type: the only constant type whose value count is checked. */
  predicate IsBasicArray(t: ConstantType) {
    t.PrimitiveArray? && t.primitiveArray.valueType.BasicType?
  }

  /** The value text of a constant is checked against the constant's type. */
  function ValidateValue(g: Grammar, t: ConstantType, v: string): (r: Result<seq<string>, ParseError>)
    ensures r.Ok? <==>
      (ConstantValues(g, t, v).Some? && (IsBasicArray(t) ==> |ConstantValues(g, t, v).value| == t.primitiveArray.size))
    ensures r.Ok? ==> r.value == ConstantValues(g, t, v).value
    ensures r.Ok? && t.PrimitiveType? ==> |r.value| == 1
    ensures t.PrimitiveType? && t.primitive.BasicType? && BasicLiteral(g, t.primitive.basic, v).None? ==>
      r == Err(ParseConstantValueError(v))
    ensures IsBasicArray(t) && ConstantValues(g, t, v).Some? && |ConstantValues(g, t, v).value| != t.primitiveArray.size ==>
      r == Err(ConditionFailed(LengthIsSize))
  {
    match t
    case PrimitiveType(BasicType(b)) =>
      (match BasicLiteral(g, b, v)
       case None => Err(ParseConstantValueError(v))
       case Some(p) => if p.rest != [] then Err(ConditionFailed(RestIsEmpty)) else Ok([p.value]))
    case PrimitiveType(GenericUnboundedString(u)) =>
      (match g.stringLiteral(FromUnbounded(u), v)
       case None => Err(ParseDefaultValueError(v))
       case Some(p) => if p.rest != [] then Err(ConditionFailed(RestIsEmpty)) else Ok([p.value]))
    case PrimitiveArray(a) =>
      match a.valueType
      case BasicType(b) =>
        (match g.basicSequence(b, v)
         case None => Err(ParseDefaultValueError(v))
         case Some(p) =>
           if p.rest != [] then Err(ConditionFailed(RestIsEmpty))
           else if |p.value| != a.size then Err(ConditionFailed(LengthIsSize))
           else Ok(p.value))
      case GenericUnboundedString(_) =>
        (match g.stringSequence(v)
         case None => Err(ParseDefaultValueError(v))
         case Some(p) => if p.rest != [] then Err(ConditionFailed(RestIsEmpty)) else Ok(p.value))
  }

  /** An integer constant's value is accepted exactly when it is decimal integer text within the type's range. */
  lemma IntegerValueRange(g: Grammar, b: BasicType, v: string)
    requires IsInteger(b)
    ensures ValidateValue(g, ConstantTypes.FromBasic(b), v).Ok? <==> IsIntegerText(v) && InRange(b, IntegerTextValue(v))
    ensures ValidateValue(g, ConstantTypes.FromBasic(b), v).Ok? ==> ValidateValue(g, ConstantTypes.FromBasic(b), v).value == [v]
  {
    IntegerLiteralWhole(b, v);
  }

  /**
   * A string array constant takes whatever number of strings its literal
   * holds, whatever the declared size.
   */
  lemma StringArraySizeUnchecked(g: Grammar, u: GenericUnboundedString, size: nat, v: string, values: seq<string>)
    requires g.stringSequence(v) == Some(Parsed(values, ""))
    ensures ValidateValue(g, FromPrimitiveArray(PrimitiveArray.PrimitiveArray(PrimitiveType.GenericUnboundedString(u), size)), v) == Ok(values)
  {
  }

  /** The part of a constant line before `=`: `<type>`, at least one blank, `<NAME>`. */
  function ConstantHead(g: Grammar, line: string): Option<(ConstantType, string, string)> {
    match g.constantType(line)
    case None => None
    case Some(t) =>
      var b := BlankEnd(t.rest, 0);
      if b == 0 then None
      else
        match g.constantName(t.rest[b..])
        case None => None
        case Some(n) => Some((t.value, n.value, n.rest))
  }

  /** Parses one constant line. */
  function ConstantDef(g: Grammar, line: string): (r: Result<Constant, ParseError>)
    ensures ConstantHead(g, line).None? ==> r == Err(ParseConstantError(line))
    ensures ConstantHead(g, line).Some? && ConstantTail(ConstantHead(g, line).value.2).None? ==>
      r == Err(ParseConstantError(line))
    ensures r.Ok? ==>
      && ConstantHead(g, line).Some?
      && var (t, name, rest) := ConstantHead(g, line).value;
      && ConstantTail(rest).Some?
      && ConstantValues(g, t, ConstantTail(rest).value).Some?
      && r.value == Constant(name, t, ConstantValues(g, t, ConstantTail(rest).value).value)
    ensures (ConstantHead(g, line).Some? && ConstantTail(ConstantHead(g, line).value.2).Some?) ==>
      var (t, name, rest) := ConstantHead(g, line).value;
      var v := ValidateValue(g, t, ConstantTail(rest).value);
      && (r.Ok? <==> v.Ok?)
      && (r.Ok? ==> r.value == Constant(name, t, v.value))
      && (r.Err? ==> r.error == v.error)
  {
    match ConstantHead(g, line)
    case None => Err(ParseConstantError(line))
    case Some((t, name, rest)) =>
      match ConstantTail(rest)
      case None => Err(ParseConstantError(line))
      case Some(v) =>
        var values :- ValidateValue(g, t, v);
        Ok(Constant(name, t, values))
  }

  /** A constant line `<head> = <value>` whose value the type admits is accepted with that value. */
  lemma ConstantDefOf(g: Grammar, line: string, b1: string, b2: string, v: string, b3: string)
    requires ConstantHead(g, line).Some? && ConstantHead(g, line).value.2 == b1 + "=" + b2 + v + b3
    requires AllBlank(b1) && AllBlank(b2) && AllBlank(b3)
    requires v != [] && !IsBlank(v[0]) && !IsBlank(v[|v| - 1])
    requires ValidateValue(g, ConstantHead(g, line).value.0, v).Ok?
    ensures var (t, name, _) := ConstantHead(g, line).value;
      ConstantDef(g, line) == Ok(Constant(name, t, ValidateValue(g, t, v).value))
  {
    ConstantTailOf(b1, b2, v, b3);
  }

  /** `int32 AAA=30` is the constant `AAA` of type int32 with value `["30"]`. */
  lemma ParseConstantDefExample(g: Grammar, line: string, afterType: string, value: string)
    requires line == "int32 AAA=30" && afterType == " AAA=30" && value == "30"
    requires g.constantType(line) == Some(Parsed(ConstantTypes.FromBasic(I32), afterType))
    requires g.constantName("AAA=30") == Some(Parsed("AAA", "=30"))
    ensures ConstantDef(g, line) == Ok(Constant("AAA", ConstantTypes.FromBasic(I32), [value]))
  {
    ExampleHead(g, line, afterType);
    ExampleValue(g, value);
    assert "=30" == "" + "=" + "" + value + "";
    ConstantDefOf(g, line, "", "", value, "");
  }

  lemma ExampleHead(g: Grammar, line: string, afterType: string)
    requires afterType == " AAA=30"
    requires g.constantType(line) == Some(Parsed(ConstantTypes.FromBasic(I32), afterType))
    requires g.constantName("AAA=30") == Some(Parsed("AAA", "=30"))
    ensures ConstantHead(g, line) == Some((ConstantTypes.FromBasic(I32), "AAA", "=30"))
  {
    BlankEndAt(afterType, 0, 1);
    assert afterType[1..] == "AAA=30";
  }

  lemma ExampleValue(g: Grammar, value: string)
    requires value == "30"
    ensures ValidateValue(g, ConstantTypes.FromBasic(I32), value) == Ok([value])
  {
    ExampleIntegerTexts();
    IntegerValueRange(g, I32, value);
  }
}
