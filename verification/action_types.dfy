/**
 * The services and message an action implies: SendGoal, GetResult and
 * FeedbackMessage, built from the action's package and name alone.
 */
module ActionTypes {
  import opened Wrappers
  import opened Primitives
  import opened MemberTypes
  import opened Messages
  import opened ParseErrors
  import opened MessageFiles
  import opened ActionParser

  const UuidType: NamespacedType := NamespacedType.NamespacedType("unique_identifier_msgs", "msg", "UUID")
  const TimeType: NamespacedType := NamespacedType.NamespacedType("builtin_interfaces", "msg", "Time")

  /** A generated message: in package `pkg`, without constants, every member without default. */
  predicate Generated(m: Message, pkg: string) {
    && m.package == pkg && m.constants == []
    && forall i :: 0 <= i < |m.members| ==> m.members[i].default.None?
  }

  function MemberNames(ms: seq<Member>): seq<string> {
    seq(|ms|, i requires 0 <= i < |ms| => ms[i].name)
  }

  /** The type `{package}/action/{name}{suffix}` of one of the action's own messages. */
  function ActionRef(a: Action, suffix: string): MemberType {
    FromNamespaced(NamespacedType.NamespacedType(a.package, "action", a.name + suffix))
  }

  /** The `goal_id` member shared by the derived messages. */
  function GoalIdType(): (m: Member)
    ensures m.name == "goal_id" && m.default.None? && m.memberType == FromNamespaced(UuidType)
  {
    Member("goal_id", FromNamespaced(UuidType), None)
  }

  function SendGoalSrv(a: Action): (s: Service)
    ensures s.package == a.package && s.name == a.name + "_SendGoal"
    ensures s.request.name == s.name + "_Request" && s.response.name == s.name + "_Response"
    ensures Generated(s.request, a.package) && Generated(s.response, a.package)
    ensures MemberNames(s.request.members) == ["goal_id", "goal"]
    ensures s.request.members[0] == GoalIdType() && s.request.members[1].memberType == ActionRef(a, "_Goal")
    ensures MemberNames(s.response.members) == ["accepted", "stamp"]
    ensures s.response.members[0].memberType == FromBasic(Bool)
    ensures s.response.members[1].memberType == FromNamespaced(TimeType)
  {
    var common := a.name + "_SendGoal";
    var request := Message(a.package, common + "_Request",
      [GoalIdType(), Member("goal", ActionRef(a, "_Goal"), None)], []);
    var response := Message(a.package, common + "_Response",
      [Member("accepted", FromBasic(Bool), None), Member("stamp", FromNamespaced(TimeType), None)], []);
    Service(a.package, common, request, response)
  }

  function GetResultSrv(a: Action): (s: Service)
    ensures s.package == a.package && s.name == a.name + "_GetResult"
    ensures s.request.name == s.name + "_Request" && s.response.name == s.name + "_Response"
    ensures Generated(s.request, a.package) && Generated(s.response, a.package)
    ensures s.request.members == [GoalIdType()]
    ensures MemberNames(s.response.members) == ["status", "result"]
    ensures s.response.members[0].memberType == FromBasic(I8)
    ensures s.response.members[1].memberType == ActionRef(a, "_Result")
  {
    var common := a.name + "_GetResult";
    var request := Message(a.package, common + "_Request", [GoalIdType()], []);
    var response := Message(a.package, common + "_Response",
      [Member("status", FromBasic(I8), None), Member("result", ActionRef(a, "_Result"), None)], []);
    Service(a.package, common, request, response)
  }

  function FeedbackMessageMsg(a: Action): (m: Message)
    ensures m.name == a.name + "_FeedbackMessage" && Generated(m, a.package)
    ensures MemberNames(m.members) == ["goal_id", "feedback"]
    ensures m.members[0] == GoalIdType() && m.members[1].memberType == ActionRef(a, "_Feedback")
  {
    Message(a.package, a.name + "_FeedbackMessage",
      [GoalIdType(), Member("feedback", ActionRef(a, "_Feedback"), None)], [])
  }

  /**
   * For an action read from a file, the derived messages refer to the
   * action's own goal, result and feedback messages by their parsed names.
   */
  lemma DerivedTypesReferToParsedMessages(pm: MessageParser, pkg: string, name: string, text: string)
    requires NamesOutput(pm)
    requires SplitAction(pm, pkg, name, text).Ok?
    ensures var a := SplitAction(pm, pkg, name, text).value;
      && SendGoalSrv(a).request.members[1].memberType == FromNamespaced(NamespacedType.NamespacedType(a.goal.package, "action", a.goal.name))
      && GetResultSrv(a).response.members[1].memberType == FromNamespaced(NamespacedType.NamespacedType(a.result.package, "action", a.result.name))
      && FeedbackMessageMsg(a).members[1].memberType == FromNamespaced(NamespacedType.NamespacedType(a.feedback.package, "action", a.feedback.name))
  {
    ActionMessageNames(pm, pkg, name, text);
  }

  /** The names of the ten types one action contributes to its package. */
  function ActionTypeNames(a: Action): seq<string> {
    [ a.name + "_Goal", a.name + "_Result", a.name + "_Feedback",
      SendGoalSrv(a).name, SendGoalSrv(a).request.name, SendGoalSrv(a).response.name,
      GetResultSrv(a).name, GetResultSrv(a).request.name, GetResultSrv(a).response.name,
      FeedbackMessageMsg(a).name ]
  }

  const Suffixes: seq<string> := [
    "_Goal", "_Result", "_Feedback",
    "_SendGoal", "_SendGoal_Request", "_SendGoal_Response",
    "_GetResult", "_GetResult_Request", "_GetResult_Response",
    "_FeedbackMessage" ]

  /** The ten type names of an action are pairwise distinct, so none shadows another. */
  lemma ActionTypeNamesDistinct(a: Action)
    ensures |ActionTypeNames(a)| == 10
    ensures forall i, j :: 0 <= i < j < 10 ==> ActionTypeNames(a)[i] != ActionTypeNames(a)[j]
  {
    var names := ActionTypeNames(a);
    assert a.name + "_SendGoal" + "_Request" == a.name + "_SendGoal_Request";
    assert a.name + "_SendGoal" + "_Response" == a.name + "_SendGoal_Response";
    assert a.name + "_GetResult" + "_Request" == a.name + "_GetResult_Request";
    assert a.name + "_GetResult" + "_Response" == a.name + "_GetResult_Response";
    assert forall i :: 0 <= i < 10 ==> names[i] == a.name + Suffixes[i];
    SuffixesDistinct();
    forall i, j | 0 <= i < j < 10 ensures names[i] != names[j] {
      PrefixCancels(a.name, Suffixes[i], Suffixes[j]);
    }
  }

  lemma SuffixesDistinct()
    ensures forall i, j :: 0 <= i < j < |Suffixes| ==> Suffixes[i] != Suffixes[j]
  {
  }

  lemma PrefixCancels(p: string, x: string, y: string)
    requires x != y
    ensures p + x != p + y
  {
    assert (p + x)[|p|..] == x && (p + y)[|p|..] == y;
  }
}
