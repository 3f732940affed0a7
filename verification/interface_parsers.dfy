/**
 * The message-file parser as seen by the service and action parsers: it
 * takes the package name, the message name and the message text.  Its
 * implementation lives outside this model, so it is a parameter.
 */
module MessageFiles {
  import opened Wrappers
  import opened Text
  import opened Messages
  import opened ParseErrors

  type MessageParser = (string, string, string) -> Result<Message, ParseError>

  /** The separator line between the blocks of a service or action file. */
  const Separator: string := "---\n"

  /** A message parser names its result after the package and name it is given. */
  ghost predicate NamesOutput(pm: MessageParser) {
    forall pkg, name, text :: pm(pkg, name, text).Ok? ==>
      pm(pkg, name, text).value.package == pkg && pm(pkg, name, text).value.name == name
  }

  lemma NamesOutputAt(pm: MessageParser, pkg: string, name: string, text: string)
    requires NamesOutput(pm) && pm(pkg, name, text).Ok?
    ensures pm(pkg, name, text).value.package == pkg && pm(pkg, name, text).value.name == name
  {
  }

  /** The separator can be found again unambiguously after the first block. */
  lemma SeparatorLastIsUnique()
    ensures LastIsUnique(Separator)
  {
    assert Separator[..3] == "---";
  }

  /** A block without `-` cannot hold a separator. */
  lemma NoDashNoSeparator(s: string)
    requires '-' !in s
    ensures !Contains(s, Separator)
  {
    forall i | 0 <= i && i + |Separator| <= |s| ensures !OccursAt(s, Separator, i) {
      assert s[i..i + 4][0] == s[i];
    }
  }
}

/** Service files: a request block and a response block separated by `---`. */
module ServiceParser {
  import opened Wrappers
  import opened Text
  import opened Messages
  import opened ParseErrors
  import opened Newlines
  import opened MessageFiles

  /**
   * Splits the text at the first separator; the request is the text before
   * it, the response everything after it (further separators included).
   */
  function ParseServiceString(pm: MessageParser, pkg: string, srv: string, text: string): (r: Result<Service, ParseError>)
    ensures !Contains(text, Separator) ==> r == Err(InvalidServiceSpecification(pkg, srv))
    ensures r.Ok? ==>
      && SplitOnce(text, Separator).Some?
      && var (req, resp) := SplitOnce(text, Separator).value;
      && pm(pkg, srv + "_Request", req).Ok? && pm(pkg, srv + "_Response", resp).Ok?
      && r.value == Service(pkg, srv, pm(pkg, srv + "_Request", req).value, pm(pkg, srv + "_Response", resp).value)
    ensures r.Ok? && NamesOutput(pm) ==>
      r.value.request.name == srv + "_Request" && r.value.response.name == srv + "_Response"
      && r.value.request.package == pkg && r.value.response.package == pkg
  {
    match SplitOnce(text, Separator)
    case None => Err(InvalidServiceSpecification(pkg, srv))
    case Some((req, resp)) =>
      var request :- pm(pkg, srv + "_Request", req);
      var response :- pm(pkg, srv + "_Response", resp);
      Ok(Service(pkg, srv, request, response))
  }

  /** A service file's content: CR LF line endings become LF; no final line feed is added. */
  function ParseServiceFile(pm: MessageParser, pkg: string, srv: string, content: string): (r: Result<Service, ParseError>)
    ensures '\r' !in content ==> r == ParseServiceString(pm, pkg, srv, content)
  {
    Dos2UnixNoCrIf(content);
    ParseServiceString(pm, pkg, srv, Dos2Unix(content))
  }

  lemma Dos2UnixNoCrIf(s: string)
    ensures '\r' !in s ==> Dos2Unix(s) == s
  {
    if '\r' !in s {
      Dos2UnixNoCr(s);
    }
  }

  /** A request block without separator, a separator and any response block parse back into those blocks. */
  lemma ServiceRoundTrip(pm: MessageParser, pkg: string, srv: string, req: string, resp: string)
    requires !Contains(req, Separator)
    requires pm(pkg, srv + "_Request", req).Ok? && pm(pkg, srv + "_Response", resp).Ok?
    ensures ParseServiceString(pm, pkg, srv, req + Separator + resp)
      == Ok(Service(pkg, srv, pm(pkg, srv + "_Request", req).value, pm(pkg, srv + "_Response", resp).value))
  {
    SeparatorLastIsUnique();
    SplitOnceJoin(req, Separator, resp);
  }

  /** A service file written with CR LF line endings parses like the same file written with LF. */
  lemma ServiceFileCrlf(pm: MessageParser, pkg: string, srv: string, lines: seq<string>)
    requires |lines| >= 1
    requires forall i :: 0 <= i < |lines| ==> '\r' !in lines[i]
    ensures ParseServiceFile(pm, pkg, srv, JoinLines(lines, "\r\n")) == ParseServiceString(pm, pkg, srv, JoinLines(lines, "\n"))
  {
    Dos2UnixCrlfLines(lines);
  }
}

/** Action files: goal, result and feedback blocks separated by two `---` lines. */
module ActionParser {
  import opened Wrappers
  import opened Text
  import opened Messages
  import opened ParseErrors
  import opened Newlines
  import opened MessageFiles

  /** The goal, result and feedback blocks: split at the first separator, then the rest at its first. */
  function ActionBlocks(t: string): (b: Option<(string, string, string)>)
    ensures b.None? <==> !Contains(t, Separator) || !Contains(SplitOnce(t, Separator).value.1, Separator)
    ensures b.Some? ==> t == b.value.0 + Separator + b.value.1 + Separator + b.value.2
    ensures b.Some? ==> !Contains(b.value.0, Separator) && !Contains(b.value.1, Separator)
  {
    match SplitOnce(t, Separator)
    case None => None
    case Some((goal, tail)) =>
      match SplitOnce(tail, Separator)
      case None => None
      case Some((result, feedback)) =>
        FirstBlockHasNoSeparator(t, goal, tail);
        FirstBlockHasNoSeparator(tail, result, feedback);
        Concat3(t, Separator, goal, tail, result, feedback);
        Some((goal, result, feedback))
  }

  /** Two consecutive splits put the three pieces back together. */
  lemma Concat3(t: string, sep: string, a: string, tail: string, b: string, c: string)
    requires t == a + sep + tail && tail == b + sep + c
    ensures t == a + sep + b + sep + c
  {
  }

  /** The text before the first separator holds no separator. */
  lemma FirstBlockHasNoSeparator(t: string, a: string, b: string)
    requires SplitOnce(t, Separator) == Some((a, b))
    ensures !Contains(a, Separator)
  {
    forall i | 0 <= i && i + |Separator| <= |a| ensures !OccursAt(a, Separator, i) {
      assert t[i..i + |Separator|] == a[i..i + |Separator|];
      assert !OccursAt(t, Separator, i);
    }
  }

  /** Splits a normalised text into the three blocks and parses each as a message. */
  function SplitAction(pm: MessageParser, pkg: string, name: string, t: string): (r: Result<Action, ParseError>)
    ensures ActionBlocks(t).None? ==> r == Err(InvalidActionSpecification)
    ensures r.Ok? ==>
      && ActionBlocks(t).Some?
      && var (goal, result, feedback) := ActionBlocks(t).value;
      && pm(pkg, name + "_Goal", goal).Ok? && pm(pkg, name + "_Result", result).Ok?
      && pm(pkg, name + "_Feedback", feedback).Ok?
      && r.value == Action(pkg, name, pm(pkg, name + "_Goal", goal).value,
                           pm(pkg, name + "_Result", result).value, pm(pkg, name + "_Feedback", feedback).value)
  {
    match ActionBlocks(t)
    case None => Err(InvalidActionSpecification)
    case Some((goal, result, feedback)) =>
      var g :- pm(pkg, name + "_Goal", goal);
      var r :- pm(pkg, name + "_Result", result);
      var f :- pm(pkg, name + "_Feedback", feedback);
      Ok(Action(pkg, name, g, r, f))
  }

  /** Normalises the line endings, then splits and parses the blocks. */
  function ParseActionString(pm: MessageParser, pkg: string, name: string, text: string): (r: Result<Action, ParseError>)
    ensures '\r' !in text && EndsWithNewline(text) ==> r == SplitAction(pm, pkg, name, text)
    ensures '\r' !in text && !EndsWithNewline(text) ==> r == SplitAction(pm, pkg, name, text + "\n")
  {
    NormalisedIf(text);
    SplitAction(pm, pkg, name, FixNewlines(text))
  }

  lemma NormalisedIf(text: string)
    ensures '\r' !in text ==> FixNewlines(text) == if EndsWithNewline(text) then text else text + "\n"
  {
    if '\r' !in text {
      Dos2UnixNoCr(text);
    }
  }

  /** An action file written with CR LF line endings parses like the same file written with LF. */
  lemma ActionFileCrlf(pm: MessageParser, pkg: string, name: string, lines: seq<string>)
    requires |lines| >= 1
    requires forall i :: 0 <= i < |lines| ==> '\r' !in lines[i]
    ensures ParseActionString(pm, pkg, name, JoinLines(lines, "\r\n"))
      == ParseActionString(pm, pkg, name, JoinLines(lines, "\n"))
  {
    Dos2UnixCrlfLines(lines);
    JoinLinesNoCr(lines);
    Dos2UnixNoCr(JoinLines(lines, "\n"));
  }

  /** With a message parser that names its output, the parsed action's messages carry the suffixed names. */
  lemma ActionMessageNames(pm: MessageParser, pkg: string, name: string, text: string)
    requires NamesOutput(pm)
    requires SplitAction(pm, pkg, name, text).Ok?
    ensures var a := SplitAction(pm, pkg, name, text).value;
      && a.goal.name == name + "_Goal" && a.result.name == name + "_Result"
      && a.feedback.name == name + "_Feedback"
      && a.goal.package == pkg && a.result.package == pkg && a.feedback.package == pkg
  {
    var (goal, result, feedback) := ActionBlocks(text).value;
    NamesOutputAt(pm, pkg, name + "_Goal", goal);
    NamesOutputAt(pm, pkg, name + "_Result", result);
    NamesOutputAt(pm, pkg, name + "_Feedback", feedback);
  }

  /** A text with only one separator is rejected. */
  lemma ActionNeedsTwoSeparators(pm: MessageParser, pkg: string, name: string, text: string)
    requires SplitOnce(text, Separator).Some?
    requires !Contains(SplitOnce(text, Separator).value.1, Separator)
    ensures SplitAction(pm, pkg, name, text) == Err(InvalidActionSpecification)
  {
  }

  /** Three blocks joined by separators parse back into those blocks. */
  lemma ActionRoundTrip(pm: MessageParser, pkg: string, name: string, goal: string, result: string, feedback: string)
    requires !Contains(goal, Separator) && !Contains(result, Separator)
    requires '\r' !in goal && '\r' !in result && '\r' !in feedback
    requires feedback == [] || EndsWithNewline(feedback)
    requires pm(pkg, name + "_Goal", goal).Ok? && pm(pkg, name + "_Result", result).Ok?
    requires pm(pkg, name + "_Feedback", feedback).Ok?
    ensures ParseActionString(pm, pkg, name, goal + Separator + result + Separator + feedback)
      == Ok(Action(pkg, name, pm(pkg, name + "_Goal", goal).value, pm(pkg, name + "_Result", result).value,
                   pm(pkg, name + "_Feedback", feedback).value))
  {
    var text := goal + Separator + result + Separator + feedback;
    assert text == goal + Separator + (result + Separator + feedback);
    assert '\r' !in text;
    Dos2UnixNoCr(text);
    assert EndsWithNewline(text);
    SeparatorLastIsUnique();
    SplitOnceJoin(goal, Separator, result + Separator + feedback);
    SplitOnceJoin(result, Separator, feedback);
  }

  /** A final separator without line feed is completed before splitting. */
  lemma ActionMissingFinalNewline(pm: MessageParser, pkg: string, name: string, t: string)
    requires '\r' !in t
    ensures ParseActionString(pm, pkg, name, t + "---") == ParseActionString(pm, pkg, name, t + Separator)
  {
    SeparatorCompleted(t);
    var fixed := FixNewlines(t + "---");
    assert fixed == FixNewlines(t + Separator);
  }

  /** A text ending in `---` without line feed normalises to the text with a full separator. */
  lemma SeparatorCompleted(t: string)
    requires '\r' !in t
    ensures FixNewlines(t + "---") == t + Separator == FixNewlines(t + Separator)
  {
    var text := t + "---";
    var fixed := t + Separator;
    assert fixed == text + "\n";
    assert '\r' !in text by {
      assert forall i :: 0 <= i < |text| ==> text[i] == if i < |t| then t[i] else '-';
    }
    assert '\r' !in fixed by {
      assert forall i :: 0 <= i < |fixed| ==> fixed[i] == if i < |text| then text[i] else '\n';
    }
    Dos2UnixNoCr(text);
    Dos2UnixNoCr(fixed);
    assert text[|text| - 1] == '-';
  }

  /**
   * The Fibonacci action file of the test suite (goal `int32 order`, result
   * and feedback `int32[] sequence`) splits into its three blocks, which are
   * parsed under the names the test expects.
   */
  lemma FibonacciExample(pm: MessageParser, goal: string, result: string)
    requires goal == "int32 order\n" && result == "int32[] sequence\n"
    requires NamesOutput(pm)
    requires pm("test_msgs", "Fibonacci_Goal", goal).Ok?
    requires pm("test_msgs", "Fibonacci_Result", result).Ok?
    requires pm("test_msgs", "Fibonacci_Feedback", result).Ok?
    ensures var r := ParseActionString(pm, "test_msgs", "Fibonacci", goal + Separator + result + Separator + result);
      && r.Ok? && r.value.package == "test_msgs" && r.value.name == "Fibonacci"
      && r.value.goal.name == "Fibonacci_Goal" && r.value.result.name == "Fibonacci_Result"
      && r.value.feedback.name == "Fibonacci_Feedback"
  {
    FibonacciBlocks(goal, result);
    NoDashNoSeparator(goal);
    NoDashNoSeparator(result);
    assert "Fibonacci" + "_Goal" == "Fibonacci_Goal" && "Fibonacci" + "_Result" == "Fibonacci_Result";
    assert "Fibonacci" + "_Feedback" == "Fibonacci_Feedback";
    ActionRoundTrip(pm, "test_msgs", "Fibonacci", goal, result, result);
    NamesOutputAt(pm, "test_msgs", "Fibonacci_Goal", goal);
    NamesOutputAt(pm, "test_msgs", "Fibonacci_Result", result);
    NamesOutputAt(pm, "test_msgs", "Fibonacci_Feedback", result);
  }

  lemma FibonacciBlocks(goal: string, result: string)
    requires goal == "int32 order\n" && result == "int32[] sequence\n"
    ensures '-' !in goal && '-' !in result
    ensures '\r' !in goal && '\r' !in result && EndsWithNewline(result)
  {
    assert '-' !in goal && '-' !in result;
  }
}
