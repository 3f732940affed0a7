/**
 * The nom building blocks the declaration parsers are made of.
 *
 * The type, identifier and literal parsers live in modules outside this
 * model; they are the fields of `Grammar`, a bundle of parser functions that
 * every declaration parser takes as a parameter.  A nom parser either fails
 * or returns the parsed value and the unconsumed rest of its input.
 *
 * What is given bodies here: the whitespace combinators (`space0`, `space1`,
 * `is_not(" \t")`, `separated_list1`), and the integer literal parser with
 * its range check per integer width.
 */
module SubParsers {
  import opened Wrappers
  import opened Primitives
  import opened MemberTypes
  import opened ConstantTypes

  datatype Parsed<T> = Parsed(value: T, rest: string)

  datatype Grammar = Grammar(
    memberType: string -> Option<Parsed<MemberType>>,
    constantType: string -> Option<Parsed<ConstantType>>,
    memberName: string -> Option<Parsed<string>>,
    constantName: string -> Option<Parsed<string>>,
    nonIntegerLiteral: (BasicType, string) -> Option<Parsed<string>>,
    stringLiteral: (GenericString, string) -> Option<Parsed<string>>,
    basicSequence: (BasicType, string) -> Option<Parsed<seq<string>>>,
    stringSequence: string -> Option<Parsed<seq<string>>>)

  // ---- whitespace: nom's space0 / space1 and is_not(" \t"), on positions of one input ----

  predicate IsBlank(c: char) {
    c == ' ' || c == '\t'
  }

  /** Every character of `s` from `lo` up to `hi` is a blank. */
  predicate BlanksIn(s: string, lo: int, hi: int) {
    forall k :: lo <= k < hi && 0 <= k < |s| ==> IsBlank(s[k])
  }

  predicate AllBlank(s: string) {
    BlanksIn(s, 0, |s|)
  }

  /** Where the run of blanks starting at `i` ends (what `space0` consumes). */
  function BlankEnd(s: string, i: nat): (k: nat)
    requires i <= |s|
    ensures i <= k <= |s| && BlanksIn(s, i, k)
    ensures k < |s| ==> !IsBlank(s[k])
    decreases |s| - i
  {
    if i == |s| || !IsBlank(s[i]) then i else BlankEnd(s, i + 1)
  }

  /** Where the run of non-blanks starting at `i` ends (what `is_not(" \t")` consumes). */
  function WordEnd(s: string, i: nat): (k: nat)
    requires i <= |s|
    ensures i <= k <= |s|
    ensures forall m :: i <= m < k ==> !IsBlank(s[m])
    ensures k < |s| ==> IsBlank(s[k])
    decreases |s| - i
  {
    if i == |s| || IsBlank(s[i]) then i else WordEnd(s, i + 1)
  }

  /**
   * Where `recognize(separated_list1(space1, is_not(" \t")))` started at `i`
   * stops: words separated by blanks, up to and including the last word, so
   * that only blanks remain.
   */
  function WordsEnd(s: string, i: nat): (k: nat)
    requires i < |s| && !IsBlank(s[i])
    ensures i < k <= |s| && !IsBlank(s[k - 1]) && BlanksIn(s, k, |s|)
    decreases |s| - i
  {
    var w := WordEnd(s, i);
    var b := BlankEnd(s, w);
    if b < |s| then WordsEnd(s, b) else w
  }

  /** A run of blanks cannot extend past a non-blank character. */
  lemma {:induction false} BlankEndStops(s: string, i: nat, k: nat)
    requires i <= k < |s| && !IsBlank(s[k])
    ensures BlankEnd(s, i) <= k
    decreases |s| - i
  {
    if i < k && IsBlank(s[i]) {
      BlankEndStops(s, i + 1, k);
    }
  }

  /** A run of blanks reaching the end of the input ends there. */
  lemma {:induction false} BlankEndAll(s: string, i: nat)
    requires i <= |s| && BlanksIn(s, i, |s|)
    ensures BlankEnd(s, i) == |s|
    decreases |s| - i
  {
    if i < |s| {
      BlankEndAll(s, i + 1);
    }
  }

  /** A run of non-blanks cannot extend past a blank character. */
  lemma {:induction false} WordEndStops(s: string, i: nat, k: nat)
    requires i <= k < |s| && IsBlank(s[k])
    ensures WordEnd(s, i) <= k
    decreases |s| - i
  {
    if i < k && !IsBlank(s[i]) {
      WordEndStops(s, i + 1, k);
    }
  }

  /** `WordsEnd` stops exactly after the last non-blank when only blanks follow it. */
  lemma {:induction false} WordsEndAt(s: string, i: nat, e: nat)
    requires i < e <= |s| && !IsBlank(s[i]) && !IsBlank(s[e - 1]) && BlanksIn(s, e, |s|)
    ensures WordsEnd(s, i) == e
    decreases |s| - i
  {
    var w := WordEnd(s, i);
    if e < |s| {
      WordEndStops(s, i, e);
    }
    if w == e {
      BlankEndAll(s, e);
    } else {
      BlankEndStops(s, w, e - 1);
      WordsEndAt(s, BlankEnd(s, w), e);
    }
  }

  /**
   * The remainder of a member line after the member name:
   * `opt(preceded(space1, words)), space0, eof`.  `None` is a parse
   * failure; `Some(None)` means no default; `Some(Some(v))` is the default text.
   */
  function MemberTail(r: string): (d: Option<Option<string>>)
    ensures d == Some(None) <==> AllBlank(r)
    ensures d.None? <==> r != [] && !IsBlank(r[0])
    ensures d.Some? && d.value.Some? ==>
      var v := d.value.value;
      var b := BlankEnd(r, 0);
      && 0 < b && b + |v| <= |r| && r[b..b + |v|] == v && BlanksIn(r, b + |v|, |r|)
      && v != [] && !IsBlank(v[0]) && !IsBlank(v[|v| - 1])
  {
    var b := BlankEnd(r, 0);
    if 0 < b < |r| then
      Some(Some(r[b..WordsEnd(r, b)]))
    else if b == |r| then
      Some(None)
    else
      None
  }

  /**
   * The remainder of a constant line after the constant name:
   * `space0, char('='), space0, words, space0, eof`; the value is mandatory.
   */
  function ConstantTail(r: string): (d: Option<string>)
    ensures var i := BlankEnd(r, 0);
      d.None? <==> !(i < |r| && r[i] == '=' && BlankEnd(r, i + 1) < |r|)
    ensures d.Some? ==>
      var v := d.value;
      var i := BlankEnd(r, 0);
      var j := BlankEnd(r, i + 1);
      && i < |r| && r[i] == '=' && j + |v| <= |r| && r[j..j + |v|] == v && BlanksIn(r, j + |v|, |r|)
      && v != [] && !IsBlank(v[0]) && !IsBlank(v[|v| - 1])
  {
    var i := BlankEnd(r, 0);
    if i < |r| && r[i] == '=' then
      var j := BlankEnd(r, i + 1);
      if j < |r| then Some(r[j..WordsEnd(r, j)]) else None
    else
      None
  }

  /** The run of blanks from `i` ends at `k` when blanks fill `i..k` and `k` is the end or a non-blank. */
  lemma {:induction false} BlankEndAt(s: string, i: nat, k: nat)
    requires i <= k <= |s| && BlanksIn(s, i, k) && (k < |s| ==> !IsBlank(s[k]))
    ensures BlankEnd(s, i) == k
    decreases |s| - i
  {
    if i < k {
      BlankEndAt(s, i + 1, k);
    }
  }

  /** A member tail written as blanks, a default text and blanks gives that default back. */
  lemma MemberTailOf(lead: string, v: string, trail: string)
    requires lead != [] && AllBlank(lead) && AllBlank(trail)
    requires v != [] && !IsBlank(v[0]) && !IsBlank(v[|v| - 1])
    ensures MemberTail(lead + v + trail) == Some(Some(v))
  {
    var r := lead + v + trail;
    var e := |lead| + |v|;
    assert r[|lead|] == v[0] && r[e - 1] == v[|v| - 1];
    BlankEndAt(r, 0, |lead|);
    WordsEndAt(r, |lead|, e);
    assert r[|lead|..e] == v;
  }

  /** A constant tail written as `blanks = blanks value blanks` gives the value back. */
  lemma ConstantTailOf(b1: string, b2: string, v: string, b3: string)
    requires AllBlank(b1) && AllBlank(b2) && AllBlank(b3)
    requires v != [] && !IsBlank(v[0]) && !IsBlank(v[|v| - 1])
    ensures ConstantTail(b1 + "=" + b2 + v + b3) == Some(v)
  {
    var tail := v + b3;
    var r := b1 + ("=" + (b2 + tail));
    assert r == b1 + "=" + b2 + v + b3;
    var j := |b1| + 1 + |b2|;
    var e := j + |v|;
    assert BlanksIn(r, 0, |b1|) by {
      forall k | 0 <= k < |b1| ensures r[k] == b1[k] { }
    }
    assert r[|b1|] == '=';
    BlankEndAt(r, 0, |b1|);
    assert BlanksIn(r, |b1| + 1, j) by {
      forall k | |b1| + 1 <= k < j ensures r[k] == b2[k - |b1| - 1] { }
    }
    assert BlanksIn(r, e, |r|) by {
      forall k | e <= k < |r| ensures r[k] == b3[k - e] { }
    }
    assert r[j..] == tail;
    assert r[j] == v[0] && r[e - 1] == v[|v| - 1];
    BlankEndAt(r, |b1| + 1, j);
    WordsEndAt(r, j, e);
    assert r[j..e] == v;
  }

  // ---- integer literals ----

  predicate IsDigit(c: char) {
    '0' <= c <= '9'
  }

  predicate AllDigits(s: string) {
    forall i :: 0 <= i < |s| ==> IsDigit(s[i])
  }

  /** Length of the leading run of decimal digits. */
  function DigitRun(s: string): (n: nat)
    ensures n <= |s| && AllDigits(s[..n])
    ensures n < |s| ==> !IsDigit(s[n])
  {
    if s == [] || !IsDigit(s[0]) then 0
    else
      var n := 1 + DigitRun(s[1..]);
      assert s[..n] == [s[0]] + s[1..][..n - 1];
      n
  }

  /** The value of a string of decimal digits. */
  function DigitsValue(d: string): nat
    requires AllDigits(d)
  {
    if d == [] then 0 else 10 * DigitsValue(d[..|d| - 1]) + (d[|d| - 1] as int - '0' as int)
  }

  /** Length of the optional leading sign. */
  function SignLen(s: string): nat {
    if s != [] && (s[0] == '-' || s[0] == '+') then 1 else 0
  }

  /** An optionally signed decimal integer, and nothing else. */
  predicate IsIntegerText(s: string) {
    SignLen(s) < |s| && AllDigits(s[SignLen(s)..])
  }

  function IntegerTextValue(s: string): int
    requires IsIntegerText(s)
  {
    var v: int := DigitsValue(s[SignLen(s)..]);
    if s[0] == '-' then -v else v
  }

  predicate InRange(t: BasicType, v: int)
    requires IsInteger(t)
  {
    MinValue(t) <= v <= MaxValue(t)
  }

  /**
   * The literal parser for an integer type: an optional sign and the longest
   * run of digits, whose value must fit the type.  The literal text is
   * returned as written.
   */
  function IntegerLiteral(t: BasicType, s: string): (r: Option<Parsed<string>>)
    requires IsInteger(t)
    ensures r.Some? ==> s == r.value.value + r.value.rest
    ensures r.Some? ==> IsIntegerText(r.value.value) && InRange(t, IntegerTextValue(r.value.value))
    ensures r.Some? ==> r.value.rest == [] || !IsDigit(r.value.rest[0])
  {
    var sign := SignLen(s);
    var n := DigitRun(s[sign..]);
    if n == 0 then None
    else
      var text := s[..sign + n];
      assert text[sign..] == s[sign..][..n];
      assert SignLen(text) == sign;
      if InRange(t, IntegerTextValue(text)) then
        assert s[sign + n..] == s[sign..][n..];
        Some(Parsed(text, s[sign + n..]))
      else None
  }

  /** A whole input is accepted by the integer literal parser exactly when it is integer text in range. */
  lemma IntegerLiteralWhole(t: BasicType, s: string)
    requires IsInteger(t)
    ensures (IntegerLiteral(t, s).Some? && IntegerLiteral(t, s).value.rest == [])
        <==> (IsIntegerText(s) && InRange(t, IntegerTextValue(s)))
    ensures IntegerLiteral(t, s).Some? && IntegerLiteral(t, s).value.rest == [] ==>
        IntegerLiteral(t, s).value.value == s
  {
    if IsIntegerText(s) {
      var sign := SignLen(s);
      var n := DigitRun(s[sign..]);
      assert n == |s| - sign;
      assert s[..sign + n] == s;
    }
  }

  /** The integer texts `30`, `-1` and `256` and their values. */
  lemma ExampleIntegerTexts()
    ensures IsIntegerText("30") && IntegerTextValue("30") == 30
    ensures IsIntegerText("-1") && IntegerTextValue("-1") == -1
    ensures IsIntegerText("256") && IntegerTextValue("256") == 256
  {
    assert "30"[0..] == "30" && "30"[..1] == "3" && "3"[..0] == "";
    assert DigitsValue("3") == 3;
    assert "-1"[1..] == "1" && "1"[..0] == "";
    assert DigitsValue("1") == 1;
    assert "256"[0..] == "256" && "256"[..2] == "25" && "25"[..1] == "2" && "2"[..0] == "";
    assert DigitsValue("2") == 2;
    assert DigitsValue("25") == 25;
  }

  /** The literal parser for any basic type: integers are checked here, the rest is external. */
  function BasicLiteral(g: Grammar, t: BasicType, s: string): Option<Parsed<string>> {
    if IsInteger(t) then IntegerLiteral(t, s) else g.nonIntegerLiteral(t, s)
  }
}
