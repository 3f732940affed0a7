/** Line-ending normalisation of interface files. */
module Newlines {
  import opened Text

  /** `s` ends with a line feed. */
  predicate EndsWithNewline(s: string) {
    s != [] && s[|s| - 1] == '\n'
  }

  /** Lines joined with a separator string. */
  function JoinLines(lines: seq<string>, sep: string): string
    requires |lines| >= 1
  {
    if |lines| == 1 then lines[0] else lines[0] + sep + JoinLines(lines[1..], sep)
  }

  /**
   * Every CR LF pair becomes a single LF, scanning from the left; every other
   * character is kept.  (`dos2unix`, and `str::replace("\r\n", "\n")`.)
   */
  function Dos2Unix(s: string): (r: string)
    ensures |r| <= |s|
    ensures EndsWithNewline(r) <==> EndsWithNewline(s)
    ensures |r| == |s| <==> !Contains(s, "\r\n")
  {
    if |s| >= 2 && s[0] == '\r' && s[1] == '\n' then
      var r := "\n" + Dos2Unix(s[2..]);
      assert OccursAt(s, "\r\n", 0);
      r
    else if s == [] then
      []
    else
      var r := [s[0]] + Dos2Unix(s[1..]);
      ContainsShift(s);
      r
  }

  /** When `s` does not start with CR LF, its occurrences of CR LF are those of `s[1..]`, shifted by one. */
  lemma ContainsShift(s: string)
    requires s != [] && !(|s| >= 2 && s[0] == '\r' && s[1] == '\n')
    ensures Contains(s, "\r\n") <==> Contains(s[1..], "\r\n")
  {
    if Contains(s, "\r\n") {
      var i :| 0 <= i <= |s| && OccursAt(s, "\r\n", i);
      assert s[i..i + 2] == s[1..][i - 1..i + 1];
      assert OccursAt(s[1..], "\r\n", i - 1);
    }
    if Contains(s[1..], "\r\n") {
      var i :| 0 <= i <= |s[1..]| && OccursAt(s[1..], "\r\n", i);
      assert s[1..][i..i + 2] == s[i + 1..i + 3];
      assert OccursAt(s, "\r\n", i + 1);
    }
  }

  /** A text without carriage returns is left unchanged. */
  lemma {:induction false} Dos2UnixNoCr(s: string)
    requires '\r' !in s
    ensures Dos2Unix(s) == s
  {
    if s != [] {
      assert s[0] != '\r';
      assert '\r' !in s[1..];
      Dos2UnixNoCr(s[1..]);
    }
  }

  /** A text without any CR LF pair is left unchanged. */
  lemma {:induction false} Dos2UnixNoCrlf(s: string)
    requires !Contains(s, "\r\n")
    ensures Dos2Unix(s) == s
  {
    if s != [] {
      if |s| >= 2 {
        assert !OccursAt(s, "\r\n", 0);
        assert s[0..2] == [s[0], s[1]];
      }
      ContainsShift(s);
      Dos2UnixNoCrlf(s[1..]);
    }
  }

  lemma {:induction false} Dos2UnixAppend(a: string, b: string)
    requires '\r' !in a
    ensures Dos2Unix(a + b) == a + Dos2Unix(b)
  {
    if a != [] {
      assert (a + b)[1..] == a[1..] + b;
      assert '\r' !in a[1..];
      Dos2UnixAppend(a[1..], b);
    } else {
      assert a + b == b;
    }
  }

  /** Lines joined with CR LF come out joined with LF, provided the lines hold no carriage return. */
  lemma {:induction false} Dos2UnixCrlfLines(lines: seq<string>)
    requires |lines| >= 1
    requires forall i :: 0 <= i < |lines| ==> '\r' !in lines[i]
    ensures Dos2Unix(JoinLines(lines, "\r\n")) == JoinLines(lines, "\n")
  {
    if |lines| == 1 {
      Dos2UnixNoCr(lines[0]);
    } else {
      var rest := JoinLines(lines[1..], "\r\n");
      assert lines[0] + "\r\n" + rest == lines[0] + ("\r\n" + rest);
      Dos2UnixAppend(lines[0], "\r\n" + rest);
      assert ("\r\n" + rest)[2..] == rest;
      Dos2UnixCrlfLines(lines[1..]);
      assert lines[0] + ("\n" + JoinLines(lines[1..], "\n")) == lines[0] + "\n" + JoinLines(lines[1..], "\n");
    }
  }

  /** Lines without carriage returns joined with LF hold no carriage return. */
  lemma {:induction false} JoinLinesNoCr(lines: seq<string>)
    requires |lines| >= 1
    requires forall i :: 0 <= i < |lines| ==> '\r' !in lines[i]
    ensures '\r' !in JoinLines(lines, "\n")
  {
    if |lines| > 1 {
      JoinLinesNoCr(lines[1..]);
      assert '\r' !in lines[0];
    }
  }

  /** CR LF line endings become LF, and a missing final line feed is added. */
  function FixNewlines(s: string): (r: string)
    ensures EndsWithNewline(r)
    ensures r == Dos2Unix(s) <==> EndsWithNewline(s)
    ensures !EndsWithNewline(s) ==> r == Dos2Unix(s) + "\n"
  {
    var t := Dos2Unix(s);
    if EndsWithNewline(t) then t else t + "\n"
  }

  /** A text without CR LF pairs that already ends with a line feed is returned unchanged. */
  lemma FixNewlinesUnchanged(s: string)
    requires !Contains(s, "\r\n") && EndsWithNewline(s)
    ensures FixNewlines(s) == s
  {
    Dos2UnixNoCrlf(s);
  }

  /** Normalising a text without carriage returns a second time changes nothing. */
  lemma FixNewlinesIdempotent(s: string)
    requires '\r' !in s
    ensures FixNewlines(FixNewlines(s)) == FixNewlines(s)
  {
    Dos2UnixNoCr(s);
    assert '\r' !in FixNewlines(s);
    Dos2UnixNoCr(FixNewlines(s));
  }

  /**
   * Without the restriction to text free of carriage returns, normalising is
   * not idempotent: in `\r\r\n` only the second CR is part of a CR LF pair, so
   * one pass leaves `\r\n`, which a second pass turns into `\n`.
   */
  lemma FixNewlinesTwiceDiffers(s: string)
    requires s == "\r\r\n"
    ensures FixNewlines(s) == "\r\n"
    ensures FixNewlines(FixNewlines(s)) == "\n"
  {
    assert s[1..] == "\r\n" && s[1..][2..] == [];
    assert Dos2Unix(s[1..]) == "\n";
    assert Dos2Unix(s) == "\r\n";
    assert "\r\n"[2..] == [];
  }
}
