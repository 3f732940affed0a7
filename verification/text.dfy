/**
 * String helpers shared by the splitters: `str::ends_with`, `str::split_once`
 * on a separator string, `str::split` on a character and its inverse `join`.
 */
module Text {
  import opened Wrappers

  predicate StartsWith(s: string, prefix: string) {
    |prefix| <= |s| && s[..|prefix|] == prefix
  }

  predicate EndsWith(s: string, suffix: string) {
    |suffix| <= |s| && s[|s| - |suffix|..] == suffix
  }

  /** `sep` occurs in `s` starting at index `i`. */
  predicate OccursAt(s: string, sep: string, i: int) {
    0 <= i && i + |sep| <= |s| && s[i..i + |sep|] == sep
  }

  predicate Contains(s: string, sep: string) {
    exists i :: 0 <= i <= |s| && OccursAt(s, sep, i)
  }

  /** The first index at or after `k` where `sep` occurs. */
  function FindFrom(s: string, sep: string, k: nat): (r: Option<nat>)
    requires k <= |s|
    ensures r.Some? ==> k <= r.value && OccursAt(s, sep, r.value)
    ensures r.Some? ==> forall j :: k <= j < r.value ==> !OccursAt(s, sep, j)
    ensures r.None? ==> forall j :: k <= j ==> !OccursAt(s, sep, j)
    decreases |s| - k
  {
    if k + |sep| > |s| then None
    else if s[k..k + |sep|] == sep then Some(k)
    else FindFrom(s, sep, k + 1)
  }

  /**
   * `str::split_once`: the text before and after the FIRST occurrence of
   * `sep`, or `None` when `sep` does not occur.
   */
  function SplitOnce(s: string, sep: string): (r: Option<(string, string)>)
    ensures r.None? <==> !Contains(s, sep)
    ensures r.Some? ==> s == r.value.0 + sep + r.value.1
    ensures r.Some? ==> OccursAt(s, sep, |r.value.0|)
    ensures r.Some? ==> forall j :: 0 <= j < |r.value.0| ==> !OccursAt(s, sep, j)
  {
    match FindFrom(s, sep, 0)
    case None => None
    case Some(i) =>
      assert s == s[..i] + sep + s[i + |sep|..];
      Some((s[..i], s[i + |sep|..]))
  }

  /** The last character of `sep` occurs nowhere else in it (true of "---\n"). */
  predicate LastIsUnique(sep: string) {
    sep != [] && sep[|sep| - 1] !in sep[..|sep| - 1]
  }

  /**
   * Splitting `a + sep + b`, where `sep` does not occur in `a`, gives back `a`
   * and `b`: no occurrence can start in `a` and run into the appended `sep`,
   * since its last character would then sit at an earlier position of `sep`.
   */
  lemma SplitOnceJoin(a: string, sep: string, b: string)
    requires LastIsUnique(sep)
    requires !Contains(a, sep)
    ensures SplitOnce(a + sep + b, sep) == Some((a, b))
  {
    var s := a + sep + b;
    var n := |sep|;
    assert OccursAt(s, sep, |a|) by { assert s[|a|..|a| + n] == sep; }
    forall j | 0 <= j < |a|
      ensures !OccursAt(s, sep, j)
    {
      if j + n <= |a| {
        assert s[j..j + n] == a[j..j + n];
        assert !OccursAt(a, sep, j);
      } else if j + n <= |s| {
        var k := j + n - 1 - |a|;
        assert 0 <= k < n - 1;
        assert s[j + n - 1] == sep[k] == sep[..n - 1][k];
        assert s[j..j + n][n - 1] != sep[n - 1];
      }
    }
    var r := SplitOnce(s, sep);
    var i := |r.value.0|;
    assert i == |a|;
    assert r.value.1 == s[|a| + n..] == b;
  }

  /**
   * `str::split(c)`: the pieces between occurrences of `c`; there is always at
   * least one piece and no piece contains `c`.
   */
  function Split(s: string, c: char): (r: seq<string>)
    ensures |r| >= 1
    ensures forall i :: 0 <= i < |r| ==> c !in r[i]
    ensures |r| == 1 <==> c !in s
  {
    if s == [] then [[]]
    else
      var rest := Split(s[1..], c);
      if s[0] == c then [[]] + rest
      else [[s[0]] + rest[0]] + rest[1..]
  }

  /** `join` with a one-character separator: the inverse of `Split`. */
  function Join(parts: seq<string>, c: char): string
    requires |parts| >= 1
  {
    if |parts| == 1 then parts[0] else parts[0] + [c] + Join(parts[1..], c)
  }

  lemma {:induction false} JoinSplit(s: string, c: char)
    ensures Join(Split(s, c), c) == s
  {
    if s != [] {
      var rest := Split(s[1..], c);
      JoinSplit(s[1..], c);
      if s[0] == c {
        assert Split(s, c)[1..] == rest;
      } else {
        var r := Split(s, c);
        if |rest| == 1 {
          assert r == [[s[0]] + rest[0]];
        } else {
          assert r[1..] == rest[1..];
          assert Join(rest, c) == rest[0] + [c] + Join(rest[1..], c);
        }
      }
    }
  }

  lemma {:induction false} SplitJoin(parts: seq<string>, c: char)
    requires |parts| >= 1
    requires forall i :: 0 <= i < |parts| ==> c !in parts[i]
    ensures Split(Join(parts, c), c) == parts
  {
    if |parts| == 1 {
      SplitNoSeparator(parts[0], c);
    } else {
      var tail := Join(parts[1..], c);
      SplitJoin(parts[1..], c);
      SplitPrefix(parts[0], c, tail);
      assert [c] + tail == [c] + Join(parts[1..], c);
      assert parts == [parts[0]] + parts[1..];
    }
  }

  lemma {:induction false} SplitNoSeparator(p: string, c: char)
    requires c !in p
    ensures Split(p, c) == [p]
  {
    if p != [] {
      SplitNoSeparator(p[1..], c);
      assert [p[0]] + p[1..] == p;
    }
  }

  /** Splitting `p + [c] + t`, where `p` has no `c`, puts `p` in front of the pieces of `t`. */
  lemma {:induction false} SplitPrefix(p: string, c: char, t: string)
    requires c !in p
    ensures Split(p + [c] + t, c) == [p] + Split(t, c)
  {
    if p == [] {
      assert ([c] + t)[1..] == t;
    } else {
      var s := p + [c] + t;
      SplitPrefix(p[1..], c, t);
      assert s[0] == p[0] && s[1..] == p[1..] + [c] + t;
      var rest := Split(s[1..], c);
      assert rest == [p[1..]] + Split(t, c);
      assert [s[0]] + rest[0] == p;
    }
  }
}
