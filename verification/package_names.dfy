/**
 * Duplicate-package rejection: package names are sorted, runs of equal
 * names are counted, and any run longer than one is an error.
 */
module PackageNames {
  import opened Wrappers

  /** `a` sorts at or before `b` in lexicographic character order, as `String::cmp` does. */
  predicate Below(a: string, b: string)
    decreases |a|
  {
    |a| == 0 || (|b| > 0 && (a[0] < b[0] || (a[0] == b[0] && Below(a[1..], b[1..]))))
  }

  lemma {:induction false} BelowReflexive(a: string)
    ensures Below(a, a)
    decreases |a|
  {
    if |a| > 0 {
      BelowReflexive(a[1..]);
    }
  }

  lemma {:induction false} BelowAntisymmetric(a: string, b: string)
    requires Below(a, b) && Below(b, a)
    ensures a == b
    decreases |a|
  {
    if |a| > 0 {
      BelowAntisymmetric(a[1..], b[1..]);
      assert a == [a[0]] + a[1..] && b == [b[0]] + b[1..];
    }
  }

  lemma {:induction false} BelowTransitive(a: string, b: string, c: string)
    requires Below(a, b) && Below(b, c)
    ensures Below(a, c)
    decreases |a|
  {
    if |a| > 0 && a[0] == b[0] && b[0] == c[0] {
      BelowTransitive(a[1..], b[1..], c[1..]);
    }
  }

  lemma {:induction false} BelowTotal(a: string, b: string)
    ensures Below(a, b) || Below(b, a)
    decreases |a|
  {
    if |a| > 0 && |b| > 0 && a[0] == b[0] {
      BelowTotal(a[1..], b[1..]);
    }
  }

  predicate Sorted(s: seq<string>) {
    forall i, j :: 0 <= i < j < |s| ==> Below(s[i], s[j])
  }

  predicate StrictlySorted(s: seq<string>) {
    forall i, j :: 0 <= i < j < |s| ==> Below(s[i], s[j]) && s[i] != s[j]
  }

  /** No name occurs twice. */
  predicate Distinct(s: seq<string>) {
    forall x :: x in multiset(s) ==> multiset(s)[x] <= 1
  }

  /** `n` occurs at least twice in `s`, and no name occurring twice comes before it. */
  ghost predicate LeastRepeated(s: seq<string>, n: string) {
    multiset(s)[n] >= 2 && forall x :: multiset(s)[x] >= 2 ==> Below(n, x)
  }

  /** At most one name is the least repeated one, so the duplicate error is determined by the names. */
  lemma LeastRepeatedUnique(s: seq<string>, a: string, b: string)
    requires LeastRepeated(s, a) && LeastRepeated(s, b)
    ensures a == b
  {
    assert Below(a, b) && Below(b, a);
    BelowAntisymmetric(a, b);
  }

  /** No name occurs twice exactly when no two positions hold the same name. */
  lemma DistinctIff(s: seq<string>)
    ensures Distinct(s) <==> forall k, l :: 0 <= k < l < |s| ==> s[k] != s[l]
  {
    if forall k, l :: 0 <= k < l < |s| ==> s[k] != s[l] {
      StrictIsDistinct(s);
    }
    if k, l :| 0 <= k < l < |s| && s[k] == s[l] {
      assert s == s[..l] + [s[l]] + s[l + 1..];
      assert s[k] in multiset(s[..l]) by { assert s[..l][k] == s[k]; }
      assert multiset(s)[s[l]] >= 2;
    }
  }

  function Insert(x: string, s: seq<string>): (r: seq<string>)
    requires Sorted(s)
    ensures Sorted(r) && multiset(r) == multiset(s) + multiset{x}
  {
    if s == [] then [x]
    else if Below(x, s[0]) then
      assert forall j :: 0 < j < |s| ==> Below(x, s[j]) by {
        forall j | 0 < j < |s| ensures Below(x, s[j]) { BelowTransitive(x, s[0], s[j]); }
      }
      [x] + s
    else
      BelowTotal(x, s[0]);
      var rest := Insert(x, s[1..]);
      assert s == [s[0]] + s[1..];
      assert forall k :: 0 <= k < |rest| ==> Below(s[0], rest[k]) by {
        forall k | 0 <= k < |rest| ensures Below(s[0], rest[k]) {
          assert rest[k] in multiset(rest);
        }
      }
      [s[0]] + rest
  }

  /** The names in sorted order: a sorted permutation of the input. */
  function Sort(s: seq<string>): (r: seq<string>)
    ensures Sorted(r) && multiset(r) == multiset(s)
  {
    if s == [] then []
    else
      assert s == [s[0]] + s[1..];
      Insert(s[0], Sort(s[1..]))
  }

  datatype BuildError = MultiplePackages(name: string)

  /**
   * Walks the sorted names run by run; the first run of equal names longer
   * than one aborts with that name, otherwise each name is kept once.
   */
  method RejectDuplicates(sorted: seq<string>) returns (r: Result<seq<string>, BuildError>)
    requires Sorted(sorted)
    ensures r.Ok? <==> Distinct(sorted)
    ensures r.Ok? ==> r.value == sorted && StrictlySorted(r.value)
    ensures r.Err? ==> LeastRepeated(sorted, r.error.name)
  {
    var names: seq<string> := [];
    var i := 0;
    while i < |sorted|
      invariant 0 <= i <= |sorted|
      invariant names == sorted[..i]
      invariant forall j :: 0 <= j < i && j + 1 < |sorted| ==> sorted[j] != sorted[j + 1]
    {
      var count := 1;
      while i + count < |sorted| && sorted[i + count] == sorted[i]
        invariant 1 <= count && i + count <= |sorted|
        invariant forall k :: i <= k < i + count ==> sorted[k] == sorted[i]
      {
        count := count + 1;
      }
      if count != 1 {
        FirstDuplicate(sorted, i);
        return Err(MultiplePackages(sorted[i]));
      }
      names := names + [sorted[i]];
      i := i + 1;
    }
    assert names == sorted;
    AdjacentDistinctIsStrict(sorted);
    StrictIsDistinct(sorted);
    return Ok(names);
  }

  lemma AdjacentDistinctIsStrict(s: seq<string>)
    requires Sorted(s)
    requires forall j :: 0 <= j < |s| - 1 ==> s[j] != s[j + 1]
    ensures StrictlySorted(s)
  {
    forall i, j | 0 <= i < j < |s| ensures s[i] != s[j] {
      StrictStep(s[i], s[i + 1], s[j]);
    }
  }

  lemma StrictStep(a: string, b: string, c: string)
    requires Below(a, b) && a != b && (b == c || Below(b, c))
    ensures a != c
  {
    if a == c {
      BelowAntisymmetric(a, b);
    }
  }

  lemma {:induction false} StrictIsDistinct(s: seq<string>)
    requires forall i, j :: 0 <= i < j < |s| ==> s[i] != s[j]
    ensures Distinct(s)
  {
    if s != [] {
      StrictIsDistinct(s[1..]);
      assert s == [s[0]] + s[1..];
      assert s[0] !in s[1..];
    }
  }

  /**
   * When the walk stops at index `i` with `sorted[i] == sorted[i + 1]`, that
   * name is duplicated and, since no earlier neighbours were equal, it is the
   * least duplicated name.
   */
  lemma FirstDuplicate(sorted: seq<string>, i: nat)
    requires Sorted(sorted) && i + 1 < |sorted| && sorted[i] == sorted[i + 1]
    requires forall j :: 0 <= j < i ==> sorted[j] != sorted[j + 1]
    ensures multiset(sorted)[sorted[i]] >= 2
    ensures Distinct(sorted) == false
    ensures forall x :: multiset(sorted)[x] >= 2 ==> Below(sorted[i], x)
  {
    var prefix, suffix := sorted[..i + 1], sorted[i + 1..];
    assert sorted == prefix + suffix;
    assert sorted[i] in multiset(prefix) && sorted[i] in multiset(suffix) by {
      assert prefix[i] == sorted[i] && suffix[0] == sorted[i];
    }
    assert Sorted(prefix);
    AdjacentDistinctIsStrict(prefix);
    StrictIsDistinct(prefix);
    forall x | multiset(sorted)[x] >= 2 ensures Below(sorted[i], x) {
      assert multiset(prefix)[x] <= 1;
      assert x in multiset(suffix);
      InSuffixBelow(sorted, i, x);
    }
  }

  lemma InSuffixBelow(sorted: seq<string>, i: nat, x: string)
    requires Sorted(sorted) && i < |sorted| && x in sorted[i + 1..]
    ensures Below(sorted[i], x)
  {
    var k :| 0 <= k < |sorted[i + 1..]| && sorted[i + 1..][k] == x;
    assert sorted[i + 1 + k] == x;
  }

  /**
   * The package names of a build: sorted and checked for duplicates. It
   * fails exactly when a name occurs twice, with the least such name, and
   * otherwise lists each name once in strictly increasing order.
   */
  method SortedPackageNames(names: seq<string>) returns (r: Result<seq<string>, BuildError>)
    ensures r.Ok? <==> Distinct(names)
    ensures r.Ok? ==> StrictlySorted(r.value) && multiset(r.value) == multiset(names)
    ensures r.Err? ==> LeastRepeated(names, r.error.name)
  {
    var sorted := Sort(names);
    r := RejectDuplicates(sorted);
  }
}
