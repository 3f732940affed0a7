/**
 * The ament resource index of rosidl interfaces: each package lists lines
 * such as `msg/Foo.idl`, which name the interface files the package installs.
 */
module IdlIndex {
  import opened Wrappers
  import opened Text

  datatype Ns = Msg | Srv | Action

  /** One index line: the namespace and the interface file name, e.g. `Foo.msg`. */
  datatype IdlLine = IdlLine(ns: Ns, fileName: string)

  datatype IndexError = UnknownType(line: string)

  /** The directory and file extension of a namespace. */
  function NsName(ns: Ns): (r: string)
    ensures '/' !in r && '.' !in r && r != []
  {
    match ns
    case Msg => "msg"
    case Srv => "srv"
    case Action => "action"
  }

  function NsOf(name: string): (r: Option<Ns>)
    ensures r.Some? <==> name in ["msg", "srv", "action"]
    ensures r.Some? ==> NsName(r.value) == name
  {
    if name == "msg" then Some(Msg)
    else if name == "srv" then Some(Srv)
    else if name == "action" then Some(Action)
    else None
  }

  /**
   * `Path::with_extension` on a path ending in `.idl`: the `.idl` extension
   * is replaced by `.ext`, except when the last component is `.idl` itself,
   * which is a hidden file with no extension, so `.ext` is appended.
   */
  function WithExtension(path: string, ext: string): (r: string)
    requires EndsWith(path, ".idl")
    ensures EndsWith(r, "." + ext)
    ensures var stemEnd := |path| - 4;
      if stemEnd == 0 || path[stemEnd - 1] == '/' then r == path + "." + ext
      else r == path[..stemEnd] + "." + ext
  {
    var stemEnd := |path| - 4;
    var stem := if stemEnd == 0 || path[stemEnd - 1] == '/' then path else path[..stemEnd];
    stem + "." + ext
  }

  /**
   * Parses one index line. Lines that do not end in `.idl` are skipped; the
   * others must read `ns/file.idl` with `ns` one of `msg`, `srv`, `action`.
   */
  function ParseLine(line: string): (r: Result<Option<IdlLine>, IndexError>)
    ensures r == Ok(None) <==> !EndsWith(line, ".idl")
    ensures r.Err? <==> EndsWith(line, ".idl") && (!Contains(line, "/") || NsOf(SplitOnce(line, "/").value.0).None?)
    ensures r.Err? ==> r.error == UnknownType(line)
    ensures r.Ok? && r.value.Some? ==> var l := r.value.value;
      && SplitOnce(line, "/").Some?
      && SplitOnce(line, "/").value.0 == NsName(l.ns)
      && '.' in l.fileName
      && EndsWith(l.fileName, "." + NsName(l.ns))
  {
    if !EndsWith(line, ".idl") then Ok(None)
    else
      match SplitOnce(line, "/")
      case None => Err(UnknownType(line))
      case Some((nsName, idlFileName)) =>
        assert EndsWith(idlFileName, ".idl") by {
          assert line == nsName + "/" + idlFileName;
          assert line[|nsName|] == '/';
          assert line[|line| - 4..] == ".idl";
          assert |nsName| < |line| - 4;
          assert line[|line| - 4..] == idlFileName[|idlFileName| - 4..];
        }
        match NsOf(nsName)
        case None => Err(UnknownType(line))
        case Some(ns) =>
          var fileName := WithExtension(idlFileName, NsName(ns));
          assert fileName[|fileName| - |NsName(ns)| - 1] == '.';
          Ok(Some(IdlLine(ns, fileName)))
  }

  /** The index of the last occurrence of `c` in `s`. */
  function LastIndexOf(s: string, c: char): (r: Option<nat>)
    ensures r.None? <==> c !in s
    ensures r.Some? ==> r.value < |s| && s[r.value] == c && c !in s[r.value + 1..]
  {
    if s == [] then None
    else if s[|s| - 1] == c then Some(|s| - 1)
    else
      match LastIndexOf(s[..|s| - 1], c)
      case None => None
      case Some(k) =>
        assert s[k + 1..] == s[..|s| - 1][k + 1..] + [s[|s| - 1]];
        Some(k)
  }

  /**
   * The interface name of an index line: its file name up to the last `.`.
   * The file name must hold a `.`; every parsed line's does.
   */
  function Name(l: IdlLine): (r: string)
    requires '.' in l.fileName
    ensures exists ext :: '.' !in ext && l.fileName == r + "." + ext
  {
    var k := LastIndexOf(l.fileName, '.').value;
    assert l.fileName == l.fileName[..k] + "." + l.fileName[k + 1..];
    l.fileName[..k]
  }

  /** The name before a `.`-free extension is recovered by `Name`. */
  lemma NameOf(ns: Ns, stem: string, ext: string)
    requires '.' !in ext
    ensures Name(IdlLine(ns, stem + "." + ext)) == stem
  {
    var f := stem + "." + ext;
    var k := LastIndexOf(f, '.').value;
    assert f[|stem|] == '.' && f[|stem| + 1..] == ext;
    assert k <= |stem| by {
      assert forall j :: |stem| < j < |f| ==> f[j] == ext[j - |stem| - 1];
    }
    assert |stem| <= k by {
      assert forall j :: k < j < |f| ==> f[j] == f[k + 1..][j - k - 1];
    }
  }

  /**
   * The index line of interface `n` in namespace `ns` gives the file
   * `n.<ns>` and the name `n`, provided its last path component is not empty.
   */
  lemma ParseLineRoundTrip(ns: Ns, n: string)
    requires n != [] && n[|n| - 1] != '/'
    ensures ParseLine(NsName(ns) + "/" + n + ".idl") == Ok(Some(IdlLine(ns, n + "." + NsName(ns))))
    ensures Name(IdlLine(ns, n + "." + NsName(ns))) == n
  {
    var idl := n + ".idl";
    var line := NsName(ns) + "/" + n + ".idl";
    assert line == NsName(ns) + "/" + idl;
    ReplaceIdl(n, NsName(ns));
    SplitNamespace(ns, idl);
    ParseLineOf(ns, line, idl);
    NameOf(ns, n, NsName(ns));
  }

  /** A line that splits into a namespace and an `.idl` path gives that namespace's file. */
  lemma ParseLineOf(ns: Ns, line: string, rest: string)
    requires EndsWith(line, ".idl") && EndsWith(rest, ".idl")
    requires SplitOnce(line, "/") == Some((NsName(ns), rest))
    ensures ParseLine(line) == Ok(Some(IdlLine(ns, WithExtension(rest, NsName(ns)))))
  {
  }

  /** A line `ns/rest` ending in `.idl` splits into its namespace and `rest`. */
  lemma SplitNamespace(ns: Ns, rest: string)
    requires EndsWith(rest, ".idl")
    ensures var line := NsName(ns) + "/" + rest;
      EndsWith(line, ".idl") && SplitOnce(line, "/") == Some((NsName(ns), rest))
  {
    var line := NsName(ns) + "/" + rest;
    assert line[|line| - 4..] == rest[|rest| - 4..];
    NoSlashNoContains(NsName(ns));
    SplitOnceJoin(NsName(ns), "/", rest);
  }

  lemma ReplaceIdl(n: string, ext: string)
    requires n != [] && n[|n| - 1] != '/'
    ensures EndsWith(n + ".idl", ".idl") && WithExtension(n + ".idl", ext) == n + "." + ext
  {
    var idl := n + ".idl";
    assert idl[|idl| - 4..] == ".idl";
    assert idl[..|idl| - 4] == n && idl[|idl| - 5] == n[|n| - 1];
  }

  /** The hidden-file case: `msg/.idl` names the file `.idl.msg`, whose name is `.idl`. */
  lemma ParseLineBareIdl(ns: Ns, idl: string)
    requires idl == ".idl"
    ensures ParseLine(NsName(ns) + "/" + idl) == Ok(Some(IdlLine(ns, idl + "." + NsName(ns))))
    ensures Name(IdlLine(ns, idl + "." + NsName(ns))) == idl
  {
    assert EndsWith(idl, ".idl");
    SplitNamespace(ns, idl);
    ParseLineOf(ns, NsName(ns) + "/" + idl, idl);
    NameOf(ns, idl, NsName(ns));
  }

  lemma NoSlashNoContains(s: string)
    requires '/' !in s
    ensures !Contains(s, "/")
  {
    forall i | 0 <= i <= |s| ensures !OccursAt(s, "/", i) {
      if i + 1 <= |s| {
        assert s[i..i + 1] == [s[i]];
      }
    }
  }

  /** A line whose first component is not a namespace is an error. */
  lemma ParseLineUnknownNamespace(prefix: string, rest: string)
    requires '/' !in prefix && NsOf(prefix).None? && EndsWith(rest, ".idl")
    ensures ParseLine(prefix + "/" + rest) == Err(UnknownType(prefix + "/" + rest))
  {
    var line := prefix + "/" + rest;
    assert EndsWith(line, ".idl") by { assert line[|line| - 4..] == rest[|rest| - 4..]; }
    NoSlashNoContains(prefix);
    SplitOnceJoin(prefix, "/", rest);
  }

  /** The accepted lines of the index tests: `msg/TestHoge.idl` gives `TestHoge.msg`, and likewise for `srv` and `action`. */
  lemma ParseLineExamples(ns: Ns, name: string)
    requires name == "TestHoge"
    ensures ParseLine(NsName(ns) + "/" + name + ".idl") == Ok(Some(IdlLine(ns, name + "." + NsName(ns))))
  {
    var n := name;
    assert n != [] && n[|n| - 1] != '/';
    ParseLineRoundTrip(ns, n);
  }

  /** The skipped lines of the index tests: no `.idl` ending, whatever the namespace. */
  lemma SkippedLineExamples(a: string, b: string)
    requires a == "test/Test" && b == "Test"
    ensures ParseLine(a + ".msg") == Ok(None) && ParseLine(a + ".srv") == Ok(None)
    ensures ParseLine(a + ".action") == Ok(None)
    ensures ParseLine("msg/" + b + ".test") == Ok(None) && ParseLine("srv/" + b + ".test") == Ok(None)
    ensures ParseLine("action/" + b + ".test") == Ok(None)
  {
    assert (a + ".msg")[|a + ".msg"| - 4..] == ".msg";
    assert (a + ".srv")[|a + ".srv"| - 4..] == ".srv";
    assert (a + ".action")[|a + ".action"| - 4..] == "tion";
    assert ("msg/" + b + ".test")[|"msg/" + b + ".test"| - 4..] == "test";
    assert ("srv/" + b + ".test")[|"srv/" + b + ".test"| - 4..] == "test";
    assert ("action/" + b + ".test")[|"action/" + b + ".test"| - 4..] == "test";
  }

  /** Line `i` is the first line of `lines` that fails to parse, and fails with `e`. */
  predicate FirstFailureAt(lines: seq<string>, i: int, e: IndexError) {
    0 <= i < |lines| && ParseLine(lines[i]) == Err(e) && forall j :: 0 <= j < i ==> ParseLine(lines[j]).Ok?
  }

  /** Some line of `lines` fails to parse. */
  predicate SomeLineFails(lines: seq<string>) {
    exists i :: 0 <= i < |lines| && ParseLine(lines[i]).Err?
  }

  /** Some line of `lines` parses to the entry `l`. */
  predicate SomeLineGives(lines: seq<string>, l: IdlLine) {
    exists i :: 0 <= i < |lines| && ParseLine(lines[i]) == Ok(Some(l))
  }

  /** Reads the lines of one package's index entry; the first bad line aborts. */
  function IndexLines(lines: seq<string>): (r: Result<seq<IdlLine>, IndexError>)
    ensures r.Err? <==> SomeLineFails(lines)
    ensures r.Err? ==> exists i :: FirstFailureAt(lines, i, r.error)
    ensures r.Ok? ==> |r.value| <= |lines| && forall l :: l in r.value ==> SomeLineGives(lines, l)
  {
    if lines == [] then Ok([])
    else
      var head := ParseLine(lines[0]);
      var rest := IndexLines(lines[1..]);
      ShiftedLines(lines);
      if head.Err? then
        assert FirstFailureAt(lines, 0, head.error);
        Err(head.error)
      else if rest.Err? then
        var i :| FirstFailureAt(lines[1..], i, rest.error);
        assert FirstFailureAt(lines, i + 1, rest.error);
        rest
      else
        Ok((if head.value.Some? then [head.value.value] else []) + rest.value)
  }

  /** What the line predicates say of `lines` follows from `lines[0]` and `lines[1..]`. */
  lemma ShiftedLines(lines: seq<string>)
    requires lines != []
    ensures SomeLineFails(lines) <==> ParseLine(lines[0]).Err? || SomeLineFails(lines[1..])
    ensures forall l :: SomeLineGives(lines[1..], l) ==> SomeLineGives(lines, l)
    ensures forall l :: ParseLine(lines[0]) == Ok(Some(l)) ==> SomeLineGives(lines, l)
  {
    assert forall i :: 0 <= i < |lines| - 1 ==> lines[1..][i] == lines[i + 1];
    if SomeLineFails(lines) {
      var i :| 0 <= i < |lines| && ParseLine(lines[i]).Err?;
      if i > 0 {
        assert ParseLine(lines[1..][i - 1]).Err?;
      }
    }
    forall l | SomeLineGives(lines[1..], l) ensures SomeLineGives(lines, l) {
      var i :| 0 <= i < |lines| - 1 && ParseLine(lines[1..][i]) == Ok(Some(l));
      assert ParseLine(lines[i + 1]) == Ok(Some(l));
    }
  }

  /** The result of one parsed line put in front of the result of the lines after it. */
  function Prepend(p: Result<Option<IdlLine>, IndexError>, rest: Result<seq<IdlLine>, IndexError>): Result<seq<IdlLine>, IndexError> {
    if p.Err? then Err(p.error)
    else if rest.Err? then rest
    else Ok((if p.value.Some? then [p.value.value] else []) + rest.value)
  }

  /** Reading `[x] + rest`: the line `x`, then the lines `rest`. */
  lemma IndexLinesCons(x: string, rest: seq<string>)
    ensures IndexLines([x] + rest) == Prepend(ParseLine(x), IndexLines(rest))
  {
    assert ([x] + rest)[0] == x && ([x] + rest)[1..] == rest;
  }

  /** `Prepend` distributes over the concatenation of two results. */
  lemma PrependAppend(p: Result<Option<IdlLine>, IndexError>, a: Result<seq<IdlLine>, IndexError>,
                      b: Result<seq<IdlLine>, IndexError>, ab: Result<seq<IdlLine>, IndexError>)
    requires a.Err? ==> ab == a
    requires a.Ok? && b.Err? ==> ab == b
    requires a.Ok? && b.Ok? ==> ab == Ok(a.value + b.value)
    ensures Prepend(p, a).Err? ==> Prepend(p, ab) == Prepend(p, a)
    ensures Prepend(p, a).Ok? && b.Err? ==> Prepend(p, ab) == b
    ensures Prepend(p, a).Ok? && b.Ok? ==> Prepend(p, ab) == Ok(Prepend(p, a).value + b.value)
  {
    if p.Ok? && a.Ok? && b.Ok? {
      var h: seq<IdlLine> := if p.value.Some? then [p.value.value] else [];
      assert h + (a.value + b.value) == (h + a.value) + b.value;
    }
  }

  /** One line gives its entry, nothing when it is skipped, or its error. */
  lemma IndexLinesSingle(line: string)
    ensures ParseLine(line).Err? ==> IndexLines([line]) == Err(ParseLine(line).error)
    ensures ParseLine(line) == Ok(None) ==> IndexLines([line]) == Ok([])
    ensures ParseLine(line).Ok? && ParseLine(line).value.Some? ==> IndexLines([line]) == Ok([ParseLine(line).value.value])
  {
    IndexLinesCons(line, []);
    assert [line] + [] == [line];
    assert IndexLines([]) == Ok([]);
    if ParseLine(line).Ok? && ParseLine(line).value.Some? {
      assert [ParseLine(line).value.value] + [] == [ParseLine(line).value.value];
    }
  }

  /**
   * Reading the lines `a + b` reads `a`, then `b`: the entries of both, in
   * order, or the first failure (in `a` before `b`).
   */
  lemma {:induction false} IndexLinesAppend(a: seq<string>, b: seq<string>)
    ensures IndexLines(a).Err? ==> IndexLines(a + b) == IndexLines(a)
    ensures IndexLines(a).Ok? && IndexLines(b).Err? ==> IndexLines(a + b) == IndexLines(b)
    ensures IndexLines(a).Ok? && IndexLines(b).Ok? ==> IndexLines(a + b) == Ok(IndexLines(a).value + IndexLines(b).value)
  {
    if a == [] {
      assert a + b == b;
      assert IndexLines(a) == Ok([]);
      if IndexLines(b).Ok? {
        assert [] + IndexLines(b).value == IndexLines(b).value;
      }
    } else {
      var x, tail := a[0], a[1..];
      assert a == [x] + tail;
      assert a + b == [x] + (tail + b);
      IndexLinesCons(x, tail);
      IndexLinesCons(x, tail + b);
      IndexLinesAppend(tail, b);
      PrependAppend(ParseLine(x), IndexLines(tail), IndexLines(b), IndexLines(tail + b));
    }
  }

  /** The suffixes of a package's generator, type support and introspection libraries. */
  const GeneratorC := "__rosidl_generator_c"
  const TypesupportC := "__rosidl_typesupport_c"
  const IntrospectionC := "__rosidl_typesupport_introspection_c"
  const LibrarySuffixes := [GeneratorC, TypesupportC, IntrospectionC]

  /** The libraries of a package: generator, type support and introspection, in that order. */
  function Libraries(pkgName: string): (r: seq<string>)
    ensures |r| == 3
    ensures forall i :: 0 <= i < 3 ==> StartsWith(r[i], pkgName + "__rosidl_")
    ensures forall i :: 0 <= i < 3 ==> r[i] == pkgName + LibrarySuffixes[i]
  {
    [pkgName + GeneratorC, pkgName + TypesupportC, pkgName + IntrospectionC]
  }

  /** Different packages link different libraries, and a package's three libraries differ. */
  lemma LibrariesDistinct(p: string, q: string)
    ensures Libraries(p)[0] != Libraries(p)[1] && Libraries(p)[0] != Libraries(p)[2] && Libraries(p)[1] != Libraries(p)[2]
    ensures p != q ==> forall i :: 0 <= i < 3 ==> Libraries(p)[i] != Libraries(q)[i]
  {
    var g, t, x := GeneratorC, TypesupportC, IntrospectionC;
    assert g[10] != t[10] && t[21] != x[21];
    assert (p + g)[|p| + 10] == g[10] && (p + t)[|p| + 10] == t[10] && (p + x)[|p| + 10] == x[10];
    assert (p + t)[|p| + 21] == t[21] && (p + x)[|p| + 21] == x[21];
    if p != q {
      forall i | 0 <= i < 3 ensures Libraries(p)[i] != Libraries(q)[i] {
        var s := [g, t, x][i];
        assert Libraries(p)[i] == p + s && Libraries(q)[i] == q + s;
        SuffixDistinguishes(p, q, s);
      }
    }
  }

  /** A library name determines its package and its position among the package's three libraries. */
  lemma LibrariesInjective(p: string, q: string, i: nat, j: nat)
    requires i < 3 && j < 3
    ensures Libraries(p)[i] == Libraries(q)[j] <==> p == q && i == j
  {
    var sfx := [GeneratorC, TypesupportC, IntrospectionC];
    assert Libraries(p)[i] == p + sfx[i] && Libraries(q)[j] == q + sfx[j];
    var a, b := p + sfx[i], q + sfx[j];
    // the third character from the end tells the three suffixes apart
    assert a[|a| - 3] == sfx[i][|sfx[i]| - 3] && b[|b| - 3] == sfx[j][|sfx[j]| - 3];
    assert sfx[0][|sfx[0]| - 3] == 'r' && sfx[1][|sfx[1]| - 3] == 't' && sfx[2][|sfx[2]| - 3] == 'n';
    if a == b {
      assert i == j;
      assert a[..|p|] == p && b[..|q|] == q;
    }
  }

  lemma SuffixDistinguishes(p: string, q: string, s: string)
    requires p != q
    ensures p + s != q + s
  {
    if |p| == |q| {
      assert (p + s)[..|p|] == p && (q + s)[..|q|] == q;
    }
  }

  /** A package found in the index that is not excluded, with its libraries. */
  datatype IndexedPackage = IndexedPackage(name: string, libraries: seq<string>)

  /**
   * The packages of an index, in index order: excluded names produce no
   * package, every other name produces one with its three libraries.
   */
  function IndexedPackages(names: seq<string>, exclude: set<string>): (r: seq<IndexedPackage>)
    ensures |r| <= |names|
    ensures forall p :: p in r ==> p.name in names && p.name !in exclude && p.libraries == Libraries(p.name)
    ensures forall n :: n in names && n !in exclude ==> IndexedPackage(n, Libraries(n)) in r
  {
    if names == [] then []
    else
      var rest := IndexedPackages(names[1..], exclude);
      assert forall n :: n in names[1..] ==> n in names;
      assert forall n :: n in names ==> n == names[0] || n in names[1..];
      if names[0] in exclude then rest
      else [IndexedPackage(names[0], Libraries(names[0]))] + rest
  }

  /** Exclusion is a filter: the index order is kept. */
  lemma {:induction false} IndexedPackagesAppend(a: seq<string>, b: seq<string>, exclude: set<string>)
    ensures IndexedPackages(a + b, exclude) == IndexedPackages(a, exclude) + IndexedPackages(b, exclude)
  {
    if a == [] {
      assert a + b == b;
    } else {
      assert (a + b)[0] == a[0] && (a + b)[1..] == a[1..] + b;
      IndexedPackagesAppend(a[1..], b, exclude);
    }
  }
}
