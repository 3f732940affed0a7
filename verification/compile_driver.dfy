/**
 * The compile driver: its configuration builder, the `run` step and the
 * cargo link commands it emits for the loaded prefixes.
 */
module CompileDriver {
  import opened Wrappers
  import opened Text
  import opened IdlIndex
  import opened PackageNames
  import opened AmentPrefixes

  const SearchPrefix := "cargo:rustc-link-search=native="
  const RpathPrefix := "cargo:rustc-link-arg=-Wl,-rpath="
  const DisableNewDtags := "cargo:rustc-link-arg=-Wl,--disable-new-dtags"
  const LinkLibPrefix := "cargo:rustc-link-lib=dylib="

  /** The commands for one prefix's library directory. */
  function PrefixSearchCommands(libDir: string, rpath: bool): (r: seq<string>)
    ensures |r| == (if rpath then 3 else 1)
  {
    [SearchPrefix + libDir] + (if rpath then [RpathPrefix + libDir, DisableNewDtags] else [])
  }

  /** The search commands of all prefixes, prefix by prefix. */
  function SearchCommands(aments: seq<AmentPrefix>, rpath: bool): seq<string>
  {
    if aments == [] then []
    else SearchCommands(aments[..|aments| - 1], rpath) + PrefixSearchCommands(aments[|aments| - 1].libDir, rpath)
  }

  /** The libraries of some packages, package by package. */
  function PackageLibraries(packages: seq<IndexedPackage>): seq<string>
  {
    if packages == [] then []
    else PackageLibraries(packages[..|packages| - 1]) + packages[|packages| - 1].libraries
  }

  /** The libraries of all prefixes, prefix by prefix. */
  function AllLibraries(aments: seq<AmentPrefix>): seq<string>
  {
    if aments == [] then []
    else AllLibraries(aments[..|aments| - 1]) + PackageLibraries(aments[|aments| - 1].packages)
  }

  /** One `rustc-link-lib` command per library, in order. */
  function LibCommands(libs: seq<string>): (r: seq<string>)
    ensures |r| == |libs| && forall i :: 0 <= i < |libs| ==> r[i] == LinkLibPrefix + libs[i]
  {
    seq(|libs|, i requires 0 <= i < |libs| => LinkLibPrefix + libs[i])
  }

  /** The settings of a configuration, as one value. */
  datatype Settings = Settings(
    searchEnv: bool,
    codegenSingleFile: bool,
    linkRpath: bool,
    amentPrefixPaths: seq<string>,
    excludePackages: set<string>,
    outputDir: string)

  /** What `run` reports: the package names and the commands for cargo. */
  datatype CompileOutput = CompileOutput(packageNames: seq<string>, buildCommands: seq<string>)

  class CompileConfig {
    var searchEnv: bool
    var codegenSingleFile: bool
    var linkRpath: bool
    var amentPrefixPaths: seq<string>
    var excludePackages: set<string>
    var outputDir: string

    function Current(): Settings
      reads this
    {
      Settings(searchEnv, codegenSingleFile, linkRpath, amentPrefixPaths, excludePackages, outputDir)
    }

    /** The defaults; `outDir` is the value of `OUT_DIR`. */
    constructor(outDir: string)
      ensures Current() == Settings(true, true, true, [], DefaultExcludedPackages, outDir)
    {
      searchEnv := true;
      amentPrefixPaths := [];
      outputDir := outDir;
      codegenSingleFile := true;
      excludePackages := DefaultExcludedPackages;
      linkRpath := true;
    }

    method SearchEnv(yes: bool)
      modifies this
      ensures Current() == old(Current()).(searchEnv := yes)
    {
      searchEnv := yes;
    }

    method AmentPrefixPath(dir: string)
      modifies this
      ensures Current() == old(Current()).(amentPrefixPaths := old(amentPrefixPaths) + [dir])
    {
      amentPrefixPaths := amentPrefixPaths + [dir];
    }

    method AmentPrefixPaths(dirs: seq<string>)
      modifies this
      ensures Current() == old(Current()).(amentPrefixPaths := old(amentPrefixPaths) + dirs)
    {
      amentPrefixPaths := amentPrefixPaths + dirs;
    }

    method CodegenSingleFile(yes: bool)
      modifies this
      ensures Current() == old(Current()).(codegenSingleFile := yes)
    {
      codegenSingleFile := yes;
    }

    method LinkRpath(yes: bool)
      modifies this
      ensures Current() == old(Current()).(linkRpath := yes)
    {
      linkRpath := yes;
    }

    method OutDir(dir: string)
      modifies this
      ensures Current() == old(Current()).(outputDir := dir)
    {
      outputDir := dir;
    }

    method ClearExcludePackages()
      modifies this
      ensures Current() == old(Current()).(excludePackages := {})
    {
      excludePackages := {};
    }

    method ExcludePackage(package: string)
      modifies this
      ensures Current() == old(Current()).(excludePackages := old(excludePackages) + {package})
    {
      excludePackages := excludePackages + {package};
    }

    method ExcludePackages(packages: seq<string>)
      modifies this
      ensures Current() == old(Current()).(excludePackages := old(excludePackages) + set p | p in packages)
    {
      excludePackages := excludePackages + set p | p in packages;
    }

    /**
     * Appends the link commands to `commands`: first, prefix by prefix, the
     * search command and, when `linkRpath`, the rpath arguments; then one
     * library command per library of every package.
     */
    method Link(aments: seq<AmentPrefix>, commands: seq<string>) returns (out: seq<string>)
      ensures out == commands + SearchCommands(aments, linkRpath) + LibCommands(AllLibraries(aments))
    {
      out := AppendSearchCommands(commands, aments, linkRpath);
      ghost var base := out;
      for i := 0 to |aments|
        invariant out == base + LibCommands(AllLibraries(aments[..i]))
      {
        out := AppendPackageLibraries(out, aments[i].packages);
        LibCommandsConcat(AllLibraries(aments[..i]), PackageLibraries(aments[i].packages));
        assert aments[..i + 1][..i] == aments[..i] && aments[..i + 1][i] == aments[i];
        assert AllLibraries(aments[..i + 1]) == AllLibraries(aments[..i]) + PackageLibraries(aments[i].packages);
      }
      assert aments[..|aments|] == aments;
    }

    /**
     * Loads the prefixes, rejects duplicated package names, and returns the
     * sorted names with the build commands: the environment rerun command,
     * the rerun commands of every prefix, then the link commands.
     */
    method Run(env: Option<string>, load: PrefixLoader) returns (r: Result<CompileOutput, ConfigError>)
      ensures PrefixDirs(searchEnv, env, amentPrefixPaths).Err? ==> r == Err(AmentPrefixPathUnset)
      ensures PrefixDirs(searchEnv, env, amentPrefixPaths).Ok? ==>
        var loaded := LoadPrefixes(PrefixDirs(searchEnv, env, amentPrefixPaths).value, excludePackages, load);
        && (loaded.Err? ==> r == Err(loaded.error))
        && (loaded.Ok? ==>
            && (r.Ok? <==> Distinct(AllPackageNames(loaded.value)))
            && (r.Ok? ==> r.value.buildCommands == EnvCommands(searchEnv) + RerunCommands(loaded.value)
                            + SearchCommands(loaded.value, linkRpath) + LibCommands(AllLibraries(loaded.value))
                          && StrictlySorted(r.value.packageNames)
                          && multiset(r.value.packageNames) == multiset(AllPackageNames(loaded.value)))
            && (r.Err? ==> r.error.Duplicate? && LeastRepeated(AllPackageNames(loaded.value), r.error.error.name)))
      ensures LoadsIndex(load) && r.Ok? ==>
        && (forall n :: n in r.value.packageNames ==> n !in excludePackages)
        && (forall n, t :: n in excludePackages && 0 <= t < 3 ==>
              LinkLibPrefix + Libraries(n)[t] !in r.value.buildCommands)
    {
      var buildCommands := EnvCommands(searchEnv);
      var collected := CollectPackages(searchEnv, env, amentPrefixPaths, excludePackages, load);
      if collected.Err? {
        return Err(collected.error);
      }
      var (aments, packageNames) := collected.value;
      buildCommands := buildCommands + RerunCommands(aments);
      buildCommands := Link(aments, buildCommands);
      if LoadsIndex(load) {
        ExcludedNotLinked(searchEnv, aments, linkRpath, excludePackages);
      }
      return Ok(CompileOutput(packageNames, buildCommands));
    }
  }

  /** Appends, prefix by prefix, the search command and, when `rpath`, the rpath arguments. */
  method AppendSearchCommands(commands: seq<string>, aments: seq<AmentPrefix>, rpath: bool) returns (out: seq<string>)
    ensures out == commands + SearchCommands(aments, rpath)
  {
    out := commands;
    for i := 0 to |aments|
      invariant out == commands + SearchCommands(aments[..i], rpath)
    {
      var libDir := aments[i].libDir;
      ghost var before := out;
      out := out + [SearchPrefix + libDir];
      if rpath {
        out := out + [RpathPrefix + libDir, DisableNewDtags];
      }
      assert out == before + PrefixSearchCommands(libDir, rpath);
      assert aments[..i + 1][..i] == aments[..i] && aments[..i + 1][i] == aments[i];
      assert SearchCommands(aments[..i + 1], rpath)
          == SearchCommands(aments[..i], rpath) + PrefixSearchCommands(libDir, rpath);
    }
    assert aments[..|aments|] == aments;
  }

  /** Appends one library command per library of each package, package by package. */
  method AppendPackageLibraries(commands: seq<string>, packages: seq<IndexedPackage>) returns (out: seq<string>)
    ensures out == commands + LibCommands(PackageLibraries(packages))
  {
    out := commands;
    for j := 0 to |packages|
      invariant out == commands + LibCommands(PackageLibraries(packages[..j]))
    {
      var libraries := packages[j].libraries;
      for k := 0 to |libraries|
        invariant out == commands + LibCommands(PackageLibraries(packages[..j]) + libraries[..k])
      {
        LibCommandsConcat(PackageLibraries(packages[..j]) + libraries[..k], [libraries[k]]);
        assert libraries[..k + 1] == libraries[..k] + [libraries[k]];
        out := out + [LinkLibPrefix + libraries[k]];
      }
      assert libraries[..|libraries|] == libraries;
      assert packages[..j + 1][..j] == packages[..j];
    }
    assert packages[..|packages|] == packages;
  }

  lemma LibCommandsConcat(a: seq<string>, b: seq<string>)
    ensures LibCommands(a + b) == LibCommands(a) + LibCommands(b)
  {
  }

  /**
   * The search commands hold, for prefix `i`, its search command at
   * position `w * i`, followed by the rpath argument and
   * `--disable-new-dtags` when `rpath` (`w` is 3 then, 1 otherwise).
   */
  lemma {:induction false} SearchLayout(aments: seq<AmentPrefix>, rpath: bool)
    ensures var w := if rpath then 3 else 1;
      var s := SearchCommands(aments, rpath);
      && |s| == w * |aments|
      && forall i :: 0 <= i < |aments| ==>
        && s[w * i] == SearchPrefix + aments[i].libDir
        && (rpath ==> s[w * i + 1] == RpathPrefix + aments[i].libDir && s[w * i + 2] == DisableNewDtags)
  {
    if aments != [] {
      var n := |aments| - 1;
      var init := aments[..n];
      SearchLayout(init, rpath);
      var w := if rpath then 3 else 1;
      var s := SearchCommands(aments, rpath);
      var p := PrefixSearchCommands(aments[n].libDir, rpath);
      assert s == SearchCommands(init, rpath) + p;
      assert |SearchCommands(init, rpath)| == w * n;
      forall i | 0 <= i < |aments|
        ensures s[w * i] == SearchPrefix + aments[i].libDir
        ensures rpath ==> s[w * i + 1] == RpathPrefix + aments[i].libDir && s[w * i + 2] == DisableNewDtags
      {
        if i < n {
          assert aments[i] == init[i];
          assert w * i + w <= w * n;
        } else {
          assert w * i == w * n;
        }
      }
    }
  }

  predicate IsLibCommand(c: string) {
    StartsWith(c, "cargo:rustc-link-lib=")
  }

  /**
   * All search and rpath commands come before all library commands: none of
   * the former is a library command, every one of the latter is.
   */
  lemma LinkCommandKinds(aments: seq<AmentPrefix>, rpath: bool)
    ensures forall c :: c in SearchCommands(aments, rpath) ==> !IsLibCommand(c)
    ensures forall c :: c in LibCommands(AllLibraries(aments)) ==> IsLibCommand(c)
  {
    SearchLayout(aments, rpath);
    var w := if rpath then 3 else 1;
    var s := SearchCommands(aments, rpath);
    forall k | 0 <= k < |s| ensures !IsLibCommand(s[k]) {
      var i := k / w;
      var t := k % w;
      assert k == w * i + t && 0 <= i < |aments|;
      var libDir := aments[i].libDir;
      if t == 0 {
        NotLibCommand(SearchPrefix, libDir);
      } else if t == 1 {
        NotLibCommand(RpathPrefix, libDir);
      } else {
        NotLibCommand(DisableNewDtags, []);
        assert DisableNewDtags + [] == DisableNewDtags;
      }
    }
    forall c | c in LibCommands(AllLibraries(aments)) ensures IsLibCommand(c) {
      var k :| 0 <= k < |AllLibraries(aments)| && c == LinkLibPrefix + AllLibraries(aments)[k];
      assert c[..21] == LinkLibPrefix[..21];
    }
  }

  lemma NotLibCommand(prefix: string, rest: string)
    requires |prefix| > 17 && prefix[17] != 'l'
    ensures !IsLibCommand(prefix + rest)
  {
    assert (prefix + rest)[17] == prefix[17];
  }

  /** Packages with three libraries each link them three per package, in package order. */
  lemma {:induction false} PackageLibrariesLayout(packages: seq<IndexedPackage>)
    requires forall p :: p in packages ==> |p.libraries| == 3
    ensures |PackageLibraries(packages)| == 3 * |packages|
    ensures forall i, t :: 0 <= i < |packages| && 0 <= t < 3 ==>
      PackageLibraries(packages)[3 * i + t] == packages[i].libraries[t]
  {
    if packages != [] {
      var n := |packages| - 1;
      var init := packages[..n];
      assert forall p :: p in init ==> p in packages;
      PackageLibrariesLayout(init);
      var libs, last := PackageLibraries(init), packages[n].libraries;
      assert packages[n] in packages;
      assert PackageLibraries(packages) == libs + last;
      forall i, t | 0 <= i < |packages| && 0 <= t < 3
        ensures PackageLibraries(packages)[3 * i + t] == packages[i].libraries[t]
      {
        if i < n {
          assert packages[i] == init[i];
          assert (libs + last)[3 * i + t] == libs[3 * i + t];
        } else {
          assert (libs + last)[3 * i + t] == last[t];
        }
      }
    }
  }

  /**
   * For packages read from the index, the libraries are linked three per
   * package, in package order: generator, type support, introspection.
   */
  lemma IndexedPackageLibraries(packages: seq<IndexedPackage>)
    requires forall p :: p in packages ==> p.libraries == Libraries(p.name)
    ensures |PackageLibraries(packages)| == 3 * |packages|
    ensures forall i, t :: 0 <= i < |packages| && 0 <= t < 3 ==>
      PackageLibraries(packages)[3 * i + t] == Libraries(packages[i].name)[t]
  {
    PackageLibrariesLayout(packages);
    forall i | 0 <= i < |packages| ensures packages[i].libraries == Libraries(packages[i].name) {
      assert packages[i] in packages;
    }
  }

  /** Appending packages appends their libraries. */
  lemma {:induction false} PackageLibrariesAppend(a: seq<IndexedPackage>, b: seq<IndexedPackage>)
    ensures PackageLibraries(a + b) == PackageLibraries(a) + PackageLibraries(b)
    decreases |b|
  {
    if b == [] {
      assert a + b == a;
    } else {
      var init := b[..|b| - 1];
      assert (a + b)[..|a + b| - 1] == a + init && (a + b)[|a + b| - 1] == b[|b| - 1];
      PackageLibrariesAppend(a, init);
    }
  }

  /** The libraries linked for all prefixes are those of all their packages, in package order. */
  lemma {:induction false} AllLibrariesOfPackages(aments: seq<AmentPrefix>)
    ensures AllLibraries(aments) == PackageLibraries(AllPackages(aments))
  {
    if aments != [] {
      var init := aments[..|aments| - 1];
      var last := aments[|aments| - 1].packages;
      AllLibrariesOfPackages(init);
      PackageLibrariesAppend(AllPackages(init), last);
    }
  }

  /**
   * When every loaded package carries its own three libraries and none is
   * excluded, no command of a run links a library of an excluded package:
   * the library commands name only loaded packages' libraries, and the
   * other commands are not library commands.
   */
  lemma ExcludedNotLinked(searchEnv: bool, aments: seq<AmentPrefix>, rpath: bool, exclude: set<string>)
    requires forall p :: p in AllPackages(aments) ==> p.name !in exclude && p.libraries == Libraries(p.name)
    ensures forall n, t :: n in exclude && 0 <= t < 3 ==>
      LinkLibPrefix + Libraries(n)[t] !in EnvCommands(searchEnv) + RerunCommands(aments)
        + SearchCommands(aments, rpath) + LibCommands(AllLibraries(aments))
  {
    LinkCommandKinds(aments, rpath);
    RerunNotLib(searchEnv, aments);
    forall n, t | n in exclude && 0 <= t < 3
      ensures LinkLibPrefix + Libraries(n)[t] !in EnvCommands(searchEnv) + RerunCommands(aments)
        + SearchCommands(aments, rpath) + LibCommands(AllLibraries(aments))
    {
      var c := LinkLibPrefix + Libraries(n)[t];
      assert IsLibCommand(c) by { assert c[..21] == LinkLibPrefix[..21]; }
      ExcludedLibraryAbsent(aments, exclude, n, t);
    }
  }

  /** The library commands hold no library of an excluded package. */
  lemma ExcludedLibraryAbsent(aments: seq<AmentPrefix>, exclude: set<string>, n: string, t: nat)
    requires forall p :: p in AllPackages(aments) ==> p.name !in exclude && p.libraries == Libraries(p.name)
    requires n in exclude && t < 3
    ensures LinkLibPrefix + Libraries(n)[t] !in LibCommands(AllLibraries(aments))
  {
    var ps := AllPackages(aments);
    AllLibrariesOfPackages(aments);
    IndexedPackageLibraries(ps);
    var c := LinkLibPrefix + Libraries(n)[t];
    var libs := LibCommands(AllLibraries(aments));
    forall k | 0 <= k < |libs| ensures libs[k] != c {
      var i, u := k / 3, k % 3;
      assert k == 3 * i + u && 0 <= i < |ps|;
      assert ps[i] in ps;
      LibrariesInjective(ps[i].name, n, u, t);
      assert libs[k][|LinkLibPrefix|..] == Libraries(ps[i].name)[u] != Libraries(n)[t] == c[|LinkLibPrefix|..];
    }
  }

  /** The environment and rerun commands are not library commands. */
  lemma RerunNotLib(searchEnv: bool, aments: seq<AmentPrefix>)
    ensures forall c :: c in EnvCommands(searchEnv) + RerunCommands(aments) ==> !IsLibCommand(c)
  {
    NotLibCommand(EnvCommand, []);
    assert EnvCommand + [] == EnvCommand;
    var rr := RerunCommands(aments);
    forall k | 0 <= k < |rr| ensures !IsLibCommand(rr[k]) {
      var i := k / 2;
      var dir := if k % 2 == 0 then aments[i].resourceDir else aments[i].includeDir;
      assert k == 2 * i || k == 2 * i + 1;
      NotLibCommand(RerunPrefix, dir);
    }
  }
}
