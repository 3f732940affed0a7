/**
 * What both build drivers share: the prefix directories to scan, loading
 * each prefix, the package names found, and the rerun commands for cargo.
 */
module AmentPrefixes {
  import opened Wrappers
  import opened Text
  import opened IdlIndex
  import opened PackageNames

  /** Packages skipped unless the exclusion set is cleared. */
  const DefaultExcludedPackages: set<string> := {"libstatistics_collector"}

  const EnvCommand := "cargo:rerun-if-env-changed=AMENT_PREFIX_PATH"
  const RerunPrefix := "cargo:rerun-if-changed="

  /** One loaded install prefix: its packages and directories. */
  datatype AmentPrefix = AmentPrefix(packages: seq<IndexedPackage>, resourceDir: string, libDir: string, includeDir: string)

  /** Loading one prefix, given its directory and the exclusion set; the file system is behind it. */
  type PrefixLoader = (string, set<string>) -> Result<AmentPrefix, string>

  datatype ConfigError =
    | AmentPrefixPathUnset
    | LoadFailed(reason: string)
    | Duplicate(error: BuildError)

  /** The command registered before the environment is read, when it is searched. */
  function EnvCommands(searchEnv: bool): (r: seq<string>)
    ensures |r| <= 1 && (r == [EnvCommand] <==> searchEnv)
  {
    if searchEnv then [EnvCommand] else []
  }

  /**
   * The prefix directories: when the environment is searched, the entries of
   * `AMENT_PREFIX_PATH` (`env`, which must then be set) split on `:`, and
   * after them the configured paths.
   */
  function PrefixDirs(searchEnv: bool, env: Option<string>, paths: seq<string>): (r: Result<seq<string>, ConfigError>)
    ensures r.Err? <==> searchEnv && env.None?
    ensures r.Err? ==> r.error == AmentPrefixPathUnset
    ensures r.Ok? ==> exists k :: (0 <= k <= |r.value| && r.value[k..] == paths
      && if searchEnv then 1 <= k && Join(r.value[..k], ':') == env.value && forall i :: 0 <= i < k ==> ':' !in r.value[i]
         else k == 0)
  {
    if searchEnv then
      match env
      case None => Err(AmentPrefixPathUnset)
      case Some(value) =>
        var dirs := Split(value, ':');
        JoinSplit(value, ':');
        assert (dirs + paths)[..|dirs|] == dirs && (dirs + paths)[|dirs|..] == paths;
        Ok(dirs + paths)
    else
      assert paths[0..] == paths;
      Ok(paths)
  }

  /** Loads the prefixes in order; the first failure aborts. */
  function LoadPrefixes(dirs: seq<string>, exclude: set<string>, load: PrefixLoader): (r: Result<seq<AmentPrefix>, ConfigError>)
    ensures r.Ok? <==> forall i :: 0 <= i < |dirs| ==> load(dirs[i], exclude).Ok?
    ensures r.Ok? ==> |r.value| == |dirs| && forall i :: 0 <= i < |dirs| ==> load(dirs[i], exclude) == Ok(r.value[i])
    ensures r.Err? ==> r.error.LoadFailed? && exists i :: (0 <= i < |dirs| && load(dirs[i], exclude) == Err(r.error.reason)
      && forall j :: 0 <= j < i ==> load(dirs[j], exclude).Ok?)
  {
    if dirs == [] then Ok([])
    else
      match load(dirs[0], exclude)
      case Err(e) => Err(LoadFailed(e))
      case Ok(a) =>
        var rest := LoadPrefixes(dirs[1..], exclude, load);
        assert forall i :: 1 <= i < |dirs| ==> dirs[1..][i - 1] == dirs[i];
        if rest.Err? then rest
        else Ok([a] + rest.value)
  }

  function Names(packages: seq<IndexedPackage>): (r: seq<string>)
    ensures |r| == |packages| && forall i :: 0 <= i < |r| ==> r[i] == packages[i].name
  {
    seq(|packages|, i requires 0 <= i < |packages| => packages[i].name)
  }

  /** The packages of all prefixes, prefix by prefix. */
  function AllPackages(aments: seq<AmentPrefix>): (r: seq<IndexedPackage>)
    ensures forall p :: p in r <==> exists i :: 0 <= i < |aments| && p in aments[i].packages
  {
    if aments == [] then []
    else
      var init := aments[..|aments| - 1];
      assert forall i :: 0 <= i < |init| ==> init[i] == aments[i];
      AllPackages(init) + aments[|aments| - 1].packages
  }

  /** Loading prefixes one after another collects their packages one after another. */
  lemma {:induction false} AllPackagesAppend(a: seq<AmentPrefix>, b: seq<AmentPrefix>)
    ensures AllPackages(a + b) == AllPackages(a) + AllPackages(b)
    decreases |b|
  {
    if b == [] {
      assert a + b == a;
    } else {
      var init := b[..|b| - 1];
      assert (a + b)[..|a + b| - 1] == a + init && (a + b)[|a + b| - 1] == b[|b| - 1];
      AllPackagesAppend(a, init);
    }
  }

  /**
   * The names of all packages of all prefixes, one entry per package, in
   * the order of `AllPackages`: a name found in two packages is listed twice.
   */
  function AllPackageNames(aments: seq<AmentPrefix>): (r: seq<string>)
    ensures |r| == |AllPackages(aments)|
    ensures forall k :: 0 <= k < |r| ==> r[k] == AllPackages(aments)[k].name
    ensures forall n :: n in r <==> exists i, j :: 0 <= i < |aments| && 0 <= j < |aments[i].packages| && aments[i].packages[j].name == n
  {
    var ps := AllPackages(aments);
    var r := Names(ps);
    forall n ensures n in r ==> exists i, j :: 0 <= i < |aments| && 0 <= j < |aments[i].packages| && aments[i].packages[j].name == n {
      if n in r {
        var k :| 0 <= k < |r| && r[k] == n;
        assert ps[k] in ps;
        var i :| 0 <= i < |aments| && ps[k] in aments[i].packages;
        var j :| 0 <= j < |aments[i].packages| && aments[i].packages[j] == ps[k];
      }
    }
    forall n ensures (exists i, j :: 0 <= i < |aments| && 0 <= j < |aments[i].packages| && aments[i].packages[j].name == n) ==> n in r {
      if i, j :| 0 <= i < |aments| && 0 <= j < |aments[i].packages| && aments[i].packages[j].name == n {
        assert aments[i].packages[j] in ps;
        var k :| 0 <= k < |ps| && ps[k] == aments[i].packages[j];
        assert r[k] == n;
      }
    }
    r
  }

  /** No two packages, at different positions, have the same name. */
  predicate NamesUnique(ps: seq<IndexedPackage>) {
    forall k, l :: 0 <= k < l < |ps| ==> ps[k].name != ps[l].name
  }

  /**
   * The duplicate check of a build passes exactly when no two packages, in
   * the same prefix or in different ones, have the same name.
   */
  lemma DuplicateNamesIff(aments: seq<AmentPrefix>)
    ensures Distinct(AllPackageNames(aments)) <==> NamesUnique(AllPackages(aments))
  {
    var ns, ps := AllPackageNames(aments), AllPackages(aments);
    DistinctIff(ns);
    if Distinct(ns) {
      forall k, l | 0 <= k < l < |ps| ensures ps[k].name != ps[l].name {
        assert ns[k] == ps[k].name && ns[l] == ps[l].name;
      }
    } else {
      var k, l :| 0 <= k < l < |ns| && ns[k] == ns[l];
      assert ns[k] == ps[k].name && ns[l] == ps[l].name;
    }
  }

  // ---- the layout of one install prefix, as `load_ament_prefix` builds it ----

  const ResourceIndexDir := "share/ament_index/resource_index/rosidl_interfaces"

  /** `Path::join` with a relative path: a `/` is put between unless the base is empty or already ends with one. */
  function JoinPath(base: string, rel: string): (r: string)
    ensures StartsWith(r, base) && EndsWith(r, rel)
    ensures base == [] || base[|base| - 1] == '/' ==> r == base + rel
    ensures base != [] && base[|base| - 1] != '/' ==> r == base + "/" + rel
  {
    var r := if base == [] || base[|base| - 1] == '/' then base + rel else base + "/" + rel;
    assert r[|r| - |rel|..] == rel;
    r
  }

  /**
   * What loading a prefix rooted at `root` yields: the resource index, `lib`
   * and `include` directories below the root, and the packages of the index
   * in index order, with the excluded names left out and three libraries for
   * every other package.
   */
  ghost predicate LoadedFrom(a: AmentPrefix, root: string, exclude: set<string>) {
    && a.resourceDir == JoinPath(root, ResourceIndexDir)
    && a.libDir == JoinPath(root, "lib")
    && a.includeDir == JoinPath(root, "include")
    && exists names: seq<string> :: a.packages == IndexedPackages(names, exclude)
  }

  /** A loader that does what `load_ament_prefix` does with the index it reads. */
  ghost predicate LoadsIndex(load: PrefixLoader) {
    forall root, exclude :: load(root, exclude).Ok? ==> LoadedFrom(load(root, exclude).value, root, exclude)
  }

  /** Prefixes loaded by such a loader sit below their directories and hold no excluded package. */
  lemma {:induction false} LoadedPrefixes(dirs: seq<string>, exclude: set<string>, load: PrefixLoader)
    requires LoadsIndex(load) && LoadPrefixes(dirs, exclude, load).Ok?
    ensures var a := LoadPrefixes(dirs, exclude, load).value;
      && (forall i :: 0 <= i < |a| ==> LoadedFrom(a[i], dirs[i], exclude))
      && (forall p :: p in AllPackages(a) ==> p.name !in exclude && p.libraries == Libraries(p.name))
  {
    var a := LoadPrefixes(dirs, exclude, load).value;
    forall i | 0 <= i < |a| ensures LoadedFrom(a[i], dirs[i], exclude) {
      assert load(dirs[i], exclude) == Ok(a[i]);
    }
    forall p | p in AllPackages(a) ensures p.name !in exclude && p.libraries == Libraries(p.name) {
      var i :| 0 <= i < |a| && p in a[i].packages;
      assert LoadedFrom(a[i], dirs[i], exclude);
      var names :| a[i].packages == IndexedPackages(names, exclude);
    }
  }

  /** Two rerun commands per prefix: its resource directory, then its include directory. */
  function RerunCommands(aments: seq<AmentPrefix>): (r: seq<string>)
    ensures |r| == 2 * |aments|
    ensures forall i :: 0 <= i < |aments| ==>
      r[2 * i] == RerunPrefix + aments[i].resourceDir && r[2 * i + 1] == RerunPrefix + aments[i].includeDir
  {
    if aments == [] then []
    else
      var rest := RerunCommands(aments[1..]);
      var r := [RerunPrefix + aments[0].resourceDir, RerunPrefix + aments[0].includeDir] + rest;
      assert forall i :: 1 <= i < |aments| ==> r[2 * i] == rest[2 * (i - 1)] && r[2 * i + 1] == rest[2 * (i - 1) + 1];
      r
  }

  /**
   * The common first half of a build: the prefix directories are listed,
   * each is loaded, and the package names across all of them are sorted and
   * checked for duplicates. Returns the loaded prefixes and the names.
   */
  method CollectPackages(searchEnv: bool, env: Option<string>, paths: seq<string>, exclude: set<string>, load: PrefixLoader)
    returns (r: Result<(seq<AmentPrefix>, seq<string>), ConfigError>)
    ensures PrefixDirs(searchEnv, env, paths).Err? ==> r == Err(AmentPrefixPathUnset)
    ensures PrefixDirs(searchEnv, env, paths).Ok? ==>
      var loaded := LoadPrefixes(PrefixDirs(searchEnv, env, paths).value, exclude, load);
      && (loaded.Err? ==> r == Err(loaded.error))
      && (loaded.Ok? ==>
          && (r.Ok? <==> Distinct(AllPackageNames(loaded.value)))
          && (r.Ok? ==> r.value.0 == loaded.value && StrictlySorted(r.value.1)
                        && multiset(r.value.1) == multiset(AllPackageNames(loaded.value)))
          && (r.Err? ==> r.error.Duplicate? && LeastRepeated(AllPackageNames(loaded.value), r.error.error.name)))
    ensures LoadsIndex(load) && r.Ok? ==>
      && |r.value.0| == |PrefixDirs(searchEnv, env, paths).value|
      && (forall i :: 0 <= i < |r.value.0| ==> LoadedFrom(r.value.0[i], PrefixDirs(searchEnv, env, paths).value[i], exclude))
      && (forall p :: p in AllPackages(r.value.0) ==> p.name !in exclude && p.libraries == Libraries(p.name))
      && (forall n :: n in r.value.1 ==> n !in exclude)
  {
    var dirs := PrefixDirs(searchEnv, env, paths);
    if dirs.Err? {
      return Err(dirs.error);
    }
    var loaded := LoadPrefixes(dirs.value, exclude, load);
    if loaded.Err? {
      return Err(loaded.error);
    }
    var names := SortedPackageNames(AllPackageNames(loaded.value));
    if names.Err? {
      return Err(Duplicate(names.error));
    }
    if LoadsIndex(load) {
      LoadedPrefixes(dirs.value, exclude, load);
      forall n | n in names.value ensures n !in exclude {
        assert n in multiset(AllPackageNames(loaded.value));
        var k :| 0 <= k < |AllPackageNames(loaded.value)| && AllPackageNames(loaded.value)[k] == n;
        assert AllPackages(loaded.value)[k] in AllPackages(loaded.value);
      }
    }
    return Ok((loaded.value, names.value));
  }
}
