/** The build configuration of the code generator and its `build` step. */
module BuildConfig {
  import opened Wrappers
  import opened PackageNames
  import opened AmentPrefixes

  /** The settings of a configuration, as one value. */
  datatype Settings = Settings(
    searchEnv: bool,
    linkRpath: bool,
    emitBuildScript: bool,
    amentPrefixPaths: seq<string>,
    excludePackages: set<string>,
    outputDir: string)

  /** What a successful build hands on to code generation and linking. */
  datatype Compiler = Compiler(buildScript: seq<string>, packageNames: seq<string>, aments: seq<AmentPrefix>)

  class CompileConfig {
    var searchEnv: bool
    var linkRpath: bool
    var emitBuildScript: bool
    var amentPrefixPaths: seq<string>
    var excludePackages: set<string>
    var outputDir: string

    function Current(): Settings
      reads this
    {
      Settings(searchEnv, linkRpath, emitBuildScript, amentPrefixPaths, excludePackages, outputDir)
    }

    /** The defaults; `outDir` is the value of `OUT_DIR`. */
    constructor(outDir: string)
      ensures Current() == Settings(true, true, true, [], DefaultExcludedPackages, outDir)
    {
      searchEnv := true;
      amentPrefixPaths := [];
      outputDir := outDir;
      excludePackages := DefaultExcludedPackages;
      linkRpath := true;
      emitBuildScript := true;
    }

    method EmitBuildScript(yes: bool)
      modifies this
      ensures Current() == old(Current()).(emitBuildScript := yes)
    {
      emitBuildScript := yes;
    }

    method SearchEnv(yes: bool)
      modifies this
      ensures Current() == old(Current()).(searchEnv := yes)
    {
      searchEnv := yes;
    }

    method AmentPrefixPath(dir: string)
      modifies this
      ensures Current() == old(Current()).(amentPrefixPaths := old(amentPrefixPaths) + [dir])
    {
      amentPrefixPaths := amentPrefixPaths + [dir];
    }

    method AmentPrefixPaths(dirs: seq<string>)
      modifies this
      ensures Current() == old(Current()).(amentPrefixPaths := old(amentPrefixPaths) + dirs)
    {
      amentPrefixPaths := amentPrefixPaths + dirs;
    }

    method LinkRpath(yes: bool)
      modifies this
      ensures Current() == old(Current()).(linkRpath := yes)
    {
      linkRpath := yes;
    }

    method OutDir(dir: string)
      modifies this
      ensures Current() == old(Current()).(outputDir := dir)
    {
      outputDir := dir;
    }

    method ClearExcludePackages()
      modifies this
      ensures Current() == old(Current()).(excludePackages := {})
    {
      excludePackages := {};
    }

    method ExcludePackage(package: string)
      modifies this
      ensures Current() == old(Current()).(excludePackages := old(excludePackages) + {package})
    {
      excludePackages := excludePackages + {package};
    }

    method ExcludePackages(packages: seq<string>)
      modifies this
      ensures Current() == old(Current()).(excludePackages := old(excludePackages) + set p | p in packages)
    {
      excludePackages := excludePackages + set p | p in packages;
    }

    /**
     * Lists the packages of every prefix, rejects duplicated names, and
     * collects the build script: the environment rerun command when the
     * environment is searched, then two rerun commands per prefix.
     */
    method Build(env: Option<string>, load: PrefixLoader) returns (r: Result<Compiler, ConfigError>)
      ensures PrefixDirs(searchEnv, env, amentPrefixPaths).Err? ==> r == Err(AmentPrefixPathUnset)
      ensures PrefixDirs(searchEnv, env, amentPrefixPaths).Ok? ==>
        var loaded := LoadPrefixes(PrefixDirs(searchEnv, env, amentPrefixPaths).value, excludePackages, load);
        && (loaded.Err? ==> r == Err(loaded.error))
        && (loaded.Ok? ==>
            && (r.Ok? <==> Distinct(AllPackageNames(loaded.value)))
            && (r.Ok? ==> r.value.aments == loaded.value
                          && r.value.buildScript == EnvCommands(searchEnv) + RerunCommands(loaded.value)
                          && StrictlySorted(r.value.packageNames)
                          && multiset(r.value.packageNames) == multiset(AllPackageNames(loaded.value)))
            && (r.Err? ==> r.error.Duplicate? && LeastRepeated(AllPackageNames(loaded.value), r.error.error.name)))
      ensures LoadsIndex(load) && r.Ok? ==>
        var dirs := PrefixDirs(searchEnv, env, amentPrefixPaths).value;
        && |r.value.aments| == |dirs|
        && (forall i :: 0 <= i < |dirs| ==> LoadedFrom(r.value.aments[i], dirs[i], excludePackages))
        && (forall n :: n in r.value.packageNames ==> n !in excludePackages)
    {
      var buildScript := EnvCommands(searchEnv);
      var collected := CollectPackages(searchEnv, env, amentPrefixPaths, excludePackages, load);
      if collected.Err? {
        return Err(collected.error);
      }
      var (aments, packageNames) := collected.value;
      buildScript := buildScript + RerunCommands(aments);
      return Ok(Compiler(buildScript, packageNames, aments));
    }
  }
}
