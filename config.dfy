/**
  The migration configuration the driver starts from: a default built from
  the tool version and the global command-line options, overridden field by
  field by a configuration file found at the repository root.

  Reading, parsing and writing the file are not modelled: what reading it
  produced (nothing, a parse failure, or the parsed top-level fields) is an
  input, and writing the default is reported as a flag.
*/
module ConfigStore {
  import opened Wrappers
  import Settings

  /** The global command-line options the driver reads (`options.parent`). */
  datatype GlobalOptions = GlobalOptions(recast: bool, prettier: bool)

  /** The configuration: tool version, the two global flags, and the settings per package path. */
  datatype Config = Config(
    version: string,
    prettier: bool,
    recast: bool,
    packages: map<string, Settings.PackageSettings>)

  /** The top-level fields of a parsed configuration file; an absent field is `None`. */
  datatype StoredConfig = StoredConfig(
    version: Option<string>,
    prettier: Option<bool>,
    recast: Option<bool>,
    packages: Option<map<string, Settings.PackageSettings>>)

  /** A file that holds no field the configuration knows (`{}`). */
  const NothingStored: StoredConfig := StoredConfig(None, None, None, None)

  /** The configuration built before anything is loaded: no package settings yet. */
  function Default(toolVersion: string, options: GlobalOptions): Config
  {
    Config(toolVersion, options.prettier, options.recast, map[])
  }

  /** The value of an optional field, or the fallback when it is absent. */
  function Or<T>(o: Option<T>, fallback: T): (r: T)
    ensures o.Some? ==> r == o.value
    ensures o.None? ==> r == fallback
  {
    if o.Some? then o.value else fallback
  }

  /** `Object.assign(config, existingConfig)`: fields present in the file replace the defaults, the others keep them. */
  function Override(c: Config, s: StoredConfig): (r: Config)
    ensures s.version.Some? ==> r.version == s.version.value
    ensures s.version.None? ==> r.version == c.version
    ensures s.prettier.Some? ==> r.prettier == s.prettier.value
    ensures s.prettier.None? ==> r.prettier == c.prettier
    ensures s.recast.Some? ==> r.recast == s.recast.value
    ensures s.recast.None? ==> r.recast == c.recast
    ensures s.packages.Some? ==> r.packages == s.packages.value
    ensures s.packages.None? ==> r.packages == c.packages
  {
    Config(Or(s.version, c.version), Or(s.prettier, c.prettier), Or(s.recast, c.recast), Or(s.packages, c.packages))
  }

  /** An empty file leaves the configuration as it was. */
  lemma OverrideNothing(c: Config)
    ensures Override(c, NothingStored) == c
  {
  }

  /** Loading the same file twice is loading it once. */
  lemma OverrideIdempotent(c: Config, s: StoredConfig)
    ensures Override(Override(c, s), s) == Override(c, s)
  {
  }

  /** A file that holds every field decides the whole configuration, whatever the defaults were. */
  lemma OverrideComplete(c1: Config, c2: Config, s: StoredConfig)
    requires s.version.Some? && s.prettier.Some? && s.recast.Some? && s.packages.Some?
    ensures Override(c1, s) == Override(c2, s)
  {
  }

  /** The configuration the run starts with, and whether the default was written because no file existed. */
  datatype Startup = Startup(config: Config, writeDefault: bool)

  /**
    The startup step: without a file the default is used and written; a file
    that fails to parse ends the run with a failure (the driver exits with
    status 1); a parsed file overrides the default.
  */
  method LoadConfig(toolVersion: string, options: GlobalOptions, existing: Option<Result<StoredConfig>>)
    returns (r: Result<Startup>)
    ensures r.Failure? <==> existing.Some? && existing.value.Failure?
    ensures existing.None? ==> r == Success(Startup(Default(toolVersion, options), true))
    ensures existing.Some? && existing.value.Success? ==>
      r == Success(Startup(Override(Default(toolVersion, options), existing.value.value), false))
  {
    var config := Default(toolVersion, options);
    if existing.Some? {
      match existing.value
      case Failure(e) =>
        return Failure("Failing to load config file. Exiting.");
      case Success(stored) =>
        config := Override(config, stored);
        return Success(Startup(config, false));
    }
    return Success(Startup(config, true));
  }
}
