/**
  The repository driver: load the configuration, turn the discovered
  manifests into records, register their names, build the containment trie,
  extract the topology, and derive for every package its settings, its
  declared dependencies, its usage summary and its compiler options.

  Globbing and per-file detection are one input, `scan`: given a package's
  settings it yields the files the glob matches, each with the detector's
  result or `None` when the detector threw. The derived per-package values
  are returned; the driver never stores them in the configuration.
*/
module Repository {
  import opened Wrappers
  import opened Manifests
  import opened Trie
  import opened Extraction
  import opened Settings
  import opened ConfigStore
  import Usage
  import Paths

  /** The files of one package as the glob and the detector see them. */
  type Scanner = PackageSettings -> seq<(string, Option<Usage.SourceOptions>)>

  /** Everything the driver derives for one package of the topology. */
  datatype PackagePlan = PackagePlan(
    entry: Entry,
    settings: PackageSettings,
    declaredDependencies: map<string, string>,
    usage: Usage.Usage,
    compilerOptions: Usage.CompilerOptions)

  /** What a successful run produces. */
  datatype Outcome = Outcome(
    startup: Startup,
    packages: seq<ManifestRecord>,
    named: map<string, ManifestRecord>,
    plans: seq<PackagePlan>)

  /** `p` is what the driver derives for the topology entry `e` when its files are `scan(settings)`. */
  predicate Planned(p: PackagePlan, e: Entry, scan: Scanner)
  {
    var sources := Usage.Scanned(scan(p.settings));
    p.entry == e &&
    p.settings == SettingsFor(e.info.path, e.excludes) &&
    Usage.MergedFrom(p.declaredDependencies, e.info.data) &&
    p.usage.usedImports == Usage.UsedImports(sources) &&
    p.usage.usedFlowImports == Usage.UsedFlowImports(sources) &&
    p.usage.usedDependencies == Usage.UsedDependencies(sources) &&
    (p.usage.hasJS <==> Usage.AnyJS(sources)) &&
    (p.usage.hasJSX <==> Usage.AnyJSX(sources)) &&
    p.compilerOptions.strict == Some(false) &&
    (p.compilerOptions.allowJs == Some(true) <==> p.usage.hasJS) &&
    (p.compilerOptions.allowJs.Some? ==> p.usage.hasJS) &&
    (p.compilerOptions.jsx == Some(Usage.React) <==> p.usage.hasJSX) &&
    (p.compilerOptions.jsx.Some? ==> p.usage.hasJSX)
  }

  /** One iteration of the per-package loop: settings, scan, merge, aggregation, compiler options. */
  method PlanPackage(e: Entry, scan: Scanner) returns (p: PackagePlan)
    ensures Planned(p, e, scan)
    ensures |p.settings.ignores| == 1 + |e.excludes|
  {
    var settings := SettingsFor(e.info.path, e.excludes);
    var sources := Usage.CollectSources(scan(settings));
    var declared := Usage.MergeDependencies(e.info.data);
    var usage := Usage.Aggregate(sources);
    var compilerOptions := Usage.DeriveCompilerOptions(usage.hasJS, usage.hasJSX);
    p := PackagePlan(e, settings, declared, usage, compilerOptions);
  }

  /** The per-package loop: one plan per topology entry, in the order of the entries. */
  method PlanAll(entries: seq<Entry>, scan: Scanner) returns (plans: seq<PackagePlan>)
    ensures |plans| == |entries|
    ensures forall k :: 0 <= k < |entries| ==> Planned(plans[k], entries[k], scan)
  {
    plans := [];
    for k := 0 to |entries|
      invariant |plans| == k
      invariant forall j :: 0 <= j < k ==> Planned(plans[j], entries[j], scan)
    {
      var p := PlanPackage(entries[k], scan);
      plans := plans + [p];
    }
  }

  /**
    The whole run. A configuration file that does not parse ends it with a
    failure. Otherwise every discovered path yields one record, the registry
    keeps the first record of each name, and the plans follow the traversal
    of the built trie, one per entry, in its order. The configuration is the
    one loaded at startup: the derived settings are not stored in it.
  */
  method ConvertRepository(
    toolVersion: string, options: GlobalOptions, existing: Option<Result<StoredConfig>>,
    found: seq<(string, ReadOutcome)>, scan: Scanner)
    returns (r: Result<Outcome>)
    ensures r.Failure? <==> existing.Some? && existing.value.Failure?
    ensures r.Success? && existing.None? ==> r.value.startup == Startup(Default(toolVersion, options), true)
    ensures r.Success? && existing.Some? ==>
      r.value.startup == Startup(Override(Default(toolVersion, options), existing.value.value), false)
    ensures r.Success? ==>
      |r.value.packages| == |found| &&
      forall i :: 0 <= i < |found| ==> r.value.packages[i] == RecordFor(found[i].0, found[i].1)
    ensures r.Success? ==>
      (forall n :: n in r.value.named <==> FirstDeclaring(r.value.packages, n).Some?) &&
      (forall n :: n in r.value.named ==> r.value.named[n] == FirstDeclaring(r.value.packages, n).value)
    ensures r.Success? ==>
      var topology := Walk(Build(r.value.packages));
      |r.value.plans| == |topology| &&
      forall k :: 0 <= k < |topology| ==> Planned(r.value.plans[k], topology[k], scan)
  {
    var loaded := LoadConfig(toolVersion, options, existing);
    if loaded.Failure? {
      return Failure(loaded.error);
    }
    var packages := LoadManifests(found);
    var named := BuildRegistry(packages);
    var root := BuildTrie(packages);
    var plans := PlanAll(Walk(root), scan);
    return Success(Outcome(loaded.value, packages, named, plans));
  }

  /**
    The plan of a package is determined by its entry and its files: two runs
    over an unchanged repository derive the same settings, dependencies,
    usage and compiler options.
  */
  lemma PlannedUnique(p1: PackagePlan, p2: PackagePlan, e: Entry, scan: Scanner)
    requires Planned(p1, e, scan) && Planned(p2, e, scan)
    ensures p1 == p2
  {
  }

  /**
    The ignore globs of every package of the topology: the `node_modules`
    glob, then one glob for each package nested below it at any depth, in
    traversal order, and for nothing else.
  */
  lemma IgnoresExact(ps: seq<ManifestRecord>, k: nat)
    requires k < |Walk(Build(ps))|
    ensures var e := Walk(Build(ps))[k];
      SettingsFor(e.info.path, e.excludes).ignores == Ignores(Nested(e.parts, Walk(Build(ps))))
  {
    BuildAt(ps, []);
    ExcludesExact(Build(ps), k);
  }

  /**
    Of two manifests declaring the same name, the later one is left out of
    the registry but still has its entry in the topology (and so its plan).
  */
  lemma DuplicateStillPlanned(ps: seq<ManifestRecord>, i: nat, j: nat, name: string)
    requires i < j < |ps| && Declares(ps[i], name) && Declares(ps[j], name)
    requires forall a, b :: 0 <= a < b < |ps| ==> Paths.Dir(ps[a].path) != Paths.Dir(ps[b].path)
    ensures FirstDeclaring(ps, name).Some? && FirstDeclaring(ps, name).value != ps[j]
    ensures exists k :: 0 <= k < |Walk(Build(ps))| && Walk(Build(ps))[k].info == ps[j]
  {
    forall a | 0 <= a < j ensures ps[a].path != ps[j].path {
    }
    LaterDuplicateIgnored(ps, i, j, name);
    OneEntryPerManifest(ps, j);
  }
}
