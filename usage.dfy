/**
  Usage aggregation for one package: the sources the detector could parse,
  the dependencies the manifest declares, the imports and dependencies the
  sources use, and the compiler options that follow from them.

  Reading files and detecting each file's options are not modelled: each
  file of the package arrives with the detector's result, or `None` when
  the detector threw.
*/
module Usage {
  import opened Wrappers
  import opened Manifests
  import Paths

  /** What the detector reports for one file; of each import only the specifier is used. */
  datatype SourceOptions = SourceOptions(isFlow: bool, isJSX: bool, imports: seq<string>)

  /** A file the detector could parse: its repository-relative path and its options. */
  datatype ScannedSource = ScannedSource(relativePath: string, options: SourceOptions)

  /** The files kept by the scanning loop: those whose detection succeeded, in order. */
  function Scanned(files: seq<(string, Option<SourceOptions>)>): seq<ScannedSource>
    decreases |files|
  {
    if files == [] then []
    else
      var last := files[|files| - 1];
      Scanned(files[..|files| - 1]) + (if last.1.Some? then [ScannedSource(last.0, last.1.value)] else [])
  }

  /** A file is kept exactly when its detection succeeded, and nothing else is kept. */
  lemma {:induction false} ScannedMember(files: seq<(string, Option<SourceOptions>)>, s: ScannedSource)
    ensures s in Scanned(files) <==>
      exists i :: 0 <= i < |files| && files[i] == (s.relativePath, Some(s.options))
    ensures |Scanned(files)| <= |files|
    decreases |files|
  {
    if files != [] {
      var prev := files[..|files| - 1];
      ScannedMember(prev, s);
      assert forall i :: 0 <= i < |prev| ==> prev[i] == files[i];
      if s in Scanned(files) && s !in Scanned(prev) {
        assert files[|files| - 1] == (s.relativePath, Some(s.options));
      }
    }
  }

  /** The scanning loop: a file whose detection throws is reported and skipped. */
  method CollectSources(files: seq<(string, Option<SourceOptions>)>) returns (sources: seq<ScannedSource>)
    ensures sources == Scanned(files)
  {
    sources := [];
    for i := 0 to |files|
      invariant sources == Scanned(files[..i])
    {
      var (relativePath, detected) := files[i];
      assert files[..i + 1][..i] == files[..i];
      if detected.Some? {
        sources := sources + [ScannedSource(relativePath, detected.value)];
      }
    }
    assert files[..|files|] == files;
  }

  /**
    The declared dependencies of a manifest: the keys of its peer, dev and
    direct maps, each value taken from the direct map, else the dev map, else
    the peer map; nothing when the manifest was not read.
  */
  predicate MergedFrom(declared: map<string, string>, data: Option<PackageData>)
  {
    if data.None? then declared == map[]
    else
      var d := data.value;
      declared.Keys == d.peerDependencies.Keys + d.devDependencies.Keys + d.dependencies.Keys &&
      forall k :: k in declared ==>
        declared[k] ==
          if k in d.dependencies then d.dependencies[k]
          else if k in d.devDependencies then d.devDependencies[k]
          else d.peerDependencies[k]
  }

  /**
    `declaredDependencies`: `Object.assign({}, peer, dev, direct)` when the
    manifest was read, the empty object otherwise. Later maps win.
  */
  method MergeDependencies(data: Option<PackageData>) returns (declared: map<string, string>)
    ensures MergedFrom(declared, data)
  {
    declared := map[];
    if data.Some? {
      var d := data.value;
      declared := declared + d.peerDependencies;
      declared := declared + d.devDependencies;
      declared := declared + d.dependencies;
    }
  }

  /** `importName.startsWith('.')` */
  predicate IsRelative(specifier: string)
  {
    |specifier| > 0 && specifier[0] == '.'
  }

  /** The resolved paths of the relative specifiers of `imports`, seen from `file`. */
  function ResolvedImports(file: string, imports: seq<string>): set<string>
    decreases |imports|
  {
    if imports == [] then {}
    else
      var last := imports[|imports| - 1];
      ResolvedImports(file, imports[..|imports| - 1]) +
        (if IsRelative(last) then {Paths.ResolveImport(file, last)} else {})
  }

  /** The first segments of the non-relative specifiers of `imports`. */
  function ExternalRoots(imports: seq<string>): set<string>
    decreases |imports|
  {
    if imports == [] then {}
    else
      var last := imports[|imports| - 1];
      ExternalRoots(imports[..|imports| - 1]) +
        (if IsRelative(last) then {} else {Paths.FirstSegment(last)})
  }

  lemma {:induction false} ResolvedImportsMember(file: string, imports: seq<string>, x: string)
    ensures x in ResolvedImports(file, imports) <==>
      exists j :: 0 <= j < |imports| && IsRelative(imports[j]) && x == Paths.ResolveImport(file, imports[j])
    decreases |imports|
  {
    if imports != [] {
      var prev := imports[..|imports| - 1];
      ResolvedImportsMember(file, prev, x);
      assert forall j :: 0 <= j < |prev| ==> prev[j] == imports[j];
    }
  }

  /** An external dependency is the first `/`-segment of some non-relative specifier. */
  lemma {:induction false} ExternalRootsMember(imports: seq<string>, x: string)
    ensures x in ExternalRoots(imports) <==>
      exists j :: 0 <= j < |imports| && !IsRelative(imports[j]) && x == Paths.FirstSegment(imports[j])
    decreases |imports|
  {
    if imports != [] {
      var prev := imports[..|imports| - 1];
      ExternalRootsMember(prev, x);
      assert forall j :: 0 <= j < |prev| ==> prev[j] == imports[j];
    }
  }

  /** Extending the recorded prefix of a file's imports by one specifier. */
  lemma ImportsStep(file: string, imports: seq<string>, j: nat)
    requires j < |imports|
    ensures ResolvedImports(file, imports[..j + 1]) ==
      ResolvedImports(file, imports[..j]) + (if IsRelative(imports[j]) then {Paths.ResolveImport(file, imports[j])} else {})
    ensures ExternalRoots(imports[..j + 1]) ==
      ExternalRoots(imports[..j]) + (if IsRelative(imports[j]) then {} else {Paths.FirstSegment(imports[j])})
  {
    assert imports[..j + 1][..j] == imports[..j] && imports[..j + 1][j] == imports[j];
  }

  /** `usedImports` after the given sources. */
  function UsedImports(sources: seq<ScannedSource>): set<string>
    decreases |sources|
  {
    if sources == [] then {}
    else
      var last := sources[|sources| - 1];
      UsedImports(sources[..|sources| - 1]) + ResolvedImports(last.relativePath, last.options.imports)
  }

  /** `usedFlowImports` after the given sources. */
  function UsedFlowImports(sources: seq<ScannedSource>): set<string>
    decreases |sources|
  {
    if sources == [] then {}
    else
      var last := sources[|sources| - 1];
      UsedFlowImports(sources[..|sources| - 1]) +
        (if last.options.isFlow then ResolvedImports(last.relativePath, last.options.imports) else {})
  }

  /** `usedDependencies` after the given sources. */
  function UsedDependencies(sources: seq<ScannedSource>): set<string>
    decreases |sources|
  {
    if sources == [] then {}
    else
      var last := sources[|sources| - 1];
      UsedDependencies(sources[..|sources| - 1]) + ExternalRoots(last.options.imports)
  }

  /** Some source uses JSX. */
  predicate AnyJSX(sources: seq<ScannedSource>)
  {
    exists i :: 0 <= i < |sources| && sources[i].options.isJSX
  }

  /** Some source is plain JavaScript, not Flow. */
  predicate AnyJS(sources: seq<ScannedSource>)
  {
    exists i :: 0 <= i < |sources| && !sources[i].options.isFlow
  }

  /** Extending the scanned prefix by one source extends both flags by that source's. */
  lemma FlagsStep(sources: seq<ScannedSource>, i: nat)
    requires i < |sources|
    ensures AnyJSX(sources[..i + 1]) <==> AnyJSX(sources[..i]) || sources[i].options.isJSX
    ensures AnyJS(sources[..i + 1]) <==> AnyJS(sources[..i]) || !sources[i].options.isFlow
  {
    var p, q := sources[..i], sources[..i + 1];
    assert q == p + [sources[i]];
    assert forall k :: 0 <= k < i ==> q[k] == p[k];
  }

  /** What the aggregation loop computes over the scanned sources. */
  datatype Usage = Usage(
    usedDependencies: set<string>,
    usedImports: set<string>,
    usedFlowImports: set<string>,
    hasJSX: bool,
    hasJS: bool)

  /** A path is a used import exactly when some source resolves one of its relative specifiers to it. */
  lemma {:induction false} UsedImportsMember(sources: seq<ScannedSource>, x: string)
    ensures x in UsedImports(sources) <==>
      exists i :: 0 <= i < |sources| && x in ResolvedImports(sources[i].relativePath, sources[i].options.imports)
    decreases |sources|
  {
    if sources != [] {
      var prev := sources[..|sources| - 1];
      UsedImportsMember(prev, x);
      assert forall i :: 0 <= i < |prev| ==> prev[i] == sources[i];
    }
  }

  /** A path is a used Flow import exactly when some Flow source resolves one of its relative specifiers to it. */
  lemma {:induction false} UsedFlowImportsMember(sources: seq<ScannedSource>, x: string)
    ensures x in UsedFlowImports(sources) <==>
      exists i :: 0 <= i < |sources| && sources[i].options.isFlow &&
        x in ResolvedImports(sources[i].relativePath, sources[i].options.imports)
    decreases |sources|
  {
    if sources != [] {
      var prev := sources[..|sources| - 1];
      UsedFlowImportsMember(prev, x);
      assert forall i :: 0 <= i < |prev| ==> prev[i] == sources[i];
    }
  }

  /** A dependency is used exactly when some source imports it by a non-relative specifier. */
  lemma {:induction false} UsedDependenciesMember(sources: seq<ScannedSource>, x: string)
    ensures x in UsedDependencies(sources) <==>
      exists i :: 0 <= i < |sources| && x in ExternalRoots(sources[i].options.imports)
    decreases |sources|
  {
    if sources != [] {
      var prev := sources[..|sources| - 1];
      UsedDependenciesMember(prev, x);
      assert forall i :: 0 <= i < |prev| ==> prev[i] == sources[i];
    }
  }

  /** Every Flow import is an import. */
  lemma {:induction false} FlowImportsAreImports(sources: seq<ScannedSource>)
    ensures UsedFlowImports(sources) <= UsedImports(sources)
    decreases |sources|
  {
    if sources != [] {
      FlowImportsAreImports(sources[..|sources| - 1]);
    }
  }

  /**
    The inner loop over one file's imports: each relative specifier is
    resolved against the file's directory and recorded as an import (and as
    a Flow import when the file is Flow); every other specifier records its
    first segment as a dependency.
  */
  method RecordImports(file: string, isFlow: bool, imports: seq<string>,
                       usedImports0: set<string>, usedFlowImports0: set<string>, usedDependencies0: set<string>)
    returns (usedImports: set<string>, usedFlowImports: set<string>, usedDependencies: set<string>)
    ensures usedImports == usedImports0 + ResolvedImports(file, imports)
    ensures usedFlowImports == usedFlowImports0 + (if isFlow then ResolvedImports(file, imports) else {})
    ensures usedDependencies == usedDependencies0 + ExternalRoots(imports)
  {
    usedImports, usedFlowImports, usedDependencies := usedImports0, usedFlowImports0, usedDependencies0;
    for j := 0 to |imports|
      invariant usedImports == usedImports0 + ResolvedImports(file, imports[..j])
      invariant usedFlowImports == usedFlowImports0 + (if isFlow then ResolvedImports(file, imports[..j]) else {})
      invariant usedDependencies == usedDependencies0 + ExternalRoots(imports[..j])
    {
      var importName := imports[j];
      ImportsStep(file, imports, j);
      if IsRelative(importName) {
        var resolvedImport := Paths.ResolveImport(file, importName);
        usedImports := usedImports + {resolvedImport};
        if isFlow {
          usedFlowImports := usedFlowImports + {resolvedImport};
        }
      } else {
        usedDependencies := usedDependencies + {Paths.FirstSegment(importName)};
      }
    }
    assert imports[..|imports|] == imports;
  }

  /**
    The aggregation loop: a JSX source sets `hasJSX`, a non-Flow source sets
    `hasJS`, and the imports of every source are recorded.
  */
  method Aggregate(sources: seq<ScannedSource>) returns (u: Usage)
    ensures u.usedImports == UsedImports(sources)
    ensures u.usedFlowImports == UsedFlowImports(sources)
    ensures u.usedDependencies == UsedDependencies(sources)
    ensures u.hasJSX <==> AnyJSX(sources)
    ensures u.hasJS <==> AnyJS(sources)
  {
    var usedDependencies: set<string> := {};
    var usedImports: set<string> := {};
    var usedFlowImports: set<string> := {};
    var hasJSX := false;
    var hasJS := false;
    for i := 0 to |sources|
      invariant usedImports == UsedImports(sources[..i])
      invariant usedFlowImports == UsedFlowImports(sources[..i])
      invariant usedDependencies == UsedDependencies(sources[..i])
      invariant hasJSX <==> AnyJSX(sources[..i])
      invariant hasJS <==> AnyJS(sources[..i])
    {
      var src := sources[i];
      assert sources[..i + 1][..i] == sources[..i] && sources[..i + 1][i] == src;
      FlagsStep(sources, i);
      if src.options.isJSX {
        hasJSX := true;
      }
      if !src.options.isFlow {
        hasJS := true;
      }
      usedImports, usedFlowImports, usedDependencies :=
        RecordImports(src.relativePath, src.options.isFlow, src.options.imports,
                      usedImports, usedFlowImports, usedDependencies);
    }
    assert sources[..|sources|] == sources;
    u := Usage(usedDependencies, usedImports, usedFlowImports, hasJSX, hasJS);
  }

  /** The `jsx` values the options type admits. */
  datatype JsxMode = React | ReactNative | Preserve | NoJsx

  /** `tsconfig.compilerOptions`: an absent option is `None`. */
  datatype CompilerOptions = CompilerOptions(allowJs: Option<bool>, jsx: Option<JsxMode>, strict: Option<bool>)

  /**
    The compiler options of a package: `strict` is always false, `allowJs`
    is set (to true) exactly when some source is plain JavaScript, `jsx` is
    set (to `react`) exactly when some source uses JSX.
  */
  method DeriveCompilerOptions(hasJS: bool, hasJSX: bool) returns (c: CompilerOptions)
    ensures c.strict == Some(false)
    ensures c.allowJs.Some? <==> hasJS
    ensures c.allowJs.Some? ==> c.allowJs.value
    ensures c.jsx == Some(React) <==> hasJSX
    ensures c.jsx.Some? ==> c.jsx.value == React
  {
    c := CompilerOptions(None, None, Some(false));
    if hasJS {
      c := c.(allowJs := Some(true));
    }
    if hasJSX {
      c := c.(jsx := Some(React));
    }
  }
}
