/**
  The per-package settings the driver derives for each entry of the
  topology: the glob of source files to scan (the manifest's directory
  followed by the source-file pattern) and the globs to ignore (`node_modules`
  and every nested package directory).
*/
module Settings {
  import opened Paths

  /** `baseConfig.sources`: every JavaScript or Flow source below a directory. */
  const SourceGlob: string := "**/*.{js,mjs,jsx,js.flow}"

  /** `baseConfig.ignores[0]`. */
  const NodeModulesGlob: string := "**/node_modules/**"

  /** The file name every manifest path ends with. */
  const ManifestName: string := "package.json"

  /** The settings of one package: its source glob and its ignore globs. */
  datatype PackageSettings = PackageSettings(sources: string, ignores: seq<string>)

  /** The last segment of a `/`-separated path (`path.basename`). */
  function FileName(path: string): (name: string)
    ensures Sep !in name
  {
    var parts := Split(path, Sep);
    SplitPiecesNoSep(path, Sep);
    parts[|parts| - 1]
  }

  /** The directory of a path written as a prefix: empty at the root, else the directory and a separator. */
  function DirPrefix(path: string): string
  {
    var d := Dir(path);
    if d == [] then "" else Join(d, Sep) + [Sep]
  }

  /** A path is its directory prefix followed by its file name. */
  lemma DirPrefixFileName(path: string)
    ensures path == DirPrefix(path) + FileName(path)
  {
    var parts := Split(path, Sep);
    var d := Dir(path);
    JoinSplit(path, Sep);
    assert parts == d + [FileName(path)];
    if d != [] {
      JoinSnoc(d, FileName(path), Sep);
    }
  }

  /** `packagePath.replace('package.json', sources)` as written: the first occurrence of the name is replaced. */
  function SourcesAsWritten(path: string): string
  {
    ReplaceFirst(path, ManifestName, SourceGlob)
  }

  /** The source glob of a package: the manifest's directory followed by the source pattern. */
  function Sources(path: string): string
  {
    DirPrefix(path) + SourceGlob
  }

  /** The source glob is the manifest path with its file name replaced by the source pattern. */
  lemma SourcesReplaceFileName(path: string)
    ensures |FileName(path)| <= |path|
    ensures Sources(path) == path[..|path| - |FileName(path)|] + SourceGlob
  {
    DirPrefixFileName(path);
    assert path[..|DirPrefix(path)|] == DirPrefix(path);
  }

  /** A directory prefix followed by a pattern splits into the directory's segments followed by the pattern's. */
  lemma DirPrefixSplit(path: string, pattern: string)
    ensures Split(DirPrefix(path) + pattern, Sep) == Dir(path) + Split(pattern, Sep)
  {
    var d := Dir(path);
    if d != [] {
      SplitJoin(d, Sep);
      SplitConcat(Join(d, Sep), pattern, Sep);
      assert DirPrefix(path) + pattern == Join(d, Sep) + [Sep] + pattern;
    } else {
      assert DirPrefix(path) + pattern == pattern;
    }
  }

  /**
    When the manifest's file name is `package.json` and the name occurs
    nowhere before it, the replacement as written yields the source glob.
  */
  lemma SourcesAgree(path: string)
    requires FileName(path) == ManifestName
    requires forall j: nat :: j < |DirPrefix(path)| ==> !MatchAt(path, ManifestName, j)
    ensures SourcesAsWritten(path) == Sources(path)
  {
    DirPrefixFileName(path);
    var i := |DirPrefix(path)|;
    assert path[i..i + |ManifestName|] == ManifestName;
    assert MatchAt(path, ManifestName, i);
    var k := FirstMatch(path, ManifestName);
    assert k == i;
    assert path[..i] == DirPrefix(path);
    assert path[i + |ManifestName|..] == [];
  }

  /** A file directly inside a one-segment directory. */
  lemma OneLevelPath(path: string, dir: string, name: string)
    requires path == dir + "/" + name && Sep !in dir && Sep !in name
    ensures Dir(path) == [dir] && DirPrefix(path) == dir + "/"
  {
    SplitTwo(dir, name);
  }

  /**
    A directory whose name contains `package.json` receives the replacement
    instead of the file name: the glob as written differs from the source
    glob of the package's directory, at the first character of the match.
  */
  lemma SourcesAsWrittenMisplaced(path: string, dir: string, before: string, after: string)
    requires dir == before + ManifestName + after && Sep !in dir && '*' !in dir
    requires path == dir + "/" + ManifestName
    ensures Sources(path) == dir + "/" + SourceGlob
    ensures FirstMatch(path, ManifestName) < |dir|
    ensures SourcesAsWritten(path) != Sources(path)
  {
    OneLevelPath(path, dir, ManifestName);
    var k := |before|;
    assert path == before + ManifestName + (after + "/" + ManifestName);
    assert path[k..k + |ManifestName|] == ManifestName;
    assert MatchAt(path, ManifestName, k);
    var i := FirstMatch(path, ManifestName);
    assert i <= k < |dir|;
    var w := SourcesAsWritten(path);
    assert w == path[..i] + SourceGlob + path[i + |ManifestName|..];
    assert w[i] == SourceGlob[0] == '*';
    assert Sources(path)[i] == dir[i] != '*';
  }

  /** `a-package.json/package.json`: the glob as written is not scoped to the package's directory. */
  lemma SourcesAsWrittenExample(path: string, dir: string, before: string)
    requires path == "a-package.json/package.json" && dir == "a-package.json" && before == "a-"
    ensures SourcesAsWritten(path) != Sources(path)
  {
    assert dir == before + ManifestName + [];
    assert path == dir + "/" + ManifestName;
    SourcesAsWrittenMisplaced(path, dir, before, []);
  }

  /** The glob for everything below a nested package's directory: the directory, then a separator and `**`. */
  function IgnoreGlob(e: seq<string>): string
  {
    Join(e, Sep) + "/**"
  }

  /** Each ignore glob of a nested directory gives that directory back. */
  lemma IgnoreGlobDirectory(e: seq<string>)
    requires |e| >= 1 && NoSep(e, Sep)
    ensures |IgnoreGlob(e)| >= 3
    ensures Split(IgnoreGlob(e)[..|IgnoreGlob(e)| - 3], Sep) == e
  {
    assert IgnoreGlob(e)[..|IgnoreGlob(e)| - 3] == Join(e, Sep);
    SplitJoin(e, Sep);
  }

  /** The node_modules glob followed by one glob per nested package directory, in order. */
  function Ignores(excludes: seq<seq<string>>): (r: seq<string>)
    ensures |r| == 1 + |excludes|
    ensures r[0] == NodeModulesGlob
    ensures forall i :: 0 <= i < |excludes| ==> r[i + 1] == IgnoreGlob(excludes[i])
  {
    [NodeModulesGlob] + seq(|excludes|, i requires 0 <= i < |excludes| => IgnoreGlob(excludes[i]))
  }

  /** The settings of the package at `path` with nested package directories `excludes`. */
  function SettingsFor(path: string, excludes: seq<seq<string>>): PackageSettings
  {
    PackageSettings(Sources(path), Ignores(excludes))
  }
}
