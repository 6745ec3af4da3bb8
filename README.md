# flowts repository planning, modelled in Dafny

This project models the repository-level planning logic of flowts
(`convertRepository`), the driver that prepares a Flow-to-TypeScript
migration of a multi-package repository. From the list of discovered
`package.json` files and, per package, the results of scanning its source
files, the driver:

1. loads the migration configuration (defaults overridden by an existing
   `flow-ts-config.json`, or a fatal failure when that file does not parse);
2. turns every manifest path into a record carrying its parsed data or an
   error flag;
3. registers packages by declared name, first one wins (`namedPackages`);
4. builds a containment trie with one folder per directory segment and
   attaches each manifest to the folder of its directory;
5. walks the trie in post-order (`walkFolders`), giving every package its
   directory segments and the directories of all packages nested below it;
6. derives per package a `sources` glob and an `ignores` list, merges the
   declared dependencies (peer, then dev, then direct), aggregates the
   imports and the `hasJS`/`hasJSX` flags over the scanned files, and
   derives a `compilerOptions` fragment.

Modules, one per component of the driver:

- `Wrappers` (`wrappers.dfy`): `Option` and `Result`.
- `Paths` (`paths.dfy`): `split('/')`, `join('/')`, `path.dirname`, the
  `.`/`..` normalisation of `path.resolve` clamped at the root, first-segment
  extraction, and `String.prototype.replace` with a string pattern.
- `Manifests` (`manifests.dfy`): the manifest loading loop and the name
  registry, both as methods with loops.
- `Trie` (`trie.dfy`): the folder trie, the builder loop as a method, and the
  ownership law of the built trie.
- `Extraction` (`extraction.dfy`): `walkFolders` as a recursive function and
  the topology properties: exact excludes, post-order, one entry per manifest.
- `Settings` (`settings.dfy`): the `sources` and `ignores` globs.
- `Usage` (`usage.dfy`): the file-scanning loop, the dependency merge, the
  import aggregation loop and the compiler options.
- `ConfigStore` (`config.dfy`): the default configuration and its override by
  a loaded file.
- `Repository` (`repository.dfy`): the whole run and the per-package loop.
- `Scenario` (`scenario.dfy`): the three-package nesting example, worked out.

Where the design description and the code disagree, the model follows the
code:

- The derived per-package settings and compiler options are never stored in
  the configuration or written to disk. `Repository.ConvertRepository`
  returns them and leaves the configuration as loaded.
- Excludes and ignore globs are ordered lists in traversal order, not sets.
- A manifest that failed to load keeps a record and a topology entry, and
  stays out of the name registry only. The design gives it a plan as well,
  and so does the model. As written, though, the progress message before the
  plan would throw for it (see "## Left out").

## Model

| member | source | states |
|---|---|---|
| `Manifests.RecordFor` | src/convertRepository.ts:88-104 | the record pushed for a path carries that path, has data exactly when reading succeeded, and flags an error exactly when reading threw |
| `Manifests.LoadManifests` | src/convertRepository.ts:82-106 | one record per discovered path, in discovery order; a failed read marks only its own record and does not stop the others |
| `Manifests.LoadRoundsAsWritten` | src/convertRepository.ts:86-105 | as written, after any number of iterations the `retry` guard still holds and the same record has been pushed once per iteration |
| `Manifests.FirstDeclaringIsFirst` | src/convertRepository.ts:112-133 | the registry's choice for a name is the earliest record declaring it, and there is none exactly when no record declares it |
| `Manifests.BuildRegistry` | src/convertRepository.ts:111-133 | a name is a key exactly when some error-free record declares it non-empty; its value is the first such record, which declares that name; the registry has at most as many keys as there are records |
| `Manifests.LaterDuplicateIgnored` | src/convertRepository.ts:116-127 | of two records declaring the same name, the later one never becomes the registry's entry |
| `Trie.FindChild` | src/convertRepository.ts:155 | the lookup of a child by name finds a child with that name, or reports that none has it |
| `Trie.Insert` | src/convertRepository.ts:149-168 | the descent for one manifest keeps existing children in place and appends a missing child last, as `Map` insertion order does |
| `Trie.InsertAt` | src/convertRepository.ts:149-168 | attaching a manifest keeps child names distinct and changes the owner of exactly the folder at its directory |
| `Trie.LastAtCovers` | src/convertRepository.ts:144-169 | every manifest's directory is owned after the build, and by that manifest itself when no other manifest shares its directory |
| `Trie.BuildAt` | src/convertRepository.ts:144-169 | in the built trie each folder is owned by the last manifest whose directory it is, and by nothing when there is none |
| `Trie.FirstHeadsMember` | src/convertRepository.ts:144-169 | a top-level directory is listed exactly when some manifest lies below it |
| `Trie.FirstHeadsPrefix` | src/convertRepository.ts:144-169 | the top-level directories of the first manifests come first, in the same order, among those of all manifests |
| `Trie.BuildNames` | src/convertRepository.ts:154-161 | the root's children, in insertion order, are the top-level directories in the order of their first manifest |
| `Trie.BuildTrie` | src/convertRepository.ts:139-169 | the builder loop, a root `package.json` attaching to the root folder, yields the trie whose ownership `BuildAt` describes |
| `Extraction.WalkGood` | src/convertRepository.ts:171-198 | the traversal's output has excludes equal to the earlier nested entries, is in post-order, and has no directory twice |
| `Extraction.ExcludesExact` | src/convertRepository.ts:180-196 | an entry's excludes are exactly the directories of all entries strictly nested below it, at any depth, in emission order; never itself, a sibling or an ancestor |
| `Extraction.PostOrder` | src/convertRepository.ts:178-197 | an entry nested inside another is emitted before it |
| `Extraction.DistinctParts` | src/convertRepository.ts:171-198 | no two entries have the same directory |
| `Extraction.BlockAt` | src/convertRepository.ts:180-189 | the entries of each child sit in one block of the traversal, at the child's offset, before the next child's block, each lifted by the child's name |
| `Extraction.SiblingsInOrder` | src/convertRepository.ts:180-189 | every entry of an earlier-inserted child is emitted before every entry of a later-inserted child |
| `Extraction.InBlock` | src/convertRepository.ts:180-189 | every entry with a non-empty path lies in the block of the child its path starts with |
| `Extraction.TopLevelOrder` | src/convertRepository.ts:144-197 | when a manifest below `x` is found before any manifest below `y`, every entry below `x` is emitted before every entry below `y` |
| `Extraction.WalkAt` | src/convertRepository.ts:180-197 | every emitted entry names a folder of the trie and carries that folder's owner |
| `Extraction.AtWalk` | src/convertRepository.ts:180-197 | every owned folder of the trie is emitted, at its path, with its owner |
| `Extraction.TopologyEntry` | src/convertRepository.ts:144-199 | every entry of the topology carries one of the manifests, at the segments of that manifest's directory |
| `Extraction.OneEntryPerManifest` | src/convertRepository.ts:144-199 | with distinct directories, every manifest, errored or duplicate-named included, has exactly one entry, at its directory's segments |
| `Paths.JoinSplit` | src/convertRepository.ts:145 | joining the pieces of `split('/')` gives back the path |
| `Paths.SplitJoin` | src/convertRepository.ts:239 | splitting the `join('/')` of separator-free segments gives back the segments |
| `Paths.Normalize` | src/convertRepository.ts:310-312 | normalising yields only named segments, each taken from the input |
| `Paths.NormalizeCanonical` | src/convertRepository.ts:310-312 | an already canonical path is left unchanged by normalisation |
| `Paths.NormalizeAppend` | src/convertRepository.ts:310-312 | normalisation can be done in stages: a normalised prefix stands for the prefix |
| `Paths.ClampAtRoot` | src/convertRepository.ts:310-312 | a `..` at the root stays at the root |
| `Paths.ResolvedIsCanonical` | src/convertRepository.ts:310-312 | a resolved relative import is the root or a canonical path whose segments are the normalised join of the file's directory and the specifier |
| `Paths.ResolveSibling` | src/convertRepository.ts:310-312 | `./name` from a file names `name` in the file's directory |
| `Paths.ResolveParent` | src/convertRepository.ts:310-312 | `../name` from a file names `name` in the parent of the file's directory, clamped at the root |
| `Paths.ResolveExamples` | src/convertRepository.ts:310-312 | from `pkg/src/a.js`, `./x` resolves to `pkg/src/x` and `../x` to `pkg/x` |
| `Paths.FirstSegment` | src/convertRepository.ts:318 | the external name is the longest prefix of the specifier without `/`, followed in the specifier by `/` or by nothing |
| `Paths.FirstMatch` | src/convertRepository.ts:234-237 | the index where `replace` with a string pattern applies is the first occurrence of the pattern, or none |
| `Settings.Ignores` | src/convertRepository.ts:203-210 | the ignores are `**/node_modules/**` followed by `<dir>/**` for each exclude, in order, one more than the excludes |
| `Settings.IgnoreGlobDirectory` | src/convertRepository.ts:239 | each ignore glob of a nested package gives back that package's directory |
| `Settings.SourcesReplaceFileName` | src/convertRepository.ts:232-241 | the source glob is the manifest path with its file name replaced by `**/*.{js,mjs,jsx,js.flow}` |
| `Settings.SourcesAgree` | src/convertRepository.ts:234-237 | when `package.json` occurs only as the file name, the `replace` as written yields that source glob |
| `Settings.SourcesAsWrittenMisplaced` | src/convertRepository.ts:234-237 | when a directory name contains `package.json`, the `replace` as written rewrites the directory instead of the file name |
| `Settings.SourcesAsWrittenExample` | src/convertRepository.ts:234-237 | for `a-package.json/package.json` the glob as written differs from the package's source glob |
| `Usage.ScannedMember` | src/convertRepository.ts:260-283 | a file is kept exactly when its detection succeeded, and no more files are kept than were matched |
| `Usage.CollectSources` | src/convertRepository.ts:260-283 | the scanning loop keeps, in order, the files whose detection did not throw |
| `Usage.MergeDependencies` | src/convertRepository.ts:286-294 | the declared dependencies have the union of the peer, dev and direct keys, each value taken from direct, else dev, else peer; empty when the manifest has no data |
| `Usage.ResolvedImportsMember` | src/convertRepository.ts:307-316 | a path is recorded for a file exactly when one of its specifiers starting with `.` resolves to it |
| `Usage.ExternalRootsMember` | src/convertRepository.ts:317-319 | a dependency is recorded for a file exactly when it is the first segment of one of its specifiers not starting with `.` |
| `Usage.RecordImports` | src/convertRepository.ts:307-320 | one file's loop adds its resolved relative imports to `usedImports` (and to `usedFlowImports` when the file is Flow) and the first segments of the others to `usedDependencies` |
| `Usage.UsedImportsMember` | src/convertRepository.ts:300-321 | a path is in `usedImports` exactly when some scanned file resolves one of its relative specifiers to it |
| `Usage.UsedFlowImportsMember` | src/convertRepository.ts:313-316 | a path is in `usedFlowImports` exactly when some Flow file resolves one of its relative specifiers to it |
| `Usage.UsedDependenciesMember` | src/convertRepository.ts:317-319 | a name is in `usedDependencies` exactly when some scanned file imports it by a non-relative specifier |
| `Usage.FlowImportsAreImports` | src/convertRepository.ts:313-316 | `usedFlowImports` is a subset of `usedImports` |
| `Usage.Aggregate` | src/convertRepository.ts:295-321 | the aggregation loop's sets are those of all scanned files; `hasJS` holds exactly when some scanned file is not Flow, `hasJSX` exactly when some is JSX |
| `Usage.DeriveCompilerOptions` | src/convertRepository.ts:322-339 | `strict` is false; `allowJs` is present, and true, exactly when `hasJS`; `jsx` is `react` exactly when `hasJSX`, absent otherwise |
| `ConfigStore.Override` | src/convertRepository.ts:57 | every field present in the loaded file replaces the default, every absent one keeps it |
| `ConfigStore.LoadConfig` | src/convertRepository.ts:37-67 | no file: the default, to be written; a file that does not parse: a failure; a parsed file: the default overridden by it |
| `Repository.PlanPackage` | src/convertRepository.ts:222-339 | one package's plan has the settings of its entry, the merged dependencies of its manifest, the usage of its successfully scanned files and the matching compiler options |
| `Repository.PlanAll` | src/convertRepository.ts:222-340 | the per-package loop yields one plan per topology entry, in the entries' order, each as `PlanPackage` states |
| `Repository.ConvertRepository` | src/convertRepository.ts:32-352 | a config file that does not parse fails the run; otherwise one record per path, the first-wins registry, and one plan per topology entry in traversal order, with the configuration left as loaded |
| `Repository.PlannedUnique` | src/convertRepository.ts:222-339 | a package's plan is determined by its entry and its files, so an unchanged repository yields the same plan |
| `Repository.IgnoresExact` | src/convertRepository.ts:180-196 | each package's ignores are `node_modules` and one glob per package nested below it at any depth, and nothing else |
| `Repository.DuplicateStillPlanned` | src/convertRepository.ts:112-133 | a later manifest with a duplicate name is left out of the registry but keeps its topology entry |
| `Scenario.NestedScenario` | src/convertRepository.ts:144-198 | root, `packages/a` and `packages/a/sub` give three entries, innermost first, with excludes {`packages/a/sub`, `packages/a`}, {`packages/a/sub`} and {} |

## Findings

| source | as written | input that shows it | evidently intended | confidence | as-written member | corrected member |
|---|---|---|---|---|---|---|
| src/convertRepository.ts:86-105 | `retry` starts true and is never cleared, so the loop pushes the same record forever and the run never finishes | any single manifest path | one read attempt and one record per path | high, not executed | `Manifests.LoadRoundsAsWritten` | `Manifests.LoadManifests` |
| src/convertRepository.ts:234-237 | `replace('package.json', …)` with a string pattern replaces the first occurrence of the name, wherever it is | `a-package.json/package.json` | replace the manifest's file name, scoping the glob to the package directory | medium, not executed | `Settings.SourcesAsWrittenExample` | `Settings.SourcesReplaceFileName` |

The rest of the model uses the corrected forms: one record per path, and
`Settings.Sources`, the directory followed by the source pattern.

## Left out

- Filesystem and JSON I/O: reading and writing `flow-ts-config.json`, the existence check, and reading source files. The loaded configuration and each file's detection result are inputs. Writing the default is a flag on the result. Reading a source file happens outside the `try` at src/convertRepository.ts:266, so as written a failed read aborts the whole run. Only a `detectOptions` failure skips a file. The model has no read failures.
- Glob enumeration of manifests and of source files, including gitignore handling. The manifest path list is an input, and the files of a package are a function of its settings (`Repository.Scanner`).
- Parsing and normalising manifests (`read-pkg`). Each path comes with parsed data or an error. An absent `name` is the empty string, since both are falsy to the driver. An absent dependency map is the empty map, since `Object.assign` skips `undefined`.
- `detectOptions`, which lives in another file and is not part of this model. Its result per file is an input, or `None` when it throws. Of each import only the specifier is used, as the driver does.
- Logging and the `[i/n]` progress counters. The progress message at src/convertRepository.ts:223-229 reads `packageData.name` even for a manifest that failed to load, where `packageData` is undefined. As written that would throw. The model treats that message as logging and goes on planning the package.
- `process.exit(1)` on a corrupt configuration becomes a `Failure` result.
- Async/await and Node `path` semantics beyond `/`-separated segments and `.`/`..` normalisation: Windows paths, absolute specifiers, `repoPath` resolution.
- `VERSION` comes from a module that is not part of this model. It is a parameter.
- ConfigStore.Override: a loaded file is modelled through the four fields the configuration knows, each with its expected type. JSON fields of other types, and unknown fields that `Object.assign` would also copy, are not modelled.
- Trie.BuildTrie: the builder's in-place updates through the moving `currentFolders` cursor are modelled on values (an immutable trie rebuilt along the descent). The model does not capture the aliasing between the cursor and the folder it points into. Only the resulting trie is modelled.
- Extraction.OneEntryPerManifest: requires that no two manifests share a directory. Globbing yields distinct paths, all ending in `package.json`, so their directories are distinct.
- src/cli.ts: command-line parsing and exit-code handling. Only the two global flags it passes (`prettier`, `recast`) appear, as `ConfigStore.GlobalOptions`.
- The unused `SourceOptions` fields and the file conversion and formatting passes that other commands perform.
