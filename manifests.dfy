/**
  Manifest discovery and the package-name registry of the repository driver.

  The list of `package.json` paths (found by a glob) and what reading each of
  them produced (parsed data or an error) are inputs: globbing and parsing are
  not modelled. The loader turns each path into one `ManifestRecord`; the
  registry then maps every declared name to the first record that declares it.
*/
module Manifests {
  import opened Wrappers

  /**
    The fields of a parsed `package.json` that the driver reads. An absent
    `name` is written `""` (both are falsy to the driver); an absent
    dependency map is the empty map (`Object.assign` skips `undefined`).
  */
  datatype PackageData = PackageData(
    name: string,
    dependencies: map<string, string>,
    devDependencies: map<string, string>,
    peerDependencies: map<string, string>)

  /** One discovered manifest (`PackageFileInfo`): its repository-relative path, its data, and whether reading it failed. */
  datatype ManifestRecord = ManifestRecord(path: string, data: Option<PackageData>, hasErrors: bool)

  /** What one attempt at reading a manifest produced. */
  datatype ReadOutcome = Parsed(data: PackageData) | ReadError(message: string)

  /** A record as the loader makes it: data exactly when there was no error. */
  predicate WellFormed(r: ManifestRecord)
  {
    r.hasErrors <==> r.data.None?
  }

  /** The record pushed for `path` after one read attempt. */
  function RecordFor(path: string, outcome: ReadOutcome): (r: ManifestRecord)
    ensures r.path == path && WellFormed(r)
    ensures r.hasErrors <==> outcome.ReadError?
    ensures outcome.Parsed? ==> r.data == Some(outcome.data)
  {
    match outcome
    case Parsed(d) => ManifestRecord(path, Some(d), false)
    case ReadError(_) => ManifestRecord(path, None, true)
  }

  /**
    The loading loop with one read attempt per path: one record per path, in
    discovery order, an error recorded on the record and never aborting the
    others.
  */
  method LoadManifests(found: seq<(string, ReadOutcome)>) returns (packages: seq<ManifestRecord>)
    ensures |packages| == |found|
    ensures forall i :: 0 <= i < |found| ==> packages[i].path == found[i].0
    ensures forall i :: 0 <= i < |found| ==> (packages[i].hasErrors <==> found[i].1.ReadError?)
    ensures forall i :: 0 <= i < |found| ==> found[i].1.Parsed? ==> packages[i].data == Some(found[i].1.data)
    ensures forall i :: 0 <= i < |found| ==> WellFormed(packages[i])
    ensures forall i :: 0 <= i < |found| ==> packages[i] == RecordFor(found[i].0, found[i].1)
  {
    packages := [];
    for i := 0 to |found|
      invariant |packages| == i
      invariant forall k :: 0 <= k < i ==> packages[k] == RecordFor(found[k].0, found[k].1)
    {
      var (path, outcome) := found[i];
      packages := packages + [RecordFor(path, outcome)];
    }
  }

  /**
    The loading loop for one path exactly as written: `retry` starts true and
    the body never clears it. Run for any number of `rounds`, the loop is
    still running (its guard holds) and has pushed the same record once per
    round.
  */
  method LoadRoundsAsWritten(path: string, outcome: ReadOutcome, rounds: nat)
    returns (pushed: seq<ManifestRecord>, retry: bool)
    ensures retry
    ensures |pushed| == rounds
    ensures forall k :: 0 <= k < rounds ==> pushed[k] == RecordFor(path, outcome)
  {
    pushed, retry := [], true;
    var n := 0;
    while retry && n < rounds
      invariant n <= rounds && retry
      invariant |pushed| == n
      invariant forall k :: 0 <= k < n ==> pushed[k] == RecordFor(path, outcome)
    {
      pushed := pushed + [RecordFor(path, outcome)];
      n := n + 1;
    }
  }

  /** A record that takes part in name resolution: read without error and with a non-empty name. */
  predicate IsNamed(r: ManifestRecord)
  {
    !r.hasErrors && r.data.Some? && r.data.value.name != ""
  }

  predicate Declares(r: ManifestRecord, name: string)
  {
    IsNamed(r) && r.data.value.name == name
  }

  /** The first record of `ps` that declares `name`, if any. */
  function FirstDeclaring(ps: seq<ManifestRecord>, name: string): (r: Option<ManifestRecord>)
    ensures r.Some? ==> Declares(r.value, name) && r.value in ps
    decreases |ps|
  {
    if ps == [] then None
    else
      var earlier := FirstDeclaring(ps[..|ps| - 1], name);
      if earlier.Some? then earlier
      else if Declares(ps[|ps| - 1], name) then Some(ps[|ps| - 1])
      else None
  }

  /** `FirstDeclaring` finds the earliest declaring record, and finds nothing only when no record declares the name. */
  lemma {:induction false} FirstDeclaringIsFirst(ps: seq<ManifestRecord>, name: string)
    ensures FirstDeclaring(ps, name).None? <==> (forall i :: 0 <= i < |ps| ==> !Declares(ps[i], name))
    ensures FirstDeclaring(ps, name).Some? ==>
      exists i :: 0 <= i < |ps| && ps[i] == FirstDeclaring(ps, name).value &&
        forall j :: 0 <= j < i ==> !Declares(ps[j], name)
    decreases |ps|
  {
    if ps != [] {
      var prev := ps[..|ps| - 1];
      FirstDeclaringIsFirst(prev, name);
      assert forall i :: 0 <= i < |prev| ==> prev[i] == ps[i];
    }
  }

  /**
    The name registry (`namedPackages`): records with errors or without a
    name are skipped; the first record seen for a name is kept and later
    duplicates are ignored.
  */
  method BuildRegistry(packages: seq<ManifestRecord>) returns (named: map<string, ManifestRecord>)
    ensures forall n :: n in named <==> FirstDeclaring(packages, n).Some?
    ensures forall n :: n in named ==> named[n] == FirstDeclaring(packages, n).value
    ensures forall n :: n in named ==> Declares(named[n], n) && named[n] in packages
    ensures |named| <= |packages|
  {
    named := map[];
    for i := 0 to |packages|
      invariant forall n :: n in named <==> FirstDeclaring(packages[..i], n).Some?
      invariant forall n :: n in named ==> named[n] == FirstDeclaring(packages[..i], n).value
      invariant |named| <= i
    {
      var info := packages[i];
      assert packages[..i + 1][..i] == packages[..i];
      if info.hasErrors {
        continue;
      }
      if info.data.None? {
        continue;
      }
      var name := info.data.value.name;
      if name == "" {
        continue;
      }
      if name in named {
        continue;
      }
      named := named[name := info];
    }
    assert packages[..|packages|] == packages;
  }

  /**
    Two records declaring the same name: the later one never becomes the
    registry's entry for it (manifest paths are distinct, as a glob yields them).
  */
  lemma {:induction false} LaterDuplicateIgnored(ps: seq<ManifestRecord>, i: nat, j: nat, name: string)
    requires i < j < |ps| && Declares(ps[i], name) && Declares(ps[j], name)
    requires forall k :: 0 <= k < j ==> ps[k].path != ps[j].path
    ensures FirstDeclaring(ps, name).Some? && FirstDeclaring(ps, name).value != ps[j]
  {
    FirstDeclaringIsFirst(ps, name);
    var k :| 0 <= k < |ps| && ps[k] == FirstDeclaring(ps, name).value &&
      forall l :: 0 <= l < k ==> !Declares(ps[l], name);
    assert k <= i;
  }
}
