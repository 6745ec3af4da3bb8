/**
  The nested-package example worked through the model: a manifest at the
  repository root, one at `packages/a` and one at `packages/a/sub`, found in
  that order.
*/
module Scenario {
  import opened Wrappers
  import opened Manifests
  import opened Trie
  import opened Extraction
  import opened Paths

  /** The directory of `x/rest` is `x` followed by the directory of `rest`. */
  lemma DirCons(x: string, rest: string)
    requires Sep !in x
    ensures Dir(x + "/" + rest) == [x] + Dir(rest)
  {
    assert x + "/" + rest == x + [Sep] + rest;
    SplitConcat(x, rest, Sep);
    SplitNoSep(x, Sep);
  }

  /** The directory of `x/y/m`. */
  lemma DirTwo(p: string, x: string, y: string, m: string)
    requires Sep !in x && Sep !in y && Sep !in m && p == x + "/" + (y + "/" + m)
    ensures Dir(p) == [x, y]
  {
    SplitNoSep(m, Sep);
    DirCons(y, m);
    DirCons(x, y + "/" + m);
  }

  /** The directory of `x/y/z/m`. */
  lemma DirThree(p: string, x: string, y: string, z: string, m: string)
    requires Sep !in x && Sep !in y && Sep !in z && Sep !in m && p == x + "/" + (y + "/" + (z + "/" + m))
    ensures Dir(p) == [x, y, z]
  {
    DirTwo(y + "/" + (z + "/" + m), y, z, m);
    DirCons(x, y + "/" + (z + "/" + m));
  }

  lemma DirOfRoot(p: string)
    requires p == "package.json"
    ensures Dir(p) == []
  {
    SplitNoSep(p, Sep);
  }

  lemma DirOfA(p: string)
    requires p == "packages/a/package.json"
    ensures Dir(p) == ["packages", "a"]
  {
    assert p == "packages" + "/" + ("a" + "/" + "package.json");
    DirTwo(p, "packages", "a", "package.json");
  }

  lemma DirOfSub(p: string)
    requires p == "packages/a/sub/package.json"
    ensures Dir(p) == ["packages", "a", "sub"]
  {
    assert p == "packages" + "/" + ("a" + "/" + ("sub" + "/" + "package.json"));
    DirThree(p, "packages", "a", "sub", "package.json");
  }

  function ScenarioTrie(r0: ManifestRecord, r1: ManifestRecord, r2: ManifestRecord): Folder
  {
    Folder(Some(r0), [Child("packages", Folder(None, [Child("a", Folder(Some(r1), [Child("sub", Folder(Some(r2), []))]))]))])
  }

  /** Inserting a two-segment directory into a trie that only has a root owner. */
  lemma InsertFresh2(t: Folder, x: string, y: string, info: ManifestRecord)
    requires t.children == []
    ensures Insert(t, [x, y], info) == t.(children := [Child(x, Folder(None, [Child(y, Folder(Some(info), []))]))])
  {
    assert [x, y][1..] == [y] && [y][1..] == [];
    assert Insert(EmptyFolder(), [], info) == Folder(Some(info), []);
    assert Insert(EmptyFolder(), [y], info) == Folder(None, [Child(y, Folder(Some(info), []))]);
  }

  lemma ScenarioBuild(r0: ManifestRecord, r1: ManifestRecord, r2: ManifestRecord)
    requires Dir(r0.path) == []
    requires Dir(r1.path) == ["packages", "a"]
    requires Dir(r2.path) == ["packages", "a", "sub"]
    ensures Build([r0, r1, r2]) == ScenarioTrie(r0, r1, r2)
  {
    var ps := [r0, r1, r2];
    assert ps[..2] == [r0, r1] && [r0, r1][..1] == [r0] && [r0][..0] == [];
    var t1 := Folder(Some(r0), []);
    assert Build([r0]) == t1;
    var t2 := Folder(Some(r0), [Child("packages", Folder(None, [Child("a", Folder(Some(r1), []))]))]);
    InsertFresh2(t1, "packages", "a", r1);
    assert Build([r0, r1]) == t2;
    var a2 := Folder(Some(r1), []);
    var p2 := Folder(None, [Child("a", a2)]);
    var leaf := Folder(Some(r2), []);
    assert Insert(a2, ["sub"], r2) == Folder(Some(r1), [Child("sub", leaf)]) by {
      assert ["sub"][1..] == [];
      assert Insert(EmptyFolder(), [], r2) == leaf;
    }
    assert Insert(p2, ["a", "sub"], r2) == Folder(None, [Child("a", Folder(Some(r1), [Child("sub", leaf)]))]) by {
      assert ["a", "sub"][1..] == ["sub"];
      assert FindChild(p2.children, "a") == 0;
    }
    assert Insert(t2, ["packages", "a", "sub"], r2) == ScenarioTrie(r0, r1, r2) by {
      assert ["packages", "a", "sub"][1..] == ["a", "sub"];
      assert FindChild(t2.children, "packages") == 0;
    }
  }

  lemma LiftOne(name: string, e: Entry)
    ensures LiftAll(name, [e]) == [Lift(name, e)]
  {
  }

  lemma LiftTwo(name: string, e1: Entry, e2: Entry)
    ensures LiftAll(name, [e1, e2]) == [Lift(name, e1), Lift(name, e2)]
  {
  }

  lemma PrefixOne(name: string, p: seq<string>)
    ensures PrefixAll(name, [p]) == [[name] + p]
  {
  }

  lemma PartsOne(e: Entry)
    ensures PartsOf([e]) == [e.parts]
  {
  }

  lemma PartsTwo(e1: Entry, e2: Entry)
    ensures PartsOf([e1, e2]) == [e1.parts, e2.parts]
  {
  }

  /** The folder of `packages/a`, with `sub` below it. */
  lemma WalkA(r1: ManifestRecord, r2: ManifestRecord)
    ensures Walk(Folder(Some(r1), [Child("sub", Folder(Some(r2), []))])) ==
      [Entry(r2, ["sub"], []), Entry(r1, [], [["sub"]])]
  {
    var a := Folder(Some(r1), [Child("sub", Folder(Some(r2), []))]);
    var e2 := Entry(r2, [], []);
    assert Walk(a.children[0].folder) == [e2];
    LiftOne("sub", e2);
    assert Lift("sub", e2) == Entry(r2, ["sub"], []);
    assert WalkChildren(a, 1) == [Entry(r2, ["sub"], [])];
    PartsOne(Entry(r2, ["sub"], []));
  }

  /** The folder of `packages`, owning nothing, with `a` below it. */
  lemma WalkPackages(r1: ManifestRecord, r2: ManifestRecord)
    ensures Walk(Folder(None, [Child("a", Folder(Some(r1), [Child("sub", Folder(Some(r2), []))]))])) ==
      [Entry(r2, ["a", "sub"], []), Entry(r1, ["a"], [["a", "sub"]])]
  {
    var p := Folder(None, [Child("a", Folder(Some(r1), [Child("sub", Folder(Some(r2), []))]))]);
    WalkA(r1, r2);
    var wa := [Entry(r2, ["sub"], []), Entry(r1, [], [["sub"]])];
    LiftTwo("a", wa[0], wa[1]);
    PrefixOne("a", ["sub"]);
    assert ["a"] + ["sub"] == ["a", "sub"] && ["a"] + [] == ["a"];
    assert WalkChildren(p, 0) == [];
    assert WalkChildren(p, 1) == LiftAll("a", wa);
  }

  lemma ScenarioWalk(r0: ManifestRecord, r1: ManifestRecord, r2: ManifestRecord)
    ensures Walk(ScenarioTrie(r0, r1, r2)) == [
      Entry(r2, ["packages", "a", "sub"], []),
      Entry(r1, ["packages", "a"], [["packages", "a", "sub"]]),
      Entry(r0, [], [["packages", "a", "sub"], ["packages", "a"]])]
  {
    var t := ScenarioTrie(r0, r1, r2);
    WalkPackages(r1, r2);
    var wp := [Entry(r2, ["a", "sub"], []), Entry(r1, ["a"], [["a", "sub"]])];
    LiftTwo("packages", wp[0], wp[1]);
    PrefixOne("packages", ["a", "sub"]);
    assert ["packages"] + ["a", "sub"] == ["packages", "a", "sub"] && ["packages"] + ["a"] == ["packages", "a"];
    var below := [
      Entry(r2, ["packages", "a", "sub"], []),
      Entry(r1, ["packages", "a"], [["packages", "a", "sub"]])];
    assert WalkChildren(t, 0) == [];
    assert WalkChildren(t, 1) == below;
    PartsTwo(below[0], below[1]);
  }

  /**
    A root manifest, `packages/a` and `packages/a/sub`: three entries, the
    innermost first, each excluding exactly the packages nested below it.
  */
  lemma NestedScenario(r0: ManifestRecord, r1: ManifestRecord, r2: ManifestRecord)
    requires r0.path == "package.json"
    requires r1.path == "packages/a/package.json"
    requires r2.path == "packages/a/sub/package.json"
    ensures Walk(Build([r0, r1, r2])) == [
      Entry(r2, ["packages", "a", "sub"], []),
      Entry(r1, ["packages", "a"], [["packages", "a", "sub"]]),
      Entry(r0, [], [["packages", "a", "sub"], ["packages", "a"]])]
  {
    DirOfRoot(r0.path);
    DirOfA(r1.path);
    DirOfSub(r2.path);
    ScenarioBuild(r0, r1, r2);
    ScenarioWalk(r0, r1, r2);
  }
}
