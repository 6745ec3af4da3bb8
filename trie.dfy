/**
  The containment trie of the repository driver (`FolderInfo`): one folder
  per directory segment, each manifest attached to the folder of its
  directory, a manifest at the repository root attached to the root folder.
  Children are kept in insertion order, as the driver's `Map` keeps them.
*/
module Trie {
  import opened Wrappers
  import opened Manifests
  import Paths

  /** A folder: the manifest that owns it, if any, and its child folders in insertion order. */
  datatype Folder = Folder(owner: Option<ManifestRecord>, children: seq<Child>)

  /** One entry of a folder's `children` map. */
  datatype Child = Child(name: string, folder: Folder)

  function EmptyFolder(): Folder
  {
    Folder(None, [])
  }

  function Names(cs: seq<Child>): (names: seq<string>)
    ensures |names| == |cs| && forall i :: 0 <= i < |cs| ==> names[i] == cs[i].name
  {
    seq(|cs|, i requires 0 <= i < |cs| => cs[i].name)
  }

  /** Child names are distinct at every level, as keys of a `Map` are. */
  predicate WF(t: Folder)
    decreases t
  {
    (forall i, j :: 0 <= i < j < |t.children| ==> t.children[i].name != t.children[j].name) &&
    (forall i :: 0 <= i < |t.children| ==> WF(t.children[i].folder))
  }

  /** `currentFolders.get(name)`: the position of the child called `name`, or `|cs|` when there is none. */
  function FindChild(cs: seq<Child>, name: string): (k: nat)
    ensures k <= |cs|
    ensures k < |cs| ==> cs[k].name == name
    ensures k == |cs| ==> forall i :: 0 <= i < |cs| ==> cs[i].name != name
  {
    if cs == [] then 0
    else if cs[0].name == name then 0
    else 1 + FindChild(cs[1..], name)
  }

  /** The manifest owning the folder reached from `t` by the segments `q`, if that folder exists and has one. */
  function At(t: Folder, q: seq<string>): Option<ManifestRecord>
    decreases |q|
  {
    if q == [] then t.owner
    else
      var k := FindChild(t.children, q[0]);
      if k < |t.children| then At(t.children[k].folder, q[1..]) else None
  }

  /**
    One pass of the builder's descent: walk down `dir`, creating each missing
    folder as the last child of its parent, and attach `info` to the folder
    reached. Existing children keep their places; a new one goes last.
  */
  function Insert(t: Folder, dir: seq<string>, info: ManifestRecord): (r: Folder)
    ensures dir == [] ==> Names(r.children) == Names(t.children)
    ensures dir != [] ==>
      if dir[0] in Names(t.children) then Names(r.children) == Names(t.children)
      else Names(r.children) == Names(t.children) + [dir[0]]
    decreases |dir|
  {
    if dir == [] then t.(owner := Some(info))
    else
      var k := FindChild(t.children, dir[0]);
      if k < |t.children| then
        var r := t.(children := t.children[k := Child(dir[0], Insert(t.children[k].folder, dir[1..], info))]);
        assert Names(r.children) == Names(t.children);
        r
      else
        var r := t.(children := t.children + [Child(dir[0], Insert(EmptyFolder(), dir[1..], info))]);
        assert dir[0] !in Names(t.children);
        assert Names(r.children) == Names(t.children) + [dir[0]];
        r
  }

  /** The empty folder owns nothing anywhere. */
  lemma {:induction false} EmptyAt(q: seq<string>)
    ensures At(EmptyFolder(), q) == None
  {
  }

  /** Inserting keeps child names distinct at every level. */
  lemma {:induction false} InsertWF(t: Folder, dir: seq<string>, info: ManifestRecord)
    requires WF(t)
    ensures WF(Insert(t, dir, info))
    decreases |dir|
  {
    var r := Insert(t, dir, info);
    if dir != [] {
      var k := FindChild(t.children, dir[0]);
      var sub := if k < |t.children| then t.children[k].folder else EmptyFolder();
      assert WF(sub);
      InsertWF(sub, dir[1..], info);
      assert r.children[k] == Child(dir[0], Insert(sub, dir[1..], info));
      forall i | 0 <= i < |r.children| ensures WF(r.children[i].folder) {
        if i != k {
          assert r.children[i] == t.children[i];
        }
      }
      forall i, j | 0 <= i < j < |r.children| ensures r.children[i].name != r.children[j].name {
        assert Names(r.children)[i] == r.children[i].name;
        assert Names(r.children)[j] == r.children[j].name;
        if j < |t.children| {
          assert Names(t.children)[i] == t.children[i].name;
          assert Names(t.children)[j] == t.children[j].name;
        }
      }
    }
  }

  /**
    Inserting keeps child names distinct and changes the owner of exactly one
    folder: the one at `dir`, which now owns `info`.
  */
  lemma {:induction false} InsertAt(t: Folder, dir: seq<string>, info: ManifestRecord, q: seq<string>)
    requires WF(t)
    ensures WF(Insert(t, dir, info))
    ensures At(Insert(t, dir, info), q) == if q == dir then Some(info) else At(t, q)
    decreases |dir|
  {
    InsertWF(t, dir, info);
    var r := Insert(t, dir, info);
    if dir != [] && q != [] {
      var k := FindChild(t.children, dir[0]);
      var sub := if k < |t.children| then t.children[k].folder else EmptyFolder();
      assert WF(sub);
      assert r.children[k] == Child(dir[0], Insert(sub, dir[1..], info));
      var kr := FindChild(r.children, q[0]);
      if q[0] == dir[0] {
        InsertAt(sub, dir[1..], info, q[1..]);
        assert kr == k by {
          assert kr < |r.children|;
          assert r.children[kr].name == r.children[k].name;
        }
        assert q == dir <==> q[1..] == dir[1..];
        if k == |t.children| {
          EmptyAt(q[1..]);
        }
      } else {
        var kt := FindChild(t.children, q[0]);
        if kt < |t.children| {
          assert kt != k;
          assert r.children[kt] == t.children[kt];
          assert kr == kt by {
            assert kr < |r.children|;
            assert r.children[kr].name == r.children[kt].name;
          }
        } else {
          forall i | 0 <= i < |r.children| ensures r.children[i].name != q[0] {
            if i < |t.children| && i != k {
              assert r.children[i] == t.children[i];
            }
          }
          assert kr == |r.children|;
        }
      }
    }
  }

  /** The last manifest of `ps` whose directory is `q`: the one the builder leaves attached there. */
  function LastAt(ps: seq<ManifestRecord>, q: seq<string>): (r: Option<ManifestRecord>)
    ensures r.Some? ==> r.value in ps && Paths.Dir(r.value.path) == q
    decreases |ps|
  {
    if ps == [] then None
    else if Paths.Dir(ps[|ps| - 1].path) == q then Some(ps[|ps| - 1])
    else LastAt(ps[..|ps| - 1], q)
  }

  /** Every manifest's directory is owned by some manifest; with distinct directories, by that manifest itself. */
  lemma {:induction false} LastAtCovers(ps: seq<ManifestRecord>, i: nat)
    requires i < |ps|
    ensures LastAt(ps, Paths.Dir(ps[i].path)).Some?
    ensures (forall j :: 0 <= j < |ps| && j != i ==> Paths.Dir(ps[j].path) != Paths.Dir(ps[i].path)) ==>
      LastAt(ps, Paths.Dir(ps[i].path)) == Some(ps[i])
    decreases |ps|
  {
    if i < |ps| - 1 {
      var prev := ps[..|ps| - 1];
      LastAtCovers(prev, i);
      assert prev[i] == ps[i];
      assert forall j :: 0 <= j < |prev| ==> prev[j] == ps[j];
    }
  }

  /** The trie after attaching every manifest of `ps`, in order, to the folder of its directory. */
  function Build(ps: seq<ManifestRecord>): Folder
    decreases |ps|
  {
    if ps == [] then EmptyFolder()
    else Insert(Build(ps[..|ps| - 1]), Paths.Dir(ps[|ps| - 1].path), ps[|ps| - 1])
  }

  /** The built trie has distinct child names, and each folder is owned by the last manifest in its directory. */
  lemma {:induction false} BuildAt(ps: seq<ManifestRecord>, q: seq<string>)
    ensures WF(Build(ps))
    ensures At(Build(ps), q) == LastAt(ps, q)
    decreases |ps|
  {
    if ps == [] {
      EmptyAt(q);
    } else {
      var prev := ps[..|ps| - 1];
      BuildAt(prev, q);
      InsertAt(Build(prev), Paths.Dir(ps[|ps| - 1].path), ps[|ps| - 1], q);
    }
  }

  /**
    The builder loop: for each manifest in discovery order, descend from the
    root along its directory segments, creating folders on the way, and
    attach it to the folder reached (a top-level `package.json` attaches to
    the root). Afterwards each folder is owned by the last manifest in its
    directory, and by nothing when no manifest is there.
  */
  method BuildTrie(packages: seq<ManifestRecord>) returns (root: Folder)
    ensures root == Build(packages)
    ensures WF(root)
    ensures forall q :: At(root, q) == LastAt(packages, q)
  {
    root := EmptyFolder();
    for i := 0 to |packages|
      invariant root == Build(packages[..i])
    {
      var info := packages[i];
      var parts := Paths.Split(info.path, Paths.Sep);
      var dir := parts[..|parts| - 1];
      assert packages[..i + 1][..i] == packages[..i];
      if |parts| == 1 {
        root := root.(owner := Some(info));
      } else {
        root := Insert(root, dir, info);
      }
    }
    assert packages[..|packages|] == packages;
    forall q ensures At(root, q) == LastAt(packages, q) {
      BuildAt(packages, q);
    }
    BuildAt(packages, []);
  }

  /** The top-level directory of a manifest, or `None` for a `package.json` at the root. */
  function TopDir(r: ManifestRecord): Option<string>
  {
    var d := Paths.Dir(r.path);
    if d == [] then None else Some(d[0])
  }

  /** The distinct top-level directories of `ps`, in the order of their first manifest. */
  function FirstHeads(ps: seq<ManifestRecord>): seq<string>
    decreases |ps|
  {
    if ps == [] then []
    else
      var h := FirstHeads(ps[..|ps| - 1]);
      match TopDir(ps[|ps| - 1])
      case None => h
      case Some(x) => if x in h then h else h + [x]
  }

  /** A name is among the first heads exactly when some manifest lies below a top-level directory of that name. */
  lemma {:induction false} FirstHeadsMember(ps: seq<ManifestRecord>, x: string)
    ensures x in FirstHeads(ps) <==> exists l :: 0 <= l < |ps| && TopDir(ps[l]) == Some(x)
    decreases |ps|
  {
    if ps != [] {
      var prev := ps[..|ps| - 1];
      FirstHeadsMember(prev, x);
      assert forall l :: 0 <= l < |prev| ==> prev[l] == ps[l];
    }
  }

  /** The first heads of a prefix of the manifests are a prefix of the first heads of all of them. */
  lemma {:induction false} FirstHeadsPrefix(ps: seq<ManifestRecord>, n: nat)
    requires n <= |ps|
    ensures |FirstHeads(ps[..n])| <= |FirstHeads(ps)|
    ensures FirstHeads(ps[..n]) == FirstHeads(ps)[..|FirstHeads(ps[..n])|]
    decreases |ps|
  {
    if n < |ps| {
      var prev := ps[..|ps| - 1];
      assert ps[..n] == prev[..n];
      FirstHeadsPrefix(prev, n);
    } else {
      assert ps[..n] == ps;
    }
  }

  /** The root's children, in insertion order, are the top-level directories in the order of their first manifest. */
  lemma {:induction false} BuildNames(ps: seq<ManifestRecord>)
    ensures Names(Build(ps).children) == FirstHeads(ps)
    decreases |ps|
  {
    if ps != [] {
      BuildNames(ps[..|ps| - 1]);
    }
  }
}
