/**
  Extraction of the package topology from the containment trie
  (`walkFolders`): a post-order traversal that emits, for every folder owning
  a manifest, an entry carrying the folder's path segments and the paths of
  every package nested below it.
*/
module Extraction {
  import opened Wrappers
  import opened Manifests
  import opened Trie
  import Paths

  /** One element of the traversal's result: a manifest, its directory segments, and the directories to exclude. */
  datatype Entry = Entry(info: ManifestRecord, parts: seq<string>, excludes: seq<seq<string>>)

  /** `[name, ...p]` for every `p` of `ps`. */
  function PrefixAll(name: string, ps: seq<seq<string>>): (r: seq<seq<string>>)
    ensures |r| == |ps| && forall i :: 0 <= i < |ps| ==> r[i] == [name] + ps[i]
  {
    seq(|ps|, i requires 0 <= i < |ps| => [name] + ps[i])
  }

  /** An entry of a child folder, seen from its parent: its path and its excludes gain the child's name in front. */
  function Lift(name: string, e: Entry): Entry
  {
    Entry(e.info, [name] + e.parts, PrefixAll(name, e.excludes))
  }

  function LiftAll(name: string, es: seq<Entry>): (r: seq<Entry>)
    ensures |r| == |es| && forall i :: 0 <= i < |es| ==> r[i] == Lift(name, es[i])
  {
    seq(|es|, i requires 0 <= i < |es| => Lift(name, es[i]))
  }

  /** `packages.map(({ parts }) => parts)` */
  function PartsOf(es: seq<Entry>): (r: seq<seq<string>>)
    ensures |r| == |es| && forall i :: 0 <= i < |es| ==> r[i] == es[i].parts
  {
    seq(|es|, i requires 0 <= i < |es| => es[i].parts)
  }

  /** The entries collected from the first `n` children of `t`, in insertion order. */
  function WalkChildren(t: Folder, n: nat): seq<Entry>
    requires n <= |t.children|
    decreases t, 0, n
  {
    if n == 0 then []
    else WalkChildren(t, n - 1) + LiftAll(t.children[n - 1].name, Walk(t.children[n - 1].folder))
  }

  /**
    `walkFolders`: the entries of every child (in insertion order), then, if
    the folder owns a manifest, its own entry, whose excludes are the paths
    of everything collected before it.
  */
  function Walk(t: Folder): seq<Entry>
    decreases t, 1
  {
    var below := WalkChildren(t, |t.children|);
    if t.owner.Some? then below + [Entry(t.owner.value, [], PartsOf(below))] else below
  }

  /** `q` lies strictly inside the directory `p`. */
  predicate StrictlyBelow(p: seq<string>, q: seq<string>)
  {
    |p| < |q| && q[..|p|] == p
  }

  /** The paths of the entries of `es` that lie strictly inside `p`, in the order of `es`. */
  function Nested(p: seq<string>, es: seq<Entry>): seq<seq<string>>
    decreases |es|
  {
    if es == [] then []
    else
      var last := es[|es| - 1];
      Nested(p, es[..|es| - 1]) + (if StrictlyBelow(p, last.parts) then [last.parts] else [])
  }

  /**
    The shape of the traversal's output: each entry's excludes are the paths
    of the earlier entries nested inside it; no entry is nested inside an
    earlier one (post-order); and no path occurs twice.
  */
  predicate Good(es: seq<Entry>)
  {
    ExcludesNested(es) && PostOrdered(es) && DistinctPaths(es)
  }

  predicate ExcludesNested(es: seq<Entry>)
  {
    forall k :: 0 <= k < |es| ==> es[k].excludes == Nested(es[k].parts, es[..k])
  }

  predicate PostOrdered(es: seq<Entry>)
  {
    forall i, j :: 0 <= i < j < |es| ==> !StrictlyBelow(es[i].parts, es[j].parts)
  }

  predicate DistinctPaths(es: seq<Entry>)
  {
    forall i, j :: 0 <= i < j < |es| ==> es[i].parts != es[j].parts
  }

  /** Every entry's path is non-empty and starts with one of `names`. */
  predicate Heads(es: seq<Entry>, names: set<string>)
  {
    forall k :: 0 <= k < |es| ==> |es[k].parts| > 0 && es[k].parts[0] in names
  }

  lemma {:induction false} NestedAppend(p: seq<string>, a: seq<Entry>, b: seq<Entry>)
    ensures Nested(p, a + b) == Nested(p, a) + Nested(p, b)
    decreases |b|
  {
    if b == [] {
      assert a + b == a;
    } else {
      var b' := b[..|b| - 1];
      assert (a + b)[..|a + b| - 1] == a + b';
      assert (a + b)[|a + b| - 1] == b[|b| - 1];
      NestedAppend(p, a, b');
    }
  }

  /** Nothing of `es` lies inside `p`. */
  lemma {:induction false} NestedNone(p: seq<string>, es: seq<Entry>)
    requires forall k :: 0 <= k < |es| ==> !StrictlyBelow(p, es[k].parts)
    ensures Nested(p, es) == []
    decreases |es|
  {
    if es != [] {
      NestedNone(p, es[..|es| - 1]);
    }
  }

  /** Every entry of `es` lies inside `p`. */
  lemma {:induction false} NestedAll(p: seq<string>, es: seq<Entry>)
    requires forall k :: 0 <= k < |es| ==> StrictlyBelow(p, es[k].parts)
    ensures Nested(p, es) == PartsOf(es)
    decreases |es|
  {
    if es != [] {
      NestedAll(p, es[..|es| - 1]);
      assert PartsOf(es) == PartsOf(es[..|es| - 1]) + [es[|es| - 1].parts];
    }
  }

  lemma StrictlyBelowLift(name: string, p: seq<string>, q: seq<string>)
    ensures StrictlyBelow([name] + p, [name] + q) <==> StrictlyBelow(p, q)
  {
    if |p| < |q| {
      assert ([name] + q)[..|[name] + p|] == [name] + q[..|p|];
      if ([name] + q)[..|[name] + p|] == [name] + p {
        assert q[..|p|] == ([name] + q[..|p|])[1..];
      }
    }
  }

  /** Lifting commutes with collecting nested paths. */
  lemma {:induction false} NestedLift(name: string, p: seq<string>, es: seq<Entry>)
    ensures Nested([name] + p, LiftAll(name, es)) == PrefixAll(name, Nested(p, es))
    decreases |es|
  {
    if es != [] {
      var prev := es[..|es| - 1];
      var last := es[|es| - 1];
      NestedLift(name, p, prev);
      assert LiftAll(name, es)[..|es| - 1] == LiftAll(name, prev);
      StrictlyBelowLift(name, p, last.parts);
      var tail := if StrictlyBelow(p, last.parts) then [last.parts] else [];
      assert PrefixAll(name, Nested(p, prev) + tail) == PrefixAll(name, Nested(p, prev)) + PrefixAll(name, tail);
    }
  }

  /** A child's output keeps its shape once lifted into its parent, and all its paths start with the child's name. */
  lemma GoodLift(name: string, es: seq<Entry>)
    requires Good(es)
    ensures Good(LiftAll(name, es)) && Heads(LiftAll(name, es), {name})
  {
    var ls := LiftAll(name, es);
    forall k | 0 <= k < |ls| ensures ls[k].excludes == Nested(ls[k].parts, ls[..k]) {
      assert ls[..k] == LiftAll(name, es[..k]);
      NestedLift(name, es[k].parts, es[..k]);
    }
    forall i, j | 0 <= i < j < |ls| ensures !StrictlyBelow(ls[i].parts, ls[j].parts) {
      StrictlyBelowLift(name, es[i].parts, es[j].parts);
    }
    forall i, j | 0 <= i < j < |ls| ensures ls[i].parts != ls[j].parts {
      assert es[i].parts == ls[i].parts[1..] && es[j].parts == ls[j].parts[1..];
    }
  }

  /** An entry of `b` sees nothing of `a` nested inside it when their paths start with different names. */
  lemma ConcatExcludes(a: seq<Entry>, b: seq<Entry>, names: set<string>, name: string, k: nat)
    requires ExcludesNested(b) && Heads(a, names) && Heads(b, {name}) && name !in names
    requires k < |b|
    ensures (a + b)[|a| + k].excludes == Nested((a + b)[|a| + k].parts, (a + b)[..|a| + k])
  {
    assert (a + b)[|a| + k] == b[k];
    var p := b[k].parts;
    assert (a + b)[..|a| + k] == a + b[..k];
    NestedAppend(p, a, b[..k]);
    forall m | 0 <= m < |a| ensures !StrictlyBelow(p, a[m].parts) {
      assert a[m].parts[0] != p[0];
    }
    NestedNone(p, a);
  }

  /** Two outputs whose paths start with different names can be concatenated without breaking the shape. */
  lemma GoodConcat(a: seq<Entry>, b: seq<Entry>, names: set<string>, name: string)
    requires Good(a) && Good(b) && Heads(a, names) && Heads(b, {name}) && name !in names
    ensures Good(a + b) && Heads(a + b, names + {name})
  {
    ConcatExcludesNested(a, b, names, name);
    ConcatOrdered(a, b, names, name);
  }

  lemma ConcatExcludesNested(a: seq<Entry>, b: seq<Entry>, names: set<string>, name: string)
    requires ExcludesNested(a) && ExcludesNested(b) && Heads(a, names) && Heads(b, {name}) && name !in names
    ensures ExcludesNested(a + b)
  {
    forall k | 0 <= k < |a + b| ensures (a + b)[k].excludes == Nested((a + b)[k].parts, (a + b)[..k]) {
      if k < |a| {
        ConcatKeepsPrefix(a, b, k);
      } else {
        ConcatExcludes(a, b, names, name, k - |a|);
      }
    }
  }

  lemma ConcatKeepsPrefix(a: seq<Entry>, b: seq<Entry>, k: nat)
    requires ExcludesNested(a) && k < |a|
    ensures (a + b)[k].excludes == Nested((a + b)[k].parts, (a + b)[..k])
  {
    assert (a + b)[..k] == a[..k];
    assert (a + b)[k] == a[k];
  }

  lemma ConcatOrdered(a: seq<Entry>, b: seq<Entry>, names: set<string>, name: string)
    requires PostOrdered(a) && DistinctPaths(a) && PostOrdered(b) && DistinctPaths(b)
    requires Heads(a, names) && Heads(b, {name}) && name !in names
    ensures PostOrdered(a + b) && DistinctPaths(a + b) && Heads(a + b, names + {name})
  {
    var ab := a + b;
    forall i, j | 0 <= i < j < |ab| ensures !StrictlyBelow(ab[i].parts, ab[j].parts) && ab[i].parts != ab[j].parts {
      if j >= |a| && i < |a| {
        assert ab[i].parts[0] != ab[j].parts[0];
      } else if i >= |a| {
        assert ab[i] == b[i - |a|] && ab[j] == b[j - |a|];
      }
    }
  }

  /** A folder's own entry, emitted after everything below it, keeps the shape: its excludes are all of them. */
  lemma GoodOwner(below: seq<Entry>, info: ManifestRecord)
    requires Good(below)
    requires forall k :: 0 <= k < |below| ==> |below[k].parts| > 0
    ensures Good(below + [Entry(info, [], PartsOf(below))])
  {
    var es := below + [Entry(info, [], PartsOf(below))];
    assert es[..|below|] == below;
    NestedAll([], below);
    forall k | 0 <= k < |below| ensures es[k].excludes == Nested(es[k].parts, es[..k]) {
      assert es[..k] == below[..k];
    }
  }

  function ChildNames(t: Folder, n: nat): set<string>
    requires n <= |t.children|
  {
    set i | 0 <= i < n :: t.children[i].name
  }

  lemma ChildNamesStep(t: Folder, n: nat)
    requires WF(t) && 0 < n <= |t.children|
    ensures t.children[n - 1].name !in ChildNames(t, n - 1)
    ensures ChildNames(t, n) == ChildNames(t, n - 1) + {t.children[n - 1].name}
  {
  }

  /** The traversal of a trie with distinct child names has the shape `Good` describes. */
  lemma {:induction false} WalkGood(t: Folder)
    requires WF(t)
    ensures Good(Walk(t))
    decreases t, 1
  {
    WalkChildrenGood(t, |t.children|);
    if t.owner.Some? {
      GoodOwner(WalkChildren(t, |t.children|), t.owner.value);
    }
  }

  lemma {:induction false} WalkChildrenGood(t: Folder, n: nat)
    requires WF(t) && n <= |t.children|
    ensures Good(WalkChildren(t, n)) && Heads(WalkChildren(t, n), ChildNames(t, n))
    decreases t, 0, n
  {
    if n > 0 {
      var c := t.children[n - 1];
      WalkChildrenGood(t, n - 1);
      assert WF(c.folder);
      WalkGood(c.folder);
      GoodLift(c.name, Walk(c.folder));
      ChildNamesStep(t, n);
      GoodConcat(WalkChildren(t, n - 1), LiftAll(c.name, Walk(c.folder)), ChildNames(t, n - 1), c.name);
    }
  }

  /**
    Exact excludes: in the traversal of a trie, each entry's excludes are
    exactly the paths of all entries nested inside its directory, at any
    depth, in traversal order; never itself, a sibling or an ancestor.
  */
  lemma ExcludesExact(t: Folder, k: nat)
    requires WF(t) && k < |Walk(t)|
    ensures Walk(t)[k].excludes == Nested(Walk(t)[k].parts, Walk(t))
  {
    var w := Walk(t);
    WalkGood(t);
    assert w == w[..k] + w[k..];
    NestedAppend(w[k].parts, w[..k], w[k..]);
    NestedNone(w[k].parts, w[k..]);
  }

  /** Post-order: an entry nested inside another is emitted before it. */
  lemma PostOrder(t: Folder, i: nat, j: nat)
    requires WF(t) && i < |Walk(t)| && j < |Walk(t)|
    requires StrictlyBelow(Walk(t)[i].parts, Walk(t)[j].parts)
    ensures j < i
  {
    WalkGood(t);
  }

  /** No directory is emitted twice. */
  lemma DistinctParts(t: Folder, i: nat, j: nat)
    requires WF(t) && i < j < |Walk(t)|
    ensures Walk(t)[i].parts != Walk(t)[j].parts
  {
    WalkGood(t);
  }

  /** Where the lifted output of child `m` sits inside the output of the first `n` children. */
  lemma {:induction false} ChildBlock(t: Folder, m: nat, n: nat) returns (off: nat)
    requires m < n <= |t.children|
    ensures off + |Walk(t.children[m].folder)| <= |WalkChildren(t, n)|
    ensures forall i :: 0 <= i < |Walk(t.children[m].folder)| ==>
      WalkChildren(t, n)[off + i] == Lift(t.children[m].name, Walk(t.children[m].folder)[i])
    decreases n
  {
    var prev := WalkChildren(t, n - 1);
    var c := t.children[n - 1];
    assert WalkChildren(t, n) == prev + LiftAll(c.name, Walk(c.folder));
    if m == n - 1 {
      off := |prev|;
    } else {
      off := ChildBlock(t, m, n - 1);
      forall i | 0 <= i < |Walk(t.children[m].folder)|
        ensures WalkChildren(t, n)[off + i] == Lift(t.children[m].name, Walk(t.children[m].folder)[i])
      {
        assert WalkChildren(t, n)[off + i] == prev[off + i];
      }
    }
  }

  /** Every entry of the traversal names the folder it came from: the entry's manifest owns the folder at its path. */
  lemma {:induction false} WalkAt(t: Folder, k: nat)
    requires WF(t) && k < |Walk(t)|
    ensures At(t, Walk(t)[k].parts) == Some(Walk(t)[k].info)
    decreases t, 1
  {
    var below := WalkChildren(t, |t.children|);
    if k < |below| {
      WalkChildrenAt(t, |t.children|, k);
    }
  }

  lemma {:induction false} WalkChildrenAt(t: Folder, n: nat, k: nat)
    requires WF(t) && n <= |t.children| && k < |WalkChildren(t, n)|
    ensures At(t, WalkChildren(t, n)[k].parts) == Some(WalkChildren(t, n)[k].info)
    decreases t, 0, n
  {
    var prev := WalkChildren(t, n - 1);
    if k < |prev| {
      WalkChildrenAt(t, n - 1, k);
    } else {
      var c := t.children[n - 1];
      var e := Walk(c.folder)[k - |prev|];
      assert WalkChildren(t, n)[k] == Lift(c.name, e);
      assert WF(c.folder);
      WalkAt(c.folder, k - |prev|);
      assert FindChild(t.children, c.name) == n - 1;
      assert ([c.name] + e.parts)[1..] == e.parts;
    }
  }

  /** Every owned folder of the trie yields an entry with its path and its owner. */
  lemma {:induction false} AtWalk(t: Folder, q: seq<string>)
    requires WF(t) && At(t, q).Some?
    ensures exists k :: 0 <= k < |Walk(t)| && Walk(t)[k].parts == q && Walk(t)[k].info == At(t, q).value
    decreases |q|
  {
    var w := Walk(t);
    if q == [] {
      assert w[|w| - 1].parts == q && w[|w| - 1].info == At(t, q).value;
    } else {
      var m := FindChild(t.children, q[0]);
      var c := t.children[m];
      assert WF(c.folder);
      AtWalk(c.folder, q[1..]);
      var k' :| 0 <= k' < |Walk(c.folder)| && Walk(c.folder)[k'].parts == q[1..] &&
        Walk(c.folder)[k'].info == At(t, q).value;
      var off := ChildBlock(t, m, |t.children|);
      assert WalkChildren(t, |t.children|)[off + k'] == Lift(c.name, Walk(c.folder)[k']);
      assert [q[0]] + q[1..] == q;
      assert w[off + k'] == WalkChildren(t, |t.children|)[off + k'];
    }
  }

  /**
    The topology of a repository: every entry of the traversal of the built
    trie carries one of the manifests, at the segments of that manifest's
    directory, and it is the last manifest found in that directory.
  */
  lemma TopologyEntry(ps: seq<ManifestRecord>, k: nat)
    requires k < |Walk(Build(ps))|
    ensures Walk(Build(ps))[k].info in ps
    ensures Walk(Build(ps))[k].parts == Paths.Dir(Walk(Build(ps))[k].info.path)
    ensures LastAt(ps, Walk(Build(ps))[k].parts) == Some(Walk(Build(ps))[k].info)
  {
    BuildAt(ps, Walk(Build(ps))[k].parts);
    WalkAt(Build(ps), k);
  }

  /**
    One entry per manifest: when no two manifests share a directory, each
    manifest is the manifest of exactly one entry, at its directory's segments.
  */
  lemma OneEntryPerManifest(ps: seq<ManifestRecord>, i: nat)
    requires i < |ps|
    requires forall a, b :: 0 <= a < b < |ps| ==> Paths.Dir(ps[a].path) != Paths.Dir(ps[b].path)
    ensures exists k :: (0 <= k < |Walk(Build(ps))| &&
      Walk(Build(ps))[k].info == ps[i] && Walk(Build(ps))[k].parts == Paths.Dir(ps[i].path))
    ensures forall k1, k2 :: 0 <= k1 < k2 < |Walk(Build(ps))| ==>
      !(Walk(Build(ps))[k1].info == ps[i] && Walk(Build(ps))[k2].info == ps[i])
  {
    var t := Build(ps);
    var q := Paths.Dir(ps[i].path);
    LastAtCovers(ps, i);
    BuildAt(ps, q);
    AtWalk(t, q);
    forall k1, k2 | 0 <= k1 < k2 < |Walk(t)| ensures !(Walk(t)[k1].info == ps[i] && Walk(t)[k2].info == ps[i]) {
      TopologyEntry(ps, k1);
      TopologyEntry(ps, k2);
      DistinctParts(t, k1, k2);
    }
  }

  /** Where the entries of child `m` start in the traversal: after those of the children inserted before it. */
  function ChildOffset(t: Folder, m: nat): nat
    requires m <= |t.children|
  {
    |WalkChildren(t, m)|
  }

  /** The entries of the first `n` children are a prefix of the entries of the first `n'`. */
  lemma {:induction false} WalkChildrenPrefix(t: Folder, n: nat, n': nat)
    requires n <= n' <= |t.children|
    ensures |WalkChildren(t, n)| <= |WalkChildren(t, n')|
    ensures WalkChildren(t, n) == WalkChildren(t, n')[..|WalkChildren(t, n)|]
    decreases n'
  {
    if n < n' {
      WalkChildrenPrefix(t, n, n' - 1);
    }
  }

  /** The `i`-th entry of child `m` sits in the traversal at the child's offset plus `i`, before the next child's entries. */
  lemma BlockAt(t: Folder, m: nat, i: nat)
    requires m < |t.children| && i < |Walk(t.children[m].folder)|
    ensures ChildOffset(t, m) + i < ChildOffset(t, m + 1) <= |Walk(t)|
    ensures Walk(t)[ChildOffset(t, m) + i] == Lift(t.children[m].name, Walk(t.children[m].folder)[i])
  {
    var all := WalkChildren(t, |t.children|);
    WalkChildrenPrefix(t, m + 1, |t.children|);
    assert WalkChildren(t, m + 1)[ChildOffset(t, m) + i] == all[ChildOffset(t, m) + i];
  }

  /**
    Siblings in insertion order: every entry of an earlier-inserted child
    comes before every entry of a later one.
  */
  lemma SiblingsInOrder(t: Folder, m1: nat, m2: nat, i1: nat, i2: nat)
    requires m1 < m2 < |t.children|
    requires i1 < |Walk(t.children[m1].folder)| && i2 < |Walk(t.children[m2].folder)|
    ensures ChildOffset(t, m1) + i1 < ChildOffset(t, m2) + i2 < |Walk(t)|
  {
    BlockAt(t, m1, i1);
    BlockAt(t, m2, i2);
    WalkChildrenPrefix(t, m1 + 1, m2);
  }

  /** Each entry of the first `n` children lies in the block of one of them. */
  lemma {:induction false} InBlockN(t: Folder, n: nat, k: nat) returns (m: nat, i: nat)
    requires n <= |t.children| && k < |WalkChildren(t, n)|
    ensures m < n && i < |Walk(t.children[m].folder)| && k == ChildOffset(t, m) + i
    decreases n
  {
    if k < |WalkChildren(t, n - 1)| {
      m, i := InBlockN(t, n - 1, k);
    } else {
      m, i := n - 1, k - |WalkChildren(t, n - 1)|;
    }
  }

  /** An entry with a non-empty path comes from the block of the child its path starts with. */
  lemma InBlock(t: Folder, k: nat) returns (m: nat, i: nat)
    requires k < |Walk(t)| && Walk(t)[k].parts != []
    ensures m < |t.children| && i < |Walk(t.children[m].folder)| && k == ChildOffset(t, m) + i
    ensures Walk(t)[k].parts[0] == t.children[m].name
  {
    m, i := InBlockN(t, |t.children|, k);
    BlockAt(t, m, i);
  }

  /**
    Emission order follows discovery order across top-level directories: when
    a manifest below `x` is found before any manifest below `y`, every entry
    below `x` is emitted before every entry below `y`.
  */
  lemma TopLevelOrder(ps: seq<ManifestRecord>, i: nat, x: string, y: string, k1: nat, k2: nat)
    requires i < |ps| && TopDir(ps[i]) == Some(x)
    requires forall l :: 0 <= l <= i ==> TopDir(ps[l]) != Some(y)
    requires k1 < |Walk(Build(ps))| && Walk(Build(ps))[k1].parts != [] && Walk(Build(ps))[k1].parts[0] == x
    requires k2 < |Walk(Build(ps))| && Walk(Build(ps))[k2].parts != [] && Walk(Build(ps))[k2].parts[0] == y
    ensures k1 < k2
  {
    var t := Build(ps);
    BuildAt(ps, []);
    BuildNames(ps);
    var m1, i1 := InBlock(t, k1);
    var m2, i2 := InBlock(t, k2);
    var heads := FirstHeads(ps);
    var early := FirstHeads(ps[..i + 1]);
    FirstHeadsPrefix(ps, i + 1);
    FirstHeadsMember(ps[..i + 1], x);
    FirstHeadsMember(ps[..i + 1], y);
    assert ps[..i + 1][i] == ps[i];
    assert x in early;
    var p :| 0 <= p < |early| && early[p] == x;
    assert heads[p] == x && Names(t.children)[p] == t.children[p].name;
    assert m1 == p;
    assert m2 >= |early|;
    SiblingsInOrder(t, m1, m2, i1, i2);
  }
}
