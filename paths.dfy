/**
  String and path helpers of the repository driver: JavaScript's `split('/')`
  and `join('/')`, `path.dirname` on `/`-separated repository-relative paths,
  the `.`/`..` normalisation that `path.resolve` performs, the first-segment
  extraction used for external module names, and `String.prototype.replace`
  with a string pattern (which replaces the first occurrence only).
*/
module Paths {

  /** The path separator of repository-relative paths. */
  const Sep: char := '/'

  /** The index of the first `c` in `s`, or `|s|` when there is none. */
  function IndexOf(s: string, c: char): (i: nat)
    ensures i <= |s|
    ensures i < |s| ==> s[i] == c
    ensures forall j :: 0 <= j < i ==> s[j] != c
  {
    if s == [] then 0
    else if s[0] == c then 0
    else 1 + IndexOf(s[1..], c)
  }

  /** `s.split(sep)`: always at least one piece (`"".split(sep)` is `[""]`). */
  function Split(s: string, sep: char): (parts: seq<string>)
    ensures |parts| >= 1
    decreases |s|
  {
    var i := IndexOf(s, sep);
    if i == |s| then [s] else [s[..i]] + Split(s[i + 1..], sep)
  }

  /** `parts.join(sep)`; the empty list joins to the empty string. */
  function Join(parts: seq<string>, sep: char): string
  {
    if |parts| == 0 then ""
    else if |parts| == 1 then parts[0]
    else parts[0] + [sep] + Join(parts[1..], sep)
  }

  predicate NoSep(parts: seq<string>, sep: char)
  {
    forall i :: 0 <= i < |parts| ==> sep !in parts[i]
  }

  /** No piece of a split contains the separator. */
  lemma {:induction false} SplitPiecesNoSep(s: string, sep: char)
    ensures NoSep(Split(s, sep), sep)
    decreases |s|
  {
    var i := IndexOf(s, sep);
    if i < |s| {
      SplitPiecesNoSep(s[i + 1..], sep);
    }
  }

  /** Joining the pieces of a split gives back the string. */
  lemma {:induction false} JoinSplit(s: string, sep: char)
    ensures Join(Split(s, sep), sep) == s
    decreases |s|
  {
    var i := IndexOf(s, sep);
    if i < |s| {
      var rest := Split(s[i + 1..], sep);
      JoinSplit(s[i + 1..], sep);
      assert Split(s, sep) == [s[..i]] + rest;
      assert ([s[..i]] + rest)[1..] == rest;
      assert Join(Split(s, sep), sep) == s[..i] + [sep] + Join(rest, sep);
      assert s == s[..i] + [sep] + s[i + 1..];
    }
  }

  /** A string without the separator splits into itself alone. */
  lemma SplitNoSep(s: string, sep: char)
    requires sep !in s
    ensures Split(s, sep) == [s]
  {
  }

  /** Splitting distributes over a separator: `(x + sep + y).split(sep)` is `x.split(sep).concat(y.split(sep))`. */
  lemma {:induction false} SplitConcat(x: string, y: string, sep: char)
    ensures Split(x + [sep] + y, sep) == Split(x, sep) + Split(y, sep)
    decreases |x|
  {
    var s := x + [sep] + y;
    var i := IndexOf(x, sep);
    assert s[i] == sep;
    if i == |x| {
      assert IndexOf(s, sep) == i;
      assert s[..i] == x && s[i + 1..] == y;
    } else {
      assert s[i] == x[i];
      assert IndexOf(s, sep) == i;
      assert s[..i] == x[..i];
      assert s[i + 1..] == x[i + 1..] + [sep] + y;
      SplitConcat(x[i + 1..], y, sep);
    }
  }

  /** Splitting a join of separator-free pieces gives back the pieces. */
  lemma {:induction false} SplitJoin(parts: seq<string>, sep: char)
    requires |parts| >= 1 && NoSep(parts, sep)
    ensures Split(Join(parts, sep), sep) == parts
    decreases |parts|
  {
    if |parts| == 1 {
      SplitNoSep(parts[0], sep);
    } else {
      var head, tail := parts[0], parts[1..];
      assert NoSep(tail, sep) by {
        forall i | 0 <= i < |tail| ensures sep !in tail[i] {
          assert tail[i] == parts[i + 1];
        }
      }
      var j := Join(tail, sep);
      assert Split(j, sep) == tail by {
        SplitJoin(tail, sep);
      }
      assert Split(head, sep) == [head] by {
        SplitNoSep(head, sep);
      }
      assert Split(head + [sep] + j, sep) == Split(head, sep) + Split(j, sep) by {
        SplitConcat(head, j, sep);
      }
      assert Join(parts, sep) == head + [sep] + j;
      assert parts == [head] + tail;
    }
  }

  /** Appending one piece to a non-empty join adds a separator and the piece. */
  lemma {:induction false} JoinSnoc(parts: seq<string>, last: string, sep: char)
    requires |parts| >= 1
    ensures Join(parts + [last], sep) == Join(parts, sep) + [sep] + last
    decreases |parts|
  {
    if |parts| > 1 {
      assert (parts + [last])[1..] == parts[1..] + [last];
      JoinSnoc(parts[1..], last, sep);
    }
  }

  /** The directory segments of a `/`-separated path: all its pieces but the last (`path.dirname`). */
  function Dir(path: string): (dir: seq<string>)
    ensures NoSep(dir, Sep)
  {
    SplitPiecesNoSep(path, Sep);
    var parts := Split(path, Sep);
    parts[..|parts| - 1]
  }

  /** A directory followed by a file name splits back into that directory. */
  lemma DirOfJoin(dir: seq<string>, name: string)
    requires NoSep(dir, Sep) && Sep !in name
    ensures Dir(Join(dir + [name], Sep)) == dir
  {
    SplitJoin(dir + [name], Sep);
    assert (dir + [name])[..|dir|] == dir;
  }

  /** `importName.split('/')[0]`: the longest separator-free prefix of `s`. */
  function FirstSegment(s: string): (r: string)
    ensures Sep !in r
    ensures r <= s
    ensures r == s || s[|r|] == Sep
  {
    SplitHead(s, Sep);
    SplitPiecesNoSep(s, Sep);
    Split(s, Sep)[0]
  }

  lemma SplitHead(s: string, sep: char)
    ensures Split(s, sep)[0] == s[..IndexOf(s, sep)]
  {
  }

  /** A segment that survives normalisation: not empty, not `.`, not `..`. */
  predicate IsNamedSegment(seg: string)
  {
    seg != "" && seg != "." && seg != ".."
  }

  predicate Canonical(segs: seq<string>)
  {
    forall i :: 0 <= i < |segs| ==> IsNamedSegment(segs[i])
  }

  /** Every segment of `r` is a segment of `segs`. */
  predicate Within(r: seq<string>, segs: seq<string>)
  {
    forall i :: 0 <= i < |r| ==> r[i] in segs
  }

  /** One step of the normalisation `path.resolve` applies: skip empty and `.`, pop on `..` (never above the root). */
  function Step(acc: seq<string>, seg: string): seq<string>
  {
    if seg == "" || seg == "." then acc
    else if seg == ".." then (if acc == [] then [] else acc[..|acc| - 1])
    else acc + [seg]
  }

  /** Segments of the absolute path `'/' + segs.join('/')` after `path.resolve`, read left to right. */
  function Normalize(segs: seq<string>): (r: seq<string>)
    ensures Canonical(r) && Within(r, segs)
  {
    if segs == [] then []
    else
      var prev := segs[..|segs| - 1];
      var r := Step(Normalize(prev), segs[|segs| - 1]);
      assert forall x :: x in prev ==> x in segs;
      r
  }

  /** An already canonical path is left alone. */
  lemma {:induction false} NormalizeCanonical(segs: seq<string>)
    requires Canonical(segs)
    ensures Normalize(segs) == segs
    decreases |segs|
  {
    if segs != [] {
      var prev, last := segs[..|segs| - 1], segs[|segs| - 1];
      assert IsNamedSegment(last);
      assert Canonical(prev) by {
        forall i | 0 <= i < |prev| ensures IsNamedSegment(prev[i]) {
          assert prev[i] == segs[i];
        }
      }
      NormalizeCanonical(prev);
      assert segs == prev + [last];
      NormalizeSnoc(prev, last);
      assert Step(prev, last) == prev + [last];
    }
  }

  lemma NormalizeIdempotent(segs: seq<string>)
    ensures Normalize(Normalize(segs)) == Normalize(segs)
  {
    NormalizeCanonical(Normalize(segs));
  }

  /** Normalisation can be done in stages: a normalised prefix stands for the prefix. */
  lemma {:induction false} NormalizeAppend(a: seq<string>, b: seq<string>)
    ensures Normalize(a + b) == Normalize(Normalize(a) + b)
    decreases |b|
  {
    if b == [] {
      assert a + b == a;
      assert Normalize(a) + b == Normalize(a);
      NormalizeIdempotent(a);
    } else {
      var b' := b[..|b| - 1];
      NormalizeAppend(a, b');
      assert (a + b)[..|a + b| - 1] == a + b';
      assert (Normalize(a) + b)[..|Normalize(a) + b| - 1] == Normalize(a) + b';
    }
  }

  /** `..` at the root stays at the root. */
  lemma ClampAtRoot(segs: seq<string>)
    ensures Normalize([".."] + segs) == Normalize(segs)
  {
    NormalizeAppend([".."], segs);
    assert [".."][..0] == [];
    assert Normalize([".."]) == Step([], "..") == [];
    assert [] + segs == segs;
  }

  /** `path.resolve('/' + path.dirname(file), specifier).substr(1)` for a relative specifier. */
  function ResolveImport(file: string, specifier: string): string
  {
    Join(Normalize(Dir(file) + Split(specifier, Sep)), Sep)
  }

  /** The resolved import is a canonical path: it splits into named segments only (or is the root). */
  lemma ResolvedIsCanonical(file: string, specifier: string)
    ensures var r := ResolveImport(file, specifier);
      r == "" || (Canonical(Split(r, Sep)) && Split(r, Sep) == Normalize(Dir(file) + Split(specifier, Sep)))
  {
    var segs := Dir(file) + Split(specifier, Sep);
    var n := Normalize(segs);
    if n != [] {
      SplitPiecesNoSep(specifier, Sep);
      assert NoSep(segs, Sep);
      assert NoSep(n, Sep) by {
        forall i | 0 <= i < |n| ensures Sep !in n[i] {
          assert n[i] in segs;
          var k :| 0 <= k < |segs| && segs[k] == n[i];
        }
      }
      SplitJoin(n, Sep);
    }
  }

  /** Normalising one more segment is one more step. */
  lemma NormalizeSnoc(segs: seq<string>, seg: string)
    ensures Normalize(segs + [seg]) == Step(Normalize(segs), seg)
  {
    assert (segs + [seg])[..|segs|] == segs;
  }

  /** `"<a>/<b>".split('/')` for separator-free `a` and `b`. */
  lemma SplitTwo(a: string, b: string)
    requires Sep !in a && Sep !in b
    ensures Split(a + "/" + b, Sep) == [a, b]
  {
    assert a + "/" + b == a + [Sep] + b;
    SplitConcat(a, b, Sep);
    SplitNoSep(a, Sep);
    SplitNoSep(b, Sep);
  }

  /** `./name` from a file names the sibling `name` in the file's (canonical) directory. */
  lemma ResolveSibling(file: string, name: string)
    requires Canonical(Dir(file)) && IsNamedSegment(name) && Sep !in name
    ensures ResolveImport(file, "./" + name) == Join(Dir(file) + [name], Sep)
  {
    var d := Dir(file);
    assert "./" + name == "." + "/" + name;
    SplitTwo(".", name);
    assert d + [".", name] == (d + ["."]) + [name];
    NormalizeSnoc(d + ["."], name);
    NormalizeSnoc(d, ".");
    NormalizeCanonical(d);
  }

  /** `../name` from a file names `name` in the parent of the file's directory, clamped at the root. */
  lemma ResolveParent(file: string, name: string)
    requires Canonical(Dir(file)) && IsNamedSegment(name) && Sep !in name
    ensures var d := Dir(file);
      ResolveImport(file, "../" + name) ==
        Join((if d == [] then [] else d[..|d| - 1]) + [name], Sep)
  {
    var d := Dir(file);
    assert "../" + name == ".." + "/" + name;
    SplitTwo("..", name);
    assert d + ["..", name] == (d + [".."]) + [name];
    NormalizeSnoc(d + [".."], name);
    NormalizeSnoc(d, "..");
    NormalizeCanonical(d);
  }

  /** The directory of `pkg/src/a.js` is `pkg/src`. */
  lemma ExampleDir()
    ensures Dir("pkg/src/a.js") == ["pkg", "src"]
  {
    assert ["src", "a.js"][1..] == ["a.js"];
    assert Join(["src", "a.js"], Sep) == "src/a.js";
    assert ["pkg", "src", "a.js"][1..] == ["src", "a.js"];
    assert Join(["pkg", "src", "a.js"], Sep) == "pkg/src/a.js";
    SplitJoin(["pkg", "src", "a.js"], Sep);
  }

  lemma ExampleSibling(file: string, x: string)
    requires Dir(file) == ["pkg", "src"] && x == "x"
    ensures ResolveImport(file, "./" + x) == "pkg/src/x"
  {
    assert IsNamedSegment("pkg") && IsNamedSegment("src") && IsNamedSegment(x);
    ResolveSibling(file, x);
    assert ["pkg", "src", "x"][1..] == ["src", "x"];
    assert Join(["src", "x"], Sep) == "src/x";
    assert Join(["pkg", "src", "x"], Sep) == "pkg/src/x";
  }

  lemma ExampleParent(file: string, x: string)
    requires Dir(file) == ["pkg", "src"] && x == "x"
    ensures ResolveImport(file, "../" + x) == "pkg/x"
  {
    assert IsNamedSegment("pkg") && IsNamedSegment("src") && IsNamedSegment(x);
    ResolveParent(file, x);
    assert ["pkg", "src"][..1] + [x] == ["pkg", "x"];
    assert Join(["pkg", "x"], Sep) == "pkg/x";
  }

  /** The two resolutions a file `pkg/src/a.js` makes of `./x` and `../x`. */
  lemma ResolveExamples(file: string, sibling: string, parent: string)
    requires file == "pkg/src/a.js" && sibling == "./x" && parent == "../x"
    ensures ResolveImport(file, sibling) == "pkg/src/x"
    ensures ResolveImport(file, parent) == "pkg/x"
  {
    ExampleDir();
    var x := "x";
    assert sibling == "./" + x;
    assert parent == "../" + x;
    ExampleSibling(file, x);
    ExampleParent(file, x);
  }

  /** `s` has `pat` at index `i`. */
  predicate MatchAt(s: string, pat: string, i: nat)
  {
    i + |pat| <= |s| && s[i..i + |pat|] == pat
  }

  /** Moving one character to the right: a match in `s` past index 0 is a match in `s[1..]`. */
  lemma MatchShift(s: string, pat: string, i: nat)
    requires 0 < i && |s| > 0
    ensures MatchAt(s, pat, i) <==> MatchAt(s[1..], pat, i - 1)
  {
    if i + |pat| <= |s| {
      assert s[i..i + |pat|] == s[1..][i - 1..i - 1 + |pat|];
    }
  }

  /** The index of the first occurrence of `pat` in `s`, or `|s| + 1` when there is none. */
  function FirstMatch(s: string, pat: string): (i: nat)
    ensures i <= |s| + 1
    ensures i <= |s| ==> MatchAt(s, pat, i)
    ensures forall j: nat :: j < i && j <= |s| ==> !MatchAt(s, pat, j)
    decreases |s|
  {
    if |s| < |pat| then |s| + 1
    else if s[..|pat|] == pat then 0
    else
      var k := FirstMatch(s[1..], pat);
      assert !MatchAt(s, pat, 0);
      if k <= |s| - 1 then
        MatchShift(s, pat, k + 1);
        assert forall j: nat :: 0 < j < k + 1 ==> !MatchAt(s, pat, j) by {
          forall j: nat | 0 < j < k + 1 ensures !MatchAt(s, pat, j) {
            MatchShift(s, pat, j);
          }
        }
        k + 1
      else
        assert forall j: nat :: 0 < j <= |s| ==> !MatchAt(s, pat, j) by {
          forall j: nat | 0 < j <= |s| ensures !MatchAt(s, pat, j) {
            MatchShift(s, pat, j);
          }
        }
        |s| + 1
  }

  /** `s.replace(pat, rep)` with a string pattern: only the first occurrence is replaced. */
  function ReplaceFirst(s: string, pat: string, rep: string): string
  {
    var i := FirstMatch(s, pat);
    if i <= |s| then s[..i] + rep + s[i + |pat|..] else s
  }
}
