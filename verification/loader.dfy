/** The include search of `internal/plugins/nginx/loader.go` and `internal/plugins/apache/loader.go`.

    What a file includes (parsing, globs, directories) and what a path resolves to are given by
    two functions; nginx files are told apart by their absolute path, Apache files by the path
    with symbolic links resolved.
 */
module Loader {

  type Path = string

  /** `read` gives the files that a file includes, in order, or None when it cannot be read or
      parsed; `key` is the name under which a file counts as visited. */
  datatype Tree = Tree(read: Path -> Contents, key: Path -> Path)

  datatype Contents = Unreadable | Includes(targets: seq<Path>)

  /** A path along include directives. */
  ghost predicate IsChain(t: Tree, c: seq<Path>) {
    c != [] && forall i :: 0 <= i < |c| - 1 ==> t.read(c[i]).Includes? && c[i + 1] in t.read(c[i]).targets
  }

  ghost predicate ChainTo(t: Tree, c: seq<Path>, from: Path, to: Path) {
    IsChain(t, c) && c[0] == from && c[|c| - 1] == to
  }

  ghost predicate Reachable(t: Tree, from: Path, to: Path) {
    exists c :: ChainTo(t, c, from, to)
  }

  lemma ReachSelf(t: Tree, p: Path)
    ensures Reachable(t, p, p)
  {
    assert ChainTo(t, [p], p, p);
  }

  lemma ReachStep(t: Tree, from: Path, mid: Path, to: Path)
    requires t.read(from).Includes? && mid in t.read(from).targets && Reachable(t, mid, to)
    ensures Reachable(t, from, to)
  {
    var c :| ChainTo(t, c, mid, to);
    assert ChainTo(t, [from] + c, from, to);
  }

  /** A finite set of paths that contains what its files include. */
  ghost predicate Universe(t: Tree, all: set<Path>) {
    forall p <- all :: t.read(p).Includes? ==> forall q <- t.read(p).targets :: q in all
  }

  function Keys(t: Tree, files: seq<Path>): (r: seq<Path>)
    ensures |r| == |files| && forall i :: 0 <= i < |r| ==> r[i] == t.key(files[i])
  {
    seq(|files|, i requires 0 <= i < |files| => t.key(files[i]))
  }

  predicate Distinct(s: seq<Path>) {
    forall i, j :: 0 <= i < j < |s| ==> s[i] != s[j]
  }

  /** All files that `f` includes have been visited. */
  predicate Followed(t: Tree, f: Path, visited: set<Path>) {
    t.read(f).Includes? && forall q <- t.read(f).targets :: t.key(q) in visited
  }

  /** What a successful search from `from` adds. */
  ghost predicate Grown(t: Tree, from: Path, old_: set<Path>, visited: set<Path>, more: seq<Path>) {
    old_ <= visited && visited == old_ + (set f <- more :: t.key(f)) &&
    Distinct(Keys(t, more)) && (forall f <- more :: t.key(f) !in old_ && Reachable(t, from, f))
  }

  lemma GrownNothing(t: Tree, from: Path, visited: set<Path>)
    ensures Grown(t, from, visited, visited, [])
  {
  }

  lemma GrownOne(t: Tree, path: Path, visited: set<Path>)
    requires t.key(path) !in visited
    ensures Grown(t, path, visited, visited + {t.key(path)}, [path])
  {
    ReachSelf(t, path);
    assert (set f <- [path] :: t.key(f)) == {t.key(path)};
  }

  /** All files in a list have been followed. */
  ghost predicate AllFollowed(t: Tree, files: seq<Path>, visited: set<Path>) {
    forall f <- files :: Followed(t, f, visited)
  }

  lemma FollowedNothing(t: Tree, visited: set<Path>)
    ensures AllFollowed(t, [], visited)
  {
  }

  lemma FollowedOne(t: Tree, f: Path, visited: set<Path>)
    requires Followed(t, f, visited)
    ensures AllFollowed(t, [f], visited)
  {
  }

  /** Some file below `from` cannot be read. */
  ghost predicate Broken(t: Tree, from: Path) {
    exists f :: Reachable(t, from, f) && t.read(f).Unreadable?
  }

  lemma BrokenHere(t: Tree, from: Path)
    requires t.read(from).Unreadable?
    ensures Broken(t, from)
  {
    ReachSelf(t, from);
  }

  lemma BrokenBelow(t: Tree, from: Path, mid: Path)
    requires t.read(from).Includes? && mid in t.read(from).targets && Broken(t, mid)
    ensures Broken(t, from)
  {
    var f :| Reachable(t, mid, f) && t.read(f).Unreadable?;
    ReachStep(t, from, mid, f);
  }

  lemma TargetsFollowed(t: Tree, f: Path, targets: seq<Path>, visited: set<Path>)
    requires t.read(f) == Includes(targets) && SeenUpTo(t, targets, |targets|, visited)
    ensures Followed(t, f, visited)
  {
  }

  /** The first targets have been visited. */
  predicate SeenUpTo(t: Tree, targets: seq<Path>, n: nat, visited: set<Path>)
    requires n <= |targets|
  {
    forall j :: 0 <= j < n ==> t.key(targets[j]) in visited
  }

  lemma SeenNone(t: Tree, targets: seq<Path>, visited: set<Path>)
    ensures SeenUpTo(t, targets, 0, visited)
  {
  }

  lemma SeenMore(t: Tree, targets: seq<Path>, n: nat, v1: set<Path>, v2: set<Path>)
    requires n < |targets| && SeenUpTo(t, targets, n, v1) && v1 <= v2 && t.key(targets[n]) in v2
    ensures SeenUpTo(t, targets, n + 1, v2)
  {
  }

  lemma AppendMore(o: seq<Path>, a: seq<Path>, b: seq<Path>)
    ensures o + a + b == o + (a + b)
  {
  }

  lemma TargetsInUniverse(t: Tree, all: set<Path>, f: Path, targets: seq<Path>)
    requires Universe(t, all) && f in all && t.read(f) == Includes(targets)
    ensures forall j :: 0 <= j < |targets| ==> targets[j] in all
  {
  }

  lemma AllFollowedMore(t: Tree, a: seq<Path>, b: seq<Path>, v1: set<Path>, v2: set<Path>)
    requires AllFollowed(t, a, v1) && AllFollowed(t, b, v2) && v1 <= v2
    ensures AllFollowed(t, a + b, v2)
  {
    assert forall f :: f in a + b <==> f in a || f in b;
  }

  lemma GrownMore(t: Tree, from: Path, v0: set<Path>, v1: set<Path>, v2: set<Path>, a: seq<Path>, b: seq<Path>)
    requires Grown(t, from, v0, v1, a) && Grown(t, from, v1, v2, b)
    ensures Grown(t, from, v0, v2, a + b)
  {
    assert forall f :: f in a + b <==> f in a || f in b;
    var k := Keys(t, a + b);
    forall i, j | 0 <= i < j < |k| ensures k[i] != k[j] {
      if j < |a| {
        assert Keys(t, a)[i] != Keys(t, a)[j];
      } else if i >= |a| {
        assert Keys(t, b)[i - |a|] != Keys(t, b)[j - |a|];
      } else {
        assert a[i] in a && t.key(a[i]) in v1 && b[j - |a|] in b;
      }
    }
  }

  /** A file that was not visited, in front of what the search of its targets adds. */
  lemma LoadedMore(t: Tree, path: Path, v0: set<Path>, v1: set<Path>, v2: set<Path>, below: seq<Path>)
    requires t.key(path) !in v0 && v1 == v0 + {t.key(path)}
    requires Grown(t, path, v1, v2, below) && AllFollowed(t, below, v2) && Followed(t, path, v2)
    ensures Grown(t, path, v0, v2, [path] + below) && AllFollowed(t, [path] + below, v2)
  {
    hide Grown, AllFollowed, Followed;
    GrownOne(t, path, v0);
    FollowedOne(t, path, v2);
    GrownMore(t, path, v0, v1, v2, [path], below);
    AllFollowedMore(t, [path], below, v2, v2);
  }

  lemma GrownFrom(t: Tree, from: Path, mid: Path, v0: set<Path>, v1: set<Path>, a: seq<Path>)
    requires Grown(t, mid, v0, v1, a) && t.read(from).Includes? && mid in t.read(from).targets
    ensures Grown(t, from, v0, v1, a)
  {
    forall f <- a ensures Reachable(t, from, f) { ReachStep(t, from, mid, f); }
  }

  class Search {
    const tree: Tree
    ghost const all: set<Path>
    ghost const keys: set<Path>
    var visited: set<Path>
    var out: seq<Path>

    constructor (tree: Tree, ghost all: set<Path>)
      ensures this.tree == tree && this.all == all && visited == {} && out == []
      ensures keys == set p <- all :: tree.key(p)
    {
      this.tree, this.all, visited, out := tree, all, {}, [];
      keys := set p <- all :: tree.key(p);
    }

    ghost predicate Valid() {
      Universe(tree, all) && forall p <- all :: tree.key(p) in keys
    }

    /** The keys still to be visited. */
    ghost function Left(): set<Path>
      reads this
    {
      keys - visited
    }

    method LoadInto(path: Path) returns (ok: bool, ghost more: seq<Path>)
      requires Valid() && path in all
      modifies this
      ensures old(visited) <= visited && out == old(out) + more
      ensures ok ==> Grown(tree, path, old(visited), visited, more) && tree.key(path) in visited
      ensures ok ==> AllFollowed(tree, more, visited)
      ensures !ok ==> Broken(tree, path)
      decreases |Left()|, 1
    {
      hide Grown, Broken, AllFollowed, Keys, Followed, Universe;
      more := [];
      if tree.key(path) in visited {
        GrownNothing(tree, path, visited);
        FollowedNothing(tree, visited);
        return true, [];
      }
      ghost var v0 := visited;
      visited := visited + {tree.key(path)};
      ghost var v1 := visited;
      Fewer(old(Left()), Left(), tree.key(path));
      var contents := tree.read(path);
      if contents.Unreadable? {
        BrokenHere(tree, path);
        return false, [];
      }
      out := out + [path];
      ghost var below;
      ok, below := WalkIncludes(path, contents.targets);
      more := [path] + below;
      AppendMore(old(out), [path], below);
      if ok { LoadedMore(tree, path, v0, v1, visited, below); }
    }

    /** The body of the loop over the matches of an include directive. */
    method Follow(path: Path, target: Path) returns (ok: bool, ghost more: seq<Path>)
      requires Valid() && target in all && tree.read(path).Includes? && target in tree.read(path).targets
      modifies this
      ensures old(visited) <= visited && out == old(out) + more
      ensures ok ==> Grown(tree, path, old(visited), visited, more) && AllFollowed(tree, more, visited)
      ensures ok ==> tree.key(target) in visited
      ensures !ok ==> Broken(tree, path)
      decreases |Left()|, 2
    {
      hide Grown, Broken, AllFollowed, Keys, Followed, Universe;
      ghost var v0 := visited;
      ok, more := LoadInto(target);
      if ok { GrownFrom(tree, path, target, v0, visited, more); } else { BrokenBelow(tree, path, target); }
    }

    method WalkIncludes(path: Path, targets: seq<Path>) returns (ok: bool, ghost more: seq<Path>)
      requires Valid() && path in all && tree.read(path) == Includes(targets)
      modifies this
      ensures old(visited) <= visited && out == old(out) + more
      ensures ok ==> Grown(tree, path, old(visited), visited, more) && AllFollowed(tree, more, visited)
      ensures ok ==> Followed(tree, path, visited)
      ensures !ok ==> Broken(tree, path)
      decreases |Left()|, 3
    {
      hide Grown, Broken, AllFollowed, Keys, Followed, Universe, SeenUpTo;
      SeenNone(tree, targets, visited);
      TargetsInUniverse(tree, all, path, targets);
      more := [];
      GrownNothing(tree, path, visited);
      FollowedNothing(tree, visited);
      ghost var v0, o0 := visited, out;
      for i := 0 to |targets|
        invariant v0 <= visited && out == o0 + more
        invariant Grown(tree, path, v0, visited, more) && AllFollowed(tree, more, visited)
        invariant SeenUpTo(tree, targets, i, visited)
      {
        ghost var v1 := visited;
        FewerOrEqual(old(Left()), Left());
        var done;
        ghost var below;
        done, below := Follow(path, targets[i]);
        AppendMore(o0, more, below);
        if !done { return false, more + below; }
        GrownMore(tree, path, v0, v1, visited, more, below);
        AllFollowedMore(tree, more, below, v1, visited);
        SeenMore(tree, targets, i, v1, visited);
        more := more + below;
      }
      TargetsFollowed(tree, path, targets, visited);
      return true, more;
    }
  }

  lemma Fewer(a: set<Path>, b: set<Path>, x: Path)
    requires b <= a && x in a && x !in b
    ensures |b| < |a|
  {
    FewerOrEqual(a - {x}, b);
  }

  lemma FewerOrEqual(a: set<Path>, b: set<Path>)
    requires b <= a
    ensures |b| <= |a|
  {
    assert a == b + (a - b);
  }

  // ----- Results of a search -----

  method LoadAll(tree: Tree, root: Path, ghost all: set<Path>) returns (ok: bool, out: seq<Path>)
    requires Universe(tree, all) && root in all
    ensures ok ==> Found(tree, root, out)
    ensures !ok ==> Broken(tree, root)
  {
    var s := new Search(tree, all);
    ghost var more;
    ok, more := s.LoadInto(root);
    out := s.out;
    assert out == more;
    assert s.visited == {} + s.visited;
  }

  /** What `LoadAll` returns: files of different keys, all reachable; the root and every file that
      a returned file includes is among them, up to its key. */
  ghost predicate Found(t: Tree, root: Path, out: seq<Path>) {
    var visited := set f <- out :: t.key(f);
    Distinct(Keys(t, out)) && t.key(root) in visited &&
    (forall f <- out :: Reachable(t, root, f) && Followed(t, f, visited))
  }

  lemma {:induction false} ChainIsFound(t: Tree, root: Path, out: seq<Path>, c: seq<Path>)
    requires Found(t, root, out) && (forall p :: t.key(p) == p)
    requires IsChain(t, c) && c[0] == root
    ensures c[|c| - 1] in out
    decreases |c|
  {
    if |c| > 1 {
      var c' := c[..|c| - 1];
      ChainIsFound(t, root, out, c');
      var f := c'[|c'| - 1];
      assert f in out && c[|c| - 1] in t.read(f).targets;
      assert t.key(c[|c| - 1]) in set g <- out :: t.key(g);
    } else {
      assert t.key(root) in set g <- out :: t.key(g);
    }
  }

  /** With absolute paths as keys, the search returns each reachable file exactly once and nothing
      else, and it succeeds exactly when every reachable file can be read. */
  lemma SearchIsExact(t: Tree, root: Path, ok: bool, out: seq<Path>)
    requires forall p :: t.key(p) == p
    requires ok ==> Found(t, root, out)
    requires !ok ==> Broken(t, root)
    ensures ok ==> Distinct(out) && forall f :: f in out <==> Reachable(t, root, f)
    ensures ok <==> forall f :: Reachable(t, root, f) ==> t.read(f).Includes?
  {
    if ok {
      forall f | Reachable(t, root, f) ensures f in out && t.read(f).Includes? {
        var c :| ChainTo(t, c, root, f);
        ChainIsFound(t, root, out, c);
      }
      forall i, j | 0 <= i < j < |out| ensures out[i] != out[j] {
        assert Keys(t, out)[i] != Keys(t, out)[j];
      }
    }
  }

  /** `loadAll` of the nginx plugin: files are told apart by their path. */
  method LoadAllNginx(read: Path -> Contents, root: Path, ghost all: set<Path>) returns (ok: bool, out: seq<Path>)
    requires Universe(Tree(read, p => p), all) && root in all
    ensures ok ==> Distinct(out) && forall f :: f in out <==> Reachable(Tree(read, p => p), root, f)
    ensures ok <==> forall f :: Reachable(Tree(read, p => p), root, f) ==> read(f).Includes?
  {
    ok, out := LoadAll(Tree(read, p => p), root, all);
    SearchIsExact(Tree(read, p => p), root, ok, out);
  }

  /** With resolved paths as keys, no two returned files are links to one another. */
  lemma NoFileTwice(t: Tree, root: Path, out: seq<Path>, i: nat, j: nat)
    requires Found(t, root, out) && i < |out| && j < |out| && t.key(out[i]) == t.key(out[j])
    ensures i == j
  {
    assert Keys(t, out)[i] == Keys(t, out)[j];
  }
}
