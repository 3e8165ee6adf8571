/** File trees as finite maps from relative paths to nodes, and the two bulk operations the deployment and
    update code is built from: deleting a subtree and grafting a saved copy of one. */
module FileTree {
  type Path = seq<string>
  datatype Node = Dir | File(content: string)
  type Tree = map<Path, Node>

  /** `p` is `root` or lies below it. */
  predicate Under(root: Path, p: Path) {
    root <= p
  }

  /** Every path is non-empty and its parent is a directory of the tree. */
  predicate IsTree(t: Tree) {
    forall p :: p in t ==> p != [] && (|p| > 1 ==> p[..|p| - 1] in t && t[p[..|p| - 1]].Dir?)
  }

  lemma {:induction false} PrefixInTree(t: Tree, q: Path, p: Path)
    requires IsTree(t) && p in t && q <= p && q != []
    ensures q in t && (q != p ==> t[q].Dir?)
    decreases |p|
  {
    if q != p {
      assert q <= p[..|p| - 1];
      PrefixInTree(t, q, p[..|p| - 1]);
    }
  }

  /** Of two prefixes of one path the shorter is a prefix of the longer. */
  lemma PrefixesComparable(a: Path, b: Path, p: Path)
    requires a <= p && b <= p
    ensures a <= b || b <= a
  {
    if |a| <= |b| {
      assert a == p[..|a|] && b == p[..|b|];
      assert a == b[..|a|];
    } else {
      assert a == p[..|a|] && b == p[..|b|];
      assert b == a[..|b|];
    }
  }

  /** `t` holds at `p` what `u` holds at `q`. */
  predicate SameAt(t: Tree, u: Tree, p: Path, q: Path) {
    (p in t <==> q in u) && (p in t && q in u ==> t[p] == u[q])
  }

  lemma SameTrees(t: Tree, u: Tree)
    requires forall p :: SameAt(t, u, p, p)
    ensures t == u
  {
    forall p ensures (p in t <==> p in u) && (p in t ==> t[p] == u[p]) {
      assert SameAt(t, u, p, p);
    }
  }

  function Without(t: Tree, root: Path): Tree {
    map p | p in t && !Under(root, p) :: t[p]
  }

  /** Some parent of `p` is a file, so the directories above `p` cannot be made. */
  predicate ParentIsFile(t: Tree, p: Path) {
    exists i :: 0 < i < |p| && p[..i] in t && t[p[..i]].File?
  }

  /** `mkdir(parents=True, exist_ok=True)` on the parent of `p`. */
  function WithParents(t: Tree, p: Path): Tree {
    t + map i, q | 0 < i < |p| && q == p[..i] && q !in t :: q := Dir
  }

  /** The copy of the subtree at `from`, placed at `to`. */
  function Graft(t: Tree, from: Path, to: Path): (g: Tree)
    ensures forall p :: p in g <==> to <= p && from + p[|to|..] in t
    ensures forall p :: p in g ==> g[p] == t[from + p[|to|..]]
  {
    var landing := set q | q in t && from <= q :: to + q[|from|..];
    LandingPaths(t, from, to);
    map p | p in landing :: t[from + p[|to|..]]
  }

  lemma LandingPaths(t: Tree, from: Path, to: Path)
    ensures forall p :: p in (set q | q in t && from <= q :: to + q[|from|..]) <==> to <= p && from + p[|to|..] in t
  {
    forall q | q in t && from <= q ensures to <= to + q[|from|..] && from + (to + q[|from|..])[|to|..] == q {
    }
    forall p | to <= p && from + p[|to|..] in t ensures p in (set q | q in t && from <= q :: to + q[|from|..]) {
      var q := from + p[|to|..];
      assert from <= q && to + q[|from|..] == p;
    }
  }

  // ----- listings

  /** `sorted(home.rglob("*"), key=depth)`. */
  method SortedByDepth(paths: set<Path>) returns (order: seq<Path>)
    ensures ByDepth(order, paths)
  {
    order := [];
    var rest := paths;
    while rest != {}
      invariant rest <= paths && forall p :: p in order <==> p in paths - rest
      invariant forall i, j :: 0 <= i < j < |order| ==> |order[i]| <= |order[j]| && order[i] != order[j]
      invariant forall i, p :: 0 <= i < |order| && p in rest ==> |order[i]| <= |p|
      decreases |rest|
    {
      var p := Shallowest(rest);
      assert forall i :: 0 <= i < |order| ==> order[i] in order;
      order := order + [p];
      rest := rest - {p};
    }
  }

  lemma ShallowestExists(paths: set<Path>)
    requires paths != {}
    ensures exists p :: p in paths && forall q :: q in paths ==> |p| <= |q|
    decreases |paths|
  {
    var p :| p in paths;
    if paths - {p} != {} {
      ShallowestExists(paths - {p});
      var q :| q in paths - {p} && forall r :: r in paths - {p} ==> |q| <= |r|;
      var least := if |p| <= |q| then p else q;
      assert least in paths && forall r :: r in paths ==> |least| <= |r|;
    } else {
      assert paths == {p};
    }
  }

  method Shallowest(paths: set<Path>) returns (p: Path)
    requires paths != {}
    ensures p in paths && forall q :: q in paths ==> |p| <= |q|
  {
    ShallowestExists(paths);
    p :| p in paths && forall q :: q in paths ==> |p| <= |q|;
  }

  ghost predicate ByDepth(order: seq<Path>, paths: set<Path>) {
    && (forall p :: p in order <==> p in paths)
    && forall i, j :: 0 <= i < j < |order| ==> |order[i]| <= |order[j]| && order[i] != order[j]
  }

  /** Every path once, and no path before one of its descendants: a reverse-sorted listing is such an order. */
  ghost predicate ChildrenFirst(order: seq<Path>, t: Tree) {
    && (forall p :: p in order <==> p in t)
    && forall i, j :: 0 <= i < j < |order| ==> !(order[i] <= order[j])
  }

  method ListChildrenFirst(t: Tree) returns (order: seq<Path>)
    ensures ChildrenFirst(order, t)
  {
    var ascending := SortedByDepth(t.Keys);
    var n := |ascending|;
    order := seq(n, i requires 0 <= i < n => ascending[n - 1 - i]);
    forall p ensures p in order <==> p in ascending {
      if p in ascending {
        var i :| 0 <= i < n && ascending[i] == p;
        assert order[n - 1 - i] == p;
      }
    }
  }
}
