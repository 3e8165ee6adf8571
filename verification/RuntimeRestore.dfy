/** Archiving a SoulLink runtime tree and restoring the archive over whatever is there later.

    The archive keeps files only, leaving out the databases, their sidecars and the preserved roots. The restore
    deletes everything but those, children before parents, keeps a directory that does not come out empty, and
    copies the archived files back. The result is "the archived tree outside, the current tree inside the
    protected paths" exactly under the condition `RoundTrips`. */
module RuntimeRestore {
  import opened FileTree

  datatype Layout = Layout(databases: set<Path>, preserved: set<Path>) {
    ghost predicate Valid() {
      (forall d :: d in databases ==> d != []) && (forall r :: r in preserved ==> r != [])
    }

    predicate Preserves(p: Path) {
      exists r :: r in preserved && r <= p
    }

    /** No preserved root ends in a name repeated, as `x/x` does. A file copied into a directory of its own name
        then never lands in one. */
    predicate NoEcho() {
      forall r :: r in preserved && |r| >= 2 ==> r[|r| - 1] != r[|r| - 2]
    }

    /** The exclusion set built while archiving: each database with its three sidecars. */
    function Excluded(): set<Path>
      requires forall d :: d in databases ==> d != []
    {
      set d, suffix | d in databases && suffix in {"", "-wal", "-shm", "-journal"} :: WithSuffix(d, suffix)
    }

    predicate ArchiveSkips(p: Path)
      requires forall d :: d in databases ==> d != []
    {
      p in Excluded() || exists r :: r in preserved && r <= p
    }

    /** The protection tests of the delete loop, kept apart as in the code. */
    predicate DeleteSkips(p: Path)
      requires forall d :: d in databases ==> d != []
    {
      || p in databases
      || (exists d ::
            && d in databases
            && (p == WithSuffix(d, "-wal") || p == WithSuffix(d, "-shm") || p == WithSuffix(d, "-journal")))
      || exists r :: r in preserved && r <= p
    }
  }

  function WithSuffix(d: Path, suffix: string): Path
    requires d != []
  {
    d[..|d| - 1] + [d[|d| - 1] + suffix]
  }

  lemma NoSuffix(d: Path)
    requires d != []
    ensures WithSuffix(d, "") == d
  {
    assert d[|d| - 1] + "" == d[|d| - 1];
    assert d[..|d| - 1] + [d[|d| - 1]] == d;
  }

  /** What the archive leaves out is what the delete loop leaves alone. */
  lemma SkipsCoincide(lay: Layout, p: Path)
    requires lay.Valid()
    ensures lay.ArchiveSkips(p) <==> lay.DeleteSkips(p)
  {
    if p in lay.Excluded() {
      var d, suffix :| d in lay.databases && suffix in {"", "-wal", "-shm", "-journal"} && p == WithSuffix(d, suffix);
      NoSuffix(d);
    }
    if p in lay.databases {
      NoSuffix(p);
      assert "" in {"", "-wal", "-shm", "-journal"};
    }
  }

  type Files = map<Path, string>

  /** The members of the archive. */
  function Archive(lay: Layout, s: Tree): Files
    requires forall d :: d in lay.databases ==> d != []
  {
    map p | p in s && s[p].File? && !lay.ArchiveSkips(p) :: s[p].content
  }

  // ----- the delete loop

  ghost predicate HasProtectedBelow(lay: Layout, t: Tree, p: Path)
    requires lay.Valid()
  {
    exists q :: q in t && p < q && lay.DeleteSkips(q)
  }

  ghost predicate Survives(lay: Layout, t: Tree, p: Path)
    requires lay.Valid()
  {
    p in t && (lay.DeleteSkips(p) || (t[p].Dir? && HasProtectedBelow(lay, t, p)))
  }

  predicate IsEmptyDir(t: Tree, p: Path) {
    forall q :: q in t ==> !(p <= q && |q| == |p| + 1)
  }

  /** What is left once the paths in `seen` have been decided. */
  ghost function Remaining(lay: Layout, t: Tree, seen: set<Path>): Tree
    requires lay.Valid()
  {
    map p | p in t && (p !in seen || Survives(lay, t, p)) :: t[p]
  }

  lemma ChildToward(p: Path, q: Path)
    requires p < q
    ensures p <= q[..|p| + 1] <= q && |q[..|p| + 1]| == |p| + 1
  {
  }

  /** Once all its descendants are decided, a directory is empty exactly if nothing protected lies below it. */
  lemma EmptyMeansNothingProtected(lay: Layout, t: Tree, seen: set<Path>, p: Path)
    requires lay.Valid() && IsTree(t) && forall q :: q in t && p < q ==> q in seen
    ensures IsEmptyDir(Remaining(lay, t, seen), p) <==> !HasProtectedBelow(lay, t, p)
  {
    hide Layout.DeleteSkips;
    if HasProtectedBelow(lay, t, p) {
      var q :| q in t && p < q && lay.DeleteSkips(q);
      var c := q[..|p| + 1];
      ChildToward(p, q);
      PrefixInTree(t, c, q);
      assert c != q ==> c < q && HasProtectedBelow(lay, t, c);
      assert c in Remaining(lay, t, seen);
    }
    if !IsEmptyDir(Remaining(lay, t, seen), p) {
      var c :| c in Remaining(lay, t, seen) && p <= c && |c| == |p| + 1;
      if !lay.DeleteSkips(c) {
        var q :| q in t && c < q && lay.DeleteSkips(q);
        assert p < q;
      }
    }
  }

  class RuntimeTree {
    var nodes: Tree

    constructor (nodes: Tree)
      ensures this.nodes == nodes
    {
      this.nodes := nodes;
    }

    method DeleteUnprotected(lay: Layout, order: seq<Path>)
      requires lay.Valid() && IsTree(nodes) && ChildrenFirst(order, nodes)
      modifies this
      ensures nodes == Remaining(lay, old(nodes), old(nodes).Keys)
    {
      ghost var t := nodes;
      assert Elements(order, 0) == {};
      hide Layout.DeleteSkips, Remaining, ChildrenFirst, IsTree, Elements;
      StartRemaining(lay, t);
      for k := 0 to |order|
        invariant nodes == Remaining(lay, t, Elements(order, k))
      {
        var path := order[k];
        DeleteStep(lay, t, order, k);
        if lay.DeleteSkips(path) {
          continue;
        }
        if nodes[path].File? || IsEmptyDir(nodes, path) {
          nodes := nodes - {path};
        }
      }
      AllElements(order, t);
    }

    /** `copy2`: a directory in the place of `p` takes the file inside; a file in place of a parent raises. */
    method CopyFile(p: Path, content: string) returns (r: CopyResult)
      requires p != []
      modifies this
      ensures r == Placed <==> !ParentIsFile(old(nodes), p) && !(p in old(nodes) && old(nodes)[p].Dir?)
      ensures r == Placed ==> nodes == WithParents(old(nodes), p)[p := File(content)]
      ensures r == Misplaced ==>
                && p in old(nodes) && old(nodes)[p].Dir?
                && !(Inside(p) in old(nodes) && old(nodes)[Inside(p)].Dir?)
                && nodes == old(nodes)[Inside(p) := File(content)]
      ensures r == Raised <==>
                || ParentIsFile(old(nodes), p)
                || (old(nodes).Keys >= {p, Inside(p)} && old(nodes)[p].Dir? && old(nodes)[Inside(p)].Dir?)
      ensures r == Raised ==> nodes == old(nodes)
    {
      hide ParentIsFile, WithParents;
      if ParentIsFile(nodes, p) {
        return Raised;
      }
      if p in nodes && nodes[p].Dir? {
        if Inside(p) in nodes && nodes[Inside(p)].Dir? {
          return Raised;
        }
        nodes := nodes[Inside(p) := File(content)];
        return Misplaced;
      }
      nodes := WithParents(nodes, p)[p := File(content)];
      r := Placed;
    }

    method CopyStaged(ghost lay: Layout, files: Files) returns (r: CopyResult)
      requires FilesOnly(files) && IsTree(nodes) && forall p :: p in files ==> !lay.Preserves(p)
      modifies this
      ensures r == Placed <==> !Clash(old(nodes), files)
      ensures r == Placed ==> Overlaid(nodes, old(nodes), files)
      ensures r == Misplaced ==> SomeMisplaced(nodes, old(nodes), files)
      ensures IsTree(nodes) && (lay.NoEcho() ==> PreservedSame(lay, nodes, old(nodes)))
    {
      ghost var d := nodes;
      var rest := files.Keys;
      r := Placed;
      NothingPlaced(d, files);
      hide Overlaid, Clash, ClashAt, ParentIsFile, WithParents, IsTree, PreservedSame, Layout.Preserves, Layout.NoEcho,
        SomeMisplaced;
      assert PreservedSame(lay, nodes, d) by { SameIsPreserved(lay, d); }
      while rest != {}
        invariant rest <= files.Keys
        invariant r == Placed ==> Overlaid(nodes, d, files - rest) && !Clash(d, files - rest)
        invariant r == Misplaced ==> Clash(d, files) && SomeMisplaced(nodes, d, files)
        invariant r != Raised
        invariant IsTree(nodes) && (lay.NoEcho() ==> PreservedSame(lay, nodes, d))
        decreases |rest|
      {
        var p :| p in rest;
        if r == Placed {
          PlacingDecides(nodes, d, files, rest, p);
        }
        ghost var before := nodes;
        var copied := CopyFile(p, files[p]);
        if copied == Raised {
          return Raised;
        }
        CopyKeepsTree(lay, d, before, nodes, p, files[p], copied);
        if r == Placed && copied == Misplaced {
          MisplacedOverDirectory(before, d, files, rest, p);
        }
        DirectoriesStay(before, nodes, d, p, files, files[p], copied);
        r := if r == Placed then copied else r;
        rest := rest - {p};
      }
      assert files - {} == files;
    }

    method RestoreSoulLink(lay: Layout, order: seq<Path>, ghost archived: Tree, files: Files) returns (r: CopyResult)
      requires lay.Valid() && IsTree(nodes) && ChildrenFirst(order, nodes)
      requires IsTree(archived) && files == Archive(lay, archived)
      modifies this
      ensures r == Placed && Exact(lay, nodes, archived, old(nodes)) <==> RoundTrips(lay, archived, old(nodes))
      ensures r == Placed <==> !Clash(Remaining(lay, old(nodes), old(nodes).Keys), files)
      ensures r == Placed ==> Overlaid(nodes, Remaining(lay, old(nodes), old(nodes).Keys), files)
      ensures r == Misplaced ==> SomeMisplaced(nodes, Remaining(lay, old(nodes), old(nodes).Keys), files)
      ensures IsTree(nodes) && (lay.NoEcho() ==> PreservedSame(lay, nodes, old(nodes)))
    {
      ghost var t := nodes;
      DeleteUnprotected(lay, order);
      ghost var left := nodes;
      ArchiveFilesOnly(lay, archived);
      RemainingIsTree(lay, t);
      RemainingKeepsPreserved(lay, t);
      r := CopyStaged(lay, files);
      PreservedChains(lay, nodes, left, t);
      if r == Placed {
        OverlayExact(lay, archived, t, left, nodes);
      } else {
        ClashMeansNoRoundTrip(lay, archived, t, left);
      }
    }
  }

  /** Where `copy2` puts a file whose target is a directory. */
  function Inside(p: Path): Path
    requires p != []
  {
    p + [p[|p| - 1]]
  }

  /** `r` holds below the preserved roots what `t` does. */
  ghost predicate PreservedSame(lay: Layout, r: Tree, t: Tree) {
    forall p :: lay.Preserves(p) ==> SameAt(r, t, p, p)
  }

  /** A file of the archive went into a directory that stood, and stands, in its place. */
  ghost predicate SomeMisplaced(r: Tree, left: Tree, files: Files) {
    exists p :: p in files && p in left && left[p].Dir? && p in r && r[p].Dir?
  }

  lemma SameIsPreserved(lay: Layout, t: Tree)
    ensures PreservedSame(lay, t, t)
  {
  }

  lemma PreservedChains(lay: Layout, r: Tree, left: Tree, t: Tree)
    requires PreservedSame(lay, left, t)
    ensures PreservedSame(lay, r, left) ==> PreservedSame(lay, r, t)
  {
    if PreservedSame(lay, r, left) {
      forall p | lay.Preserves(p) ensures SameAt(r, t, p, p) {
        assert SameAt(r, left, p, p) && SameAt(left, t, p, p);
      }
    }
  }

  lemma RemainingIsTree(lay: Layout, t: Tree)
    requires lay.Valid() && IsTree(t)
    ensures IsTree(Remaining(lay, t, t.Keys))
  {
    hide Layout.DeleteSkips;
    forall p | p in Remaining(lay, t, t.Keys) && |p| > 1
      ensures p[..|p| - 1] in Remaining(lay, t, t.Keys) && t[p[..|p| - 1]].Dir?
    {
      var up := p[..|p| - 1];
      assert up < p;
      if !lay.DeleteSkips(p) {
        var q :| q in t && p < q && lay.DeleteSkips(q);
        assert up < q;
      }
      assert HasProtectedBelow(lay, t, up);
    }
  }

  lemma RemainingKeepsPreserved(lay: Layout, t: Tree)
    requires lay.Valid()
    ensures PreservedSame(lay, Remaining(lay, t, t.Keys), t)
  {
    forall p | lay.Preserves(p) ensures SameAt(Remaining(lay, t, t.Keys), t, p, p) {
      assert lay.DeleteSkips(p);
    }
  }

  /** One file copied: the tree stays a tree, and nothing below a preserved root changes. */
  lemma CopyKeepsTree(lay: Layout, d: Tree, before: Tree, now: Tree, p: Path, content: string, r: CopyResult)
    requires p != [] && IsTree(before) && !lay.Preserves(p) && r != Raised
    requires lay.NoEcho() ==> PreservedSame(lay, before, d)
    requires CopiedTo(before, now, p, content, r)
    ensures IsTree(now) && (lay.NoEcho() ==> PreservedSame(lay, now, d))
  {
    if r == Placed {
      PlacedIsTree(before, p, content);
    }
    if lay.NoEcho() {
      forall q | lay.Preserves(q) ensures SameAt(now, d, q, q) {
        AboveUnpreserved(lay, p, q);
        assert SameAt(before, d, q, q);
      }
    }
  }

  /** What copying one file did, by its result. */
  ghost predicate CopiedTo(before: Tree, now: Tree, p: Path, content: string, r: CopyResult)
    requires p != []
  {
    match r
    case Placed =>
      && !ParentIsFile(before, p) && !(p in before && before[p].Dir?)
      && now == WithParents(before, p)[p := File(content)]
    case Misplaced =>
      && p in before && before[p].Dir?
      && !(Inside(p) in before && before[Inside(p)].Dir?)
      && now == before[Inside(p) := File(content)]
    case Raised => now == before
  }

  lemma PlacedIsTree(before: Tree, p: Path, content: string)
    requires IsTree(before) && p != [] && !ParentIsFile(before, p) && !(p in before && before[p].Dir?)
    ensures IsTree(WithParents(before, p)[p := File(content)])
  {
    var now := WithParents(before, p)[p := File(content)];
    forall q | q in now && |q| > 1 ensures q[..|q| - 1] in now && now[q[..|q| - 1]].Dir? {
      var up := q[..|q| - 1];
      if q in before && q != p {
        assert up in before && before[up].Dir? && up != p;
      } else {
        assert q <= p && up == p[..|up|];
      }
    }
  }

  lemma AboveUnpreserved(lay: Layout, p: Path, q: Path)
    requires p != [] && !lay.Preserves(p) && lay.Preserves(q)
    ensures q != p && forall i :: 0 <= i <= |p| ==> q != p[..i]
    ensures lay.NoEcho() ==> q != Inside(p)
  {
    var r :| r in lay.preserved && r <= q;
    forall i | 0 <= i <= |p| ensures q != p[..i] {
      assert p[..i] <= p && !(r <= p);
    }
    if q == Inside(p) {
      assert r == Inside(p);
      assert r[|r| - 2] == p[|p| - 1];
    }
  }

  lemma DirectoriesStay(before: Tree, now: Tree, d: Tree, p: Path, files: Files, content: string, r: CopyResult)
    requires p != [] && CopiedTo(before, now, p, content, r)
    ensures SomeMisplaced(before, d, files) ==> SomeMisplaced(now, d, files)
  {
    if SomeMisplaced(before, d, files) {
      var q :| q in files && q in d && d[q].Dir? && q in before && before[q].Dir?;
      assert q in now && now[q].Dir?;
    }
  }

  lemma MisplacedOverDirectory(now: Tree, d: Tree, files: Files, rest: set<Path>, p: Path)
    requires FilesOnly(files) && p in rest && rest <= files.Keys && Overlaid(now, d, files - rest)
    requires p in now && now[p].Dir?
    ensures SomeMisplaced(now, d, files)
  {
    assert OverlaidAt(now, d, files - rest, p);
    forall q | q in files - rest ensures !(p < q) {
      NoFilesBelow(files, rest, p, q);
    }
  }

  lemma NoFilesBelow(files: Files, rest: set<Path>, p: Path, q: Path)
    requires FilesOnly(files) && p in rest && rest <= files.Keys && q in files - rest
    ensures !(p < q)
  {
    assert p <= q ==> p == q;
  }

  ghost function Elements(order: seq<Path>, k: nat): set<Path>
    requires k <= |order|
  {
    set j | 0 <= j < k :: order[j]
  }

  lemma StartRemaining(lay: Layout, t: Tree)
    requires lay.Valid()
    ensures Remaining(lay, t, {}) == t
  {
  }

  lemma AllElements(order: seq<Path>, t: Tree)
    requires ChildrenFirst(order, t)
    ensures Elements(order, |order|) == t.Keys
  {
  }

  /** The tests made for one path when its turn comes decide whether it survives. */
  lemma DeleteStep(lay: Layout, t: Tree, order: seq<Path>, k: nat)
    requires lay.Valid() && IsTree(t) && ChildrenFirst(order, t) && k < |order|
    ensures var now, p := Remaining(lay, t, Elements(order, k)), order[k];
            && p in now
            && Remaining(lay, t, Elements(order, k + 1)) ==
               if lay.DeleteSkips(p) || (now[p].Dir? && !IsEmptyDir(now, p)) then now else now - {p}
  {
    hide Layout.DeleteSkips;
    var p, seen := order[k], Elements(order, k);
    TurnComes(order, t, k);
    EmptyMeansNothingProtected(lay, t, seen, p);
    hide IsEmptyDir, HasProtectedBelow, IsTree, ChildrenFirst, Elements;
    assert Survives(lay, t, p) <==> lay.DeleteSkips(p) || (t[p].Dir? && HasProtectedBelow(lay, t, p));
    RemainingStep(lay, t, seen, p);
  }

  lemma RemainingStep(lay: Layout, t: Tree, seen: set<Path>, p: Path)
    requires lay.Valid() && p in t && p !in seen
    ensures p in Remaining(lay, t, seen) && Remaining(lay, t, seen)[p] == t[p]
    ensures Remaining(lay, t, seen + {p}) ==
            if Survives(lay, t, p) then Remaining(lay, t, seen) else Remaining(lay, t, seen) - {p}
  {
    hide Survives;
  }

  lemma TurnComes(order: seq<Path>, t: Tree, k: nat)
    requires ChildrenFirst(order, t) && k < |order|
    ensures order[k] in t && order[k] !in Elements(order, k)
    ensures Elements(order, k + 1) == Elements(order, k) + {order[k]}
    ensures forall q :: q in t && order[k] < q ==> q in Elements(order, k)
  {
    forall j | 0 <= j < k ensures order[j] != order[k] {
      assert !(order[j] <= order[k]);
    }
    forall q | q in t && order[k] < q ensures q in Elements(order, k) {
      var j :| 0 <= j < |order| && order[j] == q;
    }
  }

  // ----- copying the archive back

  datatype CopyResult = Placed | Misplaced | Raised

  /** The paths are non-empty and none lies below another. */
  ghost predicate FilesOnly(files: Files) {
    (forall p :: p in files ==> p != []) && forall p, q :: p in files && q in files && p <= q ==> p == q
  }

  lemma ArchiveFilesOnly(lay: Layout, s: Tree)
    requires lay.Valid() && IsTree(s)
    ensures FilesOnly(Archive(lay, s))
  {
    forall p, q | p in Archive(lay, s) && q in Archive(lay, s) && p <= q ensures p == q {
      PrefixInTree(s, p, q);
    }
  }

  ghost predicate ClashAt(d: Tree, p: Path) {
    (p in d && d[p].Dir?) || ParentIsFile(d, p)
  }

  /** Some file of the archive finds a directory in its place, or a file in place of a parent. */
  ghost predicate Clash(d: Tree, files: Files) {
    exists p :: p in files && ClashAt(d, p)
  }

  ghost predicate NeededDir(files: Files, p: Path) {
    p != [] && exists q :: q in files && p < q
  }

  /** `r` is `d` with the files laid over it, at path `p`. */
  ghost predicate OverlaidAt(r: Tree, d: Tree, files: Files, p: Path) {
    if p in files then p in r && r[p] == File(files[p])
    else if p in d then SameAt(r, d, p, p)
    else if NeededDir(files, p) then p in r && r[p] == Dir
    else p !in r
  }

  lemma NoFileAbove(files: Files, rest: set<Path>, p: Path, q: Path)
    requires FilesOnly(files) && p in rest && rest <= files.Keys
    requires q <= p || p <= q
    ensures q !in files - rest
  {
  }

  lemma NothingPlaced(d: Tree, files: Files)
    ensures Overlaid(d, d, files - files.Keys) && !Clash(d, files - files.Keys)
  {
  }

  ghost predicate Overlaid(r: Tree, d: Tree, files: Files) {
    forall p :: OverlaidAt(r, d, files, p)
  }

  /** While nothing has clashed, the checks made for the next file tell whether it clashes with `d`. */
  lemma ChecksDecide(now: Tree, d: Tree, files: Files, rest: set<Path>, p: Path)
    requires FilesOnly(files) && p in rest && rest <= files.Keys
    requires Overlaid(now, d, files - rest)
    ensures ClashAt(d, p) <==> ParentIsFile(now, p) || (p in now && now[p].Dir?)
  {
    var done := files - rest;
    assert OverlaidAt(now, d, done, p);
    forall q | q in done ensures !(p < q) {
      if p < q {
        NoFileAbove(files, rest, p, q);
      }
    }
    forall i | 0 < i < |p|
      ensures p[..i] in now && now[p[..i]].File? <==> p[..i] in d && d[p[..i]].File?
    {
      NoFileAbove(files, rest, p, p[..i]);
      assert OverlaidAt(now, d, done, p[..i]);
    }
  }

  lemma PlacingExtends(now: Tree, d: Tree, files: Files, rest: set<Path>, p: Path, q: Path)
    requires p in rest && rest <= files.Keys && p != [] && !ParentIsFile(now, p) && OverlaidAt(now, d, files - rest, q)
    requires p in d ==> q != p || d[p].File?
    ensures OverlaidAt(WithParents(now, p)[p := File(files[p])], d, files - (rest - {p}), q)
  {
    var done, done' := files - rest, files - (rest - {p});
    var now' := WithParents(now, p)[p := File(files[p])];
    assert NeededDir(done', q) <==> NeededDir(done, q) || (q != [] && q < p) by {
      if NeededDir(done', q) {
        var f :| f in done' && q < f;
        assert f == p || f in done;
      }
      if NeededDir(done, q) {
        var f :| f in done && q < f;
        assert f in done';
      }
      assert p in done';
    }
    hide NeededDir;
    if q < p && q != [] {
      assert q == p[..|q|];
    }
  }

  /** Checking and placing one file: a clash is noticed, and without one the overlay grows. */
  lemma PlacingDecides(now: Tree, d: Tree, files: Files, rest: set<Path>, p: Path)
    requires FilesOnly(files) && p in rest && rest <= files.Keys
    requires Overlaid(now, d, files - rest)
    requires !Clash(d, files - rest)
    ensures ClashAt(d, p) <==> ParentIsFile(now, p) || (p in now && now[p].Dir?)
    ensures ClashAt(d, p) ==> Clash(d, files)
    ensures !ClashAt(d, p) ==> !Clash(d, files - (rest - {p}))
    ensures !ClashAt(d, p) ==>
              Overlaid(WithParents(now, p)[p := File(files[p])], d, files - (rest - {p}))
  {
    ChecksDecide(now, d, files, rest, p);
    if !ClashAt(d, p) {
      var now' := WithParents(now, p)[p := File(files[p])];
      forall q ensures OverlaidAt(now', d, files - (rest - {p}), q) {
        PlacingExtends(now, d, files, rest, p, q);
      }
      assert forall q :: q in files - (rest - {p}) ==> q == p || q in files - rest;
    }
  }

  // ----- when the round trip is exact

  /** The current tree inside the protected paths, the archived tree everywhere else. */
  ghost predicate Exact(lay: Layout, r: Tree, s: Tree, t: Tree)
    requires lay.Valid()
  {
    forall p :: if lay.DeleteSkips(p) then SameAt(r, t, p, p) else SameAt(r, s, p, p)
  }

  /** Archives keep no directories of their own, so each one must be called for by an archived file or by
      something protected in the current tree (1); what lies above a protected path must have been a directory
      when archived (2); and a protected path above an archived file must be a directory now (3). */
  ghost predicate RoundTrips(lay: Layout, s: Tree, t: Tree)
    requires lay.Valid()
  {
    && (forall p :: p in s && s[p].Dir? && !lay.DeleteSkips(p) ==>
          NeededDir(Archive(lay, s), p) || HasProtectedBelow(lay, t, p))
    && (forall p :: p != [] && !lay.DeleteSkips(p) && HasProtectedBelow(lay, t, p) ==> p in s && s[p].Dir?)
    && (forall p :: lay.DeleteSkips(p) && NeededDir(Archive(lay, s), p) ==> p in t && t[p].Dir?)
  }

  lemma ArchiveHolds(lay: Layout, s: Tree, p: Path)
    requires lay.Valid() && IsTree(s)
    ensures p in Archive(lay, s) <==> p in s && s[p].File? && !lay.DeleteSkips(p)
    ensures p in Archive(lay, s) ==> s[p] == File(Archive(lay, s)[p])
    ensures NeededDir(Archive(lay, s), p) ==> p in s && s[p].Dir?
  {
    SkipsCoincide(lay, p);
    hide Layout.DeleteSkips, Layout.ArchiveSkips;
    if NeededDir(Archive(lay, s), p) {
      var f :| f in Archive(lay, s) && p < f;
      PrefixInTree(s, p, f);
    }
  }

  lemma LeftHolds(lay: Layout, t: Tree, left: Tree, p: Path)
    requires lay.Valid() && IsTree(t) && left == Remaining(lay, t, t.Keys)
    ensures lay.DeleteSkips(p) ==> SameAt(left, t, p, p)
    ensures !lay.DeleteSkips(p) ==> (p in left <==> p != [] && HasProtectedBelow(lay, t, p))
    ensures !lay.DeleteSkips(p) && p in left ==> left[p] == Dir
  {
    hide Layout.DeleteSkips;
    if p != [] && HasProtectedBelow(lay, t, p) {
      var q :| q in t && p < q && lay.DeleteSkips(q);
      PrefixInTree(t, p, q);
    }
  }

  lemma OverlayExactAt(lay: Layout, s: Tree, t: Tree, left: Tree, r: Tree, p: Path)
    requires lay.Valid() && IsTree(s) && IsTree(t) && left == Remaining(lay, t, t.Keys)
    requires OverlaidAt(r, left, Archive(lay, s), p) && (p in Archive(lay, s) ==> !ClashAt(left, p))
    ensures lay.DeleteSkips(p) ==>
              (SameAt(r, t, p, p) <==> (NeededDir(Archive(lay, s), p) ==> p in t))
    ensures !lay.DeleteSkips(p) ==>
              (SameAt(r, s, p, p) <==>
                && (p in s && s[p].Dir? ==> NeededDir(Archive(lay, s), p) || HasProtectedBelow(lay, t, p))
                && (p != [] && HasProtectedBelow(lay, t, p) ==> p in s && s[p].Dir?))
  {
    ArchiveHolds(lay, s, p);
    LeftHolds(lay, t, left, p);
    hide Layout.DeleteSkips, Archive, Remaining, NeededDir, HasProtectedBelow, IsTree, ClashAt;
    assert p in Archive(lay, s) ==> p != [];
  }

  /** Without a clash, the overlay is exact exactly under the round-trip condition. */
  lemma OverlayExact(lay: Layout, s: Tree, t: Tree, left: Tree, r: Tree)
    requires lay.Valid() && IsTree(s) && IsTree(t) && left == Remaining(lay, t, t.Keys)
    requires !Clash(left, Archive(lay, s)) && Overlaid(r, left, Archive(lay, s))
    ensures Exact(lay, r, s, t) <==> RoundTrips(lay, s, t)
  {
    forall p
      ensures lay.DeleteSkips(p) ==>
                (SameAt(r, t, p, p) <==> (NeededDir(Archive(lay, s), p) ==> p in t && t[p].Dir?))
      ensures !lay.DeleteSkips(p) ==>
                (SameAt(r, s, p, p) <==>
                  && (p in s && s[p].Dir? ==> NeededDir(Archive(lay, s), p) || HasProtectedBelow(lay, t, p))
                  && (p != [] && HasProtectedBelow(lay, t, p) ==> p in s && s[p].Dir?))
    {
      OverlayExactAt(lay, s, t, left, r, p);
      if lay.DeleteSkips(p) && p in t && NeededDir(Archive(lay, s), p) {
        NeededMeansNotAFile(lay, s, t, left, p);
      }
    }
    hide Layout.DeleteSkips, Archive, Remaining, NeededDir, HasProtectedBelow, IsTree, OverlaidAt, Clash, SameAt;
  }

  lemma NeededMeansNotAFile(lay: Layout, s: Tree, t: Tree, left: Tree, p: Path)
    requires lay.Valid() && IsTree(t) && left == Remaining(lay, t, t.Keys) && !Clash(left, Archive(lay, s))
    requires lay.DeleteSkips(p) && p in t && NeededDir(Archive(lay, s), p)
    ensures t[p].Dir?
  {
    LeftHolds(lay, t, left, p);
    hide Layout.DeleteSkips, Archive, Remaining;
    var f :| f in Archive(lay, s) && p < f;
    assert !ClashAt(left, f) && f[..|p|] == p;
  }

  lemma ClashMeansNoRoundTrip(lay: Layout, s: Tree, t: Tree, left: Tree)
    requires lay.Valid() && IsTree(s) && IsTree(t) && left == Remaining(lay, t, t.Keys)
    requires Clash(left, Archive(lay, s))
    ensures !RoundTrips(lay, s, t)
  {
    var p :| p in Archive(lay, s) && ClashAt(left, p);
    ArchiveHolds(lay, s, p);
    LeftHolds(lay, t, left, p);
    hide Layout.DeleteSkips;
    if ParentIsFile(left, p) {
      var i :| 0 < i < |p| && p[..i] in left && left[p[..i]].File?;
      LeftHolds(lay, t, left, p[..i]);
      assert p[..i] < p;
      assert NeededDir(Archive(lay, s), p[..i]);
    }
  }

  /** The condition is not idle: a tree that is one empty directory does not even survive a restore onto itself. */
  lemma EmptyDirectoryIsLost(lay: Layout, name: string)
    requires lay.Valid() && !lay.DeleteSkips([name])
    ensures !RoundTrips(lay, map[[name] := Dir], map[[name] := Dir])
  {
    var s: Tree := map[[name] := Dir];
    hide Layout.DeleteSkips, Layout.ArchiveSkips;
    assert s[[name]].Dir?;
    assert !NeededDir(Archive(lay, s), [name]);
    assert forall q :: q in s ==> q == [name];
    assert !HasProtectedBelow(lay, s, [name]);
  }
}
