/** The failure path of a host deployment: record what the failed mutation created, validate the backup, put the
    managed paths back from it, delete what was created.

    The home directory is one tree; the backup is a directory of it. `Expected` is the tree the restore leaves
    outside the backup, whatever the mutation did to the managed subtrees and to the backup itself. It is the
    baseline exactly when the backup still holds the baseline's managed subtrees. */
module HostDeploy {
  import opened Wrappers
  import opened FileTree

  datatype Entry = Entry(path: Path, existed: bool)

  /** The setting of one deployment: the backup directory and the managed paths, as the class fixes them. */
  datatype Layout = Layout(backup: Path, managed: seq<Path>) {
    ghost predicate Valid() {
      && |backup| == 1
      && (forall i :: 0 <= i < |managed| ==> managed[i] != [] && !Under(backup, managed[i]))
      && (forall i, j :: 0 <= i < |managed| && 0 <= j < |managed| && i != j ==> !(managed[i] <= managed[j]))
    }

    predicate IsManaged(p: Path) {
      exists i :: 0 <= i < |managed| && Under(managed[i], p)
    }

    predicate InBackup(p: Path) {
      Under(backup, p)
    }
  }

  // ----- recording what a failed mutation created

  predicate Created(lay: Layout, baseline: set<Path>, t: Tree, p: Path) {
    p in t && p !in baseline && !lay.InBackup(p) && !lay.IsManaged(p)
  }

  /** The topmost created paths. */
  ghost predicate Topmost(lay: Layout, baseline: set<Path>, t: Tree, p: Path) {
    Created(lay, baseline, t, p) && forall q :: q <= p && Created(lay, baseline, t, q) ==> q == p
  }

  lemma {:induction false} TopmostAbove(lay: Layout, baseline: set<Path>, t: Tree, p: Path) returns (q: Path)
    requires Created(lay, baseline, t, p)
    ensures q <= p && Topmost(lay, baseline, t, q)
    decreases |p|
  {
    if Topmost(lay, baseline, t, p) {
      q := p;
    } else {
      var r :| r <= p && Created(lay, baseline, t, r) && r != p;
      q := TopmostAbove(lay, baseline, t, r);
    }
  }

  class Marker {
    var entries: seq<Entry>

    constructor (entries: seq<Entry>)
      ensures this.entries == entries
    {
      this.entries := entries;
    }
  }

  class HomeTree {
    var nodes: Tree

    constructor (nodes: Tree)
      ensures this.nodes == nodes
    {
      this.nodes := nodes;
    }

    method Delete(root: Path)
      modifies this
      ensures nodes == Without(old(nodes), root)
    {
      nodes := map p | p in nodes && !Under(root, p) :: nodes[p];
    }
  }

  /** `recorded` holds the topmost created paths among the first `k`. */
  ghost predicate RecordedUpTo(lay: Layout, baseline: set<Path>, t: Tree, order: seq<Path>, k: nat, recorded: seq<Path>)
    requires k <= |order|
  {
    && (forall i :: 0 <= i < |recorded| ==> Topmost(lay, baseline, t, recorded[i]) && recorded[i] in order[..k])
    && (forall j :: 0 <= j < k && Topmost(lay, baseline, t, order[j]) ==> order[j] in recorded)
  }

  predicate SomeAbove(recorded: seq<Path>, p: Path) {
    exists i :: 0 <= i < |recorded| && recorded[i] <= p
  }

  /** In depth order, a created path is topmost exactly when nothing recorded so far lies above it. */
  lemma RecordedDecides(lay: Layout, baseline: set<Path>, t: Tree, order: seq<Path>, k: nat, recorded: seq<Path>)
    requires k < |order| && ByDepth(order, t.Keys) && RecordedUpTo(lay, baseline, t, order, k, recorded)
    ensures Topmost(lay, baseline, t, order[k]) <==>
              Created(lay, baseline, t, order[k]) && !SomeAbove(recorded, order[k])
  {
    var p := order[k];
    if Created(lay, baseline, t, p) && !Topmost(lay, baseline, t, p) {
      var q := TopmostAbove(lay, baseline, t, p);
      var j :| 0 <= j < |order| && order[j] == q;
      assert j < k && q in recorded;
    }
    if Topmost(lay, baseline, t, p) {
      forall i | 0 <= i < |recorded| ensures !(recorded[i] <= p) {
        var j :| 0 <= j < k && order[..k][j] == recorded[i];
        assert order[j] != order[k];
      }
    }
  }

  lemma RecordStep(lay: Layout, baseline: set<Path>, t: Tree, order: seq<Path>, k: nat, recorded: seq<Path>)
    requires k < |order| && ByDepth(order, t.Keys) && RecordedUpTo(lay, baseline, t, order, k, recorded)
    ensures RecordedUpTo(lay, baseline, t, order, k + 1,
                         if Created(lay, baseline, t, order[k]) && !SomeAbove(recorded, order[k])
                         then recorded + [order[k]] else recorded)
  {
    RecordedDecides(lay, baseline, t, order, k, recorded);
    hide Topmost, Created, SomeAbove, ByDepth;
    OneMore(order, k);
    if Topmost(lay, baseline, t, order[k]) {
      RecordedGrows(lay, baseline, t, order, k, recorded);
    }
  }

  lemma OneMore(order: seq<Path>, k: nat)
    requires k < |order|
    ensures forall p :: p in order[..k + 1] <==> p in order[..k] || p == order[k]
  {
    assert order[..k + 1] == order[..k] + [order[k]];
  }

  lemma RecordedGrows(lay: Layout, baseline: set<Path>, t: Tree, order: seq<Path>, k: nat, recorded: seq<Path>)
    requires k < |order| && RecordedUpTo(lay, baseline, t, order, k, recorded) && Topmost(lay, baseline, t, order[k])
    ensures RecordedUpTo(lay, baseline, t, order, k + 1, recorded + [order[k]])
  {
    hide Topmost;
    OneMore(order, k);
    var more := recorded + [order[k]];
    assert more[|recorded|] == order[k];
    forall p | p in recorded ensures p in more {
    }
  }

  lemma AllRecorded(lay: Layout, baseline: set<Path>, t: Tree, order: seq<Path>, recorded: seq<Path>)
    requires ByDepth(order, t.Keys) && RecordedUpTo(lay, baseline, t, order, |order|, recorded)
    ensures forall p :: p in recorded <==> Topmost(lay, baseline, t, p)
  {
    forall p | Topmost(lay, baseline, t, p) ensures p in recorded {
      var j :| 0 <= j < |order| && order[j] == p;
    }
  }

  function DidNotExist(paths: seq<Path>): (entries: seq<Entry>)
    ensures |entries| == |paths| && forall i :: 0 <= i < |paths| ==> entries[i] == Entry(paths[i], false)
  {
    seq(|paths|, i requires 0 <= i < |paths| => Entry(paths[i], false))
  }

  lemma DidNotExistGrows(entries: seq<Entry>, recorded: seq<Path>, p: Path)
    ensures entries + DidNotExist(recorded + [p]) == entries + DidNotExist(recorded) + [Entry(p, false)]
  {
  }

  lemma NothingRecorded(lay: Layout, baseline: set<Path>, t: Tree, order: seq<Path>, entries: seq<Entry>)
    ensures RecordedUpTo(lay, baseline, t, order, 0, []) && entries + DidNotExist([]) == entries
    ensures AddedOf(entries, [], [])
  {
  }

  /** `marker["entries"][path] = existed`: a key that is there keeps its place. */
  function Assigned(entries: seq<Entry>, e: Entry): seq<Entry> {
    if entries == [] then [e]
    else if entries[0].path == e.path then [e] + entries[1..]
    else [entries[0]] + Assigned(entries[1..], e)
  }

  lemma {:induction false} AssignedIs(entries: seq<Entry>, e: Entry)
    requires forall k :: 0 <= k < |entries| && entries[k].path == e.path ==> entries[k] == e
    ensures Assigned(entries, e) == if HasEntry(entries, e.path) then entries else entries + [e]
  {
    if entries != [] && entries[0].path != e.path {
      AssignedIs(entries[1..], e);
      if HasEntry(entries, e.path) {
        var k :| 0 <= k < |entries| && entries[k].path == e.path;
        assert entries[1..][k - 1].path == e.path;
      }
      assert entries == [entries[0]] + entries[1..];
    }
  }

  predicate HasEntry(entries: seq<Entry>, p: Path) {
    exists k :: 0 <= k < |entries| && entries[k].path == p
  }

  /** The marker says of no created path that it existed. */
  ghost predicate NoneExisted(lay: Layout, baseline: set<Path>, t: Tree, entries: seq<Entry>) {
    forall k :: 0 <= k < |entries| && Created(lay, baseline, t, entries[k].path) ==> !entries[k].existed
  }

  /** `added` are those of the recorded paths that the marker did not have. */
  ghost predicate AddedOf(entries: seq<Entry>, recorded: seq<Path>, added: seq<Path>) {
    forall p :: p in added <==> p in recorded && !HasEntry(entries, p)
  }

  lemma RecordEntry(taken: seq<Entry>, recorded: seq<Path>, added: seq<Path>, p: Path)
    requires AddedOf(taken, recorded, added) && p !in recorded
    requires forall k :: 0 <= k < |taken| && taken[k].path == p ==> !taken[k].existed
    ensures if HasEntry(taken, p) then
              && Assigned(taken + DidNotExist(added), Entry(p, false)) == taken + DidNotExist(added)
              && AddedOf(taken, recorded + [p], added)
            else
              && Assigned(taken + DidNotExist(added), Entry(p, false)) == taken + DidNotExist(added + [p])
              && AddedOf(taken, recorded + [p], added + [p])
  {
    var entries := taken + DidNotExist(added);
    forall i | 0 <= i < |added| ensures added[i] != p {
      assert added[i] in added;
    }
    AssignedIs(entries, Entry(p, false));
    if HasEntry(taken, p) {
      var k :| 0 <= k < |taken| && taken[k].path == p;
      assert entries[k].path == p;
    }
    DidNotExistGrows(taken, added, p);
  }

  /** Assigns "did not exist" to each topmost created path, and nothing else. Paths recorded before stay so. */
  method RecordCreatedPaths(lay: Layout, home: HomeTree, baseline: set<Path>, marker: Marker)
    returns (recorded: seq<Path>, ghost added: seq<Path>)
    requires NoneExisted(lay, baseline, home.nodes, marker.entries)
    modifies marker
    ensures marker.entries == old(marker.entries) + DidNotExist(added)
    ensures AddedOf(old(marker.entries), recorded, added)
    ensures forall p :: p in recorded <==> Topmost(lay, baseline, home.nodes, p)
  {
    ghost var taken := marker.entries;
    hide RecordedUpTo, SomeAbove, DidNotExist, ByDepth, Topmost, Assigned, AddedOf, HasEntry;
    recorded, added := [], [];
    var order := SortedByDepth(home.nodes.Keys);
    NothingRecorded(lay, baseline, home.nodes, order, marker.entries);
    for k := 0 to |order|
      invariant marker.entries == taken + DidNotExist(added)
      invariant AddedOf(taken, recorded, added)
      invariant RecordedUpTo(lay, baseline, home.nodes, order, k, recorded)
    {
      var p := order[k];
      RecordStep(lay, baseline, home.nodes, order, k, recorded);
      if Created(lay, baseline, home.nodes, p) && !SomeAbove(recorded, p) {
        NotRecordedYet(recorded, p);
        RecordEntry(taken, recorded, added, p);
        marker.entries := Assigned(marker.entries, Entry(p, false));
        recorded := recorded + [p];
        if !HasEntry(taken, p) {
          added := added + [p];
        }
      }
    }
    AllRecorded(lay, baseline, home.nodes, order, recorded);
  }

  lemma NotRecordedYet(recorded: seq<Path>, p: Path)
    requires !SomeAbove(recorded, p)
    ensures p !in recorded
  {
  }

  // ----- putting things back

  /** One entry of the marker: clear the target; if it existed, copy its saved subtree back. `None` is an error. */
  function RestoreEntry(lay: Layout, t: Tree, e: Entry): Option<Tree> {
    var cleared := Without(t, e.path);
    if !e.existed then Some(cleared)
    else if lay.backup + e.path !in cleared || ParentIsFile(cleared, e.path) then None
    else Some(WithParents(cleared, e.path) + Graft(cleared, lay.backup + e.path, e.path))
  }

  function RestoreEntries(lay: Layout, t: Tree, entries: seq<Entry>): Option<Tree> {
    if entries == [] then Some(t)
    else
      var before := RestoreEntries(lay, t, entries[..|entries| - 1]);
      if before.None? then None else RestoreEntry(lay, before.value, entries[|entries| - 1])
  }

  function KeepRoots(t: Tree, keep: set<string>): Tree {
    map p | p in t && p != [] && p[0] in keep :: t[p]
  }

  lemma {:induction false} RestoreStopsAtError(lay: Layout, t: Tree, entries: seq<Entry>, n: nat)
    requires n <= |entries| && RestoreEntries(lay, t, entries[..n]).None?
    ensures RestoreEntries(lay, t, entries).None?
    decreases |entries|
  {
    if n < |entries| {
      assert entries[..|entries| - 1][..n] == entries[..n];
      RestoreStopsAtError(lay, t, entries[..|entries| - 1], n);
    } else {
      assert entries[..n] == entries;
    }
  }

  method DeleteNewRoots(home: HomeTree, keep: set<string>)
    requires IsTree(home.nodes)
    modifies home
    ensures home.nodes == KeepRoots(old(home.nodes), keep)
  {
    var start := home.nodes;
    var roots := set p | p in start && |p| == 1 :: p[0];
    forall p | p in start ensures p[0] in roots {
      PrefixInTree(start, p[..1], p);
      assert p[..1][0] == p[0];
    }
    while roots != {}
      invariant home.nodes == map p | p in start && p != [] && (p[0] in keep || p[0] in roots) :: start[p]
      decreases |roots|
    {
      var name :| name in roots;
      if name !in keep {
        home.Delete([name]);
      }
      roots := roots - {name};
    }
  }

  method Restore(lay: Layout, home: HomeTree, keep: set<string>, entries: seq<Entry>) returns (ok: bool)
    requires IsTree(home.nodes)
    modifies home
    ensures ok <==> RestoreEntries(lay, old(KeepRoots(home.nodes, keep)), entries).Some?
    ensures ok ==> home.nodes == RestoreEntries(lay, old(KeepRoots(home.nodes, keep)), entries).value
  {
    DeleteNewRoots(home, keep);
    ghost var start := home.nodes;
    hide KeepRoots, Without, WithParents, Graft, ParentIsFile, IsTree;
    for i := 0 to |entries|
      invariant RestoreEntries(lay, start, entries[..i]) == Some(home.nodes)
    {
      var e := entries[i];
      assert entries[..i + 1][..i] == entries[..i];
      home.Delete(e.path);
      if e.existed {
        if lay.backup + e.path !in home.nodes || ParentIsFile(home.nodes, e.path) {
          RestoreStopsAtError(lay, start, entries, i + 1);
          return false;
        }
        home.nodes := WithParents(home.nodes, e.path) + Graft(home.nodes, lay.backup + e.path, e.path);
      }
    }
    assert entries[..|entries|] == entries;
    ok := true;
  }

  // ----- what the restore leaves

  /** Mutations may do anything to managed subtrees and to the backup; elsewhere they only create. */
  ghost predicate OnlyCreatesElsewhere(lay: Layout, baseline: Tree, t: Tree) {
    forall p :: p in baseline && !lay.IsManaged(p) ==> p in t && t[p] == baseline[p]
  }

  /** The managed path above `p` existed in the baseline. */
  ghost predicate Restorable(lay: Layout, baseline: Tree, p: Path) {
    exists i :: 0 <= i < |lay.managed| && lay.managed[i] in baseline && lay.managed[i] <= p
  }

  /** `t` holds at `p` what it should: the saved copy below a managed path that existed, nothing below one that
      did not, and the baseline elsewhere. */
  ghost predicate ExpectedAt(lay: Layout, baseline: Tree, saved: Tree, t: Tree, p: Path) {
    if Restorable(lay, baseline, p) then SameAt(t, saved, p, lay.backup + p)
    else if lay.IsManaged(p) then p !in t
    else SameAt(t, baseline, p, p)
  }

  /** What holds after the entries in `done` have been restored. */
  ghost predicate Settled(lay: Layout, baseline: Tree, saved: Tree, t: Tree, done: seq<Entry>) {
    && (forall p :: lay.InBackup(p) ==> SameAt(t, saved, p, p))
    && (forall p :: !lay.InBackup(p) && !lay.IsManaged(p) && p in baseline ==> SameAt(t, baseline, p, p))
    && (forall p :: !lay.InBackup(p) && !lay.IsManaged(p) && p in t && p !in baseline ==> p in saved)
    && (forall p, i :: 0 <= i < |done| && done[i].path <= p && !lay.InBackup(p) ==>
        ExpectedAt(lay, baseline, saved, t, p))
  }

  ghost predicate EntryFits(lay: Layout, baseline: Tree, e: Entry) {
    && e.path != [] && !lay.InBackup(e.path)
    && if e.path in lay.managed then e.existed <==> e.path in baseline
       else !e.existed && e.path !in baseline && !lay.IsManaged(e.path)
  }

  /** Distinct managed paths never share a descendant. */
  lemma ManagedUnique(lay: Layout, i: nat, m: Path, p: Path)
    requires lay.Valid() && i < |lay.managed| && m in lay.managed && lay.managed[i] <= p && m <= p
    ensures lay.managed[i] == m
  {
    PrefixesComparable(lay.managed[i], m, p);
  }

  lemma BackupApart(lay: Layout, e: Path, p: Path)
    requires lay.Valid() && e != [] && !lay.InBackup(e) && e <= p
    ensures !lay.InBackup(p)
  {
    if lay.InBackup(p) {
      PrefixesComparable(lay.backup, e, p);
    }
  }

  /** The parents of a managed path that existed are still in place: no directory has to be made for it. */
  lemma ParentsStand(lay: Layout, baseline: Tree, saved: Tree, t: Tree, done: seq<Entry>, m: Path)
    requires lay.Valid() && IsTree(baseline) && Settled(lay, baseline, saved, t, done)
    requires m in lay.managed && m in baseline
    ensures !ParentIsFile(Without(t, m), m) && WithParents(Without(t, m), m) == Without(t, m)
  {
    forall i | 0 < i < |m| ensures m[..i] in Without(t, m) && Without(t, m)[m[..i]].Dir? {
      var q := m[..i];
      PrefixInTree(baseline, q, m);
      assert !lay.IsManaged(q) && !lay.InBackup(q);
      assert SameAt(t, baseline, q, q);
    }
  }

  /** Below a path that was not in the baseline and is not managed, nothing is expected. */
  lemma NothingExpectedBelow(lay: Layout, baseline: Tree, saved: Tree, e: Entry, p: Path, t: Tree)
    requires lay.Valid() && IsTree(baseline) && EntryFits(lay, baseline, e) && !e.existed
    requires e.path <= p && p !in t
    ensures ExpectedAt(lay, baseline, saved, t, p)
    ensures e.path in lay.managed ==> lay.IsManaged(p)
    ensures e.path !in lay.managed ==> p !in baseline
  {
    forall i | 0 <= i < |lay.managed| && lay.managed[i] <= p ensures lay.managed[i] !in baseline {
      PrefixesComparable(lay.managed[i], e.path, p);
      if e.path in lay.managed {
        ManagedUnique(lay, i, e.path, p);
      } else if lay.managed[i] in baseline && e.path <= lay.managed[i] {
        PrefixInTree(baseline, e.path, lay.managed[i]);
      }
    }
    if e.path !in lay.managed && p in baseline {
      PrefixInTree(baseline, e.path, p);
    }
    if e.path in lay.managed {
      var i :| 0 <= i < |lay.managed| && lay.managed[i] == e.path;
      assert lay.managed[i] <= p;
    }
  }

  lemma DeleteSettles(lay: Layout, baseline: Tree, saved: Tree, t: Tree, done: seq<Entry>, e: Entry)
    requires lay.Valid() && IsTree(baseline) && Settled(lay, baseline, saved, t, done)
    requires EntryFits(lay, baseline, e) && !e.existed
    ensures Settled(lay, baseline, saved, Without(t, e.path), done + [e])
  {
    var t' := Without(t, e.path);
    forall p | e.path <= p
      ensures !lay.InBackup(p) && ExpectedAt(lay, baseline, saved, t', p)
      ensures !lay.IsManaged(p) ==> p !in baseline
    {
      BackupApart(lay, e.path, p);
      NothingExpectedBelow(lay, baseline, saved, e, p, t');
    }
    KeepsElsewhere(lay, baseline, saved, t, t', done, e);
  }

  lemma GraftSettles(lay: Layout, baseline: Tree, saved: Tree, t: Tree, done: seq<Entry>, e: Entry)
    requires lay.Valid() && IsTree(baseline) && Settled(lay, baseline, saved, t, done)
    requires EntryFits(lay, baseline, e) && e.existed
    ensures Settled(lay, baseline, saved, Without(t, e.path) + Graft(Without(t, e.path), lay.backup + e.path, e.path),
                    done + [e])
  {
    var cleared := Without(t, e.path);
    var t' := cleared + Graft(cleared, lay.backup + e.path, e.path);
    var i :| 0 <= i < |lay.managed| && lay.managed[i] == e.path;
    forall p | e.path <= p
      ensures !lay.InBackup(p) && lay.IsManaged(p) && ExpectedAt(lay, baseline, saved, t', p)
    {
      assert lay.managed[i] <= p;
      BackupApart(lay, e.path, p);
      GraftReadsBackup(lay, saved, t, e.path, p);
    }
    hide ExpectedAt, Without, Graft;
    assert forall p :: !(e.path <= p) ==> SameAt(t', t, p, p) by {
      ClearAndGraftOutside(t, e.path, lay.backup + e.path);
    }
    KeepsElsewhere(lay, baseline, saved, t, t', done, e);
  }

  lemma ClearAndGraftOutside(t: Tree, root: Path, from: Path)
    ensures forall p :: !(root <= p) ==> SameAt(Without(t, root) + Graft(Without(t, root), from, root), t, p, p)
  {
  }

  lemma GraftReadsBackup(lay: Layout, saved: Tree, t: Tree, m: Path, p: Path)
    requires lay.Valid() && m != [] && !lay.InBackup(m) && m <= p
    requires forall q :: lay.InBackup(q) ==> SameAt(t, saved, q, q)
    ensures SameAt(Without(t, m) + Graft(Without(t, m), lay.backup + m, m), saved, p, lay.backup + p)
  {
    var source := lay.backup + p;
    assert lay.backup + m + p[|m|..] == source;
    assert lay.InBackup(source) && SameAt(t, saved, source, source);
    if m <= source {
      BackupApart(lay, m, source);
    }
  }

  /** A step that only touches what lies below its entry keeps everything else settled. */
  lemma KeepsElsewhere(lay: Layout, baseline: Tree, saved: Tree, t: Tree, t': Tree, done: seq<Entry>, e: Entry)
    requires lay.Valid() && Settled(lay, baseline, saved, t, done) && EntryFits(lay, baseline, e)
    requires forall p :: !(e.path <= p) ==> SameAt(t', t, p, p)
    requires forall p :: e.path <= p ==> !lay.InBackup(p) && ExpectedAt(lay, baseline, saved, t', p)
    requires forall p :: e.path <= p && !lay.IsManaged(p) ==> p !in baseline
    ensures Settled(lay, baseline, saved, t', done + [e])
  {
    forall p | !(e.path <= p) ensures SameAt(t', t, p, p) {
    }
    forall p | lay.InBackup(p) ensures SameAt(t', saved, p, p) {
      assert SameAt(t', t, p, p) && SameAt(t, saved, p, p);
    }
    forall p | !lay.InBackup(p) && !lay.IsManaged(p) && p in baseline ensures SameAt(t', baseline, p, p) {
      assert SameAt(t', t, p, p) && SameAt(t, baseline, p, p);
    }
    forall p | !lay.InBackup(p) && !lay.IsManaged(p) && p in t' && p !in baseline ensures p in saved {
      assert !(e.path <= p) ==> SameAt(t', t, p, p);
    }
    forall p, i | 0 <= i < |done + [e]| && (done + [e])[i].path <= p && !lay.InBackup(p)
      ensures ExpectedAt(lay, baseline, saved, t', p)
    {
      if !(e.path <= p) {
        assert done[i].path <= p;
        assert ExpectedAt(lay, baseline, saved, t, p) && SameAt(t', t, p, p);
      }
    }
  }

  lemma RestoreEntrySettles(lay: Layout, baseline: Tree, saved: Tree, t: Tree, done: seq<Entry>, e: Entry)
    requires lay.Valid() && IsTree(baseline) && Settled(lay, baseline, saved, t, done) && EntryFits(lay, baseline, e)
    ensures RestoreEntry(lay, t, e).Some? <==> (e.existed ==> lay.backup + e.path in saved)
    ensures RestoreEntry(lay, t, e).Some? ==> Settled(lay, baseline, saved, RestoreEntry(lay, t, e).value, done + [e])
  {
    if e.existed {
      ParentsStand(lay, baseline, saved, t, done, e.path);
      GraftSettles(lay, baseline, saved, t, done, e);
      var source := lay.backup + e.path;
      assert lay.InBackup(source) && SameAt(t, saved, source, source);
      assert !(e.path <= source) by {
        if e.path <= source {
          BackupApart(lay, e.path, source);
        }
      }
    } else {
      DeleteSettles(lay, baseline, saved, t, done, e);
    }
  }

  lemma {:induction false} RestoreEntriesSettle(lay: Layout, baseline: Tree, saved: Tree, t: Tree, entries: seq<Entry>)
    requires lay.Valid() && IsTree(baseline) && Settled(lay, baseline, saved, t, [])
    requires forall i :: 0 <= i < |entries| ==> EntryFits(lay, baseline, entries[i])
    requires forall i :: 0 <= i < |entries| && entries[i].existed ==> lay.backup + entries[i].path in saved
    ensures RestoreEntries(lay, t, entries).Some?
    ensures Settled(lay, baseline, saved, RestoreEntries(lay, t, entries).value, entries)
    decreases |entries|
  {
    hide Settled, EntryFits, IsTree;
    if entries != [] {
      var n := |entries| - 1;
      RestoreEntriesSettle(lay, baseline, saved, t, entries[..n]);
      RestoreEntrySettles(lay, baseline, saved, RestoreEntries(lay, t, entries[..n]).value, entries[..n], entries[n]);
      assert entries[..n] + [entries[n]] == entries;
    }
  }

  /** Once the managed paths and the topmost created paths have been dealt with, every path is as expected. */
  lemma EverythingExpected(lay: Layout, baseline: Tree, saved: Tree, t: Tree, done: seq<Entry>, p: Path)
    requires Settled(lay, baseline, saved, t, done) && !lay.InBackup(p)
    requires forall i :: 0 <= i < |lay.managed| ==> HasEntry(done, lay.managed[i])
    requires forall q :: Topmost(lay, baseline.Keys, saved, q) ==> HasEntry(done, q)
    ensures ExpectedAt(lay, baseline, saved, t, p)
  {
    if lay.IsManaged(p) {
      var i :| 0 <= i < |lay.managed| && lay.managed[i] <= p;
    } else if p in baseline {
      assert SameAt(t, baseline, p, p);
    } else if p in t {
      var q := TopmostAbove(lay, baseline.Keys, saved, p);
      var k :| 0 <= k < |done| && done[k].path == q;
      assert done[k].path <= p;
    }
  }

  // ----- the failure path of a deployment

  function ManagedEntries(lay: Layout, baseline: Tree, n: nat): seq<Entry>
    requires n <= |lay.managed|
  {
    seq(n, i requires 0 <= i < n => Entry(lay.managed[i], lay.managed[i] in baseline))
  }

  predicate EntryValidates(lay: Layout, t: Tree, e: Entry, fingerprints: map<Path, string>, fp: Tree -> string) {
    e.existed ==>
      && lay.backup + e.path in t
      && e.path in fingerprints
      && fingerprints[e.path] == fp(Graft(t, lay.backup + e.path, []))
  }

  /** Every managed path has an entry, and every entry that existed has a saved copy with the recorded fingerprint. */
  predicate BackupValidates(lay: Layout, t: Tree, entries: seq<Entry>, fingerprints: map<Path, string>,
                            fp: Tree -> string) {
    && (forall i :: 0 <= i < |lay.managed| ==> HasEntry(entries, lay.managed[i]))
    && (forall k :: 0 <= k < |entries| ==> EntryValidates(lay, t, entries[k], fingerprints, fp))
  }

  ghost predicate FromSnapshot(lay: Layout, baseline: Tree, keep: set<string>, entries: seq<Entry>, t: Tree) {
    && lay.Valid() && IsTree(baseline) && lay.backup !in baseline && IsTree(t)
    && keep == (set p | p in baseline && p != [] :: p[0]) + {lay.backup[0]}
    && (exists n, earlier ::
          0 <= n <= |lay.managed| && AllElsewhere(lay, baseline, earlier)
          && entries == ManagedEntries(lay, baseline, n) + DidNotExist(earlier))
    && OnlyCreatesElsewhere(lay, baseline, t)
  }

  /** Paths that an earlier recording can have put into the marker. */
  ghost predicate AllElsewhere(lay: Layout, baseline: Tree, earlier: seq<Path>) {
    forall q :: q in earlier ==> q != [] && q !in baseline && !lay.InBackup(q) && !lay.IsManaged(q)
  }

  lemma SnapshotNoneExisted(lay: Layout, baseline: Tree, keep: set<string>, entries: seq<Entry>, t: Tree)
    requires FromSnapshot(lay, baseline, keep, entries, t)
    ensures NoneExisted(lay, baseline.Keys, t, entries)
  {
    var n, earlier :| 0 <= n <= |lay.managed| && AllElsewhere(lay, baseline, earlier)
      && entries == ManagedEntries(lay, baseline, n) + DidNotExist(earlier);
    forall k | 0 <= k < n ensures lay.IsManaged(entries[k].path) {
      assert entries[k] == ManagedEntries(lay, baseline, n)[k];
      assert lay.managed[k] <= entries[k].path;
    }
  }

  lemma SnapshotEntriesFit(lay: Layout, baseline: Tree, keep: set<string>, entries: seq<Entry>, t: Tree)
    requires FromSnapshot(lay, baseline, keep, entries, t)
    ensures forall k :: 0 <= k < |entries| ==> EntryFits(lay, baseline, entries[k])
  {
    var n, earlier :| 0 <= n <= |lay.managed| && AllElsewhere(lay, baseline, earlier)
      && entries == ManagedEntries(lay, baseline, n) + DidNotExist(earlier);
    forall k | 0 <= k < |entries| ensures EntryFits(lay, baseline, entries[k]) {
      if k < n {
        assert entries[k] == ManagedEntries(lay, baseline, n)[k];
        NotManagedBackup(lay, k);
      } else {
        assert earlier[k - n] in earlier;
        NotManaged(lay, entries[k].path);
      }
    }
  }

  lemma NotManagedBackup(lay: Layout, k: nat)
    requires lay.Valid() && k < |lay.managed|
    ensures lay.managed[k] != [] && !lay.InBackup(lay.managed[k]) && lay.managed[k] in lay.managed
  {
  }

  lemma NotManaged(lay: Layout, p: Path)
    ensures p in lay.managed ==> lay.IsManaged(p)
  {
    if p in lay.managed {
      var j :| 0 <= j < |lay.managed| && lay.managed[j] == p;
      assert lay.managed[j] <= p;
    }
  }

  lemma KeptRootsSettled(lay: Layout, baseline: Tree, keep: set<string>, entries: seq<Entry>, t: Tree)
    requires FromSnapshot(lay, baseline, keep, entries, t)
    ensures Settled(lay, baseline, t, KeepRoots(t, keep), [])
  {
    var t' := KeepRoots(t, keep);
    forall p | lay.InBackup(p) ensures SameAt(t', t, p, p) {
      assert p[0] == lay.backup[0];
    }
    forall p | !lay.IsManaged(p) && p in baseline ensures SameAt(t', baseline, p, p) {
      assert p[0] in keep;
    }
  }

  lemma RecordedEntriesFit(lay: Layout, baseline: Tree, keep: set<string>, entries: seq<Entry>, recorded: seq<Path>,
                           t: Tree)
    requires FromSnapshot(lay, baseline, keep, entries, t)
    requires forall p :: p in recorded ==> Topmost(lay, baseline.Keys, t, p)
    ensures forall i :: 0 <= i < |entries + DidNotExist(recorded)| ==>
              EntryFits(lay, baseline, (entries + DidNotExist(recorded))[i])
  {
    SnapshotEntriesFit(lay, baseline, keep, entries, t);
    forall i | 0 <= i < |recorded| ensures EntryFits(lay, baseline, Entry(recorded[i], false)) {
      assert Topmost(lay, baseline.Keys, t, recorded[i]);
      NotManaged(lay, recorded[i]);
    }
    hide EntryFits, FromSnapshot;
  }

  method RollBackFailedApply(lay: Layout, home: HomeTree, baselinePaths: set<Path>, keep: set<string>, marker: Marker,
                             fingerprints: map<Path, string>, fp: Tree -> string, ghost baseline: Tree)
    returns (ok: bool)
    requires baselinePaths == baseline.Keys
    requires FromSnapshot(lay, baseline, keep, marker.entries, home.nodes)
    modifies home, marker
    ensures ok <==> BackupValidates(lay, old(home.nodes), old(marker.entries), fingerprints, fp)
    ensures !ok ==> home.nodes == old(home.nodes)
    ensures ok ==> forall p :: if lay.InBackup(p) then p !in home.nodes
                               else ExpectedAt(lay, baseline, old(home.nodes), home.nodes, p)
  {
    ghost var mutated, taken := home.nodes, marker.entries;
    SnapshotNoneExisted(lay, baseline, keep, taken, mutated);
    var recorded, added := RecordCreatedPaths(lay, home, baselinePaths, marker);
    RecordedEntriesFit(lay, baseline, keep, taken, added, mutated);
    ValidatesSame(lay, mutated, taken, added, baseline.Keys, fingerprints, fp);
    ok := BackupValidates(lay, home.nodes, marker.entries, fingerprints, fp);
    if !ok {
      return;
    }
    KeptRootsSettled(lay, baseline, keep, taken, mutated);
    var entries := marker.entries;
    RestoreEntriesSettle(lay, baseline, mutated, KeepRoots(mutated, keep), entries);
    var restored := Restore(lay, home, keep, entries);
    ghost var t := home.nodes;
    home.Delete(lay.backup);
    RecordedCover(lay, baseline.Keys, mutated, taken, recorded, added, entries);
    forall p | !lay.InBackup(p) ensures ExpectedAt(lay, baseline, mutated, home.nodes, p) {
      EverythingExpected(lay, baseline, mutated, t, entries, p);
    }
  }

  lemma RecordedCover(lay: Layout, baseline: set<Path>, t: Tree, taken: seq<Entry>, recorded: seq<Path>,
                      added: seq<Path>, entries: seq<Entry>)
    requires entries == taken + DidNotExist(added) && AddedOf(taken, recorded, added)
    requires forall p :: p in recorded <==> Topmost(lay, baseline, t, p)
    ensures forall q :: Topmost(lay, baseline, t, q) ==> HasEntry(entries, q)
  {
    forall q | Topmost(lay, baseline, t, q) ensures HasEntry(entries, q) {
      if HasEntry(taken, q) {
        var k :| 0 <= k < |taken| && taken[k].path == q;
        assert entries[k].path == q;
      } else {
        var i :| 0 <= i < |added| && added[i] == q;
        assert entries[|taken| + i].path == q;
      }
    }
  }

  /** The recorded entries neither help nor hurt the validation. */
  lemma ValidatesSame(lay: Layout, t: Tree, taken: seq<Entry>, recorded: seq<Path>, baseline: set<Path>,
                      fingerprints: map<Path, string>, fp: Tree -> string)
    requires forall p :: p in recorded ==> Topmost(lay, baseline, t, p)
    ensures BackupValidates(lay, t, taken + DidNotExist(recorded), fingerprints, fp) <==>
            BackupValidates(lay, t, taken, fingerprints, fp)
  {
    var entries := taken + DidNotExist(recorded);
    forall i | 0 <= i < |lay.managed| ensures HasEntry(entries, lay.managed[i]) <==> HasEntry(taken, lay.managed[i]) {
      assert forall r :: r in recorded ==> !lay.IsManaged(r);
      if k :| 0 <= k < |taken| && taken[k].path == lay.managed[i] {
        assert entries[k].path == lay.managed[i];
      }
      forall k | |taken| <= k < |entries| ensures entries[k].path != lay.managed[i] {
        assert recorded[k - |taken|] in recorded && !lay.IsManaged(recorded[k - |taken|]);
      }
      if k :| 0 <= k < |entries| && entries[k].path == lay.managed[i] {
        assert taken[k].path == lay.managed[i];
      }
    }
    hide EntryValidates;
    assert forall k :: 0 <= k < |entries| ==> if k < |taken| then entries[k] == taken[k] else !entries[k].existed;
    assert forall e: Entry :: !e.existed ==> EntryValidates(lay, t, e, fingerprints, fp) by {
      AbsentEntriesValidate(lay, t, fingerprints, fp);
    }
    assert forall k :: 0 <= k < |taken| ==> taken[k] == entries[k];
  }

  lemma AbsentEntriesValidate(lay: Layout, t: Tree, fingerprints: map<Path, string>, fp: Tree -> string)
    ensures forall e: Entry :: !e.existed ==> EntryValidates(lay, t, e, fingerprints, fp)
  {
  }

  // ----- when the result is the baseline

  /** The backup still holds the baseline's copy of every managed subtree that existed. */
  ghost predicate BackupIntact(lay: Layout, baseline: Tree, saved: Tree) {
    forall p :: Restorable(lay, baseline, p) ==> SameAt(saved, baseline, lay.backup + p, p)
  }

  /** The rollback gives back the baseline, path for path, exactly when the backup is intact. */
  lemma RollbackIsExactIffBackupIntact(lay: Layout, baseline: Tree, saved: Tree, t: Tree)
    requires lay.Valid() && IsTree(baseline) && lay.backup !in baseline
    requires forall p :: if lay.InBackup(p) then p !in t else ExpectedAt(lay, baseline, saved, t, p)
    ensures t == baseline <==> BackupIntact(lay, baseline, saved)
  {
    forall p | Restorable(lay, baseline, p)
      ensures SameAt(t, saved, p, lay.backup + p)
    {
      var i :| 0 <= i < |lay.managed| && lay.managed[i] in baseline && lay.managed[i] <= p;
      BackupApart(lay, lay.managed[i], p);
      assert ExpectedAt(lay, baseline, saved, t, p);
    }
    if BackupIntact(lay, baseline, saved) {
      forall p ensures SameAt(t, baseline, p, p) {
        NotBelowMissingManaged(lay, baseline, p);
        assert ExpectedAt(lay, baseline, saved, t, p) || lay.InBackup(p);
      }
      assert forall p :: p in t <==> SameAt(t, baseline, p, p) && p in baseline;
    }
  }

  /** The baseline has nothing in the backup, and nothing below a managed path it lacks. */
  lemma NotBelowMissingManaged(lay: Layout, baseline: Tree, p: Path)
    requires lay.Valid() && IsTree(baseline) && lay.backup !in baseline
    ensures p in baseline ==> !lay.InBackup(p)
    ensures p in baseline && lay.IsManaged(p) ==> Restorable(lay, baseline, p)
  {
    if p in baseline && lay.InBackup(p) {
      PrefixInTree(baseline, lay.backup, p);
      assert false;
    }
    if p in baseline && lay.IsManaged(p) {
      var i :| 0 <= i < |lay.managed| && lay.managed[i] <= p;
      PrefixInTree(baseline, lay.managed[i], p);
    }
  }

  // ----- what the fingerprint can tell

  function Posix(p: Path): string {
    if p == [] then "" else if |p| == 1 then p[0] else p[0] + "/" + Posix(p[1..])
  }

  /** The names of a path, joined by slashes. */
  lemma {:induction false} PosixJoins(p: Path, name: string)
    ensures Posix([name]) == name
    ensures p != [] ==> Posix(p + [name]) == Posix(p) + "/" + name
  {
    if |p| == 1 {
      assert (p + [name])[1..] == [name];
    } else if |p| > 1 {
      PosixJoins(p[1..], name);
      assert (p + [name])[1..] == p[1..] + [name];
    }
  }

  function ContentAt(t: Tree, p: Path): string {
    if p in t && t[p].File? then t[p].content else ""
  }

  /** The bytes hashed for a directory whose descendants, in listing order, are `order`. */
  function DirectoryInput(t: Tree, order: seq<Path>): string {
    if order == [] then "D\0"
    else
      var p := order[|order| - 1];
      DirectoryInput(t, order[..|order| - 1]) + (Posix(p) + "\0") + ContentAt(t, p)
  }

  /** A listing gives the descendants of a saved directory once each, in an order that their names determine. */
  ghost predicate Lists(list: set<Path> -> seq<Path>) {
    forall s: set<Path> :: forall p :: p in list(s) <==> p in s
  }

  /** The bytes hashed for a saved file or directory, whose own path is empty. */
  function DigestInput(list: set<Path> -> seq<Path>, t: Tree): string {
    if [] in t && t[[]].File? then "F\0" + t[[]].content else DirectoryInput(t, list(t.Keys - {[]}))
  }

  ghost predicate IsFingerprint(fp: Tree -> string, hash: string -> string, list: set<Path> -> seq<Path>) {
    && Lists(list)
    && (forall x, y :: hash(x) == hash(y) ==> x == y)
    && forall t :: fp(t) == hash(DigestInput(list, t))
  }

  predicate NulFree(s: string) {
    forall i :: 0 <= i < |s| ==> s[i] != '\0'
  }

  ghost predicate LastNulAt(s: string, i: nat) {
    i < |s| && s[i] == '\0' && forall k :: i < k < |s| ==> s[k] != '\0'
  }

  lemma LastNul(x: string, name: string, c: string)
    requires NulFree(c)
    ensures LastNulAt(x + (name + "\0") + c, |x| + |name|)
  {
  }

  lemma OneLastNul(s: string, i: nat, j: nat)
    requires LastNulAt(s, i) && LastNulAt(s, j)
    ensures i == j
  {
  }

  /** The start of the contents can be told: they are of one size, or hold no NUL. */
  predicate Delimited(c: string, d: string) {
    |c| == |d| || (NulFree(c) && NulFree(d))
  }

  ghost predicate DelimitedFiles(t: Tree, u: Tree) {
    forall p :: Delimited(ContentAt(t, p), ContentAt(u, p))
  }

  /** The last content stands at the end of the input, behind its name and a NUL. */
  lemma CutAtContent(x: string, y: string, name: string, c: string, d: string)
    requires Delimited(c, d) && x + (name + "\0") + c == y + (name + "\0") + d
    ensures c == d && x == y
  {
    var s := x + (name + "\0") + c;
    if |c| != |d| {
      LastNul(x, name, c);
      LastNul(y, name, d);
      OneLastNul(s, |x| + |name|, |y| + |name|);
    }
    assert s[|x| + |name| + 1..] == c && s[|y| + |name| + 1..] == d;
    assert s[..|x|] == x && s[..|y|] == y;
  }

  /** For one listing, equal input means equal contents everywhere, where a directory counts as empty. */
  lemma {:induction false} SameInputIff(t: Tree, u: Tree, order: seq<Path>)
    requires DelimitedFiles(t, u)
    ensures DirectoryInput(t, order) == DirectoryInput(u, order) <==>
              forall p :: p in order ==> ContentAt(t, p) == ContentAt(u, p)
  {
    hide ContentAt, Posix, Delimited;
    if order != [] {
      var n := |order| - 1;
      SameInputIff(t, u, order[..n]);
      assert order == order[..n] + [order[n]];
      assert Delimited(ContentAt(t, order[n]), ContentAt(u, order[n]));
      if DirectoryInput(t, order) == DirectoryInput(u, order) {
        CutAtContent(DirectoryInput(t, order[..n]), DirectoryInput(u, order[..n]), Posix(order[n]),
                     ContentAt(t, order[n]), ContentAt(u, order[n]));
      }
    }
  }

  /** The same paths, each a file in both trees or a directory in both. */
  ghost predicate SameShape(t: Tree, u: Tree) {
    t.Keys == u.Keys && forall p :: p in t ==> (t[p].File? <==> u[p].File?)
  }

  /** Two saved copies of one shape, each of whose files has kept its size or holds no NUL in either, have the same
      fingerprint only if they are the same. */
  lemma FingerprintSeparates(fp: Tree -> string, hash: string -> string, list: set<Path> -> seq<Path>, t: Tree, u: Tree)
    requires IsFingerprint(fp, hash, list) && DelimitedFiles(t, u) && SameShape(t, u)
    ensures fp(t) == fp(u) <==> ([] in t && t[[]].File? && t[[]] == u[[]]) || t == u
  {
    var x, y := DigestInput(list, t), DigestInput(list, u);
    assert fp(t) == hash(x) && fp(u) == hash(y);
    assert fp(t) == fp(u) <==> x == y;
    if [] in t && t[[]].File? {
      assert x[2..] == t[[]].content && y[2..] == u[[]].content;
    } else {
      var below := t.Keys - {[]};
      SameInputIff(t, u, list(below));
      if x == y {
        forall p | p in t ensures t[p] == u[p] {
          assert p in below ==> p in list(below);
          assert ContentAt(t, p) == ContentAt(u, p);
        }
        assert t == u;
      }
    }
  }

  // ----- when validation means intact

  function SavedCopy(lay: Layout, saved: Tree, m: Path): Tree {
    Graft(saved, lay.backup + m, [])
  }

  function BaselineCopy(baseline: Tree, m: Path): Tree {
    Graft(baseline, m, [])
  }

  /** The fingerprints are those of the copies taken from the baseline. */
  ghost predicate FingerprintsOf(lay: Layout, baseline: Tree, fingerprints: map<Path, string>, fp: Tree -> string) {
    forall m :: m in lay.managed && m in baseline ==>
        m in fingerprints && fingerprints[m] == fp(BaselineCopy(baseline, m))
  }

  /** Each saved copy has the shape of the baseline's subtree, which a listing of both shows. */
  ghost predicate ShapesKept(lay: Layout, baseline: Tree, saved: Tree) {
    forall m :: m in lay.managed && m in baseline ==> SameShape(SavedCopy(lay, saved, m), BaselineCopy(baseline, m))
  }

  /** Each saved file has kept its size, which a listing shows too. */
  ghost predicate SizesKept(lay: Layout, baseline: Tree, saved: Tree) {
    forall m :: m in lay.managed && m in baseline ==> SameSizes(SavedCopy(lay, saved, m), BaselineCopy(baseline, m))
  }

  ghost predicate SameSizes(t: Tree, u: Tree) {
    forall p :: |ContentAt(t, p)| == |ContentAt(u, p)|
  }

  /** Each file of the managed subtrees has kept its size in its saved copy, or holds no NUL in either. */
  ghost predicate ManagedDelimited(lay: Layout, baseline: Tree, saved: Tree) {
    forall m :: m in lay.managed && m in baseline ==>
      DelimitedFiles(SavedCopy(lay, saved, m), BaselineCopy(baseline, m))
  }

  ghost predicate CopiesSame(lay: Layout, baseline: Tree, saved: Tree) {
    forall m :: m in lay.managed && m in baseline ==> SavedCopy(lay, saved, m) == BaselineCopy(baseline, m)
  }

  lemma CopyAt(lay: Layout, baseline: Tree, saved: Tree, m: Path, rest: Path)
    ensures SameAt(SavedCopy(lay, saved, m), BaselineCopy(baseline, m), rest, rest) <==>
            SameAt(saved, baseline, lay.backup + (m + rest), m + rest)
  {
    var nowhere: Path := [];
    assert nowhere <= rest && rest[|nowhere|..] == rest;
    assert lay.backup + m + rest == lay.backup + (m + rest);
  }

  lemma CopySame(lay: Layout, baseline: Tree, saved: Tree, m: Path)
    ensures SavedCopy(lay, saved, m) == BaselineCopy(baseline, m) <==>
            forall p :: m <= p ==> SameAt(saved, baseline, lay.backup + p, p)
  {
    var c, b := SavedCopy(lay, saved, m), BaselineCopy(baseline, m);
    hide SavedCopy, BaselineCopy;
    forall p | m <= p
      ensures SameAt(saved, baseline, lay.backup + p, p) <==> SameAt(c, b, p[|m|..], p[|m|..])
    {
      assert m + p[|m|..] == p;
      CopyAt(lay, baseline, saved, m, p[|m|..]);
    }
    if forall p :: m <= p ==> SameAt(saved, baseline, lay.backup + p, p) {
      forall rest ensures SameAt(c, b, rest, rest) {
        assert m <= m + rest;
        CopyAt(lay, baseline, saved, m, rest);
      }
      SameTrees(c, b);
    }
  }

  lemma IntactIffCopiesSame(lay: Layout, baseline: Tree, saved: Tree)
    ensures BackupIntact(lay, baseline, saved) <==> CopiesSame(lay, baseline, saved)
  {
    forall m ensures SavedCopy(lay, saved, m) == BaselineCopy(baseline, m) <==>
                     forall p :: m <= p ==> SameAt(saved, baseline, lay.backup + p, p) {
      CopySame(lay, baseline, saved, m);
    }
    hide SavedCopy, BaselineCopy, SameAt;
    if CopiesSame(lay, baseline, saved) {
      forall p | Restorable(lay, baseline, p) ensures SameAt(saved, baseline, lay.backup + p, p) {
        var i :| 0 <= i < |lay.managed| && lay.managed[i] in baseline && lay.managed[i] <= p;
        assert lay.managed[i] in lay.managed;
      }
    }
    if BackupIntact(lay, baseline, saved) {
      forall m | m in lay.managed && m in baseline ensures SavedCopy(lay, saved, m) == BaselineCopy(baseline, m) {
        var i :| 0 <= i < |lay.managed| && lay.managed[i] == m;
        forall p | m <= p ensures SameAt(saved, baseline, lay.backup + p, p) {
          assert Restorable(lay, baseline, p);
        }
      }
    }
  }

  /** Where sizes or the lack of NULs delimit the files, the backup is intact exactly if it validates and its copies
      have kept their shape. */
  lemma IntactIffValidatedInShape(lay: Layout, baseline: Tree, saved: Tree, fingerprints: map<Path, string>,
                                  fp: Tree -> string, hash: string -> string, list: set<Path> -> seq<Path>)
    requires IsTree(baseline) && IsFingerprint(fp, hash, list) && FingerprintsOf(lay, baseline, fingerprints, fp)
    requires ManagedDelimited(lay, baseline, saved)
    ensures BackupIntact(lay, baseline, saved) <==>
            && BackupValidates(lay, saved, ManagedEntries(lay, baseline, |lay.managed|), fingerprints, fp)
            && ShapesKept(lay, baseline, saved)
  {
    IntactIffCopiesSame(lay, baseline, saved);
    var entries := ManagedEntries(lay, baseline, |lay.managed|);
    forall m | m in lay.managed && m in baseline
      ensures SavedCopy(lay, saved, m) == BaselineCopy(baseline, m) <==>
              EntryValidates(lay, saved, Entry(m, true), fingerprints, fp)
              && SameShape(SavedCopy(lay, saved, m), BaselineCopy(baseline, m))
    {
      CopyIntactIff(lay, baseline, saved, fingerprints, fp, hash, list, m);
    }
    EntriesValidateIff(lay, baseline, saved, fingerprints, fp);
    hide IsFingerprint, SavedCopy, BaselineCopy, SameShape, EntryValidates, BackupIntact, DelimitedFiles;
  }

  /** Whatever the files hold: the backup is intact exactly if it validates and its copies have kept their paths,
      kinds and file sizes. */
  lemma IntactIffValidatedInSize(lay: Layout, baseline: Tree, saved: Tree, fingerprints: map<Path, string>,
                                 fp: Tree -> string, hash: string -> string, list: set<Path> -> seq<Path>)
    requires IsTree(baseline) && IsFingerprint(fp, hash, list) && FingerprintsOf(lay, baseline, fingerprints, fp)
    ensures BackupIntact(lay, baseline, saved) <==>
            && BackupValidates(lay, saved, ManagedEntries(lay, baseline, |lay.managed|), fingerprints, fp)
            && ShapesKept(lay, baseline, saved) && SizesKept(lay, baseline, saved)
  {
    IntactIffCopiesSame(lay, baseline, saved);
    hide IsTree, IsFingerprint, FingerprintsOf, SavedCopy, BaselineCopy, ShapesKept, BackupIntact, BackupValidates;
    if CopiesSame(lay, baseline, saved) || SizesKept(lay, baseline, saved) {
      assert SizesKept(lay, baseline, saved);
      IntactIffValidatedInShape(lay, baseline, saved, fingerprints, fp, hash, list);
    }
  }

  lemma CopyIntactIff(lay: Layout, baseline: Tree, saved: Tree, fingerprints: map<Path, string>, fp: Tree -> string,
                      hash: string -> string, list: set<Path> -> seq<Path>, m: Path)
    requires IsTree(baseline) && IsFingerprint(fp, hash, list) && m in baseline
    requires m in fingerprints && fingerprints[m] == fp(BaselineCopy(baseline, m))
    requires DelimitedFiles(SavedCopy(lay, saved, m), BaselineCopy(baseline, m))
    ensures SavedCopy(lay, saved, m) == BaselineCopy(baseline, m) <==>
            EntryValidates(lay, saved, Entry(m, true), fingerprints, fp)
            && SameShape(SavedCopy(lay, saved, m), BaselineCopy(baseline, m))
  {
    var c, b := SavedCopy(lay, saved, m), BaselineCopy(baseline, m);
    assert m + [] == m && lay.backup + m + [] == lay.backup + m;
    assert [] in b;
    assert [] in c <==> lay.backup + m in saved;
    if b[[]].File? {
      NothingBelowFile(baseline, m);
    }
    hide IsFingerprint, DelimitedFiles, IsTree;
    if SameShape(c, b) {
      FingerprintSeparates(fp, hash, list, c, b);
    }
  }

  lemma NothingBelowFile(t: Tree, m: Path)
    requires IsTree(t) && m in t && t[m].File?
    ensures BaselineCopy(t, m).Keys == {[]}
  {
    forall p | p in BaselineCopy(t, m) ensures p == [] {
      var nowhere: Path := [];
      assert p[|nowhere|..] == p;
      PrefixInTree(t, m, m + p);
      assert m + p == m ==> p == [];
    }
    assert m + [] == m;
    assert [] in BaselineCopy(t, m);
  }

  lemma EntriesValidateIff(lay: Layout, baseline: Tree, saved: Tree, fingerprints: map<Path, string>,
                           fp: Tree -> string)
    ensures BackupValidates(lay, saved, ManagedEntries(lay, baseline, |lay.managed|), fingerprints, fp) <==>
            forall m :: m in lay.managed && m in baseline ==>
                EntryValidates(lay, saved, Entry(m, true), fingerprints, fp)
  {
    var entries := ManagedEntries(lay, baseline, |lay.managed|);
    forall i | 0 <= i < |lay.managed| ensures HasEntry(entries, lay.managed[i]) {
      assert entries[i].path == lay.managed[i];
    }
    forall m | m in lay.managed && m in baseline
        ensures exists k :: 0 <= k < |entries| && entries[k] == Entry(m, true) {
      var k :| 0 <= k < |lay.managed| && lay.managed[k] == m;
      assert entries[k] == Entry(m, true);
    }
    AbsentEntriesValidate(lay, saved, fingerprints, fp);
    hide EntryValidates;
  }

  // ----- what it cannot tell

  /** Different trees, listed one way each, with the same input. */
  ghost predicate Confused(t: Tree, u: Tree, order: seq<Path>, order': seq<Path>) {
    && t != u && IsTree(t) && IsTree(u)
    && (forall p :: p in order <==> p in t) && (forall p :: p in order' <==> p in u)
    && DirectoryInput(t, order) == DirectoryInput(u, order')
  }

  /** An empty file and an empty directory, of whatever name. */
  lemma FingerprintMissesKind(name: string)
    ensures var t: Tree := map[[name] := File("")];
            var u: Tree := map[[name] := Dir];
            Confused(t, u, [[name]], [[name]]) && !SameShape(t, u)
  {
    var t: Tree := map[[name] := File("")];
    var u: Tree := map[[name] := Dir];
    var order: seq<Path> := [[name]];
    assert t[[name]] != u[[name]];
    assert order[..0] == [];
    assert DirectoryInput(t, order) == DirectoryInput(u, order);
  }

  lemma TwoFilesInput(t: Tree, a: string, b: string)
    requires [a] in t && t[[a]].File? && [b] in t && t[[b]].File?
    ensures DirectoryInput(t, [[a], [b]]) == "D\0" + (a + "\0") + t[[a]].content + (b + "\0") + t[[b]].content
  {
    var one, two: seq<Path> := [[a]], [[a], [b]];
    assert two[..1] == one && one[..0] == [] && one[0] == [a] && two[1] == [b];
    assert Posix([a]) == a && Posix([b]) == b;
    assert DirectoryInput(t, []) == "D\0";
    assert DirectoryInput(t, one) == "D\0" + (a + "\0") + t[[a]].content;
    assert DirectoryInput(t, two) == DirectoryInput(t, one) + (b + "\0") + t[[b]].content;
  }

  predicate PlainFiles(t: Tree) {
    forall p :: p in t ==> |p| == 1 && t[p].File? && NulFree(t[p].content)
  }

  lemma PlainFilesAreTree(t: Tree)
    requires PlainFiles(t)
    ensures IsTree(t)
  {
  }

  const NAMED_AB: Tree := map[["a"] := File("x"), ["b"] := File("y")]
  const NAMED_AXB: Tree := map[["a"] := File(""), ["xb"] := File("y")]
  const LISTED_AB: seq<Path> := [["a"], ["b"]]
  const LISTED_AXB: seq<Path> := [["a"], ["xb"]]

  lemma NamesAreConfused()
    ensures DirectoryInput(NAMED_AB, LISTED_AB) == DirectoryInput(NAMED_AXB, LISTED_AXB)
  {
    TwoFilesInput(NAMED_AB, "a", "b");
    TwoFilesInput(NAMED_AXB, "a", "xb");
    hide DirectoryInput;
    assert DirectoryInput(NAMED_AB, LISTED_AB) == "D\0a\0xb\0y";
    assert DirectoryInput(NAMED_AXB, LISTED_AXB) == "D\0a\0xb\0y";
  }

  lemma NamesArePlain()
    ensures PlainFiles(NAMED_AB) && PlainFiles(NAMED_AXB) && NAMED_AB != NAMED_AXB
    ensures forall p :: p in LISTED_AB <==> p in NAMED_AB
    ensures forall p :: p in LISTED_AXB <==> p in NAMED_AXB
  {
    assert ["b"] in NAMED_AB && ["b"] !in NAMED_AXB;
  }

  /** Plain files of other names: nothing marks where a content ends and the next name begins. */
  lemma FingerprintMissesNames()
    ensures exists t: Tree, u: Tree, order: seq<Path>, order': seq<Path> ::
              Confused(t, u, order, order') && PlainFiles(t) && PlainFiles(u)
  {
    hide DirectoryInput, IsTree, PlainFiles;
    NamesArePlain();
    NamesAreConfused();
    PlainFilesAreTree(NAMED_AB);
    PlainFilesAreTree(NAMED_AXB);
    assert Confused(NAMED_AB, NAMED_AXB, LISTED_AB, LISTED_AXB);
  }

  /** Files of one shape whose contents hold a NUL. */
  lemma FingerprintMissesNul()
    ensures exists t: Tree, u: Tree, order: seq<Path> :: Confused(t, u, order, order) && SameShape(t, u)
  {
    var t: Tree := map[["a"] := File("b\0"), ["b"] := File("")];
    var u: Tree := map[["a"] := File(""), ["b"] := File("b\0")];
    TwoFilesInput(t, "a", "b");
    TwoFilesInput(u, "a", "b");
    assert t[["a"]] != u[["a"]];
    assert Confused(t, u, [["a"], ["b"]], [["a"], ["b"]]);
  }
}
