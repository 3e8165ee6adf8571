/** Archiving the Hermes profile and restoring it: the configured entries of the home directory and everything below
    `plugins`.

    The archive records every file, and of the directories only the entries and the plugins themselves. The restore
    replaces each entry and each plugin by what was recorded. It gives the archived profile back exactly under the
    condition `Whole`. */
module ProfileRestore {
  import opened FileTree

  const PLUGINS: string := "plugins"

  /** The configured entries; `skipped` are the databases among them, which are restored on their own. */
  datatype Profile = Profile(entries: seq<string>, skipped: set<string>) {
    predicate Valid() {
      PLUGINS !in entries
    }

    predicate Covers(p: Path) {
      p != [] && ((p[0] in entries && p[0] !in skipped) || p[0] == PLUGINS)
    }
  }

  /** A directory the archive records even when it is empty: an entry, or a plugin. */
  predicate MemberRoot(p: Path) {
    (|p| == 1 && p[0] != PLUGINS) || (|p| == 2 && p[0] == PLUGINS)
  }

  predicate Recorded(prof: Profile, t: Tree, p: Path) {
    p in t && prof.Covers(p) && if t[p].Dir? then MemberRoot(p) else p != [PLUGINS]
  }

  predicate RecordedBelow(prof: Profile, t: Tree, p: Path) {
    exists q :: q in t && p < q && Recorded(prof, t, q)
  }

  /** The tree that extracting the archive gives. */
  function Staged(prof: Profile, t: Tree): Tree {
    map p | p in t && prof.Covers(p) && (Recorded(prof, t, p) || RecordedBelow(prof, t, p)) :: t[p]
  }

  /** What the archive brings back of one path: a file of an entry or a plugin; of the directories an entry, a plugin,
      and every one above such a file or directory. */
  lemma StagedIff(prof: Profile, t: Tree, p: Path)
    requires IsTree(t)
    ensures p in Staged(prof, t) <==>
            && p in t && p != [] && ((p[0] in prof.entries && p[0] !in prof.skipped) || p[0] == "plugins")
            && (Archived(prof, t, p) || exists q :: q in t && p < q && Archived(prof, t, q))
    ensures p in Staged(prof, t) ==> Staged(prof, t)[p] == t[p]
  {
    forall q ensures Archived(prof, t, q) <==> Recorded(prof, t, q) {
    }
  }

  predicate Archived(prof: Profile, t: Tree, p: Path) {
    && p in t && p != [] && ((p[0] in prof.entries && p[0] !in prof.skipped) || p[0] == "plugins")
    && match t[p]
       case File(_) => p != ["plugins"]
       case Dir => if p[0] == "plugins" then |p| == 2 else |p| == 1
  }

  lemma StagedIsTree(prof: Profile, t: Tree)
    requires IsTree(t)
    ensures IsTree(Staged(prof, t))
    ensures [PLUGINS] in Staged(prof, t) ==> t[[PLUGINS]].Dir?
  {
    var staged := Staged(prof, t);
    forall p | p in staged && |p| > 1 ensures p[..|p| - 1] in staged && staged[p[..|p| - 1]].Dir? {
      var up := p[..|p| - 1];
      assert up < p;
      if !Recorded(prof, t, p) {
        var q :| q in t && p < q && Recorded(prof, t, q);
        assert up < q;
      }
      assert RecordedBelow(prof, t, up);
    }
    if [PLUGINS] in staged && RecordedBelow(prof, t, [PLUGINS]) {
      var q :| q in t && [PLUGINS] < q && Recorded(prof, t, q);
      PrefixInTree(t, [PLUGINS], q);
    }
  }

  // ----- the restore

  predicate UnderAny(roots: set<Path>, p: Path) {
    exists r :: r in roots && r <= p
  }

  /** `u` below the roots, `t` elsewhere. */
  function Mixed(t: Tree, u: Tree, roots: set<Path>): Tree {
    map p | p in t.Keys + u.Keys && (if UnderAny(roots, p) then p in u else p in t) ::
      if UnderAny(roots, p) then u[p] else t[p]
  }

  /** The home directory after a restore of the staged profile. */
  function WithProfile(prof: Profile, t: Tree, staged: Tree): Tree {
    (map p | p in t.Keys + staged.Keys && (if prof.Covers(p) then p in staged else p in t) ::
      if prof.Covers(p) then staged[p] else t[p])[[PLUGINS] := Dir]
  }

  function EntryRoots(prof: Profile, n: nat): set<Path>
    requires n <= |prof.entries|
  {
    set i | 0 <= i < n && prof.entries[i] !in prof.skipped :: [prof.entries[i]]
  }

  predicate PluginsIsFile(t: Tree) {
    [PLUGINS] in t && t[[PLUGINS]].File?
  }

  lemma MixedAt(t: Tree, u: Tree, roots: set<Path>, p: Path)
    ensures if UnderAny(roots, p) then SameAt(Mixed(t, u, roots), u, p, p) else SameAt(Mixed(t, u, roots), t, p, p)
  {
  }

  lemma ReplacedAt(t: Tree, u: Tree, root: Path, p: Path)
    ensures if root <= p then SameAt(Without(t, root) + Graft(u, root, root), u, p, p)
            else SameAt(Without(t, root) + Graft(u, root, root), t, p, p)
  {
    assert root <= p ==> root + p[|root|..] == p;
  }

  /** Replacing one more root. */
  lemma MixedGrows(t: Tree, u: Tree, roots: set<Path>, root: Path)
    ensures Without(Mixed(t, u, roots), root) + Graft(u, root, root) == Mixed(t, u, roots + {root})
  {
    var now, more := Mixed(t, u, roots), roots + {root};
    var next := Without(now, root) + Graft(u, root, root);
    hide Mixed, Without, Graft;
    forall p ensures SameAt(next, Mixed(t, u, more), p, p) {
      ReplacedAt(now, u, root, p);
      MixedAt(t, u, roots, p);
      MixedAt(t, u, more, p);
      assert UnderAny(more, p) <==> UnderAny(roots, p) || root <= p by {
        if UnderAny(roots, p) {
          var r :| r in roots && r <= p;
          assert r in more;
        }
        assert root in more;
      }
    }
    SameTrees(next, Mixed(t, u, more));
  }

  function Children(t: Tree): set<Path> {
    set p | p in t && |p| == 2 && p[0] == PLUGINS
  }

  class ProfileTree {
    var nodes: Tree

    constructor (nodes: Tree)
      ensures this.nodes == nodes
    {
      this.nodes := nodes;
    }

    /** Delete what is there, and copy the staged entry if there is one. */
    method RestoreEntry(staged: Tree, root: Path)
      modifies this
      ensures nodes == Without(old(nodes), root) + Graft(staged, root, root)
    {
      nodes := Without(nodes, root);
      nodes := nodes + Graft(staged, root, root);
    }

    method RestoreEntries(prof: Profile, staged: Tree)
      modifies this
      ensures nodes == Mixed(old(nodes), staged, EntryRoots(prof, |prof.entries|))
    {
      ghost var t := nodes;
      NoRoots(t, staged);
      assert EntryRoots(prof, 0) == {};
      hide Mixed, Without, Graft, EntryRoots;
      for i := 0 to |prof.entries|
        invariant nodes == Mixed(t, staged, EntryRoots(prof, i))
      {
        var name := prof.entries[i];
        EntryRootsGrow(prof, i);
        if name in prof.skipped {
          continue;
        }
        MixedGrows(t, staged, EntryRoots(prof, i), [name]);
        RestoreEntry(staged, [name]);
      }
    }

    method DeletePlugins()
      modifies this
      ensures nodes == Mixed(old(nodes), map[], Children(old(nodes)))
    {
      ghost var base := nodes;
      var doomed := Children(nodes);
      ghost var gone: set<Path> := {};
      NoRoots(base, map[]);
      hide Mixed, Without, Children;
      while doomed != {}
        invariant nodes == Mixed(base, map[], gone)
        invariant gone + doomed == Children(base)
        decreases |doomed|
      {
        var c :| c in doomed;
        DeletedIsMixed(base, gone, c);
        nodes := Without(nodes, c);
        gone := gone + {c};
        doomed := doomed - {c};
      }
      assert gone == Children(base);
    }

    method CopyPlugins(staged: Tree, ghost base: Tree)
      requires IsTree(base) && nodes == Mixed(base, map[], Children(base))
      modifies this
      ensures nodes == Mixed(old(nodes), staged, Children(staged))
    {
      ghost var cleared := nodes;
      var placed := Children(staged);
      ghost var done: set<Path> := {};
      NoRoots(cleared, staged);
      ChildrenAre(staged);
      hide Mixed, Graft, Children, IsTree;
      while placed != {}
        invariant nodes == Mixed(cleared, staged, done)
        invariant done + placed == Children(staged) && done !! placed
        decreases |placed|
      {
        var c :| c in placed;
        CopiedIsMixed(base, cleared, staged, done, c);
        nodes := nodes + Graft(staged, c, c);
        done := done + {c};
        placed := placed - {c};
      }
      assert done == Children(staged);
    }

    /** Every plugin is deleted; then the staged ones are copied. */
    method RestorePlugins(staged: Tree)
      requires IsTree(nodes) && IsTree(staged) && !PluginsIsFile(nodes)
      modifies this
      ensures nodes == PluginsReplaced(old(nodes), staged)
    {
      ghost var t := nodes;
      nodes := nodes[[PLUGINS] := Dir];
      ghost var base := nodes;
      hide Mixed, Children, PluginsReplaced;
      DeletePlugins();
      CopyPlugins(staged, base);
      PluginsSettled(t, base, staged);
    }

    /** `False` is the exception raised when `plugins` is a file. */
    method RestoreProfile(prof: Profile, staged: Tree) returns (ok: bool)
      requires prof.Valid() && IsTree(nodes) && IsTree(staged)
      modifies this
      ensures ok <==> !PluginsIsFile(old(nodes))
      ensures ok ==> nodes == WithProfile(prof, old(nodes), staged)
      ensures IsTree(nodes)
      ensures forall p :: !prof.Covers(p) ==> SameAt(nodes, old(nodes), p, p)
    {
      ghost var t := nodes;
      RestoreEntries(prof, staged);
      EntriesAreTree(prof, t, staged);
      ok := !PluginsIsFile(nodes);
      if ok {
        RestorePlugins(staged);
        RestoredInTwo(prof, t, staged);
        RestoredIsTree(prof, t, staged);
      }
    }
  }

  /** `staged` strictly below `plugins`, which is a directory; `t` elsewhere. */
  function PluginsReplaced(t: Tree, staged: Tree): Tree {
    (map p | p in t.Keys + staged.Keys && (if [PLUGINS] <= p then p in staged else p in t) ::
      if [PLUGINS] <= p then staged[p] else t[p])[[PLUGINS] := Dir]
  }

  lemma NoRoots(t: Tree, u: Tree)
    ensures Mixed(t, u, {}) == t
  {
  }

  lemma EntryRootsGrow(prof: Profile, i: nat)
    requires i < |prof.entries|
    ensures prof.entries[i] in prof.skipped ==> EntryRoots(prof, i + 1) == EntryRoots(prof, i)
    ensures prof.entries[i] !in prof.skipped ==>
              EntryRoots(prof, i + 1) == EntryRoots(prof, i) + {[prof.entries[i]]}
  {
  }

  lemma DeletedIsMixed(base: Tree, gone: set<Path>, c: Path)
    ensures Without(Mixed(base, map[], gone), c) == Mixed(base, map[], gone + {c})
  {
    MixedGrows(base, map[], gone, c);
    assert Graft(map[], c, c) == map[];
  }

  lemma ChildrenAre(t: Tree)
    ensures forall c :: c in Children(t) ==> |c| == 2 && c[0] == PLUGINS
  {
  }

  lemma OnePrefix(c: Path, d: Path, p: Path)
    requires c <= p && |d| == |c| && d != c
    ensures !(d <= p)
  {
    assert c == p[..|c|];
  }

  /** Nothing is left where a plugin is copied to. */
  lemma NothingLeft(base: Tree, cleared: Tree, staged: Tree, done: set<Path>, c: Path, p: Path)
    requires IsTree(base) && cleared == Mixed(base, map[], Children(base)) && c <= p
    requires |c| == 2 && c[0] == PLUGINS && c !in done && forall d :: d in done ==> |d| == 2
    ensures p !in Mixed(cleared, staged, done)
  {
    MixedAt(cleared, staged, done, p);
    MixedAt(base, map[], Children(base), p);
    if p in base {
      PrefixInTree(base, c, p);
      assert c in Children(base);
    }
    forall d | d in done ensures !(d <= p) {
      OnePrefix(c, d, p);
    }
  }

  lemma CopiedIsMixed(base: Tree, cleared: Tree, staged: Tree, done: set<Path>, c: Path)
    requires IsTree(base) && cleared == Mixed(base, map[], Children(base))
    requires |c| == 2 && c[0] == PLUGINS && c !in done && forall d :: d in done ==> |d| == 2
    ensures Mixed(cleared, staged, done) + Graft(staged, c, c) == Mixed(cleared, staged, done + {c})
  {
    var now := Mixed(cleared, staged, done);
    forall p | c <= p ensures p !in now {
      NothingLeft(base, cleared, staged, done, c, p);
    }
    hide Mixed;
    assert Without(now, c) == now;
    MixedGrows(cleared, staged, done, c);
  }

  lemma PluginsAt(t: Tree, staged: Tree, p: Path)
    ensures p == [PLUGINS] ==> p in PluginsReplaced(t, staged) && PluginsReplaced(t, staged)[p] == Dir
    ensures p != [PLUGINS] ==>
              if [PLUGINS] <= p then SameAt(PluginsReplaced(t, staged), staged, p, p)
              else SameAt(PluginsReplaced(t, staged), t, p, p)
  {
  }

  lemma PluginsSettled(t: Tree, base: Tree, staged: Tree)
    requires IsTree(staged) && base == t[[PLUGINS] := Dir] && IsTree(base)
    ensures Mixed(Mixed(base, map[], Children(base)), staged, Children(staged)) == PluginsReplaced(t, staged)
  {
    var cleared := Mixed(base, map[], Children(base));
    var r := Mixed(cleared, staged, Children(staged));
    hide Mixed, PluginsReplaced, Children, UnderAny;
    forall p ensures SameAt(r, PluginsReplaced(t, staged), p, p) {
      MixedAt(cleared, staged, Children(staged), p);
      MixedAt(base, map[], Children(base), p);
      BelowPlugins(base, p);
      BelowPlugins(staged, p);
      PluginsAt(t, staged, p);
    }
    SameTrees(r, PluginsReplaced(t, staged));
  }

  lemma BelowPlugins(t: Tree, p: Path)
    requires IsTree(t)
    ensures UnderAny(Children(t), p) ==> [PLUGINS] < p
    ensures p in t && [PLUGINS] < p ==> UnderAny(Children(t), p)
  {
    if p in t && [PLUGINS] < p {
      PrefixInTree(t, p[..2], p);
      assert p[..2] in Children(t);
    }
  }

  lemma UnderEntries(prof: Profile, p: Path)
    requires prof.Valid()
    ensures UnderAny(EntryRoots(prof, |prof.entries|), p) <==> prof.Covers(p) && p[0] != PLUGINS
  {
    var roots := EntryRoots(prof, |prof.entries|);
    if UnderAny(roots, p) {
      var r :| r in roots && r <= p;
      assert p[0] == r[0];
    }
    if prof.Covers(p) && p[0] != PLUGINS {
      var i :| 0 <= i < |prof.entries| && prof.entries[i] == p[0];
      assert [prof.entries[i]] in roots && [prof.entries[i]] <= p;
    }
  }

  lemma EntriesAreTree(prof: Profile, t: Tree, staged: Tree)
    requires prof.Valid() && IsTree(t) && IsTree(staged)
    ensures var now := Mixed(t, staged, EntryRoots(prof, |prof.entries|));
            && IsTree(now)
            && (PluginsIsFile(now) <==> PluginsIsFile(t))
            && forall p :: !prof.Covers(p) ==> SameAt(now, t, p, p)
  {
    var roots := EntryRoots(prof, |prof.entries|);
    var now := Mixed(t, staged, roots);
    hide Mixed, EntryRoots, UnderAny;
    forall p
      ensures if prof.Covers(p) && p[0] != PLUGINS then SameAt(now, staged, p, p) else SameAt(now, t, p, p)
    {
      UnderEntries(prof, p);
      MixedAt(t, staged, roots, p);
    }
    assert forall p :: p in now ==> p != [] && (|p| > 1 ==> p[0] == p[..|p| - 1][0]);
    assert IsTree(now) by {
      forall p | p in now && |p| > 1 ensures p[..|p| - 1] in now && now[p[..|p| - 1]].Dir? {
        var up := p[..|p| - 1];
        assert up[0] == p[0];
      }
    }
    assert SameAt(now, t, [PLUGINS], [PLUGINS]);
  }

  lemma RestoredAt(prof: Profile, t: Tree, staged: Tree, p: Path)
    ensures p == [PLUGINS] ==> p in WithProfile(prof, t, staged) && WithProfile(prof, t, staged)[p] == Dir
    ensures p != [PLUGINS] ==>
              if prof.Covers(p) then SameAt(WithProfile(prof, t, staged), staged, p, p)
              else SameAt(WithProfile(prof, t, staged), t, p, p)
  {
  }

  lemma RestoredInTwo(prof: Profile, t: Tree, staged: Tree)
    requires prof.Valid()
    ensures PluginsReplaced(Mixed(t, staged, EntryRoots(prof, |prof.entries|)), staged) == WithProfile(prof, t, staged)
  {
    var roots := EntryRoots(prof, |prof.entries|);
    var entries := Mixed(t, staged, roots);
    hide EntryRoots, UnderAny, WithProfile;
    forall p ensures SameAt(PluginsReplaced(entries, staged), WithProfile(prof, t, staged), p, p) {
      UnderEntries(prof, p);
      MixedAt(t, staged, roots, p);
      RestoredAt(prof, t, staged, p);
    }
    SameTrees(PluginsReplaced(entries, staged), WithProfile(prof, t, staged));
  }

  lemma RestoredIsTree(prof: Profile, t: Tree, staged: Tree)
    requires IsTree(t) && IsTree(staged)
    ensures IsTree(WithProfile(prof, t, staged))
  {
    var r := WithProfile(prof, t, staged);
    forall p | p in r && |p| > 1 ensures p[..|p| - 1] in r && r[p[..|p| - 1]].Dir? {
      assert p[..|p| - 1][0] == p[0];
    }
  }

  // ----- when the profile comes back whole

  /** There is a plugin directory, and every directory but that one is an entry, a plugin, or above a file or plugin. */
  ghost predicate Whole(prof: Profile, s: Tree) {
    && [PLUGINS] in s && s[[PLUGINS]].Dir?
    && forall p :: p in s && prof.Covers(p) && p != [PLUGINS] && s[p].Dir? ==>
        Recorded(prof, s, p) || RecordedBelow(prof, s, p)
  }

  /** `s` in the profile, `t` elsewhere. */
  ghost predicate ProfileIs(prof: Profile, r: Tree, s: Tree, t: Tree) {
    forall p :: ProfileIsAt(prof, r, s, t, p)
  }

  ghost predicate ProfileIsAt(prof: Profile, r: Tree, s: Tree, t: Tree, p: Path) {
    if prof.Covers(p) then SameAt(r, s, p, p) else SameAt(r, t, p, p)
  }

  /** At the top of the home directory every entry comes back. */
  lemma TopIsKept(prof: Profile, s: Tree, t: Tree, p: Path)
    requires |p| == 1 && p != [PLUGINS]
    ensures ProfileIsAt(prof, WithProfile(prof, t, Staged(prof, s)), s, t, p)
  {
    RestoredAt(prof, t, Staged(prof, s), p);
    hide WithProfile;
    assert p[0] != PLUGINS;
  }

  /** The restored profile is the archived one, path for path, exactly when that was whole. */
  lemma ProfileExact(prof: Profile, s: Tree, t: Tree)
    requires IsTree(s)
    ensures ProfileIs(prof, WithProfile(prof, t, Staged(prof, s)), s, t) <==> Whole(prof, s)
  {
    var r := WithProfile(prof, t, Staged(prof, s));
    StagedIsTree(prof, s);
    hide WithProfile, RecordedBelow, IsTree;
    forall p
      ensures prof.Covers(p) && p != [PLUGINS] ==>
                (SameAt(r, s, p, p) <==> (p in s && s[p].Dir? ==> Recorded(prof, s, p) || RecordedBelow(prof, s, p)))
      ensures !prof.Covers(p) ==> SameAt(r, t, p, p)
    {
      RestoredAt(prof, t, Staged(prof, s), p);
    }
    RestoredAt(prof, t, Staged(prof, s), [PLUGINS]);
    assert prof.Covers([PLUGINS]);
    assert SameAt(r, s, [PLUGINS], [PLUGINS]) <==> [PLUGINS] in s && s[[PLUGINS]].Dir?;
    assert ProfileIsAt(prof, r, s, t, [PLUGINS]) <==> [PLUGINS] in s && s[[PLUGINS]].Dir?;
    forall p | p != [PLUGINS]
      ensures ProfileIsAt(prof, r, s, t, p) <==>
              (p in s && prof.Covers(p) && s[p].Dir? ==> Recorded(prof, s, p) || RecordedBelow(prof, s, p))
    {
    }
    hide Profile.Covers, Recorded, Staged, ProfileIsAt;
  }
}
