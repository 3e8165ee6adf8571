/** The state an update transaction can touch, its recovery points, and what restoring one gives back.

    Host, Hermes home and SoulLink runtime are file trees; the databases are files in the latter two. Archives lose
    directories, so a restore that went through need not have reached the recovery point: `Recoverable` and
    `Compensable` are the exact conditions under which it has, and under which a compensation has put back the state
    before. */
module RecoveryPoint {
  import opened Wrappers
  import opened FileTree
  import opened RuntimeRestore
  import opened ProfileRestore
  import opened DatabaseFiles

  // ----- the setting

  datatype Location = Location(inHome: bool, path: Path)

  /** The profile entries, the preserved roots, the databases, and what an online backup of a database yields. */
  datatype Setting = Setting(entries: seq<string>, preserved: set<Path>, databases: seq<Location>,
                             backup: Parts -> string) {
    function Profile(full: bool): Profile {
      ProfileRestore.Profile(entries, if full then HomeNames() else {})
    }

    function HomeNames(): set<string> {
      set i | 0 <= i < |databases| && databases[i].inHome && databases[i].path != [] :: databases[i].path[0]
    }

    /** A controller configured without databases does not know them: it treats them as ordinary files. */
    function Layout(full: bool): Layout {
      RuntimeRestore.Layout(if full then RuntimeDatabases() else {}, preserved)
    }

    function RuntimeDatabases(): set<Path> {
      set i | 0 <= i < |databases| && !databases[i].inHome :: databases[i].path
    }

    predicate Rooted() {
      forall i :: 0 <= i < |databases| ==> databases[i].path != []
    }

    function PathOf(i: nat): (p: Path)
      requires Rooted() && i < |databases|
      ensures p != []
    {
      databases[i].path
    }

    /** Databases of the home directory lie at its top; no database lies in a preserved root; no file of one
        database is, or lies above, a file of another. */
    ghost predicate Valid() {
      && PLUGINS !in entries
      && (forall r :: r in preserved ==> r != []) && Layout(false).NoEcho()
      && Rooted()
      && (forall i, j :: 0 <= i < |databases| && 0 <= j < 4 ==> PlacedWell(i, j))
      && (forall i, j, k, l :: 0 <= i < |databases| && 0 <= j < 4 && 0 <= k < |databases| && 0 <= l < 4 && i != k ==>
            Apart(i, j, k, l))
    }

    ghost predicate PlacedWell(i: int, j: int)
      requires Rooted() && 0 <= i < |databases| && 0 <= j < 4
    {
      var p := PartPath(PathOf(i), j);
      if databases[i].inHome then |p| == 1 && p != [PLUGINS] else !Layout(false).Preserves(p)
    }

    ghost predicate Apart(i: int, j: int, k: int, l: int)
      requires Rooted() && 0 <= i < |databases| && 0 <= j < 4 && 0 <= k < |databases| && 0 <= l < 4
    {
      databases[i].inHome == databases[k].inHome ==>
        !(PartPath(PathOf(i), j) <= PartPath(PathOf(k), l))
    }

    predicate IsDatabasePart(inHome: bool, p: Path)
      requires Rooted()
    {
      exists i :: 0 <= i < |databases| && databases[i].inHome == inHome && IsPart(PathOf(i), p)
    }

    predicate IsAboveDatabase(inHome: bool, p: Path)
      requires Rooted()
    {
      exists i :: 0 <= i < |databases| && databases[i].inHome == inHome && Above(p, PathOf(i))
    }
  }

  /** Everything a transaction can touch. The host root can be missing altogether; the home directory is meant
      without the SoulLink root, which may lie in it. */
  datatype Disk = Disk(host: Option<Tree>, home: Tree, runtime: Tree) {
    predicate IsDisk() {
      (host.Some? ==> IsTree(host.value)) && IsTree(home) && IsTree(runtime)
    }

    function At(inHome: bool): Tree {
      if inHome then home else runtime
    }

    function With(inHome: bool, t: Tree): Disk {
      if inHome then this.(home := t) else this.(runtime := t)
    }
  }

  // ----- the recovery point

  const NO_LAYOUT: Layout := RuntimeRestore.Layout({}, {})

  /** Which names and paths are known to belong to a database. */
  lemma KnownDatabases(c: Setting, name: string, p: Path)
    requires c.Valid()
    ensures name in c.HomeNames() <==>
            exists i :: 0 <= i < |c.databases| && c.databases[i] == Location(true, [name])
    ensures p in c.RuntimeDatabases() <==>
            exists i :: 0 <= i < |c.databases| && c.databases[i] == Location(false, p)
  {
    forall i | 0 <= i < |c.databases| && c.databases[i].inHome ensures |c.databases[i].path| == 1 {
      assert c.PlacedWell(i, 0);
      NoSuffix(c.PathOf(i));
    }
    if name in c.HomeNames() {
      var i :| 0 <= i < |c.databases| && c.databases[i].inHome && c.databases[i].path != []
               && c.databases[i].path[0] == name;
      assert c.databases[i].path == [name];
    }
  }

  /** A missing host root archives as an empty one. */
  function HostFiles(host: Option<Tree>): Files {
    if host.None? then map[] else Archive(NO_LAYOUT, host.value)
  }

  function StagedDirs(files: Files): set<Path> {
    set f, i | f in files && 0 < i < |f| :: f[..i]
  }

  /** The tree that extracting an archive of files gives. */
  function StagedFiles(files: Files): Tree {
    (map p | p in StagedDirs(files) :: Dir) + (map p | p in files :: File(files[p]))
  }

  /** Archives of host, profile and runtime, and a backup for each configured database. */
  datatype Point = Point(host: Files, profile: Tree, runtime: Files, backups: seq<Parts>)

  function RawParts(c: Setting, d: Disk): (all: seq<Parts>)
    requires c.Rooted()
    ensures |all| == |c.databases|
  {
    seq<Parts>(|c.databases|, i requires 0 <= i < |c.databases| => PartsOf(d.At(c.databases[i].inHome), c.PathOf(i)))
  }

  function SoleFile(content: string): Parts {
    [Some(content), None, None, None]
  }

  /** What restoring a backup leaves: the main file, without sidecars. */
  function Backups(c: Setting, d: Disk): (all: seq<Parts>)
    requires c.Rooted()
    ensures |all| == |c.databases|
  {
    seq<Parts>(|c.databases|, i requires 0 <= i < |c.databases| =>
      SoleFile(c.backup(PartsOf(d.At(c.databases[i].inHome), c.PathOf(i)))))
  }

  function Snapshot(c: Setting, d: Disk, full: bool): Point
    requires c.Rooted()
  {
    Point(HostFiles(d.host), Staged(c.Profile(full), d.home), Archive(c.Layout(full), d.runtime), Backups(c, d))
  }

  // ----- what a failing step may touch

  predicate HomeTouched(c: Setting, p: Path)
    requires c.Rooted()
  {
    c.Profile(false).Covers(p) || c.IsDatabasePart(true, p)
  }

  /** From `d`, the steps of a restore can lead to `d'`, wherever they break off. */
  predicate Mess(c: Setting, d: Disk, d': Disk)
    requires c.Rooted()
  {
    && d'.IsDisk()
    && (forall p :: p in d.home.Keys + d'.home.Keys && !HomeTouched(c, p) ==> SameAt(d'.home, d.home, p, p))
    && (forall p :: p in d.runtime.Keys + d'.runtime.Keys && c.Layout(false).Preserves(p) ==>
          SameAt(d'.runtime, d.runtime, p, p))
  }

  lemma MessAt(c: Setting, d: Disk, d': Disk)
    requires c.Valid() && Mess(c, d, d')
    ensures forall p :: !HomeTouched(c, p) ==> SameAt(d'.home, d.home, p, p)
    ensures PreservedSame(c.Layout(false), d'.runtime, d.runtime)
  {
    hide HomeTouched, Layout.Preserves, Disk.IsDisk;
  }

  lemma MakeMess(c: Setting, d: Disk, d': Disk)
    requires c.Valid() && d'.IsDisk()
    requires forall p :: !HomeTouched(c, p) ==> SameAt(d'.home, d.home, p, p)
    requires PreservedSame(c.Layout(false), d'.runtime, d.runtime)
    ensures Mess(c, d, d')
  {
    hide HomeTouched, Layout.Preserves, Disk.IsDisk;
  }

  lemma MessChains(c: Setting, d: Disk, d': Disk, d'': Disk)
    requires c.Valid() && Mess(c, d, d') && Mess(c, d', d'')
    ensures Mess(c, d, d'')
  {
    MessAt(c, d, d');
    MessAt(c, d', d'');
    PreservedChains(c.Layout(false), d''.runtime, d'.runtime, d.runtime);
    forall p | !HomeTouched(c, p) ensures SameAt(d''.home, d.home, p, p) {
      assert SameAt(d''.home, d'.home, p, p) && SameAt(d'.home, d.home, p, p);
    }
    MakeMess(c, d, d'');
  }

  // ----- databases on the disk

  function PutDatabase(c: Setting, d: Disk, i: nat, parts: Parts): Disk
    requires c.Rooted() && i < |c.databases|
  {
    d.With(c.databases[i].inHome, PutParts(d.At(c.databases[i].inHome), c.PathOf(i), parts))
  }

  ghost function PutDatabases(c: Setting, d: Disk, contents: seq<Parts>, n: nat): Disk
    requires c.Rooted() && n <= |c.databases| == |contents|
  {
    if n == 0 then d else PutDatabase(c, PutDatabases(c, d, contents, n - 1), n - 1, contents[n - 1])
  }

  /** Path `p` belongs to one of the first `n` databases. */
  ghost predicate PartOfFirst(c: Setting, inHome: bool, n: nat, p: Path)
    requires c.Rooted() && n <= |c.databases|
  {
    exists i :: 0 <= i < n && c.databases[i].inHome == inHome && IsPart(c.PathOf(i), p)
  }

  ghost predicate AboveFirst(c: Setting, inHome: bool, n: nat, p: Path)
    requires c.Rooted() && n <= |c.databases|
  {
    exists i :: 0 <= i < n && c.databases[i].inHome == inHome && Above(p, c.PathOf(i))
  }

  ghost predicate PartsHold(c: Setting, inHome: bool, r: Tree, contents: seq<Parts>, i: nat, p: Path)
    requires c.Rooted() && i < |c.databases| == |contents|
  {
    c.databases[i].inHome == inHome ==>
      forall j :: 0 <= j < 4 && p == PartPath(c.PathOf(i), j) ==> PartIs(r, p, contents[i][j])
  }

  /** Path `p` of `r` after the first `n` databases were put into `t`. */
  ghost predicate PutAt(c: Setting, inHome: bool, r: Tree, t: Tree, contents: seq<Parts>, n: nat, p: Path)
    requires c.Rooted() && n <= |c.databases| == |contents|
  {
    && (forall i :: 0 <= i < n ==> PartsHold(c, inHome, r, contents, i, p))
    && (!PartOfFirst(c, inHome, n, p) ==>
          if p in t then SameAt(r, t, p, p) else (p in r <==> AboveFirst(c, inHome, n, p)) && (p in r ==> r[p] == Dir))
  }

  lemma OnePart(c: Setting, i: nat, k: nat, p: Path)
    requires c.Valid() && i < |c.databases| && k < |c.databases| && i != k
    requires c.databases[i].inHome == c.databases[k].inHome && IsPart(c.PathOf(i), p)
    ensures !IsPart(c.PathOf(k), p) && !Above(p, c.PathOf(k))
  {
    var j :| 0 <= j < 4 && p == PartPath(c.PathOf(i), j);
    forall l | 0 <= l < 4 ensures p != PartPath(c.PathOf(k), l) {
      assert c.Apart(i, j, k, l);
    }
    assert c.Apart(i, j, k, 0);
    NoSuffix(c.PathOf(k));
  }

  lemma ValidIsRooted(c: Setting)
    requires c.Valid()
    ensures c.Rooted()
  {
  }

  lemma PartOfFirstGrows(c: Setting, inHome: bool, n: nat, p: Path)
    requires c.Rooted() && n < |c.databases|
    ensures PartOfFirst(c, inHome, n + 1, p) <==>
            PartOfFirst(c, inHome, n, p) || (c.databases[n].inHome == inHome && IsPart(c.PathOf(n), p))
  {
    hide IsPart, Setting.Rooted, Setting.PathOf;
  }

  lemma AboveFirstGrows(c: Setting, inHome: bool, n: nat, p: Path)
    requires c.Rooted() && n < |c.databases|
    ensures AboveFirst(c, inHome, n + 1, p) <==>
            AboveFirst(c, inHome, n, p) || (c.databases[n].inHome == inHome && Above(p, c.PathOf(n)))
  {
    hide Above, Setting.Rooted, Setting.PathOf;
  }

  lemma NextApart(c: Setting, inHome: bool, n: nat, p: Path)
    requires c.Valid() && c.Rooted() && n < |c.databases|
    requires PartOfFirst(c, inHome, n, p) && c.databases[n].inHome == inHome
    ensures !IsPart(c.PathOf(n), p) && !Above(p, c.PathOf(n))
  {
    hide IsPart, Above, Setting.Valid, Setting.Rooted, Setting.PathOf;
    var i :| 0 <= i < n && c.databases[i].inHome == inHome && IsPart(c.PathOf(i), p);
    OnePart(c, i, n, p);
  }

  lemma PartsStayHeld(c: Setting, inHome: bool, r: Tree, r': Tree, contents: seq<Parts>, n: nat, p: Path)
    requires c.Rooted() && n <= |c.databases| == |contents|
    requires forall i :: 0 <= i < n ==> PartsHold(c, inHome, r, contents, i, p)
    requires PartOfFirst(c, inHome, n, p) ==> SameAt(r', r, p, p)
    ensures forall i :: 0 <= i < n ==> PartsHold(c, inHome, r', contents, i, p)
  {
    hide Setting.Rooted, Setting.PathOf;
    forall i | 0 <= i < n ensures PartsHold(c, inHome, r', contents, i, p) {
      assert PartsHold(c, inHome, r, contents, i, p);
      assert c.databases[i].inHome == inHome && IsPart(c.PathOf(i), p) ==> PartOfFirst(c, inHome, n, p);
    }
  }

  lemma NewPartsHold(c: Setting, r: Tree, contents: seq<Parts>, n: nat, p: Path)
    requires c.Rooted() && n < |c.databases| == |contents|
    ensures PartsHold(c, c.databases[n].inHome, PutParts(r, c.PathOf(n), contents[n]), contents, n, p)
  {
    PutPartsAt(r, c.PathOf(n), contents[n], p);
    hide PutParts, PartIs, Setting.Rooted, Setting.PathOf;
  }

  lemma SameOutside(t: Tree, d: Path, parts: Parts, p: Path)
    requires d != [] && !IsPart(d, p) && !Above(p, d)
    ensures SameAt(PutParts(t, d, parts), t, p, p)
  {
    PutPartsAt(t, d, parts, p);
  }

  /** One more database put into the tree that has the first `n`. */
  lemma PutOneMoreAt(c: Setting, r: Tree, t: Tree, contents: seq<Parts>, n: nat, p: Path)
    requires c.Valid() && n < |c.databases| == |contents|
    requires PutAt(c, c.databases[n].inHome, r, t, contents, n, p)
    ensures PutAt(c, c.databases[n].inHome, PutParts(r, c.PathOf(n), contents[n]), t, contents, n + 1, p)
  {
    hide PutParts, PartOfFirst, AboveFirst, IsPart, Above, PartIs, PartsHold, Setting.Valid, Setting.Rooted,
      Setting.PathOf;
    ValidIsRooted(c);
    var inHome, d := c.databases[n].inHome, c.PathOf(n);
    var r' := PutParts(r, d, contents[n]);
    PutPartsAt(r, d, contents[n], p);
    PartOfFirstGrows(c, inHome, n, p);
    AboveFirstGrows(c, inHome, n, p);
    NewPartsHold(c, r, contents, n, p);
    if PartOfFirst(c, inHome, n, p) {
      NextApart(c, inHome, n, p);
      SameOutside(r, d, contents[n], p);
    }
    PartsStayHeld(c, inHome, r, r', contents, n, p);
  }

  lemma {:induction false} PutDatabasesAt(c: Setting, d: Disk, contents: seq<Parts>, n: nat, inHome: bool, p: Path)
    requires c.Valid() && n <= |c.databases| == |contents|
    ensures c.Rooted() && PutAt(c, inHome, PutDatabases(c, d, contents, n).At(inHome), d.At(inHome), contents, n, p)
  {
    hide PutParts, PartOfFirst, AboveFirst, PartsHold, Setting.Valid, Setting.Rooted, Setting.PathOf;
    ValidIsRooted(c);
    if n > 0 {
      PutDatabasesAt(c, d, contents, n - 1, inHome, p);
      var before := PutDatabases(c, d, contents, n - 1);
      hide PutAt;
      if c.databases[n - 1].inHome == inHome {
        PutOneMoreAt(c, before.At(inHome), d.At(inHome), contents, n - 1, p);
      } else {
        OtherPlace(c, inHome, before.At(inHome), d.At(inHome), contents, n - 1, p);
      }
    } else {
      NothingPutAt(c, inHome, d.At(inHome), contents, p);
    }
  }

  lemma NothingPutAt(c: Setting, inHome: bool, t: Tree, contents: seq<Parts>, p: Path)
    requires c.Rooted() && |contents| == |c.databases|
    ensures PutAt(c, inHome, t, t, contents, 0, p)
  {
  }

  lemma OtherPlace(c: Setting, inHome: bool, r: Tree, t: Tree, contents: seq<Parts>, n: nat, p: Path)
    requires c.Valid() && n < |c.databases| == |contents| && c.databases[n].inHome != inHome
    requires c.Rooted() && PutAt(c, inHome, r, t, contents, n, p)
    ensures PutAt(c, inHome, r, t, contents, n + 1, p)
  {
    hide PartOfFirst, AboveFirst, IsPart, Above, Setting.Valid, Setting.Rooted, Setting.PathOf;
    PartOfFirstGrows(c, inHome, n, p);
    AboveFirstGrows(c, inHome, n, p);
  }

  // ----- the host

  /** Every directory has a file below it, so an archive of files loses none. */
  ghost predicate Solid(t: Tree) {
    forall p :: p in t && t[p].Dir? ==> NeededDir(HostFiles(Some(t)), p)
  }

  lemma HostFilesAt(t: Tree, p: Path)
    ensures p in HostFiles(Some(t)) <==> p in t && t[p].File?
    ensures p in HostFiles(Some(t)) ==> File(HostFiles(Some(t))[p]) == t[p]
  {
  }

  lemma StagedFilesAt(files: Files, p: Path)
    ensures if p in files then p in StagedFiles(files) && StagedFiles(files)[p] == File(files[p])
            else if NeededDir(files, p) then p in StagedFiles(files) && StagedFiles(files)[p] == Dir
            else p !in StagedFiles(files)
  {
    if NeededDir(files, p) {
      var q :| q in files && p < q;
      assert p == q[..|p|];
      assert p in StagedDirs(files);
    }
    if p in StagedDirs(files) {
      var f, i :| f in files && 0 < i < |f| && p == f[..i];
      assert p < f;
    }
  }

  /** The host restored from its archive is the host exactly if it was solid. */
  lemma HostExact(t: Tree)
    requires IsTree(t)
    ensures StagedFiles(HostFiles(Some(t))) == t <==> Solid(t)
  {
    var files := HostFiles(Some(t));
    hide HostFiles, StagedFiles;
    forall p ensures SameAt(StagedFiles(files), t, p, p) <==> (p in t && t[p].Dir? ==> NeededDir(files, p)) {
      StagedFilesAt(files, p);
      HostFilesAt(t, p);
      if NeededDir(files, p) {
        var q :| q in files && p < q;
        HostFilesAt(t, q);
        PrefixInTree(t, p, q);
      }
    }
    if Solid(t) {
      SameTrees(StagedFiles(files), t);
    }
  }

  lemma StagedFilesIsTree(host: Option<Tree>)
    requires host.Some? ==> IsTree(host.value)
    ensures IsTree(StagedFiles(HostFiles(host)))
  {
    var files := HostFiles(host);
    var staged := StagedFiles(files);
    forall p | p in files ensures p != [] && host.Some? && p in host.value && host.value[p].File? {
    }
    hide HostFiles, StagedFiles;
    forall p | p in staged && |p| > 1 ensures p[..|p| - 1] in staged && staged[p[..|p| - 1]].Dir? {
      var up := p[..|p| - 1];
      StagedFilesAt(files, p);
      StagedFilesAt(files, up);
      assert up < p;
      if p in files {
        PrefixInTree(host.value, up, p);
      } else {
        var q :| q in files && p < q;
        assert up < q;
        PrefixInTree(host.value, up, q);
      }
    }
    StagedFilesAt(files, []);
  }

  // ----- what a successful application leaves

  /** The runtime tree after `_restore_soullink`: overlaid, unless a file found a directory in its place. */
  ghost predicate RuntimePut(c: Setting, full: bool, s: Tree, t: Tree, r: Tree)
    requires c.Valid()
  {
    var left, files := Remaining(c.Layout(full), t, t.Keys), Archive(c.Layout(full), s);
    && IsTree(r)
    && PreservedSame(c.Layout(full), r, t)
    && if Clash(left, files) then SomeMisplaced(r, left, files) else Overlaid(r, left, files)
  }

  /** Host, profile and runtime of `s` put over `t`. */
  ghost predicate TreesPut(c: Setting, full: bool, s: Disk, t: Disk, m: Disk)
    requires c.Valid()
  {
    && m.host == Some(StagedFiles(HostFiles(s.host)))
    && m.home == WithProfile(c.Profile(full), t.home, Staged(c.Profile(full), s.home))
    && RuntimePut(c, full, s.runtime, t.runtime, m.runtime)
  }

  /** The directories each database needs are there. */
  ghost predicate DatabasesReachable(c: Setting, d: Disk)
    requires c.Rooted()
  {
    forall i, p :: 0 <= i < |c.databases| && Above(p, c.PathOf(i)) ==> DirAt(d.At(c.databases[i].inHome), p)
  }

  predicate DirAt(t: Tree, p: Path) {
    p in t && t[p].Dir?
  }

  predicate NoPartIsDir(c: Setting, d: Disk)
    requires c.Rooted()
  {
    forall i, j :: 0 <= i < |c.databases| && 0 <= j < 4 ==>
        !DirAt(d.At(c.databases[i].inHome), PartPath(c.PathOf(i), j))
  }

  // ----- the runtime, path by path

  /** A directory of the runtime comes back if something calls for it: an archived file, something protected, a
      database. And what is called for must have been a directory. */
  ghost predicate RuntimeFitsAt(c: Setting, full: bool, s: Tree, t: Tree, p: Path)
    requires c.Valid()
  {
    var kept := HasProtectedBelow(c.Layout(full), t, p) || c.IsAboveDatabase(false, p);
    && (DirAt(s, p) ==> NeededDir(Archive(c.Layout(full), s), p) || kept)
    && (p != [] && kept ==> DirAt(s, p))
  }

  ghost predicate RuntimeFits(c: Setting, full: bool, s: Tree, t: Tree)
    requires c.Valid()
  {
    forall p :: !c.Layout(false).Preserves(p) && !c.IsDatabasePart(false, p) ==> RuntimeFitsAt(c, full, s, t, p)
  }

  lemma LayoutIsValid(c: Setting, full: bool)
    requires c.Valid()
    ensures c.Layout(full).Valid() && c.Layout(full).NoEcho()
    ensures forall p :: c.Layout(full).Preserves(p) <==> c.Layout(false).Preserves(p)
  {
    assert forall i :: 0 <= i < |c.databases| ==> c.PathOf(i) != [];
  }

  lemma PartIsSkipped(c: Setting, p: Path)
    requires c.Rooted() && c.Layout(true).Valid() && c.IsDatabasePart(false, p)
    ensures c.Layout(true).DeleteSkips(p)
  {
    var i :| 0 <= i < |c.databases| && c.databases[i].inHome == false && IsPart(c.PathOf(i), p);
    NoSuffix(c.PathOf(i));
    assert c.PathOf(i) in c.RuntimeDatabases();
  }

  /** The paths protected are the files of the databases, if these are known, and what is preserved. */
  lemma SkipsAre(c: Setting, full: bool, p: Path)
    requires c.Valid() && c.Layout(full).Valid()
    ensures c.Layout(full).DeleteSkips(p) <==> c.Layout(false).Preserves(p) || (full && c.IsDatabasePart(false, p))
  {
    ValidIsRooted(c);
    hide Setting.Valid, Setting.Rooted, Setting.IsDatabasePart, Layout.Valid;
    if full && c.IsDatabasePart(false, p) {
      PartIsSkipped(c, p);
    }
    if full && c.Layout(full).DeleteSkips(p) && !c.Layout(false).Preserves(p) {
      DatabaseSkips(c, p);
    }
  }

  lemma DatabaseSkips(c: Setting, p: Path)
    requires c.Valid() && c.Layout(true).Valid()
    requires c.Layout(true).DeleteSkips(p) && !c.Layout(false).Preserves(p)
    ensures c.IsDatabasePart(false, p)
  {
    var d :| d in c.RuntimeDatabases()
      && (p == d || p == WithSuffix(d, "-wal") || p == WithSuffix(d, "-shm") || p == WithSuffix(d, "-journal"));
    NoSuffix(d);
    var i :| 0 <= i < |c.databases| && !c.databases[i].inHome && d == c.databases[i].path;
    assert d == c.PathOf(i);
    assert p == PartPath(d, 0) || p == PartPath(d, 1) || p == PartPath(d, 2) || p == PartPath(d, 3);
    assert IsPart(c.PathOf(i), p);
  }

  lemma PartsAreAll(c: Setting, inHome: bool, p: Path)
    requires c.Rooted()
    ensures c.IsDatabasePart(inHome, p) <==> PartOfFirst(c, inHome, |c.databases|, p)
    ensures c.IsAboveDatabase(inHome, p) <==> AboveFirst(c, inHome, |c.databases|, p)
  {
    hide Setting.Rooted, Setting.PathOf, IsPart, Above;
  }

  /** One path of the runtime, with no misplaced file, that belongs to no database. */
  lemma RuntimeAt(c: Setting, full: bool, s: Tree, t: Tree, r: Tree, fin: Tree, contents: seq<Parts>, p: Path)
    requires c.Valid() && c.Rooted() && IsTree(s) && IsTree(t) && |contents| == |c.databases|
    requires RuntimePut(c, full, s, t, r) && !Clash(Remaining(c.Layout(full), t, t.Keys), Archive(c.Layout(full), s))
    requires PutAt(c, false, fin, r, contents, |c.databases|, p) && !c.IsDatabasePart(false, p)
    requires c.IsAboveDatabase(false, p) ==> DirAt(fin, p)
    ensures c.Layout(false).Preserves(p) && !c.IsAboveDatabase(false, p) ==> SameAt(fin, t, p, p)
    ensures !c.Layout(false).Preserves(p) ==> (SameAt(fin, s, p, p) <==> RuntimeFitsAt(c, full, s, t, p))
  {
    var lay := c.Layout(full);
    var left, files := Remaining(lay, t, t.Keys), Archive(lay, s);
    LayoutIsValid(c, full);
    SkipsAre(c, full, p);
    PartsAreAll(c, false, p);
    ArchiveHolds(lay, s, p);
    LeftHolds(lay, t, left, p);
    assert OverlaidAt(r, left, files, p);
    assert c.Layout(false).Preserves(p) ==> SameAt(r, t, p, p);
    hide Setting.Valid, Setting.Rooted, Setting.IsDatabasePart, Setting.IsAboveDatabase, PartOfFirst, AboveFirst,
      PartsHold, Layout.DeleteSkips, Layout.Preserves, HasProtectedBelow, Remaining, Archive, NeededDir, IsTree,
      Clash, Overlaid, RuntimePut, PreservedSame, Layout.Valid, Layout.NoEcho;
    assert p != [] || p !in s;
  }

  lemma PreservedBelow(lay: Layout, p: Path, q: Path)
    requires lay.Preserves(p)
    ensures p <= q ==> lay.Preserves(q)
  {
    var r :| r in lay.preserved && r <= p;
    assert p <= q ==> r <= q;
  }

  lemma PreservedHasNoDatabase(c: Setting, p: Path)
    requires c.Valid() && c.Rooted() && c.Layout(false).Preserves(p)
    ensures !c.IsDatabasePart(false, p) && !c.IsAboveDatabase(false, p)
  {
    forall i | 0 <= i < |c.databases| && !c.databases[i].inHome
      ensures !IsPart(c.PathOf(i), p) && !Above(p, c.PathOf(i))
    {
      NoSuffix(c.PathOf(i));
      assert c.PlacedWell(i, 0);
      PreservedBelow(c.Layout(false), p, c.PathOf(i));
      forall j | 0 <= j < 4 ensures p != PartPath(c.PathOf(i), j) {
        assert c.PlacedWell(i, j);
      }
    }
  }

  lemma HomeDatabasesOnTop(c: Setting, p: Path)
    requires c.Valid() && c.Rooted()
    ensures c.IsDatabasePart(true, p) ==> |p| == 1 && p != [PLUGINS]
    ensures !c.IsAboveDatabase(true, p)
  {
    forall i | 0 <= i < |c.databases| && c.databases[i].inHome
      ensures IsPart(c.PathOf(i), p) ==> |p| == 1 && p != [PLUGINS]
      ensures !Above(p, c.PathOf(i))
    {
      NoSuffix(c.PathOf(i));
      assert c.PlacedWell(i, 0);
      forall j | 0 <= j < 4 ensures p == PartPath(c.PathOf(i), j) ==> |p| == 1 && p != [PLUGINS] {
        assert c.PlacedWell(i, j);
      }
    }
  }

  /** A misplaced file is a path of the archive at which a directory now stands. */
  lemma MisplacedAt(c: Setting, s: Tree, t: Tree, r: Tree, fin: Tree, contents: seq<Parts>, p: Path)
    requires c.Valid() && c.Rooted() && IsTree(s) && IsTree(t) && |contents| == |c.databases|
    requires p in Archive(c.Layout(true), s) && DirAt(Remaining(c.Layout(true), t, t.Keys), p) && DirAt(r, p)
    requires PutAt(c, false, fin, r, contents, |c.databases|, p)
    ensures !c.Layout(false).Preserves(p) && !c.IsDatabasePart(false, p)
    ensures !SameAt(fin, s, p, p) && !RuntimeFitsAt(c, true, s, t, p)
  {
    var lay := c.Layout(true);
    var left := Remaining(lay, t, t.Keys);
    LayoutIsValid(c, true);
    SkipsAre(c, true, p);
    PartsAreAll(c, false, p);
    ArchiveHolds(lay, s, p);
    LeftHolds(lay, t, left, p);
    hide Setting.Valid, Setting.Rooted, Setting.IsDatabasePart, Setting.IsAboveDatabase, PartOfFirst, AboveFirst,
      PartsHold, Layout.DeleteSkips, Layout.Preserves, HasProtectedBelow, Remaining, Archive, NeededDir, IsTree,
      Layout.Valid, Layout.NoEcho;
  }

  lemma MisplacedNeverFits(c: Setting, s: Tree, t: Tree, r: Tree, fin: Tree, contents: seq<Parts>)
    requires c.Valid() && c.Rooted() && IsTree(s) && IsTree(t) && |contents| == |c.databases|
    requires RuntimePut(c, true, s, t, r) && Clash(Remaining(c.Layout(true), t, t.Keys), Archive(c.Layout(true), s))
    requires forall p :: PutAt(c, false, fin, r, contents, |c.databases|, p)
    ensures exists p :: !c.Layout(false).Preserves(p) && !c.IsDatabasePart(false, p) && !SameAt(fin, s, p, p)
    ensures !RuntimeFits(c, true, s, t)
  {
    LayoutIsValid(c, true);
    hide Setting.Valid, Setting.Rooted, PutAt, IsTree, RuntimeFitsAt, Setting.IsDatabasePart, Layout.Preserves;
    var left, files := Remaining(c.Layout(true), t, t.Keys), Archive(c.Layout(true), s);
    var p :| p in files && p in left && left[p].Dir? && p in r && r[p].Dir?;
    MisplacedAt(c, s, t, r, fin, contents, p);
  }

  // ----- the recovery point reached

  ghost predicate PartsAt(c: Setting, inHome: bool, r: Tree, contents: seq<Parts>, p: Path)
    requires c.Rooted() && |contents| == |c.databases|
  {
    forall i :: 0 <= i < |c.databases| ==> PartsHold(c, inHome, r, contents, i, p)
  }

  /** `d` is the recovery point `s`: host, profile and runtime of `s`, its databases as their backups restore them,
      and the rest of the home directory and what lies below the preserved roots as in `t`. */
  ghost predicate IsRecovered(c: Setting, s: Disk, t: Disk, d: Disk)
    requires c.Valid() && c.Rooted()
  {
    && d.host == s.host
    && (forall p :: HomeRecoveredAt(c, s, t, d, p))
    && (forall p :: RuntimeRecoveredAt(c, s, t, d, p))
  }

  ghost predicate HomeRecoveredAt(c: Setting, s: Disk, t: Disk, d: Disk, p: Path)
    requires c.Valid() && c.Rooted()
  {
    if c.IsDatabasePart(true, p) then PartsAt(c, true, d.home, Backups(c, s), p)
    else if c.Profile(true).Covers(p) then SameAt(d.home, s.home, p, p)
    else SameAt(d.home, t.home, p, p)
  }

  ghost predicate RuntimeRecoveredAt(c: Setting, s: Disk, t: Disk, d: Disk, p: Path)
    requires c.Valid() && c.Rooted()
  {
    if c.IsDatabasePart(false, p) then PartsAt(c, false, d.runtime, Backups(c, s), p)
    else if c.Layout(false).Preserves(p) then SameAt(d.runtime, t.runtime, p, p)
    else SameAt(d.runtime, s.runtime, p, p)
  }

  /** What the archives of `s` lose is not missed: solid host, whole profile, fitting runtime. */
  ghost predicate Recoverable(c: Setting, s: Disk, t: Disk)
    requires c.Valid()
  {
    s.host.Some? && Solid(s.host.value) && Whole(c.Profile(true), s.home) && RuntimeFits(c, true, s.runtime, t.runtime)
  }

  /** A home path that belongs to no database is the restored profile's. */
  lemma HomeAt(c: Setting, full: bool, s: Tree, t: Tree, fin: Tree, contents: seq<Parts>, p: Path)
    requires c.Valid() && c.Rooted() && |contents| == |c.databases|
    requires PutAt(c, true, fin, WithProfile(c.Profile(full), t, Staged(c.Profile(full), s)), contents, |c.databases|,
                   p)
    requires !c.IsDatabasePart(true, p)
    ensures SameAt(fin, WithProfile(c.Profile(full), t, Staged(c.Profile(full), s)), p, p)
  {
    HomeDatabasesOnTop(c, p);
    PartsAreAll(c, true, p);
    hide Setting.Valid, Setting.Rooted, Setting.IsDatabasePart, Setting.IsAboveDatabase, PartOfFirst, AboveFirst,
      PartsHold, WithProfile, Staged;
  }

  /** The files of databases aside, the restored profile is the archived one exactly when that was whole. */
  lemma HomeIff(c: Setting, full: bool, s: Tree, t: Tree, r: Tree)
    requires c.Valid() && c.Rooted() && IsTree(s) && r == WithProfile(c.Profile(full), t, Staged(c.Profile(full), s))
    ensures (forall p :: !c.IsDatabasePart(true, p) ==> ProfileIsAt(c.Profile(full), r, s, t, p)) <==>
            Whole(c.Profile(full), s)
  {
    var prof := c.Profile(full);
    ProfileExact(prof, s, t);
    forall p | c.IsDatabasePart(true, p) ensures ProfileIsAt(prof, r, s, t, p) {
      HomeDatabasesOnTop(c, p);
      TopIsKept(prof, s, t, p);
    }
    hide Setting.Valid, Setting.Rooted, Setting.IsDatabasePart, WithProfile, Staged, Whole, IsTree, ProfileIsAt;
  }

  lemma {:induction false} HostUntouched(c: Setting, d: Disk, contents: seq<Parts>, n: nat)
    requires c.Rooted() && n <= |c.databases| == |contents|
    ensures PutDatabases(c, d, contents, n).host == d.host
  {
    hide PutParts;
    if n > 0 {
      HostUntouched(c, d, contents, n - 1);
    }
  }

  lemma AllPartsAt(c: Setting, inHome: bool, r: Tree, t: Tree, contents: seq<Parts>, p: Path)
    requires c.Rooted() && |contents| == |c.databases| && PutAt(c, inHome, r, t, contents, |c.databases|, p)
    ensures PartsAt(c, inHome, r, contents, p)
  {
    hide PartsHold;
  }

  /** After the databases are put in: their files as asked for, every other home path as the profile left it. */
  lemma HomePutAt(c: Setting, full: bool, s: Tree, t: Tree, m: Disk, contents: seq<Parts>, d: Disk, p: Path)
    requires c.Valid() && c.Rooted() && |contents| == |c.databases|
    requires m.home == WithProfile(c.Profile(full), t, Staged(c.Profile(full), s))
    requires d == PutDatabases(c, m, contents, |c.databases|)
    ensures PartsAt(c, true, d.home, contents, p)
    ensures !c.IsDatabasePart(true, p) ==> SameAt(d.home, m.home, p, p)
  {
    PutDatabasesAt(c, m, contents, |c.databases|, true, p);
    AllPartsAt(c, true, d.home, m.home, contents, p);
    if !c.IsDatabasePart(true, p) {
      HomeAt(c, full, s, t, d.home, contents, p);
    }
  }

  lemma RuntimePutAt(c: Setting, m: Disk, contents: seq<Parts>, d: Disk, p: Path)
    requires c.Valid() && c.Rooted() && |contents| == |c.databases|
    requires d == PutDatabases(c, m, contents, |c.databases|) && DatabasesReachable(c, d)
    ensures PutAt(c, false, d.runtime, m.runtime, contents, |c.databases|, p)
    ensures PartsAt(c, false, d.runtime, contents, p)
    ensures c.IsAboveDatabase(false, p) ==> DirAt(d.runtime, p)
  {
    PutDatabasesAt(c, m, contents, |c.databases|, false, p);
    AllPartsAt(c, false, d.runtime, m.runtime, contents, p);
    hide Setting.Valid, PutDatabases;
    if c.IsAboveDatabase(false, p) {
      var i :| 0 <= i < |c.databases| && c.databases[i].inHome == false && Above(p, c.PathOf(i));
      assert DirAt(d.At(c.databases[i].inHome), p);
    }
  }

  lemma HomeRecoveredIff(c: Setting, s: Disk, t: Disk, m: Disk, d: Disk)
    requires c.Valid() && c.Rooted() && IsTree(s.home) && TreesPut(c, true, s, t, m)
    requires d == PutDatabases(c, m, Backups(c, s), |c.databases|)
    ensures (forall p :: HomeRecoveredAt(c, s, t, d, p)) <==> Whole(c.Profile(true), s.home)
  {
    hide Setting.Valid, Setting.Rooted, Setting.IsDatabasePart, PutDatabases, Backups, PartsAt, WithProfile, Staged,
      Whole, IsTree, Profile.Covers, RuntimePut;
    var contents := Backups(c, s);
    HomeIff(c, true, s.home, t.home, m.home);
    forall p
      ensures HomeRecoveredAt(c, s, t, d, p) <==>
              c.IsDatabasePart(true, p) || ProfileIsAt(c.Profile(true), m.home, s.home, t.home, p)
    {
      HomePutAt(c, true, s.home, t.home, m, contents, d, p);
    }
    hide HomeRecoveredAt, ProfileIsAt;
  }

  lemma RuntimeRecoveredIff(c: Setting, s: Disk, t: Disk, m: Disk, d: Disk)
    requires c.Valid() && c.Rooted() && s.IsDisk() && t.IsDisk() && TreesPut(c, true, s, t, m)
    requires d == PutDatabases(c, m, Backups(c, s), |c.databases|) && DatabasesReachable(c, d)
    ensures (forall p :: RuntimeRecoveredAt(c, s, t, d, p)) <==> RuntimeFits(c, true, s.runtime, t.runtime)
  {
    LayoutIsValid(c, true);
    hide PutDatabases, Backups, PartsAt, Setting.Valid, Setting.Rooted, DatabasesReachable, Layout.Valid,
      Layout.NoEcho, PutAt, Setting.IsDatabasePart, Setting.IsAboveDatabase, Layout.Preserves, RuntimeFitsAt, Clash,
      RuntimePut, IsTree, WithProfile, Staged, StagedFiles, HostFiles;
    var contents := Backups(c, s);
    forall p
      ensures PutAt(c, false, d.runtime, m.runtime, contents, |c.databases|, p)
      ensures PartsAt(c, false, d.runtime, contents, p)
    {
      RuntimePutAt(c, m, contents, d, p);
    }
    if Clash(Remaining(c.Layout(true), t.runtime, t.runtime.Keys), Archive(c.Layout(true), s.runtime)) {
      MisplacedNeverFits(c, s.runtime, t.runtime, m.runtime, d.runtime, contents);
      var p :| !c.Layout(false).Preserves(p) && !c.IsDatabasePart(false, p) && !SameAt(d.runtime, s.runtime, p, p);
      assert !RuntimeRecoveredAt(c, s, t, d, p);
    } else {
      forall p
        ensures RuntimeRecoveredAt(c, s, t, d, p) <==>
                c.IsDatabasePart(false, p) || c.Layout(false).Preserves(p)
                    || RuntimeFitsAt(c, true, s.runtime, t.runtime, p)
      {
        if !c.IsDatabasePart(false, p) {
          RuntimePutAt(c, m, contents, d, p);
          RuntimeAt(c, true, s.runtime, t.runtime, m.runtime, d.runtime, contents, p);
          if c.Layout(false).Preserves(p) {
            PreservedHasNoDatabase(c, p);
          }
        }
      }
      hide RuntimeRecoveredAt;
    }
  }

  lemma HostRecoveredIff(c: Setting, s: Disk, t: Disk, m: Disk, d: Disk)
    requires c.Valid() && c.Rooted() && s.IsDisk() && TreesPut(c, true, s, t, m)
    requires d == PutDatabases(c, m, Backups(c, s), |c.databases|)
    ensures d.host == s.host <==> s.host.Some? && Solid(s.host.value)
  {
    hide Setting.Valid, Setting.Rooted, PutDatabases, RuntimePut, WithProfile, Staged, StagedFiles, HostFiles, IsTree,
      Solid;
    HostUntouched(c, m, Backups(c, s), |c.databases|);
    if s.host.Some? {
      HostExact(s.host.value);
    }
  }

  /** A restore that went through has reached the recovery point exactly when that was recoverable. */
  lemma RecoveredIff(c: Setting, s: Disk, t: Disk, m: Disk, d: Disk)
    requires c.Valid() && c.Rooted() && s.IsDisk() && t.IsDisk() && TreesPut(c, true, s, t, m)
    requires d == PutDatabases(c, m, Backups(c, s), |c.databases|) && DatabasesReachable(c, d)
    ensures IsRecovered(c, s, t, d) <==> Recoverable(c, s, t)
  {
    hide IsTree, Setting.Valid, Setting.Rooted, PutDatabases, HomeRecoveredAt, RuntimeRecoveredAt, RuntimeFits, Whole,
      Solid, StagedFiles, HostFiles, TreesPut, DatabasesReachable;
    HostRecoveredIff(c, s, t, m, d);
    HomeRecoveredIff(c, s, t, m, d);
    RuntimeRecoveredIff(c, s, t, m, d);
  }

  // ----- the state before put back

  /** What the archives of `o` lose is not missed when they are laid over what a failed restore left of `o`, and its
      databases are files. */
  ghost predicate Compensable(c: Setting, o: Disk)
    requires c.Valid() && c.Rooted()
  {
    && o.host.Some? && Solid(o.host.value) && Whole(c.Profile(false), o.home)
    && RuntimeFits(c, false, o.runtime, o.runtime)
    && NoPartIsDir(c, o)
  }

  /** Protected is only what is preserved, and a failed restore leaves that alone. */
  lemma SameProtectedBelow(c: Setting, o: Tree, t: Tree, p: Path)
    requires c.Valid() && PreservedSame(c.Layout(false), t, o)
    ensures c.Layout(false).Valid()
              && (HasProtectedBelow(c.Layout(false), t, p) <==> HasProtectedBelow(c.Layout(false), o, p))
  {
    LayoutIsValid(c, false);
    var lay := c.Layout(false);
    forall q ensures lay.DeleteSkips(q) ==> SameAt(t, o, q, q) {
      SkipsAre(c, false, q);
    }
    hide Layout.DeleteSkips, Setting.Valid, PreservedSame, Layout.Valid, Layout.NoEcho;
    if HasProtectedBelow(lay, t, p) {
      var q :| q in t && p < q && lay.DeleteSkips(q);
      assert q in o;
    }
    if HasProtectedBelow(lay, o, p) {
      var q :| q in o && p < q && lay.DeleteSkips(q);
      assert q in t;
    }
  }

  /** No archived file of `o` finds a directory in its place, or a file above it. */
  lemma CompensationNeverClashes(c: Setting, o: Tree, t: Tree)
    requires c.Valid() && IsTree(o) && IsTree(t) && PreservedSame(c.Layout(false), t, o)
    ensures c.Layout(false).Valid()
    ensures !Clash(Remaining(c.Layout(false), t, t.Keys), Archive(c.Layout(false), o))
  {
    LayoutIsValid(c, false);
    var lay := c.Layout(false);
    var left, files := Remaining(lay, t, t.Keys), Archive(lay, o);
    forall p | p in files ensures !ClashAt(left, p) {
      SkipsAre(c, false, p);
      ArchiveHolds(lay, o, p);
      LeftHolds(lay, t, left, p);
      SameProtectedBelow(c, o, t, p);
      if HasProtectedBelow(lay, o, p) {
        var q :| q in o && p < q && lay.DeleteSkips(q);
        PrefixInTree(o, p, q);
      }
      forall i | 0 < i < |p| ensures !(p[..i] in left && left[p[..i]].File?) {
        SkipsAre(c, false, p[..i]);
        PreservedBelow2(lay, p[..i], p);
        LeftHolds(lay, t, left, p[..i]);
      }
    }
  }

  lemma PreservedBelow2(lay: Layout, p: Path, q: Path)
    requires p <= q && !lay.Preserves(q)
    ensures !lay.Preserves(p)
  {
    if lay.Preserves(p) {
      PreservedBelow(lay, p, q);
    }
  }

  /** The raw copies put a part back as it was, unless it was a directory. */
  lemma RawPartBack(c: Setting, o: Disk, inHome: bool, r: Tree, p: Path)
    requires c.Valid() && c.Rooted() && c.IsDatabasePart(inHome, p) && PartsAt(c, inHome, r, RawParts(c, o), p)
    ensures SameAt(r, o.At(inHome), p, p) <==> !DirAt(o.At(inHome), p)
  {
    hide Setting.Valid, Setting.Rooted;
    var i :| 0 <= i < |c.databases| && c.databases[i].inHome == inHome && IsPart(c.PathOf(i), p);
    assert PartsHold(c, inHome, r, RawParts(c, o), i, p);
    var j :| 0 <= j < 4 && p == PartPath(c.PathOf(i), j);
    assert PartIs(r, p, RawParts(c, o)[i][j]);
  }

  lemma PartsAreFiles(c: Setting, o: Disk)
    requires c.Rooted()
    ensures NoPartIsDir(c, o) <==>
            (forall p :: c.IsDatabasePart(true, p) ==> !DirAt(o.home, p)) &&
            (forall p :: c.IsDatabasePart(false, p) ==> !DirAt(o.runtime, p))
  {
    hide Setting.Rooted, Setting.PathOf, PartPath;
    if NoPartIsDir(c, o) {
      forall inHome, p | c.IsDatabasePart(inHome, p) ensures !DirAt(o.At(inHome), p) {
        var i :| 0 <= i < |c.databases| && c.databases[i].inHome == inHome && IsPart(c.PathOf(i), p);
        var j :| 0 <= j < 4 && p == PartPath(c.PathOf(i), j);
      }
      assert o.At(true) == o.home && o.At(false) == o.runtime;
    }
    if !NoPartIsDir(c, o) {
      var i, j :| 0 <= i < |c.databases| && 0 <= j < 4 && DirAt(o.At(c.databases[i].inHome), PartPath(c.PathOf(i), j));
      assert IsPart(c.PathOf(i), PartPath(c.PathOf(i), j));
      assert c.IsDatabasePart(c.databases[i].inHome, PartPath(c.PathOf(i), j));
    }
  }

  lemma HomeCompensatedAt(c: Setting, o: Disk, t: Disk, m: Disk, d: Disk, p: Path)
    requires c.Valid() && c.Rooted() && Mess(c, o, t) && TreesPut(c, false, o, t, m)
    requires d == PutDatabases(c, m, RawParts(c, o), |c.databases|)
    ensures SameAt(d.home, o.home, p, p) <==>
            if c.IsDatabasePart(true, p) then !DirAt(o.home, p)
            else ProfileIsAt(c.Profile(false), m.home, o.home, t.home, p)
  {
    hide Setting.Valid, Setting.Rooted, Setting.IsDatabasePart, PutDatabases, RawParts, PartsAt, WithProfile, Staged,
      RuntimePut, Profile.Covers, StagedFiles, HostFiles;
    MessAt(c, o, t);
    HomePutAt(c, false, o.home, t.home, m, RawParts(c, o), d, p);
    if c.IsDatabasePart(true, p) {
      RawPartBack(c, o, true, d.home, p);
    } else if !c.Profile(false).Covers(p) {
      assert !HomeTouched(c, p);
      assert SameAt(t.home, o.home, p, p);
    }
  }

  lemma RuntimeCompensatedAt(c: Setting, o: Disk, t: Disk, m: Disk, d: Disk, p: Path)
    requires c.Valid() && c.Rooted() && o.IsDisk() && t.IsDisk() && Mess(c, o, t) && TreesPut(c, false, o, t, m)
    requires d == PutDatabases(c, m, RawParts(c, o), |c.databases|) && DatabasesReachable(c, d)
    ensures SameAt(d.runtime, o.runtime, p, p) <==>
            if c.IsDatabasePart(false, p) then !DirAt(o.runtime, p)
            else c.Layout(false).Preserves(p) || RuntimeFitsAt(c, false, o.runtime, o.runtime, p)
  {
    hide Setting.Valid, Setting.Rooted, Setting.IsDatabasePart, Setting.IsAboveDatabase, PutDatabases, RawParts,
      PartsAt, WithProfile, Staged, DatabasesReachable, Clash, PutAt, Layout.Preserves, HasProtectedBelow, IsTree,
      NeededDir, StagedFiles, HostFiles, HomeTouched;
    MessAt(c, o, t);
    var contents := RawParts(c, o);
    RuntimePutAt(c, m, contents, d, p);
    if c.IsDatabasePart(false, p) {
      RawPartBack(c, o, false, d.runtime, p);
    } else {
      CompensationNeverClashes(c, o.runtime, t.runtime);
      RuntimeAt(c, false, o.runtime, t.runtime, m.runtime, d.runtime, contents, p);
      SameProtectedBelow(c, o.runtime, t.runtime, p);
      if c.Layout(false).Preserves(p) {
        PreservedHasNoDatabase(c, p);
        assert SameAt(t.runtime, o.runtime, p, p);
      }
    }
  }

  /** A compensation that went through has put the state before back exactly when that was compensable. */
  lemma CompensatedIff(c: Setting, o: Disk, t: Disk, m: Disk, d: Disk)
    requires c.Valid() && c.Rooted() && o.IsDisk() && t.IsDisk() && Mess(c, o, t) && TreesPut(c, false, o, t, m)
    requires d == PutDatabases(c, m, RawParts(c, o), |c.databases|) && DatabasesReachable(c, d)
    ensures d == o <==> Compensable(c, o)
  {
    hide Setting.Valid, Setting.Rooted, Setting.IsDatabasePart, PutDatabases, RawParts, WithProfile, Staged, Mess,
      DatabasesReachable, RuntimeFitsAt, RuntimePut, Whole, Solid, StagedFiles, HostFiles, IsTree, Layout.Preserves,
      NoPartIsDir, ProfileIsAt;
    HostUntouched(c, m, RawParts(c, o), |c.databases|);
    if o.host.Some? {
      HostExact(o.host.value);
    }
    HomeIff(c, false, o.home, t.home, m.home);
    PartsAreFiles(c, o);
    forall p
      ensures SameAt(d.home, o.home, p, p) <==>
              if c.IsDatabasePart(true, p) then !DirAt(o.home, p)
              else ProfileIsAt(c.Profile(false), m.home, o.home, t.home, p)
      ensures SameAt(d.runtime, o.runtime, p, p) <==>
              if c.IsDatabasePart(false, p) then !DirAt(o.runtime, p)
              else c.Layout(false).Preserves(p) || RuntimeFitsAt(c, false, o.runtime, o.runtime, p)
    {
      HomeCompensatedAt(c, o, t, m, d, p);
      RuntimeCompensatedAt(c, o, t, m, d, p);
    }
    SameIffSameAt(d.home, o.home);
    SameIffSameAt(d.runtime, o.runtime);
    hide SameAt, DirAt;
  }

  lemma SameIffSameAt(t: Tree, u: Tree)
    ensures t == u <==> forall p :: SameAt(t, u, p, p)
  {
    if forall p :: SameAt(t, u, p, p) {
      SameTrees(t, u);
    }
  }

  // ----- when nothing is in the way

  ghost predicate Unobstructed(c: Setting, d: Disk, i: nat)
    requires c.Rooted() && i < |c.databases|
  {
    Writable(d.At(c.databases[i].inHome), c.PathOf(i))
  }

  /** `plugins` is not a file, and no directory stands in the place of a database. */
  ghost predicate Clear(c: Setting, s: Disk, t: Disk)
    requires c.Rooted()
  {
    !PluginsIsFile(t.home) && NoPartIsDir(c, s) && NoPartIsDir(c, t)
  }

  lemma FittingNeverClashes(c: Setting, s: Disk, t: Disk)
    requires c.Valid() && c.Rooted() && s.IsDisk() && t.IsDisk() && Clear(c, s, t)
    requires RuntimeFits(c, true, s.runtime, t.runtime)
    ensures c.Layout(true).Valid()
    ensures !Clash(Remaining(c.Layout(true), t.runtime, t.runtime.Keys), Archive(c.Layout(true), s.runtime))
  {
    LayoutIsValid(c, true);
    PartsAreFiles(c, s);
    var lay := c.Layout(true);
    var left, files := Remaining(lay, t.runtime, t.runtime.Keys), Archive(lay, s.runtime);
    hide Setting.Valid, Setting.Rooted, Setting.IsDatabasePart, Layout.Preserves, Layout.DeleteSkips, Layout.Valid,
      Layout.NoEcho, NoPartIsDir;
    forall p | p in files ensures !ClashAt(left, p) {
      SkipsAre(c, true, p);
      ArchiveHolds(lay, s.runtime, p);
      LeftHolds(lay, t.runtime, left, p);
      assert RuntimeFitsAt(c, true, s.runtime, t.runtime, p);
      forall i | 0 < i < |p| ensures !(p[..i] in left && left[p[..i]].File?) {
        SkipsAre(c, true, p[..i]);
        PreservedBelow2(c.Layout(false), p[..i], p);
        LeftHolds(lay, t.runtime, left, p[..i]);
        PrefixInTree(s.runtime, p[..i], p);
        assert DirAt(s.runtime, p[..i]);
      }
    }
  }

  lemma HomeUnobstructed(c: Setting, s: Disk, t: Disk, m: Disk, i: nat)
    requires c.Valid() && c.Rooted() && TreesPut(c, true, s, t, m) && Clear(c, s, t)
    requires i < |c.databases| && c.databases[i].inHome
    ensures Unobstructed(c, m, i)
  {
    hide RuntimePut, WithProfile, Staged, StagedFiles, HostFiles, Profile.Covers;
    var d := c.PathOf(i);
    NoSuffix(d);
    assert c.PlacedWell(i, 0);
    forall j | 0 <= j < 4 ensures !DirAt(m.home, PartPath(d, j)) {
      assert c.PlacedWell(i, j);
      assert !DirAt(s.At(c.databases[i].inHome), PartPath(d, j)) && !DirAt(t.At(c.databases[i].inHome), PartPath(d, j));
      TopIsKept(c.Profile(true), s.home, t.home, PartPath(d, j));
    }
  }

  lemma RuntimePartUnobstructed(c: Setting, s: Disk, t: Disk, r: Tree, p: Path)
    requires c.Valid() && c.Rooted() && s.IsDisk() && t.IsDisk() && RuntimePut(c, true, s.runtime, t.runtime, r)
    requires c.Layout(true).Valid()
    requires !Clash(Remaining(c.Layout(true), t.runtime, t.runtime.Keys), Archive(c.Layout(true), s.runtime))
    requires c.IsDatabasePart(false, p) && !DirAt(s.runtime, p) && !DirAt(t.runtime, p)
    ensures !DirAt(r, p)
  {
    var lay := c.Layout(true);
    var left, files := Remaining(lay, t.runtime, t.runtime.Keys), Archive(lay, s.runtime);
    SkipsAre(c, true, p);
    ArchiveHolds(lay, s.runtime, p);
    LeftHolds(lay, t.runtime, left, p);
    assert OverlaidAt(r, left, files, p);
  }

  lemma RuntimeAboveUnobstructed(c: Setting, s: Disk, t: Disk, r: Tree, p: Path)
    requires c.Valid() && c.Rooted() && s.IsDisk() && t.IsDisk() && RuntimePut(c, true, s.runtime, t.runtime, r)
    requires c.Layout(true).Valid() && RuntimeFits(c, true, s.runtime, t.runtime)
    requires !Clash(Remaining(c.Layout(true), t.runtime, t.runtime.Keys), Archive(c.Layout(true), s.runtime))
    requires c.IsAboveDatabase(false, p) && !c.IsDatabasePart(false, p)
    ensures !(p in r && r[p].File?)
  {
    var lay := c.Layout(true);
    var left, files := Remaining(lay, t.runtime, t.runtime.Keys), Archive(lay, s.runtime);
    hide Setting.Valid, Setting.Rooted, Setting.IsDatabasePart, Setting.IsAboveDatabase, Layout.Preserves,
      Layout.DeleteSkips, Layout.Valid, Layout.NoEcho, Clash;
    if c.Layout(false).Preserves(p) {
      PreservedHasNoDatabase(c, p);
    }
    SkipsAre(c, true, p);
    ArchiveHolds(lay, s.runtime, p);
    LeftHolds(lay, t.runtime, left, p);
    assert RuntimeFitsAt(c, true, s.runtime, t.runtime, p);
    assert OverlaidAt(r, left, files, p);
    assert p != [] by { AboveIsSome(c, p); }
  }

  lemma AboveIsSome(c: Setting, p: Path)
    requires c.Rooted() && c.IsAboveDatabase(false, p)
    ensures p != []
  {
  }

  lemma PartNotAbove(c: Setting, i: nat, p: Path)
    requires c.Valid() && c.Rooted() && i < |c.databases| && Above(p, c.PathOf(i))
    ensures !c.IsDatabasePart(c.databases[i].inHome, p)
  {
    forall k | 0 <= k < |c.databases| && c.databases[k].inHome == c.databases[i].inHome
        ensures !IsPart(c.PathOf(k), p) {
      NoSuffix(c.PathOf(i));
      if k != i {
        forall j | 0 <= j < 4 ensures p != PartPath(c.PathOf(k), j) {
          assert c.Apart(k, j, i, 0);
        }
      }
    }
  }

  lemma RuntimeUnobstructed(c: Setting, s: Disk, t: Disk, m: Disk, i: nat)
    requires c.Valid() && c.Rooted() && s.IsDisk() && t.IsDisk() && TreesPut(c, true, s, t, m) && Clear(c, s, t)
    requires RuntimeFits(c, true, s.runtime, t.runtime) && i < |c.databases| && !c.databases[i].inHome
    ensures Unobstructed(c, m, i)
  {
    hide Setting.Valid, Setting.Rooted, WithProfile, Staged, StagedFiles, HostFiles, RuntimePut, RuntimeFits, IsTree,
      PartPath, PluginsIsFile, NoPartIsDir;
    var d := c.PathOf(i);
    FittingNeverClashes(c, s, t);
    PartsAreFiles(c, s);
    PartsAreFiles(c, t);
    forall j | 0 <= j < 4 ensures !DirAt(m.runtime, PartPath(d, j)) {
      assert IsPart(d, PartPath(d, j));
      RuntimePartUnobstructed(c, s, t, m.runtime, PartPath(d, j));
    }
    forall k | 0 < k < |d| ensures !(d[..k] in m.runtime && m.runtime[d[..k]].File?) {
      assert Above(d[..k], d);
      PartNotAbove(c, i, d[..k]);
      RuntimeAboveUnobstructed(c, s, t, m.runtime, d[..k]);
    }
  }

  /** Putting one database in place gets in no other's way. */
  lemma StillUnobstructed(c: Setting, d: Disk, i: nat, parts: Parts, k: nat)
    requires c.Valid() && c.Rooted() && i < |c.databases| && k < |c.databases| && i != k && Unobstructed(c, d, k)
    ensures Unobstructed(c, PutDatabase(c, d, i, parts), k)
  {
    if c.databases[i].inHome == c.databases[k].inHome {
      var t, path := d.At(c.databases[k].inHome), c.PathOf(k);
      var r := PutParts(t, c.PathOf(i), parts);
      hide PutParts;
      forall j | 0 <= j < 4 ensures !DirAt(r, PartPath(path, j)) {
        assert IsPart(path, PartPath(path, j));
        OnePart(c, k, i, PartPath(path, j));
        SameOutside(t, c.PathOf(i), parts, PartPath(path, j));
      }
      forall n | 0 < n < |path| ensures !(path[..n] in r && r[path[..n]].File?) {
        assert Above(path[..n], path);
        PartNotAbove(c, k, path[..n]);
        PutPartsAt(t, c.PathOf(i), parts, path[..n]);
      }
    }
  }

  // ----- staying a mess

  lemma MessReflexive(c: Setting, d: Disk)
    requires c.Valid() && c.Rooted() && d.IsDisk()
    ensures Mess(c, d, d)
  {
    MakeMess(c, d, d);
  }

  lemma HostMess(c: Setting, d: Disk, host: Option<Tree>)
    requires c.Valid() && c.Rooted() && d.IsDisk() && (host.Some? ==> IsTree(host.value))
    ensures Mess(c, d, d.(host := host))
  {
    MakeMess(c, d, d.(host := host));
  }

  lemma HomeMess(c: Setting, full: bool, d: Disk, home: Tree)
    requires c.Valid() && c.Rooted() && d.IsDisk() && IsTree(home)
    requires forall p :: !c.Profile(full).Covers(p) ==> SameAt(home, d.home, p, p)
    ensures Mess(c, d, d.(home := home))
  {
    assert forall p :: c.Profile(full).Covers(p) ==> c.Profile(false).Covers(p);
    hide Setting.IsDatabasePart;
    MakeMess(c, d, d.(home := home));
  }

  lemma RuntimeMess(c: Setting, full: bool, d: Disk, runtime: Tree)
    requires c.Valid() && c.Rooted() && d.IsDisk() && IsTree(runtime)
    requires PreservedSame(c.Layout(full), runtime, d.runtime)
    ensures Mess(c, d, d.(runtime := runtime))
  {
    LayoutIsValid(c, full);
    forall p | c.Layout(false).Preserves(p) ensures SameAt(runtime, d.runtime, p, p) {
      assert c.Layout(full).Preserves(p);
    }
    MakeMess(c, d, d.(runtime := runtime));
  }

  lemma DatabaseMess(c: Setting, d: Disk, i: nat, parts: Parts)
    requires c.Valid() && c.Rooted() && d.IsDisk() && i < |c.databases| && Unobstructed(c, d, i)
    ensures Mess(c, d, PutDatabase(c, d, i, parts))
    ensures forall p :: Above(p, c.PathOf(i)) ==> DirAt(PutDatabase(c, d, i, parts).At(c.databases[i].inHome), p)
  {
    var inHome, path := c.databases[i].inHome, c.PathOf(i);
    var r := PutParts(d.At(inHome), path, parts);
    PutPartsIsTree(d.At(inHome), path, parts);
    forall p
      ensures inHome && !HomeTouched(c, p) ==> SameAt(r, d.home, p, p)
      ensures !inHome && c.Layout(false).Preserves(p) ==> SameAt(r, d.runtime, p, p)
    {
      PutPartsAt(d.At(inHome), path, parts, p);
      if inHome {
        HomeDatabasesOnTop(c, p);
      } else if c.Layout(false).Preserves(p) {
        PreservedHasNoDatabase(c, p);
      }
      assert IsPart(path, p) ==> c.IsDatabasePart(inHome, p);
      assert Above(p, path) ==> c.IsAboveDatabase(inHome, p);
    }
    hide PutParts, Setting.Valid, Setting.Rooted, HomeTouched, Setting.IsDatabasePart, Setting.IsAboveDatabase,
      IsTree, Layout.Preserves;
    MakeMess(c, d, PutDatabase(c, d, i, parts));
  }

  lemma ReachableStays(c: Setting, d: Disk, i: nat, parts: Parts, k: nat)
    requires c.Valid() && c.Rooted() && i < |c.databases| && k < |c.databases|
    requires forall p :: Above(p, c.PathOf(k)) ==> DirAt(d.At(c.databases[k].inHome), p)
    requires i != k
    ensures forall p :: Above(p, c.PathOf(k)) ==> DirAt(PutDatabase(c, d, i, parts).At(c.databases[k].inHome), p)
  {
    if c.databases[i].inHome == c.databases[k].inHome {
      forall p | Above(p, c.PathOf(k)) ensures DirAt(PutDatabase(c, d, i, parts).At(c.databases[k].inHome), p) {
        PartNotAbove(c, k, p);
        PutPartsAt(d.At(c.databases[k].inHome), c.PathOf(i), parts, p);
      }
    }
  }

  /** The databases from the `n`th on are unobstructed. */
  ghost predicate AllUnobstructed(c: Setting, d: Disk, n: nat)
    requires c.Rooted()
  {
    forall i :: n <= i < |c.databases| ==> Unobstructed(c, d, i)
  }

  ghost predicate ReachableFirst(c: Setting, d: Disk, n: nat)
    requires c.Rooted() && n <= |c.databases|
  {
    forall i :: 0 <= i < n ==> Reachable(c, d, i)
  }

  ghost predicate Reachable(c: Setting, d: Disk, i: nat)
    requires c.Rooted() && i < |c.databases|
  {
    forall p :: Above(p, c.PathOf(i)) ==> DirAt(d.At(c.databases[i].inHome), p)
  }

  lemma ReachableGrows(c: Setting, d: Disk, n: nat, parts: Parts)
    requires c.Valid() && c.Rooted() && d.IsDisk() && n < |c.databases| && Unobstructed(c, d, n)
               && ReachableFirst(c, d, n)
    ensures ReachableFirst(c, PutDatabase(c, d, n, parts), n + 1)
  {
    hide Setting.Valid, Setting.Rooted, Setting.PathOf, Above, DirAt, PutDatabase, Disk.IsDisk, Unobstructed;
    DatabaseMess(c, d, n, parts);
    forall i | 0 <= i < n ensures Reachable(c, PutDatabase(c, d, n, parts), i) {
      assert Reachable(c, d, i);
      ReachableStays(c, d, n, parts, i);
    }
  }

  lemma AllReachable(c: Setting, d: Disk)
    requires c.Rooted() && ReachableFirst(c, d, |c.databases|)
    ensures DatabasesReachable(c, d)
  {
    hide Setting.Rooted, Setting.PathOf, Above, DirAt;
    forall i, p | 0 <= i < |c.databases| && Above(p, c.PathOf(i)) ensures DirAt(d.At(c.databases[i].inHome), p) {
      assert Reachable(c, d, i);
    }
  }

  lemma OthersUnobstructed(c: Setting, d: Disk, n: nat, parts: Parts)
    requires c.Valid() && c.Rooted() && n < |c.databases|
    ensures AllUnobstructed(c, d, n) ==> AllUnobstructed(c, PutDatabase(c, d, n, parts), n + 1)
  {
    hide Setting.Valid, Setting.Rooted, PutDatabase, Unobstructed;
    if AllUnobstructed(c, d, n) {
      forall k | n + 1 <= k < |c.databases| ensures Unobstructed(c, PutDatabase(c, d, n, parts), k) {
        StillUnobstructed(c, d, n, parts, k);
      }
    }
  }

  /** Putting the host aside changes nothing else. */
  lemma HostAside(c: Setting, full: bool, s: Disk, t: Disk, m: Disk)
    requires c.Valid() && c.Rooted() && TreesPut(c, full, s, t.(host := None), m)
    ensures TreesPut(c, full, s, t, m)
  {
    hide WithProfile, Staged, StagedFiles, HostFiles, RuntimePut;
  }

  lemma StillClear(c: Setting, s: Disk, t: Disk)
    requires c.Rooted() && Clear(c, s, t)
    ensures Clear(c, s, t.(host := None))
  {
  }

  lemma NothingInTheWay(c: Setting, s: Disk, t: Disk, m: Disk)
    requires c.Valid() && c.Rooted() && s.IsDisk() && t.IsDisk() && TreesPut(c, true, s, t, m)
    ensures Clear(c, s, t) && RuntimeFits(c, true, s.runtime, t.runtime) ==> AllUnobstructed(c, m, 0)
  {
    hide Setting.Valid, Setting.Rooted, TreesPut, RuntimeFits, Unobstructed, Disk.IsDisk, Clear;
    if Clear(c, s, t) && RuntimeFits(c, true, s.runtime, t.runtime) {
      forall i | 0 <= i < |c.databases| ensures Unobstructed(c, m, i) {
        if c.databases[i].inHome {
          HomeUnobstructed(c, s, t, m, i);
        } else {
          RuntimeUnobstructed(c, s, t, m, i);
        }
      }
    }
  }

  /** Compensating where nothing has changed brings nothing new into the runtime or the home directory. */
  lemma NothingNewAt(c: Setting, o: Disk, m: Disk, p: Path)
    requires c.Valid() && c.Rooted() && o.IsDisk() && TreesPut(c, false, o, o, m)
    ensures p in m.runtime ==> SameAt(m.runtime, o.runtime, p, p)
    ensures p in m.home && p != [PLUGINS] ==> SameAt(m.home, o.home, p, p)
  {
    hide Setting.Valid, Setting.Rooted;
    CompensationNeverClashes(c, o.runtime, o.runtime);
    var lay := c.Layout(false);
    var left, files := Remaining(lay, o.runtime, o.runtime.Keys), Archive(lay, o.runtime);
    assert OverlaidAt(m.runtime, left, files, p);
    ArchiveHolds(lay, o.runtime, p);
    if NeededDir(files, p) {
      var q :| q in files && p < q;
      ArchiveHolds(lay, o.runtime, q);
      PrefixInTree(o.runtime, p, q);
    }
  }

  lemma StillUnobstructedAt(c: Setting, o: Disk, m: Disk, i: nat)
    requires c.Valid() && c.Rooted() && o.IsDisk() && TreesPut(c, false, o, o, m)
    requires i < |c.databases| && Unobstructed(c, o, i)
    ensures Unobstructed(c, m, i)
  {
    hide TreesPut, Setting.Rooted, Disk.IsDisk;
    var path := c.PathOf(i);
    var t, u := o.At(c.databases[i].inHome), m.At(c.databases[i].inHome);
    NoSuffix(path);
    forall j | 0 <= j < 4 ensures !DirAt(u, PartPath(path, j)) {
      assert c.PlacedWell(i, j);
      NothingNewAt(c, o, m, PartPath(path, j));
    }
    assert c.PlacedWell(i, 0);
    hide PartPath, Setting.Valid;
    forall k | 0 < k < |path| ensures !(path[..k] in u && u[path[..k]].File?) {
      NothingNewAt(c, o, m, path[..k]);
    }
  }

  lemma StillWritable(c: Setting, o: Disk, m: Disk)
    requires c.Valid() && c.Rooted() && o.IsDisk() && TreesPut(c, false, o, o, m) && AllUnobstructed(c, o, 0)
    ensures AllUnobstructed(c, m, 0)
  {
    hide TreesPut, Setting.Valid, Unobstructed, Disk.IsDisk;
    forall i | 0 <= i < |c.databases| ensures Unobstructed(c, m, i) {
      StillUnobstructedAt(c, o, m, i);
    }
  }

  predicate NoPartDir(t: Tree, d: Path)
    requires d != []
  {
    forall j :: 0 <= j < 4 ==> !DirAt(t, PartPath(d, j))
  }

  /** The files written so far do not hide what stands in the place of the next. */
  lemma PartSeen(t: Tree, d: Path, parts: Parts, j: nat)
    requires d != [] && j < 4
    ensures SameAt(WithParts(WithParents(t, d), d, parts, j), t, PartPath(d, j), PartPath(d, j))
  {
    var p := PartPath(d, j);
    WithPartsAt(WithParents(t, d), d, parts, j, p);
    WithParentsAt(t, d, p);
    forall k | 0 <= k < j ensures p != PartPath(d, k) {
      if p == PartPath(d, k) {
        PartPathsDiffer(d, j, k);
      }
    }
  }
}
