/** The update transaction: prepare a recovery point, mutate, verify, and restore on any failure; `restore` itself
    takes a second recovery point first and falls back to it.

    Every primitive step may fail, by an arbitrary schedule; one that fails after it began to write leaves anything it
    may touch in an arbitrary state. The contracts hold for every schedule. What a restore gives back is stated
    together with the exact conditions of `RecoveryPoint`, and what it reports together with the one step that can
    make the report wrong: the clean-up after it. */
module HostUpdate {
  import opened Wrappers
  import opened FileTree
  import opened RuntimeRestore
  import opened ProfileRestore
  import opened DatabaseFiles
  import opened RecoveryPoint

  datatype RestoreOutcome = Restored | Failed | RepairRequired

  datatype ExecuteOutcome =
    | Blocked
    | PrepareFailed
    | Updated
    | RolledBack
    | RestoreFailed
    | UpdateRepairRequired

  /** What a step outside leaves, and whether it neither raised nor reported a failure. */
  datatype Step = Step(ok: bool, after: Disk)

  /** The host's own update, the deployment of the adapter, the probes: each may change anything and may fail. */
  datatype External = External(update: Disk -> Step, deploy: Disk -> Step, verify: Disk -> Step) {
    /** From `d` the three succeed in turn, or not, and the last of them to be made leaves `after`. */
    predicate Ends(d: Disk, ok: bool, after: Disk) {
      var updated := update(d);
      var deployed := deploy(updated.after);
      var verified := verify(deployed.after);
      && (ok <==> updated.ok && deployed.ok && verified.ok)
      && after == if !updated.ok then updated.after else if !deployed.ok then deployed.after else verified.after
    }

    ghost predicate KeepsDisks() {
      forall d: Disk :: d.IsDisk() ==>
        update(d).after.IsDisk() && deploy(d).after.IsDisk() && verify(d).after.IsDisk()
    }
  }

  class Controller {
    const c: Setting
    /** Which steps fail, by the number of steps made before. */
    const fails: nat -> bool
    var clock: nat
    var disk: Disk

    constructor (c: Setting, fails: nat -> bool, disk: Disk)
      ensures this.c == c && this.fails == fails && this.disk == disk
    {
      this.c, this.fails, this.clock, this.disk := c, fails, 0, disk;
    }

    ghost predicate Ready()
      reads this
    {
      c.Valid() && c.Rooted() && disk.IsDisk()
    }

    /** No step made from one count to another has failed. */
    ghost predicate Quiet(from: nat, until: nat) {
      forall n :: from <= n < until ==> !fails(n)
    }

    /** The step a given count later has failed, and no other. */
    ghost predicate OnlyFaultAt(from: nat, until: nat, k: nat) {
      fails(from + k) && forall n :: from <= n < until && n != from + k ==> !fails(n)
    }

    /** When a restore of `o` from `before` must succeed, and when each kind of failure must be reported. */
    ghost predicate Restores(from: nat, until: nat, o: Disk, before: Disk, after: Disk, r: ExecuteOutcome, masked: bool)
      requires c.Valid() && c.Rooted()
    {
      && (Quiet(from, until) && before.host.Some? && Clear(c, o, before) && Recoverable(c, o, before) ==>
            IsRecovered(c, o, before, after) && (r == RolledBack || masked))
      && (before.host.None? ==> after == before && (r == UpdateRepairRequired || masked))
      && (OnlyFaultAt(from, until, 4) && CanCompensate(before) ==> r == RestoreFailed)
    }

    /** A restore that breaks off before it touched anything can put everything back. */
    ghost predicate CanCompensate(d: Disk)
      requires c.Rooted()
    {
      d.host.Some? && !PluginsIsFile(d.home) && AllUnobstructed(c, d, 0)
    }

    method Breaks() returns (b: bool)
      modifies this`clock
      ensures b == fails(old(clock)) && clock == old(clock) + 1
    {
      b := fails(clock);
      clock := clock + 1;
    }

    /** What a step that breaks off may leave. */
    method BreakOff()
      requires Ready()
      modifies this`disk
      ensures Ready() && Mess(c, old(disk), disk)
    {
      MessReflexive(c, disk);
      var left: Disk := *;
      if Mess(c, disk, left) {
        disk := left;
      }
    }

    /** `os.replace`: a rename happens or it does not. */
    method ReplaceHost(host: Option<Tree>) returns (ok: bool)
      requires Ready() && (host.Some? ==> IsTree(host.value))
      modifies this`disk, this`clock
      ensures Ready() && Mess(c, old(disk), disk)
      ensures disk == if ok then old(disk).(host := host) else old(disk)
      ensures clock >= old(clock)
      ensures Quiet(old(clock), clock) ==> ok
    {
      hide Mess, Setting.Valid, Setting.Rooted;
      MessReflexive(c, disk);
      var broken := Breaks();
      if !broken {
        HostMess(c, disk, host);
        disk := disk.(host := host);
      }
      ok := !broken;
    }

    method ReplaceProfile(full: bool, staged: Tree, ghost s: Tree) returns (ok: bool)
      requires Ready() && IsTree(s) && staged == Staged(c.Profile(full), s)
      modifies this`disk, this`clock
      ensures Ready() && Mess(c, old(disk), disk)
      ensures ok ==> disk == old(disk).(home := WithProfile(c.Profile(full), old(disk).home, staged))
      ensures clock >= old(clock)
      ensures Quiet(old(clock), clock) && !PluginsIsFile(old(disk).home) ==> ok
    {
      var broken := Breaks();
      if broken {
        BreakOff();
        return false;
      }
      StagedIsTree(c.Profile(full), s);
      hide Mess, Staged, WithProfile, Setting.Rooted;
      var tree := new ProfileTree(disk.home);
      ok := tree.RestoreProfile(c.Profile(full), staged);
      HomeMess(c, full, disk, tree.nodes);
      disk := disk.(home := tree.nodes);
    }

    method ReplaceRuntime(full: bool, files: Files, ghost s: Tree) returns (ok: bool)
      requires Ready() && IsTree(s) && files == Archive(c.Layout(full), s)
      modifies this`disk, this`clock
      ensures Ready() && Mess(c, old(disk), disk)
      ensures ok ==> disk == old(disk).(runtime := disk.runtime)
      ensures ok ==> RuntimePut(c, full, s, old(disk).runtime, disk.runtime)
      ensures clock >= old(clock)
      ensures var before := old(disk).runtime;
              Quiet(old(clock), clock) && !Clash(Remaining(c.Layout(full), before, before.Keys), files) ==> ok
    {
      LayoutIsValid(c, full);
      hide Mess, Setting.Valid, Setting.Rooted, Layout.Valid, Layout.NoEcho, Clash, Overlaid, Exact, RoundTrips,
        IsTree;
      var broken := Breaks();
      if broken {
        BreakOff();
        return false;
      }
      var order := ListChildrenFirst(disk.runtime);
      var tree := new RuntimeTree(disk.runtime);
      var r := tree.RestoreSoulLink(c.Layout(full), order, s, files);
      RuntimeMess(c, full, disk, tree.nodes);
      disk := disk.(runtime := tree.nodes);
      ok := r != Raised;
    }

    /** Clear and write each of the four files. `ok` is false when one of them is a directory, or a step fails. */
    method WriteFiles(before: Tree, path: Path, parts: Parts) returns (t: Tree, ok: bool)
      requires path != []
      modifies this`clock
      ensures ok ==> t == PutParts(before, path, parts) && NoPartDir(before, path)
      ensures clock >= old(clock)
      ensures Quiet(old(clock), clock) && NoPartDir(before, path) ==> ok
    {
      hide WithParents, PartPath;
      t := WithParents(before, path);
      for j := 0 to 4
        invariant t == WithParts(WithParents(before, path), path, parts, j)
        invariant clock >= old(clock)
        invariant forall k :: 0 <= k < j ==> !DirAt(before, PartPath(path, k))
      {
        var broken := Breaks();
        PartSeen(before, path, parts, j);
        var p := PartPath(path, j);
        if broken || (p in t && t[p].Dir?) {
          return t, false;
        }
        t := WithPart(t, p, parts[j]);
      }
      ok := true;
    }

    /** One database: make its directories, then its files. */
    method WriteDatabase(i: nat, parts: Parts) returns (ok: bool)
      requires Ready() && i < |c.databases|
      modifies this`disk, this`clock
      ensures Ready() && Mess(c, old(disk), disk)
      ensures ok ==> Unobstructed(c, old(disk), i) && disk == PutDatabase(c, old(disk), i, parts)
      ensures clock >= old(clock)
      ensures Quiet(old(clock), clock) && Unobstructed(c, old(disk), i) ==> ok
    {
      var inHome, path := c.databases[i].inHome, c.PathOf(i);
      hide Mess, Setting.Valid, Setting.Rooted, Setting.PathOf, IsTree, PutParts, PartPath, Disk.IsDisk;
      MessReflexive(c, disk);
      var broken := Breaks();
      if !broken && ParentIsFile(disk.At(inHome), path) {
        return false;
      }
      var t, written := disk.At(inHome), false;
      if !broken {
        t, written := WriteFiles(disk.At(inHome), path, parts);
      }
      if !written {
        BreakOff();
        return false;
      }
      DatabaseMess(c, disk, i, parts);
      disk := disk.With(inHome, t);
      ok := true;
    }

    method WriteDatabases(contents: seq<Parts>) returns (ok: bool)
      requires Ready() && |contents| == |c.databases|
      modifies this`disk, this`clock
      ensures Ready() && Mess(c, old(disk), disk)
      ensures ok ==> disk == PutDatabases(c, old(disk), contents, |c.databases|) && DatabasesReachable(c, disk)
      ensures clock >= old(clock)
      ensures Quiet(old(clock), clock) && AllUnobstructed(c, old(disk), 0) ==> ok
    {
      ghost var o := disk;
      hide Mess, Setting.Valid, Setting.Rooted, Setting.PathOf, IsTree, Unobstructed, PutDatabase, Disk.IsDisk;
      MessReflexive(c, disk);
      for i := 0 to |c.databases|
        invariant Ready() && Mess(c, o, disk) && disk == PutDatabases(c, o, contents, i)
        invariant ReachableFirst(c, disk, i)
        invariant clock >= old(clock)
        invariant AllUnobstructed(c, o, 0) ==> AllUnobstructed(c, disk, i)
      {
        ghost var before := disk;
        ok := WriteDatabase(i, contents[i]);
        MessChains(c, o, before, disk);
        if !ok {
          return;
        }
        DatabaseMess(c, before, i, contents[i]);
        ReachableGrows(c, before, i, contents[i]);
        OthersUnobstructed(c, before, i, contents[i]);
      }
      AllReachable(c, disk);
      ok := true;
    }

    /** The steps of `_apply_restore` once the old host is put aside. */
    method PutTrees(point: Point, full: bool, ghost s: Disk) returns (ok: bool, ghost m: Disk)
      requires Ready() && s.IsDisk() && point == Snapshot(c, s, full)
      modifies this`disk, this`clock
      ensures Ready() && Mess(c, old(disk), disk)
      ensures ok ==> TreesPut(c, full, s, old(disk), m)
      ensures ok && full ==> disk == PutDatabases(c, m, Backups(c, s), |c.databases|) && DatabasesReachable(c, disk)
      ensures ok && !full ==> disk == m
      ensures clock >= old(clock)
      ensures Quiet(old(clock), clock) && full && ClearAndFitting(c, s, old(disk)) ==> ok
      ensures Quiet(old(clock), clock) && !full && !PluginsIsFile(old(disk).home) && Mess(c, s, old(disk)) ==> ok
    {
      ghost var o := disk;
      hide Mess, Setting.Valid, Setting.Rooted, Setting.PathOf, IsTree, RuntimePut, WithProfile, Staged, StagedFiles,
        HostFiles, Archive, RuntimeFits, NoPartIsDir, PluginsIsFile, PutDatabases, Clash, Remaining;
      StagedFilesIsTree(s.host);
      if Clear(c, s, o) && RuntimeFits(c, true, s.runtime, o.runtime) {
        FittingNeverClashes(c, s, o);
      }
      if Mess(c, s, o) {
        CompensationFits(c, s, o);
      }
      m := disk;
      ok := ReplaceHost(Some(StagedFiles(point.host)));
      if !ok {
        return;
      }
      ghost var d := disk;
      ok := ReplaceProfile(full, point.profile, s.home);
      MessChains(c, o, d, disk);
      if !ok {
        return;
      }
      d := disk;
      ok := ReplaceRuntime(full, point.runtime, s.runtime);
      MessChains(c, o, d, disk);
      m := disk;
      if !ok || !full {
        return;
      }
      NothingInTheWay(c, s, o, m);
      ok := WriteDatabases(point.backups);
      MessChains(c, o, m, disk);
    }

    /** `_apply_restore`. If a step after the host was put aside fails, the host is renamed back (which may fail too)
        and the error is raised; profile, runtime and databases stay as far as they got. */
    method ApplyRestore(point: Point, full: bool, ghost s: Disk) returns (ok: bool, ghost m: Disk, ghost undone: bool)
      requires Ready() && s.IsDisk() && point == Snapshot(c, s, full)
      modifies this`disk, this`clock
      ensures Ready() && Mess(c, old(disk), disk)
      ensures ok ==> TreesPut(c, full, s, old(disk), m)
      ensures ok && full ==> disk == PutDatabases(c, m, Backups(c, s), |c.databases|) && DatabasesReachable(c, disk)
      ensures ok && !full ==> disk == m
      ensures fails(old(clock)) || old(disk).host.None? ==> !ok && disk == old(disk) && clock == old(clock) + 1
      ensures !ok && undone ==> disk.host == old(disk).host
      ensures clock >= old(clock)
      ensures Quiet(old(clock), clock) && full && old(disk).host.Some? && ClearAndFitting(c, s, old(disk)) ==> ok
      ensures Quiet(old(clock), clock) && !full && old(disk).host.Some? ==>
                (!PluginsIsFile(old(disk).home) && Mess(c, s, old(disk)) ==> ok)
    {
      ghost var o := disk;
      hide Mess, Setting.Valid, Setting.Rooted, Setting.PathOf, IsTree, RuntimeFits, PutDatabases, TreesPut, Clear,
        Snapshot, Backups, DatabasesReachable;
      MessReflexive(c, disk);
      m, undone := disk, true;
      var unread := Breaks();
      if unread || disk.host.None? {
        return false, m, undone;
      }
      var aside := disk.host;
      ok := ReplaceHost(None);
      if !ok {
        return;
      }
      ghost var d := disk;
      if Clear(c, s, o) {
        StillClear(c, s, o);
      }
      if Mess(c, s, o) {
        MessChains(c, s, o, disk);
      }
      ok, m := PutTrees(point, full, s);
      MessChains(c, o, d, disk);
      if ok {
        HostAside(c, full, s, o, m);
      } else {
        d := disk;
        BreakOff();
        MessChains(c, o, d, disk);
        d := disk;
        undone := ReplaceHost(aside);
        MessChains(c, o, d, disk);
      }
    }

    /** `restore`. The `finally` clause after it removes the compensation receipt; if that raises, its error is what
        the caller sees, whatever `inner` would have been. Before the compensation is ready nothing is touched, and
        nothing cleaned up. */
    method Restore(point: Point, cleanupRaises: bool, ghost s: Disk)
      returns (r: RestoreOutcome, ghost inner: RestoreOutcome, ghost entered: bool)
      requires Ready() && s.IsDisk() && point == Snapshot(c, s, true)
      modifies this`disk, this`clock
      ensures Ready() && Mess(c, old(disk), disk)
      ensures r == if entered && cleanupRaises then Failed else inner
      ensures inner == Restored ==> entered && (IsRecovered(c, s, old(disk), disk) <==> Recoverable(c, s, old(disk)))
      ensures inner == Failed && entered ==> (disk == old(disk) <==> Compensable(c, old(disk)))
      ensures !entered ==> inner == Failed && disk == old(disk)
      ensures Recoverable(c, s, old(disk)) && Compensable(c, old(disk)) ==>
                (Tells(r, IsRecovered(c, s, old(disk), disk), disk == old(disk))
                 <==> !(entered && cleanupRaises) || disk == old(disk))
      ensures clock >= old(clock)
      ensures entered <==> !fails(old(clock)) && !fails(old(clock) + 1)
      ensures Quiet(old(clock), clock) && old(disk).host.Some? ==>
                (Clear(c, s, old(disk)) && Recoverable(c, s, old(disk)) ==> inner == Restored)
      ensures entered && old(disk).host.None? ==> inner == RepairRequired && disk == old(disk)
      ensures OnlyFaultAt(old(clock), clock, 2) && CanCompensate(old(disk)) ==> inner == Failed
    {
      ghost var o := disk;
      entered := false;
      hide Mess, Setting.Valid, Setting.Rooted, IsTree, TreesPut, PutDatabases, Snapshot, IsRecovered, Compensable,
        Clear, Whole, Solid, RuntimeFits, Backups, RawParts, DatabasesReachable;
      MessReflexive(c, disk);
      var invalid := Breaks();
      var unprepared := Breaks();
      if invalid || unprepared {
        return Failed, Failed, entered;
      }
      var compensation, raw := Snapshot(c, disk, false), RawParts(c, disk);
      entered := true;
      var outcome := Restored;
      ghost var m, undone;
      var applied: bool;
      applied, m, undone := ApplyRestore(point, true, s);
      if applied {
        RecoveredIff(c, s, o, m, disk);
      } else {
        ghost var t := disk;
        var uncompensated := Breaks();
        var reapplied, rewritten := false, false;
        if !uncompensated {
          reapplied, m, undone := ApplyRestore(compensation, false, o);
          MessChains(c, o, t, disk);
        }
        if reapplied {
          ghost var d := disk;
          if t == o && AllUnobstructed(c, o, 0) {
            StillWritable(c, o, m);
          }
          rewritten := WriteDatabases(raw);
          MessChains(c, o, d, disk);
        }
        if rewritten {
          CompensatedIff(c, o, t, m, disk);
        }
        outcome := if rewritten then Failed else RepairRequired;
      }
      r, inner := if cleanupRaises then Failed else outcome, outcome;
      if Recoverable(c, s, o) && Compensable(c, o) {
        ReportTellsIff(inner, cleanupRaises, IsRecovered(c, s, o, disk), disk == o);
      }
    }

    method Mutate(external: External) returns (ok: bool)
      requires Ready() && external.KeepsDisks()
      modifies this`disk
      ensures Ready() && external.Ends(old(disk), ok, disk)
    {
      hide Setting.Valid, Setting.Rooted, Disk.IsDisk;
      var step := external.update(disk);
      disk := step.after;
      if step.ok {
        step := external.deploy(disk);
        disk := step.after;
      }
      if step.ok {
        step := external.verify(disk);
        disk := step.after;
      }
      ok := step.ok;
    }

    /** The outcome, the state in which a restore was begun, and whether its clean-up hid how it ended. The update is
        reported exactly if all three steps outside succeeded in turn, and leaves what the third left. Otherwise a
        restore is begun from what the failing step left. */
    method Execute(external: External, cleanupRaises: bool)
      returns (r: ExecuteOutcome, ghost before: Disk, ghost masked: bool)
      requires Ready() && external.KeepsDisks()
      modifies this`disk, this`clock
      ensures clock >= old(clock)
      ensures r == Blocked <==> fails(old(clock))
      ensures r == PrepareFailed <==>
                !fails(old(clock)) &&
                !(!fails(old(clock) + 1) && forall i :: 0 <= i < |c.databases| ==>
                    IsFileAt(old(disk).At(c.databases[i].inHome), c.databases[i].path))
      ensures r == Blocked || r == PrepareFailed ==> disk == old(disk)
      ensures !(r in {Blocked, PrepareFailed}) ==>
                external.Ends(old(disk), r == Updated, before) && (r == Updated ==> disk == before)
      ensures masked ==> cleanupRaises && r == RestoreFailed
      ensures var begun := !fails(old(clock) + 2) && !fails(old(clock) + 3);
              r in {RolledBack, RestoreFailed, UpdateRepairRequired} ==>
                && (masked <==> begun && cleanupRaises)
                && (!begun ==> r == RestoreFailed && disk == before)
                && (begun ==> Restores(old(clock), clock, old(disk), before, disk, r, masked))
      ensures r == RolledBack ==> (IsRecovered(c, old(disk), before, disk) <==> Recoverable(c, old(disk), before))
      ensures r == RestoreFailed && !masked && Compensable(c, before) ==> disk == before
    {
      hide Mess, Setting.Valid, Setting.Rooted, Disk.IsDisk, IsRecovered, Recoverable, Compensable, Snapshot, Clear,
        CanCompensate, External.Ends, External.KeepsDisks;
      ghost var o := disk;
      before, masked := disk, false;
      var unready := Breaks();
      if unready {
        return Blocked, before, masked;
      }
      var unprepared := Breaks();
      PresentIff(c, disk);
      if unprepared || !DatabasesPresent(c, disk) {
        return PrepareFailed, before, masked;
      }
      var point := Snapshot(c, disk, true);
      var updated := Mutate(external);
      before := disk;
      if updated {
        return Updated, before, masked;
      }
      var restored, inner, entered := Restore(point, cleanupRaises, o);
      masked := entered && cleanupRaises;
      match restored {
        case Restored => r := RolledBack;
        case Failed => r := RestoreFailed;
        case RepairRequired => r := UpdateRepairRequired;
      }
    }
  }

  ghost predicate ClearAndFitting(c: Setting, s: Disk, t: Disk)
    requires c.Valid() && c.Rooted()
  {
    Clear(c, s, t) && RuntimeFits(c, true, s.runtime, t.runtime)
  }

  lemma CompensationFits(c: Setting, o: Disk, t: Disk)
    requires c.Valid() && c.Rooted() && o.IsDisk() && t.IsDisk() && Mess(c, o, t)
    ensures c.Layout(false).Valid()
    ensures !Clash(Remaining(c.Layout(false), t.runtime, t.runtime.Keys), Archive(c.Layout(false), o.runtime))
  {
    MessAt(c, o, t);
    CompensationNeverClashes(c, o.runtime, t.runtime);
  }

  ghost predicate IsFileAt(t: Tree, p: Path) {
    exists content :: p in t && t[p] == File(content)
  }

  /** `prepare` refuses when the main file of a database is missing. */
  predicate DatabasesPresent(c: Setting, d: Disk)
    requires c.Rooted()
  {
    forall i :: 0 <= i < |c.databases| ==>
      c.PathOf(i) in d.At(c.databases[i].inHome) && d.At(c.databases[i].inHome)[c.PathOf(i)].File?
  }

  lemma PresentIff(c: Setting, d: Disk)
    requires c.Rooted()
    ensures DatabasesPresent(c, d) <==>
            forall i :: 0 <= i < |c.databases| ==> IsFileAt(d.At(c.databases[i].inHome), c.databases[i].path)
  {
    forall i | 0 <= i < |c.databases|
      ensures IsFileAt(d.At(c.databases[i].inHome), c.databases[i].path) <==>
              c.PathOf(i) in d.At(c.databases[i].inHome) && d.At(c.databases[i].inHome)[c.PathOf(i)].File?
    {
      var t, p := d.At(c.databases[i].inHome), c.PathOf(i);
      assert p in t && t[p].File? ==> t[p] == File(t[p].content);
    }
  }

  // ----- what the report is worth

  /** A report tells the truth: "restored" of the recovery point, "failed" of the state before. */
  predicate Tells(r: RestoreOutcome, recovered: bool, untouched: bool) {
    (r == Restored ==> recovered) && (r == Failed ==> untouched)
  }

  function Reported(inner: RestoreOutcome, raised: bool): RestoreOutcome {
    if raised then Failed else inner
  }

  /** Where the outcome itself is all or nothing, the report is so exactly if the clean-up does not raise, or there
      was nothing to tell. */
  lemma ReportTellsIff(inner: RestoreOutcome, raised: bool, recovered: bool, untouched: bool)
    requires Tells(inner, recovered, untouched)
    ensures Tells(Reported(inner, raised), recovered, untouched) <==> !raised || untouched
  {
  }

  const NO_DATABASES: Setting := Setting([], {}, [], parts => "")
  const EMPTY_HOME: Tree := map[[PLUGINS] := Dir]
  const KEPT: Disk := Disk(Some(map[["f"] := File("kept")]), EMPTY_HOME, map[])
  const LOST: Disk := Disk(Some(map[]), EMPTY_HOME, map[])

  lemma ExampleIsValid()
    ensures NO_DATABASES.Valid() && NO_DATABASES.Rooted() && KEPT.IsDisk() && LOST.IsDisk()
    ensures Clear(NO_DATABASES, KEPT, LOST) && NoPartIsDir(NO_DATABASES, LOST)
  {
  }

  lemma ExampleIsSolid()
    ensures Solid(KEPT.host.value) && Solid(LOST.host.value) && KEPT.host != LOST.host
  {
    assert ["f"] in KEPT.host.value;
  }

  lemma ExampleIsWhole(full: bool)
    ensures Whole(NO_DATABASES.Profile(full), EMPTY_HOME)
  {
  }

  lemma NothingToFit(full: bool)
    ensures NO_DATABASES.Valid() && RuntimeFits(NO_DATABASES, full, map[], map[])
  {
    ExampleIsValid();
  }

  /** A run in which the clean-up raises after a restore that went through: nothing is in the way and both conditions
      hold, so without faults `Restore` reaches the recovery point. That is not the state before; the report is
      "failed". */
  lemma CleanupCanMask()
    ensures exists c: Setting, s: Disk, t: Disk :: Masks(c, s, t)
  {
    ExampleIsValid();
    ExampleIsSolid();
    ExampleIsWhole(true);
    ExampleIsWhole(false);
    NothingToFit(true);
    NothingToFit(false);
    hide Setting.Valid, Setting.Rooted, Disk.IsDisk, Clear, Solid, Whole, RuntimeFits, NoPartIsDir, HomeRecoveredAt,
      RuntimeRecoveredAt;
    assert Masks(NO_DATABASES, KEPT, LOST);
  }

  ghost predicate Masks(c: Setting, s: Disk, t: Disk) {
    && c.Valid() && c.Rooted() && s.IsDisk() && t.IsDisk()
    && t.host.Some? && Clear(c, s, t) && Recoverable(c, s, t) && Compensable(c, t)
    && forall d :: IsRecovered(c, s, t, d) ==> d != t && !Tells(Reported(Restored, true), true, d == t)
  }
}
