/** The memory authority policy, and what it means for claims derived from claims: sensitivity flows along every
    path of a derivation graph. */
module MemoryPolicy {
  import opened Wrappers

  datatype Sensitivity = Normal | Private | Restricted | Secret

  datatype Lifecycle = PendingReview | Active | Superseded | Retired | Expired | Rejected | Quarantined

  datatype Lineage =
    | EventDerived | ExplicitUserAssertion | SystemGovernedInvariant | LegacyGoverned | TransientTaskState

  datatype Surface = Search | Open | Exact | Inject | Audit

  datatype Mode = Daily | Work | Sex | Cron | Default

  /** An object at one version, by its payload hash. */
  datatype Ref = Ref(kind: string, objectId: string, version: int, sha: string)

  datatype Snapshot = Snapshot(
    ref: Ref, sensitivity: Sensitivity, lifecycle: Lifecycle, modes: seq<Mode>, injectionPolicy: string)

  datatype WriteCommand = WriteCommand(
    lineage: Lineage, sensitivity: Sensitivity, modes: seq<Mode>, refs: seq<Ref>, lifecycle: Lifecycle)

  datatype AccessRequest = AccessRequest(surface: Surface, mode: Mode, ceiling: Sensitivity)

  datatype Reason =
    | WriteAllowed | EmptyLineage | LegacyLineage | SecretWrite | SensitivityDowngrade
    | SnapshotMissing | SnapshotMismatch
    | Inactive | CeilingExceeded | SecretAccess | RestrictedAccess | ModeDenied | InjectionDenied | AccessAllowed

  datatype Decision = Decision(allowed: bool, reason: Reason, sensitivity: Option<Sensitivity>)

  function Rank(s: Sensitivity): nat {
    match s
    case Normal => 0
    case Private => 1
    case Restricted => 2
    case Secret => 3
  }

  function Higher(a: Sensitivity, b: Sensitivity): Sensitivity {
    if Rank(b) > Rank(a) then b else a
  }

  // ----- the policy functions

  /** max(..., default=NORMAL) */
  function SourceSensitivity(sources: seq<Snapshot>): (s: Sensitivity)
    ensures forall i :: 0 <= i < |sources| ==> Rank(sources[i].sensitivity) <= Rank(s)
    ensures s == Normal || exists i :: 0 <= i < |sources| && sources[i].sensitivity == s
  {
    if sources == [] then Normal
    else Higher(SourceSensitivity(sources[..|sources| - 1]), sources[|sources| - 1].sensitivity)
  }

  function InheritSensitivity(sources: seq<Snapshot>, requested: Sensitivity): Decision {
    var source := SourceSensitivity(sources);
    var effective := Higher(source, requested);
    if Rank(requested) < Rank(source) then Decision(false, SensitivityDowngrade, Some(effective))
    else Decision(true, WriteAllowed, Some(effective))
  }

  predicate NeedsSource(lineage: Lineage) {
    lineage == EventDerived || lineage == ExplicitUserAssertion
  }

  function Refs(refs: seq<Ref>): set<Ref> {
    set r | r in refs
  }

  function SnapshotRefs(sources: seq<Snapshot>): set<Ref> {
    set s | s in sources :: s.ref
  }

  function AdmitWrite(command: WriteCommand, sources: seq<Snapshot>): Decision {
    if command.sensitivity == Secret then Decision(false, SecretWrite, None)
    else if command.lineage == LegacyGoverned then Decision(false, LegacyLineage, None)
    else if NeedsSource(command.lineage) && command.refs == [] then Decision(false, SnapshotMissing, None)
    else if NeedsSource(command.lineage) && sources == [] then Decision(false, SnapshotMissing, None)
    else if NeedsSource(command.lineage)
         && (|Refs(command.refs)| != |command.refs| || |SnapshotRefs(sources)| != |sources|
             || Refs(command.refs) != SnapshotRefs(sources)) then
      Decision(false, SnapshotMismatch, None)
    else
      var inherited := InheritSensitivity(sources, command.sensitivity);
      if !inherited.allowed then inherited
      else if command.lifecycle == Active && command.refs == [] then
        Decision(false, EmptyLineage, inherited.sensitivity)
      else Decision(true, WriteAllowed, inherited.sensitivity)
  }

  function AdmitAccess(s: Snapshot, q: AccessRequest): Decision {
    if s.lifecycle != Active then Decision(false, Inactive, Some(s.sensitivity))
    else if Rank(s.sensitivity) > Rank(q.ceiling) then Decision(false, CeilingExceeded, Some(s.sensitivity))
    else if s.sensitivity == Secret then Decision(false, SecretAccess, Some(s.sensitivity))
    else if s.sensitivity == Restricted && q.surface != Audit
        then Decision(false, RestrictedAccess, Some(s.sensitivity))
    else if s.sensitivity == Private && q.mode != Daily && q.mode != Sex
        then Decision(false, ModeDenied, Some(s.sensitivity))
    else if q.mode !in s.modes then Decision(false, ModeDenied, Some(s.sensitivity))
    else if q.surface == Inject && s.injectionPolicy != "allow"
        then Decision(false, InjectionDenied, Some(s.sensitivity))
    else Decision(true, AccessAllowed, Some(s.sensitivity))
  }

  // ----- what is admitted

  predicate Distinct<T(==)>(xs: seq<T>) {
    forall i, j :: 0 <= i < j < |xs| ==> xs[i] != xs[j]
  }

  lemma {:induction false} DistinctIffSize(refs: seq<Ref>)
    ensures |Refs(refs)| <= |refs|
    ensures |Refs(refs)| == |refs| <==> Distinct(refs)
  {
    if refs != [] {
      var n := |refs| - 1;
      DistinctIffSize(refs[..n]);
      assert refs == refs[..n] + [refs[n]];
      assert Refs(refs) == Refs(refs[..n]) + {refs[n]};
      assert Distinct(refs) <==> Distinct(refs[..n]) && refs[n] !in refs[..n];
    }
  }

  function RefsOf(sources: seq<Snapshot>): seq<Ref> {
    seq(|sources|, i requires 0 <= i < |sources| => sources[i].ref)
  }

  lemma RefsOfSources(sources: seq<Snapshot>)
    ensures Refs(RefsOf(sources)) == SnapshotRefs(sources)
  {
    var refs := RefsOf(sources);
    forall s | s in sources ensures s.ref in refs {
      var i :| 0 <= i < |sources| && sources[i] == s;
      assert refs[i] == s.ref;
    }
    forall r | r in refs ensures r in SnapshotRefs(sources) {
      var i :| 0 <= i < |refs| && refs[i] == r;
      assert sources[i] in sources;
    }
  }

  /** The references name each source once, and nothing else. */
  ghost predicate NamesSources(refs: seq<Ref>, sources: seq<Snapshot>) {
    && Distinct(refs) && Distinct(RefsOf(sources))
    && (forall r :: r in refs <==> r in RefsOf(sources))
  }

  lemma NamesSourcesIff(refs: seq<Ref>, sources: seq<Snapshot>)
    ensures NamesSources(refs, sources) <==>
            |Refs(refs)| == |refs| && |SnapshotRefs(sources)| == |sources| && Refs(refs) == SnapshotRefs(sources)
  {
    DistinctIffSize(refs);
    DistinctIffSize(RefsOf(sources));
    RefsOfSources(sources);
    hide SnapshotRefs, RefsOf, Distinct;
    assert |RefsOf(sources)| == |sources| by { RefsOfLength(sources); }
    assert Refs(refs) == Refs(RefsOf(sources)) <==> forall r :: r in refs <==> r in RefsOf(sources) by {
      SameMembers(refs, RefsOf(sources));
    }
  }

  lemma RefsOfLength(sources: seq<Snapshot>)
    ensures |RefsOf(sources)| == |sources|
  {
  }

  lemma SameMembers(a: seq<Ref>, b: seq<Ref>)
    ensures Refs(a) == Refs(b) <==> forall r :: r in a <==> r in b
  {
    if Refs(a) == Refs(b) {
      forall r ensures r in a <==> r in b {
        assert r in Refs(a) <==> r in a;
        assert r in Refs(b) <==> r in b;
      }
    }
  }

  lemma NotBelow(sources: seq<Snapshot>, requested: Sensitivity)
    ensures Rank(requested) >= Rank(SourceSensitivity(sources)) <==>
            forall i :: 0 <= i < |sources| ==> Rank(sources[i].sensitivity) <= Rank(requested)
  {
  }

  /** What a write is refused for, in this order, and that it is else admitted at the sensitivity it asks for. */
  lemma WriteDecided(command: WriteCommand, sources: seq<Snapshot>)
    ensures var decision := AdmitWrite(command, sources);
            var needy := command.lineage in {EventDerived, ExplicitUserAssertion};
            var low := exists i :: 0 <= i < |sources| && Rank(sources[i].sensitivity) > Rank(command.sensitivity);
            if command.sensitivity == Secret then !decision.allowed && decision.reason == SecretWrite
            else if command.lineage == LegacyGoverned then !decision.allowed && decision.reason == LegacyLineage
            else if needy && (command.refs == [] || sources == []) then
              !decision.allowed && decision.reason == SnapshotMissing
            else if needy && !NamesSources(command.refs, sources) then
              !decision.allowed && decision.reason == SnapshotMismatch
            else if low then !decision.allowed && decision.reason == SensitivityDowngrade
            else if command.lifecycle == Active && command.refs == [] then
              !decision.allowed && decision.reason == EmptyLineage
            else decision == Decision(true, WriteAllowed, Some(command.sensitivity))
  {
    NamesSourcesIff(command.refs, sources);
    NotBelow(sources, command.sensitivity);
    hide Refs, SnapshotRefs, NamesSources, SourceSensitivity;
  }

  /** A claim is shown exactly if it is active, within the ceiling and not secret; restricted ones only to the audit,
      private ones only in the daily and sex modes; in its own modes; and injected only if its policy says so. */
  lemma AccessAllowedIff(s: Snapshot, q: AccessRequest)
    ensures AdmitAccess(s, q).allowed <==>
            && s.lifecycle == Active && Rank(s.sensitivity) <= Rank(q.ceiling)
            && q.mode in s.modes && (q.surface == Inject ==> s.injectionPolicy == "allow")
            && match s.sensitivity
               case Normal => true
               case Private => q.mode == Daily || q.mode == Sex
               case Restricted => q.surface == Audit
               case Secret => false
    ensures AdmitAccess(s, q).sensitivity == Some(s.sensitivity)
    ensures AdmitAccess(s, q).reason ==
            if s.lifecycle != Active then Inactive
            else if Rank(s.sensitivity) > Rank(q.ceiling) then CeilingExceeded
            else if s.sensitivity == Secret then SecretAccess
            else if s.sensitivity == Restricted && q.surface != Audit then RestrictedAccess
            else if (s.sensitivity == Private && q.mode !in {Daily, Sex}) || q.mode !in s.modes then ModeDenied
            else if q.surface == Inject && s.injectionPolicy != "allow" then InjectionDenied
            else AccessAllowed
  {
  }

  // ----- derivation graphs

  /** An event, or a claim written on the strength of earlier nodes. */
  datatype Node =
    | Event(snapshot: Snapshot)
    | Claim(snapshot: Snapshot, command: WriteCommand, sources: seq<nat>)

  ghost predicate Earlier(g: seq<Node>, k: nat)
    requires k < |g|
  {
    g[k].Claim? ==> forall i :: 0 <= i < |g[k].sources| ==> k > g[k].sources[i]
  }

  ghost function Snapshots(g: seq<Node>, k: nat): seq<Snapshot>
    requires k < |g| && g[k].Claim? && Earlier(g, k)
  {
    seq(|g[k].sources|, i requires 0 <= i < |g[k].sources| => g[g[k].sources[i]].snapshot)
  }

  /** The claim was admitted, and stores the sensitivity the decision gave. */
  ghost predicate Admitted(g: seq<Node>, k: nat)
    requires k < |g|
  {
    && Earlier(g, k)
    && (g[k].Claim? ==>
          var decision := AdmitWrite(g[k].command, Snapshots(g, k));
          decision.allowed && decision.sensitivity == Some(g[k].snapshot.sensitivity))
  }

  ghost predicate AllAdmitted(g: seq<Node>) {
    forall k :: 0 <= k < |g| ==> Admitted(g, k)
  }

  ghost predicate Ancestor(g: seq<Node>, j: nat, k: nat)
    requires k < |g|
    decreases k
  {
    && Earlier(g, k)
    && g[k].Claim?
    && (j in g[k].sources || exists m: nat :: m < k && m in g[k].sources && Ancestor(g, j, m))
  }

  /** Each claim on the path has the one before it among its sources. */
  ghost predicate Derivation(g: seq<Node>, path: seq<nat>) {
    && |path| >= 2
    && (forall i :: 0 <= i < |path| ==> path[i] < |g|)
    && forall i :: 0 < i < |path| ==> g[path[i]].Claim? && path[i - 1] in g[path[i]].sources
  }

  lemma {:induction false} AncestorHasPath(g: seq<Node>, j: nat, k: nat) returns (path: seq<nat>)
    requires k < |g| && (forall n :: 0 <= n < |g| ==> Earlier(g, n)) && Ancestor(g, j, k)
    ensures Derivation(g, path) && path[0] == j && path[|path| - 1] == k
    decreases k
  {
    if j in g[k].sources {
      var i :| 0 <= i < |g[k].sources| && g[k].sources[i] == j;
      path := [j, k];
    } else {
      var m: nat :| m < k && m in g[k].sources && Ancestor(g, j, m);
      var i :| 0 <= i < |g[k].sources| && g[k].sources[i] == m;
      path := AncestorHasPath(g, j, m);
      path := path + [k];
    }
  }

  lemma {:induction false} PathMakesAncestor(g: seq<Node>, path: seq<nat>)
    requires (forall n :: 0 <= n < |g| ==> Earlier(g, n)) && Derivation(g, path)
    ensures Ancestor(g, path[0], path[|path| - 1])
    decreases |path|
  {
    var last, k := path[|path| - 2], path[|path| - 1];
    assert Earlier(g, k) && last in g[k].sources;
    if |path| > 2 {
      PathMakesAncestor(g, path[..|path| - 1]);
      var i :| 0 <= i < |g[k].sources| && g[k].sources[i] == last;
      assert last < k;
    }
  }

  /** The ancestors of a claim are what its derivations lead back to. */
  lemma AncestorIff(g: seq<Node>, j: nat, k: nat)
    requires k < |g| && forall n :: 0 <= n < |g| ==> Earlier(g, n)
    ensures Ancestor(g, j, k) <==> exists path :: Derivation(g, path) && path[0] == j && path[|path| - 1] == k
  {
    if Ancestor(g, j, k) {
      var path := AncestorHasPath(g, j, k);
    }
    if path :| Derivation(g, path) && path[0] == j && path[|path| - 1] == k {
      PathMakesAncestor(g, path);
    }
  }

  lemma AdmittedCoversSources(g: seq<Node>, k: nat, j: nat)
    requires k < |g| && Admitted(g, k) && g[k].Claim? && j in g[k].sources
    ensures j < k
    ensures Rank(g[j].snapshot.sensitivity) <= Rank(g[k].snapshot.sensitivity) < Rank(Secret)
  {
    var i :| 0 <= i < |g[k].sources| && g[k].sources[i] == j;
    assert Snapshots(g, k)[i] == g[j].snapshot;
  }

  /** A claim is at least as sensitive as everything it was ever derived from, and nothing it was derived from is
      secret. */
  lemma {:induction false} SensitivityFlows(g: seq<Node>, j: nat, k: nat)
    requires AllAdmitted(g) && k < |g| && Ancestor(g, j, k)
    ensures j < k
    ensures Rank(g[j].snapshot.sensitivity) <= Rank(g[k].snapshot.sensitivity) < Rank(Secret)
    decreases k
  {
    assert Admitted(g, k);
    if j in g[k].sources {
      AdmittedCoversSources(g, k, j);
    } else {
      var m: nat :| m < k && m in g[k].sources && Ancestor(g, j, m);
      AdmittedCoversSources(g, k, m);
      SensitivityFlows(g, j, m);
    }
  }

  /** What any surface but the audit shows was derived from normal and private nodes only, and outside the daily
      and sex modes from normal ones only. */
  lemma AccessShowsOnlyWhatModesAllow(g: seq<Node>, j: nat, k: nat, s: Snapshot, q: AccessRequest)
    requires AllAdmitted(g) && k < |g| && (Ancestor(g, j, k) || j == k)
    requires s.sensitivity == g[k].snapshot.sensitivity && AdmitAccess(s, q).allowed
    ensures j < |g| && Rank(g[j].snapshot.sensitivity) <= Rank(q.ceiling)
    ensures q.surface != Audit ==> g[j].snapshot.sensitivity == Normal || g[j].snapshot.sensitivity == Private
    ensures q.mode != Daily && q.mode != Sex && q.surface != Audit ==> g[j].snapshot.sensitivity == Normal
    ensures g[j].snapshot.sensitivity != Secret
  {
    if j != k {
      SensitivityFlows(g, j, k);
    }
  }

  // ----- what a claim cites

  /** No two nodes are the same object at the same version. */
  ghost predicate DistinctRefs(g: seq<Node>) {
    forall i, j :: 0 <= i < j < |g| ==> g[i].snapshot.ref != g[j].snapshot.ref
  }

  ghost predicate Cites(g: seq<Node>, j: nat, k: nat)
    requires j < |g| && k < |g|
  {
    g[k].Claim? && g[j].snapshot.ref in g[k].command.refs
  }

  /** Every reference of the claim has its snapshot among those the policy was shown. */
  ghost predicate CitationsCovered(g: seq<Node>, k: nat)
    requires k < |g| && g[k].Claim? && Earlier(g, k)
  {
    Refs(g[k].command.refs) <= SnapshotRefs(Snapshots(g, k))
  }

  lemma CoveredIsSource(g: seq<Node>, j: nat, k: nat)
    requires DistinctRefs(g) && j < |g| && k < |g| && g[k].Claim? && Earlier(g, k) && CitationsCovered(g, k)
    requires Cites(g, j, k)
    ensures j in g[k].sources
  {
    var snapshots := Snapshots(g, k);
    assert g[j].snapshot.ref in Refs(g[k].command.refs);
    var s :| s in snapshots && s.ref == g[j].snapshot.ref;
    var i :| 0 <= i < |snapshots| && snapshots[i] == s;
    assert g[g[k].sources[i]].snapshot.ref == s.ref;
  }

  /** For the lineages that need a source, the policy checks the cover itself, and a claim is derived from exactly the
      nodes it cites. */
  lemma CitedIsSource(g: seq<Node>, j: nat, k: nat)
    requires DistinctRefs(g) && j < |g| && k < |g| && Admitted(g, k) && g[k].Claim? && NeedsSource(g[k].command.lineage)
    ensures CitationsCovered(g, k)
    ensures Cites(g, j, k) <==> j in g[k].sources
  {
    var snapshots := Snapshots(g, k);
    assert Refs(g[k].command.refs) == SnapshotRefs(snapshots);
    if Cites(g, j, k) {
      CoveredIsSource(g, j, k);
    }
    if j in g[k].sources {
      var i :| 0 <= i < |g[k].sources| && g[k].sources[i] == j;
      assert snapshots[i] in snapshots;
      assert g[j].snapshot.ref in Refs(g[k].command.refs);
    }
  }

  ghost predicate CitedAncestor(g: seq<Node>, j: nat, k: nat, steps: nat)
    requires j < |g| && k < |g|
    decreases steps
  {
    if steps == 0 then Cites(g, j, k)
    else exists m: nat :: m < |g| && Cites(g, m, k) && CitedAncestor(g, j, m, steps - 1)
  }

  /** Where citations are covered, sensitivity also flows along every path of them, whatever the lineage. */
  lemma {:induction false} SensitivityFlowsAlongCitations(g: seq<Node>, j: nat, k: nat, steps: nat)
    requires DistinctRefs(g) && AllAdmitted(g)
    requires forall n :: 0 <= n < |g| && g[n].Claim? ==> Earlier(g, n) && CitationsCovered(g, n)
    requires j < |g| && k < |g| && CitedAncestor(g, j, k, steps)
    ensures Rank(g[j].snapshot.sensitivity) <= Rank(g[k].snapshot.sensitivity) < Rank(Secret)
    decreases steps
  {
    if steps == 0 {
      CoveredIsSource(g, j, k);
      AdmittedCoversSources(g, k, j);
    } else {
      var m: nat :| m < |g| && Cites(g, m, k) && CitedAncestor(g, j, m, steps - 1);
      CoveredIsSource(g, m, k);
      AdmittedCoversSources(g, k, m);
      SensitivityFlowsAlongCitations(g, j, m, steps - 1);
    }
  }

  /** The other lineages are admitted without their citations being looked at: shown no snapshot, the policy lets a
      normal claim cite a secret event. */
  lemma CitationsUnchecked(secret: Snapshot, lineage: Lineage)
    requires secret.sensitivity == Secret && !NeedsSource(lineage) && lineage != LegacyGoverned
    ensures AdmitWrite(WriteCommand(lineage, Normal, [], [secret.ref], Active), []) ==
              Decision(true, WriteAllowed, Some(Normal))
  {
  }
}
