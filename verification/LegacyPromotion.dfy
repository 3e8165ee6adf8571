/** One-time promotion of reviewed legacy records into governed claims: a batch of inserts over several tables in
    one transaction. */
module LegacyPromotion {
  import opened Wrappers

  datatype Error =
    | TransactionNotOwned | DatabaseFailure
    | RecordMissing | NotApproved | Malformed | SecretForbidden
    | Ambiguous | NotActive | ReceiptConflict | Drifted | SpecConflict | KeyConflict

  datatype Result<T> = Ok(value: T) | Err(error: Error)

  // ----- the tables

  datatype Record = Record(content: string, sensitivity: string, status: string)
  datatype Claim = Claim(canonicalKey: string, target: string, memoryType: string)
  datatype Version = Version(
    claimId: nat, number: nat, content: string, sha: string, sensitivity: string,
    injectionPolicy: string, modeScope: seq<string>, lineage: string)
  datatype Source = LegacySource(versionId: nat, recordId: int, sha: string) | OtherSource(versionId: nat)
  datatype Governance = Governance(claimId: nat, versionId: nat, newState: string, actor: string, reason: string)
  datatype Current = Current(versionId: nat, governanceId: nat, state: string)
  datatype Job = Job(recordId: int, claimId: nat, version: nat, sha: string)

  /** Each `next` is the next value of that table's AUTOINCREMENT key. */
  datatype Tables = Tables(
    records: map<int, Record>,
    claims: map<nat, Claim>, nextClaim: nat,
    versions: map<nat, Version>, nextVersion: nat,
    sources: map<nat, Source>, nextSource: nat,
    governance: map<nat, Governance>, nextGovernance: nat,
    current: map<nat, Current>,
    outbox: set<Job>)

  datatype Spec = Spec(
    recordId: int, canonicalKey: string, target: string, memoryType: string,
    modeScope: seq<string>, injectionPolicy: string)

  datatype Item = Item(recordId: int, claimId: nat, version: nat, governanceId: nat, sha: string)

  const ACTOR: string := "legacy_memory_promotion"
  const REASON: string := "legacy_promotion_allowed"
  const LINEAGE: string := "legacy_governed"

  /** What a request promises: no record and no key twice. */
  ghost predicate DistinctItems(items: seq<Spec>) {
    forall i, j :: 0 <= i < j < |items| ==>
      items[i].recordId != items[j].recordId && items[i].canonicalKey != items[j].canonicalKey
  }

  // ----- one item

  function CheckedRecord(t: Tables, spec: Spec): Result<Record> {
    if spec.recordId !in t.records then Err(RecordMissing)
    else
      var r := t.records[spec.recordId];
      if r.status != "approved" then Err(NotApproved)
      else if r.sensitivity !in {"normal", "private", "restricted", "secret"} then Err(Malformed)
      else if r.sensitivity == "secret" then Err(SecretForbidden)
      else if r.content == "" then Err(Malformed)
      else Ok(r)
  }

  /** One row of the join over sources, versions and claims. */
  predicate IsHit(t: Tables, s: nat, recordId: int) {
    && s in t.sources
    && t.sources[s].LegacySource?
    && t.sources[s].recordId == recordId
    && t.sources[s].versionId in t.versions
    && t.versions[t.sources[s].versionId].claimId in t.claims
  }

  function Hits(t: Tables, recordId: int): set<nat> {
    set s | s in t.sources && IsHit(t, s, recordId)
  }

  /** The claim's current row, when it is about the version of this source. */
  function CurrentOf(t: Tables, versionId: nat, claimId: nat): Option<Current> {
    if claimId in t.current && t.current[claimId].versionId == versionId then Some(t.current[claimId]) else None
  }

  function GovernanceOf(t: Tables, versionId: nat, claimId: nat): Option<Governance> {
    match CurrentOf(t, versionId, claimId)
    case None => None
    case Some(c) =>
      if c.governanceId in t.governance
         && t.governance[c.governanceId].claimId == claimId && t.governance[c.governanceId].versionId == versionId
      then Some(t.governance[c.governanceId]) else None
  }

  function Replayed(sha: string -> string, t: Tables, spec: Spec, r: Record, s: nat): Result<Item>
    requires IsHit(t, s, spec.recordId)
  {
    var versionId := t.sources[s].versionId;
    var v := t.versions[versionId];
    var claim := t.claims[v.claimId];
    match (CurrentOf(t, versionId, v.claimId), GovernanceOf(t, versionId, v.claimId))
    case (Some(c), Some(g)) =>
      if c.state != "active" || g.newState != "active" then Err(NotActive)
      else if g.actor != ACTOR || g.reason != REASON then Err(ReceiptConflict)
      else if v.sha != sha(r.content) then Err(Drifted)
      else if claim != Claim(spec.canonicalKey, spec.target, spec.memoryType)
           || v.sensitivity != r.sensitivity || v.injectionPolicy != spec.injectionPolicy
           || v.modeScope != spec.modeScope || v.lineage != LINEAGE then Err(SpecConflict)
      else Ok(Item(spec.recordId, v.claimId, v.number, c.governanceId, sha(r.content)))
    case _ => Err(NotActive)
  }

  predicate KeyTaken(t: Tables, key: string) {
    exists c :: c in t.claims && t.claims[c].canonicalKey == key
  }

  function Inserted(sha: string -> string, t: Tables, spec: Spec, r: Record): Tables {
    t.(claims := t.claims[t.nextClaim := Claim(spec.canonicalKey, spec.target, spec.memoryType)],
       nextClaim := t.nextClaim + 1,
       versions := t.versions[t.nextVersion := Version(t.nextClaim, 1, r.content, sha(r.content), r.sensitivity,
                                                       spec.injectionPolicy, spec.modeScope, LINEAGE)],
       nextVersion := t.nextVersion + 1,
       sources := t.sources[t.nextSource := LegacySource(t.nextVersion, spec.recordId, sha(r.content))],
       nextSource := t.nextSource + 1,
       governance := t.governance[t.nextGovernance := Governance(t.nextClaim, t.nextVersion, "active", ACTOR, REASON)],
       nextGovernance := t.nextGovernance + 1,
       current := t.current[t.nextClaim := Current(t.nextVersion, t.nextGovernance, "active")],
       outbox := t.outbox + {Job(spec.recordId, t.nextClaim, 1, sha(r.content))})
  }

  /** The item of an earlier promotion, or nothing when the record is to be inserted. */
  function Outcome(sha: string -> string, t: Tables, spec: Spec): (o: Result<Option<Item>>)
    ensures o.Ok? ==> CheckedRecord(t, spec).Ok?
  {
    match CheckedRecord(t, spec)
    case Err(e) => Err(e)
    case Ok(r) =>
      var hits := Hits(t, spec.recordId);
      if |hits| > 1 then Err(Ambiguous)
      else if hits != {} then
        match Replayed(sha, t, spec, r, TheOne(hits))
        case Err(e) => Err(e)
        case Ok(item) => Ok(Some(item))
      else if KeyTaken(t, spec.canonicalKey) then Err(KeyConflict)
      else Ok(None)
  }

  function InsertedItem(sha: string -> string, t: Tables, spec: Spec, r: Record): Item {
    Item(spec.recordId, t.nextClaim, 1, t.nextGovernance, sha(r.content))
  }

  function PromoteOne(sha: string -> string, t: Tables, spec: Spec): Result<(Tables, Item)> {
    match Outcome(sha, t, spec)
    case Err(e) => Err(e)
    case Ok(Some(item)) => Ok((t, item))
    case Ok(None) =>
      var r := CheckedRecord(t, spec).value;
      Ok((Inserted(sha, t, spec, r), InsertedItem(sha, t, spec, r)))
  }

  function TheOne(s: set<nat>): (x: nat)
    requires |s| == 1
    ensures s == {x}
  {
    OnlyOne(s);
    var x :| x in s;
    x
  }

  lemma OnlyOne(s: set<nat>)
    requires |s| == 1
    ensures exists x :: x in s
    ensures forall x, y :: x in s && y in s ==> x == y
  {
    assert s != {};
    var x :| x in s;
    assert |s - {x}| == 0;
    assert s == {x};
  }

  // ----- A batch

  ghost function PromoteAll(sha: string -> string, t: Tables, items: seq<Spec>): Result<(Tables, seq<Item>)> {
    if items == [] then Ok((t, []))
    else
      match PromoteAll(sha, t, items[..|items| - 1])
      case Err(e) => Err(e)
      case Ok(before) =>
        match PromoteOne(sha, before.0, items[|items| - 1])
        case Err(e) => Err(e)
        case Ok(after) => Ok((after.0, before.1 + [after.1]))
  }

  // ----- what every reachable state keeps

  ghost predicate Linked(t: Tables) {
    && (forall c :: c in t.claims ==> t.nextClaim > c)
    && (forall v :: v in t.versions ==> t.nextVersion > v && t.versions[v].claimId in t.claims)
    && (forall s :: s in t.sources ==> t.nextSource > s && t.sources[s].versionId in t.versions)
    && (forall g :: g in t.governance ==> t.nextGovernance > g)
    && (forall c :: c in t.current ==>
          c in t.claims && t.current[c].versionId in t.versions && t.current[c].governanceId in t.governance)
  }

  ghost predicate OneClaimPerKey(t: Tables) {
    forall c, d :: c in t.claims && d in t.claims && t.claims[c].canonicalKey == t.claims[d].canonicalKey ==> c == d
  }

  ghost predicate Cites(t: Tables, s: nat, recordId: int) {
    s in t.sources && t.sources[s].LegacySource? && t.sources[s].recordId == recordId
  }

  ghost predicate OneSourcePerRecord(t: Tables) {
    forall s, r, recordId :: Cites(t, s, recordId) && Cites(t, r, recordId) ==> s == r
  }

  /** No version that cites a legacy record is secret. */
  ghost predicate NoSecretLegacy(t: Tables) {
    forall s, recordId :: Cites(t, s, recordId) && t.sources[s].versionId in t.versions ==>
      t.versions[t.sources[s].versionId].sensitivity != "secret"
  }

  ghost predicate Inv(t: Tables) {
    Linked(t) && OneClaimPerKey(t) && OneSourcePerRecord(t) && NoSecretLegacy(t)
  }

  lemma HitsAreCitations(t: Tables, s: nat, recordId: int)
    requires Linked(t)
    ensures IsHit(t, s, recordId) <==> Cites(t, s, recordId)
  {
  }

  lemma AtMostOneHit(t: Tables, recordId: int)
    requires Inv(t)
    ensures |Hits(t, recordId)| <= 1
  {
    var hits := Hits(t, recordId);
    if hits != {} {
      var s :| s in hits;
      forall r | r in hits ensures r == s {
        HitsAreCitations(t, s, recordId);
        HitsAreCitations(t, r, recordId);
      }
      assert hits == {s};
    }
  }

  lemma InsertedKeepsLinks(sha: string -> string, t: Tables, spec: Spec, r: Record)
    requires Linked(t)
    ensures Linked(Inserted(sha, t, spec, r))
  {
  }

  lemma InsertedKeepsKeys(sha: string -> string, t: Tables, spec: Spec, r: Record)
    requires Linked(t) && OneClaimPerKey(t) && !KeyTaken(t, spec.canonicalKey)
    ensures OneClaimPerKey(Inserted(sha, t, spec, r))
  {
  }

  lemma InsertedCites(sha: string -> string, t: Tables, spec: Spec, r: Record, s: nat, recordId: int)
    requires Linked(t)
    ensures Cites(Inserted(sha, t, spec, r), s, recordId)
       <==> Cites(t, s, recordId) || (s == t.nextSource && recordId == spec.recordId)
  {
  }

  lemma InsertedKeepsSources(sha: string -> string, t: Tables, spec: Spec, r: Record)
    requires Linked(t) && OneSourcePerRecord(t) && Hits(t, spec.recordId) == {}
    ensures OneSourcePerRecord(Inserted(sha, t, spec, r))
  {
    forall s, recordId
      ensures Cites(Inserted(sha, t, spec, r), s, recordId)
         <==> Cites(t, s, recordId) || (s == t.nextSource && recordId == spec.recordId)
    {
      InsertedCites(sha, t, spec, r, s, recordId);
    }
    forall s ensures !Cites(t, s, spec.recordId) {
      assert s !in Hits(t, spec.recordId);
      HitsAreCitations(t, s, spec.recordId);
    }
    hide Cites, Hits, Inserted;
  }

  lemma InsertedKeepsSecrets(sha: string -> string, t: Tables, spec: Spec, r: Record)
    requires Linked(t) && NoSecretLegacy(t) && r.sensitivity != "secret"
    ensures NoSecretLegacy(Inserted(sha, t, spec, r))
  {
    var t' := Inserted(sha, t, spec, r);
    forall s, recordId | Cites(t', s, recordId) && t'.sources[s].versionId in t'.versions
      ensures t'.versions[t'.sources[s].versionId].sensitivity != "secret"
    {
      InsertedCites(sha, t, spec, r, s, recordId);
      if Cites(t, s, recordId) {
        assert t.sources[s].versionId in t.versions;
      }
    }
  }

  lemma InsertedKeepsInv(sha: string -> string, t: Tables, spec: Spec, r: Record)
    requires Inv(t) && !KeyTaken(t, spec.canonicalKey) && Hits(t, spec.recordId) == {} && r.sensitivity != "secret"
    ensures Inv(Inserted(sha, t, spec, r))
  {
    InsertedKeepsLinks(sha, t, spec, r);
    InsertedKeepsKeys(sha, t, spec, r);
    InsertedKeepsSources(sha, t, spec, r);
    InsertedKeepsSecrets(sha, t, spec, r);
  }

  lemma InsertsOnlyWhatIsNew(sha: string -> string, t: Tables, spec: Spec)
    requires Outcome(sha, t, spec) == Ok(None)
    ensures Hits(t, spec.recordId) == {} && !KeyTaken(t, spec.canonicalKey)
    ensures CheckedRecord(t, spec).value.sensitivity != "secret"
  {
    hide Replayed, Hits;
  }

  lemma PromoteOneKeepsInv(sha: string -> string, t: Tables, spec: Spec)
    requires Inv(t) && PromoteOne(sha, t, spec).Ok?
    ensures Inv(PromoteOne(sha, t, spec).value.0)
    ensures PromoteOne(sha, t, spec).value.0.records == t.records
  {
    hide Inv, Outcome;
    if Outcome(sha, t, spec) == Ok(None) {
      InsertsOnlyWhatIsNew(sha, t, spec);
      InsertedKeepsInv(sha, t, spec, CheckedRecord(t, spec).value);
    }
  }

  // ----- items do not get in each other's way

  lemma InsertedKeepsHits(sha: string -> string, t: Tables, spec: Spec, r: Record, other: int)
    requires Linked(t) && other != spec.recordId
    ensures Hits(Inserted(sha, t, spec, r), other) == Hits(t, other)
  {
    var t' := Inserted(sha, t, spec, r);
    InsertedKeepsLinks(sha, t, spec, r);
    forall s ensures IsHit(t', s, other) <==> IsHit(t, s, other) {
      HitsAreCitations(t, s, other);
      HitsAreCitations(t', s, other);
      InsertedCites(sha, t, spec, r, s, other);
    }
    hide IsHit, Inserted;
    assert forall s :: s in Hits(t', other) <==> IsHit(t', s, other) by { HitsExact(t', other); }
    assert forall s :: s in Hits(t, other) <==> IsHit(t, s, other) by { HitsExact(t, other); }
  }

  lemma HitsExact(t: Tables, recordId: int)
    ensures forall s :: s in Hits(t, recordId) <==> IsHit(t, s, recordId)
  {
  }

  lemma InsertedKeepsReplay(sha: string -> string, t: Tables, spec: Spec, r: Record, other: Spec, q: Record, s: nat)
    requires Linked(t) && other.recordId != spec.recordId && IsHit(t, s, other.recordId)
    ensures var t' := Inserted(sha, t, spec, r);
            IsHit(t', s, other.recordId) && Replayed(sha, t', other, q, s) == Replayed(sha, t, other, q, s)
  {
  }

  /** A promotion of one record leaves the outcome for every other record and key as it was. */
  lemma InsertedKeepsOutcome(sha: string -> string, t: Tables, spec: Spec, r: Record, other: Spec)
    requires Linked(t)
    requires other.recordId != spec.recordId && other.canonicalKey != spec.canonicalKey
    ensures Outcome(sha, Inserted(sha, t, spec, r), other) == Outcome(sha, t, other)
  {
    var t' := Inserted(sha, t, spec, r);
    InsertedKeepsHits(sha, t, spec, r, other.recordId);
    InsertedKeepsOtherKeys(sha, t, spec, r, other.canonicalKey);
    assert CheckedRecord(t', other) == CheckedRecord(t, other);
    var hits := Hits(t, other.recordId);
    if |hits| == 1 && CheckedRecord(t, other).Ok? {
      HitsExact(t, other.recordId);
      InsertedKeepsReplay(sha, t, spec, r, other, CheckedRecord(t, other).value, TheOne(hits));
    }
    hide Linked, Replayed, Hits, KeyTaken, Inserted, CheckedRecord;
  }

  lemma OthersUnaffected(sha: string -> string, t: Tables, spec: Spec, other: Spec)
    requires Inv(t) && PromoteOne(sha, t, spec).Ok?
    requires other.recordId != spec.recordId && other.canonicalKey != spec.canonicalKey
    ensures Outcome(sha, PromoteOne(sha, t, spec).value.0, other) == Outcome(sha, t, other)
  {
    if Outcome(sha, t, spec) == Ok(None) {
      InsertedKeepsOutcome(sha, t, spec, CheckedRecord(t, spec).value, other);
    }
    hide Inv, Outcome;
  }

  lemma InsertedKeepsOtherKeys(sha: string -> string, t: Tables, spec: Spec, r: Record, key: string)
    requires Linked(t) && key != spec.canonicalKey
    ensures KeyTaken(Inserted(sha, t, spec, r), key) <==> KeyTaken(t, key)
  {
    var t' := Inserted(sha, t, spec, r);
    if KeyTaken(t, key) {
      var c :| c in t.claims && t.claims[c].canonicalKey == key;
      assert c in t'.claims && t'.claims[c].canonicalKey == key;
    }
  }

  // ----- A promoted item stays promoted

  ghost predicate Settled(sha: string -> string, t: Tables, spec: Spec, item: Item) {
    Outcome(sha, t, spec) == Ok(Some(item))
  }

  lemma InsertedIsHit(sha: string -> string, t: Tables, spec: Spec, r: Record)
    requires Inv(t) && Hits(t, spec.recordId) == {}
    ensures Hits(Inserted(sha, t, spec, r), spec.recordId) == {t.nextSource}
  {
    var t' := Inserted(sha, t, spec, r);
    InsertedKeepsLinks(sha, t, spec, r);
    forall s ensures IsHit(t', s, spec.recordId) <==> s == t.nextSource {
      HitsAreCitations(t, s, spec.recordId);
      HitsAreCitations(t', s, spec.recordId);
      InsertedCites(sha, t, spec, r, s, spec.recordId);
      assert s !in Hits(t, spec.recordId);
    }
  }

  lemma InsertedIsReplayed(sha: string -> string, t: Tables, spec: Spec)
    requires Inv(t) && Outcome(sha, t, spec) == Ok(None)
    ensures var r := CheckedRecord(t, spec).value;
            var t' := Inserted(sha, t, spec, r);
            && CheckedRecord(t', spec) == Ok(r)
            && IsHit(t', t.nextSource, spec.recordId)
            && Replayed(sha, t', spec, r, t.nextSource) == Ok(InsertedItem(sha, t, spec, r))
  {
    var r := CheckedRecord(t, spec).value;
    InsertedRows(sha, t, spec, r);
    hide Inv, Outcome, Inserted;
  }

  lemma InsertedRows(sha: string -> string, t: Tables, spec: Spec, r: Record)
    ensures var t' := Inserted(sha, t, spec, r);
            && t'.records == t.records
            && IsHit(t', t.nextSource, spec.recordId)
            && t'.sources[t.nextSource].versionId == t.nextVersion
            && t'.versions[t.nextVersion] == Version(t.nextClaim, 1, r.content, sha(r.content), r.sensitivity,
                                                     spec.injectionPolicy, spec.modeScope, LINEAGE)
            && t'.claims[t.nextClaim] == Claim(spec.canonicalKey, spec.target, spec.memoryType)
            && CurrentOf(t', t.nextVersion, t.nextClaim) == Some(Current(t.nextVersion, t.nextGovernance, "active"))
            && GovernanceOf(t', t.nextVersion, t.nextClaim)
               == Some(Governance(t.nextClaim, t.nextVersion, "active", ACTOR, REASON))
  {
  }

  lemma PromotingSettles(sha: string -> string, t: Tables, spec: Spec)
    requires Inv(t) && PromoteOne(sha, t, spec).Ok?
    ensures Settled(sha, PromoteOne(sha, t, spec).value.0, spec, PromoteOne(sha, t, spec).value.1)
  {
    if Outcome(sha, t, spec) == Ok(None) {
      var r := CheckedRecord(t, spec).value;
      var t' := Inserted(sha, t, spec, r);
      InsertsOnlyWhatIsNew(sha, t, spec);
      InsertedIsHit(sha, t, spec, r);
      InsertedIsReplayed(sha, t, spec);
      hide Inv, Replayed, Hits, KeyTaken, Inserted, CheckedRecord, InsertedItem;
      var hits := Hits(t', spec.recordId);
      assert |hits| == 1;
      assert TheOne(hits) in {t.nextSource};
    }
  }

  lemma SettledHasKey(sha: string -> string, t: Tables, spec: Spec, item: Item)
    requires Settled(sha, t, spec, item)
    ensures |Hits(t, spec.recordId)| == 1
    ensures KeyTaken(t, spec.canonicalKey)
  {
    var s := TheOne(Hits(t, spec.recordId));
    assert s in Hits(t, spec.recordId);
    var claimId := t.versions[t.sources[s].versionId].claimId;
    assert t.claims[claimId].canonicalKey == spec.canonicalKey;
  }

  lemma SettledStays(sha: string -> string, t: Tables, spec: Spec, item: Item, other: Spec)
    requires Inv(t) && Settled(sha, t, spec, item) && PromoteOne(sha, t, other).Ok?
    ensures Settled(sha, PromoteOne(sha, t, other).value.0, spec, item)
  {
    if Outcome(sha, t, other) == Ok(None) {
      SettledHasKey(sha, t, spec, item);
      InsertsOnlyWhatIsNew(sha, t, other);
      InsertedKeepsOutcome(sha, t, other, CheckedRecord(t, other).value, spec);
    }
    hide Outcome, Hits, KeyTaken, Inserted, CheckedRecord;
  }

  // ----- batches

  lemma PromoteAllStep(sha: string -> string, t: Tables, items: seq<Spec>, n: nat)
    requires n < |items|
    ensures PromoteAll(sha, t, items[..n + 1]) ==
            match PromoteAll(sha, t, items[..n])
            case Err(e) => Err(e)
            case Ok(before) =>
              match PromoteOne(sha, before.0, items[n])
              case Err(e) => Err(e)
              case Ok(after) => Ok((after.0, before.1 + [after.1]))
  {
    assert items[..n + 1][..n] == items[..n];
  }

  /** A batch that goes through keeps the invariant, and every one of its items is settled. */
  lemma {:induction false} BatchKeepsInv(sha: string -> string, t: Tables, items: seq<Spec>, n: nat)
    requires n <= |items| && Inv(t) && PromoteAll(sha, t, items[..n]).Ok?
    ensures var after := PromoteAll(sha, t, items[..n]).value;
            && Inv(after.0)
            && after.0.records == t.records
            && |after.1| == n
            && forall i :: 0 <= i < n ==> Settled(sha, after.0, items[i], after.1[i])
  {
    hide Inv, Settled, PromoteOne;
    if n > 0 {
      PromoteAllStep(sha, t, items, n - 1);
      BatchKeepsInv(sha, t, items, n - 1);
      var before := PromoteAll(sha, t, items[..n - 1]).value;
      PromoteOneKeepsInv(sha, before.0, items[n - 1]);
      PromotingSettles(sha, before.0, items[n - 1]);
      forall i | 0 <= i < n - 1
        ensures Settled(sha, PromoteOne(sha, before.0, items[n - 1]).value.0, items[i], before.1[i])
      {
        SettledStays(sha, before.0, items[i], before.1[i], items[n - 1]);
      }
    } else {
      NoItems(sha, t, items);
    }
  }

  lemma NoItems(sha: string -> string, t: Tables, items: seq<Spec>)
    ensures PromoteAll(sha, t, items[..0]) == Ok((t, []))
  {
  }

  /** The outcome of an item does not depend on the items before it. */
  lemma {:induction false} OutcomeInBatch(sha: string -> string, t: Tables, items: seq<Spec>, n: nat, k: nat)
    requires n <= k < |items| && Inv(t) && DistinctItems(items) && PromoteAll(sha, t, items[..n]).Ok?
    ensures Outcome(sha, PromoteAll(sha, t, items[..n]).value.0, items[k]) == Outcome(sha, t, items[k])
  {
    hide Inv, Outcome, PromoteOne;
    if n > 0 {
      PromoteAllStep(sha, t, items, n - 1);
      OutcomeInBatch(sha, t, items, n - 1, k);
      BatchKeepsInv(sha, t, items, n - 1);
      OthersUnaffected(sha, PromoteAll(sha, t, items[..n - 1]).value.0, items[n - 1], items[k]);
    } else {
      NoItems(sha, t, items);
    }
  }

  lemma {:induction false} BatchUptoSucceedsIff(sha: string -> string, t: Tables, items: seq<Spec>, n: nat)
    requires n <= |items| && Inv(t) && DistinctItems(items)
    ensures PromoteAll(sha, t, items[..n]).Ok? <==> forall i :: 0 <= i < n ==> Outcome(sha, t, items[i]).Ok?
  {
    hide Inv, Outcome, DistinctItems, PromoteAll, Inserted, InsertedItem, CheckedRecord;
    if n > 0 {
      PromoteAllStep(sha, t, items, n - 1);
      BatchUptoSucceedsIff(sha, t, items, n - 1);
      if PromoteAll(sha, t, items[..n - 1]).Ok? {
        OutcomeInBatch(sha, t, items, n - 1, n - 1);
      }
    } else {
      NoItems(sha, t, items);
    }
  }

  /** A batch succeeds exactly when each item would succeed by itself in the state the batch finds; so neither the
      order of the items nor their company matters. */
  lemma BatchSucceedsIff(sha: string -> string, t: Tables, items: seq<Spec>)
    requires Inv(t) && DistinctItems(items)
    ensures PromoteAll(sha, t, items).Ok? <==> forall i :: 0 <= i < |items| ==> PromoteOne(sha, t, items[i]).Ok?
  {
    BatchUptoSucceedsIff(sha, t, items, |items|);
    assert items[..|items|] == items;
    hide Outcome, PromoteAll;
  }

  // ----- replay after any further history

  ghost function AfterCall(sha: string -> string, t: Tables, items: seq<Spec>): Tables {
    match PromoteAll(sha, t, items)
    case Err(_) => t
    case Ok(after) => after.0
  }

  ghost function AfterCalls(sha: string -> string, t: Tables, calls: seq<seq<Spec>>): Tables {
    if calls == [] then t
    else AfterCall(sha, AfterCalls(sha, t, calls[..|calls| - 1]), calls[|calls| - 1])
  }

  lemma {:induction false} BatchKeepsSettled(sha: string -> string, t: Tables, items: seq<Spec>, n: nat, spec: Spec,
                                             item: Item)
    requires n <= |items| && Inv(t) && PromoteAll(sha, t, items[..n]).Ok? && Settled(sha, t, spec, item)
    ensures Settled(sha, PromoteAll(sha, t, items[..n]).value.0, spec, item)
  {
    hide Inv, Settled, PromoteOne;
    if n > 0 {
      PromoteAllStep(sha, t, items, n - 1);
      BatchKeepsSettled(sha, t, items, n - 1, spec, item);
      BatchKeepsInv(sha, t, items, n - 1);
      SettledStays(sha, PromoteAll(sha, t, items[..n - 1]).value.0, spec, item, items[n - 1]);
    } else {
      NoItems(sha, t, items);
    }
  }

  lemma CallKeeps(sha: string -> string, t: Tables, items: seq<Spec>)
    requires Inv(t)
    ensures Inv(AfterCall(sha, t, items)) && AfterCall(sha, t, items).records == t.records
    ensures forall spec, item :: Settled(sha, t, spec, item) ==> Settled(sha, AfterCall(sha, t, items), spec, item)
  {
    hide Inv, Settled;
    assert items[..|items|] == items;
    if PromoteAll(sha, t, items).Ok? {
      BatchKeepsInv(sha, t, items, |items|);
      forall spec, item | Settled(sha, t, spec, item)
        ensures Settled(sha, AfterCall(sha, t, items), spec, item)
      {
        BatchKeepsSettled(sha, t, items, |items|, spec, item);
      }
    }
  }

  /** Every state a run of promotions reaches keeps one claim for each key, at most one claim for each legacy
      record, and nothing secret. */
  lemma {:induction false} RunKeepsInv(sha: string -> string, t: Tables, calls: seq<seq<Spec>>)
    requires Inv(t)
    ensures Inv(AfterCalls(sha, t, calls)) && AfterCalls(sha, t, calls).records == t.records
    ensures forall spec, item :: Settled(sha, t, spec, item) ==> Settled(sha, AfterCalls(sha, t, calls), spec, item)
  {
    hide Inv, Settled, AfterCall;
    if calls != [] {
      RunKeepsInv(sha, t, calls[..|calls| - 1]);
      CallKeeps(sha, AfterCalls(sha, t, calls[..|calls| - 1]), calls[|calls| - 1]);
    }
  }

  lemma {:induction false} SettledReplays(sha: string -> string, t: Tables, items: seq<Spec>, result: seq<Item>, n: nat)
    requires n <= |items| == |result| && forall i :: 0 <= i < |items| ==> Settled(sha, t, items[i], result[i])
    ensures PromoteAll(sha, t, items[..n]) == Ok((t, result[..n]))
  {
    hide Outcome;
    if n > 0 {
      PromoteAllStep(sha, t, items, n - 1);
      SettledReplays(sha, t, items, result, n - 1);
      assert result[..n] == result[..n - 1] + [result[n - 1]];
    } else {
      NoItems(sha, t, items);
    }
  }

  /** Whatever promotions follow, repeating a successful request returns the same items and writes nothing. */
  lemma ReplayIsIdentical(sha: string -> string, t: Tables, items: seq<Spec>, calls: seq<seq<Spec>>)
    requires Inv(t) && PromoteAll(sha, t, items).Ok?
    ensures var first := PromoteAll(sha, t, items).value;
            var later := AfterCalls(sha, first.0, calls);
            PromoteAll(sha, later, items) == Ok((later, first.1))
  {
    assert items[..|items|] == items;
    BatchKeepsInv(sha, t, items, |items|);
    var first := PromoteAll(sha, t, items).value;
    RunKeepsInv(sha, first.0, calls);
    var later := AfterCalls(sha, first.0, calls);
    forall i | 0 <= i < |items| ensures Settled(sha, later, items[i], first.1[i]) {
    }
    SettledReplays(sha, later, items, first.1, |items|);
    assert first.1[..|items|] == first.1;
  }

  // ----- one source for each record

  lemma NeverAmbiguousOne(sha: string -> string, t: Tables, spec: Spec)
    requires Inv(t)
    ensures Outcome(sha, t, spec) != Err(Ambiguous)
  {
    AtMostOneHit(t, spec.recordId);
    hide Inv, Hits;
  }

  lemma {:induction false} NeverAmbiguousBatch(sha: string -> string, t: Tables, items: seq<Spec>, n: nat)
    requires n <= |items| && Inv(t)
    ensures PromoteAll(sha, t, items[..n]) != Err(Ambiguous)
  {
    hide Inv, Outcome;
    if n > 0 {
      PromoteAllStep(sha, t, items, n - 1);
      NeverAmbiguousBatch(sha, t, items, n - 1);
      if PromoteAll(sha, t, items[..n - 1]).Ok? {
        BatchKeepsInv(sha, t, items, n - 1);
        NeverAmbiguousOne(sha, PromoteAll(sha, t, items[..n - 1]).value.0, items[n - 1]);
      }
    } else {
      NoItems(sha, t, items);
    }
  }

  /** In no run of promotions does a request meet the "ambiguous" error. */
  lemma AmbiguousIsUnreachable(sha: string -> string, t: Tables, calls: seq<seq<Spec>>, items: seq<Spec>)
    requires Inv(t)
    ensures PromoteAll(sha, AfterCalls(sha, t, calls), items) != Err(Ambiguous)
  {
    RunKeepsInv(sha, t, calls);
    NeverAmbiguousBatch(sha, AfterCalls(sha, t, calls), items, |items|);
    assert items[..|items|] == items;
  }

  // ----- what is promoted

  ghost predicate FromRecord(sha: string -> string, v: Version, r: Record) {
    && r.status == "approved" && r.sensitivity in {"normal", "private", "restricted"} && r.content != ""
    && v.content == r.content && v.sha == sha(r.content) && v.sensitivity == r.sensitivity && v.number == 1
  }

  /** Versions that were not there before a batch are approved, non-secret records it names. */
  lemma {:induction false} OnlyApprovedContent(sha: string -> string, t: Tables, items: seq<Spec>, n: nat, v: nat)
    requires n <= |items| && Inv(t) && PromoteAll(sha, t, items[..n]).Ok?
    requires v in PromoteAll(sha, t, items[..n]).value.0.versions && v !in t.versions
    ensures exists i :: 0 <= i < n && items[i].recordId in t.records
              && FromRecord(sha, PromoteAll(sha, t, items[..n]).value.0.versions[v], t.records[items[i].recordId])
  {
    hide Inv, Outcome;
    if n > 0 {
      PromoteAllStep(sha, t, items, n - 1);
      BatchKeepsInv(sha, t, items, n - 1);
      var before := PromoteAll(sha, t, items[..n - 1]).value.0;
      if v in before.versions {
        OnlyApprovedContent(sha, t, items, n - 1, v);
        InsertsAbove(sha, before, items[n - 1], v);
      } else {
        assert items[n - 1].recordId in t.records;
      }
    } else {
      NoItems(sha, t, items);
    }
  }

  lemma InsertsAbove(sha: string -> string, t: Tables, spec: Spec, v: nat)
    requires Inv(t) && PromoteOne(sha, t, spec).Ok? && v in t.versions
    ensures v in PromoteOne(sha, t, spec).value.0.versions
    ensures PromoteOne(sha, t, spec).value.0.versions[v] == t.versions[v]
  {
    hide Outcome;
  }

  // ----- what a promotion stores, and what it replays

  predicate Promotable(t: Tables, spec: Spec) {
    && spec.recordId in t.records
    && var r := t.records[spec.recordId];
       r.status == "approved" && r.sensitivity in {"normal", "private", "restricted"} && r.content != ""
  }

  /** A record that cannot be promoted: which error says so. */
  lemma RefusedRecords(sha: string -> string, t: Tables, spec: Spec)
    requires !Promotable(t, spec)
    ensures PromoteOne(sha, t, spec) == Err(
      if spec.recordId !in t.records then RecordMissing
      else
        var r := t.records[spec.recordId];
        if r.status != "approved" then NotApproved
        else if r.sensitivity == "secret" then SecretForbidden else Malformed)
  {
  }

  ghost predicate NeverPromoted(t: Tables, recordId: int) {
    forall s :: !Cites(t, s, recordId)
  }

  lemma InsertedStores(sha: string -> string, t: Tables, spec: Spec, r: Record)
    ensures Stores(sha, t, Inserted(sha, t, spec, r), spec, r, InsertedItem(sha, t, spec, r))
  {
  }

  /** A record no claim cites goes through exactly if its key is free. It becomes the first version of one new, active
      claim that cites the record, with one receipt and one job; the tables hold nothing else that is new. */
  lemma FirstPromotionStores(sha: string -> string, t: Tables, spec: Spec)
    requires Linked(t) && Promotable(t, spec) && NeverPromoted(t, spec.recordId)
    ensures var taken := exists c :: c in t.claims && t.claims[c].canonicalKey == spec.canonicalKey;
            if taken then PromoteOne(sha, t, spec) == Err(KeyConflict)
            else PromoteOne(sha, t, spec).Ok? &&
                 var (t', item) := PromoteOne(sha, t, spec).value;
                 Stores(sha, t, t', spec, t.records[spec.recordId], item)
  {
    forall s ensures s !in Hits(t, spec.recordId) {
      HitsAreCitations(t, s, spec.recordId);
    }
    assert Hits(t, spec.recordId) == {};
    InsertedStores(sha, t, spec, t.records[spec.recordId]);
    hide Hits, Replayed, Inserted, InsertedItem, Stores;
  }

  ghost predicate Stores(sha: string -> string, t: Tables, t': Tables, spec: Spec, r: Record, item: Item) {
    var (claim, version, source, receipt) := (t.nextClaim, t.nextVersion, t.nextSource, t.nextGovernance);
    && item == Item(spec.recordId, claim, 1, receipt, sha(r.content))
    && t'.records == t.records
    && t'.claims == t.claims[claim := Claim(spec.canonicalKey, spec.target, spec.memoryType)]
    && t'.versions == t.versions[version := Version(claim, 1, r.content, sha(r.content), r.sensitivity,
                                                          spec.injectionPolicy, spec.modeScope, "legacy_governed")]
    && t'.sources == t.sources[source := LegacySource(version, spec.recordId, sha(r.content))]
    && t'.governance == t.governance[receipt := Governance(claim, version, "active", "legacy_memory_promotion",
                                                                 "legacy_promotion_allowed")]
    && t'.current == t.current[claim := Current(version, receipt, "active")]
    && t'.outbox == t.outbox + {Job(spec.recordId, claim, 1, sha(r.content))}
    && t'.nextClaim > claim && t'.nextVersion > version && t'.nextSource > source && t'.nextGovernance > receipt
  }

  /** The claim is active under this version, by a receipt of its own. */
  predicate ActiveUnder(t: Tables, versionId: nat, claimId: nat) {
    && claimId in t.current && t.current[claimId].versionId == versionId && t.current[claimId].state == "active"
    && var receipt := t.current[claimId].governanceId;
       && receipt in t.governance
       && t.governance[receipt].claimId == claimId && t.governance[receipt].versionId == versionId
       && t.governance[receipt].newState == "active"
  }

  /** A record that one claim cites: what is compared, in this order, before the stored item is returned and nothing
      written. */
  lemma ReplayDecided(sha: string -> string, t: Tables, spec: Spec, s: nat)
    requires Linked(t) && OneSourcePerRecord(t) && Promotable(t, spec) && Cites(t, s, spec.recordId)
    ensures var r := t.records[spec.recordId];
            var versionId := t.sources[s].versionId;
            var v := t.versions[versionId];
            var claim := t.claims[v.claimId];
            PromoteOne(sha, t, spec) ==
            if !ActiveUnder(t, versionId, v.claimId) then Err(NotActive)
            else
              var receipt := t.current[v.claimId].governanceId;
              if t.governance[receipt].actor != "legacy_memory_promotion"
                 || t.governance[receipt].reason != "legacy_promotion_allowed" then Err(ReceiptConflict)
              else if v.sha != sha(r.content) then Err(Drifted)
              else if claim.canonicalKey != spec.canonicalKey || claim.target != spec.target
                      || claim.memoryType != spec.memoryType || v.sensitivity != r.sensitivity
                      || v.injectionPolicy != spec.injectionPolicy || v.modeScope != spec.modeScope
                      || v.lineage != "legacy_governed" then Err(SpecConflict)
              else Ok((t, Item(spec.recordId, v.claimId, v.number, receipt, v.sha)))
  {
    HitsAreCitations(t, s, spec.recordId);
    forall q ensures q in Hits(t, spec.recordId) <==> q == s {
      HitsAreCitations(t, q, spec.recordId);
    }
    assert Hits(t, spec.recordId) == {s};
    hide Hits, Cites;
    assert TheOne(Hits(t, spec.recordId)) == s by {
      assert TheOne({s}) in {s};
    }
  }

  // ----- the service

  class LegacyMemoryPromotionService {
    const sha: string -> string
    /** Which statements fail, by the number of statements made before. */
    const fails: nat -> bool
    var clock: nat
    var tables: Tables
    var inTransaction: bool

    constructor (sha: string -> string, fails: nat -> bool, tables: Tables)
      ensures this.sha == sha && this.fails == fails && this.tables == tables && !inTransaction
    {
      this.sha, this.fails, this.clock := sha, fails, 0;
      this.tables := tables;
      inTransaction := false;
    }

    /** One of the statements made from one count to another has failed. */
    ghost predicate SomeFailed(from: nat, until: nat) {
      exists n :: from <= n < until && fails(n)
    }

    lemma NoneFailed(from: nat)
      ensures !SomeFailed(from, from)
    {
    }

    lemma FailedAdds(from: nat, mid: nat, until: nat)
      requires from <= mid <= until
      ensures SomeFailed(from, until) <==> SomeFailed(from, mid) || SomeFailed(mid, until)
    {
    }

    /** One more statement, after none has failed since `from`. */
    method Breaks(ghost from: nat) returns (b: bool)
      requires from <= clock && !SomeFailed(from, clock)
      modifies this`clock
      ensures b == fails(old(clock)) && clock == old(clock) + 1
      ensures b <==> SomeFailed(from, clock)
    {
      b := fails(clock);
      clock := clock + 1;
    }

    /** Insert the rows for one record; the database may fail at any statement. */
    method InsertClaim(spec: Spec, r: Record, contentSha: string) returns (result: Result<Item>)
      requires contentSha == sha(r.content)
      modifies this`tables, this`clock
      ensures clock >= old(clock)
      ensures result == if SomeFailed(old(clock), clock) then Err(DatabaseFailure)
                        else Ok(InsertedItem(sha, old(tables), spec, r))
      ensures result.Ok? ==> tables == Inserted(sha, old(tables), spec, r)
    {
      ghost var start := clock;
      hide SomeFailed;
      NoneFailed(start);
      var broken := Breaks(start);
      if broken { return Err(DatabaseFailure); }
      var claimId := tables.nextClaim;
      tables := tables.(claims := tables.claims[claimId := Claim(spec.canonicalKey, spec.target, spec.memoryType)],
                        nextClaim := claimId + 1);
      broken := Breaks(start);
      if broken { return Err(DatabaseFailure); }
      var versionId := tables.nextVersion;
      var version := Version(claimId, 1, r.content, contentSha, r.sensitivity, spec.injectionPolicy, spec.modeScope,
                             LINEAGE);
      tables := tables.(versions := tables.versions[versionId := version],
                        nextVersion := versionId + 1);
      broken := Breaks(start);
      if broken { return Err(DatabaseFailure); }
      var source := LegacySource(versionId, spec.recordId, contentSha);
      tables := tables.(sources := tables.sources[tables.nextSource := source],
                        nextSource := tables.nextSource + 1);
      broken := Breaks(start);
      if broken { return Err(DatabaseFailure); }
      var governanceId := tables.nextGovernance;
      var receipt := Governance(claimId, versionId, "active", ACTOR, REASON);
      tables := tables.(governance := tables.governance[governanceId := receipt],
                        nextGovernance := governanceId + 1);
      broken := Breaks(start);
      if broken { return Err(DatabaseFailure); }
      tables := tables.(current := tables.current[claimId := Current(versionId, governanceId, "active")]);
      broken := Breaks(start);
      if broken { return Err(DatabaseFailure); }
      tables := tables.(outbox := tables.outbox + {Job(spec.recordId, claimId, 1, contentSha)});
      result := Ok(Item(spec.recordId, claimId, 1, governanceId, contentSha));
    }

    method PromoteItem(spec: Spec) returns (result: Result<Item>)
      modifies this`tables, this`clock
      ensures clock >= old(clock)
      ensures SomeFailed(old(clock), clock) ==> result == Err(DatabaseFailure)
      ensures !SomeFailed(old(clock), clock) ==>
                match PromoteOne(sha, old(tables), spec)
                case Err(e) => result == Err(e)
                case Ok(after) => result == Ok(after.1) && tables == after.0
    {
      hide Replayed, Hits, KeyTaken, Inserted, InsertedItem, SomeFailed;
      ghost var start := clock;
      NoneFailed(start);
      var broken := Breaks(start);
      if broken { return Err(DatabaseFailure); }
      var checked := CheckedRecord(tables, spec);
      if checked.Err? { return Err(checked.error); }
      var contentSha := sha(checked.value.content);
      broken := Breaks(start);
      if broken { return Err(DatabaseFailure); }
      var hits := Hits(tables, spec.recordId);
      if |hits| > 1 { return Err(Ambiguous); }
      if hits != {} {
        OneHit(hits);
        HitsExact(tables, spec.recordId);
        result := Replayed(sha, tables, spec, checked.value, TheOne(hits));
        return;
      }
      broken := Breaks(start);
      if broken { return Err(DatabaseFailure); }
      if KeyTaken(tables, spec.canonicalKey) { return Err(KeyConflict); }
      ghost var inserting := clock;
      result := InsertClaim(spec, checked.value, contentSha);
      FailedAdds(start, inserting, clock);
    }

    /** All items or none: any error leaves every table as it was. */
    method Promote(items: seq<Spec>) returns (result: Result<seq<Item>>)
      modifies this
      ensures inTransaction == old(inTransaction) && clock >= old(clock)
      ensures old(inTransaction) ==> result == Err(TransactionNotOwned) && clock == old(clock)
      ensures !old(inTransaction) && SomeFailed(old(clock), clock) ==> result == Err(DatabaseFailure)
      ensures !old(inTransaction) && !SomeFailed(old(clock), clock) ==>
                match PromoteAll(sha, old(tables), items)
                case Err(e) => result == Err(e)
                case Ok(after) => result == Ok(after.1) && tables == after.0
      ensures result.Err? ==> tables == old(tables)
    {
      hide PromoteOne;
      if inTransaction { return Err(TransactionNotOwned); }
      ghost var start := clock;
      NoneFailed(start);
      var broken := Breaks(start);
      if broken { return Err(DatabaseFailure); }
      inTransaction := true;
      var saved := tables;
      var promoted: seq<Item> := [];
      NoItems(sha, saved, items);
      for k := 0 to |items|
        invariant inTransaction && clock > old(clock) && !SomeFailed(old(clock), clock)
        invariant PromoteAll(sha, saved, items[..k]) == Ok((tables, promoted))
      {
        PromoteAllStep(sha, saved, items, k);
        var one := PromoteItem(items[k]);
        if one.Err? {
          tables := saved;
          inTransaction := false;
          if !SomeFailed(old(clock), clock) {
            ErrorStays(sha, saved, items, k + 1);
          }
          return Err(one.error);
        }
        promoted := promoted + [one.value];
      }
      assert items[..|items|] == items;
      inTransaction := false;
      broken := Breaks(start);
      if broken {
        tables := saved;
        return Err(DatabaseFailure);
      }
      result := Ok(promoted);
    }
  }

  lemma OneHit(hits: set<nat>)
    requires hits != {} && |hits| <= 1
    ensures |hits| == 1
  {
  }

  lemma {:induction false} ErrorStays(sha: string -> string, t: Tables, items: seq<Spec>, n: nat)
    requires n <= |items| && PromoteAll(sha, t, items[..n]).Err?
    ensures PromoteAll(sha, t, items) == PromoteAll(sha, t, items[..n])
    decreases |items| - n
  {
    hide PromoteOne;
    if n < |items| {
      PromoteAllStep(sha, t, items, n);
      ErrorStays(sha, t, items, n + 1);
    } else {
      assert items[..n] == items;
    }
  }
}
