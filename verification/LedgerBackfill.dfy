/** The backfill that enrols legacy events into the evidence chain.

    One pass over the events in id order validates every stored hash against a recomputed one, fills in what is
    missing, and extends the chain. A first pass rebuilds envelopes of legacy events from their ingest rows, a
    later pass from the event and revision rows the first one wrote; `Stable` is the exact condition under which
    the two agree, and so under which the backfill is a fixed point. */
module LedgerBackfill {
  import opened Wrappers
  import opened EvidenceChain

  /** A row of `events`. Empty strings stand for SQL NULL in the three hash columns, 0 for an unset number. */
  datatype Event = Event(
    id: int, sessionId: string, conversationId: string, platform: string, role: string, source: string, content: string,
    createdAt: string, recordedAt: string, payloadSha256: string, previousHash: string, chainHash: string,
    externalId: Option<string>, sourceRevision: nat, sourceCreatedAt: Option<string>, turnId: Option<string>,
    parentId: Option<int>, sensitivity: string, category: string, subcategory: string,
    visibility: string, injectPolicy: string, schemaVersion: nat)

  /** A row of `ingest_events`; the join key is the event id, one row per event. */
  datatype Ingest = Ingest(externalId: string, sourceHash: string, metadata: string)

  /** A row of `event_revisions`, keyed by event id and source revision. */
  datatype Revision = Revision(sourceHash: string, contentSha256: string, metadata: string)

  type Revisions = map<(int, nat), Revision>

  datatype ChainState = ChainState(firstId: int, lastId: int, count: nat, tip: string)

  /** The hash, and the reading of a timestamp out of payload metadata. */
  datatype Tools = Tools(hash: Hash, createdAt: string -> Option<string>)

  ghost predicate GoodTools(tools: Tools) {
    GoodHash(tools.hash) && tools.createdAt("{}") == None && tools.createdAt("") == None
  }

  function Or(n: nat, default: nat): nat { if n == 0 then default else n }

  function OrText(s: string, default: string): string { if s == "" then default else s }

  predicate Enrolled(e: Event) {
    e.payloadSha256 != "" && e.chainHash != ""
  }

  // ----- one row

  function SourceCreatedAt(tools: Tools, e: Event, ingest: Option<Ingest>, revision: Option<Revision>): Option<string> {
    var own := if Enrolled(e) then e.sourceCreatedAt else None;
    var metadata := if Enrolled(e) then (if revision.Some? then revision.value.metadata else "")
                    else (if ingest.Some? then ingest.value.metadata else "");
    if own == None && metadata != "" then tools.createdAt(metadata) else own
  }

  /** The envelope the backfill hashes: from the ingest row for a legacy event, from the event and its revision
      once it is enrolled. */
  function EnvelopeOf(tools: Tools, e: Event, ingest: Option<Ingest>, revision: Option<Revision>): Envelope {
    Envelope(
      category := e.category, conversationId := e.conversationId, eventId := e.id,
      externalEventId := if Enrolled(e) then e.externalId
                         else if ingest.Some? then Some(ingest.value.externalId) else None,
      parentEventId := e.parentId, payloadSha256 := tools.hash(e.content), platform := e.platform,
      recordedAt := OrText(e.recordedAt, e.createdAt), role := e.role, schemaVersion := Or(e.schemaVersion, 9),
      sensitivity := e.sensitivity, sessionId := e.sessionId, source := e.source,
      sourceCreatedAt := SourceCreatedAt(tools, e, ingest, revision),
      sourceHash := if Enrolled(e) then (if revision.Some? then Some(revision.value.sourceHash) else None)
                    else if ingest.Some? then Some(ingest.value.sourceHash) else None,
      sourceRevision := Or(e.sourceRevision, 1), subcategory := e.subcategory, turnId := e.turnId,
      visibility := if Enrolled(e) then e.visibility else e.injectPolicy)
  }

  /** Each stored value, when present, must equal the recomputed one. */
  predicate Validates(tools: Tools, e: Event, previous: string, computed: string) {
    && (e.payloadSha256 == "" || e.payloadSha256 == tools.hash(e.content))
    && (e.previousHash == "" || e.previousHash == previous)
    && (e.chainHash == "" || e.chainHash == computed)
  }

  function Enrol(tools: Tools, e: Event, ingest: Option<Ingest>, revision: Option<Revision>, previous: string): Event {
    var envelope := EnvelopeOf(tools, e, ingest, revision);
    e.(externalId := envelope.externalEventId, sourceCreatedAt := envelope.sourceCreatedAt,
       recordedAt := envelope.recordedAt, payloadSha256 := envelope.payloadSha256, previousHash := previous,
       chainHash := ChainHash(tools.hash, previous, envelope), sourceRevision := 1,
       visibility := e.injectPolicy, schemaVersion := 9)
  }

  function NewRevision(tools: Tools, e: Event, ingest: Ingest): Revision {
    Revision(OrText(ingest.sourceHash, "legacy-unknown"), tools.hash(e.content), OrText(ingest.metadata, "{}"))
  }

  function Lookup<K, V>(m: map<K, V>, k: K): Option<V> {
    if k in m then Some(m[k]) else None
  }

  // ----- the pass, as a function of the rows fetched up front

  /** Events written so far, revisions so far, ids migrated so far, hash of the last event. */
  datatype Pass = Failed | Pass(events: seq<Event>, revisions: Revisions, migrated: seq<int>, tip: string)

  function Step(tools: Tools, ingests: map<int, Ingest>, fetched: Revisions, e: Event, p: Pass): Pass
    requires p.Pass?
  {
    var ingest, revision := Lookup(ingests, e.id), Lookup(fetched, (e.id, e.sourceRevision));
    var computed := ChainHash(tools.hash, p.tip, EnvelopeOf(tools, e, ingest, revision));
    if !Validates(tools, e, p.tip, computed) then Failed
    else if Enrolled(e) then p.(events := p.events + [e], tip := e.chainHash)
    else
      var key := (e.id, 1);
      Pass(p.events + [Enrol(tools, e, ingest, revision, p.tip)],
           if ingest.Some? && key !in p.revisions then p.revisions[key := NewRevision(tools, e, ingest.value)]
           else p.revisions,
           p.migrated + [e.id], computed)
  }

  function Run(tools: Tools, ingests: map<int, Ingest>, fetched: Revisions, events: seq<Event>): Pass {
    if events == [] then Pass([], fetched, [], "")
    else
      var before := Run(tools, ingests, fetched, events[..|events| - 1]);
      if before.Failed? then Failed else Step(tools, ingests, fetched, events[|events| - 1], before)
  }

  class Ledger {
    var events: seq<Event>
    var revisions: Revisions
    var chainState: Option<ChainState>
    const ingests: map<int, Ingest>
    const tools: Tools

    constructor (events: seq<Event>, revisions: Revisions, ingests: map<int, Ingest>, tools: Tools)
      ensures this.events == events && this.revisions == revisions && this.chainState == None
      ensures this.ingests == ingests && this.tools == tools
    {
      this.events, this.revisions, this.chainState, this.ingests, this.tools := events, revisions, None, ingests, tools;
    }

    /** One row: validate, then either keep the stored hash or enrol the event. */
    method BackfillRow(i: nat, fetched: Revisions, migrated: seq<int>, previous: string)
      returns (ok: bool, migrated': seq<int>, tip: string)
      requires i < |events|
      modifies this
      ensures chainState == old(chainState) && |events| == |old(events)|
      ensures forall j :: 0 <= j < |events| && j != i ==> events[j] == old(events)[j]
      ensures events[i].id == old(events)[i].id
      ensures var after := Step(tools, ingests, fetched, old(events)[i],
                                Pass(old(events)[..i], old(revisions), migrated, previous));
              && (ok <==> after.Pass?)
              && (ok ==> after == Pass(events[..i + 1], revisions, migrated', tip))
    {
      hide Validates, EnvelopeOf, ChainHash, Enrolled;
      var row := events[i];
      assert events[..i + 1] == events[..i] + [row];
      var ingest, revision := Lookup(ingests, row.id), Lookup(fetched, (row.id, row.sourceRevision));
      tip := ChainHash(tools.hash, previous, EnvelopeOf(tools, row, ingest, revision));
      migrated', ok := migrated, Validates(tools, row, previous, tip);
      if !ok {
        return;
      }
      if Enrolled(row) {
        tip := row.chainHash;
      } else {
        events := events[i := Enrol(tools, row, ingest, revision, previous)];
        if ingest.Some? && (row.id, 1) !in revisions {
          revisions := revisions[(row.id, 1) := NewRevision(tools, row, ingest.value)];
        }
        migrated' := migrated + [row.id];
      }
    }

    /** The pass itself. `ok == false` is the raised validation error; the caller's transaction then discards
        whatever was written. */
    method Backfill() returns (ok: bool, migrated: seq<int>, ghost tip: string)
      modifies this
      ensures Run(tools, ingests, old(revisions), old(events)) ==
              if ok then Pass(events, revisions, migrated, tip) else Failed
      ensures ok ==> chainState == if events == [] then old(chainState)
                                   else Some(ChainState(events[0].id, events[|events| - 1].id, |events|, tip))
    {
      hide Step, Run;
      var rows, fetched := events, revisions;
      migrated, tip := [], "";
      RunSplits(tools, ingests, fetched, rows);
      if rows == [] {
        return true, migrated, tip;
      }
      var previous, first, last, count := "", None, None, 0;
      assert rows[..0] == [];
      for i := 0 to |rows|
        invariant |events| == |rows| && chainState == old(chainState)
        invariant forall j :: i <= j < |rows| ==> events[j] == rows[j]
        invariant Run(tools, ingests, fetched, rows[..i]) == Pass(events[..i], revisions, migrated, previous)
        invariant count == i && (i > 0 ==> first == Some(events[0].id) && last == Some(events[i - 1].id))
        invariant i == 0 ==> first == None
      {
        var row := events[i];
        ok, migrated, previous := BackfillRow(i, fetched, migrated, previous);
        if !ok {
          RunStopsAtFailure(tools, ingests, fetched, rows, i + 1);
          return;
        }
        first := if first == None then Some(row.id) else first;
        last := Some(row.id);
        count := count + 1;
      }
      assert rows[..|rows|] == rows && events[..|rows|] == events;
      chainState := Some(ChainState(first.value, last.value, count, previous));
      ok, tip := true, previous;
    }
  }

  lemma RunSplits(tools: Tools, ingests: map<int, Ingest>, fetched: Revisions, rows: seq<Event>)
    ensures Run(tools, ingests, fetched, []) == Pass([], fetched, [], "")
    ensures forall i :: 0 <= i < |rows| ==>
              var before := Run(tools, ingests, fetched, rows[..i]);
              Run(tools, ingests, fetched, rows[..i + 1]) ==
              if before.Failed? then Failed else Step(tools, ingests, fetched, rows[i], before)
  {
    hide Step;
    forall i | 0 <= i < |rows|
      ensures var before := Run(tools, ingests, fetched, rows[..i]);
              Run(tools, ingests, fetched, rows[..i + 1]) ==
              if before.Failed? then Failed else Step(tools, ingests, fetched, rows[i], before)
    {
      assert rows[..i + 1][..i] == rows[..i];
    }
  }

  lemma {:induction false} RunStopsAtFailure(tools: Tools, ingests: map<int, Ingest>, fetched: Revisions,
                                             events: seq<Event>, n: nat)
    requires n <= |events| && Run(tools, ingests, fetched, events[..n]).Failed?
    ensures Run(tools, ingests, fetched, events).Failed?
    decreases |events|
  {
    hide Step;
    if n < |events| {
      assert events[..|events| - 1][..n] == events[..n];
      RunStopsAtFailure(tools, ingests, fetched, events[..|events| - 1], n);
    } else {
      assert events[..n] == events;
    }
  }

  // ----- when a second pass agrees with the first

  /** The revision row a later pass finds for an event enrolled by this one. */
  function RevisionAfter(tools: Tools, e: Event, ingest: Option<Ingest>, prior: Option<Revision>): Option<Revision> {
    if prior.Some? then prior
    else if ingest.Some? then Some(NewRevision(tools, e, ingest.value)) else None
  }

  /** What a legacy event must look like for its envelope to come out the same from the ingest row and from the
      stored event and revision. `prior` is a revision-1 row that was there before. */
  predicate Stable(tools: Tools, e: Event, ingest: Option<Ingest>, prior: Option<Revision>) {
    var after := RevisionAfter(tools, e, ingest, prior);
    && (e.schemaVersion == 0 || e.schemaVersion == 9)
    && (e.sourceRevision == 0 || e.sourceRevision == 1)
    && (ingest.Some? <==> after.Some?)
    && (ingest.Some? ==> ingest.value.sourceHash == after.value.sourceHash)
    && (SourceCreatedAt(tools, e, ingest, prior) == None && after.Some? && after.value.metadata != "" ==>
          tools.createdAt(after.value.metadata) == None)
  }

  /** Events of current or unset version and revision, with a usable ingest hash and no earlier revision row. */
  lemma OrdinaryEventsAreStable(tools: Tools, e: Event, ingest: Option<Ingest>)
    requires GoodTools(tools) && !Enrolled(e)
    requires e.schemaVersion in {0, 9} && e.sourceRevision in {0, 1}
    requires ingest.Some? ==> ingest.value.sourceHash != ""
    ensures Stable(tools, e, ingest, None)
  {
  }

  /** Enrolling an event leaves its envelope readable from what was stored exactly if the event is stable. */
  lemma StableIffSameEnvelope(tools: Tools, e: Event, ingest: Option<Ingest>, fetched: Option<Revision>,
                              prior: Option<Revision>, previous: string)
    requires GoodTools(tools) && !Enrolled(e)
    ensures Enrolled(Enrol(tools, e, ingest, fetched, previous))
    ensures EnvelopeOf(tools, Enrol(tools, e, ingest, fetched, previous), ingest,
                       RevisionAfter(tools, e, ingest, prior))
            == EnvelopeOf(tools, e, ingest, fetched)
            <==> Stable(tools, e, ingest, prior)
  {
    hide CanonicalEventEnvelope;
    var stored := Enrol(tools, e, ingest, fetched, previous);
    assert Enrolled(stored);
    var after := RevisionAfter(tools, e, ingest, prior);
    assert SourceCreatedAt(tools, e, ingest, fetched) == SourceCreatedAt(tools, e, ingest, prior) ==
        stored.sourceCreatedAt;
  }

  ghost predicate DistinctIds(events: seq<Event>) {
    forall i, j :: 0 <= i < j < |events| ==> events[i].id != events[j].id
  }

  ghost predicate AllStable(tools: Tools, ingests: map<int, Ingest>, fetched: Revisions, rows: seq<Event>, n: nat)
    requires n <= |rows|
  {
    forall i :: 0 <= i < n && !Enrolled(rows[i]) ==>
      Stable(tools, rows[i], Lookup(ingests, rows[i].id), Lookup(fetched, (rows[i].id, 1)))
  }

  /** The first pass as far as row `n`. */
  ghost function Upto(tools: Tools, ingests: map<int, Ingest>, fetched: Revisions, rows: seq<Event>, n: nat): Pass
    requires n <= |rows|
  {
    Run(tools, ingests, fetched, rows[..n])
  }

  ghost function EventAfter(tools: Tools, ingests: map<int, Ingest>, fetched: Revisions, e: Event, tip: string): Event {
    if Enrolled(e) then e
    else Enrol(tools, e, Lookup(ingests, e.id), Lookup(fetched, (e.id, e.sourceRevision)), tip)
  }

  ghost function FinalRevision(tools: Tools, ingests: map<int, Ingest>, fetched: Revisions, e: Event,
                               k: nat): Option<Revision> {
    if k == 1 && !Enrolled(e) then RevisionAfter(tools, e, Lookup(ingests, e.id), Lookup(fetched, (e.id, 1)))
    else Lookup(fetched, (e.id, k))
  }

  lemma StepShape(tools: Tools, ingests: map<int, Ingest>, fetched: Revisions, e: Event, before: Pass)
    requires before.Pass? && Step(tools, ingests, fetched, e, before).Pass?
    ensures var p := Step(tools, ingests, fetched, e, before);
            && p.events == before.events + [EventAfter(tools, ingests, fetched, e, before.tip)]
            && p.tip == EventAfter(tools, ingests, fetched, e, before.tip).chainHash
            && p.revisions == if !Enrolled(e) && e.id in ingests && (e.id, 1) !in before.revisions
                              then before.revisions[(e.id, 1) := NewRevision(tools, e, ingests[e.id])]
                              else before.revisions
  {
    hide ChainHash, EnvelopeOf, Validates, Enrolled;
  }

  /** The revisions a pass has written by row `n`, event by event. */
  ghost predicate RevisionsUpto(tools: Tools, ingests: map<int, Ingest>, fetched: Revisions, rows: seq<Event>, n: nat,
                                revisions: Revisions)
  {
    forall j, k :: 0 <= j < |rows| ==>
      Lookup(revisions, (rows[j].id, k)) ==
      if j < n then FinalRevision(tools, ingests, fetched, rows[j], k) else Lookup(fetched, (rows[j].id, k))
  }

  lemma RevisionsStep(tools: Tools, ingests: map<int, Ingest>, fetched: Revisions, rows: seq<Event>, n: nat,
                      revisions: Revisions, revisions': Revisions)
    requires n < |rows| && DistinctIds(rows) && RevisionsUpto(tools, ingests, fetched, rows, n, revisions)
    requires var e := rows[n];
             revisions' == if !Enrolled(e) && e.id in ingests && (e.id, 1) !in revisions
                           then revisions[(e.id, 1) := NewRevision(tools, e, ingests[e.id])] else revisions
    ensures RevisionsUpto(tools, ingests, fetched, rows, n + 1, revisions')
  {
    hide Enrolled, NewRevision;
    var e := rows[n];
    assert Lookup(revisions, (e.id, 1)) == Lookup(fetched, (e.id, 1));
    forall j, k: nat | 0 <= j < |rows|
      ensures Lookup(revisions', (rows[j].id, k)) ==
              if j < n + 1 then FinalRevision(tools, ingests, fetched, rows[j], k) else Lookup(fetched, (rows[j].id, k))
    {
      assert j != n ==> rows[j].id != e.id;
      assert (rows[j].id, k) != (e.id, 1) ==> Lookup(revisions', (rows[j].id, k)) == Lookup(revisions, (rows[j].id, k));
    }
  }

  /** A pass that succeeds has succeeded on every row. */
  lemma PassReaches(tools: Tools, ingests: map<int, Ingest>, fetched: Revisions, rows: seq<Event>, n: nat)
    requires n <= |rows| && Run(tools, ingests, fetched, rows).Pass?
    ensures Upto(tools, ingests, fetched, rows, n).Pass?
    ensures n == 0 ==> Upto(tools, ingests, fetched, rows, n) == Pass([], fetched, [], "")
    ensures n > 0 ==> Upto(tools, ingests, fetched, rows, n - 1).Pass? &&
                      Upto(tools, ingests, fetched, rows, n) ==
                      Step(tools, ingests, fetched, rows[n - 1], Upto(tools, ingests, fetched, rows, n - 1))
  {
    RunSplits(tools, ingests, fetched, rows);
    hide Step, Run;
    assert rows[..0] == [];
    if Upto(tools, ingests, fetched, rows, n).Failed? {
      RunStopsAtFailure(tools, ingests, fetched, rows, n);
    }
  }

  /** What a successful pass has written by row `n`. */
  lemma {:induction false} PassShape(tools: Tools, ingests: map<int, Ingest>, fetched: Revisions, rows: seq<Event>,
                                     n: nat)
    requires n <= |rows| && DistinctIds(rows) && Run(tools, ingests, fetched, rows).Pass?
    ensures Upto(tools, ingests, fetched, rows, n).Pass?
    ensures |Upto(tools, ingests, fetched, rows, n).events| == n
    ensures RevisionsUpto(tools, ingests, fetched, rows, n, Upto(tools, ingests, fetched, rows, n).revisions)
    decreases n
  {
    hide Run, Step, RevisionsUpto;
    PassReaches(tools, ingests, fetched, rows, n);
    if n == 0 {
      NothingWritten(tools, ingests, fetched, rows);
    } else {
      var m := n - 1;
      var before, after := Upto(tools, ingests, fetched, rows, m), Upto(tools, ingests, fetched, rows, n);
      PassShape(tools, ingests, fetched, rows, m);
      StepShape(tools, ingests, fetched, rows[m], before);
      hide Upto, NewRevision, Enrolled, EventAfter, DistinctIds;
      RevisionsStep(tools, ingests, fetched, rows, m, before.revisions, after.revisions);
      assert m + 1 == n;
    }
  }

  lemma NothingWritten(tools: Tools, ingests: map<int, Ingest>, fetched: Revisions, rows: seq<Event>)
    ensures RevisionsUpto(tools, ingests, fetched, rows, 0, fetched)
  {
  }

  /** One row of the second pass, chained to the same tip: it goes through exactly if the row was stable, and then
      it writes nothing. */
  lemma SecondStep(tools: Tools, ingests: map<int, Ingest>, fetched: Revisions, final: Revisions, e: Event,
                   before: Pass, again: Pass)
    requires GoodTools(tools) && before.Pass? && again.Pass? && before.tip == again.tip && OneLine(before.tip)
    requires Step(tools, ingests, fetched, e, before).Pass?
    requires forall k :: Lookup(final, (e.id, k)) == FinalRevision(tools, ingests, fetched, e, k)
    ensures var e' := EventAfter(tools, ingests, fetched, e, before.tip);
            Step(tools, ingests, final, e', again) ==
            if Enrolled(e) || Stable(tools, e, Lookup(ingests, e.id), Lookup(fetched, (e.id, 1)))
            then again.(events := again.events + [e'], tip := e'.chainHash) else Failed
  {
    var ingest := Lookup(ingests, e.id);
    var revision, prior := Lookup(fetched, (e.id, e.sourceRevision)), Lookup(fetched, (e.id, 1));
    assert Lookup(final, (e.id, e.sourceRevision)) == FinalRevision(tools, ingests, fetched, e, e.sourceRevision);
    assert Lookup(final, (e.id, 1)) == FinalRevision(tools, ingests, fetched, e, 1);
    if !Enrolled(e) {
      var e' := Enrol(tools, e, ingest, revision, before.tip);
      StableIffSameEnvelope(tools, e, ingest, revision, prior, before.tip);
      var first, second := EnvelopeOf(tools, e, ingest, revision),
          EnvelopeOf(tools, e', ingest, RevisionAfter(tools, e, ingest, prior));
      if ChainHash(tools.hash, before.tip, first) == ChainHash(tools.hash, before.tip, second) {
        ChainHashInjective(tools.hash, before.tip, first, before.tip, second);
      }
      hide CanonicalEventEnvelope, GoodHash, Stable, RevisionAfter;
    }
  }

  lemma RunLast(tools: Tools, ingests: map<int, Ingest>, fetched: Revisions, events: seq<Event>, e: Event)
    ensures Run(tools, ingests, fetched, events + [e]) ==
            if Run(tools, ingests, fetched, events).Failed? then Failed
            else Step(tools, ingests, fetched, e, Run(tools, ingests, fetched, events))
  {
    assert (events + [e])[..|events|] == events;
  }

  lemma TipsOneLine(tools: Tools, ingests: map<int, Ingest>, fetched: Revisions, rows: seq<Event>, n: nat)
    requires GoodTools(tools) && n <= |rows| && DistinctIds(rows) && Run(tools, ingests, fetched, rows).Pass?
    ensures Upto(tools, ingests, fetched, rows, n).Pass? && OneLine(Upto(tools, ingests, fetched, rows, n).tip)
  {
    PassReaches(tools, ingests, fetched, rows, n);
    if n > 0 {
      StepTipOneLine(tools, ingests, fetched, rows[n - 1], Upto(tools, ingests, fetched, rows, n - 1));
    }
  }

  lemma StepTipOneLine(tools: Tools, ingests: map<int, Ingest>, fetched: Revisions, e: Event, before: Pass)
    requires GoodTools(tools) && before.Pass? && Step(tools, ingests, fetched, e, before).Pass?
    ensures OneLine(Step(tools, ingests, fetched, e, before).tip)
  {
    hide CanonicalEventEnvelope, EnvelopeOf;
  }

  /** The second pass, row by row: it fails at the first unstable row, and otherwise reproduces the first pass. */
  lemma {:induction false} SecondPassUpto(tools: Tools, ingests: map<int, Ingest>, fetched: Revisions,
                                          rows: seq<Event>, n: nat)
    requires GoodTools(tools) && n <= |rows| && DistinctIds(rows) && Run(tools, ingests, fetched, rows).Pass?
    ensures Upto(tools, ingests, fetched, rows, n).Pass?
    ensures var final, first := Run(tools, ingests, fetched, rows).revisions, Upto(tools, ingests, fetched, rows, n);
            Run(tools, ingests, final, first.events) ==
            if AllStable(tools, ingests, fetched, rows, n) then Pass(first.events, final, [], first.tip) else Failed
    decreases n
  {
    hide Run, Step, GoodTools, OneLine, Stable, EventAfter, FinalRevision, Enrolled, Upto, AllStable, DistinctIds;
    PassReaches(tools, ingests, fetched, rows, n);
    var final := Run(tools, ingests, fetched, rows).revisions;
    if n == 0 {
      FirstRow(tools, ingests, fetched, rows, final);
    } else {
      var before, first, e := Upto(tools, ingests, fetched, rows, n - 1), Upto(tools, ingests, fetched, rows, n),
          rows[n - 1];
      SecondPassUpto(tools, ingests, fetched, rows, n - 1);
      TipsOneLine(tools, ingests, fetched, rows, n - 1);
      StepShape(tools, ingests, fetched, e, before);
      FinalRevisions(tools, ingests, fetched, rows, n - 1);
      AllStableSplits(tools, ingests, fetched, rows, n - 1);
      RunLast(tools, ingests, final, before.events, EventAfter(tools, ingests, fetched, e, before.tip));
      var again := Run(tools, ingests, final, before.events);
      if again.Pass? {
        SecondStep(tools, ingests, fetched, final, e, before, again);
      }
    }
  }

  lemma FirstRow(tools: Tools, ingests: map<int, Ingest>, fetched: Revisions, rows: seq<Event>, final: Revisions)
    ensures AllStable(tools, ingests, fetched, rows, 0) && Run(tools, ingests, final, []) == Pass([], final, [], "")
  {
  }

  lemma AllStableSplits(tools: Tools, ingests: map<int, Ingest>, fetched: Revisions, rows: seq<Event>, n: nat)
    requires n < |rows|
    ensures AllStable(tools, ingests, fetched, rows, n + 1) <==>
            AllStable(tools, ingests, fetched, rows, n) &&
            (Enrolled(rows[n]) || Stable(tools, rows[n], Lookup(ingests, rows[n].id), Lookup(fetched, (rows[n].id, 1))))
  {
    hide Enrolled, Stable;
  }

  lemma FinalRevisions(tools: Tools, ingests: map<int, Ingest>, fetched: Revisions, rows: seq<Event>, n: nat)
    requires n < |rows| && DistinctIds(rows) && Run(tools, ingests, fetched, rows).Pass?
    ensures forall k :: Lookup(Run(tools, ingests, fetched, rows).revisions, (rows[n].id, k)) ==
                        FinalRevision(tools, ingests, fetched, rows[n], k)
  {
    PassShape(tools, ingests, fetched, rows, |rows|);
    assert rows[..|rows|] == rows;
    hide Run;
  }

  /** After a successful pass over events with distinct ids, a second pass raises nothing exactly when every event
      the first one enrolled was stable; it then leaves every event and revision as they are and migrates none. */
  lemma FixedPointIffStable(tools: Tools, ingests: map<int, Ingest>, fetched: Revisions, rows: seq<Event>)
    requires GoodTools(tools) && DistinctIds(rows) && Run(tools, ingests, fetched, rows).Pass?
    ensures var first := Run(tools, ingests, fetched, rows);
            Run(tools, ingests, first.revisions, first.events) ==
            if AllStable(tools, ingests, fetched, rows, |rows|) then Pass(first.events, first.revisions, [], first.tip)
            else Failed
  {
    SecondPassUpto(tools, ingests, fetched, rows, |rows|);
    assert rows[..|rows|] == rows;
  }

  /** So a second pass fails over any table that passes once with a legacy event of an explicit schema version other
      than 9: the event is hashed under its version and stored under 9. */
  lemma OldSchemaVersionBreaksFixedPoint(tools: Tools, ingests: map<int, Ingest>, fetched: Revisions, rows: seq<Event>,
                                         i: nat)
    requires GoodTools(tools) && DistinctIds(rows) && Run(tools, ingests, fetched, rows).Pass?
    requires i < |rows| && !Enrolled(rows[i]) && rows[i].schemaVersion !in {0, 9}
    ensures var first := Run(tools, ingests, fetched, rows);
            Run(tools, ingests, first.revisions, first.events).Failed?
  {
    hide Run;
    FixedPointIffStable(tools, ingests, fetched, rows);
  }

  /** A legacy event of a schema version, with nothing else out of the ordinary. */
  function LegacyEvent(version: nat): Event {
    Event(1, "s", "c", "p", "user", "src", "hello", "t", "t", "", "", "", None, 1, None, None, None,
          "normal", "unknown", "unknown", "retrieve_only", "retrieve_only", version)
  }

  /** Such tables exist for every version: a single event goes through once, and then again only if its version is
      unset or 9. */
  lemma SchemaVersionDecides(tools: Tools, version: nat)
    requires GoodTools(tools)
    ensures var first := Run(tools, map[], map[], [LegacyEvent(version)]);
            first.Pass? && (Run(tools, map[], first.revisions, first.events).Pass? <==> version in {0, 9})
  {
    hide CanonicalEventEnvelope;
    var e := LegacyEvent(version);
    var rows := [e];
    assert rows[..0] == [];
    assert Step(tools, map[], map[], e, Pass([], map[], [], "")).Pass?;
    assert Run(tools, map[], map[], rows).Pass?;
    FixedPointIffStable(tools, map[], map[], rows);
    if version in {0, 9} {
      OrdinaryEventsAreStable(tools, e, None);
    } else {
      OldSchemaVersionBreaksFixedPoint(tools, map[], map[], rows, 0);
    }
  }

  // ----- a pass is a chain

  /** The row at `i` as the pass hashed it, with the hash it left there. */
  ghost function LinkAt(tools: Tools, ingests: map<int, Ingest>, fetched: Revisions, rows: seq<Event>, i: nat): Link
    requires i < |rows| && Upto(tools, ingests, fetched, rows, i).Pass?
  {
    var e := rows[i];
    var envelope := EnvelopeOf(tools, e, Lookup(ingests, e.id), Lookup(fetched, (e.id, e.sourceRevision)));
    Link(envelope, e.content, ChainHash(tools.hash, Upto(tools, ingests, fetched, rows, i).tip, envelope))
  }

  ghost function Links(tools: Tools, ingests: map<int, Ingest>, fetched: Revisions, rows: seq<Event>,
                       n: nat): (links: seq<Link>)
    requires n <= |rows| && forall i :: 0 <= i < n ==> Upto(tools, ingests, fetched, rows, i).Pass?
    ensures |links| == n
  {
    if n == 0 then []
    else Links(tools, ingests, fetched, rows, n - 1) + [LinkAt(tools, ingests, fetched, rows, n - 1)]
  }

  lemma ExtendChain(hash: Hash, links: seq<Link>, link: Link)
    requires ValidChain(hash, links) && link.envelope.payloadSha256 == hash(link.content)
    requires link.chainHash == ChainHash(hash, Tip(links), link.envelope)
    ensures ValidChain(hash, links + [link]) && Tip(links + [link]) == link.chainHash
  {
    hide ChainHash;
    var more := links + [link];
    forall i | 0 <= i < |more|
      ensures more[i].envelope.payloadSha256 == hash(more[i].content)
      ensures more[i].chainHash == ChainHash(hash, Tip(more[..i]), more[i].envelope)
    {
      assert more[..i] == links[..i];
      assert links[..|links|] == links;
    }
  }

  /** The hash a row ends up with is the one computed for it, whether it was there or is new. */
  lemma StepTip(tools: Tools, ingests: map<int, Ingest>, fetched: Revisions, e: Event, before: Pass)
    requires before.Pass? && Step(tools, ingests, fetched, e, before).Pass?
    ensures var after := Step(tools, ingests, fetched, e, before);
            var envelope := EnvelopeOf(tools, e, Lookup(ingests, e.id), Lookup(fetched, (e.id, e.sourceRevision)));
            && after.tip == ChainHash(tools.hash, before.tip, envelope)
            && |after.events| == |before.events| + 1
            && after.events[|before.events|].chainHash == after.tip
            && after.events[|before.events|].content == e.content
  {
    hide ChainHash, EnvelopeOf;
  }

  /** The rows a pass accepts form a valid chain, and the pass ends at its tip. */
  lemma {:induction false} PassIsChain(tools: Tools, ingests: map<int, Ingest>, fetched: Revisions, rows: seq<Event>,
                                       n: nat)
    requires n <= |rows| && Upto(tools, ingests, fetched, rows, n).Pass?
    ensures forall i :: 0 <= i < n ==> Upto(tools, ingests, fetched, rows, i).Pass?
    ensures ValidChain(tools.hash, Links(tools, ingests, fetched, rows, n))
    ensures Tip(Links(tools, ingests, fetched, rows, n)) == Upto(tools, ingests, fetched, rows, n).tip
  {
    hide Step, EnvelopeOf, ChainHash, ValidChain;
    if n > 0 {
      assert rows[..n][..n - 1] == rows[..n - 1];
      PassIsChain(tools, ingests, fetched, rows, n - 1);
      var before := Upto(tools, ingests, fetched, rows, n - 1);
      StepTip(tools, ingests, fetched, rows[n - 1], before);
      assert LinkAt(tools, ingests, fetched, rows, n - 1).envelope.payloadSha256 == tools.hash(rows[n - 1].content) by {
        EnvelopeHashesContent(tools, rows[n - 1], Lookup(ingests, rows[n - 1].id),
                              Lookup(fetched, (rows[n - 1].id, rows[n - 1].sourceRevision)));
      }
      ExtendChain(tools.hash, Links(tools, ingests, fetched, rows, n - 1),
                  LinkAt(tools, ingests, fetched, rows, n - 1));
    } else {
      assert rows[..0] == [];
      NoLinks(tools.hash);
    }
  }

  lemma EnvelopeHashesContent(tools: Tools, e: Event, ingest: Option<Ingest>, revision: Option<Revision>)
    ensures EnvelopeOf(tools, e, ingest, revision).payloadSha256 == tools.hash(e.content)
  {
  }

  lemma NoLinks(hash: Hash)
    ensures ValidChain(hash, []) && Tip([]) == ""
  {
  }

  /** Tamper evidence of the ledger: two ledgers whose passes succeed and record the same tip have the same number of
      events, and agree on every hashed field and on the content of each. */
  lemma SameTipSameLedger(tools: Tools, ingests: map<int, Ingest>, fetched: Revisions, rows: seq<Event>,
                          ingests': map<int, Ingest>, fetched': Revisions, rows': seq<Event>)
    requires GoodTools(tools)
    requires Run(tools, ingests, fetched, rows).Pass? && Run(tools, ingests', fetched', rows').Pass?
    requires Run(tools, ingests, fetched, rows).tip == Run(tools, ingests', fetched', rows').tip
    ensures |rows| == |rows'|
    ensures forall i :: 0 <= i < |rows| ==>
              Upto(tools, ingests, fetched, rows, i).Pass? && Upto(tools, ingests', fetched', rows', i).Pass?
              && LinkAt(tools, ingests, fetched, rows, i) == LinkAt(tools, ingests', fetched', rows', i)
  {
    hide Run, LinkAt, ValidChain, GoodHash;
    assert rows[..|rows|] == rows && rows'[..|rows'|] == rows';
    PassIsChain(tools, ingests, fetched, rows, |rows|);
    PassIsChain(tools, ingests', fetched', rows', |rows'|);
    var a, b := Links(tools, ingests, fetched, rows, |rows|), Links(tools, ingests', fetched', rows', |rows'|);
    SameTipSameTable(tools.hash, a, b);
    forall i | 0 <= i < |rows|
      ensures LinkAt(tools, ingests, fetched, rows, i) == LinkAt(tools, ingests', fetched', rows', i)
    {
      LinksAt(tools, ingests, fetched, rows, |rows|, i);
      LinksAt(tools, ingests', fetched', rows', |rows'|, i);
    }
  }

  lemma {:induction false} LinksAt(tools: Tools, ingests: map<int, Ingest>, fetched: Revisions, rows: seq<Event>,
                                   n: nat, i: nat)
    requires i < n <= |rows| && forall k :: 0 <= k < n ==> Upto(tools, ingests, fetched, rows, k).Pass?
    ensures Links(tools, ingests, fetched, rows, n)[i] == LinkAt(tools, ingests, fetched, rows, i)
  {
    hide LinkAt, Upto;
    if i < n - 1 {
      LinksAt(tools, ingests, fetched, rows, n - 1, i);
    }
  }

  // ----- the columns of the events

  /** Equal tips mean equal columns: what either table holds of an event is what the other holds, unset numbers and
      times read as the pass reads them. */
  lemma SameTipSameColumns(tools: Tools, ingests: map<int, Ingest>, fetched: Revisions, rows: seq<Event>,
                           ingests': map<int, Ingest>, fetched': Revisions, rows': seq<Event>, i: nat)
    requires GoodTools(tools)
    requires Run(tools, ingests, fetched, rows).Pass? && Run(tools, ingests', fetched', rows').Pass?
    requires Run(tools, ingests, fetched, rows).tip == Run(tools, ingests', fetched', rows').tip
    requires i < |rows|
    ensures |rows'| == |rows|
    ensures var e, e' := rows[i], rows'[i];
            && e.id == e'.id && e.sessionId == e'.sessionId && e.conversationId == e'.conversationId
            && e.platform == e'.platform && e.role == e'.role && e.source == e'.source && e.content == e'.content
            && e.turnId == e'.turnId && e.parentId == e'.parentId && e.sensitivity == e'.sensitivity
            && e.category == e'.category && e.subcategory == e'.subcategory
            && (if e.recordedAt == "" then e.createdAt else e.recordedAt)
               == (if e'.recordedAt == "" then e'.createdAt else e'.recordedAt)
            && (if e.schemaVersion == 0 then 9 else e.schemaVersion)
               == (if e'.schemaVersion == 0 then 9 else e'.schemaVersion)
            && (if e.sourceRevision == 0 then 1 else e.sourceRevision)
               == (if e'.sourceRevision == 0 then 1 else e'.sourceRevision)
    ensures var e, e' := rows[i], rows'[i];
            && (Enrolled(e) && Enrolled(e') ==> e.externalId == e'.externalId && e.visibility == e'.visibility)
            && (!Enrolled(e) && !Enrolled(e') ==> e.injectPolicy == e'.injectPolicy)
            && (!Enrolled(e) && !Enrolled(e') ==> (e.id in ingests <==> e'.id in ingests'))
            && (!Enrolled(e) && !Enrolled(e') && e.id in ingests ==>
                  && ingests[e.id].externalId == ingests'[e'.id].externalId
                  && ingests[e.id].sourceHash == ingests'[e'.id].sourceHash)
    ensures var e, e' := rows[i], rows'[i];
            && (Enrolled(e) && Enrolled(e') && e.sourceCreatedAt.Some? && e'.sourceCreatedAt.Some? ==>
                  e.sourceCreatedAt == e'.sourceCreatedAt)
            && (Enrolled(e) && Enrolled(e') && (e.id, e.sourceRevision) in fetched
                && (e'.id, e'.sourceRevision) in fetched' ==>
                  fetched[(e.id, e.sourceRevision)].sourceHash == fetched'[(e'.id, e'.sourceRevision)].sourceHash)
  {
    SameTipSameLedger(tools, ingests, fetched, rows, ingests', fetched', rows');
    assert LinkAt(tools, ingests, fetched, rows, i) == LinkAt(tools, ingests', fetched', rows', i);
    hide Run, ChainHash;
  }

  /** The envelope of a row once enrolled: its own columns, and what its revision row adds. */
  function StoredEnvelope(tools: Tools, e: Event, revision: Option<Revision>): Envelope {
    var found := e.sourceCreatedAt == None && revision.Some? && revision.value.metadata != "";
    Envelope(
      eventId := e.id, sessionId := e.sessionId, conversationId := e.conversationId, parentEventId := e.parentId,
      turnId := e.turnId, platform := e.platform, role := e.role, source := e.source,
      category := e.category, subcategory := e.subcategory, sensitivity := e.sensitivity,
      payloadSha256 := tools.hash(e.content),
      recordedAt := if e.recordedAt == "" then e.createdAt else e.recordedAt,
      schemaVersion := if e.schemaVersion == 0 then 9 else e.schemaVersion,
      sourceRevision := if e.sourceRevision == 0 then 1 else e.sourceRevision,
      externalEventId := e.externalId, visibility := e.visibility,
      sourceCreatedAt := if found then tools.createdAt(revision.value.metadata) else e.sourceCreatedAt,
      sourceHash := if revision.Some? then Some(revision.value.sourceHash) else None)
  }

  /** A legacy row as it is enrolled, hashes aside: what it lacks comes from its ingest row. */
  function Completed(tools: Tools, e: Event, ingest: Option<Ingest>): Event {
    var found := ingest.Some? && ingest.value.metadata != "";
    e.(externalId := if ingest.Some? then Some(ingest.value.externalId) else None,
       sourceCreatedAt := if found then tools.createdAt(ingest.value.metadata) else None,
       recordedAt := if e.recordedAt == "" then e.createdAt else e.recordedAt,
       visibility := e.injectPolicy)
  }

  /** The envelope of a legacy row: that of the row completed, with the source hash of its ingest row. */
  function LegacyEnvelope(tools: Tools, e: Event, ingest: Option<Ingest>): Envelope {
    StoredEnvelope(tools, Completed(tools, e, ingest), None).(
      sourceHash := if ingest.Some? then Some(ingest.value.sourceHash) else None)
  }

  /** A row that is enrolled goes through exactly if its three hashes are right: of its content, of the event before,
      and of the envelope of its own columns. Nothing is written. */
  lemma EnrolledGoesThroughIff(tools: Tools, ingests: map<int, Ingest>, fetched: Revisions, e: Event, before: Pass)
    requires before.Pass? && e.payloadSha256 != "" && e.chainHash != ""
    ensures var envelope := StoredEnvelope(tools, e, Lookup(fetched, (e.id, e.sourceRevision)));
            var right := && e.payloadSha256 == tools.hash(e.content)
                         && (e.previousHash == "" || e.previousHash == before.tip)
                         && e.chainHash == ChainHash(tools.hash, before.tip, envelope);
            Step(tools, ingests, fetched, e, before) ==
            if right then before.(events := before.events + [e], tip := e.chainHash) else Failed
  {
    hide ChainHash;
  }

  /** A legacy row goes through exactly if what hashes it has are right. It is then completed and written with all
      three, at revision 1 and schema version 9, and gets a revision row if it has an ingest row and none yet. */
  lemma LegacyGoesThroughIff(tools: Tools, ingests: map<int, Ingest>, fetched: Revisions, e: Event, before: Pass)
    requires before.Pass? && (e.payloadSha256 == "" || e.chainHash == "")
    ensures var ingest := Lookup(ingests, e.id);
            var payload, chained := tools.hash(e.content),
                ChainHash(tools.hash, before.tip, LegacyEnvelope(tools, e, ingest));
            var right := && (e.payloadSha256 == "" || e.payloadSha256 == payload)
                         && (e.previousHash == "" || e.previousHash == before.tip)
                         && (e.chainHash == "" || e.chainHash == chained);
            var enrolled := Completed(tools, e, ingest).(payloadSha256 := payload, previousHash := before.tip,
                              chainHash := chained, sourceRevision := 1, schemaVersion := 9);
            Step(tools, ingests, fetched, e, before) ==
            if !right then Failed
            else Pass(before.events + [enrolled], WithRevision(before.revisions, e.id, ingest, payload),
                      before.migrated + [e.id], chained)
  {
    hide ChainHash;
  }

  function WithRevision(revisions: Revisions, id: int, ingest: Option<Ingest>, payload: string): Revisions {
    if ingest.None? || (id, 1) in revisions then revisions
    else
      var hash := if ingest.value.sourceHash == "" then "legacy-unknown" else ingest.value.sourceHash;
      var metadata := if ingest.value.metadata == "" then "{}" else ingest.value.metadata;
      revisions[(id, 1) := Revision(hash, payload, metadata)]
  }
}
