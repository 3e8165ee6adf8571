/** The receipt table of candidate promotion, shared by any number of workers that interleave between any two SQL
    statements. */
module ReceiptProtocol {
  import opened Wrappers

  datatype Decision =
    | Processing | Pending
    | Activated | Duplicate | Superseded | Retracted | Conflict | Dropped | Rejected | Error

  datatype Outcome = Outcome(
    decision: Decision, reason: string, claimId: Option<int>, claimVersion: Option<int>, target: string)

  datatype Review = Review(reviewer: string, reason: string)

  datatype Receipt = Receipt(sha: string, outcome: Outcome, review: Option<Review>)

  /** candidate_id is the primary key. */
  type Table = map<string, Receipt>

  /** What a promotion attempt may answer. */
  type Verdict = o: Outcome | o.decision != Processing witness Outcome(Error, "", None, None, "")

  predicate IsApproval(d: Decision) {
    d == Activated || d == Duplicate || d == Superseded
  }

  // ----- the SQL statements

  function InsertOrIgnore(t: Table, id: string, sha: string, target: string): Table {
    if id in t then t
    else t[id := Receipt(sha, Outcome(Processing, "in_progress", None, None, target), None)]
  }

  /** A missing reviewer or reason reads as an empty one. */
  predicate ReviewMatches(recorded: Option<Review>, review: Review) {
    match recorded
    case None => review == Review("", "")
    case Some(r) => r == review
  }

  predicate Holds(t: Table, id: string, sha: string, d: Decision) {
    id in t && t[id].sha == sha && t[id].outcome.decision == d
  }

  function Finalize(t: Table, id: string, sha: string, o: Verdict): Table {
    if Holds(t, id, sha, Processing) then t[id := t[id].(outcome := o)] else t
  }

  function Approve(t: Table, id: string, sha: string, o: Verdict, review: Review): Table {
    if Holds(t, id, sha, Pending) then t[id := t[id].(outcome := o, review := Some(review))] else t
  }

  // ----- how the table may change

  predicate Moves(r: Receipt, r': Receipt) {
    && r'.sha == r.sha
    && (|| r' == r
        || (r.outcome.decision == Processing && r'.outcome.decision != Processing)
        || (r.outcome.decision == Pending && IsApproval(r'.outcome.decision)))
  }

  predicate Evolves(t: Table, t': Table) {
    forall id :: id in t ==> id in t' && Moves(t[id], t'[id])
  }

  lemma EvolvesTransitive(t: Table, t': Table, t'': Table)
    requires Evolves(t, t') && Evolves(t', t'')
    ensures Evolves(t, t'')
  {
    forall id | id in t ensures id in t'' && Moves(t[id], t''[id]) {
      assert Moves(t[id], t'[id]) && Moves(t'[id], t''[id]);
    }
  }

  lemma StatementsEvolve(t: Table, id: string, sha: string, target: string, o: Verdict, review: Review)
    ensures Evolves(t, InsertOrIgnore(t, id, sha, target))
    ensures Evolves(t, Finalize(t, id, sha, o))
    ensures IsApproval(o.decision) ==> Evolves(t, Approve(t, id, sha, o, review))
  {
  }

  /** The persisted outcome is `o`, or `o` was a request for review that has since been granted. */
  predicate Persisted(t: Table, id: string, sha: string, o: Outcome) {
    && id in t && t[id].sha == sha
    && o.decision != Processing
    && (t[id].outcome == o || (o.decision == Pending && IsApproval(t[id].outcome.decision)))
  }

  lemma PersistedStays(t: Table, t': Table, id: string, sha: string, o: Outcome)
    requires Persisted(t, id, sha, o) && Evolves(t, t')
    ensures Persisted(t', id, sha, o)
    ensures o.decision != Pending ==> t'[id] == t[id]
  {
    assert Moves(t[id], t'[id]);
  }

  // ----- workers

  datatype Request =
    | Promotion(id: string, sha: string, target: string, memory: bool)
    | Approval(id: string, sha: string, review: Review)

  datatype Answer =
    | Completed(outcome: Outcome)   // from the finalised receipt
    | Reviewed(outcome: Outcome)    // from an approval's own promotion attempt
    | Declined(outcome: Outcome)    // an outcome that is not recorded
    | Refused                       // mismatching hash, authority or review

  datatype Phase =
    | Start
    | Inserting
    | ReadingBack
    | Promoting(recovering: bool)
    | Updating(outcome: Verdict)
    | Checking(outcome: Verdict)
    | Approving
    | Recording(outcome: Verdict)
    | Returned(answer: Answer)
    | Raised

  /** `inserted` remembers that this worker's INSERT created the row. */
  datatype Worker = Worker(request: Request, phase: Phase, inserted: bool)

  /** What a step takes from outside: the lower layer's verdict, whether the event authority still matches, and
      whether the worker dies here. */
  datatype Choice = Choice(verdict: Verdict, authority: bool, dies: bool)

  function Relabelled(o: Verdict, memory: bool): Verdict {
    if memory && o.decision == Duplicate then o.(decision := Activated, reason := "write_allowed") else o
  }

  function CompletedAnswer(r: Receipt, authority: bool): Answer {
    var d := r.outcome.decision;
    if (IsApproval(d) || d == Retracted) && !authority then Refused else Completed(r.outcome)
  }

  /** A worker that found its row: refused, answered, or to promote. */
  function Found(r: Receipt, sha: string, recovering: bool, authority: bool): Phase {
    if r.sha != sha then Returned(Refused)
    else if r.outcome.decision != Processing then Returned(CompletedAnswer(r, authority))
    else Promoting(recovering)
  }

  function PromotionStep(t: Table, w: Worker, c: Choice): (Table, Worker)
    requires w.request.Promotion?
  {
    var q := w.request;
    match w.phase
    case Start =>
      if q.id in t then (t, w.(phase := Found(t[q.id], q.sha, true, c.authority)))
      else (t, w.(phase := Inserting))
    case Inserting =>
      (InsertOrIgnore(t, q.id, q.sha, q.target), w.(phase := ReadingBack, inserted := q.id !in t))
    case ReadingBack =>
      if q.id !in t then (t, w.(phase := Raised))
      else (t, w.(phase := Found(t[q.id], q.sha, !w.inserted, c.authority)))
    case Promoting(recovering) =>
      (t, w.(phase := Updating(if recovering then Relabelled(c.verdict, q.memory) else c.verdict)))
    case Updating(o) =>
      if Holds(t, q.id, q.sha, Processing) then (Finalize(t, q.id, q.sha, o), w.(phase := Returned(Completed(o))))
      else (t, w.(phase := Checking(o)))
    case Checking(o) =>
      if q.id in t && t[q.id].sha == q.sha && t[q.id].outcome == o then (t, w.(phase := Returned(Completed(o))))
      else (t, w.(phase := Raised))
    case _ => (t, w)
  }

  function ApprovalStep(t: Table, w: Worker, c: Choice): (Table, Worker)
    requires w.request.Approval?
  {
    var q := w.request;
    match w.phase
    case Start =>
      if !c.authority || q.id !in t || t[q.id].sha != q.sha then (t, w.(phase := Returned(Refused)))
      else if t[q.id].outcome.decision == Pending then (t, w.(phase := Approving))
      else if ReviewMatches(t[q.id].review, q.review) && IsApproval(t[q.id].outcome.decision) then
        (t, w.(phase := Returned(Completed(t[q.id].outcome))))
      else (t, w.(phase := Returned(Refused)))
    case Approving =>
      if IsApproval(c.verdict.decision) then (t, w.(phase := Recording(c.verdict)))
      else (t, w.(phase := Returned(Declined(c.verdict))))
    case Recording(o) =>
      (Approve(t, q.id, q.sha, o, q.review), w.(phase := Returned(Reviewed(o))))
    case _ => (t, w)
  }

  function WorkerStep(t: Table, w: Worker, c: Choice): (Table, Worker) {
    if w.phase.Returned? || w.phase.Raised? then (t, w)
    else if c.dies then (t, w.(phase := Raised))
    else if w.request.Promotion? then PromotionStep(t, w, c) else ApprovalStep(t, w, c)
  }

  // ----- what a worker answers

  /** A promotion that meets a receipt refuses a foreign request. Otherwise it answers with a finished outcome, those
      that touched memory only if the event authority still matches, and takes up one in progress. */
  lemma FoundReceiptAnswers(t: Table, w: Worker, c: Choice)
    requires w.request.Promotion? && (w.phase == Start || w.phase == ReadingBack) && w.request.id in t && !c.dies
    ensures var r, (t', w') := t[w.request.id], WorkerStep(t, w, c);
            && t' == t && w' == w.(phase := w'.phase)
            && (r.sha != w.request.sha ==> w'.phase == Returned(Refused))
            && (r.sha == w.request.sha ==>
                  match r.outcome.decision
                  case Processing => w'.phase == Promoting(w.phase == Start || !w.inserted)
                  case Activated | Duplicate | Superseded | Retracted =>
                    w'.phase == Returned(if c.authority then Completed(r.outcome) else Refused)
                  case _ => w'.phase == Returned(Completed(r.outcome)))
  {
  }

  /** The verdict is recorded as it is, except that a recovered memory promotion that finds its own claim says what the
      uninterrupted one would have said. */
  lemma VerdictTakenUp(t: Table, w: Worker, c: Choice)
    requires w.request.Promotion? && w.phase.Promoting? && !c.dies
    ensures var (t', w') := WorkerStep(t, w, c);
            && t' == t && w'.phase.Updating?
            && var o := w'.phase.outcome;
               if w.phase.recovering && w.request.memory && c.verdict.decision == Duplicate then
                 && o.decision == Activated && o.reason == "write_allowed"
                 && o.claimId == c.verdict.claimId && o.claimVersion == c.verdict.claimVersion
                 && o.target == c.verdict.target
               else o == c.verdict
  {
  }

  /** Finalising writes the outcome into the receipt that is in progress under the request's hash. Without such a
      receipt the table is read again: the same outcome under the same hash counts as done, anything else is an
      error. */
  lemma FinalisingWrites(t: Table, w: Worker, c: Choice)
    requires w.request.Promotion? && (w.phase.Updating? || w.phase.Checking?) && !c.dies
    ensures var q, o, (t', w') := w.request, w.phase.outcome, WorkerStep(t, w, c);
            var open := q.id in t && t[q.id].sha == q.sha && t[q.id].outcome.decision == Processing;
            if w.phase.Updating? then
              && t' == (if open then t[q.id := Receipt(q.sha, o, t[q.id].review)] else t)
              && w'.phase == if open then Returned(Completed(o)) else Checking(o)
            else
              && t' == t
              && w'.phase == if q.id in t && t[q.id].sha == q.sha && t[q.id].outcome == o then Returned(Completed(o))
                             else Raised
  {
  }

  /** An approval takes up a pending receipt of its request while the event authority matches. It answers from a
      receipt that the same review has approved before, and refuses everything else. */
  lemma ApprovalAnswers(t: Table, w: Worker, c: Choice)
    requires w.request.Approval? && w.phase == Start && !c.dies
    ensures var q, (t', w') := w.request, WorkerStep(t, w, c);
            && t' == t
            && (if c.authority && q.id in t && t[q.id].sha == q.sha then
                  var r := t[q.id];
                  var same := if r.review.None? then q.review.reviewer == "" && q.review.reason == ""
                              else r.review.value == q.review;
                  match r.outcome.decision
                  case Pending => w'.phase == Approving
                  case Activated | Duplicate | Superseded =>
                    w'.phase == Returned(if same then Completed(r.outcome) else Refused)
                  case _ => w'.phase == Returned(Refused)
                else w'.phase == Returned(Refused))
  {
  }

  // ----- runs

  datatype System = System(table: Table, workers: map<nat, Worker>)

  ghost predicate Initial(s: System) {
    s.table == map[] && forall n :: n in s.workers ==> s.workers[n].phase == Start && !s.workers[n].inserted
  }

  function Advanced(s: System, n: nat, c: Choice): System
    requires n in s.workers
  {
    var (t, w) := WorkerStep(s.table, s.workers[n], c);
    System(t, s.workers[n := w])
  }

  ghost predicate StepOf(s: System, s': System, n: nat, c: Choice) {
    n in s.workers && s' == Advanced(s, n, c)
  }

  ghost predicate Next(s: System, s': System) {
    exists n, c :: StepOf(s, s', n, c)
  }

  ghost predicate Run(states: seq<System>) {
    && states != []
    && Initial(states[0])
    && forall k: nat :: k + 1 < |states| ==> Next(states[k], states[k + 1])
  }

  // ----- what every run keeps

  /** What a worker's phase says about the table. */
  ghost predicate Consistent(t: Table, w: Worker) {
    var q := w.request;
    && (w.inserted ==> q.Promotion? && q.id in t && t[q.id].sha == q.sha)
    && match w.phase
       case Start => !w.inserted
       case Inserting => q.Promotion? && !w.inserted
       case ReadingBack => q.Promotion? && q.id in t
       case Promoting(recovering) => q.Promotion? && q.id in t && t[q.id].sha == q.sha && (recovering <==> !w.inserted)
       case Updating(o) => q.Promotion? && q.id in t && t[q.id].sha == q.sha
       case Checking(o) =>
         q.Promotion? && q.id in t && t[q.id].sha == q.sha && t[q.id].outcome.decision != Processing
       case Approving => q.Approval? && q.id in t && t[q.id].sha == q.sha
       case Recording(o) => q.Approval? && q.id in t && t[q.id].sha == q.sha && IsApproval(o.decision)
       case Returned(Completed(o)) => Persisted(t, q.id, q.sha, o)
       case _ => true
  }

  ghost predicate Inserted(s: System, n: nat) {
    n in s.workers && s.workers[n].inserted
  }

  /** At most one worker has created the row of a candidate. */
  ghost predicate OneInserter(s: System) {
    forall n, m :: Inserted(s, n) && Inserted(s, m) && s.workers[n].request.id == s.workers[m].request.id ==> n == m
  }

  ghost predicate Inv(s: System) {
    && (forall n :: n in s.workers ==> Consistent(s.table, s.workers[n]))
    && OneInserter(s)
  }

  lemma ConsistentStays(t: Table, t': Table, w: Worker)
    requires Consistent(t, w) && Evolves(t, t')
    ensures Consistent(t', w)
  {
    var id := w.request.id;
    assert id in t ==> id in t' && Moves(t[id], t'[id]);
  }

  lemma WorkerStepEvolves(t: Table, w: Worker, c: Choice)
    requires Consistent(t, w)
    ensures Evolves(t, WorkerStep(t, w, c).0)
  {
  }

  lemma WorkerStepKeepsConsistent(t: Table, w: Worker, c: Choice)
    requires Consistent(t, w)
    ensures Consistent(WorkerStep(t, w, c).0, WorkerStep(t, w, c).1)
    ensures WorkerStep(t, w, c).1.request == w.request
    ensures WorkerStep(t, w, c).1.inserted ==> w.inserted || w.request.id !in t
    ensures w.inserted ==> WorkerStep(t, w, c).1.inserted
  {
  }

  lemma StepKeepsInv(s: System, s': System, n: nat, c: Choice)
    requires Inv(s) && StepOf(s, s', n, c)
    ensures Inv(s') && Evolves(s.table, s'.table)
  {
    var w := s.workers[n];
    WorkerStepEvolves(s.table, w, c);
    WorkerStepKeepsConsistent(s.table, w, c);
    forall m | m in s.workers ensures Consistent(s'.table, s.workers[m]) {
      ConsistentStays(s.table, s'.table, s.workers[m]);
    }
    hide Evolves, WorkerStep;
    forall m | m in s.workers && s.workers[m].inserted ensures s.workers[m].request.id in s.table {
      assert Consistent(s.table, s.workers[m]);
    }
  }

  lemma {:induction false} RunKeepsInv(states: seq<System>, k: nat)
    requires Run(states) && k < |states|
    ensures Inv(states[k])
  {
    if k > 0 {
      RunKeepsInv(states, k - 1);
      assert Next(states[k - 1], states[k - 1 + 1]);
      var n, c :| StepOf(states[k - 1], states[k], n, c);
      StepKeepsInv(states[k - 1], states[k], n, c);
    }
  }

  /** From any point of a run to any later one, receipts stay, keep their request hash, and their decision moves
      only from processing to a verdict or from pending to an approval. */
  lemma {:induction false} ReceiptsOnlyMoveForward(states: seq<System>, i: nat, k: nat)
    requires Run(states) && i <= k < |states|
    ensures Evolves(states[i].table, states[k].table)
  {
    if i < k {
      ReceiptsOnlyMoveForward(states, i, k - 1);
      RunKeepsInv(states, k - 1);
      assert Next(states[k - 1], states[k - 1 + 1]);
      var n, c :| StepOf(states[k - 1], states[k], n, c);
      StepKeepsInv(states[k - 1], states[k], n, c);
      EvolvesTransitive(states[i].table, states[k - 1].table, states[k].table);
    }
  }

  /** Two workers that were told the completed outcome of the same candidate were told the same, unless one was
      told that it awaits review and the other the review's result. */
  lemma CompletedAnswersAgree(states: seq<System>, k: nat, n: nat, m: nat)
    requires Run(states) && k < |states| && n in states[k].workers && m in states[k].workers
    requires states[k].workers[n].phase.Returned? && states[k].workers[n].phase.answer.Completed?
    requires states[k].workers[m].phase.Returned? && states[k].workers[m].phase.answer.Completed?
    requires states[k].workers[n].request.id == states[k].workers[m].request.id
    ensures states[k].workers[n].request.sha == states[k].workers[m].request.sha
    ensures var a := states[k].workers[n].phase.answer.outcome;
            var b := states[k].workers[m].phase.answer.outcome;
            a == b || a.decision == Pending || b.decision == Pending
  {
    RunKeepsInv(states, k);
    hide Run, OneInserter;
    assert Consistent(states[k].table, states[k].workers[n]) && Consistent(states[k].table, states[k].workers[m]);
  }

  /** The outcome a worker returned from finalisation is the persisted one, then and in every later state. */
  lemma CompletedIsPersisted(states: seq<System>, k: nat, n: nat)
    requires Run(states) && k < |states| && n in states[k].workers
    requires states[k].workers[n].phase.Returned? && states[k].workers[n].phase.answer.Completed?
    ensures forall l :: k <= l < |states| ==>
              Persisted(states[l].table, states[k].workers[n].request.id, states[k].workers[n].request.sha,
                        states[k].workers[n].phase.answer.outcome)
  {
    RunKeepsInv(states, k);
    var w := states[k].workers[n];
    assert Consistent(states[k].table, w);
    forall l | k <= l < |states|
      ensures Persisted(states[l].table, w.request.id, w.request.sha, w.phase.answer.outcome)
    {
      ReceiptsOnlyMoveForward(states, k, l);
      PersistedStays(states[k].table, states[l].table, w.request.id, w.request.sha, w.phase.answer.outcome);
    }
  }

  /** At most one worker of a candidate promotes it for the first time; every other one knows that it recovers an
      attempt already begun. */
  lemma OneFirstAttempt(states: seq<System>, k: nat, n: nat, m: nat)
    requires Run(states) && k < |states| && n in states[k].workers && m in states[k].workers
    requires states[k].workers[n].phase == Promoting(false) && states[k].workers[m].phase == Promoting(false)
    requires states[k].workers[n].request.id == states[k].workers[m].request.id
    ensures n == m
  {
    RunKeepsInv(states, k);
    hide Run;
    assert Consistent(states[k].table, states[k].workers[n]) && Consistent(states[k].table, states[k].workers[m]);
    assert Inserted(states[k], n) && Inserted(states[k], m);
  }

  // ----- approvals

  predicate ReviewRecorded(t: Table, q: Request, o: Outcome)
    requires q.Approval?
  {
    q.id in t && t[q.id] == Receipt(q.sha, o, Some(q.review))
  }

  /** The approval's UPDATE is not checked: what it returns is recorded exactly when the receipt still awaited
      review, or already said the same. */
  lemma ApprovalRecordedIff(t: Table, w: Worker, c: Choice)
    requires Consistent(t, w) && w.phase.Recording? && !c.dies
    ensures var (t', w') := WorkerStep(t, w, c);
            && w'.phase == Returned(Reviewed(w.phase.outcome))
            && (ReviewRecorded(t', w.request, w.phase.outcome)
                <==> t[w.request.id].outcome.decision == Pending || ReviewRecorded(t, w.request, w.phase.outcome))
  {
  }

  // ----- one approver at a time

  ghost predicate InReview(s: System, n: nat) {
    n in s.workers && (s.workers[n].phase.Approving? || s.workers[n].phase.Recording?)
  }

  /** No two workers are between reading a pending receipt and recording their review of it. */
  ghost predicate SoleReviews(s: System) {
    forall n, m :: InReview(s, n) && InReview(s, m) && s.workers[n].request.id == s.workers[m].request.id ==> n == m
  }

  ghost predicate ReviewHolds(t: Table, w: Worker) {
    var q := w.request;
    && (w.phase.Approving? || w.phase.Recording? ==> Holds(t, q.id, q.sha, Pending))
    && (w.phase.Returned? && w.phase.answer.Reviewed? ==>
          q.Approval? && IsApproval(w.phase.answer.outcome.decision) && ReviewRecorded(t, q, w.phase.answer.outcome))
  }

  lemma OwnReviewHolds(t: Table, w: Worker, c: Choice)
    requires Consistent(t, w) && ReviewHolds(t, w)
    ensures ReviewHolds(WorkerStep(t, w, c).0, WorkerStep(t, w, c).1)
  {
  }

  lemma OtherReviewHolds(t: Table, w: Worker, other: Worker, c: Choice)
    requires Consistent(t, w) && Consistent(t, other) && ReviewHolds(t, w)
    requires other.phase.Approving? || other.phase.Recording? ==>
               w.phase.Approving? || w.phase.Recording? ==> other.request.id != w.request.id
    ensures ReviewHolds(WorkerStep(t, other, c).0, w)
  {
  }

  lemma StepKeepsReviews(s: System, s': System, n: nat, c: Choice)
    requires Inv(s) && SoleReviews(s) && StepOf(s, s', n, c)
    requires forall m :: m in s.workers ==> ReviewHolds(s.table, s.workers[m])
    ensures forall m :: m in s'.workers ==> ReviewHolds(s'.table, s'.workers[m])
  {
    OwnReviewHolds(s.table, s.workers[n], c);
    forall m | m in s.workers && m != n ensures ReviewHolds(s'.table, s.workers[m]) {
      assert InReview(s, n) && InReview(s, m) ==> s.workers[n].request.id != s.workers[m].request.id;
      OtherReviewHolds(s.table, s.workers[m], s.workers[n], c);
    }
    hide ReviewHolds, WorkerStep;
  }

  lemma {:induction false} RunKeepsReviews(states: seq<System>, k: nat)
    requires Run(states) && k < |states| && forall i :: 0 <= i < k ==> SoleReviews(states[i])
    ensures forall m :: m in states[k].workers ==> ReviewHolds(states[k].table, states[k].workers[m])
  {
    if k > 0 {
      RunKeepsReviews(states, k - 1);
      RunKeepsInv(states, k - 1);
      assert Next(states[k - 1], states[k - 1 + 1]);
      var n, c :| StepOf(states[k - 1], states[k], n, c);
      StepKeepsReviews(states[k - 1], states[k], n, c);
    }
  }

  /** As long as reviews of one candidate do not overlap, the outcome an approval returns is the one recorded, with
      its reviewer. */
  lemma SoleReviewIsRecorded(states: seq<System>, k: nat, n: nat)
    requires Run(states) && k < |states| && (forall i :: 0 <= i < k ==> SoleReviews(states[i]))
    requires n in states[k].workers && states[k].workers[n].phase.Returned?
    requires states[k].workers[n].phase.answer.Reviewed?
    ensures states[k].workers[n].request.Approval?
    ensures ReviewRecorded(states[k].table, states[k].workers[n].request, states[k].workers[n].phase.answer.outcome)
  {
    RunKeepsReviews(states, k);
  }

  // ----- two reviews that overlap

  const LIVE: Choice := Choice(Outcome(Pending, "queued", None, None, ""), true, false)
  const FIRST: Choice := Choice(Outcome(Activated, "write_allowed", Some(1), Some(1), ""), true, false)
  const SECOND: Choice := Choice(Outcome(Duplicate, "already_active_identical", Some(1), Some(1), ""), true, false)

  const PROMOTER: Request := Promotion("c", "h", "", false)
  const REVIEWER_A: Request := Approval("c", "h", Review("a", ""))
  const REVIEWER_B: Request := Approval("c", "h", Review("b", ""))

  function Scene(t: Table, p: Phase, inserted: bool, a: Phase, b: Phase): System {
    System(t, map[0 := Worker(PROMOTER, p, inserted), 1 := Worker(REVIEWER_A, a, false),
                  2 := Worker(REVIEWER_B, b, false)])
  }

  lemma {:induction false} PromoterMoves(t: Table, p: Phase, inserted: bool, a: Phase, b: Phase,
                                         t': Table, p': Phase, inserted': bool)
    requires WorkerStep(t, Worker(PROMOTER, p, inserted), LIVE) == (t', Worker(PROMOTER, p', inserted'))
    ensures Next(Scene(t, p, inserted, a, b), Scene(t', p', inserted', a, b))
  {
    hide WorkerStep;
    assert Advanced(Scene(t, p, inserted, a, b), 0, LIVE).workers == Scene(t', p', inserted', a, b).workers;
    assert StepOf(Scene(t, p, inserted, a, b), Scene(t', p', inserted', a, b), 0, LIVE);
  }

  lemma {:induction false} ReviewerAMoves(t: Table, p: Phase, a: Phase, b: Phase, t': Table, a': Phase)
    requires WorkerStep(t, Worker(REVIEWER_A, a, false), FIRST) == (t', Worker(REVIEWER_A, a', false))
    ensures Next(Scene(t, p, true, a, b), Scene(t', p, true, a', b))
  {
    hide WorkerStep;
    assert Advanced(Scene(t, p, true, a, b), 1, FIRST).workers == Scene(t', p, true, a', b).workers;
    assert StepOf(Scene(t, p, true, a, b), Scene(t', p, true, a', b), 1, FIRST);
  }

  lemma {:induction false} ReviewerBMoves(t: Table, p: Phase, a: Phase, b: Phase, t': Table, b': Phase)
    requires WorkerStep(t, Worker(REVIEWER_B, b, false), SECOND) == (t', Worker(REVIEWER_B, b', false))
    ensures Next(Scene(t, p, true, a, b), Scene(t', p, true, a, b'))
  {
    hide WorkerStep;
    assert Advanced(Scene(t, p, true, a, b), 2, SECOND).workers == Scene(t', p, true, a, b').workers;
    assert StepOf(Scene(t, p, true, a, b), Scene(t', p, true, a, b'), 2, SECOND);
  }

  ghost predicate UnrecordedReview(s: System, n: nat) {
    && n in s.workers
    && s.workers[n].request.Approval?
    && s.workers[n].phase.Returned? && s.workers[n].phase.answer.Reviewed?
    && !ReviewRecorded(s.table, s.workers[n].request, s.workers[n].phase.answer.outcome)
  }

  const IN_PROGRESS: Table := map["c" := Receipt("h", Outcome(Processing, "in_progress", None, None, ""), None)]
  const QUEUED: Table := map["c" := Receipt("h", LIVE.verdict, None)]
  const REVIEWED_BY_A: Table := map["c" := Receipt("h", FIRST.verdict, Some(Review("a", "")))]
  const DONE: Phase := Returned(Completed(LIVE.verdict))
  const TOLD_A: Phase := Returned(Reviewed(FIRST.verdict))
  const TOLD_B: Phase := Returned(Reviewed(SECOND.verdict))

  lemma PromoterQueues() returns (states: seq<System>)
    ensures |states| == 6 && states[0] == Scene(map[], Start, false, Start, Start)
    ensures states[5] == Scene(QUEUED, DONE, true, Start, Start)
    ensures forall k: nat :: k < 5 ==> Next(states[k], states[k + 1])
  {
    hide Scene, Next;
    PromoterMoves(map[], Start, false, Start, Start, map[], Inserting, false);
    PromoterMoves(map[], Inserting, false, Start, Start, IN_PROGRESS, ReadingBack, true);
    PromoterMoves(IN_PROGRESS, ReadingBack, true, Start, Start, IN_PROGRESS, Promoting(false), true);
    PromoterMoves(IN_PROGRESS, Promoting(false), true, Start, Start, IN_PROGRESS, Updating(LIVE.verdict), true);
    assert Finalize(IN_PROGRESS, "c", "h", LIVE.verdict) == QUEUED;
    PromoterMoves(IN_PROGRESS, Updating(LIVE.verdict), true, Start, Start, QUEUED, DONE, true);
    states := [
      Scene(map[], Start, false, Start, Start),
      Scene(map[], Inserting, false, Start, Start),
      Scene(IN_PROGRESS, ReadingBack, true, Start, Start),
      Scene(IN_PROGRESS, Promoting(false), true, Start, Start),
      Scene(IN_PROGRESS, Updating(LIVE.verdict), true, Start, Start),
      Scene(QUEUED, DONE, true, Start, Start)];
  }

  lemma ReviewersOverlap() returns (states: seq<System>)
    ensures |states| == 7 && states[0] == Scene(QUEUED, DONE, true, Start, Start)
    ensures states[6] == Scene(REVIEWED_BY_A, DONE, true, TOLD_A, TOLD_B)
    ensures forall k: nat :: k < 6 ==> Next(states[k], states[k + 1])
  {
    hide Scene, Next;
    ReviewerAMoves(QUEUED, DONE, Start, Start, QUEUED, Approving);
    ReviewerBMoves(QUEUED, DONE, Approving, Start, QUEUED, Approving);
    ReviewerAMoves(QUEUED, DONE, Approving, Approving, QUEUED, Recording(FIRST.verdict));
    ReviewerBMoves(QUEUED, DONE, Recording(FIRST.verdict), Approving, QUEUED, Recording(SECOND.verdict));
    assert Approve(QUEUED, "c", "h", FIRST.verdict, Review("a", "")) == REVIEWED_BY_A;
    ReviewerAMoves(QUEUED, DONE, Recording(FIRST.verdict), Recording(SECOND.verdict), REVIEWED_BY_A, TOLD_A);
    ReviewerBMoves(REVIEWED_BY_A, DONE, TOLD_A, Recording(SECOND.verdict), REVIEWED_BY_A, TOLD_B);
    states := [
      Scene(QUEUED, DONE, true, Start, Start),
      Scene(QUEUED, DONE, true, Approving, Start),
      Scene(QUEUED, DONE, true, Approving, Approving),
      Scene(QUEUED, DONE, true, Recording(FIRST.verdict), Approving),
      Scene(QUEUED, DONE, true, Recording(FIRST.verdict), Recording(SECOND.verdict)),
      Scene(REVIEWED_BY_A, DONE, true, TOLD_A, Recording(SECOND.verdict)),
      Scene(REVIEWED_BY_A, DONE, true, TOLD_A, TOLD_B)];
  }

  /** A promoter leaves the candidate pending; two reviewers both read that, and then both record: the second is
      told an outcome that is nowhere recorded. */
  lemma OverlappingReviewsGoUnrecorded() returns (states: seq<System>)
    ensures Run(states) && UnrecordedReview(states[|states| - 1], 2)
  {
    var before := PromoterQueues();
    var after := ReviewersOverlap();
    states := before + after[1..];
    assert Initial(states[0]);
    assert UnrecordedReview(after[6], 2);
    hide Next, Scene, UnrecordedReview, Initial;
    forall k: nat | k + 1 < |states| ensures Next(states[k], states[k + 1]) {
      if k < 5 {
        assert Next(before[k], before[k + 1]);
      } else {
        assert Next(after[k - 5], after[k - 5 + 1]);
      }
    }
  }

  // ----- one worker among others

  /** The table and one worker, between two statements. */
  datatype Moment = Moment(table: Table, worker: Worker)

  /** What a call meets: whether the event authority matches, and what the lower layer makes of a table; None stands
      for its exception. */
  datatype Surroundings = Surroundings(authority: bool, promote: Table -> Option<Verdict>) {
    function At(t: Table, phase: Phase): Choice {
      var verdict := if phase.Promoting? || phase.Approving? then promote(t) else Some(NO_VERDICT);
      Choice(if verdict.Some? then verdict.value else NO_VERDICT, authority, verdict.None?)
    }
  }

  const NO_VERDICT: Verdict := Outcome(Error, "", None, None, "")

  ghost function Stepped(e: Surroundings, m: Moment): Moment {
    var (t, w) := WorkerStep(m.table, m.worker, e.At(m.table, m.worker.phase));
    Moment(t, w)
  }

  /** The worker makes its next step, or others change the table as the protocol allows. */
  ghost predicate Follows(e: Surroundings, m: Moment, m': Moment) {
    (m'.worker == m.worker && Evolves(m.table, m'.table)) || m' == Stepped(e, m)
  }

  /** A run of one worker from its start on the table `t`. */
  ghost predicate Traces(e: Surroundings, q: Request, t: Table, trace: seq<Moment>) {
    && trace != []
    && trace[0] == Moment(t, Worker(q, Start, false))
    && forall k: nat :: k + 1 < |trace| ==> Follows(e, trace[k], trace[k + 1])
  }

  ghost function Last(trace: seq<Moment>): Moment
    requires trace != []
  {
    trace[|trace| - 1]
  }

  lemma TraceGrows(e: Surroundings, q: Request, t: Table, trace: seq<Moment>, m: Moment)
    requires Traces(e, q, t, trace) && Follows(e, Last(trace), m)
    ensures Traces(e, q, t, trace + [m]) && Last(trace + [m]) == m
  {
    hide Follows;
  }

  lemma OthersFollow(e: Surroundings, m: Moment, t: Table)
    requires Evolves(m.table, t)
    ensures Follows(e, m, m.(table := t))
  {
  }

  /** The service as one worker runs it. Between its statements, other workers may change the table in any way the
      protocol allows. `trace` shows that what the methods do, statement by statement, are the worker's steps. */
  class CandidatePromotionService {
    var table: Table
    ghost var trace: seq<Moment>

    constructor (table: Table)
      ensures this.table == table
    {
      this.table := table;
      this.trace := [];
    }

    ghost predicate At(e: Surroundings, q: Request, t: Table, w: Worker)
      reads this
    {
      trace != [] && Traces(e, q, t, trace) && Last(trace) == Moment(table, w)
    }

    method OthersRun(ghost e: Surroundings, ghost q: Request, ghost t: Table, ghost w: Worker)
      requires At(e, q, t, w)
      modifies this
      ensures At(e, q, t, w) && Evolves(old(table), table)
    {
      hide Evolves, Traces;
      EvolvesReflexive(table);
      var left: Table := *;
      if Evolves(table, left) {
        OthersFollow(e, Last(trace), left);
        TraceGrows(e, q, t, trace, Moment(left, w));
        table := left;
        trace := trace + [Moment(left, w)];
      }
    }

    /** Writes down a statement that was just executed on the table. */
    ghost method Record(e: Surroundings, q: Request, t: Table, m: Moment) returns (w: Worker)
      requires trace != [] && Traces(e, q, t, trace) && Last(trace) == m
      requires table == Stepped(e, m).table
      modifies this`trace
      ensures w == Stepped(e, m).worker && At(e, q, t, w)
    {
      hide Stepped, Traces;
      w := Stepped(e, m).worker;
      TraceGrows(e, q, t, trace, Moment(table, w));
      trace := trace + [Moment(table, w)];
    }

    /** The lower layer's verdict, or its exception. */
    method PromoteOne(e: Surroundings, ghost q: Request, ghost t: Table, ghost w: Worker)
      returns (verdict: Option<Verdict>)
      requires At(e, q, t, w)
      modifies this
      ensures At(e, q, t, w) && Evolves(old(table), table) && verdict == e.promote(table)
    {
      OthersRun(e, q, t, w);
      verdict := e.promote(table);
    }

    /** `_finalize_receipt`. None stands for the exception of a conflicting finalisation. */
    method FinalizeReceipt(ghost e: Surroundings, q: Request, o: Verdict, ghost t: Table, ghost w: Worker)
      returns (answer: Option<Answer>, ghost w': Worker)
      requires q.Promotion? && w.request == q && w.phase == Updating(o) && At(e, q, t, w)
      modifies this
      ensures At(e, q, t, w') && w'.phase == (if answer.Some? then Returned(answer.value) else Raised)
      ensures Evolves(old(table), table)
      ensures answer.Some? ==> answer.value == Completed(o)
      ensures answer.Some? ==> q.id in table && table[q.id].sha == q.sha && table[q.id].outcome == o
      ensures old(Holds(table, q.id, q.sha, Processing)) ==> answer.Some?
    {
      hide Evolves, Traces;
      StatementsEvolve(table, q.id, q.sha, "", o, Review("", ""));
      ghost var m := Moment(table, w);
      var updated := Holds(table, q.id, q.sha, Processing);
      table := Finalize(table, q.id, q.sha, o);
      w' := Record(e, q, t, m);
      answer := Some(Completed(o));
      if !updated {
        ghost var before := table;
        OthersRun(e, q, t, w');
        EvolvesTransitive(old(table), before, table);
        m := Moment(table, w');
        if q.id !in table || table[q.id].sha != q.sha || table[q.id].outcome != o {
          answer := None;
        }
        w' := Record(e, q, t, m);
      }
    }

    /** `_promote_durable` where it found no receipt: make one, and read back what is there. */
    method InsertAndReadBack(e: Surroundings, q: Request, ghost t: Table, ghost w: Worker)
      returns (phase: Phase, ghost w': Worker)
      requires q.Promotion? && w == Worker(q, Inserting, false) && At(e, q, t, w)
      modifies this
      ensures At(e, q, t, w') && w'.request == q && w'.phase == phase
      ensures phase.Promoting? || phase.Raised? || phase.Returned?
      ensures phase.Returned? ==> AnswerHolds(table, q, phase.answer)
      ensures Evolves(old(table), table)
    {
      hide Evolves, Traces;
      StatementsEvolve(table, q.id, q.sha, q.target, NO_VERDICT, Review("", ""));
      ghost var m := Moment(table, w);
      var recovering := q.id in table;
      table := InsertOrIgnore(table, q.id, q.sha, q.target);
      w' := Record(e, q, t, m);
      ghost var before := table;
      OthersRun(e, q, t, w');
      EvolvesTransitive(old(table), before, table);
      m := Moment(table, w');
      w' := Record(e, q, t, m);
      phase := if q.id in table then Found(table[q.id], q.sha, recovering, e.authority) else Raised;
    }

    /** The part of `_promote_durable` before the promotion: find the receipt, or make one. */
    method FindOrInsert(e: Surroundings, q: Request) returns (phase: Phase, ghost w: Worker)
      requires q.Promotion?
      modifies this
      ensures At(e, q, old(table), w) && w.request == q && w.phase == phase
      ensures phase.Promoting? || phase.Raised? || phase.Returned?
      ensures phase.Returned? ==> AnswerHolds(table, q, phase.answer)
      ensures Evolves(old(table), table)
      ensures q.id in old(table) ==> phase == Found(table[q.id], q.sha, true, e.authority) && table == old(table)
    {
      hide Evolves, Traces;
      ghost var t := table;
      EvolvesReflexive(table);
      w := Worker(q, Start, false);
      StartTraces(e, q, table);
      trace := [Moment(table, w)];
      w := Record(e, q, t, Moment(table, w));
      if q.id in table {
        return Found(table[q.id], q.sha, true, e.authority), w;
      }
      OthersRun(e, q, t, w);
      ghost var before := table;
      phase, w := InsertAndReadBack(e, q, t, w);
      EvolvesTransitive(t, before, table);
    }

    /** The rest of it: promote, and finalise the receipt. */
    method PromoteFound(e: Surroundings, q: Request, recovering: bool, ghost t: Table, ghost w: Worker)
      returns (answer: Option<Answer>, ghost w': Worker)
      requires q.Promotion? && w.request == q && w.phase == Promoting(recovering) && At(e, q, t, w)
      modifies this
      ensures At(e, q, t, w') && w'.phase == (if answer.Some? then Returned(answer.value) else Raised)
      ensures answer.Some? ==> AnswerHolds(table, q, answer.value)
      ensures Evolves(old(table), table)
    {
      hide Evolves, Traces;
      ghost var start := table;
      var verdict := PromoteOne(e, q, t, w);
      ghost var m := Moment(table, w);
      if verdict.None? {
        w' := Record(e, q, t, m);
        return None, w';
      }
      var o: Verdict := if recovering then Relabelled(verdict.value, q.memory) else verdict.value;
      w' := Record(e, q, t, m);
      ghost var promoted := table;
      answer, w' := FinalizeReceipt(e, q, o, t, w');
      EvolvesTransitive(start, promoted, table);
    }

    /** `_promote_durable`. What is returned as completed is what the table then says. */
    method PromoteDurable(e: Surroundings, q: Request) returns (answer: Option<Answer>, ghost w: Worker)
      requires q.Promotion?
      modifies this
      ensures At(e, q, old(table), w) && w.phase == (if answer.Some? then Returned(answer.value) else Raised)
      ensures Evolves(old(table), table)
      ensures answer.Some? ==> AnswerHolds(table, q, answer.value)
      ensures q.id in old(table) && old(table)[q.id].sha != q.sha ==> answer == Some(Refused) && table == old(table)
    {
      hide Evolves, Traces;
      ghost var t := table;
      var phase: Phase;
      phase, w := FindOrInsert(e, q);
      match phase {
        case Returned(a) => answer := Some(a);
        case Promoting(recovering) =>
          ghost var found := table;
          answer, w := PromoteFound(e, q, recovering, t, w);
          EvolvesTransitive(t, found, table);
        case _ => answer := None;
      }
    }

    /** `approve_pending`. What is returned as reviewed was recorded if the receipt was still pending. */
    method ApprovePending(e: Surroundings, q: Request)
      returns (answer: Option<Answer>, ghost w: Worker, ghost recorded: bool)
      requires q.Approval?
      modifies this
      ensures At(e, q, old(table), w) && w.phase == (if answer.Some? then Returned(answer.value) else Raised)
      ensures Evolves(old(table), table)
      ensures answer.Some? && answer.value.Completed? ==> Persisted(table, q.id, q.sha, answer.value.outcome)
      ensures recorded ==> answer.Some? && answer.value.Reviewed? && ReviewRecorded(table, q, answer.value.outcome)
      ensures answer.Some? && answer.value.Reviewed? ==> IsApproval(answer.value.outcome.decision)
      ensures answer.Some? && answer.value.Declined? ==> !IsApproval(answer.value.outcome.decision)
    {
      hide Evolves, Traces;
      ghost var t := table;
      EvolvesReflexive(table);
      w, recorded := Worker(q, Start, false), false;
      StartTraces(e, q, table);
      trace := [Moment(table, w)];
      ghost var m := Moment(table, w);
      w := Record(e, q, t, m);
      if !e.authority || q.id !in table || table[q.id].sha != q.sha {
        return Some(Refused), w, recorded;
      }
      if table[q.id].outcome.decision != Pending {
        if ReviewMatches(table[q.id].review, q.review) && IsApproval(table[q.id].outcome.decision) {
          return Some(Completed(table[q.id].outcome)), w, recorded;
        }
        return Some(Refused), w, recorded;
      }
      var verdict := PromoteOne(e, q, t, w);
      m := Moment(table, w);
      if verdict.None? {
        w := Record(e, q, t, m);
        return None, w, recorded;
      }
      w := Record(e, q, t, m);
      if !IsApproval(verdict.value.decision) {
        return Some(Declined(verdict.value)), w, recorded;
      }
      ghost var before := table;
      StatementsEvolve(table, q.id, q.sha, "", verdict.value, q.review);
      m := Moment(table, w);
      recorded := Holds(table, q.id, q.sha, Pending);
      table := Approve(table, q.id, q.sha, verdict.value, q.review);
      w := Record(e, q, t, m);
      EvolvesTransitive(t, before, table);
      answer := Some(Reviewed(verdict.value));
    }
  }

  /** A promotion's answer refuses the request, or is the persisted outcome. */
  predicate AnswerHolds(t: Table, q: Request, a: Answer) {
    a.Refused? || (a.Completed? && Persisted(t, q.id, q.sha, a.outcome))
  }

  lemma StartTraces(e: Surroundings, q: Request, t: Table)
    ensures Traces(e, q, t, [Moment(t, Worker(q, Start, false))])
  {
  }

  lemma EvolvesReflexive(t: Table)
    ensures Evolves(t, t)
  {
  }
}
