# SoulLink / PCLTM: verified model

This project models the parts of SoulLink and its PCLTM memory core that are
algorithms, protocols or transactions, and proves what they guarantee. SQL
tables are maps, directory trees are maps from paths to files and directories,
hashes, redaction and text classifiers are functions passed in as parameters.
Code that updates state step by step is written as methods and classes, proved
against a specification; the properties are lemmas about that specification.

Check everything with `dafny verify dfyconfig.toml`.

## The modules

| module | what it models | main result |
|---|---|---|
| JsonHeap, ContinuityValidator | the continuity gate's explicit-stack validator over shared and cyclic JSON containers | no error is reported exactly when the unfolded value is valid on every path and its slots fit the node budget |
| ContinuityCompare, ContinuityGate | memoised comparisons, the three assertion operators, the report | a verdict is tree equality on acyclic values; passing composes along baseline, middle, candidate |
| FileTree, HostDeploy | failure path of a deployment: record, validate, restore | the home tree comes back exactly when the backup still holds the managed subtrees, and which tampering the fingerprint shows |
| RuntimeRestore | archive and restore of the SoulLink tree | archived tree outside, current tree inside the protected paths, exactly under a stated condition |
| ProfileRestore, DatabaseFiles | archive and restore of the profile entries and plugins; the four files of a database | the profile comes back exactly if it was whole |
| RecoveryPoint, HostUpdate | the update transaction over host, profile, runtime and databases, with a fault possible at every step | restore reaches the recovery point, or puts back the state before, each under its exact condition, or says that repair is required |
| EvidenceChain, LedgerBackfill | canonical envelopes, chain hashes, the backfill pass | two ledgers that pass with the same tip are the same; a second pass agrees exactly when all rows were stable |
| ToolChain, RequestTracking, RequestOutcome | transcript sanitising and request tracking | longest well-formed subsequence; only real user turns and replies matter |
| Ordering, RankFusion | rank fusion of retrieval channels | independent of order, idempotent, increments equal one batch |
| QuotaSelection | quota-bound choice of prompt rows, and the reordering before it | the two passes equal one greedy pass, and the choice is maximal |
| LegacyPromotion | one-time promotion of legacy records in one transaction | a batch succeeds exactly when every item would alone; replay is identical after any further promotions |
| ReceiptProtocol | the receipt table under any interleaving of workers | receipts only move forward; what a worker is told as completed is persisted for good |
| MemoryPolicy | write and access policy over derivation graphs | sensitivity flows along every derivation path |
| PromptBudget | the hard-capped prompt view | the limit holds, and the cap is applied exactly when the view without memory is too long |

Lemmas carry `{:induction false}` where their own body is the induction.

## What the proofs found

Each of these is a lemma with a concrete input, or an exact condition.

- `contains_all` stops at a cap on the number of comparisons, so two steps can
  pass that do not pass as one (`ContinuityGate.CapCanBlockComposition`).
  Composition holds exactly when the combined search stays within the cap.
- Archives hold files only. A directory without an archived file below it is
  lost by archive and restore (`RuntimeRestore.EmptyDirectoryIsLost`). So a
  restore that went through need not have reached the recovery point:
  `RecoveryPoint.Recoverable` and `Compensable` are the exact conditions.
- Nothing guards the removal of the compensation receipt after a restore. If it
  raises, a restore that went through is reported as an ordinary failure, and
  the distinct "repair required" error is lost (`HostUpdate.CleanupCanMask`,
  `ReportTellsIff`).
- The bytes hashed for a saved directory have no delimiters. They do not tell an
  empty file from an empty directory (`HostDeploy.FingerprintMissesKind`), one
  set of plain files from another (`FingerprintMissesNames`), or contents that
  hold a NUL (`FingerprintMissesNul`). For copies of one shape, each of whose
  files has kept its size or holds no NUL, they do (`FingerprintSeparates`). So
  a validated backup is intact exactly if its copies have kept their paths,
  kinds and file sizes, whatever they hold (`IntactIffValidatedInSize`).
- A legacy event with an explicit schema version other than 9 is hashed under
  that version and stored under 9, so after one backfill of a table that holds
  one the next always fails (`LedgerBackfill.OldSchemaVersionBreaksFixedPoint`,
  `SchemaVersionDecides`).
- `approve_pending` does not look at the row count of its UPDATE. Two reviews
  that overlap can both be told that their outcome stands, though only one is
  recorded (`ReceiptProtocol.OverlappingReviewsGoUnrecorded`).
- The row selector never records the reason `mode_excluded`: rows of another
  mode are skipped before they reach the code that records it, and stay
  `top_k_excluded` (`QuotaSelection.SelectEntryRows`, last clause).
- Lineages that need no source are admitted without their citations being
  compared with the snapshots passed, so a normal claim may cite a secret event
  when no snapshot is passed for it (`MemoryPolicy.CitationsUnchecked`). The
  write and transition services pass one snapshot for each reference, whatever
  the lineage (`memory_write_service.py:330-334`,
  `memory_transition_service.py:438-447`), so only another caller of the policy
  can meet this. With the citations covered in that way sensitivity flows along
  them for every lineage (`SensitivityFlowsAlongCitations`).
- Two observations of a reference at one channel and rank count once. So a better
  rank can lower a score, exactly where that rank had been observed already
  (`RankFusion.BetterRankRaisesIff`).
- The newlines between evidence capsules are not counted against the evidence
  budget (`PromptBudget.SeparatorsExceedBudget`). `ToolBlockFitsIff` is the exact
  condition for the joined block to fit: with all texts whole, room for the
  newlines; with one cut, enough slack left by that cut. A cut leaves slack where
  it strips white space (`CutFillsIff`), so that a few characters of budget
  decide (`FitDependsOnCut`). A capped view loses its closing tag
  (`ClosingTagIffUncapped`).

## Model

| member | source | states |
|---|---|---|
| JsonHeap.ValidIffEveryPathValid | packages/pcltm/continuity_gate.py:138-230 | the recursive meaning of validation is a statement about every path of the unfolded value: no path reaches a bad leaf, a bad key or a container below the depth limit |
| JsonHeap.CycleNeverValid | packages/pcltm/continuity_gate.py:213-219 | a value on a cycle is valid at no depth, for any depth limit |
| JsonHeap.ValidMeansAcyclic | packages/pcltm/continuity_gate.py:216-230 | a valid value reaches no container from itself, along any path |
| JsonHeap.ScalarOkIff | packages/pcltm/continuity_gate.py:191-212 | which leaves are accepted: null, booleans, integers between minus and plus two to the power of the bit limit, finite numbers, texts of limited length without lone surrogates |
| JsonHeap.KeysOkIff | packages/pcltm/continuity_gate.py:159-168 | which dictionaries have acceptable keys: texts of limited length without lone surrogates |
| ContinuityValidator.HeightDecidesValid | packages/pcltm/continuity_gate.py:180-223 | a container seen before is valid at a new depth exactly when depth plus its cached height is within the limit; reusing the cache is sound through shared containers |
| ContinuityValidator.AppendedKeepsCap | packages/pcltm/continuity_gate.py:122-135 | one more error leaves at most cap plus one, the extra one being the stop notice |
| ContinuityValidator.ActiveMeansCycle | packages/pcltm/continuity_gate.py:216-219 | a container met while it is in progress lies on a cycle, so reporting it is right |
| ContinuityValidator.BadEntry | packages/pcltm/continuity_gate.py:191-223 | a complaint about a leaf or a key refutes validity of the root |
| ContinuityValidator.TooManyVisits | packages/pcltm/continuity_gate.py:148-152 | running out of the node budget refutes that the reachable slots fit it |
| ContinuityValidator.ExitKeepsInv | packages/pcltm/continuity_gate.py:180-190 | when a container is left, the heights of all its children are cached and its own is one more than the largest |
| ContinuityValidator.NothingReportedMeansAccepted | packages/pcltm/continuity_gate.py:144-230 | an empty stack and an empty error list mean the whole unfolded value was valid and within the budget |
| ContinuityValidator.ValidateJsonCompatible | packages/pcltm/continuity_gate.py:138-230 | no errors exactly when the root is valid on every path and 1 plus the slots of all reachable containers fit the node budget; never more than cap plus one errors; terminates on every heap |
| ContinuityCompare.JsonEqual | packages/pcltm/continuity_gate.py:346-372 | terminates on every heap; raises exactly when the budget is overdrawn; true leaves the memo closed under comparison (a bisimulation), false refutes equality; a true answer costs exactly one for the call and, for each new pair, its children and the sizes of dictionaries, and no answer costs more |
| ContinuityCompare.PreservesNonEmptyStructure | packages/pcltm/continuity_gate.py:375-399 | the same for preservation of non-empty structure |
| ContinuityCompare.AllAgree | packages/pcltm/continuity_gate.py:364-371 | the children agree exactly as their comparisons say, stopping at the first disagreement |
| ContinuityCompare.EqualityIsTreeEquality | packages/pcltm/continuity_gate.py:346-372 | on acyclic values the memoised comparison is equality of the unfolded trees, whatever is shared |
| ContinuityCompare.HoldsTransitive | packages/pcltm/continuity_gate.py:346-399 | both comparisons are transitive, on cyclic values too |
| ContinuityCompare.EmptyIsFalsy | packages/pcltm/continuity_gate.py:396-399 | the falsy values are null, false, zero, the blank text and containers without entries |
| ContinuityCompare.PreservedIffKeptEverywhere | packages/pcltm/continuity_gate.py:375-399 | on shared and cyclic values too, structure is preserved exactly if along every path of dictionary keys of the baseline the candidate has kept what is there: keys, or a value of the same type that is not empty |
| ContinuityGate.LookupPath | packages/pcltm/continuity_gate.py:78-92 | the loop over path parts computes the recursive lookup, including the missing case |
| ContinuityGate.CompareContainsAll | packages/pcltm/continuity_gate.py:429-452 | true exactly when every baseline item has an equal candidate item and the comparisons stay within the cap |
| ContinuityGate.Compare | packages/pcltm/continuity_gate.py:412-463 | the verdict of an assertion is exactly its declarative meaning, for each operator and for missing values |
| ContinuityGate.NonEmptyPassesIff | packages/pcltm/continuity_gate.py:452-461 | `non_empty` passes exactly if the baseline is not empty and everything along its keys is kept |
| ContinuityGate.NonEmptyScalarsIff | packages/pcltm/continuity_gate.py:396-399 | scalars pass `non_empty` exactly if they are of one type and neither is null, false, zero or blank |
| ContinuityGate.EqualScalarsIff | packages/pcltm/continuity_gate.py:372-372 | scalars pass `equal` exactly if they are the same value of one type, and not NaN |
| ContinuityGate.LookupIff | packages/pcltm/continuity_gate.py:78-92 | a path leads to a value exactly if its parts step there one by one, by key in a dictionary and by index in a list |
| ContinuityGate.Evaluate | packages/pcltm/continuity_gate.py:466-546 | the report lists the assertions that fail, and a case is blocked exactly when a critical one does; running out of budget means exit code 2, happens only below a stated budget, and always when there are more comparisons than budget |
| ContinuityGate.RegressionsAre | packages/pcltm/continuity_gate.py:486-546 | the regressions are exactly the assertions that do not pass on what their paths lead to in baseline and candidate, with their severity, each once and in order |
| ContinuityGate.ExitCodeZero | packages/pcltm/continuity_gate.py:539-546 | otherwise exit code 0 exactly when every critical assertion of every case passes, and else 1 |
| ContinuityGate.CompareComposes | packages/pcltm/continuity_gate.py:412-463 | if baseline to middle and middle to candidate pass an operator, baseline to candidate passes exactly when its comparisons stay within the cap |
| ContinuityGate.CapCanBlockComposition | packages/pcltm/continuity_gate.py:429-452 | without that condition composition fails: three lists for which both steps pass a cap of 3 and the composite does not |
| ContinuityGate.GatePassingComposes | packages/pcltm/continuity_gate.py:486-546 | for one policy, when baseline to middle and middle to candidate pass every critical assertion, baseline to candidate does exactly if its own critical contains_all searches stay within the cap |
| HostDeploy.RecordCreatedPaths | soul_link/hermes_deploy.py:426-443 | the recorded paths are exactly the topmost created ones outside the backup and the managed paths: an antichain that covers every created path and has no baseline path below it; paths the marker held already stay as they are |
| FileTree.SortedByDepth | soul_link/hermes_deploy.py:431-431 | the listing holds every path once, in the order of depth |
| HostDeploy.DeleteNewRoots | soul_link/hermes_deploy.py:401-410 | what is left is exactly the subtrees of the original root entries and the backup |
| HostDeploy.Restore | soul_link/hermes_deploy.py:400-424 | the loop computes the entry-by-entry restoration, and fails exactly when a saved copy is missing or a file stands in the way |
| HostDeploy.RestoreEntriesSettle | soul_link/hermes_deploy.py:411-424 | each entry puts its own subtree as expected and leaves what earlier entries settled |
| HostDeploy.EverythingExpected | soul_link/hermes_deploy.py:400-424 | after all entries every path outside the backup is as expected, whatever the mutation did |
| HostDeploy.ValidatesSame | soul_link/hermes_deploy.py:445-457 | the recorded paths neither help nor hurt the validation of the backup |
| HostDeploy.RollBackFailedApply | soul_link/hermes_deploy.py:221-231 | also after an earlier recording: the rollback goes ahead exactly if the backup validates; refused, it changes nothing; otherwise the home tree is baseline outside and saved copy inside the managed paths, and the backup is gone |
| HostDeploy.RollbackIsExactIffBackupIntact | soul_link/hermes_deploy.py:221-231 | the tree left is the baseline, path for path, exactly when the backup still holds the baseline's managed subtrees |
| HostDeploy.SameInputIff | soul_link/hermes_deploy.py:475-480 | for one listing, and files that are of one size or hold no NUL, the hashed bytes agree exactly when all contents do, a directory counting as empty |
| HostDeploy.PosixJoins | soul_link/hermes_deploy.py:476-477 | a path is hashed as its names joined by slashes |
| HostDeploy.FingerprintSeparates | soul_link/hermes_deploy.py:469-480 | two copies of the same paths and kinds, each of whose files is of one size in both or holds no NUL in either, have the same fingerprint exactly if they are the same, for a collision-free hash |
| HostDeploy.IntactIffValidatedInShape | soul_link/hermes_deploy.py:445-480 | where each managed file has kept its size or holds no NUL, the backup is intact exactly if it validates and its copies have kept their paths and kinds |
| HostDeploy.IntactIffValidatedInSize | soul_link/hermes_deploy.py:445-480 | whatever the files hold, the backup is intact exactly if it validates and its copies have kept their paths, kinds and file sizes |
| HostDeploy.FingerprintMissesKind | soul_link/hermes_deploy.py:475-480 | a directory that holds an empty file and one that holds an empty directory, of the same name, give the same bytes to hash, for every name |
| HostDeploy.FingerprintMissesNames | soul_link/hermes_deploy.py:475-480 | two trees of plain files without NUL, under different names, give the same bytes to hash: nothing marks where a content ends |
| HostDeploy.FingerprintMissesNul | soul_link/hermes_deploy.py:475-480 | two trees of the same paths and kinds, with a NUL in a content, give the same bytes to hash |
| RuntimeRestore.SkipsCoincide | soul_link/hermes_update.py:480-495 | what the archive leaves out is exactly what the delete loop leaves alone |
| RuntimeRestore.EmptyMeansNothingProtected | soul_link/hermes_update.py:498-502 | when its turn comes, a directory is empty exactly if nothing protected lies below it |
| RuntimeRestore.RuntimeTree.DeleteUnprotected | soul_link/hermes_update.py:488-502 | the loop leaves the protected paths and the directories above them, and nothing else |
| RuntimeRestore.RuntimeTree.CopyStaged | soul_link/hermes_update.py:503-508 | the archived files are laid over what is left, with the directories they need, or a file and a directory clash |
| RuntimeRestore.ArchiveHolds | soul_link/hermes_update.py:569-622 | the archive holds exactly the unprotected files, and every directory it needs was one |
| RuntimeRestore.OverlayExact | soul_link/hermes_update.py:503-508 | without a clash the outcome is archived tree outside, current tree inside the protected paths exactly under the round-trip condition |
| RuntimeRestore.ClashMeansNoRoundTrip | soul_link/hermes_update.py:503-508 | a clash happens only where the round-trip condition fails |
| RuntimeRestore.RuntimeTree.RestoreSoulLink | soul_link/hermes_update.py:480-508 | restoring succeeds with the exact tree if and only if the round-trip condition holds of the archived and the current tree |
| RuntimeRestore.EmptyDirectoryIsLost | soul_link/hermes_update.py:617-622 | a tree that is one empty directory does not survive a restore onto itself |
| ProfileRestore.ProfileTree.RestoreProfile | soul_link/hermes_update.py:531-566 | fails exactly when plugins is a file; otherwise every entry and every plugin is as staged, plugins is a directory, and the rest of the home directory is untouched |
| ProfileRestore.StagedIff | soul_link/hermes_update.py:510-529 | what the profile archive brings back: the files of entries and plugins; entries and plugins that are directories, empty ones too; and the directories above these |
| ProfileRestore.ProfileExact | soul_link/hermes_update.py:510-566 | the restored profile is the archived one, path for path, exactly if that had a plugins directory and no directory but entries and plugins without a file or plugin below it |
| DatabaseFiles.PutPartsAt | soul_link/hermes_update.py:346-355 | each of the four files of a database is as asked for, its parent directories exist, and every other path is as it was |
| RecoveryPoint.KnownDatabases | soul_link/hermes_update.py:510-517 | the names left out of the profile, and the paths left out of the runtime archive, are those of the configured databases |
| RecoveryPoint.HostExact | soul_link/hermes_update.py:217-217 | the host restored from its archive is the host exactly if every directory has a file below it |
| RecoveryPoint.RuntimeAt | soul_link/hermes_update.py:480-508 | one path of the runtime comes back as archived exactly if an archived file, something protected or a database calls for it just when it was a directory |
| RecoveryPoint.MisplacedNeverFits | soul_link/hermes_update.py:503-508 | a restore that silently misplaced a file has not reached the recovery point, and the fitting condition fails |
| RecoveryPoint.CompensationNeverClashes | soul_link/hermes_update.py:313-318 | when the second recovery point is laid over what a failed restore left, no archived file finds a directory in its place or a file above it |
| RecoveryPoint.RecoveredIff | soul_link/hermes_update.py:443-478 | a restore that went through has reached the recovery point, over all three trees and the databases, exactly if that was recoverable: solid host, whole profile, fitting runtime |
| RecoveryPoint.CompensatedIff | soul_link/hermes_update.py:303-323 | a compensation that went through has put every path back as it was exactly if the state before was compensable: the same conditions on it, and no directory in the place of a database file |
| HostUpdate.Controller.ApplyRestore | soul_link/hermes_update.py:443-478 | for every schedule of faults: success puts host, profile, runtime and databases as specified; after a failure the host is the old one unless renaming it back failed too; without a host root nothing is touched; when no step made has failed and nothing is in the way it succeeds, as does laying a compensation over what a failed restore left |
| HostUpdate.Controller.WriteDatabase | soul_link/hermes_update.py:346-355 | clears and writes the four files one by one; success puts every one in place and touches nothing else, and it succeeds when nothing is in the way and no step fails |
| HostUpdate.Controller.Restore | soul_link/hermes_update.py:298-328 | for every schedule of faults: the outcome is the recovery point exactly if recoverable, or the state before exactly if compensable, or repair required; what is reported is that outcome unless the clean-up raises; where both conditions hold the report is all or nothing exactly if the clean-up does not raise or nothing had changed; if no step made has failed it restores; if only the very first has, it compensates; without a host root it asks for repair |
| HostUpdate.Controller.Execute | soul_link/hermes_update.py:265-296 | for every update, deployment and verification and every schedule of faults: updated exactly if preflight and preparation went through and the three succeeded in turn, and then what the third left stays; otherwise a restore is begun from what the failing one left, with the outcomes and under the conditions of `Restore`; blocked or unprepared, nothing changes |
| HostUpdate.ReportTellsIff | soul_link/hermes_update.py:324-327 | the clean-up's error replaces whatever was to be reported: the report stays true exactly if it does not raise or nothing had changed |
| HostUpdate.CleanupCanMask | soul_link/hermes_update.py:298-328 | a setting and two disks for which a restore without faults reaches the recovery point, which differs from the state before, and a raising clean-up reports a failure |
| EvidenceChain.EscapeIsPrefixCode | packages/pcltm/evidence_chain.py:23-24 | no JSON escape of a character is a prefix of another's |
| EvidenceChain.EscapedReadsBack | packages/pcltm/evidence_chain.py:23-24 | a quoted JSON string can be read back, whatever follows it |
| EvidenceChain.RenderReadsBack | packages/pcltm/evidence_chain.py:23-24 | a rendered value ends where it ends and determines the value |
| EvidenceChain.EscapeIs | packages/pcltm/evidence_chain.py:23-24 | which characters are escaped, and how; all others stand for themselves |
| EvidenceChain.EscapedAdds | packages/pcltm/evidence_chain.py:23-24 | texts are escaped character by character |
| EvidenceChain.DigitsAre | packages/pcltm/evidence_chain.py:23-24 | numbers are written in decimal digits |
| EvidenceChain.NumberIs | packages/pcltm/evidence_chain.py:23-24 | negative numbers have a sign in front of their digits |
| EvidenceChain.EnvelopeText | packages/pcltm/evidence_chain.py:49-72 | the canonical envelope is one JSON object with nineteen members in the order of their names, with nothing between them but commas, texts quoted, missing values null |
| EvidenceChain.EnvelopeReadsBack | packages/pcltm/evidence_chain.py:23-73 | equal canonical envelopes have equal values in all nineteen fields |
| EvidenceChain.ChainHashInjective | packages/pcltm/evidence_chain.py:27-73 | a chain hash determines both the previous hash and every field of the envelope, across the joining newline |
| EvidenceChain.LastLinksAgree | packages/pcltm/ledger_schema.py:423-492 | equal tips mean equal last events and equal tips before them |
| EvidenceChain.SameTipSameTable | packages/pcltm/ledger_schema.py:423-492 | two tables that validate and have the same tip hash have the same length and agree on every hashed field of every event |
| LedgerBackfill.Ledger.BackfillRow | packages/pcltm/ledger_schema.py:428-524 | one row: rejected exactly when a stored hash disagrees with the recomputed one; otherwise kept or enrolled, its revision row added unless there is one; every other row unchanged |
| LedgerBackfill.Ledger.Backfill | packages/pcltm/ledger_schema.py:404-572 | the one-pass loop computes the fold over rows; the chain state records first id, last id, count and tip |
| LedgerBackfill.PassShape | packages/pcltm/ledger_schema.py:428-524 | after a pass every row and revision is a function of its own old row and the tip before it |
| LedgerBackfill.StableIffSameEnvelope | packages/pcltm/ledger_schema.py:433-519 | an enrolled event's envelope reads the same from the stored columns as from the ingest columns exactly if the event is stable |
| LedgerBackfill.OrdinaryEventsAreStable | packages/pcltm/ledger_schema.py:433-519 | schema version 9 or unset, revision 1 or unset, a non-empty ingest hash and no earlier revision row make an event stable |
| LedgerBackfill.FixedPointIffStable | packages/pcltm/ledger_schema.py:404-572 | after a successful pass a second one raises nothing exactly when every enrolled event was stable, and then changes no event, no revision and no tip |
| LedgerBackfill.OldSchemaVersionBreaksFixedPoint | packages/pcltm/ledger_schema.py:459-501 | in any table that passes once, a legacy event with a schema version other than 9 and unset makes every second pass fail |
| LedgerBackfill.SchemaVersionDecides | packages/pcltm/ledger_schema.py:459-501 | for every version: an ordinary event of that version passes once, and a second time exactly if the version is unset or 9 |
| LedgerBackfill.PassIsChain | packages/pcltm/ledger_schema.py:423-524 | the rows a pass accepts, with the envelopes it hashed, form a valid chain whose tip is the tip recorded |
| LedgerBackfill.SameTipSameLedger | packages/pcltm/ledger_schema.py:404-572 | two ledgers whose passes succeed and record the same tip have equally many events and agree on every link: envelope, content and hash |
| LedgerBackfill.SameTipSameColumns | packages/pcltm/ledger_schema.py:446-475 | in terms of the columns: the events then agree in identity, session, conversation, platform, role, source, turn, parent, sensitivity, categories and content, in time, version and revision up to their defaults, and in external id, visibility and source hash where both read them from the same place |
| LedgerBackfill.EnrolledGoesThroughIff | packages/pcltm/ledger_schema.py:428-488 | an enrolled row goes through, unchanged, exactly if its payload hash, previous hash and chain hash are those of its content, of the row before and of the envelope of its own columns |
| LedgerBackfill.LegacyGoesThroughIff | packages/pcltm/ledger_schema.py:428-524 | a legacy row goes through exactly if the hashes it has are right; it is then completed from its ingest row, gets all three hashes, revision 1 and version 9, and a revision row if it lacks one |
| ToolChain.AcceptsIffSurvives | packages/pcltm/context_engine.py:412-439 | the two sets of the scan accept a tool row exactly when it is the first with its id since the nearest assistant, which called that id, with no user, system or developer turn between |
| ToolChain.CalledIff | packages/pcltm/context_engine.py:420-426 | the names a message asks answers for: the id of each call, or its call id where the id is missing, blank or otherwise falsy |
| ToolChain.SanitizeToolChain | packages/pcltm/context_engine.py:402-439 | the output is exactly the surviving rows in order, and dropped is the difference of the lengths |
| ToolChain.LongestWellFormed | packages/pcltm/context_engine.py:402-411 | the result is well formed, leaves out tool rows only, and no well-formed transcript that does so is longer |
| ToolChain.SanitizingSettles | packages/pcltm/context_engine.py:402-439 | nothing is dropped exactly from well-formed transcripts; a second pass changes nothing |
| ToolChain.SplitsAtBoundary | packages/pcltm/context_engine.py:416-418 | a transcript may be sanitised piecewise when it is cut before an assistant, user, system or developer message |
| ToolChain.CutInsideRunLosesAnswer | packages/pcltm/context_engine.py:427-433 | cut elsewhere, an answer parted from its call is dropped |
| RequestTracking.SegmentNamesLastInstruction | packages/pcltm/context_engine.py:287-316 | with three or more substantive lines the last of them, which is neither blank nor a continuation; otherwise the whole text |
| RequestTracking.BuildShadowContext | packages/pcltm/context_engine.py:485-594 | current request, latest message, dialogue turns with first replies, items and counters are those of the positional definition, for every transcript |
| RequestTracking.RequestComesFromTask | packages/pcltm/context_engine.py:514-531 | a current request is the last substantive segment of the last real, non-weak user turn |
| RequestTracking.TrackedStep | packages/pcltm/context_engine.py:536-550 | each real user turn that is not a repetition opens one dialogue turn, in order, and the first reply after it closes it |
| RequestTracking.SyntheticMessagesAreInert | packages/pcltm/context_engine.py:501-513 | transcripts with the same real user turns and replies have the same request, latest message and dialogue turns, whatever handoffs, control payloads and tool rows they hold |
| RequestTracking.OneItemPerTask | packages/pcltm/context_engine.py:531-560 | no two kept items of task turns share a fingerprint, before and after tail trimming |
| RequestOutcome.KeptItemsAre | packages/pcltm/context_engine.py:493-594 | the items are those of the messages carried on, in order, with their own role, text and source, and then the capsules, of which a positive limit keeps the last: blank messages, tool rows, control payloads other than to-do lists and repeated tasks have none, all others one |
| RequestOutcome.NewestIsKept | packages/pcltm/context_engine.py:593-594 | without capsules the newest message carried on is the last item kept, under any limit |
| RequestOutcome.CountersAre | packages/pcltm/context_engine.py:501-540 | the counters are the number of handoffs and of repeated tasks |
| RequestOutcome.SegmentIs | packages/pcltm/context_engine.py:287-316 | for every text: its last instruction if it has three or more, or if it is blank but for them, and otherwise the whole text |
| RequestOutcome.RequestAndLatestAre | packages/pcltm/context_engine.py:514-531 | the current request is the segment of the last turn that asks for something, the latest message what was said last, and both are blank when there is none |
| RequestOutcome.TurnsWrittenOut | packages/pcltm/context_engine.py:536-550 | one dialogue turn for each turn said and not asked before, in order, with the first reply before the next one |
| Ordering.SortedIsSorted | packages/pcltm/adaptive_memory.py:86-86 | sorting a set gives an ascending sequence of the same elements |
| Ordering.AscendingIsUnique | packages/pcltm/adaptive_memory.py:86-86 | a set has only one ascending enumeration under a total order |
| Ordering.TupleLessIsOrder | packages/pcltm/adaptive_memory.py:41-55 | tuples of numbers and strings are totally ordered |
| Ordering.PartLessOfChars | packages/pcltm/adaptive_memory.py:41-59 | texts are ordered by their first difference, a prefix first |
| RankFusion.ReferenceLessIsOrder | packages/pcltm/adaptive_memory.py:41-55 | references are totally ordered by their eleven commitment fields; the key loses nothing |
| RankFusion.ReferenceLessIff | packages/pcltm/adaptive_memory.py:41-55 | references are compared field by field, in the order of the commitment tuple |
| RankFusion.Config.WeightFor | packages/pcltm/adaptive_memory.py:34-38 | the weight configured for the channel, 1 for any other |
| RankFusion.FuseGroup | packages/pcltm/adaptive_memory.py:78-107 | evidence sorted and without repetition, score summed over distinct channel and rank, provider and quote of the smallest candidate |
| RankFusion.FuseCandidates | packages/pcltm/adaptive_memory.py:62-113 | exactly one fused candidate for each reference, made from its whole group, by falling score and then reference |
| RankFusion.FusedEvidenceIs | packages/pcltm/adaptive_memory.py:79-86 | the evidence of a fused candidate is that of the candidates with its reference, one without evidence counting as seen by its provider at rank 1; without repetitions, in order of channel, rank and raw score |
| RankFusion.FusedIsNamed | packages/pcltm/adaptive_memory.py:94-107 | it has the quote of the candidate with the least provider and quote, and its provider unless several channels contributed |
| RankFusion.FusedIsInOrder | packages/pcltm/adaptive_memory.py:108-113 | higher scores stand first, equal ones by reference |
| RankFusion.ScoreIsTotal | packages/pcltm/adaptive_memory.py:87-93 | the score is the total, over the distinct channels and ranks observed, of shares that times base and rank together give the weight of the channel |
| RankFusion.ObservedOnce | packages/pcltm/adaptive_memory.py:90-93 | the score of a reference observed once, times base and rank together, is the weight of the channel: the configured one, or 1 |
| RankFusion.BetterRankStandsFirst | packages/pcltm/adaptive_memory.py:87-113 | of two references observed once on one channel of some weight, the better rank has the higher score and stands first |
| RankFusion.BetterRankRaisesIff | packages/pcltm/adaptive_memory.py:87-93 | replacing one observation by a better rank on its channel does not lower the score exactly if that rank was not observed already, or the channel weighs nothing |
| RankFusion.RankScoreAdds | packages/pcltm/adaptive_memory.py:87-93 | the score does not depend on the order in which the observations are summed |
| RankFusion.OrderAndRepetitionDoNotMatter | packages/pcltm/adaptive_memory.py:62-113 | lists with the same candidates, in any order and any number of times, fuse to the same list |
| RankFusion.FusionIsIdempotent | packages/pcltm/adaptive_memory.py:62-113 | fusing a fused list changes nothing |
| RankFusion.IncrementalIsBatch | packages/pcltm/adaptive_memory.py:62-113 | fusing batch after batch gives the references, scores, evidence and order of fusing everything at once |
| RankFusion.NewEvidenceIsLocal | packages/pcltm/adaptive_memory.py:78-93 | further candidates never lower a score, and leave references they do not mention as they were |
| RankFusion.RanksDecideStandings | packages/pcltm/adaptive_memory.py:67-93 | two candidate lists that observe the same references on the same channels at the same ranks have the same ranking, references, scores and order, whatever their raw scores |
| QuotaSelection.SelectionIsMaximal | packages/pcltm/memory_adapter.py:1093-1118 | top-k and every bucket quota respected, texts distinct, rank order kept; when it falls short every row is blocked by mode, a full bucket, an unfit entry or a duplicate |
| QuotaSelection.ChosenIff | packages/pcltm/memory_adapter.py:1093-1126 | a row is chosen exactly if it is of the mode, its text fits, and of the rows ranked before it fewer than top-k were chosen, fewer of its bucket than that bucket has quota, and none with its text; a bucket without quota gets none |
| QuotaSelection.Selection.AddRow | packages/pcltm/memory_adapter.py:1093-1118 | a row joins exactly when nothing blocks it; the recorded decision is the reason, and a selected record keeps its record |
| QuotaSelection.SelectEntryRows | packages/pcltm/memory_adapter.py:1065-1137 | the two passes choose exactly what one greedy pass chooses; every recorded decision is the final reason; the mode reason is never recorded |
| QuotaSelection.SecondTry | packages/pcltm/memory_adapter.py:1128-1135 | on the second pass every deferred row is blocked, so it adds none |
| QuotaSelection.BlockedBecause | packages/pcltm/memory_adapter.py:1093-1113 | the four reasons against a row, in the order in which they are recorded |
| QuotaSelection.FinalDecisionIs | packages/pcltm/memory_adapter.py:1084-1135 | what is recorded for each row: selected; while there is room, why it cannot join the whole selection; else why it could not at its turn, or that the limit came first |
| QuotaSelection.DiversifyRankedRows | packages/pcltm/memory_adapter.py:558-572 | first row of each key in front, the others behind, both in rank order; short lists and empty queries unchanged |
| QuotaSelection.DiversifiedIsReordering | packages/pcltm/memory_adapter.py:558-572 | a permutation of the rows whose front holds each key exactly once |
| QuotaSelection.DiversifyingIsIdempotent | packages/pcltm/memory_adapter.py:558-572 | reordering twice is reordering once |
| LegacyPromotion.PromoteOneKeepsInv | packages/pcltm/legacy_memory_promotion.py:88-240 | one promotion keeps referential integrity, one claim for each key, at most one source for each record, and nothing secret |
| LegacyPromotion.RunKeepsInv | packages/pcltm/legacy_memory_promotion.py:78-245 | so does every run of promotions, and what was promoted stays promoted |
| LegacyPromotion.AmbiguousIsUnreachable | packages/pcltm/legacy_memory_promotion.py:132-135 | in no run of promotions does a request meet the ambiguous error |
| LegacyPromotion.OthersUnaffected | packages/pcltm/legacy_memory_promotion.py:108-175 | promoting one record leaves the outcome for every other record and key as it was, errors included |
| LegacyPromotion.BatchSucceedsIff | packages/pcltm/legacy_memory_promotion.py:41-53 | a batch without repeated identity succeeds exactly when each item would succeed by itself in the state the batch finds |
| LegacyPromotion.ReplayIsIdentical | packages/pcltm/legacy_memory_promotion.py:108-168 | after any further promotions, a successful request repeated returns the same items and writes nothing |
| LegacyPromotion.OnlyApprovedContent | packages/pcltm/legacy_memory_promotion.py:88-108 | every version a batch adds is the content and sensitivity of an approved, non-secret record it names |
| LegacyPromotion.RefusedRecords | packages/pcltm/legacy_memory_promotion.py:88-107 | which error refuses a record that is missing, not approved, secret or malformed |
| LegacyPromotion.FirstPromotionStores | packages/pcltm/legacy_memory_promotion.py:169-240 | a record no claim cites goes through exactly if its key is free, and every row this writes: claim, first version, source, receipt, current state and job |
| LegacyPromotion.ReplayDecided | packages/pcltm/legacy_memory_promotion.py:132-168 | for a record that is cited: what is compared, in which order, and with which error, before the stored item is returned and nothing written |
| LegacyPromotion.LegacyMemoryPromotionService.PromoteItem | packages/pcltm/legacy_memory_promotion.py:87-240 | one item through its queries and inserts, for every schedule of failing statements: a database failure exactly if one of the statements made failed, and otherwise the specified outcome or error |
| LegacyPromotion.LegacyMemoryPromotionService.Promote | packages/pcltm/legacy_memory_promotion.py:78-245 | all items or none, for every schedule of failing statements, BEGIN and commit included: a database failure exactly if one failed, otherwise the specified items or the first failing item's error; any error leaves every table as it was |
| ReceiptProtocol.StatementsEvolve | packages/pcltm/candidate_promotion.py:212-311 | each of the three statements moves receipts forward only |
| ReceiptProtocol.StepKeepsInv | packages/pcltm/candidate_promotion.py:249-290 | what every worker's phase says of the table survives any step of any worker |
| ReceiptProtocol.ReceiptsOnlyMoveForward | packages/pcltm/candidate_promotion.py:212-381 | between any two points of any run receipts stay, keep their request hash, and change only from processing to a verdict or from pending to an approval |
| ReceiptProtocol.CompletedIsPersisted | packages/pcltm/candidate_promotion.py:212-247 | an outcome returned as completed is the persisted one then and ever after, except that a pending one may since have been approved |
| ReceiptProtocol.CompletedAnswersAgree | packages/pcltm/candidate_promotion.py:292-312 | two workers told a completed outcome of one candidate had the same request and were told the same, or one was told it was pending |
| ReceiptProtocol.OneFirstAttempt | packages/pcltm/candidate_promotion.py:265-287 | at most one worker of a candidate attempts it for the first time; every other one knows it is recovering |
| ReceiptProtocol.ApprovalRecordedIff | packages/pcltm/candidate_promotion.py:367-382 | an approval's returned outcome is recorded exactly when the receipt was still pending or already said the same |
| ReceiptProtocol.SoleReviewIsRecorded | packages/pcltm/candidate_promotion.py:325-384 | as long as reviews of one candidate do not overlap, what an approval returns is what is recorded, with its reviewer |
| ReceiptProtocol.OverlappingReviewsGoUnrecorded | packages/pcltm/candidate_promotion.py:325-384 | a run of one promoter and two overlapping reviewers in which the second is told an outcome that is nowhere recorded |
| ReceiptProtocol.FoundReceiptAnswers | packages/pcltm/candidate_promotion.py:257-312 | what a promotion answers from a receipt it finds: refused for another hash; a finished outcome, those that touched memory only with matching authority; one in progress is taken up |
| ReceiptProtocol.VerdictTakenUp | packages/pcltm/candidate_promotion.py:284-323 | the verdict is recorded as it is, except for a recovered memory promotion that finds its own claim |
| ReceiptProtocol.FinalisingWrites | packages/pcltm/candidate_promotion.py:212-247 | what finalising writes, and when it counts as done although the update found nothing |
| ReceiptProtocol.ApprovalAnswers | packages/pcltm/candidate_promotion.py:337-366 | what an approval answers: taken up if pending under its hash with matching authority, answered if the same review approved it before, refused otherwise |
| ReceiptProtocol.CandidatePromotionService.FinalizeReceipt | packages/pcltm/candidate_promotion.py:212-247 | among arbitrary other workers, and as steps of the protocol's worker: returns only with its own outcome in the table, and always when the receipt was still processing |
| ReceiptProtocol.CandidatePromotionService.PromoteDurable | packages/pcltm/candidate_promotion.py:249-290 | among arbitrary other workers, with any lower layer and authority, every statement is the next step of the protocol's worker up to its answer: a completed answer is the persisted outcome; another request's hash is refused with the table untouched |
| ReceiptProtocol.CandidatePromotionService.ApprovePending | packages/pcltm/candidate_promotion.py:325-384 | among arbitrary other workers, with any lower layer and authority, every statement is the next step of the protocol's worker up to its answer: when the UPDATE found the receipt pending, the answer is recorded with the review |
| MemoryPolicy.SourceSensitivity | packages/pcltm/memory_policy.py:82-83 | the least sensitivity that covers all sources, normal if there are none |
| MemoryPolicy.WriteDecided | packages/pcltm/memory_policy.py:91-122 | what a write is refused for, in which order; otherwise it is admitted at the sensitivity it asks for |
| MemoryPolicy.AccessAllowedIff | packages/pcltm/memory_policy.py:125-146 | exactly when access is allowed, and the reason when it is not |
| MemoryPolicy.AdmittedCoversSources | packages/pcltm/memory_policy.py:79-122 | an admitted claim is at least as sensitive as each of its sources, and not secret |
| MemoryPolicy.AncestorIff | packages/pcltm/memory_policy.py:79-122 | the ancestors of a claim are what paths of sources lead back to |
| MemoryPolicy.SensitivityFlows | packages/pcltm/memory_policy.py:79-122 | in a graph of admitted claims every claim is at least as sensitive as every transitive ancestor, and no ancestor is secret |
| MemoryPolicy.AccessShowsOnlyWhatModesAllow | packages/pcltm/memory_policy.py:125-146 | a claim shown on a non-audit surface has only normal and private ancestors, and outside the daily and sex modes only normal ones |
| MemoryPolicy.CoveredIsSource | packages/pcltm/memory_policy.py:97-116 | a claim is derived from every node it cites, if the policy was shown a snapshot for each reference |
| MemoryPolicy.CitedIsSource | packages/pcltm/memory_policy.py:97-116 | for lineages that need a source the policy itself checks this, and a claim is derived from exactly the nodes it cites |
| MemoryPolicy.SensitivityFlowsAlongCitations | packages/pcltm/memory_policy.py:97-122 | where each reference had its snapshot, sensitivity also flows along every path of citations, whatever the lineage |
| MemoryPolicy.CitationsUnchecked | packages/pcltm/memory_policy.py:97-122 | shown no snapshot, the policy allows a normal claim that cites a secret event, for every other admissible lineage |
| PromptBudget.RenderEvidence | packages/pcltm/live_context_governor.py:358-368 | each capsule gets what the earlier ones left; the omission is recorded exactly when the budget is used up before the last capsule |
| PromptBudget.EvidenceWithinBudget | packages/pcltm/live_context_governor.py:358-368 | the rendered capsules together never exceed the evidence budget |
| PromptBudget.BlockFitsIff | packages/pcltm/live_context_governor.py:358-374 | for all capsules and budgets: the joined block fits exactly if the first capsule alone fills the budget, or what is rendered of all of them leaves a character for each separator |
| PromptBudget.WholeBlockFitsIff | packages/pcltm/live_context_governor.py:358-374 | when the capsule texts together fit the budget, the joined block fits exactly if the separators fit too |
| PromptBudget.CutBlockFitsIff | packages/pcltm/live_context_governor.py:358-374 | when they exceed the budget, the first that does not go in whole is cut to what is left; the block fits exactly if the slack of that cut holds what is rendered of the later capsules and all separators, or the first capsule alone fills the budget |
| PromptBudget.LastCutFitsIff | packages/pcltm/live_context_governor.py:358-374 | if the last capsule is the one cut, the block fits exactly if the slack of its cut holds the separators |
| PromptBudget.EvidenceBlockLength | packages/pcltm/live_context_governor.py:358-374 | how far a block that does not fit can go over: by at most one separator for each part after the first |
| PromptBudget.CutFillsIff | packages/pcltm/live_context_governor.py:469-480 | a cut text fills its limit exactly if no white space is stripped at the cut: at the end of the first cut when no required marker is missing, else at the end of the second, or the markers alone fill the limit |
| PromptBudget.CapsuleText | packages/pcltm/live_context_governor.py:168-180 | the text of a tool evidence capsule, line by line, and the markers it wants kept: its hash and its result |
| PromptBudget.FilesListed | packages/pcltm/live_context_governor.py:178-179 | the affected files are joined by bars |
| PromptBudget.ToolBlockFitsIff | packages/pcltm/live_context_governor.py:168-180 | the two conditions for any list of tool evidence capsules, as the code renders them, and any budget |
| PromptBudget.TwoToolCapsules | packages/pcltm/live_context_governor.py:358-374 | of two tool evidence capsules, the second cut, the block fits exactly if the cut leaves slack |
| PromptBudget.CutBeforeFiles | packages/pcltm/live_context_governor.py:168-180 | a tool evidence capsule cut in the break and indentation before its affected files is rendered without them, with up to three characters of slack |
| PromptBudget.FitDependsOnCut | packages/pcltm/live_context_governor.py:168-180 | of two tool evidence capsules whose texts exceed the budget, the block fits when the budget ends two to four characters behind the evidence hash of the second, and not when it ends one behind |
| PromptBudget.SeparatorsExceedBudget | packages/pcltm/live_context_governor.py:168-180 | any two rendered tool evidence capsules, in a budget of just their lengths, make a block one character longer than the budget |
| PromptBudget.BudgetIsHard | packages/pcltm/live_context_governor.py:372-392 | the view never exceeds the total, the memory text never its own limit, and memory text never causes the cap |
| PromptBudget.GovernPromptContext | packages/pcltm/live_context_governor.py:338-404 | the rendered view is the specified one; the cap is recorded exactly when base and footer alone exceed the total; the omitted count is exact |
| PromptBudget.ClosingTagIffUncapped | packages/pcltm/live_context_governor.py:389-392 | the view ends with its closing tag exactly when it was not capped |
| PromptBudget.UncappedShowsEveryPart | packages/pcltm/live_context_governor.py:380-392 | an uncapped view contains every part word for word: tag, continuation, each rendered capsule, intent, and the memory text when that fits its room |
| PromptBudget.TruncatePreservingMarkers | packages/pcltm/live_context_governor.py:469-480 | never longer than the limit, and the text itself when it fits |
| PromptBudget.MissingMarkersReturn | packages/pcltm/live_context_governor.py:469-480 | a required marker the cut removed comes back, shortened, when all such markers together leave room |
| PromptBudget.MissingAre | packages/pcltm/live_context_governor.py:472-474 | missing are the required markers, blank ones aside, that do not occur in the cut text |
| PromptBudget.CutKeepsStart | packages/pcltm/live_context_governor.py:469-480 | a capsule that is too long keeps its start, white space at the end aside, with an ellipsis and the missing markers behind it, or the end of these alone |
| PromptBudget.OmissionKeepsStart | packages/pcltm/live_context_governor.py:460-466 | memory text that is too long keeps its start and a notice of how much is left out, or the end of that notice |
| PromptBudget.CapKeepsStart | packages/pcltm/live_context_governor.py:483-489 | a view that is too long keeps its start and a notice of the cap, or the end of that notice |
| PromptBudget.ViewHasParts | packages/pcltm/live_context_governor.py:348-371 | the parts of a view whose continuation and evidence fit their own budgets: tag, continuation, evidence and intent, whole and in order |
| PromptBudget.ContinuationWithinBudget | packages/pcltm/live_context_governor.py:352-356 | the continuation is cut to its own budget, and absent exactly if there is none or no budget for it |
| PromptBudget.MemoryShown | packages/pcltm/live_context_governor.py:373-390 | an uncapped view shows the memory text after its header, whole if it fits its own budget and what the total leaves, else cut to the smaller |

## Left out

- The texts of validation messages, their path prefixes and their truncation; the validator's complaints are a datatype.
- `_validate_manifest`, pinned-artifact envelopes, report writing and strict JSON loading: field checks and I/O around the gate.
- Symbolic links, reparse points, zip and YAML encoding, file modes and times; trees hold directories and file contents.
- In HostDeploy the mutation is any change of managed subtrees and of the backup plus creation of new paths elsewhere; what the installer writes, and host adaptation, are not modelled.
- HostDeploy.Restore: does not model deletions and copies that fail for reasons outside the tree, such as permissions.
- HostUpdate.Controller.Restore: where there is a host root, nothing is claimed of the disk in the repair-required outcome beyond the paths a restore never touches, as the source claims nothing.
- HostUpdate.Controller.Execute: the update, the deployment and the verification are arbitrary functions from one state of the disk to the next; what they do is not modelled.
- RecoveryPoint.RecoveredIff: databases are taken to lie at the top of the home directory or in the runtime outside the preserved roots, with distinct files, and no preserved root to end in a name repeated, as the shipped configuration has it. The home directory is meant without the SoulLink root that may lie in it.
- The update lock: its read, liveness check and unlink are separate steps, and it excludes only while no holder dies.
- SQLite itself: constraints beyond keys, triggers, WAL. A transaction is a saved copy of the tables; a statement in ReceiptProtocol takes effect at once.
- LedgerBackfill.Ledger.Backfill: does not model the chunk and outbox rows written beside an enrolled event, except for the list of migrated ids; nor the timestamp of the chain state.
- ContinuityGate.Evaluate: leaves out manifest validation, warning counts and the case states other than blocked.
- RequestTracking.BuildShadowContext: starts from the sanitised messages; ToolChain.SanitizeToolChain is the step before it.
- EvidenceChain.SameTipSameTable: assumes a collision-free hash on all strings, with non-empty output that holds no newline.
- Integers in envelopes are unbounded, as in the source; floating-point numbers do not occur in them.
- Handoff, control, to-do and weak-resume tests, text stripping and line splitting in RequestTracking are parameters. Tool evidence capsules enter as ready items.
- RequestTracking.SyntheticMessagesAreInert: says nothing of items, which do record handoffs and to-do payloads.
- RankFusion.IncrementalIsBatch: excludes quote and provider, which depend on the candidates of each step.
- Floating-point rounding of scores, and the type error of comparing a missing source hash with a present one in the reference key; a missing one sorts first here.
- Bucket, mode and fitness tests of memory rows, and the ranking before the selector, are parameters.
- LegacyPromotion.LegacyMemoryPromotionService.PromoteItem: projection jobs are one row for each promoted claim, without their kinds.
- What `_promote_one` writes into claims, the event store and the write, transition and projection services. In ReceiptProtocol its verdict is an arbitrary function of the table; nothing says that a recovered attempt returns the verdict of the uninterrupted one.
- Candidates without an id or otherwise malformed, which are refused before any receipt is read.
- ReceiptProtocol.CandidatePromotionService.ApprovePending: states when the outcome is recorded, not that it always is, because the source ignores the row count.
- PromptBudget.MissingMarkersReturn: no marker is guaranteed to survive in general; the second cut may remove a marker the first one kept.
- Recall-intent classification, redaction, the safe-tag test and the telemetry dictionary.
- `resolve_transition`, `admit_injection`, defragmentation, governance execution, the Codex and ZCode deployments, command lines, servers and hooks.
