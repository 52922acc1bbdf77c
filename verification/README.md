# License Circuit Breaker: a verified model

A model, in Dafny 4.11, of the program that contains what was derived from data
whose licence was revoked: it discovers what descends from a source, decides what
to do with each descendant, binds an approval to exactly that plan, executes the
plan so that it survives crashes, and verifies the result by probing the
artifacts.  The proofs concern runs as a whole: what every sequence of attempts,
failures, crashes and resumes keeps, what a completed run guarantees, and what a
report of "unaffected" or "contained" rests on.

`dafny verify dfyconfig.toml` checks everything.

## Layout

| file | what it holds |
|---|---|
| Ordering.dfy, Rights.dfy | sorting and orders; purposes, actions, artifact names, URNs |
| Plan.dfy, Approvals.dfy | impact plan, its hash, steps and scope; the approval store and the gate |
| Estate.dfy, Adapters.dfy | the local estate, each containment action as a sequence of single writes; the adapters as code that makes those writes in place |
| Products.dfy | what each action leaves, to the row; the export over whole histories |
| Execution.dfy, Executor.dfy | one attempt at a run as the durable states it goes through, and histories of attempts; the executor as code proved to go through exactly those states |
| Refusals.dfy, Dependencies.dfy, Replacement.dfy | how attempts are turned away; when a step runs and how it ends; retraining and replacing |
| JournalSafety.dfy, JournalState.dfy | what histories keep of completed work, and of dependencies |
| ResumeAdmission.dfy, CrashConvergence.dfy | which interruptions can be resumed; that crashes change nothing about where a run ends |
| Reports.dfy, Authorization.dfy | reports, residual exposure, receipts; that every call was authorized |
| Provenance.dfy, Verification.dfy, Probing.dfy, Containment.dfy, Evidence.dfy | where rows come from; the probes, and what each says of the estate; completed implies verified; the verdict |
| Exhibits.dfy | runs on the failing side of the exact conditions |
| Catalog.dfy, Discovery.dfy, Paths.dfy | the catalog's walk; closing the graph; enumerating simple paths |
| LineageContext.dfy, Policy.dfy, AllClear.dfy | descendants and their evidence; the rule table; no false all-clear |
| Guard.dfy, GuardSafety.dfy | the mutation guard of the public demo, and what it keeps over whole runs |
| Ledger.dfy, Lock.dfy | the hash-chained receipts; the lock they are appended under |
| Layering.dfy | the layers of the lineage picture |

An operation that changes state in the program is a method here, proved equal to a
function of the old state; the theorems are about that function.  A crash is the
choice of a position in the sequence of durable states an attempt goes through, so
a statement about all of those states is one about all crashes.  Beside the theorems
about runs, each operation has its meaning written out in terms of its inputs alone,
without the functions that compute it: the order of the steps, when a step runs, how
calls are answered and what they leave, what a probe says, what the rules decide.

## Main results

- **Crash convergence** (`CrashConvergence.CrashesConverge`): any number of crashes
  at any writes, each followed by a resume, ends where the uninterrupted run ends,
  whatever else was decided or logged in between, as long as the approval stands.
- **Completed implies verified** (`Containment.CompletedImpliesVerified`,
  `Evidence.CompletedRunVerdict`, `Evidence.VerdictIsKnownBefore`): a completed run is
  contained if and only if its plan replaces the revoked model wherever it contains it
  and leaves working what it leaves alone.  Both parts can fail
  (`Exhibits.RetrainOnlyFails` with the plan of `Exhibits.RetrainOnlyRetrains` and the
  estate of `Exhibits.SomeEstateIsStocked`; `Exhibits.LeftAloneIsResidual`).
- **The verdict on a stored run** (`Evidence.StoredVerdict`,
  `Evidence.ContainedMeansCompleted`): exact for every run the journal can hold,
  returned or interrupted.
- **No false all-clear** (`AllClear.AllClearExactly`, `AllClear.PlanAllClearIsEarned`):
  as an if-and-only-if over all simple paths of the catalog.  It reaches exactly the
  nodes on such a path (`AllClear.VouchesExactly`): all ancestors on an acyclic graph,
  not all of them on a cyclic one (`AllClear.CyclicAncestorIsMissed`).
- **What decides what** (`Plan.StepsAreInOrder`, `Dependencies.StepsEndAsTheyShould`,
  `Refusals.AttemptsAreAnswered`, `Policy.TableDecides`, `Policy.ShippedTableDecides`,
  `Probing.ReportIsTrue`, `Products.CallsAreAnswered`): exact, and in consequence a model
  is retrained before it is replaced and both happen (`Replacement.ModelIsReplaced`), and
  the export is conserved over every history (`Products.ExportIsConserved`).
- **Resume admission** (`ResumeAdmission.InterruptionsResumable`): not every
  interruption can be resumed; exactly when it can is proved, and a run that loses its
  resume is exhibited (`Exhibits.ResumeCanBeLost`).
- **Journal safety and authorization** over every history
  (`JournalSafety.CompletedStaysCompleted`, `JournalState.DependentsFollowPredecessors`,
  `Authorization.EveryCallIsAuthorized`).
- **The plan hash** identifies a plan up to exactly what it is meant to ignore, and
  fixes everything execution reads (`Plan.HashIdentifiesPlan`,
  `Plan.HashDeterminesExecution`).
- **Discovery and paths** (`Discovery.DiscoverEdges`, `Paths.BuildPathsIsComplete`,
  `Paths.TruncatedExactly`), **reports** (`Reports.ReportRoundTrip`,
  `Reports.ReloadedExactly`) and **receipts** (`Reports.ReceiptsAreExact`,
  `Reports.ReceiptsOverHistory`), **the guard** (`GuardSafety.WindowsNeverOverflow` and
  the lemmas beside it), **the ledger** (`Ledger.TipFixesLedger`), **the lock**
  (`Lock.AtMostOneInside`, `Lock.AppendsFormOneChain`) and **the layering**
  (`Layering.LayersAreLongestRoutes`, `Layering.ForwardExactly`).

## Assumptions

- SHA-256 over canonical JSON is injective.  Where nothing else about a hash
  matters, the value hashed stands for it; the ledger takes the hash as a parameter.
- A single DuckDB statement, an SQLite transaction, `os.replace`, a move within the
  estate, an unlink, a directory creation and a ledger append each happen entirely
  or not at all.  The rows of a table rebuild are inserted one at a time.
- Reading an artifact, a probe included, does not change the estate's files.
- Vectorising and training are functions of the rows read, and so the rows stand
  for the file; what a search returns is among the stored entries.
- The estate carries a stamp that every write moves on, and the fingerprint is that
  of contents and stamp.  The program's fingerprint may be equal again after a write
  that leaves every byte as it was; the model then refuses a resume the program
  would admit, never the other way round.
- The environment may change the estate between the events of a history where a
  theorem says so; theorems about completed runs are about estates nobody else
  writes to, with the local adapters.
- An adapter call may raise after any number of its writes; a receipt append that
  raises is a crash at that point.
- Purpose lists are given split at their commas and stripped; namespace membership
  is a predicate; the catalog answers with true edges, as the in-memory one does.
- The guard's calls are serialised with clock reads that never go back.  The program
  reads the clock before it takes the lock, so this leaves out calls that overtake
  each other in between.

## Where code and documentation differ

- `app/execution.py` says a killed run can retry the interrupted action.  A run in
  which an earlier failed step is being retried while a later step is still
  interrupted has two pending rows at the next crash, and that resume is refused:
  `ResumeAdmission.InterruptionsResumable` says exactly when, and
  `Exhibits.ResumeCanBeLost` is such a run.
- `app/execution.py` says nothing is dropped from a report.  The report of a run that
  has not returned omits steps without a row, and an interrupted step has no residual
  entry, so that a run cut off inside its first step reloads as fully executed
  (`Exhibits.InterruptedReloadsAsExecuted`).  Nothing is dropped if and only if every
  step has a row and none is in progress (`Reports.ReloadedExactly`).
- A receipt reads as the account of how a step ended.  `app/execution.py` logs each step
  once, so one that failed and later succeeded keeps its first receipt
  (`Exhibits.ReceiptStaysFailed`).  The receipts of a completed attempt tell the truth if
  and only if none it started with says anything but completed
  (`Reports.CompletedReceiptsExactly`; `Reports.ReceiptsTellExactly` for any outcome),
  and one that says completed is always true (`Reports.ReceiptsOverHistory`).
- A verdict of "contained" reads as one about a finished run.  `app/api.py` computes it
  from the newest run, finished or not, and a run that never reached a planned step
  can have it (`Exhibits.ContainedBeforeCompleted`); every step is completed if and
  only if every step has a row and none is in progress
  (`Evidence.ContainedMeansCompleted`).
- `app/verification.py` probes that what a plan leaves alone is still available.  For
  an endpoint, an index or an export it looks for a warehouse table of that name, so
  that the probe fails on every estate (`Evidence.AvailabilityIsPossible`) and such a
  plan never gets beyond "residual" (`Evidence.LeftAloneUnreadable`,
  `Exhibits.LeftAloneIsResidual`).
- `web/src/LineageGraph.tsx` promises a layer beyond all predecessors.  Among listed
  nodes this holds if and only if the edges out of reached nodes have no cycle
  (`Layering.ForwardExactly`, `Layering.CycleGoesBackwards`).

## Model

| member | source | states |
|---|---|---|
| `Plan.HashIdentifiesPlan` | app/workflow.py:79-115 | two plans have the same hash if and only if they agree on everything but generation time, rationale, the single flags of a validation that is as usable as before, and the order of paths, missing-evidence entries, validations and their issues |
| `Plan.IssueOrderIsIgnored` | app/workflow.py:112-114 | two validations enter the hash alike if and only if they have the same URN, are equally usable and have the same issues in any order |
| `Plan.HashDeterminesExecution` | app/workflow.py:79-129 | plans with equal hash have the same ordered steps, enforcement scope, escalations and, for every URN, the same ancestors |
| `Plan.StepsAreTheDestructiveActions` | app/execution.py:147-174 | the steps are exactly the destructive actions of the decisions, as many of them, numbered by position and in the documented order |
| `Plan.StepsAreInOrder` | adapters/containment.py:706-731 | of any two steps the earlier has the action that goes first (freeze, quarantine, purge, rebuild, retrain, replace); with the same action, the class further upstream (dataset, transformation, feature, vector index, model, the rest); equally far, the lesser URN |
| `Rights.UrnsAreOrdered` | demo/graph.py:47-103 | URNs are ordered as the real strings they stand for |
| `Plan.BuildSteps` | app/execution.py:147-174 | the loop that collects, sorts and numbers the candidates gives these steps |
| `Plan.BuildScope` | app/workflow.py:118-129 | the loop gives the enforcement scope |
| `Plan.ScopeEntries` | app/workflow.py:118-129 | with one decision per URN the scope covers a pair exactly when a decision on that URN proposes that destructive action |
| `Plan.ScopeIsOfTheLast` | app/workflow.py:118-129 | whatever the decisions, a URN is in the scope exactly if one of them acts on it, with the destructive actions of the last that does |
| `Plan.ScopeIsTheSteps` | app/workflow.py:118-129 | with one decision per URN the scope covers exactly the pairs that become steps |
| `Approvals.ApprovalStore.Record` | app/approvals.py:106-176 | the whole outcome of recording a decision: refused, and why, for an unknown verdict, a scope outside the plan or a changed event, with nothing written; otherwise one row is added; the store stays one in which every approval is within its stored plan |
| `Approvals.ApprovalStore.RememberPlan` | app/approvals.py:178-210 | a plan is stored once under its hash, and an event id whose content changed is refused |
| `Approvals.RememberOnlyAdds` | app/approvals.py:178-210 | remembering a plan changes nothing already remembered and adds this plan under its hash and its event's contents under id and version |
| `Approvals.RecordKeepsStore` | app/approvals.py:130-141 | every approval of the new store authorizes no more than the plan stored under its hash proposes |
| `Approvals.LatestIsNewest` | app/approvals.py:212-220 | the decision in force is one of this plan hash that no later decision, and no later row of the same time, replaces |
| `Approvals.LatestIsRecorded` | app/approvals.py:212-220 | the decision in force was recorded for this plan hash |
| `Approvals.GateAuthorizesWithinPlan` | app/approvals.py:239-273 | whatever the gate lets through covers only pairs the plan itself proposes |
| `Approvals.GateAnswers` | app/approvals.py:239-273 | the whole answer: the newest decision on exactly this plan if it approves, refused if it does not; with none, drift if any plan of the event was decided on, else approval required |
| `Estate.InterruptedActionConverges` | adapters/containment.py:263-513 | cut off after any of its writes, any action that would have completed completes when done again from there, in the same estate |
| `Estate.CompletedActionIsIdempotent` | adapters/containment.py:15-19 | a completed action done again completes, reports no change and leaves the estate as it is |
| `Estate.RebuildConverges` | demo/estate.py:337-360 | a table rebuild cut off at any row converges when repeated |
| `Estate.RetrainConverges` | demo/estate.py:543-569 | a retraining cut off between its files converges when repeated |
| `Estate.ReplaceConverges` | demo/estate.py:572-583 | activating the candidate twice is activating it once |
| `Estate.IndexConverges` | adapters/containment.py:263-332 | an index purge or rebuild cut off between vectors and manifest converges when repeated |
| `Estate.RebuildStates` | demo/estate.py:337-360 | during a table rebuild the estate is the old one with a prefix of the new rows, or the finished one |
| `Estate.RetrainStates` | demo/estate.py:499-569 | during a retraining only the new version differs, and what it holds is from before or from this training |
| `Products.CallsAreAnswered` | adapters/containment.py:631-691 | how every call is answered, per artifact and action: failed, unsupported, or succeeded exactly if what it needs is there; a call that does not succeed writes nothing |
| `Products.FreezeLeaves` | adapters/containment.py:205-250 | the endpoint is blocked, everything else as before, and a change is reported exactly if it was not blocked |
| `Products.IndexPurgeLeaves` | adapters/containment.py:263-300 | no vectors, a manifest that says purged, everything else as before |
| `Products.TablePurgeLeaves` | demo/estate.py:383-399 | the one table is empty, everything else as before |
| `Products.ReplaceLeaves` | adapters/containment.py:496-534 | the retrained version is served, everything else as before |
| `Products.QuarantineMoves` | adapters/containment.py:403-424 | the published rows are the quarantined rows, then the note; everything else as before |
| `Products.QuarantineAgain` | adapters/containment.py:375-401 | repeated or resumed, the quarantined copy stays and the note is seen to |
| `Products.WritesKeepTheExport` | adapters/containment.py:403-408 | no write of any action loses the one copy of the export, doubles it, changes a row or publishes it again, and only a quarantine touches it |
| `Products.ExportIsConserved` | adapters/containment.py:349-424 | so it is in every durable state of every history with these adapters |
| `Products.RebuildLeaves` | demo/estate.py:337-381 | the normalized table holds exactly the reviews of the approved feed, texts normalised, labels and ratings kept, in order of identifier; the features are its texts and labels; everything else as before |
| `Products.IndexRebuildLeaves` | demo/estate.py:433-477 | the index holds the normalized rows, entry by entry, with a manifest that lists them |
| `Products.RetrainLeaves` | demo/estate.py:499-569 | the new version is fitted on the texts and labels of the approved feed, row by row, with a manifest that says so; what is served and every other version stay |
| `Products.IndexWrites` | adapters/containment.py:263-332 | the order of the writes: vectors before manifest, both ways |
| `Products.SingleWrites` | adapters/containment.py:205-250 | freezing, emptying a table and activating a version are one write each |
| `Products.RebuildWritesInOrder` | demo/estate.py:337-360 | the table is emptied, filled row by row in the final order, and the features replaced last |
| `Products.RetrainWritesInOrder` | demo/estate.py:540-569 | directory if there is none, then model, then manifest |
| `Products.BuiltHolds` | demo/estate.py:671-740 | what an estate as built holds: the partner corpus in everything derived from it, the export, index and manifests those of the derived rows |
| `Products.BuiltModels` | demo/estate.py:671-740 | the two models as built, each fitted on its own features |
| `Adapters.LocalEstate.Spend` | adapters/containment.py:159-161 | one write is accounted for, or fails when the budget is spent |
| `Adapters.Freeze` | adapters/containment.py:212-237 | updating the serving map in place goes through the states the specification gives |
| `Adapters.PurgeIndex` | adapters/containment.py:263-300 | vectors unlinked before the manifest is rewritten, state by state |
| `Adapters.RebuildIndex` | adapters/containment.py:302-332 | refused for an unusable replacement or foreign rows; otherwise vectors, then manifest |
| `Adapters.QuarantineExport` | adapters/containment.py:349-424 | the loop-free body goes through the states of the specification: moved, then noted; the interrupted and the already quarantined case; refused when both copies exist or neither |
| `Adapters.RetrainModel` | adapters/containment.py:452-494 | directory, model, manifest, in that order, the active version untouched |
| `Adapters.ReplaceModel` | adapters/containment.py:496-534 | activates the candidate only if it cites the replacement and matches its recorded hash |
| `Adapters.PurgeTable` | demo/estate.py:383-399 | empties a table that may be purged, refuses any other |
| `Adapters.FillNormalized` | demo/estate.py:337-352 | the table is replaced by an empty one and filled row by row |
| `Adapters.RebuildTables` | adapters/containment.py:590-603 | both derived tables are rebuilt from the replacement, through every intermediate state |
| `Adapters.ExecuteAction` | adapters/containment.py:663-691 | namespace, record, adapter, in that order; the same states, status and change flag as the specification |
| `Adapters.CallAdapter` | adapters/containment.py:159-162 | a call that raises after some of its writes leaves those writes and reports failure |
| `Executor.RunState.constructor` | app/execution.py:180-184 | a new run has an empty journal |
| `Executor.RunState.RecordIntent` | app/execution.py:229-247 | the row becomes in-progress and nothing else changes |
| `Executor.RunState.Record` | app/execution.py:249-272 | outcome and estate fingerprint change together |
| `Executor.RunState.AppendReceipt` | app/execution.py:672-696 | a receipt is appended only if the step has none |
| `Executor.RunState.ConcludeStep` | app/execution.py:488-490 | recorded, then logged |
| `Executor.RunState.IsHeldBack` | app/execution.py:463-474 | the scan over earlier outcomes gives the specification's gate, which Dependencies.StepsEndAsTheyShould states |
| `Dependencies.StepsEndAsTheyShould` | app/execution.py:451-545 | how every step of a returned attempt ends: as already completed; failed without a call exactly if it is a rebuild, retrain or replace and an earlier step on its own URN or strictly inside a path of its decision did not succeed; not approved without a call; or called, with the outcome the call had |
| `Dependencies.CalledExactly` | app/execution.py:463-490 | an approved step not completed before is called if and only if nothing it is made from failed |
| `Replacement.ModelIsReplaced` | adapters/containment.py:706-731 | from an estate as built with a feed to train on and a usable replacement, a first attempt with no call raising, at any plan that retrains and replaces a model, completes both, unless something else on the model or inside a path to it did not succeed |
| `Executor.RunState.RunAdapter` | app/execution.py:487-490 | intent, call, writes, outcome: the states of one performed step |
| `Executor.RunState.DoStep` | app/execution.py:463-490 | held back, outside the scope, or performed |
| `Executor.RunState.TakeStep` | app/execution.py:451-492 | a completed step is reported and not run |
| `Executor.RunState.OpenRun` | app/execution.py:186-220 | a run is opened once; a resume is refused for another plan, another approval or an unexplained estate |
| `Executor.RunState.ResumeRun` | app/execution.py:436-495 | the checks on interrupted rows, then the loop |
| `Executor.RunState.RunSteps` | app/execution.py:451-494 | the loop goes through exactly the durable states the specification gives, and ends as it says |
| `Executor.RunState.ExecutePlan` | app/execution.py:387-505 | a whole attempt goes through exactly the durable states of the specification, with the same result |
| `JournalSafety.CompletedStaysCompleted` | app/execution.py:451-462 | over every history of attempts, failures, crashes, resumes and outside changes, a completed row never changes again and no adapter is called for it again |
| `JournalSafety.HistoryKeeps` | app/execution.py:451-492 | from each durable state of a history to the next: completed rows kept, calls and receipts only appended |
| `JournalSafety.EveryCrashHappens` | app/execution.py:410-505 | a history can stop an attempt at any of its durable states, or let it end |
| `JournalSafety.StepTouchesOwnRow` | app/execution.py:229-272 | a step writes no journal row but its own |
| `JournalState.DependentsFollowPredecessors` | app/execution.py:463-487 | over every history, a completed rebuild, retrain or replace has every earlier step on its own URN or on an intermediate ancestor completed, and rows match the plan |
| `JournalState.HistoryKeepsJournal` | app/execution.py:436-492 | the same as an invariant of all durable states, for every plan at once |
| `JournalState.LoopJournal` | app/execution.py:451-492 | the loop leaves every durable state matching the plan, and when it returns the rows record exactly the outcomes it reports |
| `JournalState.NoRowEverMismatches` | app/execution.py:436-460 | after any history, no attempt on any plan is refused for a row that does not match its step, neither in the check on interrupted rows nor in the loop |
| `JournalState.RunFixesPlan` | app/execution.py:195-220 | every state of an attempt belongs to the run of its plan and approval |
| `Refusals.AttemptsAreAnswered` | app/execution.py:195-460 | every way an attempt is turned away, in order, told from approval, decisions, run and rows; otherwise it returns |
| `Refusals.GateIsExact` | app/execution.py:410-434 | the refusals before the run is looked at |
| `Refusals.FinishedIsReturned` | app/execution.py:494-505 | a run is marked finished by an attempt that returns, at its very end, and by no other |
| `ResumeAdmission.AdmissionCondition` | app/execution.py:195-213 | on its own run an attempt is admitted exactly when at most one row is pending and, if none is, the estate is as last recorded; an admitted attempt always reaches its report |
| `ResumeAdmission.AdmissionOverHistory` | app/execution.py:195-213 | the same after every history of attempts at the plan under the approval, from an unused run id, with changes to the estate in between; and there too the interruptions of an admitted attempt can all be resumed if and only if no pending row has an unfinished step before it |
| `ResumeAdmission.AttemptPendingBound` | app/execution.py:438-450 | an admitted attempt starts with at most one pending row, never has more than two, and returns with none |
| `ResumeAdmission.InterruptionsResumable` | app/execution.py:438-450 | every interruption of an attempt is resumable if and only if no pending row has an unfinished step before it |
| `ResumeAdmission.EarlierUnfinishedBlocksResume` | app/execution.py:438-441 | whenever a pending row has an unfinished step before it, there is a write of the attempt after which the resume is refused |
| `Exhibits.ResumeCanBeLost` | app/execution.py:438-441 | such a state is reached from an unused run id: the first step fails, the process dies in the second, the admitted resume dies retrying the first, and no further resume is admitted |
| `ResumeAdmission.FirstInterruptionResumes` | app/execution.py:186-220 | a run's first interruption, at any write and under any faults, can be resumed and the resume reaches its report |
| `ResumeAdmission.DriftEndsTheRun` | app/execution.py:200-213 | with nothing pending and a changed estate, no sequence of attempts, of whatever plan or approval, ever writes again |
| `ResumeAdmission.DriftCannotBeResumed` | app/execution.py:200-213 | after any history that left nothing pending, a write by anyone else to the estate ends the run for good |
| `CrashConvergence.CrashesConverge` | app/execution.py:438-494 | if an uninterrupted attempt completes every step, then after any finite sequence of attempts at the same work, cut short at any writes and with whatever decision stores and ledgers, the next attempt that passes the gate is accepted, completes every step, and ends in the same estate and the same completed journal |
| `CrashConvergence.LocalRunsConverge` | adapters/containment.py:631-691 | the same for the default registry, with no assumption left about the adapters but that none raises |
| `CrashConvergence.AttemptStaysOnTrack` | app/execution.py:438-494 | every durable state of an attempt that was on the way to the uninterrupted result is still on the way |
| `CrashConvergence.DefaultRegistryIsRepeatable` | adapters/containment.py:631-691 | every adapter of the default registry can be cut off between any two writes and repeated |
| `Reports.ResidualExposure` | app/execution.py:609-669 | the loops give the sorted residual list |
| `Reports.ResidualAccounts` | app/execution.py:609-669 | for every list of outcomes: one entry for each step that neither completed nor is under way, one for each escalation and no others; fully executed exactly when no step stopped and nothing escalated |
| `Reports.ResidualIsExact` | app/execution.py:609-669 | each entry read off an outcome (failed, unsupported, not approved) or an escalated decision, in order of URN and, for one URN, of reason |
| `Reports.ReportRoundTrip` | app/execution.py:559-606 | a returned report has one concluded outcome per planned step, in order, and loading it from the journal gives the same steps, statuses, change flags and residual list |
| `Reports.ReloadedExactly` | app/execution.py:559-606 | for every stored run: the reloaded report has one outcome per planned step exactly when every step has a row, only concluded ones exactly when no row is in progress, and its residual list counts every uncompleted step exactly when both hold |
| `Reports.ReloadsAsExecuted` | app/execution.py:621-669 | for every stored run: it reloads as fully executed exactly when no row has stopped short and nothing escalated |
| `Exhibits.InterruptedReloadsAsExecuted` | app/execution.py:559-606 | a run cut off inside its first step, of any plan that escalates nothing, reloads as fully executed |
| `Reports.ReceiptsOverHistory` | app/execution.py:672-696 | in no durable state of any history does a step have two receipts, and a receipt that says completed agrees with the journal in every one of them; an attempt that returns with a ledger leaves each step exactly one receipt, the line of the reported outcome or the one the step already had |
| `Reports.ReceiptsAreExact` | app/execution.py:672-696 | when an attempt returns, the receipts of each step are those it started with, if it had any or no ledger is used, and otherwise the one line of the outcome reported |
| `Reports.ReceiptsTellExactly` | app/execution.py:672-680 | the receipts of a step tell how a returned attempt ended it if and only if those the attempt started with did |
| `Reports.CompletedReceiptsExactly` | app/execution.py:672-680 | an attempt that completes every step leaves only receipts that say completed if and only if none it started with says anything else |
| `Exhibits.ReceiptStaysFailed` | app/execution.py:672-680 | from an unused run id, with a ledger: the only step fails, a resume completes it, and its one receipt still says failed |
| `Authorization.AttemptCallsAreAuthorized` | app/execution.py:410-434 | each call of an attempt lies in the scope of the approval that was the newest decision, and an approval, for exactly its plan hash, and in the plan's own enforcement scope |
| `Authorization.EveryCallIsAuthorized` | app/execution.py:410-434 | over every history with decisions, crashes, resumes and outside changes interleaved: every call ever made was made during one of its attempts, and authorized by the approval of that very attempt |
| `Provenance.WritesKeepSound` | adapters/containment.py:496-603 | every write of every adapter keeps the provenance invariant: rows, vectors and manifests labelled with the approved feed hold only its rows, retrained versions only what training on it gives, and feeds, approved features and volume report are as built |
| `Provenance.BuiltIsSound` | demo/estate.py:671-740 | an estate as built satisfies the invariant |
| `Provenance.RebuildWrites` | demo/estate.py:337-360 | at every write of a rebuild the normalized table holds only rows of the approved feed |
| `Verification.RunProbes` | app/verification.py:389-443 | probing decision by decision gives the specified report, whose meaning Probing.ReportIsTrue states |
| `Verification.ReportMembers` | app/verification.py:389-443 | the report holds the probes of the decisions and the approved model's, and nothing else |
| `Verification.EveryDecisionIsProbed` | app/verification.py:398-435 | every destructive decision that did not escalate has its own containment probe, and the approved model is always probed |
| `Probing.PassesExactly` | app/verification.py:157-376 | each probe passes exactly if the artifact is contained, or working, written out over its rows, entries, files and states |
| `Probing.ReportIsTrue` | app/verification.py:389-443 | the report holds exactly the probes the decisions call for, each telling the truth, containment probes first, then by URN; coverage is complete unless something escalated |
| `Probing.NothingBuiltIsContained` | app/verification.py:157-325 | on an estate as built with a partner row, normalized table, features, index, endpoint, export and model are all not contained |
| `Probing.BuiltEstateFailsProbes` | app/verification.py:157-325 | so a plan to contain any of them is told that it is not |
| `Containment.WritesKeepGoals` | adapters/containment.py:205-603 | no write of any adapter undoes what a completed action achieved |
| `Containment.HistoryKeepsAchieved` | app/execution.py:451-492 | over every history each durable state has achieved what its journal shows as completed |
| `Containment.CompletedImpliesVerified` | app/verification.py:157-325 | from an estate as built, over every history: once every step is completed, all containment probes pass if and only if the plan, where it contains the revoked model, also replaces what it serves |
| `Probing.CompletedIsContained` | app/verification.py:157-325 | in those terms: once every step is completed, whatever the plan set out to contain and did not escalate is contained, if it replaces the revoked model wherever it contains it |
| `Exhibits.RetrainOnlyFails` | app/verification.py:157-325 | the condition can fail: on any estate as built whose approved feed has two labels, any plan that only retrains the revoked model completes every step and fails its probe |
| `Exhibits.RetrainOnlyRetrains` | app/verification.py:157-325 | such a plan: one decision on the revoked model, to retrain it |
| `Exhibits.SomeEstateIsStocked` | demo/estate.py:521-535 | such an estate: an approved feed of two rows with different labels, on which the classifier can be trained |
| `Containment.UnaffectedStayAvailable` | app/verification.py:331-376 | in no durable state of any history has the approved model, a feed or the volume report become unavailable |
| `Containment.LeftWorkingExactly` | app/verification.py:331-376 | once every step is completed, an artifact passes its availability check if and only if it is the approved model, a version the plan replaces, a table the plan does not leave empty, or a report that had rows |
| `Evidence.CollectResidual` | app/evidence.py:73-95 | the loop over a set of seen keys gives the deduplicated, sorted list |
| `Evidence.ResidualIsTheUnion` | app/evidence.py:73-95 | the list names exactly the (urn, reason, action) keys either side reported, each once |
| `Evidence.ResidualIsInOrder` | app/evidence.py:88-95 | in order of URN and, for one URN, of reason |
| `Evidence.VerdictIsExact` | app/evidence.py:97-112 | for any outcomes and residual list: "contained" exactly when nothing is residual, no outcome failed, every probe passed and nothing escalated; "escalated" exactly when escalations are all that is left and every probe passed |
| `Evidence.ReportVerdict` | app/evidence.py:97-112 | with the residual list the executor derives, over any outcomes, under way ones included: "residual" if a step stopped or a probe failed, else "escalated" if the plan escalates, else "contained" |
| `Evidence.StoredVerdict` | app/api.py:585-615 | the verdict on any stored run, returned or interrupted: it depends on the rows that stopped, the probes and the escalations, and on nothing else |
| `Evidence.ContainedMeansCompleted` | app/api.py:585-615 | a stored run with verdict "contained" has every planned step completed if and only if every step has a row and none is in progress |
| `Exhibits.ContainedBeforeCompleted` | app/api.py:585-615 | and it may not have: on any estate as built, the index is purged, the process dies before the rebuild has a row, and the verdict is "contained" |
| `Evidence.ContainedIsSound` | app/evidence.py:97-112 | for any bundle probed by its own plan, "contained" implies no escalation, a passing containment probe for every destructive decision and an empty residual |
| `Evidence.ListedIsConfirmed` | app/evidence.py:114-121 | for any bundle probed by its own plan, a URN is listed as contained exactly when a decision to contain it was probed and its record's probe passed |
| `Evidence.ListedIsContained` | app/evidence.py:114-121 | listed are exactly the local artifacts the plan set out to contain, did not escalate, and that are contained, rows, entries, files and states considered |
| `Evidence.ListedInOrder` | app/evidence.py:114-121 | the list is in order of URN |
| `Evidence.AvailabilityIsPossible` | app/verification.py:331-376 | the availability check can pass, on some estate, exactly for a model, a table or the report; for an endpoint, an index or an export it never does |
| `Evidence.LeftAloneUnreadable` | app/verification.py:427-435 | a plan that leaves one of those, or an artifact without a local record, alone has the verdict "residual" on every stored run |
| `Evidence.PrecisionExactly` | app/verification.py:427-443 | once every step is completed, the availability probes pass if and only if everything the plan leaves alone is left working |
| `Evidence.CompletedRunVerdict` | app/evidence.py:97-112 | end to end: over every history from an estate as built, a run with every step completed gets "contained", or "escalated" if the plan escalates, if and only if the plan replaces the revoked model wherever it contains it and leaves working what it leaves alone; otherwise "residual" |
| `Evidence.VerdictIsKnownBefore` | app/evidence.py:97-112 | with one decision per URN that condition is one on the plan and the estate as built, known before the run |
| `Exhibits.LeftAloneIsResidual` | app/verification.py:353-357 | a plan that only leaves the index alone: its run completes, the estate is as it was, and the verdict is "residual" |
| `Catalog.FakeCatalog.AddEdge` | adapters/fake_datahub.py:206-212 | a second edge between the same nodes is ignored; otherwise the edge is added and nothing else |
| `Catalog.FakeCatalog.GetDownstreamLineage` | adapters/fake_datahub.py:75-93 | for any graph, cycles included, exactly the out-edges of the nodes less than max_depth edges away, each once |
| `Discovery.Distances` | app/context.py:176-182 | the queue loop finds exactly the reachable nodes, each with its least number of edges from the source |
| `Discovery.DiscoverEdges` | app/context.py:163-195 | terminates; raises if and only if the reachable graph exceeds 256 nodes or 1024 edges; otherwise returns exactly the edges that leave a reachable node, each once |
| `Paths.PathSearch.WalkFrom` | app/context.py:138-155 | the recursive search with its counters is the bounded search |
| `Paths.FindPaths` | app/context.py:121-160 | runs the search and marks every path incomplete if it was cut short |
| `Paths.WalkRefines` | app/context.py:138-155 | the bounded search, from any point of any search, adds only paths of the unlimited one, and all of them, in order, unless it is cut short; with no more nodes than the depth bound it is cut short exactly when visits or paths run out |
| `Paths.BuildPathsIsSound` | app/context.py:121-160 | every returned hop sequence is a simple source-to-target path, complete only if all its edges are resolved and no bound was hit |
| `Paths.BuildPathsIsComplete` | app/context.py:121-160 | unless a bound was hit, the returned paths are exactly the simple paths, each complete if and only if all its edges are resolved |
| `Paths.TruncatedExactly` | app/context.py:134-143 | on a graph discovery can return, the search is cut short if and only if it needs more than 10000 visits, there are more than 128 paths, or there are exactly 128 and it visits another node after the last of them |
| `Paths.PathsAreBounded` | app/context.py:121-160 | on any graph at most 128 paths are returned, none of more than 256 edges |
| `Paths.CompleteLineageHasNoGap` | app/rights.py:239-242 | complete lineage means that no simple path, found or not, contains an unresolved edge |
| `LineageContext.PurposeIssuesExactly` | app/context.py:102-109 | no issue exactly when something is declared and all of it is known purposes |
| `LineageContext.ValidationMeans` | app/context.py:46-76 | each flag of a validation, whether it is usable and whether it has issues, read off the catalog entry |
| `LineageContext.ClearMeans` | app/context.py:46-109 | a clear node is active, in the namespace, tagged, and declares at least one purpose and nothing else |
| `LineageContext.IssuesExactly` | app/context.py:48-76 | a node has no issue exactly when it is usable and its purposes are well formed |
| `LineageContext.EvidenceExactly` | app/context.py:257-276 | the missing-evidence list is empty exactly when the descendant and every intermediate hop of its paths is usable with well-formed purposes |
| `LineageContext.EvidenceMeans` | app/context.py:257-276 | the evidence list names exactly the artifact's own issues and, by name, those of the nodes inside its paths |
| `LineageContext.DescendantMeans` | app/context.py:236-276 | class, exposure, criticality, purposes, rebuildability and contamination of a descendant, read off the catalog entries; evidence without repetition, in order |
| `LineageContext.CollectTargets` | app/context.py:219-222 | the loop gives the downstream ends, each once, without the source |
| `LineageContext.CollectPathIssues` | app/context.py:259-261 | the nested loops give every intermediate hop's issues |
| `LineageContext.DiscoverDescendants` | app/context.py:198-280 | fails exactly when the graph is too large; otherwise describes and validates every target of the closed graph, sorted by URN |
| `LineageContext.DescendantsMean` | app/context.py:198-280 | one description for each downstream end but the source, in order of URN |
| `AllClear.AllClearExactly` | app/context.py:283-305 | a descendant is reported clear if and only if its path enumeration was not cut short, it has a path, and on every simple path the catalog holds every edge is resolved and every hop after the source is usable with well-formed purposes disjoint from the lost ones |
| `AllClear.BlamelessMeans` | app/context.py:283-305 | what such a node is, read off its entry: active, ours, tagged, declaring purposes only, none of them lost |
| `AllClear.NoActionIsEarned` | app/policy.py:244-262 | a decision of no_action, by a table that reserves it for clear descendants, carries that guarantee |
| `AllClear.PlanAllClearIsEarned` | app/workflow.py:70-77 | a plan reported as all clear, by a cautious table whose every rule acts, has only clean simple paths from the source, to whatever they lead |
| `AllClear.ShippedPlanAllClear` | app/rights.py:164-169 | the same with the shipped rules, for the purposes one rights event took away |
| `Policy.ShippedRulesAreCautious` | policy/rules.yaml:26-82 | the shipped table reserves no_action for clear, fully evidenced descendants |
| `AllClear.AncestorsAreBlameless` | app/policy.py:179-204 | on an acyclic graph the guarantee reaches every ancestor reachable from the source |
| `AllClear.VouchesExactly` | app/context.py:145-147 | on any graph, for a descendant with a path, whose paths are all found and resolved, and as long as some purpose is not lost: being reported clear guarantees that a node is usable with purposes not lost if and only if some simple path visits the node |
| `AllClear.AncestorsAreVouchedFor` | app/context.py:145-147 | on an acyclic graph these nodes are exactly the ancestors reachable from the source |
| `AllClear.CyclicAncestorIsMissed` | app/context.py:145-147 | with a cycle they are not: a descendant reported clear whose reachable ancestor declares the lost purpose |
| `Policy.RunEvaluate` | app/policy.py:219-266 | the loop over the rules gives the specified decision or error, whose meaning Policy.TableDecides states |
| `Policy.LoadedTableDecides` | app/policy.py:147-169 | a table that loads never falls through: it picks the rule of least precedence among all that match |
| `Policy.TableDecides` | app/policy.py:207-262 | any table that loads decides by the rule of least precedence all of whose seven conditions hold of the descendant, and by none of which one does not; every field of the decision; an error only for a priority out of range |
| `Policy.TableLoads` | app/policy.py:147-169 | which tables load, and that their rules are kept, by precedence |
| `Policy.RejectionsAreExplained` | app/policy.py:115-160 | why a table is rejected |
| `Policy.ShippedTableDecides` | policy/rules.yaml:22-202 | for every descendant the rule of the shipped table that decides and its actions, by class and by whether it can be replaced; approval required for all but no action; the priority |
| `Policy.ShippedPrioritiesFit` | policy/rules.yaml:203-216 | the shipped weights add up to between 15 and 100 |
| `Policy.FileOrderIsIgnored` | app/policy.py:147-169 | the order of the rules in the file does not matter, neither to the table it gives nor to the reason it is rejected |
| `Policy.EvaluatedMembers` | app/policy.py:269-282 | the plan has a decision for each descendant, and no other |
| `Policy.PlanIsInOrder` | app/policy.py:269-282 | a plan is made exactly if every descendant can be decided, with one decision each, the most urgent first, equally urgent ones by URN |
| `Policy.ShippedRulesLoad` | policy/rules.yaml:22-202 | the shipped table passes the loader's checks and is already in order of precedence |
| `Policy.ShippedRulesAreExact` | policy/rules.yaml:26-82 | the shipped table says no_action exactly on a classified, unaffected descendant with complete lineage and evidence, and escalates exactly when lineage, evidence or class is missing |
| `Guard.DemoMutationGuard.constructor` | app/demo_guard.py:42-56 | starts empty and idle |
| `Guard.DemoMutationGuard.PruneSamples` | app/demo_guard.py:58-62 | drops exactly the leading samples at or before the cutoff |
| `Guard.DemoMutationGuard.PruneExpired` | app/demo_guard.py:70-77 | drops exactly the expired confirmations |
| `Guard.DemoMutationGuard.PruneClientBuckets` | app/demo_guard.py:79-86 | prunes every bucket and removes the empty ones |
| `Guard.DemoMutationGuard.IssueConfirmation` | app/demo_guard.py:88-113 | new state and outcome, also when refused |
| `Guard.DemoMutationGuard.BeginPublic` | app/demo_guard.py:115-170 | new state and outcome for every branch: confirmation, busy, cooldown, client and global limit, admission |
| `Guard.DemoMutationGuard.BeginTrusted` | app/demo_guard.py:172-177 | takes the slot if it is free |
| `Guard.DemoMutationGuard.ReadPlan` | app/demo_guard.py:179-188 | new state and outcome of a plan read |
| `Guard.DemoMutationGuard.Release` | app/demo_guard.py:190-195 | frees the slot and remembers when |
| `GuardSafety.WindowsNeverOverflow` | app/demo_guard.py:58-62 | over every run and for every time t: at most the client limit, the global limit and the read limit of admissions in the window ending at t |
| `GuardSafety.DefaultWindows` | app/demo_guard.py:115-125 | with the default limits: in any ten minutes 20 mutations per client and 80 in all, in any minute 120 plan reads |
| `GuardSafety.DefaultAnswers` | app/demo_guard.py:115-188 | with the default limits, exactly when a mutation and a plan read are admitted: twenty and eighty in ten minutes, a second apart, a hundred and twenty in a minute |
| `GuardSafety.DefaultConfirmations` | app/demo_guard.py:88-113 | with the default limits: two minutes, twenty for a client and two hundred in all; others stay |
| `GuardSafety.BeginLeaves` | app/demo_guard.py:115-170 | what every end of an attempt leaves: an unconfirmed token is gone, a refused one stays, an admitted one is spent, the slot taken and the time counted |
| `GuardSafety.PruneMeans` | app/demo_guard.py:58-62 | pruning keeps exactly what lies in the window |
| `GuardSafety.WaitsAreASecondOrMore` | app/demo_guard.py:20-25 | no refusal announces less than a second |
| `GuardSafety.OneMutationAtATime` | app/demo_guard.py:140-145 | between any two public mutations lies a finish with the cooldown after it, and while one is under way nothing else is admitted |
| `GuardSafety.TokensAreSpentOnce` | app/demo_guard.py:129-139 | a token admits at most as many mutations as it was issued for, each for its own client and operation before expiry; pending confirmations stay within both limits |
| `GuardSafety.RetryAfterSuffices` | app/demo_guard.py:142-165 | after any run, whichever of the cooldown, client and global checks refused a call made at any later time, that check passes once the announced seconds are over |
| `GuardSafety.RetryIsAdmitted` | app/demo_guard.py:115-170 | after any run, a mutation refused by the only one of these checks that failed is admitted after the announced seconds if and only if its confirmation has not expired by then |
| `GuardSafety.ReadRetrySuffices` | app/demo_guard.py:179-188 | after any run, a plan read refused at any later time is admitted once the announced seconds are over |
| `GuardSafety.BucketRetryExact` | app/demo_guard.py:64-68 | a full bucket has room after the announced seconds and not a second earlier |
| `GuardSafety.CooldownRetryExact` | app/demo_guard.py:142-145 | the cooldown passes after the announced seconds and not a second earlier |
| `GuardSafety.IssueRetrySuffices` | app/demo_guard.py:99-106 | after any run, a confirmation request refused at any later time succeeds once the announced seconds are over |
| `Ledger.ReceiptLedger.VerifyLocked` | app/receipts.py:156-174 | the loop gives the check's result, break by break |
| `Ledger.ReceiptLedger.LastEntry` | app/receipts.py:176-180 | the last entry of the file, if any |
| `Ledger.ReceiptLedger.Append` | app/receipts.py:111-131 | refused, with nothing written, exactly when the ledger does not verify; otherwise one entry is added and the longer ledger verifies |
| `Ledger.VerifiesExactly` | app/receipts.py:143-174 | the ledger verifies exactly when every line is readable and the entries are numbered from one, linked and hashed |
| `Ledger.FirstBreakIsReported` | app/receipts.py:143-174 | a ledger that does not verify is reported for the first line that does not continue what is before it, and for what is wrong with it |
| `Ledger.PrefixVerifies` | app/receipts.py:143-149 | every prefix of a verifying ledger verifies |
| `Ledger.TipFixesLedger` | app/receipts.py:183-186 | two verifying ledgers have the same tip hash if and only if they hold the same entries in the same order |
| `Ledger.TamperingIsDetected` | app/receipts.py:143-149 | any edit, removal, insertion or reorder that leaves the tip as it was fails verification |
| `Lock.AtMostOneInside` | app/locking.py:16-50 | in every interleaving of threads and processes, crashes included, at most one thread is inside the section |
| `Lock.ReentryIsFree` | app/locking.py:21-25 | the holder re-enters without waiting and without touching the system lock, and leaving the inner section releases nothing early |
| `Lock.HolderCanMove` | app/locking.py:27-50 | whoever holds the system lock can take its next step |
| `Lock.FreeThreadGetsIn` | app/locking.py:16-40 | a thread that finds nobody in the way gets in and has both locks |
| `Lock.LastLeaverFreesAll` | app/locking.py:40-50 | the last to leave gives both locks back |
| `Lock.HolderAppends` | app/receipts.py:105-131 | an append by a thread inside adds the next entry of the chain, with the content asked for, and comes back with it |
| `Lock.AppendsFormOneChain` | app/receipts.py:105-131 | in every interleaving, crashes included, the ledger is one verifying chain, and every append that returned to its thread is in it exactly once, with the content asked for, no two being the same entry |
| `Layering.LayerNodes` | web/src/LineageGraph.tsx:53-76 | the in-place passes give the specified layers |
| `Layering.RelaxPass` | web/src/LineageGraph.tsx:60-66 | one pass over the edges, in place |
| `Layering.LayersAreLongestRoutes` | web/src/LineageGraph.tsx:46-76 | among listed nodes, a node not reached gets layer 1; unless the reached part has a cycle, a reached one gets the length of its longest route from the source |
| `Layering.ForwardExactly` | web/src/LineageGraph.tsx:46-52 | every edge out of a reached node goes to a strictly later layer if and only if the edges out of reached nodes have no cycle |
| `Layering.CycleGoesBackwards` | web/src/LineageGraph.tsx:46-52 | three nodes, two of them in a cycle: one of the edges does not go to a later layer |
| `Layering.CycleLayers` | web/src/LineageGraph.tsx:53-66 | with one pass more than there are nodes its two nodes end in layers 9 and 8 |

## Left out

- DataHub itself: emission, the MCP transport and its payload parsers, tag writeback and the recording of revocations.  The live client reports every descendant as an edge from the source (adapters/datahub.py), so closure of discovery is claimed for an edge-returning catalog only.
- HTTP routes, command line, rendering, configuration and readiness.
- `build_impact_plan` beyond discovery and evaluation: the check of the replacement's own grant, the hashes of context and replacement (opaque strings of the plan here) and the ledger entry it writes.
- Seeding and resetting the estate; the model starts from the estate as built.
- Redaction of receipts, timestamps, details, error texts, rationale texts and the text of evidence, which no decision reads.
- Parsing of the rule file: rules arrive typed; what remains of the loader are its checks on the whole table.
- Windows file locking; the lock protocol is one exclusive system lock for one path.
- Numerics of TF-IDF and logistic regression, and with them the failure of training on texts that hold no term at all; that training needs two labels is modelled.
- `StepOutcome` evidence and the purged-row counts of receipts.
- Rights.UrnOrder: local URNs are ordered as their real strings (Rights.UrnsAreOrdered), and other URNs come after them; nothing proved depends on where other URNs sort.
- Policy.ShippedRules: descriptions and the evidence texts of single rules are left out.
- CrashConvergence.CrashesConverge: the rows' "changed" flags are left out of the comparison, since a repeated action reports what it changed itself.
- Evidence.CompletedRunVerdict: for a plan with several decisions on one table, one of which purges it while another step refills it, the order of completion decides whether the table ends filled, and the condition reads the final estate there; Evidence.VerdictIsKnownBefore covers plans with one decision per URN, which are those the planner makes.
- Containment.CompletedImpliesVerified: stated for one run on its estate; other runs writing to the same estate in between are not part of the model.
- Lock.HolderCanMove: says that the holder is never stuck, not that a waiting thread is eventually served, which the program does not promise.
- GuardSafety.TokensAreSpentOnce: counts issues of a token, because the token factory is not assumed to be free of repetitions.
