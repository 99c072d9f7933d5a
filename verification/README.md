# Proofs about the complaint-intake engine

A Dafny model of the engine's transactional protocols, its budgeted question machine and its algorithms,
with proofs for all inputs and all runs. Each module follows one component:

- `Clustering`, `QualifierDedup`, `QualifierInputs`, `QualifierPromotion`, `QualifierHarness`: the union-find
  clusterer, and the greedy qualifier dedup with its similarity and its harness from the cases to the duplicate
  check.
- `Pipeline`, `PipelineLaws`, `PipelineFailures`, `PipelineChains`, `PipelineCases`, `PipelineRuns`,
  `PipelineTexts`, `PipelineSteps`, `ModelSwap`: the durable case pipeline as a step system from ingest to
  dispatch; what every run keeps; retries, stamps and crashes; what becomes of the very jobs that a stage queues;
  what it makes of one case; runs that show what it does not promise; the one text of each document; what each
  step writes; and what a change of model normalises afresh.
- `Worker`, `Elicitation`: the worker's lock and reaper, and the elicitation policy with its two ledgers.
- `Intake`, `IntakeSession`, `IntakeLaws`, `IntakeSplit`, `IntakeBatch`, `IntakeSteps`: ingest and conversation
  windowing; the tables and loops, what repeats change, the split of a sender's timeline and of a batch, and what
  one message does.
- `WhatsAppTime`, `WhatsAppHeader`, `WhatsAppGrammar`, `WhatsAppExport`, `WhatsAppLines`, `WhatsAppMarkers`,
  `WhatsAppStamp`, `WhatsAppRoundTrip`, `WhatsAppFirstLine`, `WhatsAppPrinter`: the chat-export parser from
  timestamps, the header pattern, senders and markers up to the round trip of messages, and which messages
  survive it.
- `Calibration`, `Erasure`, `RateLimit`, `Provenance`, `Tokens`, `TokenForms`: fitting, tenant erasure, the
  sliding-window limiters, citations and their display, signed case tokens and their encodings.
- `FieldNames`, `Extractor`, `ExtractorItems`, `ExtractorGrounding`, `ExtractorFacts`: composite column names, the
  loop that builds them, what it takes and what it calls grounded, and when it loses a fact.
- `KeyProfile`, `KeyValues`, `ObjectKeys`, `ObjectRows`, `ObjectResolve`, `KeyForms`: identifier profiling, the
  exact-key index and the silent bind, its rows, the binds that ask or go by name, and when two ids agree.
- `Options`, `Order`, `Select`, `Text`, `TextForms`: an option type, stable sorting, filtered lists, Python's
  string operations, and what some of them give, said by positions.

`dafny verify dfyconfig.toml` checks the project.

## How the source is read

Loops that change variables are methods with invariants; objects whose fields change are classes; each is
proved against a function or a relation on values, and the promises are lemmas about those. Hashes are
injective, so a key stands for what it hashes. Model answers, embeddings and media processing are arbitrary
parameters. Scores, ratios and times are exact numbers. Lowercasing works character by character and keeps
ASCII letters and digits; `\d` and `\w` mean ASCII.

The proofs assume what the engine assumes of its surroundings: one tenant at a time under row-level security;
one code and model version during a run; stages of one case run one at a time; no ingest races an erasure; no
crash falls between a channel's send and its commit; the advisory lock lives as long as its process, process
identities are fresh and the bypass is off; the clock never goes back, and a submission reads it once; a job is
given up exactly at its fourth exception.

## Where the code and its documents disagree, and what the code does not promise

The model follows the code. Each point is proved by the lemma it names.

- The queue module says that exhausted retries stamp a case `processing_failed`; the dispatch and rules tasks
  retry but never stamp (engine/app/queue.py:34-40, 197-225): `PipelineRuns.SilentlyStranded`. Exactly which
  failures stamp is `PipelineFailures.StampsExactlyWhen`.
- A degraded normalisation commits without a job (`PipelineRuns.DegradedCommitsWithoutAJob`), and extraction
  of a case without text returns before it claims (`PipelineRuns.ExtractsExactlyAFreshText`). `PipelineLaws.Due`
  has three exceptions: a degraded document (the normalised ones of its case are still due), a blank text, and
  a text that was extracted already, under any case and any vocabulary.
- The extract key holds no case, so the second case with one text is never extracted under one vocabulary
  (`PipelineRuns.SecondCaseIsNeverExtracted`, `PipelineRuns.SecondCaseWithTheSameTextGetsNothing`).
- Stages are keyed on the values they read, so values that come back after others are skipped. The decision for
  the others stands (`PipelineRuns.ComebackKeepsTheOldDecision`, and exactly when,
  `PipelineRuns.DecisionIsCurrentExactlyWhen`), and so does the elicitation state
  (`Elicitation.ComebackKeepsTheOldState`, and exactly when, `Elicitation.StateIsCurrentExactlyWhen`).
- The normaliser's tag is documented to change with the OCR language; the tag of a PDF does not, although its
  scanned pages are read by OCR (`ModelSwap.SwapRenormalisesExactlyWhen`).
- A missing category counts as a known one (`Elicitation.FirstQuestionExactlyWhen`), and the measuring loop
  fills the outcome before the fault although the policy asks for the fault first
  (`Elicitation.DrillIsAnsweredExactlyWhen`).
- A drill repeated word for word is counted and not sent (`Elicitation.RepeatedDrillIsPaidButNotSent`; exactly
  what is sent, `Elicitation.QuestionIsSentExactlyWhen`).
- Verifying a token is documented to answer None on any error; a signature outside ASCII makes the comparison
  raise instead (`Tokens.ForeignSignatureRaises`, `Tokens.VerifyAnswersExactlyWhen`).
- A submission that the tenant's window refuses still spends a hit of its ip (`RateLimit.IpRefusesExactlyWhen`,
  `RateLimit.RefusedSubmissionsLockOut`).
- A queue named twice takes another lock (`Worker.RepeatedQueueTakesAnotherLock`).
- Documents are kept once per tenant, so a case opened by known bytes alone has none
  (`IntakeSplit.NewCaseHasADocumentExactlyWhen`).
- The header pattern makes the comma optional; no time format does (`WhatsAppTime.CommaIsNeeded`).
- A message whose first line is blank is lost (`WhatsAppFirstLine.MessageSurvivesExactlyWhen`).
- A qualifier need not be a run of tokens to pass as extractive (`Extractor.PartOfAWordIsExtractive`).
- Minted heads may hold an underscore and then cost facts (`ExtractorFacts.LosesAFactExactlyWhen`,
  `ExtractorFacts.DeliveryTimeIsLost`).
- The phone hints end at word boundaries, and an underscore is no boundary, so a `customer_phone` column is
  indexed as text while lookups use digits (`ObjectKeys.PhoneIsFoundExactlyWhen`).
- The key module's example equates a dashed and a spaced id; the code does not (`ObjectKeys.DashIsNotASpace`).
- Highlighted spans reassemble the text only when they do not overlap (`Provenance.SourceText`).

## Model

| member | source | states |
|---|---|---|
| `Clustering.Components` | engine/eval/run_column_convergence.py:56-75 | terminates on every list of vectors and returns the connected components of the similarity graph: lists partition the indices, two indices share a list exactly when a chain of similar pairs joins them, lists ascend and come by first index |
| `Clustering.ComponentsUnique` | engine/eval/run_column_convergence.py:56-75 | that specification has one solution, order included, so nothing about the result is left open |
| `Clustering.Find` | engine/eval/run_column_convergence.py:60-64 | the walk with path halving returns the root of its start and changes no element's root |
| `Clustering.HalvingKeepsRoots` | engine/eval/run_column_convergence.py:61-63 | one halving step keeps every root and climbs strictly towards it |
| `Clustering.RootIsWhereTheWalkStops` | engine/eval/run_column_convergence.py:60-64 | the root of the specification is the element at which following parents stops |
| `Clustering.LinkRoots` | engine/eval/run_column_convergence.py:69-71 | linking two different roots after a similar pair keeps the forest acyclic and never joins what no chain joins |
| `Clustering.Unite` | engine/eval/run_column_convergence.py:67-71 | one round of the pair loop joins exactly the pair it examines and keeps what earlier pairs joined |
| `Clustering.Group` | engine/eval/run_column_convergence.py:72-75 | the grouping loop files every index under its root, ascending, in order of first appearance |
| `Clustering.PrefixOnlyCoarsens` | engine/eval/run_column_convergence.py:115-124 | when more facts arrive, components of a prefix are never split |
| `QualifierDedup.CosineSymmetric` | engine/eval/run_qualifier_dedup.py:56-60 | the harness's own similarity is symmetric |
| `QualifierInputs.CosineExactly` | engine/eval/run_qualifier_dedup.py:56-60 | of two vectors of one length the similarity is their product over the two lengths; it is within [-1, 1], 0 if one of them is zero, and 1 of a vector and itself |
| `QualifierInputs.CauchySchwarz` | engine/eval/run_qualifier_dedup.py:56-60 | the square of the product is at most the product of the squares, which keeps the similarity in that range |
| `QualifierInputs.AttestedExactlyWhen` | engine/eval/run_qualifier_dedup.py:87-97 | a case attests a head and qualifier exactly when both are there and one of its attributes has them |
| `QualifierDedup.Nearest` | engine/eval/run_qualifier_dedup.py:133-138 | the comparison loop finds the first of the most similar canonicals, or none above -1 |
| `QualifierDedup.FoldsExactlyWhen` | engine/eval/run_qualifier_dedup.py:145-165 | from 0.85 on a qualifier folds into its nearest canonical unasked, from 0.70 on exactly on the adjudicator's yes, and below that never |
| `QualifierDedup.Assign` | engine/eval/run_qualifier_dedup.py:132-165 | one qualifier goes to the nearest canonical exactly when the two-threshold gate folds it, otherwise it becomes a canonical that is below the merge threshold of all others |
| `QualifierDedup.DedupHead` | engine/eval/run_qualifier_dedup.py:130-165 | the loop under one head is the greedy pass: the map is idempotent on canonicals, canonicals are qualifiers of the head and pairwise below MERGE_TAU, merges plus canonicals count the qualifiers, and other heads' entries stay |
| `QualifierDedup.Dedup` | engine/eval/run_qualifier_dedup.py:125-165 | over all heads the canonical map is idempotent, stays within its head and keeps canonicals apart |
| `QualifierDedup.DuplicateColumns` | engine/eval/run_qualifier_dedup.py:256-271 | the later check counts exactly the listed pairs that reach the merge threshold |
| `QualifierDedup.PromotedColumnsAreNeverDuplicates` | engine/eval/run_qualifier_dedup.py:256-271 | two different canonicals of one head are below the merge threshold in whichever order they are compared |
| `QualifierDedup.DuplicateCheckIsAlwaysZero` | engine/eval/run_qualifier_dedup.py:256-271 | for a symmetric similarity, no pair of distinct canonicals that the check compares after the dedup of all heads reaches the threshold, in whatever order they are listed |
| `QualifierPromotion.PromotionIsTheRecurring` | engine/eval/run_qualifier_dedup.py:236-236 | the promoted columns are exactly the canonicals whose pooled support reaches the gate, each once |
| `QualifierPromotion.PromotionIsInOrder` | engine/eval/run_qualifier_dedup.py:236-236 | they come by head and, under one head, by qualifier |
| `TextForms.StringLeExactly` | engine/eval/run_qualifier_dedup.py:236-236 | and one text comes before another exactly when the other starts with it, or has the larger character where they first differ |
| `QualifierPromotion.GroupByHead` | engine/eval/run_qualifier_dedup.py:258-261 | the dictionary of lists holds each head's promoted canonicals in their sorted order |
| `QualifierInputs.ListForIsTheColumns` | engine/eval/run_qualifier_dedup.py:258-261 | under a head those are all its columns and nothing else, in order |
| `QualifierPromotion.CheckPromoted` | engine/eval/run_qualifier_dedup.py:236-271 | after dedup and roll-up, promotion, sorting, grouping and the check together count zero duplicates for every symmetric similarity |
| `QualifierDedup.Tally` | engine/eval/run_qualifier_dedup.py:87-105 | support counts the distinct cases of each composite, and first-seen lists name every composite once |
| `QualifierDedup.RollUp` | engine/eval/run_qualifier_dedup.py:167-170 | each canonical holds exactly the support of what folded into it, and pooled support sums to raw support |
| `QualifierDedup.Replay` | engine/eval/run_qualifier_dedup.py:186-207 | after each bucket of 20 cases the two cumulative curves count the distinct raw and canonical composites of the cases so far |
| `QualifierDedup.CanonicalCurveStaysBelow` | engine/eval/run_qualifier_dedup.py:183-207 | at every bucket prefix the canonical cumulative count is at most the raw one |
| `QualifierDedup.ImageIsNoLarger` | engine/eval/run_qualifier_dedup.py:197-207 | folding composites never makes more of them |
| `QualifierHarness.SupportSums` | engine/eval/run_qualifier_dedup.py:87-105 | support over all composites sums to the pairs of a case and a composite that it attests |
| `QualifierHarness.RunDedup` | engine/eval/run_qualifier_dedup.py:80-271 | from the cases alone, tally, dedup, roll-up, promotion and check in order: each canonical holds the support of what folds into it, pooled support sums to the attestations, the columns are the canonicals at the gate, a composite that reaches the gate unfolded is in one of them, and for a symmetric similarity no two of them are duplicates |
| `PipelineLaws.EveryRunKeeps` | engine/app/pipeline.py:61-141 | over every run of arrivals, fetches, commits, failures, crashes, resets and reviews, nothing is lost from ingest to dispatch: a document to normalise that is not degraded, the texts of a case's normalised documents that no extraction read together, the text of a case without a degraded document, extracted values to elicit or to decide on, and a question to send each have a job that is queued or was given up; every job refers to a committed row; there is a job for each task that a done stage chains to |
| `PipelineChains.EveryDocumentHandsOn` | engine/app/intake/ingest.py:232-264 | over every run each document entered in a step that queued a job of its own to normalise it, and that job has since committed, was given up, or still waits |
| `PipelineChains.EveryDoneStageHandsOn` | engine/app/queue.py:354-384 | over every run each done stage got done in one step with a new job of its own for each task it chains to (extract, elicit and rules, dispatch of a question), and each of those jobs has since committed, was given up, or still waits |
| `PipelineChains.NormalisedTextIsPickedUp` | engine/app/pipeline.py:109-141 | over every run the text that a done normalisation saved is read by the extraction queued with it, not by one before: that job waits, was given up, or committed after it, and by then the text is blank or part of an extracted one |
| `PipelineChains.JobWaitsOrRan` | engine/app/queue.py:112-225 | a job that waits at one point of a run is at every later point waiting, given up, or committed in between |
| `PipelineLaws.StepKeeps` | engine/app/queue.py:112-225 | one step of the system keeps that invariant: no step makes a task due without its job, and a committed transaction leaves its own task nothing to do |
| `PipelineLaws.DrainedQueueLeavesNothingBehind` | engine/app/pipeline.py:3-8 | once the queue is quiet, whatever task is still due had its job given up |
| `PipelineLaws.DrainedWithoutFailuresIsComplete` | engine/app/queue.py:1-16 | a drained queue with no job given up is complete: every document is normalised or degraded, the normalised documents of every case, mixed ones included, were read by one extraction, and its whole text by one if no document in it is degraded, values are elicited on or handed off and decided on, and every question that has a recipient is sent |
| `PipelineCases.EveryCaseIsARunOfElicitation` | engine/app/elicit/stage.py:225-391 | in every run of the pipeline, with its retries, crashes and reaps, what happens to a case is a run of the elicitation machine |
| `PipelineCases.CustomersAreAskedAtMostThrice` | engine/app/channel/dispatch.py:39-69 | so over every run of the whole pipeline a customer is asked at most three questions and sent at most as many messages, none of them twice |
| `PipelineFailures.RetriesAreBounded` | engine/app/queue.py:34-40 | a job raises at most four times and is given up exactly at the fourth |
| `PipelineFailures.StampsExactlyWhen` | engine/app/queue.py:43-77 | a task that raises stamps a case processing_failed exactly when the case is in flight, the retries are over, the task normalises one of its documents, extracts it or elicits it, and the marking works; nothing else about any case changes |
| `PipelineFailures.StampLastsUntilTheNextMove` | engine/app/store/api.py:1483-1503 | from the stamp on, over every further run, the case is still failed, or handed off, or was elicited on values it was not elicited on before |
| `PipelineFailures.ExhaustionSurfaces` | engine/app/queue.py:34-40 | in every run whose markings work, no case behind a given-up normalise, extract or elicit job still looks freshly created |
| `PipelineFailures.UndecidedExhaustedCaseIsFailed` | engine/app/queue.py:34-40 | and if no elicitation ever decided that case, it is processing_failed or with the reviewer |
| `PipelineRuns.SilentlyStranded` | engine/app/queue.py:197-225 | dispatch and rules tasks retry but never stamp: a run ends with nothing left to do, the question unsent, no decision, both jobs given up and the case still in flight |
| `PipelineFailures.GivenUpInSilence` | engine/app/queue.py:197-225 | any waiting dispatch or rules job can be given up in four failures that change no case at all |
| `PipelineFailures.DoneStaysDone` | engine/app/store/api.py:1143-1174 | no step takes a done key back |
| `PipelineFailures.CrashAfterCommitChangesNothing` | engine/app/pipeline.py:54-58 | a worker that dies after its transaction and before its job row says so costs nothing: the job runs again and the tables end as before, whatever the second run would compute |
| `PipelineFailures.TaskTxReplays` | engine/app/store/api.py:1143-1174 | running any task's transaction twice writes what running it once writes, except after a degraded normalisation, a vocabulary minted or an emotion arc moved in between |
| `PipelineRuns.DegradedCommitsWithoutAJob` | engine/app/pipeline.py:109-141 | a degraded normalisation commits its text with no job and stays claimable; a later run that does better is done together with its extract job |
| `PipelineTexts.EveryDocumentHasOneText` | engine/app/store/api.py:816-858 | over every run no document has two rows of text |
| `PipelineTexts.NormaliseReplacesTheRow` | engine/app/store/api.py:816-858 | a normalisation, degraded or not, leaves its document exactly the one new row, in the place of the old one or at the end, and every other row where it was |
| `PipelineTexts.BetterReplacesPoor` | engine/app/pipeline.py:109-141 | so after a degraded and a better normalisation of a document of any run, no row holds its poor text |
| `PipelineTexts.TextsAreTheRows` | engine/app/store/api.py:861-872 | what extraction reads are the nonempty texts of the case's rows, all of them and nothing else, in row order |
| `PipelineTexts.CaseTextIsTheTexts` | engine/app/store/api.py:861-872 | they stand one after another in the case text with one line break between two |
| `PipelineSteps.ArrivalExactly` | engine/app/intake/ingest.py:232-264 | an arrival with an item of an unknown case changes nothing; otherwise new cases start fresh, each new document is that of the first item with its bytes, every item gets one new waiting normalise job, and nothing else changes |
| `PipelineSteps.ElicitationExactly` | engine/app/elicit/stage.py:225-391 | a committed elicitation writes what the turn of the elicitation machine leaves to the case's row and to no other, marks exactly its key, and queues a dispatch exactly if a question was issued |
| `PipelineSteps.DispatchExactly` | engine/app/channel/dispatch.py:28-69 | a committed dispatch appends the open question of an incomplete case with a recipient to what was sent, unless it is there, and changes nothing else |
| `ModelSwap.TagChangesExactlyWhen` | engine/app/pipeline.py:31-42 | the tag of recordings changes exactly with the transcription model, that of images with the OCR language, that of texts with the code version, and no other tag ever |
| `ModelSwap.ReaderChangesExactlyWhen` | engine/app/normalise/router.py:19-37 | what reads a document changes exactly with the transcription model for recordings, and with the language for images and scanned PDFs |
| `ModelSwap.TagSeesTheReaderExactlyWhen` | engine/app/pipeline.py:31-42 | of the settings that change what reads a document, the tag changes with them exactly unless the document is a PDF, whose scanned pages go to the OCR that its tag does not name |
| `ModelSwap.SwapRenormalisesExactlyWhen` | engine/app/pipeline.py:31-77 | so under the new model a normalised document is normalised afresh exactly unless it is a PDF |
| `PipelineRuns.ExtractsExactlyAFreshText` | engine/app/extract/stage.py:63-95 | a run of extraction does something exactly when the case has text and that text is extracted under no case yet |
| `PipelineRuns.SecondCaseIsNeverExtracted` | engine/app/extract/stage.py:82-95 | because the extract key names the text and not the case, once a text is extracted another case that holds it gets no values from any number of later steps under the same vocabulary |
| `PipelineRuns.SecondCaseWithTheSameTextGetsNothing` | engine/app/extract/stage.py:82-95 | such a run from the empty tables: two customers, two documents with one text, every job succeeds, and the second case is as fresh as it arrived |
| `PipelineRuns.DecisionIsCurrentExactlyWhen` | engine/app/rules/stage.py:76-113 | a run of the rules stage leaves the decision for the inputs it read exactly when those inputs are new or the standing decision already is for them |
| `PipelineRuns.ComebackKeepsTheOldDecision` | engine/app/rules/stage.py:91-93 | values that come back after others are not decided on again: a run in which every job succeeds ends with a decision for a category that the case no longer has |
| `Pipeline.Session.ClaimStage` | engine/app/store/api.py:1143-1165 | a claim is refused exactly for a done key, and otherwise leaves the row running |
| `Pipeline.Session.SetStage` | engine/app/store/api.py:1168-1182 | completing or failing rewrites the claimed row's status and nothing else |
| `Pipeline.Session.DeferInTransaction` | engine/app/queue.py:354-384 | the new job row joins the caller's transaction |
| `Pipeline.Session.Rollback` | engine/app/pipeline.py:61-65 | an exception restores the tables as they were when the transaction began |
| `Pipeline.Session.NormaliseSourceDocument` | engine/app/pipeline.py:45-141 | the statements of the stage, claims and rollback included, amount to the transaction of the step system |
| `Pipeline.Session.ExtractCase` | engine/app/extract/stage.py:52-190 | the same for extraction, for known and unknown cases; a model call that raises leaves no trace |
| `Pipeline.Session.DecideCase` | engine/app/rules/stage.py:36-118 | the same for the rules stage; a decision is written exactly for a known case whose inputs were not decided on |
| `Worker.LockKeyIgnoresOrderOnly` | scripts/run_worker.py:42-50 | two queue lists contend for one lock exactly when they name the same queues equally often |
| `Worker.RepeatedQueueTakesAnotherLock` | scripts/run_worker.py:42-50 | naming a queue twice gives the same set of queues another lock, so two workers start |
| `Worker.OneLiveWorkerPerQueueSet` | scripts/run_worker.py:53-90 | in every run at most one live worker holds each lock |
| `Worker.EveryRunKeepsOwnership` | scripts/run_worker.py:93-126 | with lists that pairwise agree or are disjoint, every running job's live owner serves its queue and a worker that reaped sees no running job but its own |
| `Worker.ReapSparesLiveWorkers` | scripts/run_worker.py:93-126 | reaping never resets a job that a live worker is running |
| `Worker.NoOrphanWhileAReapedWorkerLives` | scripts/run_worker.py:192-214 | from a successful reap at start-up to the worker's death no job on its queues is running without a live owner |
| `Worker.OverlapUnderTwoLocksStealsAJob` | scripts/run_worker.py:42-126 | two overlapping lists with different locks lead, in a run of six steps, to a reap that resets a job in flight |
| `Worker.SafeExactlyWhenCompatible` | scripts/run_worker.py:42-126 | no run of two lists ever resets a job in flight if and only if the lists share a lock or share no queue |
| `Worker.SafeQueueLists` | scripts/run_worker.py:42-126 | for the code's own key that is: the lists name the same queues equally often, or share none |
| `Worker.Database.SingletonLock` | scripts/run_worker.py:53-90 | the lock is got exactly when no live worker holds the same key |
| `Worker.Database.ReapOrphanedJobs` | scripts/run_worker.py:93-126 | exactly the running jobs on the worker's queues go back to todo, and their ids are returned |
| `Worker.Database.StartUp` | scripts/run_worker.py:192-214 | lock, then reap, then fetch; a refused lock changes nothing, and a failed reap does not stop the worker |
| `Elicitation.ActionableExactlyOnEssentials` | engine/app/elicit/policy.py:111-197 | the decision is actionable exactly when category, fault and desired outcome survive the grounding filter, so the last return is never taken |
| `Elicitation.PolicyExactly` | engine/app/elicit/policy.py:111-197 | the whole policy as an if-and-only-if for each state and each question: a customer who is not angry is handed off exactly when the essentials are not grounded, what happened is not to be asked, no anchor is to be asked, and two drills or three questions are spent; otherwise the anchor, the fault, the outcome or the category is asked, each exactly in its case |
| `Elicitation.WordingExactly` | engine/app/elicit/policy.py:123-195 | how each question is put: what happened in the prompt's words and options when there is something to go on and a prompt, the outcome behind the confirmation |
| `Elicitation.TurnReads` | engine/app/elicit/stage.py:277-350 | what the policy is told, from the values read: angry, anchor known, category certain, fault grounded, and a confirmation with the first drill only |
| `Elicitation.TurnCommits` | engine/app/elicit/stage.py:250-391 | a turn on a case handed off or on values seen before does nothing; any other commits the policy's state and question and counts exactly the question asked |
| `Elicitation.QuestionsAreJustified` | engine/app/elicit/policy.py:123-195 | a question comes with the incomplete state only, never asks for what is known, and is within the budget |
| `Elicitation.AngryIsHandedOff` | engine/app/elicit/policy.py:126-150 | an angry customer is asked at most what happened, and only with nothing to go on |
| `Elicitation.QuestionBudgetHolds` | engine/app/elicit/stage.py:250-380 | over every run of replies, replays, rollbacks, sends and reviews: at most one anchor, two drills and three questions, and the row's counter is the number issued |
| `Elicitation.EveryQuestionSpendsBudget` | engine/app/elicit/stage.py:352-372 | each issued question strictly lowers what is left of the cap of three |
| `Elicitation.HandOffIsFinal` | engine/app/elicit/stage.py:254-256 | a case handed off or committed is never asked again and its counters never move |
| `Elicitation.ReplayIsANoOp` | engine/app/elicit/stage.py:260-276 | a replay on the same extracted values asks nothing and changes nothing, whatever it would resolve now |
| `Elicitation.NothingIsSentTwice` | engine/app/channel/dispatch.py:39-69 | the committed outbound ledger never holds one body twice, and only bodies that were issued |
| `Elicitation.AtMostThreeMessages` | engine/app/channel/dispatch.py:3-6 | a customer receives at most as many messages as questions were counted, so at most three |
| `Elicitation.RepeatedDrillIsPaidButNotSent` | engine/app/channel/dispatch.py:53-64 | the bound is not an equality: in a run a drill repeated word for word is counted twice and sent once |
| `Elicitation.QuestionIsSentExactlyWhen` | engine/app/channel/dispatch.py:34-64 | a question that a turn issues is sent, by a send that works and has a recipient, exactly when its text was not sent before |
| `Elicitation.SentIsWhatWasOpen` | engine/app/channel/dispatch.py:28-69 | over every run the messages are, each once, the distinct texts that were open at a send that worked and had a recipient |
| `Elicitation.StateIsCurrentExactlyWhen` | engine/app/elicit/stage.py:260-276 | for a case not handed off, the state after a turn is what the policy says of the values read exactly when those values are new to the case or the state already is that |
| `Elicitation.ComebackKeepsTheOldState` | engine/app/elicit/stage.py:260-276 | values that come back after others are not decided on again: a run of three replies ends actionable although the values last read lack the outcome, which the policy would ask for |
| `Elicitation.CaseRecord.ElicitCase` | engine/app/elicit/stage.py:234-391 | the stage's statements, with a provenance step that may raise, amount to the transition of the case, or to nothing |
| `Elicitation.CaseRecord.DispatchCaseQuestion` | engine/app/channel/dispatch.py:28-69 | claim, send and record transmit exactly when there is an unsent question and a recipient, and a failed send leaves no claim |
| `Elicitation.Simulate` | engine/eval/measure_elicit.py:60-109 | driven by a customer who answers everything, the policy ends within four decisions and asks exactly the expected questions; the two counters stay at zero, the first because a drill's target is chosen among missing fields |
| `Elicitation.NothingStatedIsAsked` | engine/eval/measure_elicit.py:74-106 | every question that the simulated loop plays is after a field that is missing at that moment, or after an anchor that is not known |
| `Elicitation.DrillIsAnsweredExactlyWhen` | engine/eval/measure_elicit.py:94-106 | the loop's customer answers a drill with what it asked for, except when the policy asks for the fault while the outcome is missing: the loop fills the outcome first |
| `Elicitation.FirstQuestionExactlyWhen` | engine/app/elicit/stage.py:313-317 | a missing category counts as a known one: of the cases with neither fault nor anchor, exactly those with an uncertain category are first asked what happened, the others for the anchor |
| `Elicitation.Consult` | engine/eval/measure_elicit.py:74-90 | each decision of the simulated loop is the next expected question, or the expected terminal state |
| `Elicitation.TakeAnswer` | engine/eval/measure_elicit.py:90-106 | each cooperative answer removes exactly one expected question and bumps neither counter |
| `Intake.NeverMergesOnAGuess` | engine/app/intake/windowing.py:80-143 | a message follows up only the sender's latest case, and a distant or closed one only on the classifier's clear word and inside the reopen window |
| `Intake.FollowsUpExactlyWhen` | engine/app/intake/windowing.py:107-143 | a message follows up if and only if there is a prior case and either it is open and within 24 hours either side, or the classifier answers exactly follow_up, for a committed case at most four days after its activity |
| `Intake.KeyedExactlyWhenStorable` | engine/app/intake/ingest.py:60-77 | a message has an idempotency key exactly when it stores a document, and the key names its first document's bytes |
| `Intake.LatestIsLatest` | engine/app/store/api.py:103-126 | the case a first message is compared with is the sender's case with the latest activity |
| `IntakeSession.GroupBySender` | engine/app/intake/ingest.py:103-106 | the dictionary holds each sender's messages in batch order, senders by first message |
| `IntakeSession.Session.AddSourceDocument` | engine/app/store/api.py:583-626 | bytes the tenant holds return the existing row, others a new one |
| `IntakeSession.Session.StoreAndQueue` | engine/app/intake/ingest.py:232-264 | a document and its normalise job enter the same transaction |
| `IntakeSession.Session.StoreParts` | engine/app/intake/ingest.py:159-191 | the text and every attachment with bytes are stored in order, and the others are counted |
| `IntakeSession.Session.IngestMessage` | engine/app/intake/ingest.py:114-204 | one message: skip, window, open or continue, store, complete, and the view for the next |
| `IntakeSteps.StepExactly` | engine/app/intake/ingest.py:114-204 | a message that was not ingested before goes to the case of the run or to a new one as the window decides, stores exactly its parts with one job each, is marked done, and hands on the case with its text behind what the run had |
| `IntakeSteps.SkippedExactlyWhenDone` | engine/app/intake/ingest.py:114-122 | a message whose key is done changes nothing |
| `IntakeSteps.PriorIsTheLatestCase` | engine/app/intake/ingest.py:208-229 | a named sender with cases is compared with the one of the latest activity, as its row and the last 500 characters of its text have it |
| `IntakeSteps.LastReceivedIsTheLatest` | engine/app/store/api.py:106-126 | a case's activity is the latest of its first contact and of what its documents say |
| `IntakeSteps.PartsAreTextAndFiles` | engine/app/intake/ingest.py:159-191 | what a message stores is its text, if it has one, and then exactly its attachments with bytes, in order |
| `IntakeSession.Session.IngestMessages` | engine/app/intake/ingest.py:80-205 | the loops over senders and messages compute the batch's specification on every batch |
| `IntakeLaws.IngestAgainAddsNothing` | engine/app/intake/ingest.py:114-122 | ingesting again any messages of an ingested batch that store something changes no table, whatever else changed but the ledger |
| `IntakeLaws.EmptyMessageOpensACaseEachTime` | engine/app/intake/ingest.py:60-77 | a message that stores nothing is outside that promise: from an unknown sender it opens a case every time |
| `IntakeLaws.RepeatsAreIgnored` | engine/app/intake/ingest.py:60-77 | a batch with repeated keys leaves exactly the state of the batch that keeps the first of each key |
| `IntakeLaws.SortKeepsFirst` | engine/app/intake/ingest.py:110-110 | sorting by time and dropping later repeats commute, because the sort is stable and equal keys have equal times |
| `TextForms.SortIsStable` | engine/app/intake/ingest.py:110-110 | the sort leaves messages of one time in the order in which they came |
| `IntakeLaws.OtherSendersAreSeparate` | engine/app/intake/ingest.py:109-124 | earlier senders of a batch leave the case that a sender's first message may join untouched |
| `IntakeSplit.SplitIsAtTheLongGaps` | engine/app/intake/windowing.py:132-142 | the split puts back together to the messages, with gaps of at most 24 hours inside a run and longer gaps between runs |
| `IntakeSplit.SenderGetsTheSplit` | engine/app/intake/ingest.py:108-205 | without a classifier a sender's new messages go to cases exactly by that split of the time-sorted timeline, and each run but a joining first one opens a case |
| `IntakeBatch.BatchGetsTheSplits` | engine/app/intake/ingest.py:80-205 | the whole batch, senders one after another: the new cases are exactly those of each sender's split, taken from the tables as they were before the batch |
| `IntakeSplit.JoinsExactlyWhenOpenAndNear` | engine/app/intake/windowing.py:119-142 | the first run joins the prior case exactly when that case is open and within 24 hours either side |
| `IntakeSplit.RunStartsEarliest` | engine/app/intake/ingest.py:130-135 | a new case's first_contact_at, its run's first message, is the earliest of the run |
| `IntakeSplit.NewCaseHasADocumentExactlyWhen` | engine/app/store/api.py:599-626 | a case opened by a message holds one of its documents exactly when some of its bytes are new to the tenant |
| `WhatsAppTime.TsParser.Parse` | engine/app/intake/whatsapp_export.py:115-131 | the locked format never changes an answer: every timestamp parses to what the plain ladder gives, and the lock moves to the format that worked |
| `WhatsAppTime.AnyLadderAgrees` | engine/app/intake/whatsapp_export.py:120-131 | at most one format accepts a timestamp, so any ladder that holds them all gives the same answer |
| `WhatsAppGrammar.DaysExactly` | engine/app/intake/whatsapp_export.py:115-131 | a day is accepted up to the length of its month, with the leap years of the Gregorian calendar |
| `WhatsAppStamp.NormalisedIsLaidOut` | engine/app/intake/whatsapp_export.py:94-102 | whatever the separators, spaces, marks and case of AM and PM, normalising the captured timestamp of a header gives its fields in the layout of the formats |
| `WhatsAppStamp.TextReadsAsItsFields` | engine/app/intake/whatsapp_export.py:115-131 | on that text each format accepts what it accepts of the captured fields; the layout has one reading |
| `WhatsAppStamp.StampTextParsesExactlyWhatIsPrinted` | engine/app/intake/whatsapp_export.py:84-131 | under a date order, the captured text of a header's timestamp reads as a time if and only if its digits spell that time, in any style |
| `WhatsAppStamp.DatePatternReadsTheFields` | engine/app/intake/whatsapp_export.py:60-81 | the date pattern finds in the normalised text the two numbers that detection counts |
| `WhatsAppTime.CommaIsNeeded` | engine/app/intake/whatsapp_export.py:88-91 | a timestamp without a comma never parses, though the header pattern accepts it |
| `WhatsAppTime.DetectDayFirst` | engine/app/intake/whatsapp_export.py:64-81 | day-first is decided exactly when month-first evidence does not outnumber day-first evidence |
| `WhatsAppTime.DetectsTheOrderExactlyWhen` | engine/app/intake/whatsapp_export.py:64-81 | for a file printed in one order, detection finds it exactly when it is day-first or some day is over 12, and then every timestamp reads back |
| `WhatsAppHeader.MatchIsExact` | engine/app/intake/whatsapp_export.py:43-51 | maximal matching of a chain of disjoint classes finds the one way to cut a text |
| `WhatsAppHeader.ScanIsExact` | engine/app/intake/whatsapp_export.py:43-51 | the scanner accepts a line with given parts if and only if the line is those parts put together as the pattern says; a line is a header in at most one way |
| `WhatsAppGrammar.DateExactly` | engine/app/intake/whatsapp_export.py:43-51 | the date of a header is one to four digits, one or two, and two to four, with a slash, a dot or a dash between them |
| `WhatsAppGrammar.TimeExactly` | engine/app/intake/whatsapp_export.py:43-51 | its time is white space, one or two digits, a colon and two digits |
| `WhatsAppGrammar.EndExactly` | engine/app/intake/whatsapp_export.py:43-51 | and it ends in a bracket and white space, or in a dash with white space on either side |
| `WhatsAppExport.SplitInvertsJoin` | engine/app/intake/whatsapp_export.py:134-142 | splitting at the first colon and space gives back any sender of at most 80 characters without one, and the body intact |
| `WhatsAppLines.SplitSenderExactly` | engine/app/intake/whatsapp_export.py:134-142 | the sender is the cleaned text before the first colon and space exactly when that stands within 80 characters and on one line; any other line is a system line and stays whole |
| `WhatsAppLines.CleanExactly` | engine/app/intake/whatsapp_export.py:94-95 | cleaning drops the nine direction marks and nothing else, makes the two special spaces plain ones, and strips |
| `TextForms.StripExactly` | engine/app/intake/whatsapp_export.py:94-95 | stripping takes the white space off both ends, all of it and nothing else |
| `WhatsAppMarkers.MarkerExactly` | engine/app/intake/whatsapp_export.py:46-51 | a line names a file as iOS does, else as Android does, else says that a file was omitted, else is text, each exactly in its case |
| `WhatsAppMarkers.FlushExactly` | engine/app/intake/whatsapp_export.py:153-203 | what a body gives: nothing for a system line or no text; else one message, with the bytes of the named file exactly if it is among the files |
| `WhatsAppExport.ParseExport` | engine/app/intake/whatsapp_export.py:209-253 | both passes of the parser compute the messages of the transcript's blocks under the detected order |
| `WhatsAppExport.ParseLines` | engine/app/intake/whatsapp_export.py:220-253 | the line loop's variables, the last flush included, yield one flush for each block in order |
| `WhatsAppExport.EveryLineIsInABlock` | engine/app/intake/whatsapp_export.py:227-248 | each line from the first parsed header on lies in a block, and opens it exactly when it is a parsed header |
| `WhatsAppExport.BlocksAreDisjoint` | engine/app/intake/whatsapp_export.py:227-248 | and in no second block |
| `WhatsAppExport.SpansTile` | engine/app/intake/whatsapp_export.py:227-248 | blocks follow one another without a gap |
| `WhatsAppRoundTrip.FlushIsTheMessage` | engine/app/intake/whatsapp_export.py:153-206 | a flush keeps the whole text, or the resolved attachment with its caption |
| `WhatsAppRoundTrip.ParsingInvertsPrinting` | engine/app/intake/whatsapp_export.py:209-253 | printing messages with their headers and multi-line bodies and parsing them gives the same messages in order, with their line numbers |
| `WhatsAppRoundTrip.OrderIsFoundExactlyWhen` | engine/app/intake/whatsapp_export.py:217-219 | the order of a printed transcript is found exactly when it is day-first or some day is over 12 |
| `WhatsAppRoundTrip.ExportRoundTrip` | engine/app/intake/whatsapp_export.py:209-253 | the round trip of the whole parser, cleaning, header pattern, detection and time parsing included, in every header style |
| `WhatsAppRoundTrip.IosMarkerNamesItsFile` | engine/app/intake/whatsapp_export.py:54-54 | an iOS attachment marker gives back the name it was written with |
| `WhatsAppRoundTrip.AndroidMarkerNamesItsFile` | engine/app/intake/whatsapp_export.py:55-55 | an Android attachment marker gives back the name it was written with |
| `WhatsAppFirstLine.HeadOfHeaderLine` | engine/app/intake/whatsapp_export.py:145-150 | cleaning and scanning the header line of a message gives its time and its sender with what is left of the first line; a blank first line leaves the sender and a colon |
| `WhatsAppFirstLine.MessageSurvivesExactlyWhen` | engine/app/intake/whatsapp_export.py:134-253 | anywhere in a transcript, the lines of a printed message add one message if and only if its first line is not blank once cleaned; otherwise the block passes for a system line and all its lines are lost |
| `WhatsAppPrinter.BodyStandsForTheMessage` | engine/app/intake/whatsapp_export.py:153-206 | the lines printed for a message, a text or an attachment marker with its caption in either style, stand for that message |
| `WhatsAppPrinter.PrintedMessagesRoundTrip` | engine/app/intake/whatsapp_export.py:209-253 | printing messages, attachments and captions included, and parsing the export gives the same messages in order, each with its header line's number |
| `WhatsAppPrinter.FilesComeBack` | engine/app/intake/whatsapp_export.py:176-185 | so a file that came with the transcript comes back with its bytes |
| `Calibration.FitReliability` | engine/app/confidence/model.py:161-194 | each field gets, for exactly the values with enough gold, their accuracy and support, and its pooled accuracy for the rest |
| `Calibration.LooFromClassCounts` | engine/app/confidence/model.py:204-217 | a leave-one-out score before grounding is (correct - own)/(total - 1) of the class counts |
| `Calibration.LooIsHonest` | engine/app/confidence/model.py:204-217 | no row grades itself up: a right row scores at most, a wrong row at least, its class's pooled reliability |
| `Calibration.LowestTau` | engine/app/confidence/model.py:217-224 | the loop finds the lowest observed score whose accepted set meets the target, or none when none does |
| `Calibration.GateHoldsAtRunTime` | engine/app/confidence/model.py:78-98 | if every category class is backed by enough gold, the chosen threshold also meets the target under the confidences that the run time gives the fit rows, but for rows that four-digit rounding moves across it |
| `Calibration.GateCarriesOver` | engine/app/confidence/model.py:197-224 | scores that are no lower on right rows and no higher on wrong ones meet a target at every threshold at which the first scores do |
| `Calibration.SelectTau` | engine/app/confidence/model.py:197-224 | the chosen threshold is that score, or 1.01 with the gate unmet |
| `Calibration.ConfidenceInUnit` | engine/app/confidence/model.py:78-98 | confidence is in [0, 1] for every field, value and grounding |
| `Calibration.ConfidenceFromTheRows` | engine/app/confidence/model.py:78-98 | confidence from the gold rows: 0 for an abstention; otherwise the accuracy of the value if ten rows back it, else the field's pooled accuracy, else 1 for a field without rows, each rounded, times the grounding, cut off at [0, 1] and rounded |
| `Calibration.MeetsExactlyWhen` | engine/app/confidence/model.py:197-224 | a threshold meets the target exactly when some rows score at least that and the share of right ones among them is the target |
| `Calibration.DriverIsTheCategory` | engine/app/confidence/model.py:197-206 | the rows that set the threshold are the labelled rows of the category, all of them, in order |
| `Calibration.Fit` | engine/app/confidence/model.py:227-235 | when no threshold meets the target every value of every field routes to review |
| `Calibration.MissingArtifactFailsSafe` | engine/app/confidence/model.py:106-131 | without a calibration artifact everything routes to review |
| `Erasure.RecoveryReachesTheSameState` | scripts/delete_tenant.py:36-144 | however often a run dies, the run that completes reaches the state of an uninterrupted run |
| `Erasure.LeftoverReminderBreaksRecovery` | scripts/delete_tenant.py:52-76 | the hypothesis is needed: with a leftover reminder of a live tenant an interrupted erasure can end differently |
| `Erasure.WhatErasureLeaves` | scripts/delete_tenant.py:89-119 | exactly the erased tenant's rows, memberships, jobs and reminders are gone |
| `Erasure.WhatAnInterruptionLeaves` | scripts/delete_tenant.py:36-143 | a run that dies among the objects leaves no row of the tenant, a reminder for each object that its documents named, and exactly the objects that were not reached or that another tenant's document names |
| `Erasure.BlobSurvivesExactlyWhenShared` | scripts/delete_tenant.py:129-143 | a blob survives exactly when it never was the tenant's or another tenant's document references it |
| `Erasure.SharedBlobsAreNeverDeleted` | scripts/delete_tenant.py:129-143 | no run, interrupted or not, deletes a blob that another tenant's document references |
| `Erasure.UserKeptExactlyWhenElsewhere` | scripts/delete_tenant.py:106-119 | an account is removed exactly when the erased workspace was its only one |
| `Erasure.Database.RemoveRows` | scripts/delete_tenant.py:36-119 | the first transaction, statement by statement, and the key list it hands on |
| `Erasure.Database.EraseTenant` | scripts/delete_tenant.py:36-150 | the script's two phases end in the specified state, in the not-found exit, or, when they die, in an interrupted state |
| `RateLimit.DequeIsTheLiveWindow` | engine/app/portal/router.py:78-87 | the deque always holds exactly the accepted hits still in the window as of the last call |
| `RateLimit.RefusedExactlyWhenFull` | engine/app/portal/router.py:78-87 | a call is refused exactly when `limit` accepted hits lie in the closed window that ends with it |
| `RateLimit.NeverMoreThanLimit` | engine/app/portal/router.py:70-87 | every closed interval of the window's length holds at most `limit` accepted hits |
| `RateLimit.SlidingWindow.Allow` | engine/app/portal/router.py:78-87 | popping and appending on the key's deque is one call of the specification, and other keys are untouched |
| `RateLimit.SlidingWindow.LimitAuth` | engine/app/api/routes.py:186-202 | the sign-in limiter is the same with twenty attempts in ten minutes |
| `RateLimit.SlidingWindow.RateLimit` | engine/app/portal/router.py:93-102 | the two windows of a submission, the tenant's only if the ip's lets it through: the deques stay those of the submissions so far, and it is let in exactly when both admit it |
| `RateLimit.BothLimitsHold` | engine/app/portal/router.py:93-102 | over every run of submissions of any ips to any tenants, in ten minutes one ip gets at most its limit admitted, and in an hour one tenant |
| `RateLimit.IpRefusesExactlyWhen` | engine/app/portal/router.py:93-102 | an ip is refused exactly when its submissions in the window that were admitted and those that a tenant's window refused add up to its limit |
| `RateLimit.RefusedSubmissionsLockOut` | engine/app/portal/router.py:95-99 | so an ip none of whose submissions was admitted is refused at a tenant that would have let it in |
| `Provenance.Locate` | engine/app/extract/provenance.py:29-60 | a value is located exactly when some document holds it up to case, in the first such document, with the offsets of its first place there that select it from the joined case text or the locator of the first span that holds it |
| `Provenance.HoldsExactlyWhen` | engine/app/extract/provenance.py:43-56 | a document holds a value exactly when the value stands, up to case, in one of its spans if it is audio or an image, and otherwise in its text |
| `Provenance.LocateNeedle` | engine/app/extract/provenance.py:29-60 | the running base always is the document's offset in the newline-joined text |
| `Provenance.BuildFieldCitations` | engine/app/extract/provenance.py:63-77 | one precise citation when some document holds the text value, otherwise the fallback documents |
| `Provenance.SourceText` | ui/src/App.tsx:409-424 | each span is highlighted in order, and the parts put together are the source text exactly when the ordered spans do not overlap; in particular for nonempty disjoint spans in any order |
| `Provenance.DisjointSpansAreSequential` | ui/src/App.tsx:412-424 | nonempty spans that are pairwise disjoint, in any order and reaching past the text, never overlap once ordered |
| `Provenance.ClippedIsCovered` | ui/src/App.tsx:415-420 | each highlighted part covers exactly the places of the text that its span covers |
| `Provenance.EmptySpanCanRepeatText` | ui/src/App.tsx:412-424 | an empty span ordered after a longer one with the same start repeats text |
| `Tokens.DecodeInvertsEncode` | engine/app/portal/tokens.py:26-32 | unpadded base64url decoding inverts encoding for byte strings of every length (sections 3.2 and 5 of RFC 4648) |
| `Tokens.EncodeIsSymbols` | engine/app/portal/tokens.py:26-27 | stripping the padding leaves exactly the alphabet's symbols, none of them a dot |
| `Tokens.ParseInvertsPrint` | engine/app/portal/tokens.py:62-63 | parsing a printed UUID gives the UUID |
| `Tokens.VerifyInvertsSign` | engine/app/portal/tokens.py:47-65 | verifying a signed token returns exactly the signed tenant and case, for every pair and every keyed hash |
| `Tokens.NoKeyRefuses` | engine/app/portal/tokens.py:35-40 | without a secret every token is refused |
| `Tokens.SignatureNamesOnePair` | engine/app/portal/tokens.py:53-65 | behind a signature made for one pair a token is refused or names that pair, for an injective keyed hash |
| `Tokens.TakenExactlyWhen` | engine/app/portal/tokens.py:53-65 | a token is taken for a pair if and only if it is a first part, a dot and the signature of what that part decodes to, and that is the text of two UUIDs around its first colon, which are the pair |
| `TokenForms.DecodeExactly` | engine/app/portal/tokens.py:30-32 | decoding a text at all: characters outside the alphabet are skipped, every four symbols give three bytes, and the spare bits of the last group are dropped |
| `TokenForms.UuidExactly` | engine/app/portal/tokens.py:62-63 | a text is a UUID exactly when 32 hexadecimal digits are left without its dashes, and it is their number |
| `Tokens.VerifyAnswersExactlyWhen` | engine/app/portal/tokens.py:47-65 | with a secret, verification answers, rather than raises, exactly on the tokens whose part after the first dot is ASCII or whose part before it does not decode |
| `Tokens.ForeignSignatureRaises` | engine/app/portal/tokens.py:60-65 | the token that fails under every secret: a dot and a letter outside ASCII |
| `FieldNames.NormaliseIsIdempotent` | engine/app/extract/head_nouns.py:84-86 | normalising a token again changes nothing |
| `FieldNames.NormaliseJoinsTheWords` | engine/app/extract/head_nouns.py:76-86 | normalising is joining the words of the lowered text by underscores |
| `TextForms.WordsAreTheRuns` | engine/app/extract/extractor.py:34-34 | the words of a text are its longest runs of lowercase letters and digits, all of them, in order |
| `FieldNames.SplitInvertsComposeName` | engine/app/extract/head_nouns.py:89-108 | splitting a composed name gives back the qualifier it carries, for every head and qualifier |
| `FieldNames.ComposeInvertsSplit` | engine/app/extract/head_nouns.py:89-108 | composing what a split gives returns a name exactly when it is the head, or ends in it and is not the doubled head |
| `FieldNames.HeadsCollideExactlyWhenNested` | engine/app/extract/head_nouns.py:89-96 | two different heads can share a composite name if and only if one ends with an underscore and the other |
| `FieldNames.NameDeterminesFact` | engine/app/extract/head_nouns.py:89-96 | where no head is such an end of another, a name determines the head and the qualifier it carries |
| `FieldNames.SeedHeadsAreUnnested` | engine/app/extract/head_nouns.py:40-72 | no head of the seed vocabulary is such an end of another |
| `Extractor.TokenRunIsExtractive` | engine/app/extract/extractor.py:44-56 | a qualifier whose words stand in a row in the source passes the extractive check |
| `Extractor.PartOfAWordIsExtractive` | engine/app/extract/extractor.py:44-56 | the converse fails: part of a word passes, though the check is documented as a run of tokens |
| `Extractor.TokenRunExactlyWhenPadded` | engine/app/extract/extractor.py:52-56 | the documented property is exactly what the same search with a space at both ends decides |
| `Extractor.GroundingGrows` | engine/app/extract/extractor.py:68-84 | a value grounded in part of a text is grounded in the whole text |
| `Extractor.InventedIsNotGrounded` | engine/app/extract/extractor.py:68-84 | a value none of whose words occurs in the source is never grounded |
| `ExtractorGrounding.GroundedExactlyWhen` | engine/app/extract/extractor.py:68-84 | a value that is more than white space is grounded exactly when the source holds it, or six tenths of its words longer than two characters, or, if it has none, one of its words |
| `ExtractorItems.ExtractiveExactlyWhen` | engine/app/extract/extractor.py:44-56 | a qualifier passes exactly when it is not empty and, with spaces for underscores, stands in the words of the text put together with one space |
| `ExtractorItems.AttributeExactlyWhen` | engine/app/extract/extractor.py:118-139 | an entry becomes an attribute exactly when it is an object under a vocabulary head with a value of more than crosses, a concrete one under the two heads that take anything |
| `ExtractorItems.QualifierStaysExactlyWhen` | engine/app/extract/extractor.py:124-149 | it keeps the normal form of its qualifier exactly when that is extractive and has at most four words; its head, value and grounded flag are those of the entry |
| `Extractor.Extract` | engine/app/extract/extractor.py:87-164 | the output is, in order, the first attribute of each name among those that pass the checks; validity is exactly the grounded share of it, and 1 for an empty one |
| `Extractor.KeepFirst` | engine/app/extract/extractor.py:118-153 | the loop with its `seen` set keeps the first of each name |
| `Extractor.OutputNamesAreDistinct` | engine/app/extract/extractor.py:150-153 | no two output attributes share a name |
| `Extractor.CandidatesAreSound` | engine/app/extract/extractor.py:121-149 | every attribute is under a vocabulary head with real content, a concrete value under an escape head, and an honest grounded flag |
| `Extractor.QualifiersAreSound` | engine/app/extract/extractor.py:124-146 | a qualifier that survives is a normalised extractive span of at most four words |
| `ExtractorFacts.LosesAFactExactlyWhen` | engine/app/extract/extractor.py:118-153 | some text and answer make the extractor lose a grounded fact and its value if and only if the vocabulary has a head that is another head behind at most three words, or behind four other than that head itself |
| `ExtractorFacts.OnlyTrueDuplicatesAreDropped` | engine/app/extract/extractor.py:150-153 | in a vocabulary without such heads, a dropped item says the same head and qualifier as an earlier kept one |
| `ExtractorFacts.SeedVocabularyLosesNothing` | engine/app/extract/head_nouns.py:40-72 | so with the seed vocabulary, whatever the model answers, no different fact is ever dropped |
| `ExtractorFacts.DeliveryTimeIsLost` | engine/app/extract/extractor.py:150-153 | the call that fails: with the minted head delivery_time beside time, the text and answer of two delivery times, one under each, whatever the output, lose the second time |
| `KeyProfile.ProfileKeyFields` | engine/app/resolve/profile.py:41-63 | the loops over rows, cells and fields compute the key-field list |
| `KeyProfile.KeyFieldsIgnoreRowOrder` | engine/app/resolve/profile.py:41-63 | the list does not depend on the order of the rows |
| `KeyProfile.KeyFieldsQualify` | engine/app/resolve/profile.py:56-61 | a field is a key exactly when it has values and is nine tenths unique or a contact field |
| `KeyValues.QualifiesExactlyWhen` | engine/app/resolve/profile.py:32-61 | a field with values qualifies exactly when nine tenths of them are different, its name is a contact's, or eight tenths of them look like one |
| `KeyValues.ValuesAreTheCells` | engine/app/resolve/profile.py:44-52 | the values of a field are its stripped cells that are neither null nor blank, all of them, in row order |
| `KeyProfile.KeyFieldsDescend` | engine/app/resolve/profile.py:62-63 | more selective fields come first, then by name |
| `ObjectKeys.PhoneFieldsAreBareHints` | engine/app/resolve/keys.py:21-27 | a one-word column name is a phone field exactly when it is one of the six hints, so customer_phone is not |
| `ObjectRows.PhoneFieldExactlyWhen` | engine/app/resolve/keys.py:20-27 | a column is a phone field exactly when one of the six words stands alone in its lowered name |
| `ObjectRows.DigitsAreSelected` | engine/app/resolve/keys.py:30-38 | the normal form of a phone is its digits, all of them, in order |
| `ObjectKeys.PhoneMatchesTextFieldExactlyWhenBareDigits` | engine/app/resolve/keys.py:30-38 | under any other column a phone lookup matches exactly the values stored as those very digits |
| `KeyForms.SameFormExactlyWhenSamePieces` | engine/app/resolve/keys.py:30-38 | two ids agree under a text column exactly when their pieces between white space are the same once folded |
| `ObjectKeys.DashIsNotASpace` | engine/app/resolve/keys.py:12-13 | so an id with a dash and one without never agree, against the module's own example |
| `ObjectKeys.ReuploadAddsNothing` | engine/app/resolve/ingest.py:98-110 | uploading again any rows of an uploaded batch, in any order and under any profile, adds nothing |
| `ObjectRows.BatchAddsFirstRows` | engine/app/resolve/ingest.py:98-110 | a batch adds, in order, exactly one record for the first row of each content that the store does not know |
| `ObjectRows.ExternalIdIsTheBest` | engine/app/resolve/ingest.py:50-68 | the external id is the stripped value of the best key field that has one: a field named as an id, else one that is no name, else any, the earliest of those |
| `ObjectRows.IndexedExactlyWhen` | engine/app/resolve/ingest.py:112-127 | a field is indexed, under its normal form, exactly when it has a value and its normal form is not empty |
| `ObjectKeys.AfterKnows` | engine/app/resolve/ingest.py:98-110 | after a batch every row's content is stored and earlier records are kept |
| `ObjectKeys.ObjectStore.UpsertObjectRecord` | engine/app/store/api.py:1199-1234 | a record is inserted exactly when its content is new |
| `ObjectKeys.ObjectStore.IndexRecord` | engine/app/resolve/ingest.py:112-127 | the loop over the key fields leaves the index holding every indexable field of every record and nothing else |
| `ObjectKeys.ObjectStore.IngestObjectCollection` | engine/app/resolve/ingest.py:85-146 | a batch keeps the index exact, stores the records of the specification, and counts new and repeated rows and index rows |
| `ObjectKeys.LookupIsScan` | engine/app/store/api.py:1255-1277 | a key lookup finds exactly what a scan of the recorded key fields finds |
| `ObjectKeys.SilentByIdExactlyWhen` | engine/app/resolve/resolver.py:75-103 | a quoted id binds silently exactly when its normalised value stands in one place of the store and the sender's phone, if any object carries it, is carried by that object; otherwise it is a contradiction |
| `ObjectKeys.SilentByPhoneExactlyWhen` | engine/app/resolve/resolver.py:105-112 | without an id, a phone that some object carries binds silently exactly when it stands in one place of the store |
| `ObjectResolve.SilentByNameExactlyWhen` | engine/app/resolve/resolver.py:114-136 | when no id and no phone decides, a name binds silently exactly when the nearest object is at 0.72 or more and 0.06 ahead of the next; at 0.72 without the lead it asks |
| `ObjectResolve.IdElsewhereExactlyWhen` | engine/app/resolve/resolver.py:75-103 | an id that no object carries is not found whatever the name says, and one that stands in several places is asked about among their objects |
| `ObjectResolve.SharedPhoneIsAskedAbout` | engine/app/resolve/resolver.py:105-112 | a phone that stands in several places is asked about among their objects |
| `ObjectKeys.TwoFieldsOfOneObjectAsk` | engine/app/resolve/resolver.py:80-103 | an object that carries the value under two of its own fields is never bound silently |
| `ObjectKeys.NoiseFindsNothing` | engine/app/resolve/keys.py:46-51 | a phone without a digit finds nothing |
| `ObjectKeys.PhoneIsFoundExactlyWhen` | engine/app/resolve/keys.py:21-38 | a stored number is found under its sender's phone exactly when its column is a phone field with the same digits, or holds those very digits and nothing else |

## Left out

- The database, row-level security, SQL, the job library, object storage, HTTP routing, cookies and sign-in: only their transaction, ledger, lock and status semantics are kept.
- Prompts, grammar schemas, embeddings, speech and image recognition and PDF rendering: their results are parameters.
- The rule table's first-match lookup, configuration checks, reports, scoring scripts and the rest of the user interface: true but easy.
- The worker's heartbeat and the scheduler of maintenance scans.
- The time stamp that a replayed elicitation leaves, and the text of reasons and log lines.
- The cutting of a transcript into lines, zip archives and the media types of attachments.
- The scalar value of `\d` beyond ASCII, and lowercasings that change length.
- The fields of `IngestResult` other than the stored state and the count of attachments without bytes.
- Ties between a sender's cases with the same latest activity, which the query leaves open: the later case is taken.
- The embedding that an object upload may add, and the display id's use.
- The table that decides whether a value is concrete: any predicate.
- Grounding of a fault in the customer's words: a parameter of the elicitation state.
- The emotion history, its window and the tenant's policy: one parameter of a run of the rules stage.
- Corrections of values in review, which recompute the decision in the request and not by a job, and the backfill queue.
- Tokens.ParseInvertsPrint: reads plain and dashed hexadecimal, not the other spellings that Python's UUID accepts; payload bytes outside ASCII are refused.
