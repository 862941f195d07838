# A verified model of the department research pipeline

Departments research a company task by task. In each department a Lead owns five tools:
research a task, review the result, ask for better queries, let the Judge decide, and finalize
the package. A language model picks which tool is called next. This project models what the
tools do to the shared run state and proves what holds whatever the model picks and whatever
the workers return, including failures. Around that core it models the Critic's rules and the
Judge's gate, the payload algebra the workers use, ranked selection of contacts, the cached
query collector, the long-term pattern store with the consolidation that feeds it, the
admission gate of the Supervisor, and the cost ledger.

## How it is laid out

| file | content |
|---|---|
| `Text`, `Json`, `Dedup`, `Counting`, `Ranking`, `Selection`, `Rounding` | strings, JSON values, and the generic algorithms used below |
| `Payload` | recursive merge, stripping of defaults, and both seen through a dotted path |
| `Critic`, `Judge`, `QualityOrder` | rules and reviews, the outcome gate, and their monotonicity |
| `Contracts`, `PolicyGate` | the records of a run and the department policy gate |
| `Lead` | the five tools as one transition function over the run state |
| `ToolCalls`, `Packages` | what one tool call does, answer by answer; what a package contains |
| `LeadRuns`, `Finalization`, `Builders`, `Dependencies`, `WorkerCalls`, `Staleness` | what every run keeps; progress and finality of finalizing; the two package builders compared; effects of dependencies; how often a worker is called; when a decision speaks about the latest artifact |
| `DepartmentLead` | the tools as they update the run state in place, proved to follow `Lead` |
| `Supervisor` | admission of packages, alone and behind the Lead |
| `Contacts`, `WebSearch`, `PatternStore`, `Consolidation`, `Emission`, `CostLedger` | the remaining components; `Emission` says which patterns a run yields |

A run is a list of tool calls (`Lead.Action`). Each research or finalize call carries the
worker's report or a failure, and each suggestion its result. `LeadRuns.Reached` is the state
after such a list. Lemmas that ask for `Inv(c, s)` apply to every reachable state by
`LeadRuns.ReachedInv`. Loops in the source are loops here. They are proved equal to a function,
and the laws are proved about that function. What such a function yields is also said without it, over
the records, sets of indices and texts it works on (the lemmas named `…Exactly` and `…Meaning`).

## Where the code and its own description part ways

- The Judge never rejects. When no core rule passed it closes the task with status "degraded"
  (`Judge.DecideMeaning`).
- Storing a review drops the messages of its failed rules. The Judge's verdict on a stored
  review therefore never carries an open question, although the same verdict on the review
  itself does (`Builders.StoredReviewSilencesJudge`).
- The two package builders do not always agree. A task reviewed and then researched again
  without a new review can be accepted by one and degraded by the other
  (`Builders.BuildersCanDisagree`). The exact condition is `Builders.BuildersAgreeExactly`.
  Without a core rule they can disagree even on a current review (`Builders.CurrentWithoutCoreExactly`).
- For the same reason the Judge can accept an attempt on the review of an older one
  (`Builders.AcceptanceCanBeStale`). It is right about the latest artifact exactly when the
  latest review agrees with it on the core rules (`Staleness.JudgesLatestExactly`).
- A recorded decision outlives what it was about: a task blocked once, then researched and
  approved, is still reported as blocked by both builders (`Staleness.ApprovedStaysBlocked`, with
  a run in `Staleness.ApprovedCanStayBlocked`). `Staleness.StatusCurrentExactly` says when a
  reported status is current.
- The retry limit limits recorded artifacts, and the attempt counter only from the first artifact
  on, and both only for tasks never recorded as blocked (`LeadRuns.RetryBound`). Beyond that:
  - A worker that keeps raising is called on every request, without end
    (`WorkerCalls.RaisingUnbounded`). So the attempt counter of every assigned task is unbounded
    (`WorkerCalls.AttemptsUnboundedExactly`).
  - Artifacts are unbounded for exactly the tasks that depend on a task of their own department
    (`Dependencies.UnboundedExactly`), because each request before the dependency is satisfied
    records an empty one (`Dependencies.BlockedArtifactsUnbounded`).
  - Once the dependencies of a blocked task are satisfied, every request calls the worker again,
    past the limit and past an approving review, until another decision is recorded
    (`Dependencies.RerunsUnbounded`). So the worker's reports are unbounded for exactly the tasks
    whose dependencies all are other tasks of their department (`WorkerCalls.ReportsUnboundedExactly`).
    The six tasks of the backlog that depend on a task of their department are of this kind.
- Judging a task that was never reviewed closes it as accepted with gaps, even when its only
  artifact is the empty one of a block. Its dependents then count as satisfied
  (`WorkerCalls.JudgedUnreviewedSatisfies`).
- A dependency on another department is skipped by the first check but not by the re-check of a
  blocked task, so a task blocked once is never researched again while that decision is its latest
  (`Dependencies.ForeignDependencyBlocksForGood`). This needs a task with mixed dependencies,
  one inside its department and one outside (`Dependencies.StuckExactly`). No department task of
  the backlog (src/app/use_cases.py:52-231) has both today, so it concerns assignments to come.
- Every blocker of the policy gate is hard. A finalized package with a failing gate is thus
  always refused, and "admitted with policy gaps" cannot happen. A fallback package carries no
  gate and passes (`Supervisor.FinalizedAdmission`, `Supervisor.FallbackAdmission`).
- Deep merge is not associative. `Payload.MergeAssociative` gives the exact condition and
  `Payload.MergeNotAssociative` an input outside it.
- Without a core rule the Critic and Judge are not monotone (`QualityOrder.NotMonotoneWithoutCore`).
  `QualityOrder.DropsWithoutCoreExactly` says when the outcome drops; without reported violations
  it does not (`QualityOrder.MonotoneWithoutViolations`).
- Consolidation is said to use accepted tasks only, but a report with an empty task key counts
  too (`Consolidation.KeylessReportsCount`). Researching a task of the backlog always sets the key
  (src/agents/worker.py:638). A report without one can come from a follow-up, whose research tool
  passes on the key the language model gives without looking it up (src/agents/lead.py:1609-1629),
  or from a restored snapshot of the memory. The promise is kept exactly when such reports change
  no worker's structural queries (`Consolidation.AcceptedOnlyExactly`).
- Stripping defaults keeps null values; `Payload.Clean` says exactly what is removed.

## Model

| member | source | states |
|---|---|---|
| `LeadRuns.StepKeeps` | src/agents/lead.py:485-1360 | no tool call breaks the run invariant: attempt numbers ordered, reviews about recorded artifacts, decisions grounded, retries bounded |
| `LeadRuns.RunKeeps` | src/agents/lead.py:485-1360 | nor does any sequence of tool calls |
| `LeadRuns.ReachedInv` | src/agents/lead.py:485-1360 | the invariant holds after every run from the start |
| `LeadRuns.AcceptanceIsEarned` | src/agents/lead.py:894-956 | in every run each decision is accepted, degraded or blocked, and an accepted one has an artifact, recorded no later than the attempt it names, whose payload passes every core rule (and, if there is none, every rule, with a source), and a favourable review of that artifact, stored by the Critic or made inline |
| `LeadRuns.NoArtifactNoAcceptance` | src/agents/lead.py:894-911 | without an artifact a task has no review and only degraded decisions, however often the Judge is asked |
| `LeadRuns.RetryBound` | src/agents/lead.py:535-611 | as long as no blocked decision was recorded for it, a task gets at most max(1, retries) artifacts, and from its first artifact on its counter stays within max(retries, that attempt) |
| `LeadRuns.IndependentIsNeverBlocked` | src/agents/lead.py:497-530 | no run records a blocked decision for a task without a dependency in its own department |
| `LeadRuns.AttemptsIncrease` | src/agents/lead.py:504-505 | for every task recorded attempt numbers are at least one, strictly increase and never pass the counter |
| `LeadRuns.FieldsSurvive` | src/agents/lead.py:659-677 | no tool call drops a payload field with a non-default value; it changes only to what the worker of that call reports, or where finalizing completes it |
| `LeadRuns.ReportedFieldsWin` | src/agents/lead.py:659-677 | after completed research every field holds the reported value, else the earlier non-default one, else nothing |
| `LeadRuns.AcceptedDeserves` | src/agents/critic.py:236-239 | an approving review, or one the Judge accepts in full or stored form, is about a payload that passes all its core rules |
| `LeadRuns.ResearchKeeps` | src/agents/lead.py:485-719 | research keeps the invariant on each branch: unknown, blocked, still blocked, retry limit, completed, worker failure |
| `LeadRuns.JudgeStepKeeps` | src/agents/lead.py:880-956 | so does judging, with or without artifact and review |
| `LeadRuns.SettleKeeps` | src/agents/lead.py:1054-1194 | the decision finalizing takes for an undecided task is grounded in that task's artifacts |
| `Lead.FindMeaning` | src/agents/lead.py:489-491 | the lookup finds an assignment exactly when one has the key |
| `DepartmentLead.GuardPayload` | src/agents/lead.py:661-677 | the loss-guard loop yields the reported payload plus every lost non-default field except the sources |
| `DepartmentLead.DepartmentRun.StartAttempt` | src/agents/lead.py:611 | the attempt counter goes up by one, nothing else changes |
| `DepartmentLead.DepartmentRun.RecordTaskArtifact` | src/orchestration/contracts.py:417-425 | the artifact joins the end of its task's history, nothing else changes |
| `DepartmentLead.DepartmentRun.RecordReviewArtifact` | src/orchestration/contracts.py:427-435 | the same for a review |
| `DepartmentLead.DepartmentRun.RecordDecisionArtifact` | src/orchestration/contracts.py:437-455 | the same for a decision |
| `DepartmentLead.DepartmentRun.IsDependencySatisfied` | src/orchestration/contracts.py:477-509 | the three-level test equals its declarative meaning on the task's record |
| `DepartmentLead.DepartmentRun.MissingDependency` | src/agents/lead.py:497-502 | the guard loop finds the first unsatisfied dependency of the own department |
| `DepartmentLead.DepartmentRun.AllDependenciesSatisfied` | src/agents/lead.py:549-552 | the re-check asks for all dependencies, foreign ones included |
| `DepartmentLead.DepartmentRun.RecordBlocked` | src/agents/lead.py:503-530 | a missing dependency costs an attempt and leaves an empty artifact and a blocked decision |
| `DepartmentLead.DepartmentRun.RunResearch` | src/agents/lead.py:485-719 | the tool changes the run state and answers exactly as the transition function says |
| `ToolCalls.AnswersExactly` | src/agents/lead.py:489-611 | each answer of the research tool has its exact condition on the record before: blocked, still blocked, retry limit, completed, worker raised, report |
| `ToolCalls.ReportedCall` | src/agents/lead.py:611-657 | a report is recorded as it is, under the next attempt; it asks for the Judge exactly when it has violations, all of high severity |
| `ToolCalls.FailedCall` | src/agents/lead.py:636-640 | a raising worker costs an attempt and leaves an error, nothing else |
| `ToolCalls.BlockedCall` | src/agents/lead.py:503-530 | a missing dependency costs an attempt and leaves an empty artifact and a blocked decision that name it |
| `ToolCalls.RefusedRetry` | src/agents/lead.py:572-595 | a refused retry records one closed, degraded decision with the first non-empty list of the latest review and changes nothing else |
| `ToolCalls.FinishedIsLeftAlone` | src/agents/lead.py:535-609 | asking again for a task that is neither rejected, blocked nor missing a dependency changes nothing, whatever the worker would say |
| `ToolCalls.ApprovedStaysAtRest` | src/agents/lead.py:535-609 | over any run of research, review and suggestion calls an approved task is never handed to the worker and keeps its artifacts, decisions, attempts and the payload |
| `ToolCalls.DependencyMeaning` | src/orchestration/contracts.py:477-509 | what satisfies a dependent: the latest decision if any, else an approving latest review, else a latest artifact with facts |
| `DepartmentLead.DepartmentRun.ReviewResearch` | src/agents/lead.py:731-821 | the same for the review tool, including a Critic that raises |
| `ToolCalls.ReviewExactly` | src/agents/lead.py:738-794 | the recorded review agrees field by field with the Critic's review of the latest artifact, under that artifact's attempt |
| `DepartmentLead.DepartmentRun.SuggestRefinedQueries` | src/agents/lead.py:823-878 | the same for query suggestions, failed or invalid ones included |
| `ToolCalls.SuggestExactly` | src/agents/lead.py:823-878 | suggested queries replace the task's earlier ones and touch no record |
| `DepartmentLead.DepartmentRun.JudgeDecision` | src/agents/lead.py:880-956 | the same for the Judge tool, which makes up a review when there is none |
| `ToolCalls.JudgeExactly` | src/agents/lead.py:894-956 | one decision is recorded: the verdict on the latest review's counts and issues, under the latest attempt; a missing review is made up without counts |
| `ToolCalls.JudgedTooEarly` | src/agents/lead.py:894-911 | without an artifact the task is closed as degraded |
| `DepartmentLead.DepartmentRun.IncompleteTasks` | src/agents/lead.py:973-978 | the tasks with neither artifact nor decision, in order |
| `DepartmentLead.DepartmentRun.SettleTask` | src/agents/lead.py:1054-1194 | one turn of the assembly loop with its five branches: the task's entry and the decision recorded |
| `DepartmentLead.DepartmentRun.AssemblePackage` | src/agents/lead.py:1046-1248 | the whole loop, the confidence and the gate; when the Critic raises, earlier decisions stay |
| `LeadRuns.CompletionKeeps` | src/agents/lead.py:1266-1277 | completing the payload removes no field, changes or adds only the classification and an unset product scope, and happens in the company department alone |
| `DepartmentLead.DepartmentRun.FinalizePackage` | src/agents/lead.py:958-1360 | refusal, auto-recovery and assembly, as the transition function says |
| `ToolCalls.RefusedFinalize` | src/agents/lead.py:973-1044 | the first premature finalize is refused with the list of missing tasks |
| `ToolCalls.RecoveringFinalize` | src/agents/lead.py:988-1035 | later ones research the first missing task instead |
| `Packages.LineExactly` | src/agents/lead.py:1069-1237 | a line shows the latest artifact's sources and the points of the latest review or of one made on the spot; an undecided task gets one decision, by the Lead exactly when the review approves and no violation asks for the Judge |
| `Packages.FallbackLineExactly` | src/agents/lead.py:2197-2222 | the same for the fallback builder |
| `Packages.LeadIsConfident` | src/orchestration/contracts.py:355-367 | the Lead's acceptance of an approved review always has high confidence |
| `Packages.SourcesMeaning` | src/agents/lead.py:1206 | a package's sources are those of its lines, one after the other |
| `Packages.CompletionWrites` | src/agents/lead.py:1266-1277 | the company department's payload gets the classification of the payload as it was, and a missing scope from the known products |
| `Packages.FallbackCompletion` | src/agents/lead.py:2262-2270 | the fallback payload differs in an unset scope only |
| `Packages.FinalizedGateExactly` | src/agents/lead.py:1308-1315 | the package's gate passes exactly when each required path holds something and the numbers of sources, primary sources and finished tasks, and an accepted task if demanded, are there |
| `DepartmentLead.DepartmentRun.BuildFallbackPackage` | src/agents/lead.py:2176-2299 | the fallback builder records no decision and changes only the payload's missing scope |
| `Finalization.StepExtends` | src/orchestration/contracts.py:417-455 | no tool ever removes or rewrites a recorded artifact, review or decision |
| `Finalization.IncompleteMeaning` | src/agents/lead.py:973-978 | a key is incomplete exactly when it is assigned and has neither artifact nor decision |
| `Finalization.IncompleteNeverGrows` | src/agents/lead.py:973-1044 | no tool call adds to the incomplete tasks |
| `Finalization.RecoveryRemovesOne` | src/agents/lead.py:988-1035 | auto-recovery takes exactly the first incomplete task off the list, even a blocked one |
| `Finalization.FinalizationProgress` | src/agents/lead.py:973-1044 | with workers that report, as many finalize calls as there are incomplete tasks plus one, and one more if none was refused yet, end in a package, whatever else is called in between |
| `Finalization.ProgressFromStart` | src/agents/lead.py:973-1044 | so n tasks need at most n + 2 finalize calls from the start |
| `Finalization.ProgressBoundIsTight` | src/agents/lead.py:973-1044 | a Lead that only finalizes is not done with fewer calls than that count |
| `Finalization.FinalizedIsSettled` | src/agents/lead.py:1054-1204 | after a successful finalize every assigned task has a decision and its entry shows the latest one; the branch without research is not taken |
| `Finalization.FinalizeAgain` | src/agents/lead.py:1054-1248 | a second finalize records nothing and repeats all statuses and the confidence |
| `Finalization.ConfidenceMeaning` | src/agents/lead.py:1239-1248 | package confidence is high exactly when there are tasks and all are accepted, low exactly when none is accepted or degraded |
| `Builders.ReportDoesNotCount` | src/agents/critic.py:171-239 | approval, points and class counts do not depend on the worker's report when there is a core rule |
| `Builders.StoredReviewSilencesJudge` | src/orchestration/contracts.py:249-297 | the stored form of a review leads to the same verdict but loses its open questions, which otherwise are present exactly when a core rule fails |
| `Builders.SameStatusExactly` | src/agents/lead.py:1083-1194 | the builders agree on a task's status exactly when the stored review and the latest artifact lead to the same verdict, with or without core rules |
| `Builders.CurrentWithoutCoreExactly` | src/agents/lead.py:1103-1134 | without a core rule they disagree on a current review exactly when the artifact is faultless but for contract violations and these ask for the Judge or there is no rule |
| `Builders.SameEntry` | src/agents/lead.py:2191-2229 | with a review of the latest artifact both builders give a task the same status, points and sources, or both raise |
| `Builders.BuildersAgree` | src/agents/lead.py:2176-2279 | over whole packages: same entries and same confidence, or both raise |
| `Builders.BuildersAgreeInRuns` | src/agents/lead.py:2176-2279 | in particular after any run |
| `Builders.BuildersAgreeExactly` | src/agents/lead.py:2176-2279 | without assuming current reviews or core rules: same statuses exactly when every stored review of an undecided task leads to the verdict of its latest artifact |
| `Builders.BuildersCanDisagree` | src/agents/lead.py:1083-1159 | a run of three calls after which the builders give a task different statuses |
| `Builders.CurrentReviewJudgesLatest` | src/agents/lead.py:913-956 | what the Judge accepts on a review of the latest attempt is that attempt, and it passes its core rules |
| `Staleness.CoreStatusMeaning` | src/agents/judge.py:115-156 | with a core rule, Critic and Judge accept an artifact exactly when all core rules pass on it |
| `Staleness.JudgeStepStatus` | src/agents/lead.py:894-956 | the Judge accepts a researched task exactly on a Critic's review in which all core rules passed, whichever artifact it was about, and names the latest attempt |
| `Staleness.JudgesLatestExactly` | src/agents/lead.py:913-956 | it is right about the latest artifact exactly when the latest review is a passed one of the Critic just if that artifact passes its core rules |
| `Staleness.CurrentReviewAgrees` | src/agents/lead.py:731-762 | a Critic's review that bears the latest attempt always agrees with the latest artifact |
| `Staleness.DecisionStands` | src/agents/lead.py:1078-1088 | both builders report a recorded decision, whatever was researched or reviewed after it |
| `Staleness.StatusCurrentExactly` | src/agents/lead.py:1069-1194 | for an undecided task the fallback status is what Critic and Judge say about the latest artifact, and the finalized one exactly when the stored review has that verdict; a decided task shows its decision, which is right when fresh and never right when blocked |
| `Staleness.FreshIsCurrent` | src/agents/lead.py:913-956 | a decision of Lead or Judge that names the latest attempt, while all reviews are the Critic's and bear it too, is what Critic and Judge say about the latest artifact |
| `Staleness.JudgedShowsLatest` | src/agents/lead.py:880-956 | right after the Judge decided, both packages are right about the latest artifact exactly when the review it read agrees with it |
| `Staleness.ApprovedStaysBlocked` | src/agents/lead.py:1078-1088 | a task once blocked, then researched and approved, is still reported as blocked by both builders |
| `Staleness.ApprovedStaysBlockedFromStart` | src/agents/lead.py:485-821 | as one run of four calls from the start |
| `Staleness.ApprovedCanStayBlocked` | src/agents/lead.py:485-821 | a concrete department and run in which it happens |
| `Builders.AcceptanceCanBeStale` | src/agents/lead.py:913-956 | a run after which the Judge accepts an attempt that fails a core rule, on the review of an older one |
| `Dependencies.BlockedArtifactsUnbounded` | src/agents/lead.py:502-530 | n requests for a task with a missing dependency record n empty artifacts, for every n |
| `Dependencies.UnboundedExactly` | src/agents/lead.py:494-611 | the artifacts of a task are unbounded over all runs exactly when it depends on a task of its own department |
| `Dependencies.BlockableExactly` | src/agents/lead.py:497-530 | a blocked decision is ever the latest one exactly for those tasks |
| `Dependencies.RecheckExactly` | src/agents/lead.py:541-611 | a blocked task is handed to the worker exactly when all its dependencies, of whatever department, are satisfied; attempts and reviews do not matter |
| `Dependencies.RerunsUnbounded` | src/agents/lead.py:548-611 | once blocked and with its dependencies satisfied, a task gets an artifact from the worker on every request, with reviews in between, and stays in that state |
| `Dependencies.BecomesRerunnable` | src/agents/lead.py:497-559 | any task with one dependency that itself depends on no task of the department reaches that state in two calls |
| `Dependencies.WorkerCallsUnbounded` | src/agents/lead.py:485-719 | so from the start the worker is called for such a task as often as the Lead asks |
| `WorkerCalls.RaisingUnbounded` | src/agents/lead.py:535-640 | n requests to a worker that raises cost n attempts and record nothing, for every n |
| `WorkerCalls.AttemptsUnboundedExactly` | src/agents/lead.py:489-611 | the attempt counter is unbounded over all runs exactly for assigned tasks |
| `WorkerCalls.HandedWithinBudget` | src/agents/lead.py:535-611 | a task that can never be rerun after a block gets at most one report plus its unused retries, auto-recovery included |
| `WorkerCalls.JudgedUnreviewedSatisfies` | src/agents/lead.py:913-956 | asking for a task and judging it unreviewed satisfies its dependents, blocked or not |
| `WorkerCalls.ReportsUnboundedExactly` | src/agents/lead.py:485-719 | the worker's reports on a task are unbounded over all runs exactly when its dependencies are all other tasks of its department; otherwise they stay within one more than the retry limit |
| `Dependencies.RunLeavesForeign` | src/agents/lead.py:485-1360 | no run records anything about a task of another department |
| `Dependencies.ForeignDependencyBlocksForGood` | src/agents/lead.py:494-563 | once blocked, a task that depends on another department is never handed to the worker while that decision is its latest |
| `Dependencies.StuckExactly` | src/agents/lead.py:494-563 | that happens exactly to tasks with a dependency inside the department and one outside, and it does when such a task is asked for first |
| `Critic.ResolveField` | src/agents/critic.py:38-45 | the cursor loop reads the value at the dotted path, null when a step is impossible |
| `Text.SplitMeaning` | src/agents/critic.py:41 | splitting a path cuts at every dot, and the parts join to the path again |
| `Critic.ResolveNested` | src/agents/critic.py:38-45 | reading a dotted path reads its rest in the dictionary at its first step, and is null without one |
| `Critic.CheckNestedFieldNonPlaceholder` | src/agents/critic.py:71-83 | the early-exit count holds exactly when at least the threshold, and at least one, of the items have the sub-field |
| `Critic.EvaluateRule` | src/agents/critic.py:86-103 | the verdict of a rule; unknown checks fail |
| `Critic.RuleMeaning` | src/agents/critic.py:48-103 | each check said on the value at the rule's path, with lengths and numbers of items |
| `Text.TrimMeaning` | src/agents/critic.py:48-68 | trimming takes off spaces at both ends and nothing else |
| `Critic.RunReview` | src/agents/critic.py:141-308 | the pass with running counters yields exactly the review of the rules and payload; it raises exactly when the sources cannot be read |
| `Critic.ReviewMeaning` | src/agents/critic.py:171-275 | the counts are numbers of rules by class and verdict, and the missing points are the rejected ones and the missing source, without repetition |
| `Critic.PointsMeaning` | src/agents/critic.py:188-196 | points name the rules that pass or fail, messages come from failed rules, those for the Judge from core ones |
| `Critic.EvidenceStrength` | src/agents/critic.py:203-207 | the counting loop yields the strength of the evidence |
| `Critic.EvidenceMeaning` | src/agents/critic.py:203-207 | strong means two sources from outside the company, weak none at all |
| `Critic.CountsMeaning` | src/agents/critic.py:171-186 | passed never exceeds total, and equals it exactly when every rule of the class passes |
| `Critic.ApprovalMeaning` | src/agents/critic.py:236-239 | approved exactly when every rule passes and a source is recorded; without rules, when there is nothing to object to |
| `Judge.DecideMeaning` | src/agents/judge.py:64-156 | accepted exactly when all core rules passed (or, without any, no issue exists), closed unresolved exactly when none passed; never blocked or rejected; status, confidence and open questions follow |
| `QualityOrder.LeqTransitive` | src/agents/critic.py:38-83 | the information order on payloads is transitive |
| `QualityOrder.RuleMonotone` | src/agents/critic.py:38-103 | a rule that passes keeps passing when the payload gains information, for every threshold |
| `QualityOrder.CountsMonotone` | src/agents/critic.py:171-186 | so no class count drops |
| `QualityOrder.JudgedMonotone` | src/agents/judge.py:115-156 | with a core rule, neither the Judge's outcome nor its confidence drops when the payload gains information |
| `QualityOrder.DropsWithoutCoreExactly` | src/agents/judge.py:96-113 | without a core rule, outcome and confidence drop on a better payload exactly when there was nothing to object to before and then a violation is reported or the source is gone, which only string sources can be |
| `QualityOrder.MonotoneWithoutViolations` | src/agents/judge.py:96-156 | without reported violations nothing drops, with or without core rules |
| `QualityOrder.NotMonotoneWithoutCore` | src/agents/judge.py:96-113 | a concrete drop, on the very same payload |
| `QualityOrder.RuleFrame` | src/agents/critic.py:86-103 | a rule on a field the updates do not touch keeps its verdict after a merge; on a leaf of the updates it has the updates' verdict |
| `QualityOrder.StrippingAddsNoPass` | src/agents/worker.py:1683-1701 | stripping defaults never makes a rule pass |
| `Payload.DeepMerge` | src/agents/_helpers.py:516-523 | the merge loop computes the recursive merge, key by key |
| `Payload.MergeIdentity` | src/agents/_helpers.py:516-523 | the empty dictionary is a two-sided identity |
| `Payload.MergeIdempotent` | src/agents/_helpers.py:516-523 | merging the same updates twice is merging them once |
| `Payload.MergeAbsorbs` | src/agents/_helpers.py:516-523 | merging over an older dictionary gives the newer back exactly when the newer covers it |
| `Payload.MergeAssociative` | src/agents/_helpers.py:516-523 | regrouping two merges is harmless exactly for regroupable operands |
| `Payload.SameShapeRegroups` | src/agents/_helpers.py:516-523 | operands that agree on dictionary versus non-dictionary at each shared path are regroupable |
| `Payload.MergeNotAssociative` | src/agents/_helpers.py:516-523 | three payload fragments for which regrouping changes the result |
| `Payload.MergeFrame` | src/agents/_helpers.py:516-523 | the merge read at any path: base value where untouched, the updates' leaf, null below a leaf, merged dictionaries otherwise |
| `Payload.StripDefaultOnlyPayload` | src/agents/worker.py:1683-1701 | the stripping loop computes the recursive stripping |
| `Payload.StripCleans` | src/agents/worker.py:1683-1701 | no placeholder string, empty list or empty dictionary is left at any dictionary-nested depth |
| `Payload.StripFixedPoints` | src/agents/worker.py:1683-1701 | the clean payloads are exactly the fixed points of stripping |
| `Payload.StripIdempotent` | src/agents/worker.py:1683-1701 | stripping twice is stripping once |
| `Payload.StripMergesBack` | src/agents/worker.py:1683-1701 | merging the stripped copy over the original, or the other way round, gives the original |
| `Payload.StripFrame` | src/agents/worker.py:1683-1701 | every non-default leaf is found where it was, everything else reads null |
| `Dedup.DedupSafe` | src/utils.py:12-29 | the loop keeps the items whose rendered text is new |
| `Dedup.DistinctTextsMeaning` | src/utils.py:12-29 | every text of the input is kept exactly once, carried by its first item |
| `PolicyGate.GateMeaning` | src/orchestration/department_knowledge.py:455-576 | the gate fails exactly when it has a blocker, every blocker is hard, and a policy that demands an accepted task fails without one |
| `PolicyGate.GateExactly` | src/orchestration/department_knowledge.py:465-576 | each blocker has its exact condition, counted over the sources and statuses themselves, and the gate passes exactly when none applies |
| `PolicyGate.PresentMeaning` | src/orchestration/department_knowledge.py:428-441 | a value is present exactly when something solid occurs in it at any depth |
| `Supervisor.HasSubstantiveContent` | src/agents/supervisor.py:395-416 | the search loop with its breaks finds content exactly when some key has it |
| `Supervisor.SubstantiveExactly` | src/agents/supervisor.py:395-416 | what counts as content, said over the payload's keys and values |
| `Supervisor.AcceptDepartmentPackage` | src/agents/supervisor.py:380-476 | the decision chain computes the intended admission |
| `Supervisor.FinalizedStatuses` | src/agents/lead.py:1054-1237 | a finalized package shows only accepted, degraded and blocked tasks |
| `Supervisor.FallbackStatuses` | src/agents/lead.py:2191-2260 | so does a fallback package |
| `Supervisor.MatrixNeverPending` | src/agents/lead.py:2109-2115 | no answer-matrix update of a finalized package is pending; a question is answered exactly when its task's latest decision accepts it |
| `Supervisor.LeadPackageAdmission` | src/agents/supervisor.py:434-466 | for the Lead's packages "all tasks failed" is unreachable, and each decision has its exact condition |
| `Supervisor.FinalizedAdmission` | src/agents/supervisor.py:423-466 | a finalized package is refused exactly without content or with a failing gate |
| `Supervisor.FallbackAdmission` | src/agents/supervisor.py:385-386 | a fallback package is refused exactly without content |
| `Supervisor.AdmittedIsEarned` | src/agents/supervisor.py:434-444 | what is admitted outright contains a task whose latest decision accepts it and is earned by one of its artifacts |
| `Ranking.RankSorts` | src/agents/_helpers.py:972 | the sort orders the same records by score descending, then name |
| `Ranking.RankStable` | src/agents/_helpers.py:972 | and is stable |
| `Ranking.TopIsTop` | src/agents/_helpers.py:972-973 | nothing left out by the cut-off ranks strictly ahead of anything kept |
| `Selection.SelectAgain` | src/agents/_helpers.py:882-973 | fill, filter, score, sort and cut is a projection whenever filling is idempotent and keeps identity |
| `Selection.SelectMeaning` | src/agents/_helpers.py:882-973 | the result is unique by key, ranked, and the true top of the surviving candidates |
| `Selection.CandidacyExactly` | src/agents/_helpers.py:885-928 | the candidates are exactly the identified records, first of their key, whose filled form survives |
| `Ranking.AheadMeaning` | src/agents/_helpers.py:972 | higher score first, then the name that is a prefix or smaller at the first difference |
| `Contacts.CoerceContactRecords` | src/agents/_helpers.py:179-194 | the loop normalizes dictionaries, completes plain names and drops anything else |
| `Contacts.PickMeaning` | src/agents/_helpers.py:155-160 | a field takes the first usable value, trimmed, or its default when there is none |
| `Contacts.FillKeeps` | src/agents/_helpers.py:899-913 | inferring missing metadata never overwrites what a contact already says, and infers the rest from role and function |
| `Contacts.OutputQualifies` | src/agents/_helpers.py:888-928 | every contact in the output is a plausible person with a (preferred) firm, has a role or function, a usable source and sufficient verification, outside target-company mode also a relevant path, asset fit and no weak role, and nothing left to infer |
| `Contacts.PrioritizeContactRecords` | src/agents/_helpers.py:873-973 | the loop with its seen set, the sort and the cut compute the selection |
| `Contacts.PrioritizeIsProjection` | src/agents/worker.py:377-382 | applied to its own output it returns that output, and with a smaller limit its prefix |
| `Contacts.CandidatesExactly` | src/agents/_helpers.py:885-970 | the ranked candidates are exactly the named persons with a firm that no earlier one matches in name and firm up to case and that pass every filter once filled |
| `Contacts.PrioritizedMeaning` | src/agents/_helpers.py:873-973 | no two outputs agree on name and firm up to case; ordered by score then name, the true top of all survivors |
| `WebSearch.UniqueMeaning` | src/agents/worker.py:1081-1092 | deduplication keeps every non-blank URL exactly once |
| `WebSearch.UniqueKeepsFirsts` | src/agents/worker.py:1081-1092 | each record is the first result with its URL, unchanged but for the trimmed URL |
| `WebSearch.CacheGrows` | src/agents/worker.py:1074-1080 | cached answers never change, and the call count is the number of newly cached queries |
| `WebSearch.FetchMeaning` | src/agents/worker.py:1074-1080 | a miss asks once, and once more on an empty answer, and caches the last answer |
| `WebSearch.QueriesAsked` | src/agents/worker.py:1071-1080 | blank queries are never asked, and all others are unless the list is full |
| `WebSearch.SearchRefines` | src/agents/worker.py:1071-1095 | despite the early return the result is the first records of all cached batches, deduplicated |
| `WebSearch.SearchReplays` | src/agents/worker.py:1074-1095 | repeating the call gives the same list with no search, even from an engine that answers differently |
| `WebSearch.SearchWorker.SearchQueries` | src/agents/worker.py:1068-1095 | the nested loops over the cache field compute the collector |
| `WebSearch.SearchWorker.SearchForTask` | src/agents/worker.py:1056-1095 | with the task's limits, and nothing at all when searching is not allowed |
| `PatternStore.GuardMeaning` | src/memory/long_term_store.py:124-145 | the policy guard objects exactly when some nested string is unsafe or some nested dictionary has a sensitive key with a value |
| `PatternStore.SafeMeaning` | src/memory/long_term_store.py:96-104 | what may enter the store, said over everything nested in the pattern |
| `PatternStore.LongTermStore.UpsertStrategy` | src/memory/long_term_store.py:95-122 | the stored list and the answer after an upsert |
| `PatternStore.UpsertMeaning` | src/memory/long_term_store.py:95-122 | it takes effect exactly when the pattern is safe and new, or reaches nine tenths of the stored score; otherwise nothing changes, and other names never change |
| `PatternStore.UpsertAllKeeps` | src/memory/long_term_store.py:95-122 | every sequence of upserts keeps names unique and every stored pattern safe |
| `PatternStore.DecayBound` | src/memory/long_term_store.py:111-120 | k offers of a name leave its stored score at least 0.9 to the k times what it was |
| `PatternStore.LastWriterWins` | src/memory/long_term_store.py:105-122 | when scores follow names the store maps each name to its latest offer, in the order of first insertion |
| `PatternStore.LongTermStore.Retrieve` | src/memory/long_term_store.py:62-93 | the scoring pass, sort and cut compute the top hits |
| `PatternStore.ScoreMeaning` | src/memory/long_term_store.py:74-87 | the bonus of each agreement, and when the filters let a pattern through |
| `PatternStore.HitMeaning` | src/memory/long_term_store.py:84-93 | a hit is the stored pattern with its score rounded, at most half a hundredth off, and ranked by the exact score and by name |
| `PatternStore.RetrieveMeaning` | src/memory/long_term_store.py:62-93 | at most the limit, all eligible, by exact score then name, nothing better left out, and the rounded scores do not increase either |
| `Consolidation.ToStructuralPatterns` | src/memory/consolidation.py:108-117 | the loop scrubs, tests and deduplicates |
| `Consolidation.StructuralMeaning` | src/memory/consolidation.py:108-117 | exactly the safe scrubbed queries, each once |
| `Consolidation.GroupQueries` | src/memory/consolidation.py:320-329 | queries grouped by worker in order of first appearance, those of unaccepted tasks left out |
| `Consolidation.ConsolidateRolePatterns` | src/memory/consolidation.py:269-672 | the loops and early returns emit exactly the specified patterns |
| `Emission.TasksExactly` | src/memory/consolidation.py:359-535 | for an accepted task each kind of pattern is written exactly when a report has a safe query, a source, a packet, or something for a recipe, or the review approves |
| `Emission.RunPatternsExactly` | src/memory/consolidation.py:537-672 | a full run writes a critic's or a department's pattern exactly on a reviewed accepted task, escalations, coding interventions, or a retry reason that survives scrubbing |
| `Emission.WorkersExactly` | src/memory/consolidation.py:320-357 | a full run writes a query pattern for exactly the workers with a safe query |
| `Emission.WorkerQueriesExactly` | src/memory/consolidation.py:320-357 | it holds exactly the safe scrubbed queries of that worker's reports on accepted tasks or on none, each once |
| `Emission.ConsolidatedNamed` | src/memory/consolidation.py:366-370 | a task's pattern is named after the task and the role that its last report gives |
| `Consolidation.ConsolidatedGrounded` | src/memory/consolidation.py:302-366 | nothing is emitted for a task that was not accepted, every query written out is a safe scrubbed one of an accepted task or of none, and a run refused for its status, its usability or its lack of accepted tasks contributes nothing |
| `Consolidation.AcceptedOnlyExactly` | src/memory/consolidation.py:302-357 | the patterns are those drawn from accepted tasks alone exactly when the run is not a full one or the reports without a task key change no worker's structural queries |
| `Consolidation.NoStrayQueryKeepsPromise` | src/memory/consolidation.py:320-329 | in particular when no such report has a query that passes the safety test |
| `Consolidation.KeylessReportsCount` | src/memory/consolidation.py:320-329 | a concrete run without accepted tasks in which such a report yields a pattern |
| `Consolidation.SuffixesExclude` | src/memory/consolidation.py:337-661 | no name ends like two kinds of pattern |
| `Consolidation.ScoreFollowsName` | src/memory/consolidation.py:337-661 | so the score of an emitted pattern is a function of its name |
| `Consolidation.UnsafeOffersVanish` | src/memory/long_term_store.py:96-104 | refused offers leave no trace in the store |
| `Consolidation.StoreAfterRuns` | src/memory/long_term_store.py:105-122 | after any sequence of runs from an empty store, each with its own scrub terms and its own written patterns, each name holds the latest safe pattern offered under it |
| `CostLedger.EstimateMeaning` | src/config/pricing.py:42-49 | an estimate is within half a unit of the exact cost for any price, not negative unless a price is, and zero for an unknown model |
| `CostLedger.PriceMeaning` | src/config/pricing.py:47-48 | prompt tokens cost the input price and completion tokens the output price, per million |
| `CostLedger.SummarizeWorkerReportCosts` | src/config/pricing.py:78-141 | the loop with its repeated rounding equals the summary without any rounding of sums |
| `CostLedger.SummaryOnGrid` | src/config/pricing.py:111-135 | because every cost in the ledger is a whole number of ten-decimal units |
| `CostLedger.LedgerConserves` | src/config/pricing.py:87-135 | tokens and cost summed over models, over agents, and over each agent's models all equal the totals |
| `CostLedger.TotalsMeaning` | src/config/pricing.py:89-104 | the token totals are the plain sums over the reports, a missing total counting as its two parts |
| `CostLedger.ChargeMeaning` | src/config/pricing.py:88-100 | what one report adds, and to which buckets |
| `CostLedger.BucketsMeaning` | src/config/pricing.py:107-129 | each bucket holds exactly the charges of its own reports |
| `Rounding.RoundToMonotone` | src/memory/long_term_store.py:90 | rounding never reverses an order |
| `Rounding.RoundToGrid` | src/config/pricing.py:49 | rounding lands on the grid and leaves grid points alone |
| `Rounding.TieToEven` | src/config/pricing.py:49 | a tie goes to the even neighbour |

## Left out

- The group chat, speaker selection, prompts, model calls, web search and page fetch: a tool
  call, a worker report or a failure, and a search answer are arbitrary inputs here.
- `run_followup`, synthesis, report writing and the pipeline runner: single-shot prompt and
  sequencing code.
- Memory-store notifications, step events, usage records, logging, the assurance record and the
  flat views kept for older callers: they feed neither a status nor the payload.
- The wording of issues and open questions: they are structured notes here. Points are the rule
  names the code uses.
- Package open questions, gap candidates, evidence packets, the text of answer-matrix updates and
  the report segment: collected per task without further decisions.
- HTML escaping of package text, and the check of the assembled package against its schema: the
  admission results hold for whatever payload arrives at the Supervisor.
- Critic.RunReview: leaves out the method issue, memory guidance, coding brief and feedback lists of a
  review; they steer prompts and the worker, and no status, count or payload depends on them.
- An exception inside the evaluation of a single rule, which counts as a failed rule: rules have
  integer thresholds and text fields here, and their evaluation cannot fail.
- Schema validation of payloads and of query overrides: its verdict is an input.
- The keyword classification of goods, the listing of pending products, and the text, name,
  source and scoring heuristics on contacts: deterministic functions left open.
- `_fetch_supporting_pages` and `_merge_sources`: the same cache and deduplication pattern as the
  query collector, with page text on top.
- The order of keys in a dictionary: loops over dictionaries visit keys in an arbitrary order,
  and nothing here depends on it.
- Accepted key names of contact fields: a contact arrives as the values found under the accepted
  names, in the order in which they are tried.
- Reading, writing and locking the store's file, and stored entries of unexpected type: the store
  is the list it holds.
- The rest of a consolidated pattern (memory scope, industry, run id, counts, rationale): each run
  renders each of its patterns by an arbitrary function of its own; the role mapping and scrubbing
  are functions of the run as well.
- Prices from the table and the environment: a price list is an input.
- Floating point: scores and costs are exact reals. A binary sum of rounded costs may differ from
  its decimal value before it is rounded.
- Finalization.RecoveryRemovesOne: asks for distinct task keys, as the task backlog has; with a
  repeated key more than one entry would leave the list.
- Finalization.ProgressBoundIsTight: asks for distinct task keys for the same reason.
- Finalization.FinalizationProgress: asks that reported sources can be looped over, as the worker's
  output schema ensures; otherwise the Critic raises while the package is assembled.
- Builders.BuildersAgree: asks for distinct task keys and for a core rule per task, as every
  department task of the backlog has. The section payloads are not compared: only finalizing
  classifies goods, and the fallback builder fills in a missing product scope for every department.
- PatternStore.DecayBound: asks for a non-negative stored score; for a negative one, decay
  raises the bar.
- PatternStore.LongTermStore.Retrieve: the limit is not negative.
- Contacts.PrioritizeContactRecords: the limit is not negative, and list items are dictionaries,
  text or ignored.
