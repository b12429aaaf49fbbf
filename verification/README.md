# Pricewatch: scheduler, matching and sync

A Dafny model of the three parts of Pricewatch whose correctness is spread over several
modules, with proofs of what they keep. `dafny verify dfyconfig.toml` checks everything.

**Scrape scheduler, workers, retries.** A table of jobs and a table of runs are changed by a
scheduler tick, by manual enqueue and job edits, and by any number of workers that claim a
run under a row lock and commit its outcome.

- `Schedules`, `ScrapeDb`, `SchedulerSpec`, `WorkerSpec` say what each operation does to the
  tables; `Sessions` holds the operations as the program has them, methods over the fields
  of a session, each proved equal to its specification, and said again in columns.
- `StepLaws` says in columns what happens to one due job and to one retry candidate, `Reports` that
  a tick's report accounts for all it did. These laws, and the others in columns below, spell out
  columns and constants, so that they say the same whatever the specification functions say.
- `Protocol` is the whole system as a transition system. A tick is a transaction of many
  steps, and workers may claim, commit or roll back between any two of them. A claimed run is
  still `queued` for everybody else until its worker commits. An overlap check may use data
  that is out of date in one direction only: it may still count a run that a worker has just
  finished (`stale`). Enqueuers and admin writes come one at a time.
- `Invariants` holds what every reachable state satisfies and what a step can change, `Causes`
  that every run was added by a step that had reason to.
  `Retries`, `Overlap`, `Workers`, `Fifo`, `Termination`, `Backlog`, `Throughput` and
  `Starvation` hold the theorems over whole runs of the system, `Draining` those over series of uninterrupted ticks
  and their reports. `Refinement` shows that the program's ticks, manual enqueues, edits and
  worker iterations, one after the other, are a run of the transition system.

**Comparison and matching.** Reference products are matched with target products by score,
the result is classified, and operators confirm or reject pairs.

- `PairScores` and `Matching` model the scorer and the matcher over prepared records;
  `Selection` says what is selected without mentioning sorting, pools or loops, `RowLaws` which
  targets a reference is held against and what its rows say.
- `Mappings` models the decision routes over the mapping table; `MappingLaws` proves what every
  history of requests keeps, `RequestLaws` what each request replies and writes.
- `Comparisons` models the comparison itself; `Partition`, `Accounting` and `Decisions` prove
  where each product ends up and how decisions and comparisons fit together, `SectionLaws` what
  each entry says and in which order they come.

**Sync.** `PriceLog` models the product upsert with its price history, `ProductSync` the
product loop with its counters and diagnostics, `AutoLink` the category auto-link.

Taken as parameters: the URL join, the step of the cron library in a schedule's zone, the jitter draw, the
clock, the runners' outcomes, the fuzzy ratio (any value in 0..100), the fuzzy shortlist (any
choice of distinct pool positions, as many as the limit allows), the series dictionary, the
substring search and the fields of a feed's records other than their URLs. Times are integer seconds, prices
integers in 1/10000, scores and confidences reals.

## What the code does that its documentation does not say

- `docs/domain/comparison_and_matching.md` (line 105) scores a goalie product against another
  one as impossible. The code lets the pair through when neither product type is known:
  `PairScores.GoalieConflictNeedsType` gives the exact condition, and by
  `PairScores.GoalieConflictCanPass` two such titles score what the fuzzy ratio says of them.
- A target without a brand enters the matcher's fallback pool twice (normalize.py, lines
  695-697). It then ties with itself, so a reference is never matched with it while the pool
  fits the shortlist (`Selection.UnbrandedIsNeverMatched`), and an ambiguous row lists it twice
  (`Selection.LoneUnbrandedIsAmbiguous`).
- Dropping rejected pairs can leave a candidate group without candidates; its reference is not
  moved to reference_only (`Decisions.EmptyGroupIffAllRejected` says when). A target whose only
  candidacies were such pairs is in no section at all (`Accounting.TargetAccounting` says when).
  `Decisions.LoneRejectedCandidate` is a comparison where both happen. The comment above the
  candidate filter (comparison_service.py, line 485) also speaks of excluding targets that are
  confirmed elsewhere; the code shows them, not acceptable.
- A stored confidence of 0 is shown as 100 percent (`Comparisons.ZeroConfidenceShowsAsFull`).
- A retry candidate whose job is disabled is marked as evaluated for good; enabling the job
  again does not bring the retry back (`Retries.DisabledRetryIsLost`, `Retries.GivenUpForGood`).
- The misfire policy (schedule.py, lines 16-18; docs/operations/scheduler_mvp.md, line 63) promises
  that an overdue job is advanced once, without a backlog explosion. A due job without an enabled
  schedule, or whose next time cannot be computed, keeps its planned time; the schedule route
  (admin_scheduler_schedule_routes.py, lines 34-66) accepts an interval of 0. `Draining.StaysDueIff`
  says exactly when a due job is still due after a tick. Ticks at one time drain the due jobs
  exactly when all of them are moving: each has a positive interval or a cron schedule that steps
  forward (`Draining.SeriesDrainsIff`, and `Throughput.StretchDrainsIff` with workers interleaved).
  A job without a next time stays due and keeps its place under the limit: with fewer such jobs than
  the limit all moving ones are still taken (`Starvation.DrainsAroundStuck`), below as many of higher
  priority a moving job is never taken (`Starvation.StarvedByStuck`). And n ticks at one time leave n active runs of a job that may
  overlap and has an interval of 0 (`Draining.TicksPileUp`). With positive intervals the promise
  holds (`Backlog.NoBacklogExplosion`).
- A backoff of 0 seconds acts as 60. The misfire policy argument is never read.

## Model

| member | source | states |
|---|---|---|
| Schedules.AdvanceProgress | pricewatch/scrape/schedule.py:131-169 | for a positive interval the next time is after now, at least one interval after the planned time, and at most one interval plus jitter past the later of the two |
| Schedules.AdvanceIsExact | pricewatch/scrape/schedule.py:131-169 | the next time is one step past the plan plus a draw of at most the jitter, each of which can come up, or one step past now without a draw when that is overdue; there is none for a missing or non-positive interval, a failing cron step or an unknown type |
| Schedules.CronProgress | pricewatch/scrape/schedule.py:96-111 | a cron schedule whose step moves forward from the planned time and from now gets a next time after both |
| Sessions.Session.EnqueueRun | pricewatch/db/repositories/scrape_run_repository.py:163-188 | appends one queued run with the next id and the given columns, an empty checkpoint as none, and leaves every other row alone |
| Sessions.Session.ClaimNextQueuedRun | pricewatch/db/repositories/scrape_run_repository.py:191-239 | of the queued runs that nobody holds, marks the one queued first, with the lowest id among equals, as running for the worker; returns nothing, and changes nothing, exactly when all queued runs are held |
| Sessions.Session.CompleteRun | pricewatch/db/repositories/scrape_run_repository.py:259-287 | writes the terminal status, the time, a given checkpoint, and retryable for a failed run only; an unknown id changes nothing |
| Sessions.Session.ListRetryCandidates | pricewatch/db/repositories/scrape_run_repository.py:322-341 | lists distinct failed, retryable, not processed, not exhausted runs without a retry, by finish time with missing ones last; one is left out only when the limit is reached, and then none listed finished later |
| Sessions.Session.ListDueScrapeJobs | pricewatch/db/repositories/scrape_job_repository.py:142-156 | lists distinct jobs that are enabled and planned at or before now, by priority and planned time; one is left out only when the limit is reached, and then none listed is outranked by it |
| Sessions.Session.SetJobNextRunAt | pricewatch/db/repositories/scrape_job_repository.py:125-139 | changes one job's planned time, and its last run time when one is given |
| Sessions.Session.UpdateScrapeJob | pricewatch/db/repositories/scrape_job_repository.py:86-122 | column by column: a given value is written, any other column and any other job stays |
| Sessions.Session.ManualEnqueueJob | pricewatch/web/admin_scheduler_job_routes.py:171-200 | not found, conflict exactly when the job may not overlap and has a queued or running run, otherwise one queued manual first attempt and nothing else |
| Sessions.Session.AdvanceJobNextRun | pricewatch/scrape/scheduler.py:237-257 | an overlap-skipped job gets the next time of its schedule without jitter, unless it has no schedule or no next time; its last run time and every other job stay |
| Sessions.Session.TickOneJob | pricewatch/scrape/scheduler.py:78-120 | skipped for overlap, skipped without schedule, or fired with one queued first attempt; planned anew unless there is no next time, with the last run time set when it fired |
| Sessions.Session.TickOneCandidate | pricewatch/scrape/scheduler.py:160-218 | in columns: a retry is added exactly when the job is known and enabled, the attempts are within max_retries, the backoff (60 when stored as 0) is over and the job may overlap or has no active run; the flags and the child row follow |
| Sessions.Session.ProcessRetryCandidates | pricewatch/scrape/scheduler.py:132-234 | the loop over the candidates listed once, in order, equals the step by step specification |
| Sessions.Session.RunTick | pricewatch/scrape/scheduler.py:50-129 | a tick is the due jobs as listed at its start, then the candidates as they stand after them, with its report |
| Sessions.Session.ProcessOne | pricewatch/scrape/worker.py:103-205 | claims the head of the queue; a missing or raising runner leaves it failed, not retryable, with its checkpoint as before, and a runner that returns leaves what it returned, retryable for failures only; no other row changes |
| Sessions.Database.WorkerIteration | pricewatch/scrape/worker.py:261-280 | commits claim and outcome of one queued run together, or leaves the committed tables as they were when nothing was claimed or an exception escaped |
| StepLaws.JobStepIsExact | pricewatch/scrape/scheduler.py:78-120 | one due job, out-of-date overlap check included: which of the four events it is, the run it adds, and its new row down to the planned time |
| StepLaws.EvaluationIsExact | pricewatch/scrape/scheduler.py:160-218 | one retry candidate, out-of-date overlap check included: exactly when a retry is added, when the run counts as processed and as exhausted, and that nothing else changes |
| Reports.TickIsReported | pricewatch/scrape/scheduler.py:38-129 | a tick's report and effect agree: enqueued lists the new ids in order, retries_enqueued is its last part and the retries among them, and each listed job is skipped for overlap, skipped without schedule or given one scheduled run, exactly one of these |
| Reports.JobsFireInOrder | pricewatch/scrape/scheduler.py:75-104 | listed jobs fire in order: the run of a job listed earlier has the lower id |
| Reports.PlansAreReported | pricewatch/scrape/scheduler.py:77-120 | what the lists tell of a job's row: an error or a missing schedule leaves it alone, a skip keeps the last run time, a firing sets it to now; unlisted jobs stay as they are |
| Refinement.TickIsABehaviour | pricewatch/scrape/scheduler.py:50-129 | every tick that RunTick may perform is a sequence of protocol steps from begin to commit |
| Refinement.ManualIsABehaviour | pricewatch/web/admin_scheduler_job_routes.py:171-200 | every manual enqueue is a protocol step, or none when refused |
| Refinement.UpdateIsABehaviour | pricewatch/web/admin_scheduler_job_routes.py:137-161 | every job edit of the route is a protocol step |
| Refinement.WorkIsABehaviour | pricewatch/scrape/worker.py:263-283 | every worker iteration is a claim and a commit or a rollback, whoever else holds runs |
| Refinement.ProgramIsABehaviour | pricewatch/scrape/scheduler.py:50-129 | any sequence of ticks, manual enqueues, edits and worker iterations is a behaviour that passes through the tables after each of them |
| Refinement.ProgramKeepsOutcomes | pricewatch/db/models.py:162-181 | so after every operation of the program the tables are well formed and outcomes stay |
| Invariants.Reachable | pricewatch/db/models.py:155-182 | every state of every behaviour keeps the lifecycle of run columns, retry flags, links, locks and the open tick |
| Invariants.Moves | pricewatch/db/models.py:155-182 | a step either publishes or drops the open tick as a whole, or adds at most one run, of a job that may overlap or had no active run, and only as a first attempt or as a due retry within budget; other rows keep their origin, and their outcome once they have one |
| Causes.RunHasCause | pricewatch/scrape/scheduler.py:77-214 | in every reachable state each run, committed or in the open tick, was added by an earlier step that found its job free to run; for a scheduled run also enabled and planned by then, for a retry enabled, within budget and after the backoff, with the source failed, retryable and not yet evaluated |
| Causes.EditWritesWhatIsGiven | pricewatch/web/admin_scheduler_job_routes.py:137-161 | a job edit writes the given columns of its job and nothing else in any table |
| Causes.DisabledGainsNothing | pricewatch/db/repositories/scrape_job_repository.py:149-153 | while a job is disabled it gains no scheduled run and no retry, in no state and no open tick |
| Retries.ChainsDoNotFork | pricewatch/scrape/scheduler.py:205-214 | a run is the only one of its lineage with its attempt number |
| Retries.LineageIsComplete | pricewatch/scrape/scheduler.py:175-214 | every lower attempt number occurs in the lineage, as a failed, evaluated and not exhausted run |
| Retries.RetryLineage | pricewatch/db/repositories/scrape_run_repository.py:322-335 | in every reachable state links are disjoint chains with increasing ids, same job, attempt plus one, parent failed, retryable, processed and not exhausted; a committed link stays |
| Retries.RetryBudget | pricewatch/scrape/scheduler.py:175-218 | while max_retries never exceeded m, attempts stay within m + 1, also inside a tick, and retry runs within m for each scheduled or manual run |
| Retries.ExhaustedHasCause | pricewatch/scrape/scheduler.py:175-190 | in every reachable state a run with retry_exhausted was found by an earlier evaluation with its job enabled and its attempts above max_retries |
| Retries.GivesUpIff | pricewatch/scrape/scheduler.py:160-218 | an evaluation leaves the run processed without a retry exactly when its job is disabled or its attempts are used up |
| Retries.LostRetryHasCause | pricewatch/scrape/scheduler.py:160-218 | in every reachable state a run that is processed without a retry was found by an earlier evaluation with its job disabled or its attempts used up |
| Retries.DisabledRetryIsLost | pricewatch/scrape/scheduler.py:169-173 | once a tick that is not rolled back has evaluated a run while its job was disabled, no later state has a retry of it, whatever budget is left |
| Retries.GivenUpForGood | pricewatch/db/repositories/scrape_run_repository.py:328-335 | a processed run without a retry never gets one in any later state |
| Retries.BackoffAlongLineage | pricewatch/scrape/scheduler.py:192-214 | with a clock that never runs back and a stored backoff that stays, attempt k is queued at least (k - 1) times the backoff, 60 for a stored 0, after the first run of its lineage finished |
| Overlap.OverlapNeverRises | pricewatch/scrape/scheduler.py:79-104 | no step taken while allow_overlap is false raises the job's active runs above one, committed or inside a tick |
| Overlap.NeverTwoActive | pricewatch/web/admin_scheduler_job_routes.py:176-195 | a job whose allow_overlap was never true has at most one queued or running run after every step and inside every tick |
| Workers.NoSharedRun | pricewatch/db/repositories/scrape_run_repository.py:204-239 | no run is held by two workers, and a held run is queued for everyone else |
| Workers.OutcomesAreFinal | pricewatch/db/repositories/scrape_run_repository.py:259-287 | a committed outcome never changes in any later state |
| Workers.FinishCommits | pricewatch/scrape/worker.py:170-179 | a commit leaves, under the worker's own name, a failed run that is not retryable when there was no runner or it raised, and otherwise the status, checkpoint and (for a failure) retryable flag that the runner returned; no other row changes |
| Workers.OneOutcomePerRun | pricewatch/scrape/worker.py:263-283 | each run gets at most one committed outcome |
| Workers.RollbackRestores | pricewatch/scrape/worker.py:263-283 | after a rollback, whatever happened in between, the run's row is the one that was claimed, queued and held by nobody |
| Fifo.WaitShrinks | pricewatch/db/repositories/scrape_run_repository.py:204-239 | with no rollbacks and a clock that never runs back, the number of waiting runs queued before a given one, or with it and a lower id, falls by one with every claim by any worker |
| Fifo.BoundedWait | pricewatch/db/repositories/scrape_run_repository.py:204-239 | a run with k such runs before it is taken by exactly the (k + 1)-th claim |
| Termination.WorkIsFinite | pricewatch/scrape/scheduler.py:158-227 | with no new runs from outside, no rollbacks and no edit of max_retries, claims, completions and effective evaluations are bounded by a measure of the starting state |
| Backlog.TicksProgress | pricewatch/scrape/scheduler.py:77-116 | an open tick has fired each job at most once and moved every fired or skipped interval job past its now and by at least the interval |
| Backlog.PlanMoves | pricewatch/scrape/schedule.py:149-169 | a committed plan of an interval job changes by an advance only, from at most now to after now and by at least the interval |
| Backlog.NoBacklogExplosion | pricewatch/scrape/scheduler.py:77-116 | k firings or skips from one tick to another, both included, take more than (k - 2) intervals between the two ticks |
| Draining.TickTakes | pricewatch/scrape/scheduler.py:75-116 | when all due jobs are moving (a positive interval, or a cron schedule that steps forward), a tick reports exactly its listed jobs as fired or skipped, after which they are not due, and leaves every other job alone |
| Draining.TakenSize | pricewatch/scrape/scheduler.py:75-116 | when each tick takes its share of the due jobs, as it does while all due jobs are moving, after b ticks exactly the lesser of b times the limit and all due jobs are taken |
| Draining.StaysDueIff | pricewatch/scrape/scheduler.py:78-120 | whatever its schedule, a due job is still due after a tick has handled it exactly when it gets no next time or one not after now; off cron, exactly when it has no positive interval |
| Draining.SeriesDrains | pricewatch/db/repositories/scrape_job_repository.py:142-156 | at a frozen clock, due jobs that are all moving are drained by any series long enough, each reported by exactly one tick |
| Draining.SeriesDrainsIff | pricewatch/scrape/schedule.py:16-18 | while no cron step from now goes backwards, a long enough series drains the due jobs exactly when each is moving |
| Draining.TicksPileUp | pricewatch/scrape/scheduler.py:95-120 | n ticks at one time leave n active runs of a job that may overlap and has an interval of 0, and it is still due |
| Draining.PriorityFirst | pricewatch/db/repositories/scrape_job_repository.py:149-155 | when all due jobs are moving, a job of higher priority is never taken by a later tick than one of lower priority |
| Throughput.CommitHandles | pricewatch/scrape/scheduler.py:75-116 | for every table and with workers and out-of-date checks interleaved, a committed tick has taken as many due jobs as the limit allows, none outranked by one left; its moving ones are no longer due, every other row is as it was unless a cron step goes backwards |
| Throughput.CommitTakes | pricewatch/scrape/scheduler.py:75-116 | when all due jobs are moving, the jobs it has fired or skipped are that share |
| Throughput.TicksTake | pricewatch/scrape/scheduler.py:75-116 | when all due jobs are moving, after c committed ticks at one time exactly the lesser of c times the limit and all due jobs were taken, each by one tick |
| Throughput.StretchDrains | pricewatch/db/repositories/scrape_job_repository.py:142-156 | when all due jobs are moving, enough committed ticks at one time leave none due, each taken by exactly one |
| Throughput.StretchDrainsIff | pricewatch/scrape/schedule.py:16-18 | while no cron step from now goes backwards, they drain the due jobs exactly when each is moving |
| Throughput.HigherFirst | pricewatch/db/repositories/scrape_job_repository.py:149-155 | when all due jobs are moving, a job of higher priority is never taken by a later tick, workers interleaved |
| Starvation.TicksLeave | pricewatch/scrape/scheduler.py:75-116 | among stuck jobs too: after c ticks c times the places that the stuck jobs leave under the limit are gone of the moving jobs, or all, each by one tick, and every other row is as it was |
| Starvation.DrainsAroundStuck | pricewatch/db/repositories/scrape_job_repository.py:142-156 | with fewer stuck jobs than the limit, enough ticks leave exactly the stuck jobs due |
| Starvation.StarvedByStuck | pricewatch/db/repositories/scrape_job_repository.py:149-155 | below as many stuck jobs of higher priority as the limit, a moving job is never taken and keeps its row |
| PairScores.ImpossibleIffConflict | pricewatch/core/normalize.py:488-531 | field by field, with the five pairs of player and goalie types: a pair is rejected exactly when it is incompatible, and the score alone tells it from every other pair |
| PairScores.ScoreByField | pricewatch/core/normalize.py:533-643 | the score of a compatible pair is the ratio of the titles plus what each field adds on its own, for equal and for different values, with the points of every field and the price lines in whole numbers |
| PairScores.ApartByPoints | pricewatch/core/normalize.py:555-629 | two targets that differ in level, flex, hand, curve or skate fit only score apart by exactly the points of these fields, whatever else the records hold |
| PairScores.ScoreIsSymmetric | pricewatch/core/normalize.py:477-645 | which side is the reference does not change the score when the ratio is symmetric |
| PairScores.GoalieConflictNeedsType | pricewatch/core/normalize.py:502-509 | a goalie mismatch rejects exactly when a product type is known or another field conflicts |
| PairScores.GoalieConflictCanPass | pricewatch/core/normalize.py:502-509 | two records without further marks, one goalie and one not, score exactly the fuzzy ratio of their titles |
| Matching.BuildPools | pricewatch/core/normalize.py:694-697 | the pools by brand, with every target in the fallback pool and unbranded ones twice, in list order |
| Matching.ScoreEntries | pricewatch/core/normalize.py:712-719 | the shortlisted pool positions with their scores |
| Matching.SortKeeps | pricewatch/core/normalize.py:720 | the stable sort is a descending permutation |
| RowLaws.SortIsStable | pricewatch/core/normalize.py:720 | entries of equal score keep their order, which with the above determines the sort |
| Matching.CollectLeading | pricewatch/core/normalize.py:749-757 | the candidates are the leading entries, at most five, down to the threshold |
| Matching.MatchOne | pricewatch/core/normalize.py:703-789 | the rows of one reference equal the specification, and the target it reports is the one they match |
| Matching.HeuristicMatch | pricewatch/core/normalize.py:661-798 | the program's rows equal the specification: all references in order, then the targets never matched |
| Selection.ChoiceIsExact | pricewatch/core/normalize.py:722-789 | choosing from the sorted list is choosing the one entry that reaches the threshold and leads every other by the gap; no match exactly when none reaches it |
| Selection.SelectionIsExact | pricewatch/core/normalize.py:703-789 | a reference is matched exactly when some entry leads, with that entry; its first row alone names it |
| Selection.RowsShape | pricewatch/core/normalize.py:703-789 | one or two rows for each reference, the first alone naming it, all positions within the targets |
| Selection.CandidatesAreTheBest | pricewatch/core/normalize.py:746-757 | an ambiguous row lists one to five entries, best first, all at the threshold; what is left out is below it or no better than five listed |
| Selection.NothingShownConflicts | pricewatch/core/normalize.py:488-531 | no matched pair and no listed candidate is incompatible, for any threshold that a compatible pair can reach: two known product types are equal or a player's and a goalie's kind of one thing |
| Selection.MatchedIsListedOnce | pricewatch/core/normalize.py:694-731 | with a positive gap, a matched target is the target of exactly one shortlisted entry, for any pool |
| Selection.UnbrandedIsNeverMatched | pricewatch/core/normalize.py:694-697 | while the pool fits the shortlist, no reference is matched with a target without a brand |
| Selection.LoneUnbrandedIsAmbiguous | pricewatch/core/normalize.py:694-697 | a lone unbranded target that fits gives an ambiguous row listing it twice |
| Selection.OneRowEach | pricewatch/core/normalize.py:703-796 | exactly one row names each reference, in order; the closing rows that follow are exactly one per target never matched |
| RowLaws.EntriesAreExact | pricewatch/core/normalize.py:694-719 | the pool of a reference is the targets of its brand, each once and in list order, if there are any, and otherwise all targets, unbranded ones twice; the picked positions are scored, and a pool that fits the shortlist is picked in full |
| RowLaws.RowsAreExact | pricewatch/core/normalize.py:703-789 | the rows of a reference column by column: verdict, color, target, score and gap from the first best entry and the best of the others |
| RowLaws.EachHasItsRows | pricewatch/core/normalize.py:703-789 | the rows of each reference stand in the result as one block |
| RowLaws.UnmatchedAreClosed | pricewatch/core/normalize.py:791-796 | a target has a closing row exactly when no row of the result matches it |
| Mappings.MappingStore.GetConflictingConfirmedMapping | pricewatch/db/repositories/mapping_repository.py:245-266 | returns a confirmed row of the target for another reference exactly when there is one |
| Mappings.MappingStore.UpsertMatchDecision | pricewatch/db/repositories/mapping_repository.py:6-66 | overwrites the row of the pair in place or adds one; refused for unknown products, then nothing changes |
| Mappings.MappingStore.PostMatchDecision | pricewatch/web/admin_comparison_gap_routes.py:47-81 | conflict before scope before write, with the reply and table of the specification |
| Mappings.MappingStore.PostConfirmMatch | pricewatch/web/admin_comparison_gap_routes.py:96-121 | a missing or empty status confirms; conflict check for confirmations only, then the write |
| Mappings.MappingStore.DeleteProductMapping | pricewatch/web/admin_product_mapping_review_routes.py:76-87 | not found, or the table without that row |
| MappingLaws.WithoutMembers | pricewatch/db/repositories/mapping_repository.py:114-118 | a deletion removes the rows with the id and no other |
| MappingLaws.RequestKeeps | pricewatch/web/admin_comparison_gap_routes.py:47-121 | every request keeps pairs unique, ids fresh and confirmations exclusive |
| MappingLaws.ExclusiveForever | pricewatch/db/repositories/mapping_repository.py:245-257 | after every history of decisions, confirmations and deletions each target is confirmed for at most one reference |
| MappingLaws.LatestDecisionWins | pricewatch/db/repositories/mapping_repository.py:45-66 | a saved decision is the decision on its pair, and every other pair's stays |
| MappingLaws.EligibleCanBeConfirmed | pricewatch/services/comparison_service.py:573-637 | every product offered as eligible passes the conflict and the scope check, and is not a rejected pair unless asked for |
| MappingLaws.EligibleIsComplete | pricewatch/db/repositories/product_repository.py:75-104 | no eligible product is withheld while the limit has room |
| RequestLaws.DecisionIsExact | pricewatch/web/admin_comparison_gap_routes.py:47-81 | the match-decision route: exactly which requests are saved, in conflict or bad, over the tables' columns, and the row that a saved one writes |
| RequestLaws.ConfirmationIsExact | pricewatch/web/admin_comparison_gap_routes.py:96-121 | the confirm-match route in the same way; a missing or empty status confirms |
| RequestLaws.DeletionIsExact | pricewatch/web/admin_product_mapping_review_routes.py:76-87 | the delete route: deleted exactly when a row has the id, and then the other rows stay, in order |
| RequestLaws.ScopeIsExact | pricewatch/services/comparison_service.py:533-567 | the scope check passes exactly when the reference's category is linked to every named category and the target's category is one of them |
| RequestLaws.EligibleIsExact | pricewatch/db/repositories/product_repository.py:75-104 | what is offered is, in order of the catalog, the first products that are in the categories, confirmed for nobody, found by the search and not rejected for the reference (unless asked for), as many as the limit allows |
| RequestLaws.OfferRefusedIff | pricewatch/services/comparison_service.py:573-637 | an offer is refused exactly when the reference is unknown or a category is not linked to its own |
| Comparisons.HighConfidenceLine | pricewatch/services/comparison_service.py:340-341 | a heuristic match is confirmed exactly when its score exceeds 84.5, as the percentage is rounded before it is compared with 85 |
| Comparisons.ZeroConfidenceShowsAsFull | pricewatch/services/comparison_service.py:305 | a stored confidence is shown rounded unless it is 0, which is shown as 100 |
| SectionLaws.PercentsAreExact | pricewatch/core/normalize.py:733 | percentages are rounded to the nearest integer, halves to the even one, those of scores kept within 0 and 100 |
| Comparisons.ApplyStoredMappings | pricewatch/services/comparison_service.py:282-309 | the nested loop over references and their rows equals the fold |
| Comparisons.CollectCandidates | pricewatch/services/comparison_service.py:461-504 | rejected pairs dropped, targets confirmed anywhere not acceptable, order kept |
| Comparisons.ClassifyRows | pricewatch/services/comparison_service.py:324-418 | the loop over the matcher's rows equals the fold |
| Comparisons.CompareMulti | pricewatch/services/comparison_service.py:251-446 | the program's result equals the specification that the theorems below are about |
| Partition.StoredIsExact | pricewatch/services/comparison_service.py:282-309 | for every table, the stored entries are each confirmed target in scope once, with the first reference of the category that claims it |
| Partition.ExclusiveClaims | pricewatch/services/comparison_service.py:282-309 | while confirmations are exclusive these are all confirmed pairs in scope |
| Partition.ReferencePartition | pricewatch/services/comparison_service.py:282-446 | every reference is in the stored entries or in exactly one row of exactly one other section; nothing else is; the summary counts the lists |
| Accounting.ShownExactly | pricewatch/services/comparison_service.py:287-418 | section by section and for every table, which pairs are shown: claimed targets in scope; proposed and not rejected pairs, confident ones as confirmed matches, others as candidates |
| Accounting.NothingRejectedIsShown | pricewatch/services/comparison_service.py:343-352 | no rejected pair is shown in any section |
| Accounting.TargetAccounting | pricewatch/services/comparison_service.py:419-433 | a target is in target_only or shown, never both; in neither exactly when ambiguous rows list it and every pair proposed with it is rejected |
| Decisions.AcceptableIffAccepted | pricewatch/services/comparison_service.py:478-503 | a candidate is acceptable exactly when its target is not confirmed for another reference, which is exactly when confirming it is saved |
| Decisions.EmptyGroupIffAllRejected | pricewatch/services/comparison_service.py:393-418 | a comparison has an empty group for a reference exactly when the matcher found it ambiguous and all its candidates are rejected |
| Decisions.LoneRejectedCandidate | pricewatch/services/comparison_service.py:485-487 | with one reference, one fitting unbranded target and the pair rejected, the comparison is one empty group and nothing else |
| Decisions.ConfirmedIsShownOnce | pricewatch/services/comparison_service.py:287-309 | a saved confirmation in scope is shown once in the next comparison, as confirmed; its target is shown nowhere else, its reference in no other section |
| Decisions.RejectedIsNotShown | pricewatch/services/comparison_service.py:343-352 | a saved rejection keeps its pair out of every section of the next comparison |
| SectionLaws.SectionsFollowRows | pricewatch/services/comparison_service.py:324-418 | the heuristic sections in full: the matcher's rows go in their order, each to the section of its verdict, score and rejection, with the percentages, and with the candidates in the order listed, less the rejected pairs and acceptable unless confirmed somewhere |
| SectionLaws.ContextIsExact | pricewatch/services/comparison_service.py:266-320 | the matcher is given exactly the products that no stored confirmation has taken, in order; rejected pairs and confirmed targets are as the table says |
| SectionLaws.StoredComeInOrder | pricewatch/services/comparison_service.py:282-309 | stored entries come by reference and row, each with the percentage of its own row |
| SectionLaws.TargetsComeInOrder | pricewatch/services/comparison_service.py:419-433 | target_only lists its targets in their order |
| PriceLog.ProductStore.PriceChanged | pricewatch/db/repositories/product_repository.py:132-145 | true exactly when the two prices differ, a missing one counting as a value of its own |
| PriceLog.ProductStore.UpsertProduct | pricewatch/db/repositories/product_repository.py:148-231 | in columns: error for a blank URL, otherwise the product keyed by store and stripped URL has the observation's columns, a known one its id and, when none is given, its availability; one history row exactly on a price change |
| PriceLog.CollapseIsExact | pricewatch/db/repositories/product_repository.py:172-231 | a collapsed list has no repetition, does not start with the price before it, ends with the last price, and is empty only if every price is the one before |
| PriceLog.LogRefinesObservations | pricewatch/db/repositories/product_repository.py:172-231 | for every sequence of upserts into any shop a product exists exactly when it did or was observed, its history goes on with the collapsed list of observed prices, and change flags number what was added |
| PriceLog.LogEndsAtCurrentPrice | pricewatch/db/repositories/product_repository.py:172-231 | the last logged price is the current one, and without a log there is no price |
| PriceLog.LastObservationStays | pricewatch/db/repositories/product_repository.py:172-231 | a product has every column of its last observation and the last availability that was given; an unobserved one is as before |
| PriceLog.StripIsExact | pricewatch/db/repositories/product_repository.py:165-167 | stripping takes the white space off both ends of a URL and nothing else |
| ProductSync.Diagnostics.RecordValidationError | pricewatch/services/validation_diagnostics.py:19-47 | counts the error, counts its reason, samples it while the sample has fewer than ten |
| ProductSync.SyncCategoryProducts | pricewatch/services/product_sync_service.py:187-305 | the loop's counters, store and diagnostics equal the fold over the feed; failure exactly when an upsert raises |
| ProductSync.SyncBalances | pricewatch/services/product_sync_service.py:210-283 | processed is created plus updated plus skipped; diagnostics are the histogram, count and first ten of the skipped; created is the growth of the keyed product set and price changes that of the history |
| ProductSync.BlankOnlyByJoin | pricewatch/services/product_sync_service.py:67-84 | a URL of white space only counts as missing; a normalised URL is blank exactly when the join made it so |
| ProductSync.EveryFeedBalances | pricewatch/services/product_sync_service.py:210-283 | while joins are visible no feed makes the sync fail, and the books balance for every feed |
| ProductSync.RaisesIff | pricewatch/db/repositories/product_repository.py:165-166 | the sync fails exactly when an item with a name has a URL that the join turned into white space |
| ProductSync.StopsAtFirstBlank | pricewatch/services/product_sync_service.py:285-287 | a sync that fails so has stored exactly what the items before the first such one lead to |
| ProductSync.FeedIsStored | pricewatch/services/product_sync_service.py:210-274 | a feed that does not fail, into any shop: each product exists exactly when it did or an item is stored as it, has the columns of the last such item, and its price history goes on with the collapsed list of these items' prices |
| ProductSync.AddedRowsTell | pricewatch/services/product_sync_service.py:245-260 | every row that a sync adds to the price history has the price, currency, run and source of an item of the feed |
| ProductSync.NormalizeIsExact | pricewatch/services/product_sync_service.py:67-84 | a URL is trimmed, missing when blank, kept when it starts with http or https in any case or the category has no page, otherwise joined to that page, and kept when the join fails |
| ProductSync.ProblemIsExact | pricewatch/services/product_sync_service.py:213-243 | an item is skipped exactly for a missing name, or else for a missing URL, with what is recorded of it |
| AutoLink.CategoryMappings.GetCategoryMapping | pricewatch/db/repositories/category_repository.py:110-123 | finds the row of a pair exactly when there is one |
| AutoLink.CategoryMappings.CreateCategoryMapping | pricewatch/db/repositories/category_repository.py:72-107 | adds a row for a new pair, brings the row of a known pair up to date |
| AutoLink.CategoryMappings.BuildIndex | pricewatch/services/category_matching_service.py:108-112 | the index holds, under each normalised name, the targets of that name in order |
| AutoLink.CategoryMappings.AutoLink | pricewatch/services/category_matching_service.py:79-170 | switched off, refused for an unknown store or one in the wrong role, which of these exactly, or the linked table and report |
| AutoLink.ProposedMembers | pricewatch/services/category_matching_service.py:118-125 | what the indexed loops propose is the plain join: equal, non-empty normalised names |
| AutoLink.ProposedInOrder | pricewatch/services/category_matching_service.py:118-125 | pairs are proposed by reference category and for each by target category, in list order |
| AutoLink.InStoreIsExact | pricewatch/services/category_matching_service.py:105-106 | the categories of a store are all of its categories, in the table's order |
| AutoLink.WithoutNormCounts | pricewatch/services/category_matching_service.py:118-122 | the report counts the reference categories with a missing or empty normalised name |
| AutoLink.LinkedIsExact | pricewatch/services/category_matching_service.py:124-158 | existing rows stay, a pair is linked afterwards exactly when it was or is proposed, each new pair is created once, created and skipped are together the proposed pairs |
| AutoLink.AutoLinkIsTheJoin | pricewatch/services/category_matching_service.py:108-170 | over the categories of the two stores: mappings become the old ones and, once each, exact and certain, the pairs of equal non-empty normalised names; created tells the new pairs from the others |
| AutoLink.SkippedWereMapped | pricewatch/services/category_matching_service.py:126-140 | the skipped pairs are exactly those of the join that were mapped before |
| AutoLink.SecondCallCreatesNothing | pricewatch/services/category_matching_service.py:108-170 | a second call creates nothing, changes nothing and skips every pair |

## Left out

- Enqueuers interleaving: the overlap check and the insert take no lock, so two enqueuers at once could both insert; the model serialises ticks, manual enqueues, job edits and schedule edits with each other.
- Match decisions interleaving: the conflict check and the write take no lock either; the model takes requests one at a time.
- Legacy runs without a job, `mark_run_running`, `finish_run` and `fail_run` on scheduler-owned runs, and the SQLite claim, which locks nothing.
- Ids lost to rolled back inserts: a run's id is its position in the table. Products and mappings take the next number.
- Columns that nothing decides on: started_at, error texts, counters, metadata, timestamps of products and mappings, score details, display names.
- Rows that a session has cached: a session reads the tables as they are, except for the out-of-date overlap check above.
- A failing database: the handlers that catch unexpected errors are modelled for the errors the code itself raises, no others.
- Cron arithmetic, time zones and daylight saving: the cron step is any function, so a cron schedule progresses as far as its step does.
- Extraction of prepared records from titles, the fuzzy library, the URL join and price parsing: their results are inputs. A prepared field is missing or not empty.
- `compare`'s choice of target categories, the gap report, serializers, request schemas, pages, HTTP clients, adapters and migrations: thin or without a hard property.
- Sessions.Database.WorkerIteration: does not model other writers during the iteration; the transition system does.
- Selection.UnbrandedIsNeverMatched: speaks of pools that fit the shortlist; a longer pool may shortlist one of the two entries only, see Selection.MatchedIsListedOnce.
