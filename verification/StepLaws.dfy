/** What the scheduler does for one due job and for one retry candidate, in columns. */
module StepLaws {
  import opened Basics
  import opened Schedules
  import opened ScrapeDb
  import opened SchedulerSpec
  import opened Invariants

  // ----- a due job

  /** The overlap guard: the job may not overlap, and a run of it is active or was when checked. */
  predicate Blocked(db: Db, j: JobId, stale: bool)
    requires j in db.jobs
  {
    !db.jobs[j].allowOverlap && (stale || !NoneActive(db, j))
  }

  /** The job's row after its step: a planned time from its schedule, when there is one, and a last
      run time when it fired; nothing else. */
  ghost predicate Replanned(db: Db, j: JobId, now: int, draw: nat, fired: bool, row: Job)
    requires j in db.jobs && j in db.schedules
  {
    exists next: Option<int> ::
      && NextTimeIs(db.schedules[j].timing, db.jobs[j].nextRunAt.GetOr(now), now, draw, next)
      && row == if next.None? then db.jobs[j]
                else db.jobs[j].(nextRunAt := next, lastRunAt := if fired then Some(now) else db.jobs[j].lastRunAt)
  }

  /** A due job fires exactly when the guard lets it and it has an enabled schedule: one queued first
      attempt is added. Fired or blocked it is planned anew, with jitter only when it fires; a job
      without a next time keeps its row. Nothing else changes. */
  lemma {:induction false} JobStepIsExact(db: Db, j: JobId, now: int, stale: bool, rand: nat, at: int) returns (draw: nat)
    requires j in db.jobs
    ensures var (next, event) := (TickJob(db, j, now, stale, rand, at).db, TickJob(db, j, now, stale, rand, at).event);
            var fires := !Blocked(db, j, stale) && j in db.schedules;
            && (event.Overlap? <==> Blocked(db, j, stale))
            && (event.NoSchedule? <==> !Blocked(db, j, stale) && j !in db.schedules)
            && (event.Fired? ==> event.run == |db.runs|) && (event.Unadvanced? ==> event.run == |db.runs|)
            && (event.Unadvanced? <==> fires && NextTimeIs(db.schedules[j].timing, db.jobs[j].nextRunAt.GetOr(now), now, draw, None))
            && next.runs == db.runs + (if fires then [Run(Some(j), db.jobs[j].runnerType, Scheduled, Queued, 1, at, None, None,
                                                          None, None, false, None, false, false)] else [])
            && next.schedules == db.schedules && next.jobs.Keys == db.jobs.Keys
            && (forall k :: k in db.jobs && k != j ==> next.jobs[k] == db.jobs[k])
            && (j in db.schedules ==> Replanned(db, j, now, draw, fires, next.jobs[j]))
            && (j !in db.schedules ==> next.jobs[j] == db.jobs[j])
    ensures j in db.schedules ==>
              if Blocked(db, j, stale) then draw == 0
              else draw <= Max(db.schedules[j].jitterSec, 0) && (rand <= db.schedules[j].jitterSec ==> draw == rand)
  {
    ActiveOrNone(db, j);
    draw := 0;
    assert db.runs + [] == db.runs;
    hide HasActiveRun, NoneActive;
    if j in db.schedules {
      var (s, plan) := (db.schedules[j], db.jobs[j].nextRunAt.GetOr(now));
      AdvanceIsExact(s.timing, plan, now, s.jitterSec, rand);
      AdvanceIsExact(s.timing, plan, now, 0, 0);
      if !Blocked(db, j, stale) {
        draw :| draw <= Max(s.jitterSec, 0) && (rand <= s.jitterSec ==> draw == rand)
                && NextTimeIs(s.timing, plan, now, draw, AdvanceNextRun(s.timing, plan, now, s.jitterSec, rand));
      }
      hide AdvanceNextRun;
      hide NextTimeIs;
      OneNextTime(s.timing, plan, now, draw);
    }
  }

  lemma OneNextTime(timing: Timing, plan: int, now: int, draw: nat)
    ensures forall a, b | NextTimeIs(timing, plan, now, draw, a) && NextTimeIs(timing, plan, now, draw, b) :: a == b
  {
  }

  // ----- a retry candidate

  /** The number of the run among its attempts; a stored 0 counts as 1. */
  function AttemptNumber(run: Run): nat {
    if run.attempt == 0 then 1 else run.attempt
  }

  ghost predicate JobEnabled(db: Db, run: Run) {
    run.jobId.Some? && run.jobId.value in db.jobs && db.jobs[run.jobId.value].enabled
  }

  /** The job is enabled and the attempts are used up. */
  ghost predicate BudgetGone(db: Db, run: Run) {
    JobEnabled(db, run) && AttemptNumber(run) > db.jobs[run.jobId.value].maxRetries
  }

  /** The run is retried: its job is known and enabled, has budget left, has waited for its backoff,
      and may overlap or has no active run. */
  ghost predicate IsRetried(db: Db, run: Run, now: int, stale: bool) {
    && JobEnabled(db, run) && !BudgetGone(db, run)
    && var job := db.jobs[run.jobId.value];
       && run.finishedAt.Some?
       && run.finishedAt.value + (if job.retryBackoffSec == 0 then 60 else job.retryBackoffSec) <= now
       && !Blocked(db, run.jobId.value, stale)
  }

  /** The retry that is added. */
  ghost predicate IsChild(db: Db, r: RunId, at: int, child: Run)
    requires r < |db.runs|
  {
    var run := db.runs[r];
    && run.jobId.Some? && run.jobId.value in db.jobs
    && child == Run(run.jobId, db.jobs[run.jobId.value].runnerType, Retry, Queued, AttemptNumber(run) + 1, at, None, None,
                    if run.checkpointOut == Some(map[]) then None else run.checkpointOut,
                    None, false, Some(r), false, false)
  }

  /** One evaluation, in full: a retry is added exactly when the run is retried; the run counts as
      processed when it is retried, its job is unknown or disabled, or its budget is gone, and as
      exhausted in the last case only; otherwise it is left for later. Nothing else changes. */
  lemma {:induction false} EvaluationIsExact(db: Db, r: RunId, now: int, stale: bool, at: int)
    requires r < |db.runs|
    ensures var (run, next, child) := (db.runs[r], TickRetry(db, r, now, stale, at).db, TickRetry(db, r, now, stale, at).child);
            && (child == if IsRetried(db, run, now, stale) then Some(|db.runs|) else None)
            && |next.runs| == |db.runs| + (if child.Some? then 1 else 0)
            && (child.Some? ==> IsChild(db, r, at, next.runs[|db.runs|]))
            && next.runs[r] == run.(
                 retryProcessed := run.retryProcessed || child.Some? || !JobEnabled(db, run) || BudgetGone(db, run),
                 retryExhausted := run.retryExhausted || BudgetGone(db, run))
            && (forall q :: 0 <= q < |db.runs| && q != r ==> next.runs[q] == db.runs[q])
            && next.jobs == db.jobs && next.schedules == db.schedules
  {
    var run := db.runs[r];
    if run.jobId.Some? {
      ActiveOrNone(db, run.jobId.value);
    }
    hide HasActiveRun, NoneActive;
  }
}
