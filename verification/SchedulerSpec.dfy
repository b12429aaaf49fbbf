/** What one scheduler tick does, job by job and candidate by candidate
    (pricewatch/scrape/scheduler.py). */
module SchedulerSpec {
  import opened Basics
  import opened Schedules
  import opened ScrapeDb

  /** What happened to one due job. `Unadvanced` is the caught ValueError of the
      next-run computation: the run stays queued, next_run_at stays where it was. */
  datatype JobEvent = Overlap | NoSchedule | Fired(run: RunId) | Unadvanced(run: RunId)
  datatype JobStep = JobStep(db: Db, event: JobEvent)
  datatype RetryStep = RetryStep(db: Db, child: Option<RunId>)

  datatype TickLog = TickLog(
    enqueued: seq<RunId>,
    retriesEnqueued: seq<RunId>,
    skippedOverlap: seq<JobId>,
    skippedNoSchedule: seq<JobId>,
    errors: seq<JobId>)

  /** What a tick takes from outside: the jitter drawn for a job and the clock reading
      when the run with a given id is inserted. */
  datatype Outside = Outside(rand: JobId -> nat, insertedAt: RunId -> int)

  const EMPTY_LOG := TickLog([], [], [], [], [])

  function LogJob(log: TickLog, j: JobId, e: JobEvent): TickLog {
    match e
    case Overlap => log.(skippedOverlap := log.skippedOverlap + [j])
    case NoSchedule => log.(skippedNoSchedule := log.skippedNoSchedule + [j])
    case Fired(r) => log.(enqueued := log.enqueued + [r])
    case Unadvanced(r) => log.(enqueued := log.enqueued + [r], errors := log.errors + [j])
  }

  function LogRetry(log: TickLog, child: Option<RunId>): TickLog {
    if child.None? then log
    else log.(enqueued := log.enqueued + [child.value],
              retriesEnqueued := log.retriesEnqueued + [child.value])
  }

  /** An overlap-skipped job still moves on, without jitter; without a schedule it stays. */
  function AdvanceSkipped(db: Db, j: JobId, now: int): Db
    requires j in db.jobs
  {
    if j !in db.schedules then db
    else
      var next := AdvanceNextRun(db.schedules[j].timing, db.jobs[j].nextRunAt.GetOr(now), now, 0, 0);
      if next.Some? then SetJobNextRunAt(db, j, next.value, None) else db
  }

  /** One due job. `stale` says that the overlap check saw an active run which a worker
      has since finished; a check can be stale in this direction only. */
  function TickJob(db: Db, j: JobId, now: int, stale: bool, rand: nat, at: int): (step: JobStep)
    requires j in db.jobs
    ensures step.db.jobs.Keys == db.jobs.Keys && step.db.schedules == db.schedules
    ensures db.runs <= step.db.runs
  {
    var job := db.jobs[j];
    if !job.allowOverlap && (stale || HasActiveRun(db, j)) then
      JobStep(AdvanceSkipped(db, j, now), Overlap)
    else if j !in db.schedules then
      JobStep(db, NoSchedule)
    else
      var fired := EnqueueRun(db, Some(j), job.runnerType, Scheduled, 1, None, at);
      var next := AdvanceNextRun(db.schedules[j].timing, job.nextRunAt.GetOr(now), now,
                                 db.schedules[j].jitterSec, rand);
      if next.Some? then
        JobStep(SetJobNextRunAt(fired, j, next.value, Some(now)), Fired(|db.runs|))
      else
        JobStep(fired, Unadvanced(|db.runs|))
  }

  function Attempt(run: Run): nat {
    if run.attempt == 0 then 1 else run.attempt
  }

  function Backoff(job: Job): int {
    if job.retryBackoffSec == 0 then 60 else job.retryBackoffSec
  }

  /** One retry candidate. */
  function TickRetry(db: Db, r: RunId, now: int, stale: bool, at: int): (step: RetryStep)
    requires r < |db.runs|
    ensures step.db.jobs == db.jobs && step.db.schedules == db.schedules
    ensures |db.runs| <= |step.db.runs|
  {
    var run := db.runs[r];
    if run.jobId.None? || run.jobId.value !in db.jobs || !db.jobs[run.jobId.value].enabled then
      RetryStep(MarkEvaluated(db, r, false), None)
    else
      var j := run.jobId.value;
      var job := db.jobs[j];
      if Attempt(run) - 1 >= job.maxRetries then
        RetryStep(MarkEvaluated(db, r, true), None)
      else if run.finishedAt.None? || run.finishedAt.value + Backoff(job) > now then
        RetryStep(db, None)
      else if !job.allowOverlap && (stale || HasActiveRun(db, j)) then
        RetryStep(db, None)
      else
        RetryStep(WithRetryChild(db, r, j, job, at), Some(|db.runs|))
  }

  /** The retry run, linked to its source, and the source marked as evaluated. */
  function WithRetryChild(db: Db, r: RunId, j: JobId, job: Job, at: int): Db
    requires r < |db.runs|
  {
    var c := |db.runs|;
    var queued := EnqueueRun(db, Some(j), job.runnerType, Retry, Attempt(db.runs[r]) + 1,
                             db.runs[r].checkpointOut, at);
    var linked := queued.(runs := queued.runs[c := queued.runs[c].(retryOf := Some(r))]);
    MarkEvaluated(linked, r, false)
  }

  /** A manual enqueue: refused for an unknown job and by the overlap guard. */
  ghost predicate IsManualEnqueue(before: Db, j: JobId, at: int, after: Db) {
    after == if j in before.jobs && (before.jobs[j].allowOverlap || !HasActiveRun(before, j))
             then EnqueueRun(before, Some(j), before.jobs[j].runnerType, Manual, 1, None, at)
             else before
  }

  // ----- a whole tick, run without interleaving

  function TickJobs(db: Db, due: seq<JobId>, now: int, o: Outside, log: TickLog): (Db, TickLog)
    requires forall j :: j in due ==> j in db.jobs
    decreases |due|
  {
    if due == [] then (db, log)
    else
      assert due[0] in due;
      var step := TickJob(db, due[0], now, false, o.rand(due[0]), o.insertedAt(|db.runs|));
      TickJobs(step.db, due[1..], now, o, LogJob(log, due[0], step.event))
  }

  function TickRetries(db: Db, cands: seq<RunId>, now: int, o: Outside, log: TickLog): (Db, TickLog)
    requires forall r :: r in cands ==> r < |db.runs|
    decreases |cands|
  {
    if cands == [] then (db, log)
    else
      assert cands[0] in cands && forall r :: r in cands[1..] ==> r in cands;
      var step := TickRetry(db, cands[0], now, false, o.insertedAt(|db.runs|));
      TickRetries(step.db, cands[1..], now, o, LogRetry(log, step.child))
  }

  /** A tick: the due jobs, then the candidates as they stand after the due jobs. */
  ghost predicate IsTick(before: Db, now: int, limit: nat, o: Outside,
                         due: seq<JobId>, cands: seq<RunId>, after: Db, log: TickLog)
  {
    && IsDueList(before, now, limit, due)
    && var (mid, midLog) := TickJobs(before, due, now, o, EMPTY_LOG);
       && IsCandidateList(mid, limit, cands)
       && (after, log) == TickRetries(mid, cands, now, o, midLog)
  }
}
