/** The scheduler's tables and what the repository functions do to them
    (pricewatch/db/repositories/scrape_run_repository.py, scrape_job_repository.py). */
module ScrapeDb {
  import opened Basics
  import opened Schedules

  type JobId = nat
  type RunId = nat
  type WorkerId = nat

  /** A JSON column: NULL or an object. */
  type Payload = Option<map<string, string>>

  datatype Status = Queued | Running | Success | Partial | Failed
  type Verdict = s: Status | s.Success? || s.Partial? || s.Failed? witness Success

  datatype Trigger = Scheduled | Manual | Retry

  datatype Job = Job(
    runnerType: string,
    enabled: bool,
    priority: int,
    allowOverlap: bool,
    maxRetries: int,
    retryBackoffSec: int,
    nextRunAt: Option<int>,
    lastRunAt: Option<int>,
    timeoutSec: Option<int>,
    concurrencyKey: Option<string>,
    params: Payload)

  datatype Run = Run(
    jobId: Option<JobId>,
    runType: string,
    trigger: Trigger,
    status: Status,
    attempt: nat,
    queuedAt: int,
    finishedAt: Option<int>,
    workerId: Option<WorkerId>,
    checkpointIn: Payload,
    checkpointOut: Payload,
    retryable: bool,
    retryOf: Option<RunId>,
    retryProcessed: bool,
    retryExhausted: bool)

  /** The tables. A run's id is its position in `runs`, as ids come from a counter and
      runs are never deleted; `schedules` holds the enabled schedule a job's lookup finds. */
  datatype Db = Db(jobs: map<JobId, Job>, schedules: map<JobId, Schedule>, runs: seq<Run>)

  /** The columns an update may carry; None leaves the column alone. */
  datatype JobPatch = JobPatch(
    enabled: Option<bool>,
    priority: Option<int>,
    allowOverlap: Option<bool>,
    maxRetries: Option<int>,
    retryBackoffSec: Option<int>,
    nextRunAt: Option<int>,
    timeoutSec: Option<int>,
    concurrencyKey: Option<string>,
    params: Payload)

  /** An empty object is stored as NULL. */
  function Truthy(p: Payload): Payload {
    if p == Some(map[]) then None else p
  }

  predicate Active(status: Status) {
    status.Queued? || status.Running?
  }

  predicate ActiveRunOf(db: Db, j: JobId, i: RunId) {
    i < |db.runs| && db.runs[i].jobId == Some(j) && Active(db.runs[i].status)
  }

  predicate HasActiveRun(db: Db, j: JobId) {
    exists i :: 0 <= i < |db.runs| && ActiveRunOf(db, j, i)
  }

  function EnqueueRun(db: Db, jobId: Option<JobId>, runType: string, trigger: Trigger,
                      attempt: nat, checkpointIn: Payload, at: int): Db
  {
    db.(runs := db.runs + [Run(jobId, runType, trigger, Queued, attempt, at, None, None,
                               Truthy(checkpointIn), None, false, None, false, false)])
  }

  function ClaimRun(db: Db, r: RunId, w: WorkerId): Db
    requires r < |db.runs|
  {
    db.(runs := db.runs[r := db.runs[r].(status := Running, workerId := Some(w))])
  }

  function CompleteRun(db: Db, r: RunId, status: Verdict, checkpointOut: Payload,
                       retryable: bool, at: int): Db
    requires r < |db.runs|
  {
    var run := db.runs[r];
    db.(runs := db.runs[r := run.(
      status := status,
      finishedAt := Some(at),
      checkpointOut := if checkpointOut.Some? then checkpointOut else run.checkpointOut,
      retryable := retryable && status == Failed)])
  }

  /** The scheduler's flags on an evaluated run. */
  function MarkEvaluated(db: Db, r: RunId, exhausted: bool): Db
    requires r < |db.runs|
  {
    var run := db.runs[r];
    db.(runs := db.runs[r := run.(retryProcessed := true,
                                  retryExhausted := run.retryExhausted || exhausted)])
  }

  function SetJobNextRunAt(db: Db, j: JobId, next: int, last: Option<int>): Db
    requires j in db.jobs
  {
    var job := db.jobs[j];
    db.(jobs := db.jobs[j := job.(nextRunAt := Some(next),
                                  lastRunAt := if last.Some? then last else job.lastRunAt)])
  }

  /** A column is assigned when a value is given. */
  function Assigned<T>(given: Option<T>, column: T): T {
    given.GetOr(column)
  }

  function AssignedNullable<T>(given: Option<T>, column: Option<T>): Option<T> {
    if given.Some? then given else column
  }

  function PatchedJob(job: Job, p: JobPatch): Job {
    job.(enabled := Assigned(p.enabled, job.enabled),
         priority := Assigned(p.priority, job.priority),
         allowOverlap := Assigned(p.allowOverlap, job.allowOverlap),
         maxRetries := Assigned(p.maxRetries, job.maxRetries),
         retryBackoffSec := Assigned(p.retryBackoffSec, job.retryBackoffSec),
         nextRunAt := AssignedNullable(p.nextRunAt, job.nextRunAt),
         timeoutSec := AssignedNullable(p.timeoutSec, job.timeoutSec),
         concurrencyKey := AssignedNullable(p.concurrencyKey, job.concurrencyKey),
         params := AssignedNullable(p.params, job.params))
  }

  /** What an update of a job does to the tables; an unknown job changes nothing. */
  ghost predicate IsUpdate(before: Db, j: JobId, p: JobPatch, after: Db) {
    after.jobs == (if j in before.jobs then before.jobs[j := PatchedJob(before.jobs[j], p)] else before.jobs)
    && after.schedules == before.schedules && after.runs == before.runs
  }

  // ----- the work queue

  /** The queue order: oldest queued_at, then lowest id. */
  predicate Before(db: Db, a: RunId, b: RunId)
    requires a < |db.runs| && b < |db.runs|
  {
    db.runs[a].queuedAt < db.runs[b].queuedAt
    || (db.runs[a].queuedAt == db.runs[b].queuedAt && a < b)
  }

  predicate Claimable(db: Db, locked: set<RunId>, i: RunId) {
    i < |db.runs| && db.runs[i].status == Queued && i !in locked
  }

  /** The row that SELECT .. FOR UPDATE SKIP LOCKED returns: locked rows are passed over. */
  ghost predicate IsNextQueued(db: Db, locked: set<RunId>, r: RunId) {
    && Claimable(db, locked, r)
    && forall i :: Claimable(db, locked, i) && i != r ==> Before(db, r, i)
  }

  // ----- the scheduler's two queries

  predicate IsDue(db: Db, now: int, j: JobId) {
    j in db.jobs && db.jobs[j].enabled && db.jobs[j].nextRunAt.Some? && db.jobs[j].nextRunAt.value <= now
  }

  function DueJobs(db: Db, now: int): set<JobId> {
    set j | j in db.jobs && IsDue(db, now, j)
  }

  /** Higher priority first, then the earlier next_run_at. */
  function DueOrder(db: Db): (JobId, JobId) -> bool {
    (a: JobId, b: JobId) =>
      if a in db.jobs && b in db.jobs && db.jobs[a].nextRunAt.Some? && db.jobs[b].nextRunAt.Some? then
        var (x, y) := (db.jobs[a], db.jobs[b]);
        x.priority > y.priority || (x.priority == y.priority && x.nextRunAt.value <= y.nextRunAt.value)
      else false
  }

  ghost predicate IsDueList(db: Db, now: int, limit: nat, due: seq<JobId>) {
    IsLimitedQuery(due, DueJobs(db, now), limit, DueOrder(db))
  }

  /** Failed, retryable, not evaluated, not exhausted and without a retry child. */
  predicate IsCandidate(db: Db, r: RunId) {
    && r < |db.runs|
    && db.runs[r].status == Failed
    && db.runs[r].retryable
    && !db.runs[r].retryProcessed
    && !db.runs[r].retryExhausted
    && forall c :: 0 <= c < |db.runs| ==> db.runs[c].retryOf != Some(r)
  }

  function Candidates(db: Db): set<RunId> {
    set r: RunId | r < |db.runs| && IsCandidate(db, r)
  }

  /** Earliest finished_at first, NULL last. */
  function CandidateOrder(db: Db): (RunId, RunId) -> bool {
    (a: RunId, b: RunId) =>
      if a < |db.runs| && b < |db.runs| then
        var (x, y) := (db.runs[a].finishedAt, db.runs[b].finishedAt);
        y.None? || (x.Some? && x.value <= y.value)
      else false
  }

  ghost predicate IsCandidateList(db: Db, limit: nat, cands: seq<RunId>) {
    IsLimitedQuery(cands, Candidates(db), limit, CandidateOrder(db))
  }
}
