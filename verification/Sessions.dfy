/** The scheduler, the worker and the job routes as programs over the tables,
    each proved against its specification function. */
module Sessions {
  import opened Basics
  import opened Schedules
  import opened ScrapeDb
  import opened SchedulerSpec
  import opened WorkerSpec
  import opened Invariants
  import opened StepLaws

  datatype Reply = NotFound | Conflict | Accepted(run: RunId)

  // ----- the contracts in columns

  /** The job is enabled and its planned time has come. */
  predicate EnabledAndPlanned(db: Db, now: int, j: JobId) {
    j in db.jobs && db.jobs[j].enabled && db.jobs[j].nextRunAt.Some? && db.jobs[j].nextRunAt.value <= now
  }

  /** The job has the higher priority, or the same one and no later planned time. */
  predicate Outranks(jobs: map<JobId, Job>, a: JobId, b: JobId) {
    && a in jobs && b in jobs && jobs[a].nextRunAt.Some? && jobs[b].nextRunAt.Some?
    && (jobs[a].priority > jobs[b].priority
        || (jobs[a].priority == jobs[b].priority && jobs[a].nextRunAt.value <= jobs[b].nextRunAt.value))
  }

  lemma DueInColumns(db: Db, now: int, limit: nat, due: seq<JobId>)
    requires IsDueList(db, now, limit, due)
    ensures |due| <= limit && Distinct(due)
    ensures forall j :: j in due ==> EnabledAndPlanned(db, now, j)
    ensures forall i, k :: 0 <= i < k < |due| ==> Outranks(db.jobs, due[i], due[k])
    ensures forall j :: j !in due && EnabledAndPlanned(db, now, j) ==>
              |due| == limit && forall d :: d in due ==> Outranks(db.jobs, d, j)
  {
    forall j | j in due ensures EnabledAndPlanned(db, now, j) { assert j in DueJobs(db, now); }
    forall i, k | 0 <= i < k < |due| ensures Outranks(db.jobs, due[i], due[k]) {
      assert DueOrder(db)(due[i], due[k]) && due[i] in due && due[k] in due;
    }
    forall j | j !in due && EnabledAndPlanned(db, now, j)
      ensures |due| == limit && forall d :: d in due ==> Outranks(db.jobs, d, j)
    {
      assert j in DueJobs(db, now);
      LimitReached(due, DueJobs(db, now), limit, DueOrder(db), j);
    }
  }

  /** A limited query leaves a row out only when the limit is reached. */
  lemma {:induction false} LimitReached(s: seq<nat>, all: set<nat>, limit: nat, leq: (nat, nat) -> bool, x: nat)
    requires IsLimitedQuery(s, all, limit, leq) && x in all && x !in s
    ensures |s| == limit && forall y :: y in s ==> leq(y, x)
  {
    DistinctSize(s);
    SubsetSize(Elements(s), all);
    assert x !in Elements(s);
  }

  /** A failed, retryable run that no evaluation has closed and that has no retry. */
  predicate AwaitsRetry(db: Db, r: RunId) {
    && r < |db.runs| && db.runs[r].status == Failed && db.runs[r].retryable
    && !db.runs[r].retryProcessed && !db.runs[r].retryExhausted
    && forall c :: 0 <= c < |db.runs| ==> db.runs[c].retryOf != Some(r)
  }

  /** The run finished no later than the other one; without a finish time it comes last. */
  predicate FinishedNoLater(db: Db, a: RunId, b: RunId) {
    && a < |db.runs| && b < |db.runs|
    && (db.runs[b].finishedAt.Some? ==>
          db.runs[a].finishedAt.Some? && db.runs[a].finishedAt.value <= db.runs[b].finishedAt.value)
  }

  lemma CandidatesInColumns(db: Db, limit: nat, cands: seq<RunId>)
    requires IsCandidateList(db, limit, cands)
    ensures |cands| <= limit && Distinct(cands)
    ensures forall r :: r in cands ==> AwaitsRetry(db, r)
    ensures forall i, k :: 0 <= i < k < |cands| ==> FinishedNoLater(db, cands[i], cands[k])
    ensures forall r :: r !in cands && AwaitsRetry(db, r) ==>
              |cands| == limit && forall q :: q in cands ==> FinishedNoLater(db, q, r)
  {
    forall r | r in cands ensures AwaitsRetry(db, r) { assert r in Candidates(db) && IsCandidate(db, r); }
    forall i, k | 0 <= i < k < |cands| ensures FinishedNoLater(db, cands[i], cands[k]) {
      assert CandidateOrder(db)(cands[i], cands[k]) && cands[i] in cands && cands[k] in cands;
    }
    forall r | r !in cands && AwaitsRetry(db, r)
      ensures |cands| == limit && forall q :: q in cands ==> FinishedNoLater(db, q, r)
    {
      assert IsCandidate(db, r) && r in Candidates(db);
      LimitReached(cands, Candidates(db), limit, CandidateOrder(db), r);
    }
  }

  lemma QueueInColumns(db: Db, locked: set<RunId>, claimed: Option<RunId>)
    requires claimed.Some? ==> IsNextQueued(db, locked, claimed.value)
    requires claimed.None? ==> forall i :: !Claimable(db, locked, i)
    ensures claimed.None? ==> forall i :: 0 <= i < |db.runs| && db.runs[i].status == Queued ==> i in locked
    ensures claimed.Some? ==>
      var r := claimed.value;
      && r < |db.runs| && db.runs[r].status == Queued && r !in locked
      && forall i :: 0 <= i < |db.runs| && db.runs[i].status == Queued && i !in locked ==>
           db.runs[r].queuedAt < db.runs[i].queuedAt || (db.runs[r].queuedAt == db.runs[i].queuedAt && r <= i)
  {
    forall i | 0 <= i < |db.runs| && db.runs[i].status == Queued && i !in locked
      ensures claimed.Some? && (i == claimed.value || Before(db, claimed.value, i))
    {
      assert Claimable(db, locked, i);
    }
  }

  /** The row of a run that a worker has processed: failed and not retryable, with its checkpoint as
      before, when there was no runner or it raised; otherwise as the runner returned. */
  predicate Completed(before: Run, o: Outcome, w: WorkerId, at: int, after: Run) {
    && after == before.(workerId := Some(w), finishedAt := Some(at), status := after.status,
                        checkpointOut := after.checkpointOut, retryable := after.retryable)
    && match o
       case NoRunner => after.status == Failed && !after.retryable && after.checkpointOut == before.checkpointOut
       case Raised => after.status == Failed && !after.retryable && after.checkpointOut == before.checkpointOut
       case Returned(status, retryable, checkpoint) =>
         && after.status == status && (after.retryable <==> retryable && status == Failed)
         && after.checkpointOut == if checkpoint.Some? then checkpoint else before.checkpointOut
  }

  /** A database session with its view of the tables. */
  class Session {
    var jobs: map<JobId, Job>
    var schedules: map<JobId, Schedule>
    var runs: seq<Run>

    constructor (db: Db)
      ensures Tables() == db
    {
      jobs, schedules, runs := db.jobs, db.schedules, db.runs;
    }

    function Tables(): Db
      reads this
    {
      Db(jobs, schedules, runs)
    }

    // ----- scrape_run_repository.py

    method EnqueueRun(jobId: Option<JobId>, runType: string, trigger: Trigger, attempt: nat,
                      checkpointIn: Payload, at: int) returns (run: RunId)
      modifies this`runs
      ensures run == |old(runs)|
      ensures Tables() == ScrapeDb.EnqueueRun(old(Tables()), jobId, runType, trigger, attempt, checkpointIn, at)
      ensures |runs| == run + 1 && runs[..run] == old(runs)
      ensures var r := runs[run];
              && r.jobId == jobId && r.runType == runType && r.trigger == trigger && r.attempt == attempt
              && r.status == Queued && r.queuedAt == at && r.finishedAt.None? && r.workerId.None?
              && r.checkpointIn == (if checkpointIn == Some(map[]) then None else checkpointIn) && r.checkpointOut.None?
              && !r.retryable && r.retryOf.None? && !r.retryProcessed && !r.retryExhausted
    {
      run := |runs|;
      runs := runs + [Run(jobId, runType, trigger, Queued, attempt, at, None, None,
                          if checkpointIn == Some(map[]) then None else checkpointIn,
                          None, false, None, false, false)];
    }

    /** `locked` are the rows that other transactions hold. */
    method ClaimNextQueuedRun(w: WorkerId, locked: set<RunId>) returns (claimed: Option<RunId>)
      modifies this`runs
      ensures claimed.None? ==> Tables() == old(Tables()) && forall i :: !Claimable(Tables(), locked, i)
      ensures claimed.Some? ==>
        && IsNextQueued(old(Tables()), locked, claimed.value)
        && Tables() == ClaimRun(old(Tables()), claimed.value, w)
      ensures claimed.None? ==> forall i :: 0 <= i < |runs| && runs[i].status == Queued ==> i in locked
      ensures claimed.Some? ==>
        var (r, rows) := (claimed.value, old(runs));
        && r < |rows| && rows[r].status == Queued && r !in locked
        && runs == rows[r := rows[r].(status := Running, workerId := Some(w))]
        && forall i :: 0 <= i < |rows| && rows[i].status == Queued && i !in locked ==>
             rows[r].queuedAt < rows[i].queuedAt || (rows[r].queuedAt == rows[i].queuedAt && r <= i)
    {
      claimed := None;
      var i := 0;
      while i < |runs|
        invariant i <= |runs|
        invariant claimed.None? ==> forall k: nat :: k < i ==> !Claimable(Tables(), locked, k)
        invariant claimed.Some? ==>
          && claimed.value < i && Claimable(Tables(), locked, claimed.value)
          && forall k: nat :: k < i && Claimable(Tables(), locked, k) && k != claimed.value ==> Before(Tables(), claimed.value, k)
      {
        if runs[i].status == Queued && i !in locked
           && (claimed.None? || runs[i].queuedAt < runs[claimed.value].queuedAt) {
          claimed := Some(i);
        }
        i := i + 1;
      }
      if claimed.Some? {
        runs := runs[claimed.value := runs[claimed.value].(status := Running, workerId := Some(w))];
      }
      QueueInColumns(old(Tables()), locked, claimed);
    }

    method CompleteRun(r: RunId, status: Verdict, checkpointOut: Payload, retryable: bool, at: int)
      returns (found: bool)
      modifies this`runs
      ensures found == (r < |old(runs)|)
      ensures Tables() == if found then ScrapeDb.CompleteRun(old(Tables()), r, status, checkpointOut, retryable, at)
                          else old(Tables())
      ensures found ==>
        runs == old(runs)[r := old(runs)[r].(
          status := status,
          finishedAt := Some(at),
          checkpointOut := if checkpointOut.Some? then checkpointOut else old(runs)[r].checkpointOut,
          retryable := retryable && status == Failed)]
    {
      found := r < |runs|;
      if found {
        var run := runs[r].(status := status, finishedAt := Some(at));
        if checkpointOut.Some? {
          run := run.(checkpointOut := checkpointOut);
        }
        run := run.(retryable := retryable && status == Failed);
        runs := runs[r := run];
      }
    }

    method ListRetryCandidates(limit: nat) returns (cands: seq<RunId>)
      ensures IsCandidateList(Tables(), limit, cands)
      ensures |cands| <= limit && Distinct(cands)
      ensures forall r :: r in cands ==> AwaitsRetry(Tables(), r)
      ensures forall i, k :: 0 <= i < k < |cands| ==> FinishedNoLater(Tables(), cands[i], cands[k])
      ensures forall r :: r !in cands && AwaitsRetry(Tables(), r) ==>
                |cands| == limit && forall q :: q in cands ==> FinishedNoLater(Tables(), q, r)
    {
      var db := Tables();
      cands := LimitedQuery(Candidates(db), limit, CandidateOrder(db));
      CandidatesInColumns(db, limit, cands);
    }

    // ----- scrape_job_repository.py

    method ListDueScrapeJobs(now: int, limit: nat) returns (due: seq<JobId>)
      ensures IsDueList(Tables(), now, limit, due)
      ensures |due| <= limit && Distinct(due)
      ensures forall j :: j in due ==> EnabledAndPlanned(Tables(), now, j)
      ensures forall i, k :: 0 <= i < k < |due| ==> Outranks(jobs, due[i], due[k])
      ensures forall j :: j !in due && EnabledAndPlanned(Tables(), now, j) ==>
                |due| == limit && forall d :: d in due ==> Outranks(jobs, d, j)
    {
      var db := Tables();
      due := LimitedQuery(DueJobs(db, now), limit, DueOrder(db));
      DueInColumns(db, now, limit, due);
    }

    method SetJobNextRunAt(j: JobId, next: int, last: Option<int>) returns (found: bool)
      modifies this`jobs
      ensures found == (j in old(jobs))
      ensures Tables() == if found then ScrapeDb.SetJobNextRunAt(old(Tables()), j, next, last) else old(Tables())
      ensures found ==>
        jobs == old(jobs)[j := old(jobs)[j].(nextRunAt := Some(next),
                                             lastRunAt := if last.Some? then last else old(jobs)[j].lastRunAt)]
    {
      found := j in jobs;
      if found {
        var job := jobs[j].(nextRunAt := Some(next));
        if last.Some? {
          job := job.(lastRunAt := last);
        }
        jobs := jobs[j := job];
      }
    }

    static method Assign<T>(given: Option<T>, column: T) returns (value: T)
      ensures value == Assigned(given, column) && value == if given.Some? then given.value else column
    {
      value := column;
      if given.Some? {
        value := given.value;
      }
    }

    static method AssignNullable<T>(given: Option<T>, column: Option<T>) returns (value: Option<T>)
      ensures value == AssignedNullable(given, column) && value == if given.Some? then given else column
    {
      value := column;
      if given.Some? {
        value := given;
      }
    }

    method UpdateScrapeJob(j: JobId, p: JobPatch) returns (found: bool)
      modifies this`jobs
      ensures found == (j in old(jobs))
      ensures IsUpdate(old(Tables()), j, p, Tables())
      ensures jobs.Keys == old(jobs).Keys && forall k :: k in jobs && k != j ==> jobs[k] == old(jobs)[k]
      ensures found ==>
        var (before, after) := (old(jobs)[j], jobs[j]);
        && after.enabled == (if p.enabled.Some? then p.enabled.value else before.enabled)
        && after.priority == (if p.priority.Some? then p.priority.value else before.priority)
        && after.allowOverlap == (if p.allowOverlap.Some? then p.allowOverlap.value else before.allowOverlap)
        && after.maxRetries == (if p.maxRetries.Some? then p.maxRetries.value else before.maxRetries)
        && after.retryBackoffSec == (if p.retryBackoffSec.Some? then p.retryBackoffSec.value else before.retryBackoffSec)
        && after.nextRunAt == (if p.nextRunAt.Some? then p.nextRunAt else before.nextRunAt)
        && after.timeoutSec == (if p.timeoutSec.Some? then p.timeoutSec else before.timeoutSec)
        && after.concurrencyKey == (if p.concurrencyKey.Some? then p.concurrencyKey else before.concurrencyKey)
        && after.params == (if p.params.Some? then p.params else before.params)
        && after.runnerType == before.runnerType && after.lastRunAt == before.lastRunAt
    {
      hide Assigned, AssignedNullable;
      found := j in jobs;
      if found {
        var job := jobs[j];
        var enabled := Assign(p.enabled, job.enabled);
        var priority := Assign(p.priority, job.priority);
        var allowOverlap := Assign(p.allowOverlap, job.allowOverlap);
        var timeoutSec := AssignNullable(p.timeoutSec, job.timeoutSec);
        var maxRetries := Assign(p.maxRetries, job.maxRetries);
        var retryBackoffSec := Assign(p.retryBackoffSec, job.retryBackoffSec);
        var concurrencyKey := AssignNullable(p.concurrencyKey, job.concurrencyKey);
        var nextRunAt := AssignNullable(p.nextRunAt, job.nextRunAt);
        var params := AssignNullable(p.params, job.params);
        jobs := jobs[j := Job(job.runnerType, enabled, priority, allowOverlap, maxRetries, retryBackoffSec, nextRunAt,
                              job.lastRunAt, timeoutSec, concurrencyKey, params)];
      }
    }

    // ----- admin_scheduler_job_routes.py

    method ManualEnqueueJob(j: JobId, at: int) returns (reply: Reply)
      modifies this`runs
      ensures j !in jobs ==> reply == NotFound
      ensures j in jobs && !jobs[j].allowOverlap && !NoneActive(old(Tables()), j) ==> reply == Conflict
      ensures j in jobs && (jobs[j].allowOverlap || NoneActive(old(Tables()), j)) ==>
        && reply == Accepted(|old(runs)|)
        && runs == old(runs) + [Run(Some(j), jobs[j].runnerType, Manual, Queued, 1, at, None, None,
                                    None, None, false, None, false, false)]
      ensures !reply.Accepted? ==> runs == old(runs)
      ensures IsManualEnqueue(old(Tables()), j, at, Tables())
      ensures Tables() == if reply.Accepted?
                          then ScrapeDb.EnqueueRun(old(Tables()), Some(j), jobs[j].runnerType, Manual, 1, None, at)
                          else old(Tables())
    {
      ActiveOrNone(Tables(), j);
      hide HasActiveRun, NoneActive;
      if j !in jobs {
        return NotFound;
      }
      if !jobs[j].allowOverlap && HasActiveRun(Tables(), j) {
        return Conflict;
      }
      var run := EnqueueRun(Some(j), jobs[j].runnerType, Manual, 1, None, at);
      reply := Accepted(run);
    }

    // ----- scheduler.py

    method AdvanceJobNextRun(j: JobId, now: int)
      requires j in jobs
      modifies this`jobs
      ensures Tables() == AdvanceSkipped(old(Tables()), j, now)
      ensures jobs.Keys == old(jobs).Keys && forall k :: k in jobs && k != j ==> jobs[k] == old(jobs)[k]
      ensures if j in schedules then Replanned(old(Tables()), j, now, 0, false, jobs[j]) else jobs[j] == old(jobs)[j]
    {
      if j in schedules {
        AdvanceIsExact(schedules[j].timing, jobs[j].nextRunAt.GetOr(now), now, 0, 0);
      }
      hide NextTimeIs;
      if j !in schedules {
        return;
      }
      var next := AdvanceNextRun(schedules[j].timing, jobs[j].nextRunAt.GetOr(now), now, 0, 0);
      if next.Some? {
        var _ := SetJobNextRunAt(j, next.value, None);
      }
    }

    /** One due job of the first phase. */
    method TickOneJob(j: JobId, now: int, rand: nat, at: int) returns (event: JobEvent, ghost draw: nat)
      requires j in jobs
      modifies this`jobs, this`runs
      ensures JobStep(Tables(), event) == TickJob(old(Tables()), j, now, false, rand, at)
      ensures event.Overlap? <==> Blocked(old(Tables()), j, false)
      ensures event.NoSchedule? <==> !Blocked(old(Tables()), j, false) && j !in schedules
      ensures var fires := !Blocked(old(Tables()), j, false) && j in schedules;
              && runs == old(runs) + (if fires then [Run(Some(j), old(jobs)[j].runnerType, Scheduled, Queued, 1, at, None, None,
                                                         None, None, false, None, false, false)] else [])
              && jobs.Keys == old(jobs).Keys && (forall k :: k in jobs && k != j ==> jobs[k] == old(jobs)[k])
              && (j in schedules ==> draw <= Max(schedules[j].jitterSec, 0) && Replanned(old(Tables()), j, now, draw, fires, jobs[j]))
              && (j !in schedules ==> jobs[j] == old(jobs)[j])
    {
      draw := JobStepIsExact(Tables(), j, now, false, rand, at);
      hide Blocked, Replanned, NextTimeIs;
      var job := jobs[j];
      if !job.allowOverlap && HasActiveRun(Tables(), j) {
        AdvanceJobNextRun(j, now);
        return Overlap, draw;
      }
      if j !in schedules {
        return NoSchedule, draw;
      }
      var run := EnqueueRun(Some(j), job.runnerType, Scheduled, 1, None, at);
      var next := AdvanceNextRun(schedules[j].timing, job.nextRunAt.GetOr(now), now, schedules[j].jitterSec, rand);
      if next.None? {
        return Unadvanced(run), draw;
      }
      var _ := SetJobNextRunAt(j, next.value, Some(now));
      event := Fired(run);
    }

    /** One candidate of the second phase. */
    method TickOneCandidate(r: RunId, now: int, at: int) returns (child: Option<RunId>)
      requires r < |runs|
      modifies this`runs
      ensures RetryStep(Tables(), child) == TickRetry(old(Tables()), r, now, false, at)
      ensures child == if IsRetried(old(Tables()), old(runs)[r], now, false) then Some(|old(runs)|) else None
      ensures |runs| == |old(runs)| + (if child.Some? then 1 else 0)
      ensures child.Some? ==> IsChild(old(Tables()), r, at, runs[|old(runs)|])
      ensures forall q :: 0 <= q < |old(runs)| && q != r ==> runs[q] == old(runs)[q]
      ensures var (run, gone) := (old(runs)[r], BudgetGone(old(Tables()), old(runs)[r]));
              runs[r] == run.(
                retryProcessed := run.retryProcessed || child.Some? || !JobEnabled(old(Tables()), run) || gone,
                retryExhausted := run.retryExhausted || gone)
    {
      EvaluationIsExact(Tables(), r, now, false, at);
      hide IsRetried, IsChild, JobEnabled, BudgetGone;
      child := None;
      var source := runs[r];
      if source.jobId.None? || source.jobId.value !in jobs || !jobs[source.jobId.value].enabled {
        runs := runs[r := source.(retryProcessed := true)];
        return;
      }
      var job := jobs[source.jobId.value];
      var attempt := if source.attempt == 0 then 1 else source.attempt;
      if attempt - 1 >= job.maxRetries {
        runs := runs[r := source.(retryProcessed := true, retryExhausted := true)];
        return;
      }
      if source.finishedAt.None? {
        return;
      }
      var backoff := if job.retryBackoffSec == 0 then 60 else job.retryBackoffSec;
      if source.finishedAt.value + backoff > now {
        return;
      }
      if !job.allowOverlap && HasActiveRun(Tables(), source.jobId.value) {
        return;
      }
      var run := EnqueueRun(source.jobId, job.runnerType, Retry, attempt + 1, source.checkpointOut, at);
      runs := runs[run := runs[run].(retryOf := Some(r))];
      runs := runs[r := source.(retryProcessed := true)];
      child := Some(run);
    }

    method ProcessRetryCandidates(log0: TickLog, now: int, limit: nat, o: Outside)
      returns (log: TickLog, cands: seq<RunId>)
      modifies this`runs
      ensures IsCandidateList(old(Tables()), limit, cands)
      ensures forall r :: r in cands ==> r < |old(runs)|
      ensures (Tables(), log) == TickRetries(old(Tables()), cands, now, o, log0)
    {
      log := log0;
      cands := ListRetryCandidates(limit);
      var i := 0;
      while i < |cands|
        invariant i <= |cands|
        invariant forall r :: r in cands ==> r < |old(runs)| <= |runs|
        invariant forall r :: r in cands[i..] ==> r in cands
        invariant TickRetries(Tables(), cands[i..], now, o, log) == TickRetries(old(Tables()), cands, now, o, log0)
      {
        assert cands[i] in cands && cands[i..][0] == cands[i] && cands[i..][1..] == cands[i + 1..];
        var child := TickOneCandidate(cands[i], now, o.insertedAt(|runs|));
        log := LogRetry(log, child);
        i := i + 1;
      }
    }

    /** A tick: at most `limit` due jobs, then at most `limit` retry candidates. */
    method RunTick(now: int, limit: nat, o: Outside)
      returns (log: TickLog, due: seq<JobId>, cands: seq<RunId>)
      modifies this`jobs, this`runs
      ensures IsTick(old(Tables()), now, limit, o, due, cands, Tables(), log)
    {
      log := EMPTY_LOG;
      due := ListDueScrapeJobs(now, limit);
      var i := 0;
      while i < |due|
        invariant i <= |due| && schedules == old(schedules)
        invariant forall j :: j in due ==> j in jobs
        invariant forall j :: j in due[i..] ==> j in due
        invariant TickJobs(Tables(), due[i..], now, o, log) == TickJobs(old(Tables()), due, now, o, EMPTY_LOG)
      {
        assert due[i] in due && due[i..][0] == due[i] && due[i..][1..] == due[i + 1..];
        var event, _ := TickOneJob(due[i], now, o.rand(due[i]), o.insertedAt(|runs|));
        log := LogJob(log, due[i], event);
        i := i + 1;
      }
      log, cands := ProcessRetryCandidates(log, now, limit, o);
    }

    // ----- worker.py

    /** Claims and executes one run. `execute` is the runner registry and the runners. */
    method ProcessOne(w: WorkerId, locked: set<RunId>, execute: Run -> Outcome, at: int)
      returns (claimed: Option<RunId>)
      modifies this`runs
      ensures claimed.None? ==> Tables() == old(Tables()) && forall i :: !Claimable(Tables(), locked, i)
      ensures claimed.Some? ==>
        && IsNextQueued(old(Tables()), locked, claimed.value)
        && Tables() == Executed(old(Tables()), claimed.value, w, execute, at)
      ensures claimed.Some? ==>
        var (r, rows) := (claimed.value, old(runs));
        && r < |rows| && rows[r].status == Queued && |runs| == |rows|
        && (forall q :: 0 <= q < |rows| && q != r ==> runs[q] == rows[q])
        && Completed(rows[r], execute(rows[r].(status := Running, workerId := Some(w))), w, at, runs[r])
    {
      claimed := ClaimNextQueuedRun(w, locked);
      if claimed.None? {
        return;
      }
      match execute(runs[claimed.value]) {
        case NoRunner =>
          var _ := CompleteRun(claimed.value, Failed, None, false, at);
        case Raised =>
          var _ := CompleteRun(claimed.value, Failed, None, false, at);
        case Returned(status, retryable, checkpointOut) =>
          var _ := CompleteRun(claimed.value, status, checkpointOut, retryable, at);
      }
    }
  }

  /** The committed tables. */
  class Database {
    var committed: Db

    constructor (db: Db)
      ensures committed == db
    {
      committed := db;
    }

    /** One iteration of the worker loop, its session the only writer meanwhile. `raises`
        says that an exception escapes after the run was processed, so that the session
        rolls back. */
    method WorkerIteration(w: WorkerId, locked: set<RunId>, execute: Run -> Outcome, at: int, raises: bool)
      returns (claimed: Option<RunId>)
      modifies this
      ensures IsWork(old(committed), w, locked, execute, at, raises, claimed, committed)
      ensures claimed.None? || raises ==> committed == old(committed)
      ensures claimed.Some? && !raises ==>
        var (r, rows) := (claimed.value, old(committed).runs);
        && committed == old(committed).(runs := committed.runs)
        && r < |rows| && rows[r].status == Queued && r !in locked && |committed.runs| == |rows|
        && (forall q :: 0 <= q < |rows| && q != r ==> committed.runs[q] == rows[q])
        && Completed(rows[r], execute(rows[r].(status := Running, workerId := Some(w))), w, at, committed.runs[r])
    {
      var session := new Session(committed);
      claimed := session.ProcessOne(w, locked, execute, at);
      if claimed.Some? && !raises {
        committed := session.Tables();
      }
    }
  }
}
