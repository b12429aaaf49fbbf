/** What every reachable state of the protocol satisfies. */
module Invariants {
  import opened Basics
  import opened ScrapeDb
  import opened SchedulerSpec
  import opened WorkerSpec
  import opened Protocol

  // ----- well-formed tables

  /** A retry link: `c` was created from `p`. */
  ghost predicate LinkOk(db: Db, c: RunId, p: RunId)
    requires c < |db.runs|
  {
    && p < c
    && var (parent, child) := (db.runs[p], db.runs[c]);
       && parent.jobId == child.jobId
       && child.attempt == parent.attempt + 1
       && child.checkpointIn == (if parent.checkpointOut == Some(map[]) then None else parent.checkpointOut)
       && parent.status == Failed && parent.retryable
       && parent.retryProcessed && !parent.retryExhausted
  }

  /** The lifecycle of a run's columns. */
  ghost predicate RunOk(db: Db, i: RunId)
    requires i < |db.runs|
  {
    var r := db.runs[i];
    && r.jobId.Some? && r.jobId.value in db.jobs
    && r.attempt >= 1
    && !r.status.Running?
    && (r.status == Queued ==> r.finishedAt.None? && r.workerId.None? && r.checkpointOut.None? && !r.retryable)
    && (r.status != Queued ==> r.finishedAt.Some? && r.workerId.Some?)
    && (r.retryable ==> r.status == Failed)
    && (r.retryProcessed ==> r.retryable)
    && (r.retryExhausted ==> r.retryProcessed)
    && (r.trigger == Retry <==> r.retryOf.Some?)
    && (r.retryOf.None? <==> r.attempt == 1)
    && (r.retryOf.Some? ==> LinkOk(db, i, r.retryOf.value))
  }

  ghost predicate OneChild(db: Db) {
    forall c, d | 0 <= c < |db.runs| && 0 <= d < |db.runs| && db.runs[c].retryOf.Some? ::
      db.runs[c].retryOf == db.runs[d].retryOf ==> c == d
  }

  ghost predicate DbInv(db: Db) {
    && (forall i :: 0 <= i < |db.runs| ==> RunOk(db, i))
    && OneChild(db)
  }

  lemma {:induction false} JobsAreFree(db: Db, other: Db)
    requires DbInv(db) && other.runs == db.runs && db.jobs.Keys <= other.jobs.Keys
    ensures DbInv(other)
  {
    forall i | 0 <= i < |other.runs| ensures RunOk(other, i) {
      assert RunOk(db, i);
    }
  }

  lemma EnqueueKeeps(db: Db, j: JobId, runType: string, trigger: Trigger, at: int)
    requires DbInv(db) && j in db.jobs && trigger != Retry
    ensures DbInv(EnqueueRun(db, Some(j), runType, trigger, 1, None, at))
  {
    var next := EnqueueRun(db, Some(j), runType, trigger, 1, None, at);
    forall i | 0 <= i < |next.runs| ensures RunOk(next, i) {
      if i < |db.runs| { assert RunOk(db, i); }
    }
  }

  lemma MarkKeeps(db: Db, r: RunId, exhausted: bool)
    requires DbInv(db) && IsCandidate(db, r)
    ensures DbInv(MarkEvaluated(db, r, exhausted))
  {
    var next := MarkEvaluated(db, r, exhausted);
    forall i | 0 <= i < |next.runs| ensures RunOk(next, i) {
      assert RunOk(db, i);
    }
  }

  lemma RetryChildKeeps(db: Db, r: RunId, j: JobId, job: Job, at: int)
    requires DbInv(db) && IsCandidate(db, r) && db.runs[r].jobId == Some(j)
    ensures DbInv(WithRetryChild(db, r, j, job, at))
  {
    var next := WithRetryChild(db, r, j, job, at);
    assert RunOk(db, r);
    forall i | 0 <= i < |next.runs| ensures RunOk(next, i) {
      if i < |db.runs| { assert RunOk(db, i); }
    }
  }

  lemma FinishKeeps(db: Db, r: RunId, w: WorkerId, o: Outcome, at: int)
    requires DbInv(db) && r < |db.runs| && db.runs[r].status == Queued
    ensures DbInv(FinishRun(db, r, w, o, at))
  {
    var next := FinishRun(db, r, w, o, at);
    forall i | 0 <= i < |next.runs| ensures RunOk(next, i) {
      assert RunOk(db, i) && RunOk(db, r);
    }
  }

  lemma TickJobKeeps(db: Db, j: JobId, now: int, stale: bool, rand: nat, at: int)
    requires DbInv(db) && j in db.jobs
    ensures DbInv(TickJob(db, j, now, stale, rand, at).db)
  {
    var next := TickJob(db, j, now, stale, rand, at).db;
    EnqueueKeeps(db, j, db.jobs[j].runnerType, Scheduled, at);
    if next.runs == db.runs {
      JobsAreFree(db, next);
    } else {
      JobsAreFree(EnqueueRun(db, Some(j), db.jobs[j].runnerType, Scheduled, 1, None, at), next);
    }
  }

  lemma TickRetryKeeps(db: Db, r: RunId, now: int, stale: bool, at: int)
    requires DbInv(db) && IsCandidate(db, r)
    ensures DbInv(TickRetry(db, r, now, stale, at).db)
  {
    MarkKeeps(db, r, false);
    MarkKeeps(db, r, true);
    assert RunOk(db, r);
    var j := db.runs[r].jobId.value;
    RetryChildKeeps(db, r, j, db.jobs[j], at);
  }

  // ----- an open tick over the committed tables

  /** The tick may move a job's times and set a run's retry flags, nothing else. */
  predicate SameJob(a: Job, b: Job) {
    b == a.(nextRunAt := b.nextRunAt, lastRunAt := b.lastRunAt)
  }

  predicate SameRun(a: Run, b: Run) {
    && b == a.(retryProcessed := b.retryProcessed, retryExhausted := b.retryExhausted)
    && (a.retryProcessed ==> b.retryProcessed)
    && (a.retryExhausted ==> b.retryExhausted)
  }

  ghost predicate Extends(base: Db, view: Db) {
    && base.jobs.Keys == view.jobs.Keys && base.schedules == view.schedules
    && |base.runs| <= |view.runs|
    && (forall j :: j in base.jobs ==> SameJob(base.jobs[j], view.jobs[j]))
    && (forall i :: 0 <= i < |base.runs| ==> SameRun(base.runs[i], view.runs[i]))
  }

  ghost predicate TxnInv(base: Db, t: Txn) {
    && DbInv(t.view)
    && Extends(base, t.view)
    && Distinct(t.due)
    && (forall j :: j in t.due ==> j in base.jobs && j !in t.advanced && IsDue(base, t.now, j))
    && (forall j :: j in base.jobs && j !in t.advanced ==> t.view.jobs[j] == base.jobs[j])
    && (forall j :: j in t.advanced ==> j in base.jobs && IsDue(base, t.now, j))
    && (t.cands.Some? ==>
          && t.due == [] && Distinct(t.cands.value)
          && forall r :: r in t.cands.value ==> IsCandidate(t.view, r))
  }

  /** Row locks: one holder per run, and only committed queued runs are held. */
  ghost predicate HeldInv(s: Sys) {
    && (forall w :: w in s.held ==> s.held[w] < |s.db.runs| && s.db.runs[s.held[w]].status == Queued)
    && (forall v, w :: v in s.held && w in s.held && s.held[v] == s.held[w] ==> v == w)
  }

  ghost predicate Inv(s: Sys) {
    && DbInv(s.db)
    && (s.tick.Some? ==> TxnInv(s.db, s.tick.value))
    && HeldInv(s)
  }

  lemma InitInv(s: Sys)
    requires Init(s)
    ensures Inv(s)
  {
  }

  /** A due job's step writes its own times and appends at most one run. */
  lemma {:induction false} TickJobExtends(base: Db, view: Db, j: JobId, now: int, stale: bool, rand: nat, at: int)
    requires Extends(base, view) && j in view.jobs
    ensures var step := TickJob(view, j, now, stale, rand, at);
            && Extends(base, step.db)
            && (forall k :: k in view.jobs && k != j ==> step.db.jobs[k] == view.jobs[k])
            && (step.event.NoSchedule? ==> step.db == view)
  {
  }

  lemma TickJobMovesOne(db: Db, j: JobId, now: int, stale: bool, rand: nat, at: int)
    requires j in db.jobs
    ensures var step := TickJob(db, j, now, stale, rand, at);
            && (forall k :: k in db.jobs && k != j ==> step.db.jobs[k] == db.jobs[k])
            && (step.event.NoSchedule? ==> step.db == db)
  {
    hide HasActiveRun;
  }

  lemma RestOfList(due: seq<JobId>)
    requires due != [] && Distinct(due)
    ensures Distinct(due[1..]) && forall k :: k in due[1..] ==> k in due && k != due[0]
  {
  }

  lemma {:induction false} AfterDueKeeps(base: Db, t: Txn, stale: bool, rand: nat, at: int)
    requires TxnInv(base, t) && t.due != [] && t.due[0] in t.view.jobs
    ensures TxnInv(base, AfterDue(t, stale, rand, at))
  {
    var j := t.due[0];
    assert j in t.due;
    RestOfList(t.due);
    TickJobKeeps(t.view, j, t.now, stale, rand, at);
    TickJobExtends(base, t.view, j, t.now, stale, rand, at);
    TickJobMovesOne(t.view, j, t.now, stale, rand, at);
    hide TickJob, DbInv, IsDue, Distinct, SameJob, SameRun;
  }

  lemma {:induction false} TickDueKeeps(s: Sys, stale: bool, rand: nat)
    requires Inv(s) && Enabled(s, TickDue(stale, rand))
    ensures Inv(Apply(s, TickDue(stale, rand)))
  {
    hide TxnInv, DbInv, TickJob;
    AfterDueKeeps(s.db, s.tick.value, stale, rand, s.clock);
  }

  /** Evaluating one candidate leaves every other candidate one. */
  lemma {:induction false} OtherCandidates(db: Db, r: RunId, now: int, stale: bool, at: int, q: RunId)
    requires DbInv(db) && IsCandidate(db, r) && IsCandidate(db, q) && q != r
    ensures IsCandidate(TickRetry(db, r, now, stale, at).db, q)
  {
    assert RunOk(db, r);
  }

  lemma {:induction false} TickRetryExtends(base: Db, db: Db, r: RunId, now: int, stale: bool, at: int)
    requires DbInv(db) && Extends(base, db) && IsCandidate(db, r)
    ensures Extends(base, TickRetry(db, r, now, stale, at).db)
  {
  }

  lemma {:induction false} TickCandidateKeeps(s: Sys, stale: bool)
    requires Inv(s) && Enabled(s, TickCandidate(stale))
    ensures Inv(Apply(s, TickCandidate(stale)))
  {
    var t := s.tick.value;
    var cands := t.cands.value;
    var r := cands[0];
    assert r in cands && forall q :: q in cands[1..] ==> q in cands && q != r;
    TickRetryKeeps(t.view, r, t.now, stale, s.clock);
    TickRetryExtends(s.db, t.view, r, t.now, stale, s.clock);
    forall q | q in cands[1..] ensures IsCandidate(TickRetry(t.view, r, t.now, stale, s.clock).db, q) {
      OtherCandidates(t.view, r, t.now, stale, s.clock, q);
    }
  }

  lemma {:induction false} FinishExtends(base: Db, view: Db, r: RunId, w: WorkerId, o: Outcome, at: int)
    requires Extends(base, view) && r < |base.runs|
    ensures Extends(FinishRun(base, r, w, o, at), FinishRun(view, r, w, o, at))
  {
    assert SameRun(base.runs[r], view.runs[r]);
  }

  lemma {:induction false} FinishKeepsCandidate(db: Db, r: RunId, w: WorkerId, o: Outcome, at: int, q: RunId)
    requires r < |db.runs| && db.runs[r].status == Queued && IsCandidate(db, q)
    ensures IsCandidate(FinishRun(db, r, w, o, at), q)
  {
  }

  /** A worker's commit reaches the open tick's view as well. */
  lemma {:induction false} FinishTxnKeeps(base: Db, t: Txn, r: RunId, w: WorkerId, o: Outcome, at: int)
    requires DbInv(base) && TxnInv(base, t) && r < |base.runs| && base.runs[r].status == Queued
    ensures TxnInv(FinishRun(base, r, w, o, at), t.(view := FinishRun(t.view, r, w, o, at)))
  {
    assert SameRun(base.runs[r], t.view.runs[r]);
    FinishKeeps(t.view, r, w, o, at);
    FinishExtends(base, t.view, r, w, o, at);
    if t.cands.Some? {
      forall q | q in t.cands.value ensures IsCandidate(FinishRun(t.view, r, w, o, at), q) {
        FinishKeepsCandidate(t.view, r, w, o, at, q);
      }
    }
  }

  lemma {:induction false} FinishStepKeeps(s: Sys, w: WorkerId, o: Outcome)
    requires Inv(s) && Enabled(s, Finish(w, o))
    ensures Inv(Apply(s, Finish(w, o)))
  {
    var r := s.held[w];
    FinishKeeps(s.db, r, w, o, s.clock);
    if s.tick.Some? {
      FinishTxnKeeps(s.db, s.tick.value, r, w, o, s.clock);
    }
  }

  lemma {:induction false} StepInv(s: Sys, l: Label)
    requires Inv(s) && Enabled(s, l)
    ensures Inv(Apply(s, l))
  {
    match l
    case CreateJob(j, row) => JobsAreFree(s.db, Apply(s, l).db);
    case PatchJob(j, p) => JobsAreFree(s.db, Apply(s, l).db);
    case SetSchedule(j, sched) => JobsAreFree(s.db, Apply(s, l).db);
    case ManualEnqueue(j, _) => EnqueueKeeps(s.db, j, s.db.jobs[j].runnerType, Manual, s.clock);
    case TickDue(stale, rand) => TickDueKeeps(s, stale, rand);
    case TickCandidate(stale) => TickCandidateKeeps(s, stale);
    case Finish(w, o) => FinishStepKeeps(s, w, o);
    case _ =>
  }

  /** Every state of every behaviour satisfies the invariant. */
  lemma {:induction false} Reachable(ss: seq<Sys>, ls: seq<Label>, i: nat)
    requires Behaviour(ss, ls) && i < |ss|
    ensures Inv(ss[i])
  {
    if i == 0 {
      InitInv(ss[0]);
    } else {
      Reachable(ss, ls, i - 1);
      assert StepAt(ss, ls, i - 1);
      StepInv(ss[i - 1], ls[i - 1]);
    }
  }

  lemma {:induction false} LockedAfterClaim(held: map<WorkerId, RunId>, w: WorkerId, r: RunId)
    requires w !in held
    ensures held[w := r].Values == held.Values + {r}
  {
    var next := held[w := r];
    assert next[w] == r && forall v :: v in held ==> next[v] == held[v];
  }

  lemma {:induction false} LockedAfterRelease(held: map<WorkerId, RunId>, w: WorkerId)
    requires w in held && forall v :: v in held && held[v] == held[w] ==> v == w
    ensures (held - {w}).Values == held.Values - {held[w]}
  {
    var next := held - {w};
    forall r | r in held.Values && r != held[w] ensures r in next.Values {
      var v :| v in held && held[v] == r;
      assert next[v] == r;
    }
  }

  // ----- what one step does to the runs

  /** What a run was created as. */
  predicate SameOrigin(a: Run, b: Run) {
    && a.jobId == b.jobId && a.runType == b.runType && a.trigger == b.trigger && a.attempt == b.attempt
    && a.queuedAt == b.queuedAt && a.checkpointIn == b.checkpointIn && a.retryOf == b.retryOf
  }

  /** What a worker's commit fixed. */
  predicate SameOutcome(a: Run, b: Run) {
    && a.status == b.status && a.finishedAt == b.finishedAt && a.workerId == b.workerId
    && a.checkpointOut == b.checkpointOut && a.retryable == b.retryable
  }

  /** A row that was there before: its origin stays, and its outcome unless it was still
      queued and a worker has just finished it. */
  predicate RowMoved(a: Run, b: Run, clock: int) {
    && SameOrigin(a, b)
    && (SameOutcome(a, b) || (a.status == Queued && b.status != Queued && b.finishedAt == Some(clock)))
  }

  /** No run of the job is queued or running. */
  predicate NoneActive(db: Db, j: JobId) {
    forall i :: 0 <= i < |db.runs| && db.runs[i].jobId == Some(j) ==>
      db.runs[i].status != Queued && db.runs[i].status != Running
  }

  lemma ActiveOrNone(db: Db, j: JobId)
    ensures HasActiveRun(db, j) <==> !NoneActive(db, j)
  {
    if i :| 0 <= i < |db.runs| && ActiveRunOf(db, j, i) {
      assert db.runs[i].jobId == Some(j);
    }
    if i :| 0 <= i < |db.runs| && db.runs[i].jobId == Some(j) && (db.runs[i].status == Queued || db.runs[i].status == Running) {
      assert ActiveRunOf(db, j, i);
    }
  }

  /** The row just appended to `db`, column by column: queued for a known job that may overlap or
      had no active run. A scheduled run is a first attempt of a job that is enabled and planned at
      or before `now`, a manual run is a first attempt, a retry is described by RetryRow. */
  predicate FreshRow(jobs: map<JobId, Job>, db: Db, n: Run, clock: int, now: int) {
    && n.status == Queued && n.queuedAt == clock
    && n.finishedAt.None? && n.workerId.None? && n.checkpointOut.None?
    && !n.retryable && !n.retryProcessed && !n.retryExhausted
    && n.jobId.Some? && n.jobId.value in jobs
    && var (j, job) := (n.jobId.value, jobs[n.jobId.value]);
       && n.runType == job.runnerType
       && (job.allowOverlap || NoneActive(db, j))
       && (n.trigger == Scheduled ==> job.enabled && job.nextRunAt.Some? && job.nextRunAt.value <= now)
       && (n.trigger != Retry ==> n.retryOf.None? && n.attempt == 1 && n.checkpointIn.None?)
       && (n.trigger == Retry ==> RetryRow(job, db, n, now))
  }

  /** A retry of a failed, retryable run of the same enabled job, within its budget and after its
      backoff, where a stored backoff of 0 counts as 60; it starts from the run's checkpoint. */
  predicate RetryRow(job: Job, db: Db, n: Run, now: int) {
    && n.retryOf.Some? && n.retryOf.value < |db.runs|
    && var (p, b) := (db.runs[n.retryOf.value], if job.retryBackoffSec == 0 then 60 else job.retryBackoffSec);
       && p.jobId == n.jobId && p.status == Failed && p.retryable && !p.retryProcessed && !p.retryExhausted
       && job.enabled && p.attempt <= job.maxRetries && n.attempt == p.attempt + 1
       && p.finishedAt.Some? && p.finishedAt.value + b <= now
       && n.checkpointIn == (if p.checkpointOut == Some(map[]) then None else p.checkpointOut)
  }

  ghost predicate Grows(jobs: map<JobId, Job>, db: Db, next: Db, clock: int, now: int) {
    && |db.runs| <= |next.runs| <= |db.runs| + 1
    && (forall i :: 0 <= i < |db.runs| ==> RowMoved(db.runs[i], next.runs[i], clock))
    && (|next.runs| > |db.runs| ==> FreshRow(jobs, db, next.runs[|db.runs|], clock, now))
  }

  function NowOf(s: Sys): int {
    if s.tick.Some? then s.tick.value.now else s.clock
  }

  /** A step changes the committed runs by little, or by publishing the open tick; it
      changes what the tick sees by little, or by dropping the tick. */
  ghost predicate Moved(s: Sys, next: Sys) {
    && (next.db == Eff(s) || Grows(s.db.jobs, s.db, next.db, s.clock, NowOf(s)))
    && (Eff(next) == s.db || Grows(s.db.jobs, Eff(s), Eff(next), s.clock, NowOf(s)))
    && (next.tick.Some? && s.tick.Some? ==> next.tick.value.now == s.tick.value.now)
    && (next.tick.Some? && s.tick.None? ==> next.tick.value.now == s.clock)
  }

  lemma {:induction false} TickRetryGrows(base: Db, db: Db, r: RunId, now: int, stale: bool, at: int)
    requires DbInv(db) && Extends(base, db) && IsCandidate(db, r)
    ensures Grows(base.jobs, db, TickRetry(db, r, now, stale, at).db, at, now)
  {
    assert RunOk(db, r);
    assert SameJob(base.jobs[db.runs[r].jobId.value], db.jobs[db.runs[r].jobId.value]);
    hide DbInv, Extends, FreshRow;
    hide HasActiveRun;
    var next := TickRetry(db, r, now, stale, at).db;
    if |next.runs| > |db.runs| {
      RetryIsFresh(base.jobs, db, r, now, stale, at);
    }
  }

  lemma RetryIsFresh(jobs: map<JobId, Job>, db: Db, r: RunId, now: int, stale: bool, at: int)
    requires IsCandidate(db, r) && RunOk(db, r) && db.runs[r].jobId.value in jobs
    requires SameJob(jobs[db.runs[r].jobId.value], db.jobs[db.runs[r].jobId.value])
    ensures var next := TickRetry(db, r, now, stale, at).db;
            |next.runs| > |db.runs| ==> FreshRow(jobs, db, next.runs[|db.runs|], at, now)
  {
    ActiveOrNone(db, db.runs[r].jobId.value);
    hide HasActiveRun, NoneActive;
  }

  lemma {:induction false} FinishGrows(jobs: map<JobId, Job>, db: Db, r: RunId, w: WorkerId, o: Outcome, at: int, now: int)
    requires r < |db.runs| && db.runs[r].status == Queued
    ensures Grows(jobs, db, FinishRun(db, r, w, o, at), at, now)
  {
  }

  lemma {:induction false} SameRunsGrow(jobs: map<JobId, Job>, db: Db, next: Db, clock: int, now: int)
    requires next.runs == db.runs
    ensures Grows(jobs, db, next, clock, now)
  {
  }

  lemma {:induction false} TickJobGrows(base: Db, db: Db, j: JobId, now: int, stale: bool, rand: nat, at: int)
    requires IsDue(base, now, j) && j in db.jobs && SameJob(base.jobs[j], db.jobs[j])
    ensures Grows(base.jobs, db, TickJob(db, j, now, stale, rand, at).db, at, now)
  {
    hide HasActiveRun, NoneActive;
    ActiveOrNone(db, j);
  }

  lemma {:induction false} EnqueueGrows(db: Db, j: JobId, at: int, now: int)
    requires j in db.jobs && (db.jobs[j].allowOverlap || !HasActiveRun(db, j))
    ensures Grows(db.jobs, db, EnqueueRun(db, Some(j), db.jobs[j].runnerType, Manual, 1, None, at), at, now)
  {
    hide HasActiveRun, NoneActive;
    ActiveOrNone(db, j);
  }

  lemma {:induction false} TickDueMoves(s: Sys, stale: bool, rand: nat)
    requires Inv(s) && Enabled(s, TickDue(stale, rand))
    ensures Moved(s, Apply(s, TickDue(stale, rand)))
  {
    var t := s.tick.value;
    assert t.due[0] in t.due;
    SameRunsGrow(s.db.jobs, s.db, s.db, s.clock, NowOf(s));
    TickJobGrows(s.db, t.view, t.due[0], t.now, stale, rand, s.clock);
  }

  lemma {:induction false} TickCandidateMoves(s: Sys, stale: bool)
    requires Inv(s) && Enabled(s, TickCandidate(stale))
    ensures Moved(s, Apply(s, TickCandidate(stale)))
  {
    var t := s.tick.value;
    assert t.cands.value[0] in t.cands.value;
    SameRunsGrow(s.db.jobs, s.db, s.db, s.clock, NowOf(s));
    TickRetryGrows(s.db, t.view, t.cands.value[0], t.now, stale, s.clock);
  }

  lemma {:induction false} FinishMoves(s: Sys, w: WorkerId, o: Outcome)
    requires Inv(s) && Enabled(s, Finish(w, o))
    ensures Moved(s, Apply(s, Finish(w, o)))
  {
    var r := s.held[w];
    FinishGrows(s.db.jobs, s.db, r, w, o, s.clock, NowOf(s));
    if s.tick.Some? {
      assert SameRun(s.db.runs[r], s.tick.value.view.runs[r]);
      FinishGrows(s.db.jobs, s.tick.value.view, r, w, o, s.clock, NowOf(s));
    }
  }

  lemma {:induction false} StepMoves(s: Sys, l: Label)
    requires Inv(s) && Enabled(s, l)
    ensures Moved(s, Apply(s, l))
  {
    match l
    case TickDue(stale, rand) => TickDueMoves(s, stale, rand);
    case TickCandidate(stale) => TickCandidateMoves(s, stale);
    case Finish(w, o) => FinishMoves(s, w, o);
    case ManualEnqueue(j, _) => EnqueueGrows(s.db, j, s.clock, NowOf(s));
    case _ =>
      var next := Apply(s, l);
      if next.db != Eff(s) {
        SameRunsGrow(s.db.jobs, s.db, next.db, s.clock, NowOf(s));
      }
      if Eff(next) != s.db {
        SameRunsGrow(s.db.jobs, Eff(s), Eff(next), s.clock, NowOf(s));
      }
  }

  /** Each step of a behaviour leads from a good state to a good state and moves little. */
  lemma {:induction false} Moves(ss: seq<Sys>, ls: seq<Label>, i: nat)
    requires Behaviour(ss, ls) && i < |ls|
    ensures Inv(ss[i]) && Inv(ss[i + 1]) && Moved(ss[i], ss[i + 1])
  {
    Reachable(ss, ls, i);
    Reachable(ss, ls, i + 1);
    assert StepAt(ss, ls, i);
    StepMoves(ss[i], ls[i]);
  }
}
