/** The report of a tick accounts for everything that the tick did. */
module Reports {
  import opened Basics
  import opened Schedules
  import opened ScrapeDb
  import opened SchedulerSpec
  import opened Invariants
  import opened StepLaws

  /** The ids from `lo` up to `hi`. */
  function Span(lo: nat, hi: nat): seq<nat>
    requires lo <= hi
  {
    seq(hi - lo, i => lo + i)
  }

  lemma SpanJoins(lo: nat, mid: nat, hi: nat)
    requires lo <= mid <= hi
    ensures Span(lo, hi) == Span(lo, mid) + Span(mid, hi)
  {
  }

  /** How many runs of the job were added from `lo` on. */
  function AddedFor(runs: seq<Run>, lo: nat, hi: nat, j: JobId): nat
    requires lo <= hi <= |runs|
  {
    if lo == hi then 0 else AddedFor(runs, lo, hi - 1, j) + if runs[hi - 1].jobId == Some(j) then 1 else 0
  }

  lemma {:induction false} AddedSame(runs: seq<Run>, next: seq<Run>, lo: nat, hi: nat, j: JobId)
    requires lo <= hi <= |runs| && runs <= next
    ensures AddedFor(runs, lo, hi, j) == AddedFor(next, lo, hi, j)
  {
    if lo < hi { AddedSame(runs, next, lo, hi - 1, j); }
  }

  lemma {:induction false} AddedJoins(runs: seq<Run>, lo: nat, mid: nat, hi: nat, j: JobId)
    requires lo <= mid <= hi <= |runs|
    ensures AddedFor(runs, lo, hi, j) == AddedFor(runs, lo, mid, j) + AddedFor(runs, mid, hi, j)
    decreases hi
  {
    if mid < hi { AddedJoins(runs, lo, mid, hi - 1, j); }
  }

  /** How often a list names the job. */
  function Count(s: seq<JobId>, j: JobId): nat {
    multiset(s)[j]
  }

  /** The first phase, over the log it continues: `enqueued` gets the new ids in order, and each time
      a job is listed it is reported as skipped for one of the two reasons, or has a new run. */
  ghost predicate JobsReported(db: Db, due: seq<JobId>, log: TickLog, mid: Db, midLog: TickLog, j: JobId) {
    && db.runs <= mid.runs
    && (forall r :: |db.runs| <= r < |mid.runs| ==> mid.runs[r].trigger == Scheduled)
    && midLog.enqueued == log.enqueued + Span(|db.runs|, |mid.runs|)
    && midLog.retriesEnqueued == log.retriesEnqueued
    && Count(midLog.skippedOverlap, j) + Count(midLog.skippedNoSchedule, j) + AddedFor(mid.runs, |db.runs|, |mid.runs|, j)
       == Count(log.skippedOverlap, j) + Count(log.skippedNoSchedule, j) + Count(due, j)
    && Count(midLog.errors, j) <= Count(log.errors, j) + AddedFor(mid.runs, |db.runs|, |mid.runs|, j)
  }

  lemma {:induction false} OneJobReported(db: Db, due: seq<JobId>, j: JobId, now: int, stale: bool,
                                          rand: nat, at: int, log: TickLog, k: JobId)
    requires j in db.jobs && due == [j]
    ensures var step := TickJob(db, j, now, stale, rand, at);
            JobsReported(db, due, log, step.db, LogJob(log, j, step.event), k)
  {
    var _ := JobStepIsExact(db, j, now, stale, rand, at);
    var step := TickJob(db, j, now, stale, rand, at);
    hide TickJob, Blocked, Replanned, NextTimeIs;
    OneAdded(db, step.db, j, k);
    hide AddedFor, Span;
    assert log.enqueued + [] == log.enqueued;
  }

  lemma OneAdded(db: Db, next: Db, j: JobId, k: JobId)
    requires |db.runs| <= |next.runs| <= |db.runs| + 1
    requires |next.runs| > |db.runs| ==> next.runs[|db.runs|].jobId == Some(j)
    ensures Span(|db.runs|, |next.runs|) == if |next.runs| > |db.runs| then [|db.runs|] else []
    ensures AddedFor(next.runs, |db.runs|, |next.runs|, k) == if |next.runs| > |db.runs| && k == j then 1 else 0
  {
  }

  lemma {:induction false} JobsReportedJoin(db: Db, a: seq<JobId>, log: TickLog, mid: Db, midLog: TickLog,
                                            b: seq<JobId>, end: Db, endLog: TickLog, k: JobId)
    requires JobsReported(db, a, log, mid, midLog, k) && JobsReported(mid, b, midLog, end, endLog, k)
    ensures JobsReported(db, a + b, log, end, endLog, k)
  {
    SpanJoins(|db.runs|, |mid.runs|, |end.runs|);
    AddedSame(mid.runs, end.runs, |db.runs|, |mid.runs|, k);
    AddedJoins(end.runs, |db.runs|, |mid.runs|, |end.runs|, k);
    hide AddedFor;
    assert multiset(a + b) == multiset(a) + multiset(b);
    ConcatAssociates(log.enqueued, Span(|db.runs|, |mid.runs|), Span(|mid.runs|, |end.runs|));
  }

  lemma {:induction false} JobPhaseReport(db: Db, due: seq<JobId>, now: int, o: Outside, log: TickLog, k: JobId)
    requires forall j :: j in due ==> j in db.jobs
    ensures var (mid, midLog) := TickJobs(db, due, now, o, log);
            JobsReported(db, due, log, mid, midLog, k)
    decreases |due|
  {
    hide TickJob, JobsReported;
    if due == [] {
      NothingReported(db, log, k);
    } else {
      var j := due[0];
      assert j in due;
      var step := TickJob(db, j, now, false, o.rand(j), o.insertedAt(|db.runs|));
      OneJobReported(db, [j], j, now, false, o.rand(j), o.insertedAt(|db.runs|), log, k);
      JobPhaseReport(step.db, due[1..], now, o, LogJob(log, j, step.event), k);
      var (mid, midLog) := TickJobs(db, due, now, o, log);
      JobsReportedJoin(db, [j], log, step.db, LogJob(log, j, step.event), due[1..], mid, midLog, k);
      assert due == [j] + due[1..];
    }
  }

  lemma NothingReported(db: Db, log: TickLog, k: JobId)
    ensures JobsReported(db, [], log, db, log, k)
  {
    assert log.enqueued + [] == log.enqueued;
  }

  /** The second phase: both lists get the new ids, all of them retries. */
  ghost predicate RetriesReported(db: Db, log: TickLog, end: Db, endLog: TickLog) {
    && |db.runs| <= |end.runs|
    && (forall r :: 0 <= r < |db.runs| ==> SameOrigin(db.runs[r], end.runs[r]))
    && (forall r :: |db.runs| <= r < |end.runs| ==> end.runs[r].trigger == Retry)
    && endLog == log.(enqueued := log.enqueued + Span(|db.runs|, |end.runs|),
                      retriesEnqueued := log.retriesEnqueued + Span(|db.runs|, |end.runs|))
    && end.jobs == db.jobs && end.schedules == db.schedules
  }

  lemma {:induction false} OneRetryReported(db: Db, r: RunId, now: int, stale: bool, at: int, log: TickLog)
    requires r < |db.runs|
    ensures var step := TickRetry(db, r, now, stale, at);
            RetriesReported(db, log, step.db, LogRetry(log, step.child))
  {
    EvaluationIsExact(db, r, now, stale, at);
    var step := TickRetry(db, r, now, stale, at);
    hide TickRetry, IsRetried, JobEnabled, BudgetGone;
    assert Span(|db.runs|, |step.db.runs|) == if step.child.Some? then [|db.runs|] else [];
    assert log.enqueued + [] == log.enqueued && log.retriesEnqueued + [] == log.retriesEnqueued;
  }

  lemma {:induction false} RetriesReportedJoin(db: Db, log: TickLog, mid: Db, midLog: TickLog, end: Db, endLog: TickLog)
    requires RetriesReported(db, log, mid, midLog) && RetriesReported(mid, midLog, end, endLog)
    ensures RetriesReported(db, log, end, endLog)
  {
    SpanJoins(|db.runs|, |mid.runs|, |end.runs|);
    ConcatAssociates(log.enqueued, Span(|db.runs|, |mid.runs|), Span(|mid.runs|, |end.runs|));
    ConcatAssociates(log.retriesEnqueued, Span(|db.runs|, |mid.runs|), Span(|mid.runs|, |end.runs|));
  }

  lemma {:induction false} RetryPhaseReport(db: Db, cands: seq<RunId>, now: int, o: Outside, log: TickLog)
    requires forall r :: r in cands ==> r < |db.runs|
    ensures var (end, endLog) := TickRetries(db, cands, now, o, log);
            RetriesReported(db, log, end, endLog)
    decreases |cands|
  {
    hide TickRetry, RetriesReported;
    if cands == [] {
      NoRetryReported(db, log);
    } else {
      assert cands[0] in cands && forall r :: r in cands[1..] ==> r in cands;
      var step := TickRetry(db, cands[0], now, false, o.insertedAt(|db.runs|));
      OneRetryReported(db, cands[0], now, false, o.insertedAt(|db.runs|), log);
      RetryPhaseReport(step.db, cands[1..], now, o, LogRetry(log, step.child));
      var (end, endLog) := TickRetries(db, cands, now, o, log);
      RetriesReportedJoin(db, log, step.db, LogRetry(log, step.child), end, endLog);
    }
  }

  lemma NoRetryReported(db: Db, log: TickLog)
    ensures RetriesReported(db, log, db, log)
  {
    assert log.enqueued + [] == log.enqueued && log.retriesEnqueued + [] == log.retriesEnqueued;
  }

  // ----- order

  /** The first phase does the first job, then the others. */
  lemma {:induction false} FirstThenRest(db: Db, due: seq<JobId>, now: int, o: Outside,
                                         log: TickLog) returns (mid: Db, midLog: TickLog)
    requires due != [] && forall j :: j in due ==> j in db.jobs
    ensures |db.runs| <= |mid.runs| && forall j :: j in due[1..] ==> j in mid.jobs
    ensures var (all, rest) := (TickJobs(db, due, now, o, log), TickJobs(mid, due[1..], now, o, midLog));
            && all == rest && |mid.runs| <= |all.0.runs|
            && forall r :: |db.runs| <= r < |mid.runs| ==> all.0.runs[r].jobId == Some(due[0])
  {
    var j := due[0];
    assert j in due && forall i :: i in due[1..] ==> i in due;
    var step := TickJob(db, j, now, false, o.rand(j), o.insertedAt(|db.runs|));
    var _ := JobStepIsExact(db, j, now, false, o.rand(j), o.insertedAt(|db.runs|));
    mid, midLog := step.db, LogJob(log, j, step.event);
    JobPhaseReport(mid, due[1..], now, o, midLog, j);
    hide TickJob, Blocked, Replanned, AddedFor, LogJob;
  }

  /** The runs that it adds are of listed jobs. */
  lemma {:induction false} AddedAreListed(db: Db, due: seq<JobId>, now: int, o: Outside, log: TickLog, r: RunId)
    requires forall j :: j in due ==> j in db.jobs
    requires |db.runs| <= r < |TickJobs(db, due, now, o, log).0.runs|
    ensures exists q :: 0 <= q < |due| && TickJobs(db, due, now, o, log).0.runs[r].jobId == Some(due[q])
    decreases |due|
  {
    if due != [] {
      var mid, midLog := FirstThenRest(db, due, now, o, log);
      hide TickJobs;
      if r >= |mid.runs| {
        AddedAreListed(mid, due[1..], now, o, midLog, r);
        var q :| 0 <= q < |due[1..]| && TickJobs(db, due, now, o, log).0.runs[r].jobId == Some(due[1..][q]);
        assert due[q + 1] == due[1..][q];
      } else {
        assert TickJobs(db, due, now, o, log).0.runs[r].jobId == Some(due[0]);
      }
    }
  }

  lemma {:induction false} JobPhaseOrder(db: Db, due: seq<JobId>, now: int, o: Outside, log: TickLog, a: nat,
                                         b: nat, ra: RunId, rb: RunId)
    requires Distinct(due) && a < b < |due| && forall j :: j in due ==> j in db.jobs
    requires var runs := TickJobs(db, due, now, o, log).0.runs;
             && |db.runs| <= ra < |runs| && |db.runs| <= rb < |runs|
             && runs[ra].jobId == Some(due[a]) && runs[rb].jobId == Some(due[b])
    ensures ra < rb
    decreases |due|
  {
    var mid, midLog := FirstThenRest(db, due, now, o, log);
    hide TickJobs;
    assert forall q :: 0 <= q < |due[1..]| ==> due[1..][q] == due[q + 1] && due[q + 1] != due[0];
    assert due[b] != due[0] && rb >= |mid.runs|;
    if a == 0 {
      if ra >= |mid.runs| {
        AddedAreListed(mid, due[1..], now, o, midLog, ra);
        assert false;
      }
    } else {
      assert due[a] != due[0] && ra >= |mid.runs|;
      JobPhaseOrder(mid, due[1..], now, o, midLog, a - 1, b - 1, ra, rb);
    }
  }

  /** Jobs fire in the order in which they are listed, so that the run of a job listed earlier has the
      lower id. */
  lemma {:induction false} JobsFireInOrder(before: Db, now: int, limit: nat, o: Outside, due: seq<JobId>, cands: seq<RunId>,
                                           after: Db, log: TickLog, a: nat, b: nat, ra: RunId, rb: RunId)
    requires IsTick(before, now, limit, o, due, cands, after, log) && a < b < |due|
    requires |before.runs| <= ra < |after.runs| && |before.runs| <= rb < |after.runs|
    requires after.runs[ra].trigger == Scheduled && after.runs[ra].jobId == Some(due[a])
    requires after.runs[rb].trigger == Scheduled && after.runs[rb].jobId == Some(due[b])
    ensures ra < rb
  {
    ListsKnown(before, now, limit, o, due, cands, after, log);
    var (m, midLog) := TickJobs(before, due, now, o, EMPTY_LOG);
    RetryPhaseReport(m, cands, now, o, midLog);
    hide TickJobs, TickRetries, IsDueList, IsCandidateList, Distinct;
    assert SameOrigin(m.runs[ra], after.runs[ra]) && SameOrigin(m.runs[rb], after.runs[rb]);
    JobPhaseOrder(before, due, now, o, EMPTY_LOG, a, b, ra, rb);
  }

  // ----- plans

  ghost predicate LogGrows(log: TickLog, next: TickLog) {
    log.skippedOverlap <= next.skippedOverlap && log.skippedNoSchedule <= next.skippedNoSchedule && log.errors <= next.errors
  }

  /** What the lists say of a due job's row: an error or a missing schedule leaves it alone, a firing
      without an error sets its last run time, and a skip never does. */
  ghost predicate PlanReported(before: Job, after: Job, log: TickLog, now: int, k: JobId) {
    && (k in log.errors || k in log.skippedNoSchedule ==> after == before)
    && (k in log.skippedOverlap ==> after.lastRunAt == before.lastRunAt)
    && (k !in log.errors && k !in log.skippedNoSchedule && k !in log.skippedOverlap ==> after.lastRunAt == Some(now))
  }

  predicate Unreported(log: TickLog, k: JobId) {
    k !in log.errors && k !in log.skippedNoSchedule && k !in log.skippedOverlap
  }

  lemma {:induction false} OnePlanReported(db: Db, j: JobId, now: int, rand: nat, at: int, log: TickLog, k: JobId)
    requires j in db.jobs && k in db.jobs
    ensures var step := TickJob(db, j, now, false, rand, at);
            var next := LogJob(log, j, step.event);
            && LogGrows(log, next) && k in step.db.jobs
            && (k != j ==> step.db.jobs[k] == db.jobs[k] && (Unreported(next, k) <==> Unreported(log, k)))
            && (k == j && Unreported(log, k) ==> PlanReported(db.jobs[k], step.db.jobs[k], next, now, k))
  {
    var _ := JobStepIsExact(db, j, now, false, rand, at);
    hide TickJob, Blocked, NextTimeIs;
  }

  lemma {:induction false} JobPhasePlans(db: Db, due: seq<JobId>, now: int, o: Outside, log: TickLog, k: JobId)
    requires Distinct(due) && k in db.jobs && forall j :: j in due ==> j in db.jobs
    ensures var (mid, midLog) := TickJobs(db, due, now, o, log);
            && k in mid.jobs
            && (k !in due ==> mid.jobs[k] == db.jobs[k]
                              && (k in midLog.errors <==> k in log.errors)
                              && (k in midLog.skippedNoSchedule <==> k in log.skippedNoSchedule)
                              && (k in midLog.skippedOverlap <==> k in log.skippedOverlap))
            && (k in due && Unreported(log, k) ==> PlanReported(db.jobs[k], mid.jobs[k], midLog, now, k))
    decreases |due|
  {
    if due != [] {
      var j := due[0];
      assert j in due && forall i :: i in due[1..] ==> i in due && i != j;
      var step := TickJob(db, j, now, false, o.rand(j), o.insertedAt(|db.runs|));
      OnePlanReported(db, j, now, o.rand(j), o.insertedAt(|db.runs|), log, k);
      hide TickJob;
      JobPhasePlans(step.db, due[1..], now, o, LogJob(log, j, step.event), k);
    }
  }

  // ----- the whole tick

  /** The report of a tick and its effect agree. `enqueued` is the ids of the added runs, in order;
      `retriesEnqueued` is its last part, the retries, and the others are scheduled runs. A listed job
      was skipped for overlap, skipped without a schedule or given one scheduled run, exactly one of
      these and once; a job that was not listed, none. */
  lemma {:induction false} TickIsReported(before: Db, now: int, limit: nat, o: Outside, due: seq<JobId>, cands: seq<RunId>,
                                          after: Db, log: TickLog, k: JobId) returns (mid: nat)
    requires IsTick(before, now, limit, o, due, cands, after, log)
    ensures |before.runs| <= mid <= |after.runs|
    ensures log.enqueued == Span(|before.runs|, |after.runs|) && log.retriesEnqueued == Span(mid, |after.runs|)
    ensures forall r :: |before.runs| <= r < |after.runs| ==> after.runs[r].trigger == if r < mid then Scheduled else Retry
    ensures Count(log.skippedOverlap, k) + Count(log.skippedNoSchedule, k) + AddedFor(after.runs, |before.runs|, mid, k)
            == if k in due then 1 else 0
  {
    ListsKnown(before, now, limit, o, due, cands, after, log);
    var (m, midLog) := TickJobs(before, due, now, o, EMPTY_LOG);
    mid := |m.runs|;
    JobPhaseReport(before, due, now, o, EMPTY_LOG, k);
    RetryPhaseReport(m, cands, now, o, midLog);
    hide TickJobs, TickRetries, IsDueList, IsCandidateList, JobsReported, RetriesReported, AddedFor;
    CountOnce(due, k);
    PhasesJoin(before, due, m, midLog, after, log, k);
  }

  lemma {:induction false} PhasesJoin(before: Db, due: seq<JobId>, m: Db, midLog: TickLog, after: Db, log: TickLog, k: JobId)
    requires JobsReported(before, due, EMPTY_LOG, m, midLog, k) && RetriesReported(m, midLog, after, log)
    ensures var (lo, mid, hi) := (|before.runs|, |m.runs|, |after.runs|);
            && lo <= mid <= hi
            && log.enqueued == Span(lo, hi) && log.retriesEnqueued == Span(mid, hi)
            && (forall r :: lo <= r < hi ==> after.runs[r].trigger == if r < mid then Scheduled else Retry)
            && Count(log.skippedOverlap, k) + Count(log.skippedNoSchedule, k) + AddedFor(after.runs, lo, mid, k) == Count(due, k)
  {
    hide AddedFor, SameOrigin;
    SpanJoins(|before.runs|, |m.runs|, |after.runs|);
    assert [] + log.enqueued == log.enqueued;
    AddedByOrigin(m.runs, after.runs, |before.runs|, |m.runs|, k);
    SameTriggers(m.runs, after.runs);
  }

  /** And the lists tell what became of the row of a listed job; every other row stays. */
  lemma {:induction false} PlansAreReported(before: Db, now: int, limit: nat, o: Outside, due: seq<JobId>, cands: seq<RunId>,
                                            after: Db, log: TickLog, k: JobId)
    requires IsTick(before, now, limit, o, due, cands, after, log) && k in before.jobs
    ensures k in after.jobs
    ensures if k in due then PlanReported(before.jobs[k], after.jobs[k], log, now, k) else after.jobs[k] == before.jobs[k]
  {
    ListsKnown(before, now, limit, o, due, cands, after, log);
    var (m, midLog) := TickJobs(before, due, now, o, EMPTY_LOG);
    JobPhasePlans(before, due, now, o, EMPTY_LOG, k);
    RetryPhaseReport(m, cands, now, o, midLog);
    hide TickJobs, TickRetries, IsDueList, IsCandidateList, SameOrigin, Distinct, Span;
  }

  lemma SameTriggers(runs: seq<Run>, next: seq<Run>)
    requires |runs| <= |next| && forall r :: 0 <= r < |runs| ==> SameOrigin(runs[r], next[r])
    ensures forall r :: 0 <= r < |runs| ==> next[r].trigger == runs[r].trigger
  {
  }

  lemma ListsKnown(before: Db, now: int, limit: nat, o: Outside, due: seq<JobId>, cands: seq<RunId>, after: Db, log: TickLog)
    requires IsTick(before, now, limit, o, due, cands, after, log)
    ensures Distinct(due) && forall j :: j in due ==> j in before.jobs
    ensures forall r :: r in cands ==> r < |TickJobs(before, due, now, o, EMPTY_LOG).0.runs|
  {
    forall j | j in due ensures j in before.jobs { assert j in DueJobs(before, now); }
    var m := TickJobs(before, due, now, o, EMPTY_LOG).0;
    hide TickJobs, TickRetries;
    forall r | r in cands ensures r < |m.runs| { assert r in Candidates(m); }
  }

  lemma {:induction false} AddedByOrigin(runs: seq<Run>, next: seq<Run>, lo: nat, hi: nat, j: JobId)
    requires lo <= hi <= |runs| <= |next| && forall r :: 0 <= r < |runs| ==> SameOrigin(runs[r], next[r])
    ensures AddedFor(runs, lo, hi, j) == AddedFor(next, lo, hi, j)
  {
    if lo < hi { AddedByOrigin(runs, next, lo, hi - 1, j); }
  }

  lemma {:induction false} CountOnce(s: seq<JobId>, j: JobId)
    ensures Distinct(s) ==> Count(s, j) == if j in s then 1 else 0
  {
    if s != [] {
      var n := |s| - 1;
      CountOnce(s[..n], j);
      assert s == s[..n] + [s[n]];
    }
  }
}
