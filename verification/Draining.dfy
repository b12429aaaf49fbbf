/** At a frozen clock, ticks work through the due jobs in order of priority. */
module Draining {
  import opened Basics
  import opened Schedules
  import opened ScrapeDb
  import opened SchedulerSpec
  import Backlog
  import Overlap

  /** One tick of a series. */
  datatype TickRecord = TickRecord(before: Db, after: Db, o: Outside, due: seq<JobId>, cands: seq<RunId>, log: TickLog)

  ghost predicate TickOk(t: TickRecord, now: int, limit: nat) {
    IsTick(t.before, now, limit, t.o, t.due, t.cands, t.after, t.log)
  }

  /** Between ticks workers may change the runs; jobs and schedules stay. */
  ghost predicate Linked(a: TickRecord, b: TickRecord) {
    b.before.jobs == a.after.jobs && b.before.schedules == a.after.schedules
  }

  ghost predicate Series(ts: seq<TickRecord>, now: int, limit: nat) {
    && (forall i :: 0 <= i < |ts| ==> TickOk(ts[i], now, limit))
    && (forall i :: 0 <= i < |ts| - 1 ==> Linked(ts[i], ts[i + 1]))
  }

  /** The job has an enabled schedule from which a next time can be computed. */
  predicate Plannable(db: Db, now: int, j: JobId) {
    j in db.jobs && j in db.schedules
    && match db.schedules[j].timing
       case Interval(sec) => sec.Some? && sec.value > 0
       case Cron(step) => step(db.jobs[j].nextRunAt.GetOr(now)).Some?
       case UnknownType => false
  }

  /** A tick at time `now` moves the job past `now`: it is plannable and, on a cron schedule, the
      step from now goes forward. */
  predicate Moving(db: Db, now: int, j: JobId) {
    Plannable(db, now, j)
    && match db.schedules[j].timing
       case Cron(step) => step(now).Some? && step(now).value > now
       case _ => true
  }

  ghost predicate AllMoving(db: Db, now: int) {
    forall j :: j in DueJobs(db, now) ==> Moving(db, now, j)
  }

  lemma IntervalMoves(db: Db, now: int, j: JobId)
    requires j in db.jobs
    ensures Backlog.HasInterval(db, j) ==> Moving(db, now, j)
    ensures j in db.schedules && !db.schedules[j].timing.Cron? && Plannable(db, now, j) ==> Backlog.HasInterval(db, j)
  {
    if j in db.schedules && db.schedules[j].timing.Interval? && Plannable(db, now, j) {
      assert FixedInterval(db.schedules[j], db.schedules[j].timing.sec.value);
    }
  }

  lemma MovingGetsAhead(db: Db, now: int, j: JobId, jitterSec: int, rand: nat)
    requires Moving(db, now, j)
    ensures var next := AdvanceNextRun(db.schedules[j].timing, db.jobs[j].nextRunAt.GetOr(now), now, jitterSec, rand);
            next.Some? && next.value > now
  {
  }

  /** The tick reports the job as fired or as overlap-skipped. */
  ghost predicate Handled(db: Db, log: TickLog, j: JobId) {
    j in log.skippedOverlap
    || exists r :: r in log.enqueued && r < |db.runs| && FiredFor(db.runs[r], j)
  }

  predicate FiredFor(run: Run, j: JobId) {
    run.trigger == Scheduled && run.jobId == Some(j)
  }

  // ----- jobs that no tick moves

  /** A due job without a next time: its schedule is missing or disabled, of an unknown type, or
      carries no usable interval or cron expression. */
  ghost predicate Stuck(db: Db, now: int, j: JobId) {
    IsDue(db, now, j) && !Plannable(db, now, j)
  }

  /** All due jobs are moving or stuck: no cron step from now goes backwards. */
  ghost predicate Settled(db: Db, now: int) {
    forall j :: j in DueJobs(db, now) ==> Moving(db, now, j) || !Plannable(db, now, j)
  }

  /** Without a next time a tick leaves the row of a job alone. */
  lemma {:induction false} StuckIsKept(db: Db, j: JobId, now: int, stale: bool, rand: nat, at: int, k: JobId)
    requires j in db.jobs && k in db.jobs && !Plannable(db, now, k)
    ensures TickJob(db, j, now, stale, rand, at).db.jobs[k] == db.jobs[k]
  {
  }

  /** The next time that a tick computes for a due job, without jitter when the overlap guard
      skips it. */
  function NextPlan(db: Db, j: JobId, now: int, stale: bool, rand: nat): Option<int>
    requires j in db.jobs
  {
    if j !in db.schedules then None
    else
      var skipped := !db.jobs[j].allowOverlap && (stale || HasActiveRun(db, j));
      AdvanceNextRun(db.schedules[j].timing, db.jobs[j].nextRunAt.GetOr(now), now,
                     if skipped then 0 else db.schedules[j].jitterSec, if skipped then 0 else rand)
  }

  /** A due job is still due after a tick has handled it exactly when it gets no next time, or one
      that is not after now, whatever its schedule. In particular a moving job never is, and a job
      off cron is exactly when it has no positive fixed interval. */
  lemma {:induction false} StaysDueIff(db: Db, j: JobId, now: int, stale: bool, rand: nat, at: int)
    requires IsDue(db, now, j)
    ensures var next := NextPlan(db, j, now, stale, rand);
            IsDue(TickJob(db, j, now, stale, rand, at).db, now, j) <==> next.None? || next.value <= now
    ensures Moving(db, now, j) ==> !IsDue(TickJob(db, j, now, stale, rand, at).db, now, j)
    ensures !Plannable(db, now, j) ==> IsDue(TickJob(db, j, now, stale, rand, at).db, now, j)
    ensures (j in db.schedules ==> !db.schedules[j].timing.Cron?) ==>
              (IsDue(TickJob(db, j, now, stale, rand, at).db, now, j) <==> !Backlog.HasInterval(db, j))
  {
    hide HasActiveRun;
    if Moving(db, now, j) {
      MovingGetsAhead(db, now, j, db.schedules[j].jitterSec, rand);
      MovingGetsAhead(db, now, j, 0, 0);
    }
    IntervalMoves(db, now, j);
    if !Plannable(db, now, j) {
      StuckIsKept(db, j, now, stale, rand, at, j);
    }
  }

  // ----- one tick

  lemma {:induction false} TickJobPasses(db: Db, j: JobId, now: int, rand: nat, at: int)
    requires IsDue(db, now, j) && Moving(db, now, j)
    ensures var step := TickJob(db, j, now, false, rand, at);
            && step.db.jobs.Keys == db.jobs.Keys && !IsDue(step.db, now, j)
            && step.db.jobs[j] == db.jobs[j].(nextRunAt := step.db.jobs[j].nextRunAt, lastRunAt := step.db.jobs[j].lastRunAt)
            && (step.event.Fired? || step.event.Overlap?)
            && forall k :: k in db.jobs && k != j ==> step.db.jobs[k] == db.jobs[k]
  {
    MovingGetsAhead(db, now, j, db.schedules[j].jitterSec, rand);
    MovingGetsAhead(db, now, j, 0, 0);
  }

  lemma {:induction false} HandledStep(db: Db, j: JobId, now: int, rand: nat, at: int, log: TickLog, k: JobId)
    requires IsDue(db, now, j) && Moving(db, now, j)
    requires forall r :: r in log.enqueued ==> r < |db.runs|
    ensures var step := TickJob(db, j, now, false, rand, at);
            && (forall r :: r in LogJob(log, j, step.event).enqueued ==> r < |step.db.runs|)
            && (Handled(step.db, LogJob(log, j, step.event), k) <==> Handled(db, log, k) || k == j)
  {
    TickJobPasses(db, j, now, rand, at);
    var step := TickJob(db, j, now, false, rand, at);
    var next := LogJob(log, j, step.event);
    if step.event.Fired? {
      assert next.enqueued == log.enqueued + [|db.runs|] && next.skippedOverlap == log.skippedOverlap;
      assert step.db.runs[..|db.runs|] == db.runs && FiredFor(step.db.runs[|db.runs|], j);
      if Handled(db, log, k) && k !in log.skippedOverlap {
        var r :| r in log.enqueued && r < |db.runs| && FiredFor(db.runs[r], k);
        assert r in next.enqueued && FiredFor(step.db.runs[r], k);
      }
      if k == j { assert |db.runs| in next.enqueued; }
    } else {
      assert next.enqueued == log.enqueued && next.skippedOverlap == log.skippedOverlap + [j];
    }
  }

  lemma {:induction false} TickJobsPass(db: Db, due: seq<JobId>, now: int, o: Outside, log: TickLog, k: JobId)
    requires Distinct(due) && forall j :: j in due ==> IsDue(db, now, j) && Moving(db, now, j)
    requires forall r :: r in log.enqueued ==> r < |db.runs|
    ensures forall j :: j in due ==> j in db.jobs
    ensures var (mid, midLog) := TickJobs(db, due, now, o, log);
            && mid.jobs.Keys == db.jobs.Keys && mid.schedules == db.schedules
            && (k in due ==> !IsDue(mid, now, k))
            && (k in db.jobs && k !in due ==> mid.jobs[k] == db.jobs[k])
            && (forall r :: r in midLog.enqueued ==> r < |mid.runs|)
            && (Handled(mid, midLog, k) <==> Handled(db, log, k) || k in due)
    decreases |due|
  {
    if due != [] {
      var j := due[0];
      assert j in due && forall i :: i in due[1..] ==> i in due && i != j;
      var step := TickJob(db, j, now, false, o.rand(j), o.insertedAt(|db.runs|));
      TickJobPasses(db, j, now, o.rand(j), o.insertedAt(|db.runs|));
      HandledStep(db, j, now, o.rand(j), o.insertedAt(|db.runs|), log, k);
      forall i | i in due[1..] ensures IsDue(step.db, now, i) && Moving(step.db, now, i) {
        assert IsDue(db, now, i) && Moving(db, now, i);
      }
      TickJobsPass(step.db, due[1..], now, o, LogJob(log, j, step.event), k);
    }
  }

  lemma {:induction false} RetriesLeaveJobs(db: Db, cands: seq<RunId>, now: int, o: Outside, log: TickLog, k: JobId)
    requires forall r :: r in cands ==> r < |db.runs|
    requires forall r :: r in log.enqueued ==> r < |db.runs|
    ensures var (after, end) := TickRetries(db, cands, now, o, log);
            && after.jobs == db.jobs && after.schedules == db.schedules
            && (Handled(after, end, k) <==> Handled(db, log, k))
    decreases |cands|
  {
    if cands != [] {
      assert cands[0] in cands && forall r :: r in cands[1..] ==> r in cands;
      var step := TickRetry(db, cands[0], now, false, o.insertedAt(|db.runs|));
      var next := LogRetry(log, step.child);
      forall r | 0 <= r < |db.runs| ensures FiredFor(step.db.runs[r], k) <==> FiredFor(db.runs[r], k) {}
      if step.child.Some? {
        assert next.enqueued == log.enqueued + [|db.runs|] && !FiredFor(step.db.runs[|db.runs|], k);
      }
      RetriesLeaveJobs(step.db, cands[1..], now, o, next, k);
    }
  }

  /** One tick takes its due list out of the due jobs, reports exactly those as fired or
      overlap-skipped, and leaves every other job alone. */
  lemma {:induction false} TickTakes(t: TickRecord, now: int, limit: nat, k: JobId)
    requires TickOk(t, now, limit) && AllMoving(t.before, now)
    ensures t.after.jobs.Keys == t.before.jobs.Keys && t.after.schedules == t.before.schedules
    ensures k in t.due ==> k in DueJobs(t.before, now) && k !in DueJobs(t.after, now)
    ensures k in t.before.jobs && k !in t.due ==> t.after.jobs[k] == t.before.jobs[k]
    ensures Handled(t.after, t.log, k) <==> k in t.due
  {
    forall j | j in t.due ensures IsDue(t.before, now, j) && Moving(t.before, now, j) {
      assert j in DueJobs(t.before, now);
    }
    TickJobsPass(t.before, t.due, now, t.o, EMPTY_LOG, k);
    var (mid, midLog) := TickJobs(t.before, t.due, now, t.o, EMPTY_LOG);
    forall r | r in t.cands ensures r < |mid.runs| {
      assert r in Candidates(mid);
    }
    RetriesLeaveJobs(mid, t.cands, now, t.o, midLog, k);
  }

  // ----- a series of ticks

  /** What a tick means for the jobs alone: `took` are due jobs, as many as the limit allows
      and none outranked by a due job left behind; they stop being due, the rest stays. */
  ghost predicate Took(before: Db, after: Db, took: set<JobId>, now: int, limit: nat) {
    && after.jobs.Keys == before.jobs.Keys && after.schedules == before.schedules
    && took <= DueJobs(before, now) && |took| == Min(limit, |DueJobs(before, now)|)
    && (forall k :: k in took ==> k !in DueJobs(after, now))
    && (forall k :: k in before.jobs && k !in took ==> after.jobs[k] == before.jobs[k])
    && (forall k, m :: k in took && m in DueJobs(before, now) - took ==>
          before.jobs[m].priority <= before.jobs[k].priority)
  }

  lemma {:induction false} TickTook(t: TickRecord, now: int, limit: nat)
    requires TickOk(t, now, limit) && AllMoving(t.before, now)
    ensures Took(t.before, t.after, Elements(t.due), now, limit)
  {
    TickTakes(t, now, limit, 0);
    forall k ensures
      && (k in t.due ==> k in DueJobs(t.before, now) && k !in DueJobs(t.after, now))
      && (k in t.before.jobs && k !in t.due ==> t.after.jobs[k] == t.before.jobs[k])
    {
      TickTakes(t, now, limit, k);
    }
    DistinctSize(t.due);
    forall k, m | k in Elements(t.due) && m in DueJobs(t.before, now) - Elements(t.due)
      ensures t.before.jobs[m].priority <= t.before.jobs[k].priority
    {
      assert DueOrder(t.before)(k, m);
    }
  }

  ghost predicate TookAt(ts: seq<TickRecord>, i: nat, now: int, limit: nat)
    requires i < |ts|
  {
    && Took(ts[i].before, ts[i].after, Elements(ts[i].due), now, limit)
    && (i < |ts| - 1 ==> Linked(ts[i], ts[i + 1]))
  }

  ghost predicate TookSeries(ts: seq<TickRecord>, now: int, limit: nat) {
    forall i :: 0 <= i < |ts| ==> TookAt(ts, i, now, limit)
  }

  lemma {:induction false} MoversStay(before: Db, after: Db, took: set<JobId>, next: Db, now: int, limit: nat)
    requires Took(before, after, took, now, limit) && AllMoving(before, now)
    requires next.jobs == after.jobs && next.schedules == after.schedules
    ensures AllMoving(next, now)
  {
    forall j | j in DueJobs(next, now) ensures Moving(next, now, j) {
      assert j in DueJobs(after, now) && j in DueJobs(before, now) && Moving(before, now, j);
    }
  }

  lemma {:induction false} SeriesMoves(ts: seq<TickRecord>, now: int, limit: nat, i: nat)
    requires Series(ts, now, limit) && i < |ts| && AllMoving(ts[0].before, now)
    ensures AllMoving(ts[i].before, now)
  {
    if i > 0 {
      SeriesMoves(ts, now, limit, i - 1);
      assert TickOk(ts[i - 1], now, limit) && Linked(ts[i - 1], ts[i]);
      hide TickOk, AllMoving, Took;
      TickTook(ts[i - 1], now, limit);
      MoversStay(ts[i - 1].before, ts[i - 1].after, Elements(ts[i - 1].due), ts[i].before, now, limit);
    }
  }

  lemma {:induction false} SeriesTook(ts: seq<TickRecord>, now: int, limit: nat)
    requires Series(ts, now, limit) && ts != [] && AllMoving(ts[0].before, now)
    ensures TookSeries(ts, now, limit)
    ensures forall i :: 0 <= i < |ts| ==> AllMoving(ts[i].before, now)
  {
    hide AllMoving, Took, TickOk;
    forall i | 0 <= i < |ts| ensures TookAt(ts, i, now, limit) && AllMoving(ts[i].before, now) {
      SeriesMoves(ts, now, limit, i);
      assert TickOk(ts[i], now, limit);
      TickTook(ts[i], now, limit);
      if i < |ts| - 1 { assert Linked(ts[i], ts[i + 1]); }
    }
  }

  /** The jobs that the first b ticks have taken. */
  ghost function Taken(ts: seq<TickRecord>, b: nat): set<JobId>
    requires b <= |ts|
  {
    if b == 0 then {} else Taken(ts, b - 1) + Elements(ts[b - 1].due)
  }

  ghost function TablesAt(ts: seq<TickRecord>, b: nat): Db
    requires b <= |ts| && ts != []
  {
    if b == 0 then ts[0].before else ts[b - 1].after
  }

  lemma SameJobsSameDue(a: Db, b: Db, now: int)
    requires a.jobs == b.jobs
    ensures DueJobs(a, now) == DueJobs(b, now)
  {
  }

  /** What is due in `after`, once a tick took its share of what was due in `before`. */
  lemma {:induction false} DueAfter(first: Db, before: Db, after: Db, gone: set<JobId>, took: set<JobId>, now: int, limit: nat)
    requires Took(before, after, took, now, limit)
    requires before.jobs.Keys == first.jobs.Keys && gone <= DueJobs(first, now)
    requires DueJobs(before, now) == DueJobs(first, now) - gone
    requires forall k :: k in before.jobs && k !in gone ==> before.jobs[k] == first.jobs[k]
    ensures gone + took <= DueJobs(first, now) && gone !! took
    ensures DueJobs(after, now) == DueJobs(first, now) - (gone + took)
    ensures forall k :: k in after.jobs && k !in gone + took ==> after.jobs[k] == first.jobs[k]
  {
    forall k | k in before.jobs && k !in took ensures k in DueJobs(after, now) <==> k in DueJobs(before, now) {
      assert after.jobs[k] == before.jobs[k];
    }
  }

  lemma {:induction false} SeriesDue(ts: seq<TickRecord>, now: int, limit: nat, b: nat)
    requires TookSeries(ts, now, limit) && b <= |ts| && ts != []
    ensures var (db, first) := (TablesAt(ts, b), ts[0].before);
            && db.jobs.Keys == first.jobs.Keys
            && Taken(ts, b) <= DueJobs(first, now)
            && DueJobs(db, now) == DueJobs(first, now) - Taken(ts, b)
            && forall k :: k in db.jobs && k !in Taken(ts, b) ==> db.jobs[k] == first.jobs[k]
    ensures b < |ts| ==> ts[b].before.jobs == TablesAt(ts, b).jobs
                         && DueJobs(ts[b].before, now) == DueJobs(ts[0].before, now) - Taken(ts, b)
  {
    if b > 0 {
      SeriesDue(ts, now, limit, b - 1);
      var t := ts[b - 1];
      assert TookAt(ts, b - 1, now, limit);
      DueAfter(ts[0].before, t.before, t.after, Taken(ts, b - 1), Elements(t.due), now, limit);
      if b < |ts| {
        SameJobsSameDue(ts[b].before, TablesAt(ts, b), now);
      }
    }
  }

  lemma OneMoreTick(b: nat, limit: nat, n: nat, taken: nat)
    requires b >= 1 && taken == Min((b - 1) * limit, n)
    ensures taken + Min(limit, n - taken) == Min(b * limit, n)
  {
    assert b * limit == (b - 1) * limit + limit;
  }

  lemma UnionSize(all: set<JobId>, gone: set<JobId>, took: set<JobId>, limit: nat)
    requires gone <= all && took <= all - gone && |took| == Min(limit, |all - gone|)
    ensures |gone| <= |all| && |gone + took| == |gone| + Min(limit, |all| - |gone|)
  {
    assert all == (all - gone) + gone;
  }

  lemma MoreTaken(all: set<JobId>, gone: set<JobId>, took: set<JobId>, limit: nat, b: nat)
    requires b >= 1 && gone <= all && took <= all - gone && |took| == Min(limit, |all - gone|)
    requires |gone| == Min((b - 1) * limit, |all|)
    ensures |gone + took| == Min(b * limit, |all|)
  {
    UnionSize(all, gone, took, limit);
    OneMoreTick(b, limit, |all|, |gone|);
  }

  lemma ShareOfTick(ts: seq<TickRecord>, now: int, limit: nat, i: nat)
    requires TookSeries(ts, now, limit) && i < |ts|
    ensures var due := DueJobs(ts[i].before, now);
            Elements(ts[i].due) <= due && |Elements(ts[i].due)| == Min(limit, |due|)
  {
    assert TookAt(ts, i, now, limit);
  }

  /** After b ticks, b * limit jobs are done, or all of them. */
  lemma {:induction false} TakenSize(ts: seq<TickRecord>, now: int, limit: nat, b: nat)
    requires TookSeries(ts, now, limit) && b <= |ts| && ts != []
    ensures |Taken(ts, b)| == Min(b * limit, |DueJobs(ts[0].before, now)|)
  {
    hide TookSeries, DueJobs;
    if b > 0 {
      TakenSize(ts, now, limit, b - 1);
      SeriesDue(ts, now, limit, b - 1);
      ShareOfTick(ts, now, limit, b - 1);
      MoreTaken(DueJobs(ts[0].before, now), Taken(ts, b - 1), Elements(ts[b - 1].due), limit, b);
    }
  }

  lemma {:induction false} TakenGrows(ts: seq<TickRecord>, a: nat, b: nat, j: JobId)
    requires a < b <= |ts| && j in ts[a].due
    ensures j in Taken(ts, b)
  {
    if a < b - 1 { TakenGrows(ts, a, b - 1, j); }
  }

  lemma {:induction false} TakenWhen(ts: seq<TickRecord>, b: nat, j: JobId) returns (a: nat)
    requires b <= |ts| && j in Taken(ts, b)
    ensures a < b && j in ts[a].due
  {
    if j in ts[b - 1].due { a := b - 1; } else { a := TakenWhen(ts, b - 1, j); }
  }

  /** No job is taken twice. */
  lemma {:induction false} TakenOnce(ts: seq<TickRecord>, now: int, limit: nat, i: nat, k: nat, j: JobId)
    requires TookSeries(ts, now, limit) && i < |ts| && k < |ts| && j in ts[i].due && j in ts[k].due
    ensures i == k
  {
    if i < k {
      assert j in Elements(ts[k].due) && TookAt(ts, k, now, limit);
      TakenGrows(ts, i, k, j);
      SeriesDue(ts, now, limit, k);
    } else if k < i {
      TakenOnce(ts, now, limit, k, i, j);
    }
  }

  /** n due jobs, all of them moving, are drained by any series of ticks with
      |ts| * limit >= n: afterwards none is due, and each was reported as fired or
      overlap-skipped by exactly one tick, `i`. */
  lemma {:induction false} SeriesDrains(ts: seq<TickRecord>, now: int, limit: nat, j: JobId) returns (i: nat)
    requires Series(ts, now, limit) && ts != [] && AllMoving(ts[0].before, now)
    requires |ts| * limit >= |DueJobs(ts[0].before, now)| && j in DueJobs(ts[0].before, now)
    ensures DueJobs(ts[|ts| - 1].after, now) == {}
    ensures i < |ts|
    ensures forall k :: 0 <= k < |ts| ==> (Handled(ts[k].after, ts[k].log, j) <==> k == i)
  {
    var all := DueJobs(ts[0].before, now);
    SeriesTook(ts, now, limit);
    SeriesDue(ts, now, limit, |ts|);
    TakenSize(ts, now, limit, |ts|);
    SubsetSize(Taken(ts, |ts|), all);
    i := TakenWhen(ts, |ts|, j);
    forall k | 0 <= k < |ts| ensures Handled(ts[k].after, ts[k].log, j) <==> k == i {
      assert TickOk(ts[k], now, limit);
      TickTakes(ts[k], now, limit, j);
      if j in ts[k].due { TakenOnce(ts, now, limit, i, k, j); }
    }
  }

  /** A job that a later tick takes was still there to be taken earlier. */
  lemma {:induction false} WaitedFor(ts: seq<TickRecord>, now: int, limit: nat, k: nat, i: nat, j: JobId)
    requires TookSeries(ts, now, limit) && k < i < |ts| && j in ts[i].due
    ensures j in DueJobs(ts[k].before, now) - Elements(ts[k].due)
    ensures j in ts[0].before.jobs && ts[k].before.jobs[j] == ts[0].before.jobs[j]
  {
    SeriesDue(ts, now, limit, i);
    SeriesDue(ts, now, limit, k);
    assert j in Elements(ts[i].due) && TookAt(ts, i, now, limit);
    if j in ts[k].due { TakenOnce(ts, now, limit, k, i, j); }
    if j in Taken(ts, k) {
      var a := TakenWhen(ts, k, j);
      TakenOnce(ts, now, limit, a, i, j);
    }
  }

  /** A job of higher priority is never taken by a later tick than one of lower priority. */
  lemma {:induction false} PriorityFirst(ts: seq<TickRecord>, now: int, limit: nat, i: nat, k: nat, high: JobId, low: JobId)
    requires Series(ts, now, limit) && ts != [] && AllMoving(ts[0].before, now)
    requires i < |ts| && k < |ts| && high in ts[i].due && low in ts[k].due
    requires high in ts[0].before.jobs && low in ts[0].before.jobs
    requires ts[0].before.jobs[high].priority > ts[0].before.jobs[low].priority
    ensures i <= k
  {
    SeriesTook(ts, now, limit);
    if k < i {
      assert TookAt(ts, k, now, limit);
      WaitedFor(ts, now, limit, k, i, high);
      LowIsUntouched(ts, now, limit, k, low);
    }
  }

  lemma {:induction false} LowIsUntouched(ts: seq<TickRecord>, now: int, limit: nat, k: nat, low: JobId)
    requires TookSeries(ts, now, limit) && k < |ts| && low in ts[k].due
    ensures low in ts[0].before.jobs && low in ts[k].before.jobs && ts[k].before.jobs[low] == ts[0].before.jobs[low]
    ensures low in Elements(ts[k].due)
  {
    SeriesDue(ts, now, limit, k);
    assert low in Elements(ts[k].due) && TookAt(ts, k, now, limit);
    if low in Taken(ts, k) {
      var a := TakenWhen(ts, k, low);
      TakenOnce(ts, now, limit, a, k, low);
    }
  }

  // ----- exactly when a series drains

  lemma {:induction false} TickJobsKeepStuck(db: Db, due: seq<JobId>, now: int, o: Outside, log: TickLog, k: JobId)
    requires k in db.jobs && !Plannable(db, now, k) && forall j :: j in due ==> j in db.jobs
    ensures var mid := TickJobs(db, due, now, o, log).0;
            k in mid.jobs && mid.jobs[k] == db.jobs[k] && mid.jobs.Keys == db.jobs.Keys && mid.schedules == db.schedules
    decreases |due|
  {
    if due != [] {
      var j := due[0];
      assert j in due && forall i :: i in due[1..] ==> i in due;
      var step := TickJob(db, j, now, false, o.rand(j), o.insertedAt(|db.runs|));
      StuckIsKept(db, j, now, false, o.rand(j), o.insertedAt(|db.runs|), k);
      TickJobsKeepStuck(step.db, due[1..], now, o, LogJob(log, j, step.event), k);
    }
  }

  lemma {:induction false} RetriesKeepJobs(db: Db, cands: seq<RunId>, now: int, o: Outside, log: TickLog)
    requires forall r :: r in cands ==> r < |db.runs|
    ensures var after := TickRetries(db, cands, now, o, log).0; after.jobs == db.jobs && after.schedules == db.schedules
    decreases |cands|
  {
    if cands != [] {
      assert cands[0] in cands && forall r :: r in cands[1..] ==> r in cands;
      var step := TickRetry(db, cands[0], now, false, o.insertedAt(|db.runs|));
      RetriesKeepJobs(step.db, cands[1..], now, o, LogRetry(log, step.child));
    }
  }

  lemma {:induction false} TickKeepsStuck(t: TickRecord, now: int, limit: nat, k: JobId)
    requires TickOk(t, now, limit) && Stuck(t.before, now, k)
    ensures Stuck(t.after, now, k)
  {
    forall j | j in t.due ensures j in t.before.jobs { assert j in DueJobs(t.before, now); }
    TickJobsKeepStuck(t.before, t.due, now, t.o, EMPTY_LOG, k);
    var (mid, midLog) := TickJobs(t.before, t.due, now, t.o, EMPTY_LOG);
    forall r | r in t.cands ensures r < |mid.runs| { assert r in Candidates(mid); }
    RetriesKeepJobs(mid, t.cands, now, t.o, midLog);
  }

  lemma {:induction false} SeriesKeepsStuck(ts: seq<TickRecord>, now: int, limit: nat, k: JobId)
    requires Series(ts, now, limit) && ts != [] && Stuck(ts[0].before, now, k)
    ensures Stuck(ts[|ts| - 1].after, now, k)
  {
    assert TickOk(ts[0], now, limit);
    TickKeepsStuck(ts[0], now, limit, k);
    if |ts| > 1 {
      assert Linked(ts[0], ts[1]);
      SeriesKeepsStuck(ts[1..], now, limit, k);
    }
  }

  /** While no cron step from now goes backwards, a long enough series of ticks at one time drains
      the due jobs exactly when each of them is moving. */
  lemma {:induction false} SeriesDrainsIff(ts: seq<TickRecord>, now: int, limit: nat)
    requires Series(ts, now, limit) && ts != []
    requires Settled(ts[0].before, now)
    requires |ts| * limit >= |DueJobs(ts[0].before, now)|
    ensures DueJobs(ts[|ts| - 1].after, now) == {} <==> AllMoving(ts[0].before, now)
  {
    if AllMoving(ts[0].before, now) {
      SeriesTook(ts, now, limit);
      SeriesDue(ts, now, limit, |ts|);
      TakenSize(ts, now, limit, |ts|);
      SubsetSize(Taken(ts, |ts|), DueJobs(ts[0].before, now));
    } else {
      var j :| j in DueJobs(ts[0].before, now) && !Moving(ts[0].before, now, j);
      SeriesKeepsStuck(ts, now, limit, j);
      assert j in DueJobs(ts[|ts| - 1].after, now);
    }
  }

  // ----- the backlog of an interval of 0

  function PileRun(): Run {
    Run(Some(0), "sync", Scheduled, Queued, 1, 0, None, None, None, None, false, None, false, false)
  }

  /** One job, due since time 0, that may overlap, on an enabled schedule with an interval of 0;
      and n queued runs of it. */
  function Pile(n: nat): Db {
    Db(map[0 := Job("sync", true, 0, true, 0, 60, Some(0), None, None, None, None)],
       map[0 := Schedule(Interval(Some(0)), 0)],
       seq(n, i => PileRun()))
  }

  /** A tick fires the job, fails to plan it, and leaves it as due as before. */
  lemma {:induction false} PileGrows(n: nat, now: nat, limit: nat) returns (t: TickRecord)
    requires limit >= 1
    ensures TickOk(t, now, limit) && t.before == Pile(n) && t.after == Pile(n + 1)
  {
    var db := Pile(n);
    var o := Outside(j => 0, r => 0);
    assert DueJobs(db, now) == {0};
    assert IsDueList(db, now, limit, [0]);
    var step := TickJob(db, 0, now, false, 0, 0);
    assert step.db.runs == Pile(n + 1).runs;
    assert step == JobStep(Pile(n + 1), Unadvanced(n));
    var log := LogJob(EMPTY_LOG, 0, step.event);
    assert [0][1..] == [];
    assert TickJobs(db, [0], now, o, EMPTY_LOG) == (Pile(n + 1), log) by {
      assert TickJobs(Pile(n + 1), [], now, o, log) == (Pile(n + 1), log);
    }
    assert Candidates(Pile(n + 1)) == {};
    assert IsCandidateList(Pile(n + 1), limit, []);
    t := TickRecord(db, Pile(n + 1), o, [0], [], log);
  }

  ghost predicate PileTick(ts: seq<TickRecord>, i: nat, now: int, limit: nat)
    requires i < |ts|
  {
    TickOk(ts[i], now, limit) && ts[i].before == Pile(i) && ts[i].after == Pile(i + 1)
  }

  /** So n ticks at one and the same time leave n active runs: without a usable interval the
      documented absence of a backlog explosion fails. */
  lemma {:induction false} TicksPileUp(n: nat, now: nat, limit: nat) returns (ts: seq<TickRecord>)
    requires limit >= 1
    ensures |ts| == n && forall i :: 0 <= i < n ==> PileTick(ts, i, now, limit)
    ensures |Overlap.ActiveRuns(Pile(n), 0)| == n && IsDue(Pile(n), now, 0)
  {
    hide Pile, TickOk;
    ts := [];
    if n > 0 {
      var before := TicksPileUp(n - 1, now, limit);
      var t := PileGrows(n - 1, now, limit);
      ts := before + [t];
      forall i | 0 <= i < n ensures PileTick(ts, i, now, limit) {
        if i < n - 1 { assert PileTick(before, i, now, limit); }
      }
    }
    PileSize(n, now);
  }

  lemma {:induction false} PileSize(n: nat, now: nat)
    ensures |Overlap.ActiveRuns(Pile(n), 0)| == n && IsDue(Pile(n), now, 0)
  {
    if n > 0 {
      PileSize(n - 1, now);
      assert Overlap.ActiveRuns(Pile(n), 0) == Overlap.ActiveRuns(Pile(n - 1), 0) + {n - 1};
    } else {
      assert Overlap.ActiveRuns(Pile(0), 0) == {};
    }
  }
}
