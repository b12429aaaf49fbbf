/** No backlog explosion: how often a job with a fixed interval can fire. */
module Backlog {
  import opened Basics
  import opened Schedules
  import opened ScrapeDb
  import opened SchedulerSpec
  import opened WorkerSpec
  import opened Protocol
  import opened Invariants

  // ----- inside one tick

  /** Two scheduled runs that an open tick created are of different jobs, and both jobs
      count as advanced. */
  ghost predicate OneFiring(base: Db, view: Db, advanced: set<JobId>) {
    && (forall n :: |base.runs| <= n < |view.runs| ==> FiredRow(view, advanced, n))
    && (forall n, m :: |base.runs| <= n < m < |view.runs| ==> DifferentFirings(view, n, m))
  }

  predicate FiredRow(view: Db, advanced: set<JobId>, n: RunId)
    requires n < |view.runs|
  {
    view.runs[n].trigger == Scheduled ==> view.runs[n].jobId.Some? && view.runs[n].jobId.value in advanced
  }

  predicate DifferentFirings(db: Db, n: RunId, m: RunId)
    requires n < |db.runs| && m < |db.runs|
  {
    db.runs[n].trigger == Scheduled && db.runs[m].trigger == Scheduled ==> db.runs[n].jobId != db.runs[m].jobId
  }

  /** An advanced job with a fixed interval is planned after the tick's now and at least
      one interval after its committed plan. */
  ghost predicate MovedOn(base: Db, t: Txn, j: JobId) {
    && j in base.jobs && j in base.schedules && j in t.view.jobs && base.jobs[j].nextRunAt.Some?
    && t.view.jobs[j].nextRunAt.Some?
    && forall sec :: FixedInterval(base.schedules[j], sec) ==>
         && t.view.jobs[j].nextRunAt.value > t.now
         && t.view.jobs[j].nextRunAt.value >= base.jobs[j].nextRunAt.value + sec
  }

  ghost predicate HasInterval(db: Db, j: JobId) {
    j in db.schedules && exists sec :: FixedInterval(db.schedules[j], sec)
  }

  ghost predicate TickProgress(s: Sys) {
    s.tick.Some? ==>
      && OneFiring(s.db, s.tick.value.view, s.tick.value.advanced)
      && forall j :: j in s.tick.value.advanced && HasInterval(s.db, j) ==> MovedOn(s.db, s.tick.value, j)
  }

  lemma {:induction false} TickJobMovesOn(base: Db, t: Txn, j: JobId, stale: bool, rand: nat, at: int)
    requires Extends(base, t.view) && IsDue(base, t.now, j) && j in t.view.jobs
    requires t.view.jobs[j] == base.jobs[j] && HasInterval(base, j)
    ensures !TickJob(t.view, j, t.now, stale, rand, at).event.NoSchedule?
    ensures MovedOn(base, t.(view := TickJob(t.view, j, t.now, stale, rand, at).db), j)
  {
    var sec :| FixedInterval(base.schedules[j], sec);
    var current := base.jobs[j].nextRunAt.value;
    AdvanceProgress(base.schedules[j], sec, current, t.now, base.schedules[j].jitterSec, rand);
    AdvanceProgress(base.schedules[j], sec, current, t.now, 0, 0);
    assert forall other :: FixedInterval(base.schedules[j], other) ==> other == sec;
  }

  lemma {:induction false} TickDueProgress(s: Sys, stale: bool, rand: nat)
    requires Inv(s) && Enabled(s, TickDue(stale, rand)) && TickProgress(s)
    ensures TickProgress(Apply(s, TickDue(stale, rand)))
  {
    var t := s.tick.value;
    var j := t.due[0];
    assert j in t.due;
    var step := TickJob(t.view, j, t.now, stale, rand, s.clock);
    var next := Apply(s, TickDue(stale, rand)).tick.value;
    TickJobExtends(s.db, t.view, j, t.now, stale, rand, s.clock);
    forall k | k in next.advanced && HasInterval(s.db, k) ensures MovedOn(s.db, next, k) {
      if k == j {
        TickJobMovesOn(s.db, t, j, stale, rand, s.clock);
      } else {
        assert MovedOn(s.db, t, k) && next.view.jobs[k] == t.view.jobs[k];
      }
    }
    TickJobFirings(s.db, t.view, t.advanced, j, t.now, stale, rand, s.clock);
  }

  lemma {:induction false} TickJobFirings(base: Db, view: Db, advanced: set<JobId>, j: JobId, now: int, stale: bool, rand: nat, at: int)
    requires OneFiring(base, view, advanced) && |base.runs| <= |view.runs| && j in view.jobs && j !in advanced
    ensures var step := TickJob(view, j, now, stale, rand, at);
            OneFiring(base, step.db, advanced + if step.event.NoSchedule? then {} else {j})
  {
    var step := TickJob(view, j, now, stale, rand, at);
    var more := advanced + if step.event.NoSchedule? then {} else {j};
    forall n | |base.runs| <= n < |step.db.runs| ensures FiredRow(step.db, more, n) {
      if n < |view.runs| { assert FiredRow(view, advanced, n); }
    }
    forall n, m | |base.runs| <= n < m < |step.db.runs| ensures DifferentFirings(step.db, n, m) {
      assert FiredRow(view, advanced, n);
      if m < |view.runs| { assert DifferentFirings(view, n, m); }
    }
  }

  /** Steps that keep old rows' job and trigger and append no scheduled run. */
  lemma {:induction false} FiringsKept(base: Db, view: Db, base': Db, view': Db, advanced: set<JobId>)
    requires OneFiring(base, view, advanced) && |base'.runs| == |base.runs| && |view.runs| <= |view'.runs|
    requires forall i :: 0 <= i < |view.runs| ==>
      view.runs[i].trigger == view'.runs[i].trigger && view.runs[i].jobId == view'.runs[i].jobId
    requires forall i :: |view.runs| <= i < |view'.runs| ==> view'.runs[i].trigger != Scheduled
    ensures OneFiring(base', view', advanced)
  {
    forall n | |base'.runs| <= n < |view'.runs| ensures FiredRow(view', advanced, n) {
      if n < |view.runs| { assert FiredRow(view, advanced, n); }
    }
    forall n, m | |base'.runs| <= n < m < |view'.runs| ensures DifferentFirings(view', n, m) {
      if m < |view.runs| { assert DifferentFirings(view, n, m); }
    }
  }

  /** Plans are untouched when the jobs are. */
  lemma {:induction false} PlansKept(base: Db, t: Txn, base': Db, t': Txn)
    requires forall j :: j in t.advanced && HasInterval(base, j) ==> MovedOn(base, t, j)
    requires base'.jobs == base.jobs && base'.schedules == base.schedules
    requires t'.view.jobs == t.view.jobs && t'.now == t.now && t'.advanced == t.advanced
    ensures forall j :: j in t'.advanced && HasInterval(base', j) ==> MovedOn(base', t', j)
  {
    forall j | j in t'.advanced && HasInterval(base', j) ensures MovedOn(base', t', j) {
      assert HasInterval(base, j) && MovedOn(base, t, j);
    }
  }

  lemma RetryFiresNothing(db: Db, r: RunId, now: int, stale: bool, at: int)
    requires r < |db.runs|
    ensures var next := TickRetry(db, r, now, stale, at).db;
            && (forall i :: 0 <= i < |db.runs| ==>
                  db.runs[i].trigger == next.runs[i].trigger && db.runs[i].jobId == next.runs[i].jobId)
            && (forall i :: |db.runs| <= i < |next.runs| ==> next.runs[i].trigger != Scheduled)
  {
    hide HasActiveRun;
  }

  lemma {:induction false} CandidateProgress(s: Sys, stale: bool)
    requires Inv(s) && Enabled(s, TickCandidate(stale)) && TickProgress(s)
    ensures TickProgress(Apply(s, TickCandidate(stale)))
  {
    var (t, t') := (s.tick.value, Apply(s, TickCandidate(stale)).tick.value);
    RetryFiresNothing(t.view, t.cands.value[0], t.now, stale, s.clock);
    hide TickRetry, DbInv, Extends, HeldInv, OneFiring, MovedOn, HasInterval, IsCandidate, IsDue, Distinct;
    PlansKept(s.db, t, s.db, t');
    FiringsKept(s.db, t.view, s.db, t'.view, t.advanced);
  }

  lemma {:induction false} FinishProgress(s: Sys, w: WorkerId, o: Outcome)
    requires Inv(s) && Enabled(s, Finish(w, o)) && TickProgress(s)
    ensures TickProgress(Apply(s, Finish(w, o)))
  {
    if s.tick.Some? {
      var next := Apply(s, Finish(w, o));
      PlansKept(s.db, s.tick.value, next.db, next.tick.value);
      FiringsKept(s.db, s.tick.value.view, next.db, next.tick.value.view, s.tick.value.advanced);
    }
  }

  lemma {:induction false} ProgressKept(s: Sys, l: Label)
    requires Inv(s) && Enabled(s, l) && TickProgress(s)
    ensures TickProgress(Apply(s, l))
  {
    match l
    case TickDue(stale, rand) => TickDueProgress(s, stale, rand);
    case TickCandidate(stale) => CandidateProgress(s, stale);
    case Finish(w, o) => FinishProgress(s, w, o);
    case BeginRetries(_) => PlansKept(s.db, s.tick.value, s.db, Apply(s, l).tick.value);
    case _ =>
  }

  /** In every reachable state an open tick has fired each job at most once, and has moved
      every fired or overlap-skipped job with a fixed interval on by at least that interval,
      to a time after its now. */
  lemma {:induction false} TicksProgress(ss: seq<Sys>, ls: seq<Label>, i: nat)
    requires Behaviour(ss, ls) && i < |ss|
    ensures TickProgress(ss[i])
  {
    if i > 0 {
      TicksProgress(ss, ls, i - 1);
      Reachable(ss, ls, i - 1);
      assert StepAt(ss, ls, i - 1);
      ProgressKept(ss[i - 1], ls[i - 1]);
    }
  }

  // ----- over whole runs

  /** Step i publishes a tick that fired or overlap-skipped the job. */
  ghost predicate Advances(ss: seq<Sys>, ls: seq<Label>, i: nat, j: JobId)
    requires i < |ls| && |ss| == |ls| + 1
  {
    ls[i].CommitTick? && ss[i].tick.Some? && j in ss[i].tick.value.advanced
  }

  ghost function AdvancesIn(ss: seq<Sys>, ls: seq<Label>, a: nat, b: nat, j: JobId): nat
    requires a <= b <= |ls| && |ss| == |ls| + 1
  {
    if a == b then 0 else AdvancesIn(ss, ls, a, b - 1, j) + if Advances(ss, ls, b - 1, j) then 1 else 0
  }

  ghost predicate IntervalAt(s: Sys, j: JobId, sec: int) {
    j in s.db.jobs && j in s.db.schedules && FixedInterval(s.db.schedules[j], sec)
  }

  /** A committed plan moves by an advance only, and then by at least an interval. */
  lemma {:induction false} PlanMoves(ss: seq<Sys>, ls: seq<Label>, i: nat, j: JobId, sec: int)
    requires Behaviour(ss, ls) && i < |ls| && IntervalAt(ss[i], j, sec)
    ensures j in ss[i + 1].db.jobs
    ensures var (before, after) := (ss[i].db.jobs[j].nextRunAt, ss[i + 1].db.jobs[j].nextRunAt);
            if Advances(ss, ls, i, j) then
              && before.Some? && after.Some? && before.value <= ss[i].tick.value.now < after.value
              && after.value >= before.value + sec
            else after == before
  {
    Reachable(ss, ls, i);
    TicksProgress(ss, ls, i);
    assert StepAt(ss, ls, i);
    assert HasInterval(ss[i].db, j);
    if Advances(ss, ls, i, j) {
      assert MovedOn(ss[i].db, ss[i].tick.value, j);
    }
  }

  lemma OneStepFurther(plan: int, start: int, n: nat, sec: int, next: int)
    requires plan > start + (n - 1) * sec && next >= plan + sec
    ensures next > start + n * sec
  {
    assert n * sec == (n - 1) * sec + sec;
  }

  lemma {:induction false} PlanRunsAhead(ss: seq<Sys>, ls: seq<Label>, a: nat, m: nat, j: JobId, sec: int)
    requires Behaviour(ss, ls) && a < m < |ss| && Advances(ss, ls, a, j)
    requires forall i :: a <= i < m ==> IntervalAt(ss[i], j, sec)
    ensures j in ss[m].db.jobs && ss[m].db.jobs[j].nextRunAt.Some? && AdvancesIn(ss, ls, a, m, j) >= 1
    ensures ss[m].db.jobs[j].nextRunAt.value > ss[a].tick.value.now + (AdvancesIn(ss, ls, a, m, j) - 1) * sec
  {
    PlanMoves(ss, ls, m - 1, j, sec);
    if m == a + 1 {
      assert AdvancesIn(ss, ls, a, m, j) == 1;
    } else {
      PlanRunsAhead(ss, ls, a, m - 1, j, sec);
      var n := AdvancesIn(ss, ls, a, m - 1, j);
      if Advances(ss, ls, m - 1, j) {
        OneStepFurther(ss[m - 1].db.jobs[j].nextRunAt.value, ss[a].tick.value.now, n, sec, ss[m].db.jobs[j].nextRunAt.value);
      }
    }
  }

  /** For a fixed interval and any jitter: if a job fired or was overlap-skipped k times
      from one committed tick to another, both included, then more than (k - 2) intervals
      lie between the two ticks' times. */
  lemma {:induction false} NoBacklogExplosion(ss: seq<Sys>, ls: seq<Label>, a: nat, b: nat, j: JobId, sec: int)
    requires Behaviour(ss, ls) && a < b < |ls| && Advances(ss, ls, a, j) && Advances(ss, ls, b, j)
    requires forall i :: a <= i <= b ==> IntervalAt(ss[i], j, sec)
    ensures ss[a].tick.Some? && ss[b].tick.Some?
    ensures (AdvancesIn(ss, ls, a, b + 1, j) - 2) * sec < ss[b].tick.value.now - ss[a].tick.value.now
  {
    PlanRunsAhead(ss, ls, a, b, j, sec);
    PlanMoves(ss, ls, b, j, sec);
  }
}
