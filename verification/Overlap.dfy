/** The no-overlap guarantee. */
module Overlap {
  import opened Basics
  import opened ScrapeDb
  import opened SchedulerSpec
  import opened WorkerSpec
  import opened Protocol
  import opened Invariants

  /** The queued and running runs of a job. */
  function ActiveRuns(db: Db, j: JobId): set<RunId> {
    set i: RunId | i < |db.runs| && db.runs[i].jobId == Some(j)
                   && (db.runs[i].status == Queued || db.runs[i].status == Running)
  }

  /** Publishing or adding a run of a job only when none is active keeps the count at most
      one, or where it was. */
  lemma {:induction false} ActiveBound(jobs: map<JobId, Job>, db: Db, next: Db, clock: int, now: int, j: JobId)
    requires DbInv(next) && Grows(jobs, db, next, clock, now)
    requires j in jobs ==> !jobs[j].allowOverlap
    ensures |ActiveRuns(next, j)| <= Max(1, |ActiveRuns(db, j)|)
  {
    var n := |db.runs|;
    forall i | i in ActiveRuns(next, j) && i < n ensures i in ActiveRuns(db, j) {
      assert RowMoved(db.runs[i], next.runs[i], clock) && RunOk(next, i);
    }
    if n < |next.runs| && next.runs[n].jobId == Some(j) {
      assert NoneActive(db, j);
      assert ActiveRuns(next, j) <= {n};
      SubsetSize(ActiveRuns(next, j), {n});
    } else {
      SubsetSize(ActiveRuns(next, j), ActiveRuns(db, j));
    }
  }

  lemma {:induction false} ViewHasMore(base: Db, view: Db, j: JobId)
    requires Extends(base, view)
    ensures ActiveRuns(base, j) <= ActiveRuns(view, j) && |ActiveRuns(base, j)| <= |ActiveRuns(view, j)|
  {
    forall i | i in ActiveRuns(base, j) ensures i in ActiveRuns(view, j) {
      assert SameRun(base.runs[i], view.runs[i]);
    }
    SubsetSize(ActiveRuns(base, j), ActiveRuns(view, j));
  }

  /** An open tick that would publish more active runs of the job than are committed has
      at most one to show. */
  ghost predicate TickAddsOne(s: Sys, j: JobId) {
    s.tick.Some? && j in s.db.jobs && !s.db.jobs[j].allowOverlap ==>
      |ActiveRuns(s.tick.value.view, j)| <= Max(1, |ActiveRuns(s.db, j)|)
  }

  lemma {:induction false} FinishedIsInactive(db: Db, r: RunId, w: WorkerId, o: Outcome, at: int, j: JobId)
    requires r < |db.runs| && db.runs[r].status == Queued
    ensures ActiveRuns(FinishRun(db, r, w, o, at), j) == ActiveRuns(db, j) - {r}
  {
  }

  lemma {:induction false} FinishAddsOne(base: Db, view: Db, r: RunId, w: WorkerId, o: Outcome, at: int, j: JobId)
    requires Extends(base, view) && r < |base.runs| && base.runs[r].status == Queued
    requires |ActiveRuns(view, j)| <= Max(1, |ActiveRuns(base, j)|)
    ensures |ActiveRuns(FinishRun(view, r, w, o, at), j)| <= Max(1, |ActiveRuns(FinishRun(base, r, w, o, at), j)|)
  {
    assert SameRun(base.runs[r], view.runs[r]);
    FinishedIsInactive(base, r, w, o, at, j);
    FinishedIsInactive(view, r, w, o, at, j);
    ViewHasMore(base, view, j);
  }

  lemma {:induction false} AddsOneKept(s: Sys, l: Label, j: JobId)
    requires Inv(s) && Enabled(s, l) && TickAddsOne(s, j)
    ensures TickAddsOne(Apply(s, l), j)
  {
    if s.tick.Some? && j in s.db.jobs && !s.db.jobs[j].allowOverlap {
      match l
      case TickDue(stale, rand) =>
        TickDueMoves(s, stale, rand);
        TickDueKeeps(s, stale, rand);
        var next := Apply(s, l);
        if Eff(next) != s.db {
          ActiveBound(s.db.jobs, Eff(s), Eff(next), s.clock, NowOf(s), j);
        }
      case TickCandidate(stale) =>
        TickCandidateMoves(s, stale);
        TickCandidateKeeps(s, stale);
        var next := Apply(s, l);
        if Eff(next) != s.db {
          ActiveBound(s.db.jobs, Eff(s), Eff(next), s.clock, NowOf(s), j);
        }
      case Finish(w, o) =>
        FinishAddsOne(s.db, s.tick.value.view, s.held[w], w, o, s.clock, j);
      case _ =>
    }
  }

  lemma {:induction false} AddsOneReachable(ss: seq<Sys>, ls: seq<Label>, i: nat, j: JobId)
    requires Behaviour(ss, ls) && i < |ss|
    ensures TickAddsOne(ss[i], j)
  {
    if i > 0 {
      AddsOneReachable(ss, ls, i - 1, j);
      Reachable(ss, ls, i - 1);
      assert StepAt(ss, ls, i - 1);
      AddsOneKept(ss[i - 1], ls[i - 1], j);
    }
  }

  /** No step taken while a job's allow_overlap is false raises its count of active runs
      above one: neither the committed count nor the one inside an open tick. */
  lemma {:induction false} OverlapNeverRises(ss: seq<Sys>, ls: seq<Label>, i: nat, j: JobId)
    requires Behaviour(ss, ls) && i < |ls|
    requires j in ss[i].db.jobs ==> !ss[i].db.jobs[j].allowOverlap
    ensures |ActiveRuns(ss[i + 1].db, j)| <= Max(1, |ActiveRuns(ss[i].db, j)|)
    ensures |ActiveRuns(Eff(ss[i + 1]), j)| <= Max(1, |ActiveRuns(Eff(ss[i]), j)|)
  {
    Moves(ss, ls, i);
    AddsOneReachable(ss, ls, i, j);
    var (s, next) := (ss[i], ss[i + 1]);
    if next.db != Eff(s) {
      ActiveBound(s.db.jobs, s.db, next.db, s.clock, NowOf(s), j);
    } else if j !in s.db.jobs {
      NoJobNoRuns(Eff(s), j);
    }
    if Eff(next) != s.db {
      ActiveBound(s.db.jobs, Eff(s), Eff(next), s.clock, NowOf(s), j);
    } else if s.tick.Some? {
      ViewHasMore(s.db, s.tick.value.view, j);
    }
  }

  lemma {:induction false} NoJobNoRuns(db: Db, j: JobId)
    requires DbInv(db) && j !in db.jobs
    ensures ActiveRuns(db, j) == {}
  {
    forall i | 0 <= i < |db.runs| ensures db.runs[i].jobId != Some(j) { assert RunOk(db, i); }
  }

  /** A job whose allow_overlap was never true has at most one queued or running run,
      after every step and inside every tick, however the workers interleave. */
  lemma {:induction false} NeverTwoActive(ss: seq<Sys>, ls: seq<Label>, i: nat, j: JobId)
    requires Behaviour(ss, ls) && i < |ss|
    requires forall k :: 0 <= k < i && j in ss[k].db.jobs ==> !ss[k].db.jobs[j].allowOverlap
    ensures |ActiveRuns(ss[i].db, j)| <= 1 && |ActiveRuns(Eff(ss[i]), j)| <= 1
  {
    if i == 0 {
      assert ActiveRuns(ss[0].db, j) == {};
    } else {
      NeverTwoActive(ss, ls, i - 1, j);
      OverlapNeverRises(ss, ls, i - 1, j);
    }
  }
}
