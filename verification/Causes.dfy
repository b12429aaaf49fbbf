/** Where runs come from: every run was added by a step that had reason to. */
module Causes {
  import opened Basics
  import opened ScrapeDb
  import opened SchedulerSpec
  import opened Protocol
  import opened Invariants

  /** Step k adds a run, and the run now at r is that one. */
  ghost predicate AddedAt(ss: seq<Sys>, ls: seq<Label>, k: nat, i: nat, r: RunId)
    requires k < |ls| && |ss| == |ls| + 1 && i < |ss|
  {
    && |Eff(ss[k]).runs| == r < |Eff(ss[k + 1]).runs| && r < |Eff(ss[i]).runs|
    && SameOrigin(Eff(ss[k + 1]).runs[r], Eff(ss[i]).runs[r])
    && FreshRow(ss[k].db.jobs, Eff(ss[k]), Eff(ss[k + 1]).runs[r], ss[k].clock, NowOf(ss[k]))
  }

  lemma CommittedInView(s: Sys, r: RunId)
    requires Inv(s) && r < |s.db.runs|
    ensures r < |Eff(s).runs| && SameOrigin(s.db.runs[r], Eff(s).runs[r])
  {
    if s.tick.Some? { assert SameRun(s.db.runs[r], s.tick.value.view.runs[r]); }
  }

  lemma {:induction false} ComesFrom(s: Sys, next: Sys, r: RunId)
    requires Inv(s) && Moved(s, next) && r < |Eff(next).runs|
    ensures if r < |Eff(s).runs| then SameOrigin(Eff(s).runs[r], Eff(next).runs[r])
            else r == |Eff(s).runs| && FreshRow(s.db.jobs, Eff(s), Eff(next).runs[r], s.clock, NowOf(s))
  {
    hide FreshRow;
    if Eff(next) == s.db {
      CommittedInView(s, r);
    } else if r < |Eff(s).runs| {
      assert RowMoved(Eff(s).runs[r], Eff(next).runs[r], s.clock);
    }
  }

  /** Every run that a reader or the open tick sees was added by an earlier step, which found what
      FreshRow says: the job known and free to run, and enabled and planned by then if the run is a
      scheduled one, or enabled, with budget left and the backoff over if it is a retry. */
  lemma {:induction false} RunHasCause(ss: seq<Sys>, ls: seq<Label>, i: nat, r: RunId) returns (k: nat)
    requires Behaviour(ss, ls) && i < |ss| && r < |Eff(ss[i]).runs|
    ensures k < i && AddedAt(ss, ls, k, i, r)
  {
    if i == 0 {
      assert false;
    }
    Moves(ss, ls, i - 1);
    ComesFrom(ss[i - 1], ss[i], r);
    hide Inv, FreshRow, Moved, Eff;
    if r < |Eff(ss[i - 1]).runs| {
      k := RunHasCause(ss, ls, i - 1, r);
    } else {
      k := i - 1;
    }
  }

  /** The job's runs that no operator asked for. */
  function AutomaticRuns(db: Db, j: JobId): set<RunId> {
    set r: RunId | r < |db.runs| && db.runs[r].jobId == Some(j) && db.runs[r].trigger != Manual
  }

  lemma {:induction false} NoneAdded(jobs: map<JobId, Job>, db: Db, next: Db, clock: int, now: int, j: JobId)
    requires Grows(jobs, db, next, clock, now) && (j in jobs ==> !jobs[j].enabled)
    ensures AutomaticRuns(next, j) <= AutomaticRuns(db, j)
  {
    forall r | r in AutomaticRuns(next, j) ensures r in AutomaticRuns(db, j) {
      if r < |db.runs| { assert RowMoved(db.runs[r], next.runs[r], clock); }
    }
  }

  lemma {:induction false} FewerCommitted(s: Sys, j: JobId)
    requires Inv(s)
    ensures AutomaticRuns(s.db, j) <= AutomaticRuns(Eff(s), j)
  {
    forall r | r in AutomaticRuns(s.db, j) ensures r in AutomaticRuns(Eff(s), j) {
      CommittedInView(s, r);
    }
  }

  /** While a job is disabled it gains no scheduled run and no retry, committed or in an open tick. */
  lemma {:induction false} DisabledGainsNothing(ss: seq<Sys>, ls: seq<Label>, a: nat, b: nat, j: JobId)
    requires Behaviour(ss, ls) && a <= b < |ss|
    requires forall k :: a <= k < b && j in ss[k].db.jobs ==> !ss[k].db.jobs[j].enabled
    ensures AutomaticRuns(ss[b].db, j) <= AutomaticRuns(Eff(ss[b]), j) <= AutomaticRuns(Eff(ss[a]), j)
  {
    Reachable(ss, ls, b);
    FewerCommitted(ss[b], j);
    if a < b {
      DisabledGainsNothing(ss, ls, a, b - 1, j);
      Moves(ss, ls, b - 1);
      var (s, next) := (ss[b - 1], ss[b]);
      hide Inv, FreshRow, AutomaticRuns;
      FewerCommitted(s, j);
      if Eff(next) != s.db {
        NoneAdded(s.db.jobs, Eff(s), Eff(next), s.clock, NowOf(s), j);
      }
    }
  }

  /** A job edit writes the given columns of its job, and nothing else anywhere. */
  lemma {:induction false} EditWritesWhatIsGiven(ss: seq<Sys>, ls: seq<Label>, i: nat)
    requires Behaviour(ss, ls) && i < |ls| && ls[i].PatchJob?
    ensures var (before, after, j, p) := (ss[i].db, ss[i + 1].db, ls[i].job, ls[i].patch);
            && j in before.jobs && after.jobs.Keys == before.jobs.Keys
            && after.runs == before.runs && after.schedules == before.schedules
            && (forall k :: k in before.jobs && k != j ==> after.jobs[k] == before.jobs[k])
            && var (old', new') := (before.jobs[j], after.jobs[j]);
               && new' == old'.(enabled := new'.enabled, priority := new'.priority, allowOverlap := new'.allowOverlap,
                                maxRetries := new'.maxRetries, retryBackoffSec := new'.retryBackoffSec,
                                timeoutSec := new'.timeoutSec, concurrencyKey := new'.concurrencyKey, params := new'.params)
               && new'.enabled == (if p.enabled == None then old'.enabled else p.enabled.value)
               && new'.priority == (if p.priority == None then old'.priority else p.priority.value)
               && new'.allowOverlap == (if p.allowOverlap == None then old'.allowOverlap else p.allowOverlap.value)
               && new'.maxRetries == (if p.maxRetries == None then old'.maxRetries else p.maxRetries.value)
               && new'.retryBackoffSec == (if p.retryBackoffSec == None then old'.retryBackoffSec else p.retryBackoffSec.value)
               && new'.timeoutSec == (if p.timeoutSec == None then old'.timeoutSec else p.timeoutSec)
               && new'.concurrencyKey == (if p.concurrencyKey == None then old'.concurrencyKey else p.concurrencyKey)
               && new'.params == (if p.params == None then old'.params else p.params)
  {
    assert StepAt(ss, ls, i);
  }
}
