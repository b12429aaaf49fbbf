/** Once nothing new is enqueued, work and retries run dry. */
module Termination {
  import opened Basics
  import opened ScrapeDb
  import opened SchedulerSpec
  import opened WorkerSpec
  import opened Protocol
  import opened Invariants

  /** Retries that a run's lineage may still get. */
  function RetriesLeft(jobs: map<JobId, Job>, run: Run): nat {
    if run.jobId.Some? && run.jobId.value in jobs
    then Max(0, jobs[run.jobId.value].maxRetries - (run.attempt - 1)) else 0
  }

  function Weight(jobs: map<JobId, Job>, locked: bool, run: Run): nat {
    if run.status == Queued then 4 * RetriesLeft(jobs, run) + if locked then 2 else 3
    else if run.status == Failed && run.retryable && !run.retryProcessed then 4 * RetriesLeft(jobs, run) + 1
    else 0
  }

  ghost function Sum(db: Db, locked: set<RunId>, n: nat): nat
    requires n <= |db.runs|
  {
    if n == 0 then 0 else Sum(db, locked, n - 1) + Weight(db.jobs, n - 1 in locked, db.runs[n - 1])
  }

  /** What the system can still do: retries left, weighed with the lifecycle stage. */
  ghost function Measure(s: Sys): nat {
    Sum(Eff(s), Locked(s), |Eff(s).runs|)
  }

  /** Weights that differ in one place only. */
  lemma {:induction false} SumChange(a: Db, b: Db, la: set<RunId>, lb: set<RunId>, n: nat, r: RunId)
    requires n <= |a.runs| && n <= |b.runs|
    requires forall i :: 0 <= i < n && i != r ==> Weight(a.jobs, i in la, a.runs[i]) == Weight(b.jobs, i in lb, b.runs[i])
    ensures Sum(a, la, n) + (if r < n then Weight(b.jobs, r in lb, b.runs[r]) else 0)
         == Sum(b, lb, n) + (if r < n then Weight(a.jobs, r in la, a.runs[r]) else 0)
  {
    if n > 0 {
      SumChange(a, b, la, lb, n - 1, r);
    }
  }

  /** A step that starts nothing, gives nothing back and changes no budget. */
  ghost predicate Quiet(s: Sys, l: Label)
    requires Enabled(s, l)
  {
    match l
    case PatchJob(j, p) => p.maxRetries.GetOr(s.db.jobs[j].maxRetries) == s.db.jobs[j].maxRetries
    case ManualEnqueue(_, _) => false
    case TickDue(_, _) => Eff(Apply(s, l)).runs == Eff(s).runs
    case RollbackTick => false
    case Abort(_) => false
    case _ => true
  }

  /** A claim, a completion, or a retry evaluation that changes something. */
  ghost predicate Works(s: Sys, l: Label)
    requires Enabled(s, l)
  {
    l.Claim? || l.Finish? || (l.TickCandidate? && Eff(Apply(s, l)) != Eff(s))
  }

  lemma {:induction false} ClaimDecreases(s: Sys, w: WorkerId, r: RunId)
    requires Inv(s) && Enabled(s, Claim(w, r))
    ensures Measure(Apply(s, Claim(w, r))) < Measure(s)
  {
    var next := Apply(s, Claim(w, r));
    LockedAfterClaim(s.held, w, r);
    if s.tick.Some? { assert SameRun(s.db.runs[r], Eff(s).runs[r]); }
    SumChange(Eff(s), Eff(s), Locked(s), Locked(next), |Eff(s).runs|, r);
  }

  lemma {:induction false} FinishWeighs(db: Db, locked: set<RunId>, r: RunId, w: WorkerId, o: Outcome, at: int)
    requires r < |db.runs| && db.runs[r].status == Queued && r in locked
    ensures var next := FinishRun(db, r, w, o, at);
            Sum(next, locked - {r}, |next.runs|) < Sum(db, locked, |db.runs|)
  {
    SumChange(db, FinishRun(db, r, w, o, at), locked, locked - {r}, |db.runs|, r);
  }

  lemma {:induction false} FinishDecreases(s: Sys, w: WorkerId, o: Outcome)
    requires Inv(s) && Enabled(s, Finish(w, o))
    ensures Measure(Apply(s, Finish(w, o))) < Measure(s)
  {
    var r := s.held[w];
    if s.tick.Some? { assert SameRun(s.db.runs[r], Eff(s).runs[r]); }
    LockedAfterRelease(s.held, w);
    assert r in Locked(s);
    FinishWeighs(Eff(s), Locked(s), r, w, o, s.clock);
    hide DbInv, TxnInv, Extends, FinishRun, Sum;
  }

  lemma {:induction false} RetryDecreases(db: Db, locked: set<RunId>, r: RunId, now: int, stale: bool, at: int)
    requires DbInv(db) && IsCandidate(db, r) && |db.runs| !in locked
    ensures var next := TickRetry(db, r, now, stale, at).db;
            next == db || Sum(next, locked, |next.runs|) < Sum(db, locked, |db.runs|)
  {
    var next := TickRetry(db, r, now, stale, at).db;
    assert RunOk(db, r);
    SumChange(db, next, locked, locked, |db.runs|, r);
  }

  lemma {:induction false} CandidateDecreases(s: Sys, stale: bool)
    requires Inv(s) && Enabled(s, TickCandidate(stale))
    ensures var next := Apply(s, TickCandidate(stale));
            (Eff(next) == Eff(s) && Measure(next) == Measure(s)) || Measure(next) < Measure(s)
  {
    var t := s.tick.value;
    assert t.cands.value[0] in t.cands.value;
    assert |t.view.runs| !in Locked(s);
    RetryDecreases(t.view, Locked(s), t.cands.value[0], t.now, stale, s.clock);
  }

  /** Tables whose budgets and runs agree weigh the same. */
  lemma {:induction false} SameMeasure(db: Db, next: Db, locked: set<RunId>)
    requires DbInv(db) && next.runs == db.runs && db.jobs.Keys <= next.jobs.Keys
    requires forall j :: j in db.jobs ==> next.jobs[j].maxRetries == db.jobs[j].maxRetries
    ensures Sum(db, locked, |db.runs|) == Sum(next, locked, |next.runs|)
  {
    forall i | 0 <= i < |db.runs| ensures RetriesLeft(db.jobs, db.runs[i]) == RetriesLeft(next.jobs, next.runs[i]) {
      assert RunOk(db, i);
    }
    SumChange(db, next, locked, locked, |db.runs|, |db.runs|);
  }

  lemma {:induction false} QuietKeeps(s: Sys, l: Label)
    requires Inv(s) && Enabled(s, l) && Quiet(s, l) && !l.Claim? && !l.Finish? && !l.TickCandidate?
    ensures Measure(Apply(s, l)) == Measure(s)
  {
    SameMeasure(Eff(s), Eff(Apply(s, l)), Locked(s));
  }

  ghost function WorkIn(ss: seq<Sys>, ls: seq<Label>, a: nat, b: nat): nat
    requires a <= b <= |ls| && |ss| == |ls| + 1
    requires forall i :: a <= i < b ==> StepAt(ss, ls, i)
  {
    if a == b then 0
    else
      assert StepAt(ss, ls, b - 1);
      WorkIn(ss, ls, a, b - 1) + if Works(ss[b - 1], ls[b - 1]) then 1 else 0
  }

  lemma {:induction false} StepDecreases(s: Sys, l: Label)
    requires Inv(s) && Enabled(s, l) && Quiet(s, l)
    ensures Measure(Apply(s, l)) + (if Works(s, l) then 1 else 0) <= Measure(s)
  {
    hide Measure, Inv, Apply, Eff, Enabled;
    match l
    case Claim(w, r) => ClaimDecreases(s, w, r);
    case Finish(w, o) => FinishDecreases(s, w, o);
    case TickCandidate(stale) => CandidateDecreases(s, stale);
    case _ => QuietKeeps(s, l);
  }

  /** While nothing is enqueued from outside and nothing is rolled back, the claims, the
      completions and the effective retry evaluations are bounded by the measure of the
      state they start from, however long the system runs. */
  lemma {:induction false} WorkIsFinite(ss: seq<Sys>, ls: seq<Label>, a: nat, b: nat)
    requires Behaviour(ss, ls) && a <= b < |ss|
    requires forall i :: a <= i < b ==> StepAt(ss, ls, i) && Quiet(ss[i], ls[i])
    ensures WorkIn(ss, ls, a, b) + Measure(ss[b]) <= Measure(ss[a])
  {
    hide Measure, Inv, Apply, Enabled, Quiet, Works;
    if a < b {
      WorkIsFinite(ss, ls, a, b - 1);
      Reachable(ss, ls, b - 1);
      assert StepAt(ss, ls, b - 1);
      StepDecreases(ss[b - 1], ls[b - 1]);
    }
  }
}
