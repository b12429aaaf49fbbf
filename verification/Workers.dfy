/** Worker exclusivity: who may hold, finish or give back a run. */
module Workers {
  import opened Basics
  import opened ScrapeDb
  import opened SchedulerSpec
  import opened WorkerSpec
  import opened Protocol
  import opened Invariants
  import opened Retries

  /** No run is held by two workers, and a held run is still queued for everyone else. */
  lemma NoSharedRun(ss: seq<Sys>, ls: seq<Label>, i: nat, v: WorkerId, w: WorkerId)
    requires Behaviour(ss, ls) && i < |ss| && v in ss[i].held && w in ss[i].held
    ensures ss[i].held[v] == ss[i].held[w] ==> v == w
    ensures ss[i].held[v] < |ss[i].db.runs| && ss[i].db.runs[ss[i].held[v]].status == Queued
  {
    Reachable(ss, ls, i);
  }

  /** A committed outcome is final. */
  lemma {:induction false} OutcomesAreFinal(ss: seq<Sys>, ls: seq<Label>, i: nat, k: nat, r: RunId)
    requires Behaviour(ss, ls) && i <= k < |ss|
    requires r < |ss[i].db.runs| && ss[i].db.runs[r].status != Queued
    ensures r < |ss[k].db.runs| && SameOutcome(ss[i].db.runs[r], ss[k].db.runs[r])
  {
    if i < k {
      OutcomesAreFinal(ss, ls, i, k - 1, r);
      Moves(ss, ls, k - 1);
      if ss[k].db == Eff(ss[k - 1]) && ss[k - 1].tick.Some? {
        assert SameRun(ss[k - 1].db.runs[r], ss[k].db.runs[r]);
      }
    }
  }

  /** Step i commits an outcome for the run. */
  ghost predicate Finishes(ss: seq<Sys>, ls: seq<Label>, i: nat, r: RunId)
    requires i < |ls| && |ss| == |ls| + 1
  {
    ls[i].Finish? && ls[i].worker in ss[i].held && ss[i].held[ls[i].worker] == r
  }

  /** What a worker's commit leaves behind, under its own name: the status, the checkpoint if there
      is one and, for a failure, the retryable flag that the runner returned; without a runner, or
      after one that raised, a failed run that is not retryable and has its checkpoint as before.
      No other row changes and none is added. */
  lemma {:induction false} FinishCommits(ss: seq<Sys>, ls: seq<Label>, i: nat, r: RunId)
    requires Behaviour(ss, ls) && i < |ls| && Finishes(ss, ls, i, r)
    ensures |ss[i + 1].db.runs| == |ss[i].db.runs| && r < |ss[i].db.runs|
    ensures forall q :: 0 <= q < |ss[i].db.runs| && q != r ==> ss[i + 1].db.runs[q] == ss[i].db.runs[q]
    ensures var (before, run) := (ss[i].db.runs[r], ss[i + 1].db.runs[r]);
            && run.workerId == Some(ls[i].worker) && run.finishedAt == Some(ss[i].clock)
            && match ls[i].outcome
               case NoRunner => run.status == Failed && !run.retryable && run.checkpointOut == before.checkpointOut
               case Raised => run.status == Failed && !run.retryable && run.checkpointOut == before.checkpointOut
               case Returned(status, retryable, checkpoint) =>
                 && run.status == status && (run.retryable <==> retryable && status == Failed)
                 && run.checkpointOut == if checkpoint.Some? then checkpoint else before.checkpointOut
  {
    Reachable(ss, ls, i);
    assert StepAt(ss, ls, i);
    assert RunOk(ss[i].db, r);
  }

  /** Each run gets at most one committed outcome. */
  lemma {:induction false} OneOutcomePerRun(ss: seq<Sys>, ls: seq<Label>, i: nat, k: nat, r: RunId)
    requires Behaviour(ss, ls) && i < |ls| && k < |ls|
    requires Finishes(ss, ls, i, r) && Finishes(ss, ls, k, r)
    ensures i == k
  {
    if i < k {
      FinishCommits(ss, ls, i, r);
      OutcomesAreFinal(ss, ls, i + 1, k, r);
      Reachable(ss, ls, k);
    } else if k < i {
      OneOutcomePerRun(ss, ls, k, i, r);
    }
  }

  /** A row that is queued in two good states with the same origin is the same row. */
  lemma QueuedRowsAgree(a: Db, b: Db, r: RunId)
    requires DbInv(a) && DbInv(b) && r < |a.runs| && r < |b.runs|
    requires SameOrigin(a.runs[r], b.runs[r]) && a.runs[r].status == Queued && b.runs[r].status == Queued
    ensures a.runs[r] == b.runs[r]
  {
    assert RunOk(a, r) && RunOk(b, r);
  }

  /** A rollback undoes the claim: whatever the others did meanwhile, the run's row is the
      one that was claimed, and it can be claimed again. */
  lemma {:induction false} RollbackRestores(ss: seq<Sys>, ls: seq<Label>, i: nat, k: nat, w: WorkerId, r: RunId)
    requires Behaviour(ss, ls) && i < k < |ls|
    requires ls[i] == Claim(w, r) && ls[k] == Abort(w) && w in ss[k].held && ss[k].held[w] == r
    ensures r < |ss[i].db.runs| && r < |ss[k + 1].db.runs|
    ensures ss[k + 1].db.runs[r] == ss[i].db.runs[r]
    ensures ss[k + 1].db.runs[r].status == Queued && r !in ss[k + 1].held.Values
  {
    assert StepAt(ss, ls, i) && StepAt(ss, ls, k);
    Reachable(ss, ls, i);
    Reachable(ss, ls, k);
    OriginStays(ss, ls, i, k, r);
    QueuedRowsAgree(ss[i].db, ss[k].db, r);
  }
}
