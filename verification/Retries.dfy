/** Retry lineage, retry budget and backoff over whole runs of the system. */
module Retries {
  import opened Basics
  import opened ScrapeDb
  import opened SchedulerSpec
  import opened WorkerSpec
  import opened Protocol
  import opened Invariants

  // ----- lineage

  /** The run that a retry lineage started from. */
  ghost function Root(db: Db, c: RunId): (root: RunId)
    requires DbInv(db) && c < |db.runs|
    ensures root <= c && db.runs[root].trigger != Retry && db.runs[root].jobId == db.runs[c].jobId
    decreases c
  {
    assert RunOk(db, c);
    if db.runs[c].retryOf.None? then c else Root(db, db.runs[c].retryOf.value)
  }

  /** Lineages are chains: a run is the only one of its lineage with its attempt number. */
  lemma {:induction false} ChainsDoNotFork(db: Db, c: RunId, d: RunId)
    requires DbInv(db) && c < |db.runs| && d < |db.runs|
    requires Root(db, c) == Root(db, d) && db.runs[c].attempt == db.runs[d].attempt
    ensures c == d
    decreases c
  {
    assert RunOk(db, c) && RunOk(db, d);
    if db.runs[c].retryOf.Some? && db.runs[d].retryOf.Some? {
      ChainsDoNotFork(db, db.runs[c].retryOf.value, db.runs[d].retryOf.value);
    } else {
      assert db.runs[c].retryOf.None? <==> db.runs[c].attempt == 1;
      assert db.runs[d].retryOf.None? <==> db.runs[d].attempt == 1;
    }
  }

  /** Every attempt number below a run's own occurs in its lineage. */
  lemma {:induction false} LineageIsComplete(db: Db, c: RunId, k: nat) returns (a: RunId)
    requires DbInv(db) && c < |db.runs| && 1 <= k <= db.runs[c].attempt
    ensures a <= c && Root(db, a) == Root(db, c) && db.runs[a].attempt == k
    ensures a < c ==> db.runs[a].retryProcessed && !db.runs[a].retryExhausted && db.runs[a].status == Failed
    decreases c
  {
    assert RunOk(db, c);
    if k == db.runs[c].attempt {
      a := c;
    } else {
      a := LineageIsComplete(db, db.runs[c].retryOf.value, k);
    }
  }

  /** The origin of a committed run is never rewritten. */
  lemma {:induction false} OriginStays(ss: seq<Sys>, ls: seq<Label>, i: nat, k: nat, c: RunId)
    requires Behaviour(ss, ls) && i <= k < |ss| && c < |ss[i].db.runs|
    ensures c < |ss[k].db.runs| && SameOrigin(ss[i].db.runs[c], ss[k].db.runs[c])
  {
    if i < k {
      OriginStays(ss, ls, i, k - 1, c);
      Moves(ss, ls, k - 1);
      if ss[k].db == Eff(ss[k - 1]) && ss[k - 1].tick.Some? {
        assert SameRun(ss[k - 1].db.runs[c], ss[k].db.runs[c]);
      }
    }
  }

  /** In every reachable state the retry links form disjoint chains; a link, once
      committed, is there in every later state. */
  lemma {:induction false} RetryLineage(ss: seq<Sys>, ls: seq<Label>, i: nat, k: nat, c: RunId)
    requires Behaviour(ss, ls) && i <= k < |ss| && c < |ss[i].db.runs|
    ensures c < |ss[k].db.runs| && SameOrigin(ss[i].db.runs[c], ss[k].db.runs[c])
    ensures DbInv(ss[k].db)
    ensures ss[i].db.runs[c].retryOf.Some? ==> LinkOk(ss[k].db, c, ss[i].db.runs[c].retryOf.value)
    ensures forall d | 0 <= d < |ss[k].db.runs| && Root(ss[k].db, c) == Root(ss[k].db, d) ::
              ss[k].db.runs[c].attempt == ss[k].db.runs[d].attempt ==> c == d
  {
    OriginStays(ss, ls, i, k, c);
    Reachable(ss, ls, k);
    assert RunOk(ss[k].db, c);
    forall d | 0 <= d < |ss[k].db.runs| && Root(ss[k].db, c) == Root(ss[k].db, d)
               && ss[k].db.runs[c].attempt == ss[k].db.runs[d].attempt
      ensures c == d
    {
      ChainsDoNotFork(ss[k].db, c, d);
    }
  }

  // ----- budget

  ghost predicate Budgeted(db: Db, j: JobId, m: nat) {
    forall i :: 0 <= i < |db.runs| && db.runs[i].jobId == Some(j) ==> db.runs[i].attempt <= m + 1
  }

  lemma {:induction false} BudgetGrows(jobs: map<JobId, Job>, db: Db, next: Db, clock: int, now: int, j: JobId, m: nat)
    requires Grows(jobs, db, next, clock, now) && Budgeted(db, j, m)
    requires j in jobs ==> jobs[j].maxRetries <= m
    ensures Budgeted(next, j, m)
  {
  }

  function RunsOf(db: Db, j: JobId): set<RunId> {
    set i: RunId | i < |db.runs| && db.runs[i].jobId == Some(j)
  }

  function RetryRuns(db: Db, j: JobId): set<RunId> {
    set i | i in RunsOf(db, j) && db.runs[i].trigger == Retry
  }

  function FirstRuns(db: Db, j: JobId): set<RunId> {
    set i | i in RunsOf(db, j) && db.runs[i].trigger != Retry
  }

  function AttemptRuns(db: Db, j: JobId, lo: nat, hi: nat): set<RunId> {
    set i | i in RunsOf(db, j) && lo <= db.runs[i].attempt <= hi
  }

  /** Runs with attempt a + 1 inject into those with attempt a. */
  lemma {:induction false} LevelsShrink(db: Db, j: JobId, a: nat)
    requires DbInv(db) && a >= 1
    ensures |AttemptRuns(db, j, a, a)| <= |FirstRuns(db, j)|
  {
    if a == 1 {
      forall i | i in AttemptRuns(db, j, 1, 1) ensures i in FirstRuns(db, j) { assert RunOk(db, i); }
      SubsetSize(AttemptRuns(db, j, 1, 1), FirstRuns(db, j));
    } else {
      LevelsShrink(db, j, a - 1);
      var parent: nat -> nat :=
        (i: nat) => if i < |db.runs| && db.runs[i].retryOf.Some? then db.runs[i].retryOf.value else 0;
      forall i | i in AttemptRuns(db, j, a, a)
        ensures db.runs[i].retryOf.Some? && parent(i) in AttemptRuns(db, j, a - 1, a - 1)
      {
        assert RunOk(db, i);
      }
      InjectionBound(AttemptRuns(db, j, a, a), AttemptRuns(db, j, a - 1, a - 1), parent);
    }
  }

  lemma OneMoreLevel(a: nat, n: nat, below: nat, top: nat)
    requires a >= 1 && below <= (a - 1) * n && top <= n
    ensures below + top <= a * n
  {
    assert a * n == (a - 1) * n + n;
  }

  lemma {:induction false} LevelsAdd(db: Db, j: JobId, a: nat)
    requires a >= 1
    ensures |AttemptRuns(db, j, 2, a + 1)| == |AttemptRuns(db, j, 2, a)| + |AttemptRuns(db, j, a + 1, a + 1)|
  {
    assert AttemptRuns(db, j, 2, a + 1) == AttemptRuns(db, j, 2, a) + AttemptRuns(db, j, a + 1, a + 1);
    assert AttemptRuns(db, j, 2, a) !! AttemptRuns(db, j, a + 1, a + 1);
  }

  lemma {:induction false} RetriesBounded(db: Db, j: JobId, a: nat)
    requires DbInv(db)
    ensures |AttemptRuns(db, j, 2, a + 1)| <= a * |FirstRuns(db, j)|
  {
    if a == 0 {
      assert AttemptRuns(db, j, 2, 1) == {};
    } else {
      RetriesBounded(db, j, a - 1);
      LevelsShrink(db, j, a + 1);
      LevelsAdd(db, j, a);
      OneMoreLevel(a, |FirstRuns(db, j)|, |AttemptRuns(db, j, 2, a)|, |AttemptRuns(db, j, a + 1, a + 1)|);
    }
  }

  lemma {:induction false} BudgetReachable(ss: seq<Sys>, ls: seq<Label>, i: nat, j: JobId, m: nat)
    requires Behaviour(ss, ls) && i < |ss|
    requires forall k :: 0 <= k < i && j in ss[k].db.jobs ==> ss[k].db.jobs[j].maxRetries <= m
    ensures Budgeted(ss[i].db, j, m) && Budgeted(Eff(ss[i]), j, m)
  {
    if i > 0 {
      BudgetReachable(ss, ls, i - 1, j, m);
      Moves(ss, ls, i - 1);
      var (s, next) := (ss[i - 1], ss[i]);
      if next.db != Eff(s) {
        BudgetGrows(s.db.jobs, s.db, next.db, s.clock, NowOf(s), j, m);
      }
      if Eff(next) != s.db {
        BudgetGrows(s.db.jobs, Eff(s), Eff(next), s.clock, NowOf(s), j, m);
      }
    }
  }

  /** While a job's max_retries has never exceeded m, no run of it has an attempt above
      m + 1 and its retry runs number at most m for each scheduled or manual run. */
  lemma {:induction false} RetryBudget(ss: seq<Sys>, ls: seq<Label>, i: nat, j: JobId, m: nat)
    requires Behaviour(ss, ls) && i < |ss|
    requires forall k :: 0 <= k < i && j in ss[k].db.jobs ==> ss[k].db.jobs[j].maxRetries <= m
    ensures Budgeted(ss[i].db, j, m) && Budgeted(Eff(ss[i]), j, m)
    ensures |RetryRuns(ss[i].db, j)| <= m * |FirstRuns(ss[i].db, j)|
  {
    BudgetReachable(ss, ls, i, j, m);
    Reachable(ss, ls, i);
    var db := ss[i].db;
    RetriesBounded(db, j, m);
    forall r | r in RetryRuns(db, j) ensures r in AttemptRuns(db, j, 2, m + 1) { assert RunOk(db, r); }
    SubsetSize(RetryRuns(db, j), AttemptRuns(db, j, 2, m + 1));
  }

  /** The `retry_exhausted` flag is literal: a run gets it exactly when it is evaluated for
      an enabled job whose budget its attempt has used up. */
  lemma ExhaustedMeansBudgetUsed(db: Db, r: RunId, now: int, stale: bool, at: int)
    requires DbInv(db) && IsCandidate(db, r) && db.runs[r].jobId.Some? && db.runs[r].jobId.value in db.jobs
    ensures var j := db.runs[r].jobId.value;
            TickRetry(db, r, now, stale, at).db.runs[r].retryExhausted
            <==> db.jobs[j].enabled && db.runs[r].attempt > db.jobs[j].maxRetries
  {
    assert RunOk(db, r);
  }

  /** At step k the open tick evaluates the run and finds its job enabled and its attempts used up. */
  ghost predicate FoundUsedUp(ss: seq<Sys>, ls: seq<Label>, k: nat, r: RunId)
    requires k < |ls| && |ss| == |ls| + 1
  {
    ls[k].TickCandidate? && UsedUp(ss[k], r)
  }

  /** The open tick is about to evaluate the run, which belongs to a known job. */
  predicate Evaluates(s: Sys, r: RunId) {
    && s.tick.Some? && s.tick.value.cands.Some? && s.tick.value.cands.value != [] && s.tick.value.cands.value[0] == r
    && var db := s.tick.value.view;
       r < |db.runs| && db.runs[r].jobId.Some? && db.runs[r].jobId.value in db.jobs
  }

  predicate UsedUp(s: Sys, r: RunId) {
    Evaluates(s, r)
    && var db := s.tick.value.view;
       var job := db.jobs[db.runs[r].jobId.value];
       job.enabled && db.runs[r].attempt > job.maxRetries
  }

  /** The job of the evaluated run is disabled, or its attempts are used up. */
  predicate Hopeless(s: Sys, r: RunId) {
    Evaluates(s, r)
    && var db := s.tick.value.view;
       var job := db.jobs[db.runs[r].jobId.value];
       !job.enabled || db.runs[r].attempt > job.maxRetries
  }

  predicate Exhausted(db: Db, r: RunId) {
    r < |db.runs| && db.runs[r].retryExhausted
  }

  lemma TickJobExhaustsNothing(db: Db, j: JobId, now: int, stale: bool, rand: nat, at: int, r: RunId)
    requires j in db.jobs
    ensures Exhausted(TickJob(db, j, now, stale, rand, at).db, r) ==> Exhausted(db, r)
  {
  }

  lemma RetryExhausts(db: Db, q: RunId, now: int, stale: bool, at: int, r: RunId)
    requires q < |db.runs| && db.runs[q].attempt >= 1 && Exhausted(TickRetry(db, q, now, stale, at).db, r)
    ensures Exhausted(db, r)
            || (q == r && db.runs[r].jobId.Some? && db.runs[r].jobId.value in db.jobs
                && db.jobs[db.runs[r].jobId.value].enabled
                && db.runs[r].attempt > db.jobs[db.runs[r].jobId.value].maxRetries)
  {
    hide HasActiveRun;
  }

  lemma {:induction false} CandidateExhausts(s: Sys, stale: bool, r: RunId)
    requires Inv(s) && Enabled(s, TickCandidate(stale)) && Exhausted(Eff(Apply(s, TickCandidate(stale))), r)
    ensures Exhausted(Eff(s), r) || UsedUp(s, r)
  {
    var t := s.tick.value;
    assert t.cands.value[0] in t.cands.value && RunOk(t.view, t.cands.value[0]);
    hide Inv, TickRetry, Exhausted, IsCandidate;
    RetryExhausts(t.view, t.cands.value[0], t.now, stale, s.clock, r);
  }

  lemma FinishExhaustsNothing(db: Db, q: RunId, w: WorkerId, o: Outcome, at: int, r: RunId)
    requires q < |db.runs|
    ensures Exhausted(FinishRun(db, q, w, o, at), r) ==> Exhausted(db, r)
  {
  }

  lemma ManualExhaustsNothing(db: Db, j: JobId, at: int, r: RunId)
    requires j in db.jobs
    ensures Exhausted(EnqueueRun(db, Some(j), db.jobs[j].runnerType, Manual, 1, None, at), r) ==> Exhausted(db, r)
  {
  }

  lemma {:induction false} FlagAppears(s: Sys, l: Label, r: RunId)
    requires Inv(s) && Enabled(s, l)
    requires Exhausted(Apply(s, l).db, r) || Exhausted(Eff(Apply(s, l)), r)
    ensures Exhausted(s.db, r) || Exhausted(Eff(s), r) || (l.TickCandidate? && UsedUp(s, r))
  {
    match l
    case TickCandidate(stale) =>
      if Exhausted(Eff(Apply(s, l)), r) { CandidateExhausts(s, stale, r); }
    case TickDue(stale, rand) =>
      var t := s.tick.value;
      TickJobExhaustsNothing(t.view, t.due[0], t.now, stale, rand, s.clock, r);
      hide TickJob, Exhausted, DbInv, TxnInv;
    case Finish(w, o) =>
      FinishExhaustsNothing(s.db, s.held[w], w, o, s.clock, r);
      FinishExhaustsNothing(Eff(s), s.held[w], w, o, s.clock, r);
      hide FinishRun, Exhausted, DbInv, TxnInv;
    case ManualEnqueue(j, _) => ManualExhaustsNothing(s.db, j, s.clock, r);
    case _ =>
  }

  /** In every reachable state the flag is literal: a run that carries retry_exhausted, committed
      or in the open tick, was found by an earlier evaluation with its job enabled and its
      attempts above max_retries. */
  lemma {:induction false} ExhaustedHasCause(ss: seq<Sys>, ls: seq<Label>, i: nat, r: RunId) returns (k: nat)
    requires Behaviour(ss, ls) && i < |ss|
    requires Exhausted(ss[i].db, r) || Exhausted(Eff(ss[i]), r)
    ensures k < i && FoundUsedUp(ss, ls, k, r)
  {
    if i == 0 {
      assert false;
    }
    hide UsedUp, Exhausted, Inv, Apply, Enabled;
    Reachable(ss, ls, i - 1);
    assert StepAt(ss, ls, i - 1);
    FlagAppears(ss[i - 1], ls[i - 1], r);
    k := i - 1;
    if Exhausted(ss[i - 1].db, r) || Exhausted(Eff(ss[i - 1]), r) {
      k := ExhaustedHasCause(ss, ls, i - 1, r);
    }
  }

  // ----- given up

  ghost predicate Childless(db: Db, r: RunId) {
    forall c :: 0 <= c < |db.runs| ==> db.runs[c].retryOf != Some(r)
  }

  /** The run has been evaluated, and nobody, the open tick included, has a retry of it. */
  ghost predicate GivenUp(s: Sys, r: RunId) {
    r < |s.db.runs| && s.db.runs[r].retryProcessed && Childless(Eff(s), r)
  }

  lemma {:induction false} RetryOfAnother(db: Db, q: RunId, r: RunId, now: int, stale: bool, at: int)
    requires IsCandidate(db, q) && q != r && Childless(db, r)
    ensures Childless(TickRetry(db, q, now, stale, at).db, r)
  {
  }

  lemma {:induction false} BaseIsChildless(base: Db, view: Db, r: RunId)
    requires Extends(base, view) && Childless(view, r)
    ensures Childless(base, r)
  {
    forall c | 0 <= c < |base.runs| ensures base.runs[c].retryOf != Some(r) {
      assert SameRun(base.runs[c], view.runs[c]);
    }
  }

  lemma {:induction false} CandidateLeavesGivenUp(s: Sys, stale: bool, r: RunId)
    requires Inv(s) && Enabled(s, TickCandidate(stale)) && GivenUp(s, r)
    ensures GivenUp(Apply(s, TickCandidate(stale)), r)
  {
    hide DbInv, HeldInv, Extends, TickRetry, Distinct, IsDue;
    var t := s.tick.value;
    assert t.cands.value[0] in t.cands.value;
    ProcessedInView(s.db, t.view, r);
    RetryOfAnother(t.view, t.cands.value[0], r, t.now, stale, s.clock);
  }

  lemma ProcessedInView(base: Db, view: Db, r: RunId)
    requires Extends(base, view) && r < |base.runs| && base.runs[r].retryProcessed
    ensures !IsCandidate(view, r) && r < |view.runs| && view.runs[r].retryProcessed
  {
    assert SameRun(base.runs[r], view.runs[r]);
  }

  /** No retry is added, no evaluation is undone. */
  ghost predicate NoNewRetry(db: Db, next: Db) {
    && |db.runs| <= |next.runs|
    && (forall c :: 0 <= c < |next.runs| ==>
          next.runs[c].retryOf == if c < |db.runs| then db.runs[c].retryOf else None)
    && (forall c :: 0 <= c < |db.runs| && db.runs[c].retryProcessed ==> next.runs[c].retryProcessed)
  }

  lemma NoNewRetryKeeps(db: Db, next: Db, r: RunId)
    requires NoNewRetry(db, next) && r < |db.runs|
    ensures Childless(db, r) ==> Childless(next, r)
    ensures db.runs[r].retryProcessed ==> next.runs[r].retryProcessed
  {
  }

  lemma TickJobRetriesNothing(db: Db, j: JobId, now: int, stale: bool, rand: nat, at: int)
    requires j in db.jobs
    ensures NoNewRetry(db, TickJob(db, j, now, stale, rand, at).db)
  {
  }

  lemma {:induction false} GivenUpStays(s: Sys, l: Label, r: RunId)
    requires Inv(s) && Enabled(s, l) && GivenUp(s, r)
    ensures GivenUp(Apply(s, l), r)
  {
    if s.tick.Some? {
      BaseIsChildless(s.db, s.tick.value.view, r);
      ProcessedInView(s.db, s.tick.value.view, r);
    }
    hide DbInv, TxnInv, Extends, TickRetry, TickJob, IsCandidate, Childless, NoNewRetry, FinishRun;
    match l
    case TickCandidate(stale) => CandidateLeavesGivenUp(s, stale, r);
    case TickDue(stale, rand) =>
      var t := s.tick.value;
      TickJobRetriesNothing(t.view, t.due[0], t.now, stale, rand, s.clock);
      NoNewRetryKeeps(t.view, TickJob(t.view, t.due[0], t.now, stale, rand, s.clock).db, r);
    case Finish(w, o) =>
      FinishRetriesNothing(s.db, s.held[w], w, o, s.clock, r);
      FinishRetriesNothing(Eff(s), s.held[w], w, o, s.clock, r);
    case ManualEnqueue(j, _) => ManualRetriesNothing(s.db, j, s.clock, r);
    case _ => SameRunsSameRetries(s.db, Apply(s, l).db, r);
  }

  lemma FinishRetriesNothing(db: Db, q: RunId, w: WorkerId, o: Outcome, at: int, r: RunId)
    requires q < |db.runs| && r < |db.runs|
    ensures var next := FinishRun(db, q, w, o, at);
            && |next.runs| == |db.runs| && next.runs[r].retryProcessed == db.runs[r].retryProcessed
            && (Childless(db, r) ==> Childless(next, r))
  {
  }

  lemma ManualRetriesNothing(db: Db, j: JobId, at: int, r: RunId)
    requires j in db.jobs && r < |db.runs| && Childless(db, r)
    ensures Childless(EnqueueRun(db, Some(j), db.jobs[j].runnerType, Manual, 1, None, at), r)
  {
  }

  lemma SameRunsSameRetries(db: Db, next: Db, r: RunId)
    ensures next.runs == db.runs && Childless(db, r) ==> Childless(next, r)
  {
  }

  /** A candidate that is evaluated while its job is disabled is marked as processed, however
      much budget it has left, and its budget does not count as exhausted. */
  lemma {:induction false} DisabledGivesUp(db: Db, r: RunId, now: int, stale: bool, at: int)
    requires DbInv(db) && IsCandidate(db, r) && db.runs[r].jobId.Some? && db.runs[r].jobId.value in db.jobs
    requires !db.jobs[db.runs[r].jobId.value].enabled
    ensures var next := TickRetry(db, r, now, stale, at).db;
            && next.runs[r].retryProcessed && !next.runs[r].retryExhausted
            && Childless(next, r)
  {
  }

  /** Evaluation is for good: a processed run without a retry never gets one, so enabling the
      job again does not bring the retry back. */
  lemma {:induction false} GivenUpForGood(ss: seq<Sys>, ls: seq<Label>, i: nat, k: nat, r: RunId)
    requires Behaviour(ss, ls) && i <= k < |ss| && GivenUp(ss[i], r)
    ensures GivenUp(ss[k], r)
  {
    if i < k {
      GivenUpForGood(ss, ls, i, k - 1, r);
      Reachable(ss, ls, k - 1);
      assert StepAt(ss, ls, k - 1);
      GivenUpStays(ss[k - 1], ls[k - 1], r);
    }
  }

  /** An evaluated run without a retry. */
  ghost predicate DroppedIn(db: Db, r: RunId) {
    r < |db.runs| && db.runs[r].retryProcessed && Childless(db, r)
  }

  /** What the open tick, or else the committed table, says of the run. */
  ghost predicate Dropped(s: Sys, r: RunId) {
    DroppedIn(Eff(s), r)
  }

  lemma {:induction false} CandidateLeavesDropped(s: Sys, stale: bool, r: RunId)
    requires Inv(s) && Enabled(s, TickCandidate(stale)) && Dropped(s, r)
    ensures Dropped(Apply(s, TickCandidate(stale)), r)
  {
    hide DbInv, HeldInv, Extends, Distinct, IsDue;
    var t := s.tick.value;
    assert t.cands.value[0] in t.cands.value;
    RetryOfAnother(t.view, t.cands.value[0], r, t.now, stale, s.clock);
  }

  lemma {:induction false} DroppedStays(s: Sys, l: Label, r: RunId)
    requires Inv(s) && Enabled(s, l) && Dropped(s, r) && !l.RollbackTick?
    ensures Dropped(Apply(s, l), r)
  {
    hide Inv, TickRetry, TickJob, Childless, NoNewRetry, FinishRun;
    var next := Apply(s, l);
    match l
    case TickCandidate(stale) => CandidateLeavesDropped(s, stale, r);
    case TickDue(stale, rand) =>
      var t := s.tick.value;
      TickJobRetriesNothing(t.view, t.due[0], t.now, stale, rand, s.clock);
      NoNewRetryKeeps(t.view, TickJob(t.view, t.due[0], t.now, stale, rand, s.clock).db, r);
    case Finish(w, o) => FinishRetriesNothing(Eff(s), s.held[w], w, o, s.clock, r);
    case ManualEnqueue(j, _) => ManualRetriesNothing(s.db, j, s.clock, r);
    case _ => SameRunsSameRetries(Eff(s), Eff(next), r);
  }

  /** A retry that comes up while its job is disabled is lost: unless that tick is rolled back, no
      later state, before or after its commit, has a retry of the run, whatever happens to the
      job, and however much of its budget is left. */
  lemma {:induction false} DisabledRetryIsLost(ss: seq<Sys>, ls: seq<Label>, i: nat, k: nat, r: RunId)
    requires Behaviour(ss, ls) && i < k < |ss| && ls[i].TickCandidate? && Enabled(ss[i], ls[i])
    requires ss[i].tick.value.cands.value[0] == r && ss[i].tick.value.view.runs[r].jobId.Some?
    requires var view := ss[i].tick.value.view;
             var j := view.runs[r].jobId.value;
             j in view.jobs && !view.jobs[j].enabled
    requires forall q :: i < q < k ==> !ls[q].RollbackTick?
    ensures Dropped(ss[k], r)
  {
    Reachable(ss, ls, k - 1);
    assert StepAt(ss, ls, k - 1);
    if k == i + 1 {
      var t := ss[i].tick.value;
      assert r in t.cands.value;
      DisabledGivesUp(t.view, r, t.now, ls[i].stale, ss[i].clock);
      hide TickRetry, DbInv, Extends, IsCandidate, Childless;
    } else {
      DisabledRetryIsLost(ss, ls, i, k - 1, r);
      DroppedStays(ss[k - 1], ls[k - 1], r);
    }
  }

  /** One evaluation loses the retry exactly when the job is disabled or the attempts are used up. */
  lemma {:induction false} GivesUpIff(db: Db, r: RunId, now: int, stale: bool, at: int)
    requires DbInv(db) && IsCandidate(db, r) && db.runs[r].jobId.Some? && db.runs[r].jobId.value in db.jobs
    ensures var job := db.jobs[db.runs[r].jobId.value];
            DroppedIn(TickRetry(db, r, now, stale, at).db, r) <==> !job.enabled || db.runs[r].attempt > job.maxRetries
  {
    assert RunOk(db, r);
    hide HasActiveRun, DbInv;
    var next := TickRetry(db, r, now, stale, at).db;
    if |next.runs| > |db.runs| {
      assert next.runs[|db.runs|].retryOf == Some(r);
    }
  }

  /** Steps that only append runs, or flag one, drop nothing else. */
  lemma DropsNothing(db: Db, next: Db, r: RunId)
    requires |db.runs| <= |next.runs|
    requires forall c :: 0 <= c < |db.runs| ==> next.runs[c].retryOf == db.runs[c].retryOf
    requires r < |next.runs| && next.runs[r].retryProcessed ==> r < |db.runs| && db.runs[r].retryProcessed
    ensures DroppedIn(next, r) ==> DroppedIn(db, r)
  {
    forall c | 0 <= c < |db.runs| ensures next.runs[c].retryOf == db.runs[c].retryOf {}
  }

  lemma TickJobDropsNothing(db: Db, j: JobId, now: int, stale: bool, rand: nat, at: int, r: RunId)
    requires j in db.jobs
    ensures DroppedIn(TickJob(db, j, now, stale, rand, at).db, r) ==> DroppedIn(db, r)
  {
    DropsNothing(db, TickJob(db, j, now, stale, rand, at).db, r);
  }

  lemma FinishDropsNothing(db: Db, q: RunId, w: WorkerId, o: Outcome, at: int, r: RunId)
    requires q < |db.runs|
    ensures DroppedIn(FinishRun(db, q, w, o, at), r) ==> DroppedIn(db, r)
  {
    DropsNothing(db, FinishRun(db, q, w, o, at), r);
  }

  lemma ManualDropsNothing(db: Db, j: JobId, at: int, r: RunId)
    requires j in db.jobs
    ensures DroppedIn(EnqueueRun(db, Some(j), db.jobs[j].runnerType, Manual, 1, None, at), r) ==> DroppedIn(db, r)
  {
    DropsNothing(db, EnqueueRun(db, Some(j), db.jobs[j].runnerType, Manual, 1, None, at), r);
  }

  lemma {:induction false} CandidateDrops(s: Sys, stale: bool, r: RunId)
    requires Inv(s) && Enabled(s, TickCandidate(stale)) && DroppedIn(Eff(Apply(s, TickCandidate(stale))), r)
    ensures DroppedIn(Eff(s), r) || Hopeless(s, r)
  {
    var t := s.tick.value;
    var q := t.cands.value[0];
    assert q in t.cands.value && RunOk(t.view, q);
    hide HeldInv, Extends, IsDue;
    if q == r {
      GivesUpIff(t.view, r, t.now, stale, s.clock);
    } else {
      RetryDropsNoOther(t.view, q, t.now, stale, s.clock, r);
    }
    hide DbInv, TickRetry, DroppedIn, IsCandidate;
  }

  lemma RetryDropsNoOther(db: Db, q: RunId, now: int, stale: bool, at: int, r: RunId)
    requires q < |db.runs| && q != r
    ensures DroppedIn(TickRetry(db, q, now, stale, at).db, r) ==> DroppedIn(db, r)
  {
    hide HasActiveRun;
    DropsNothing(db, TickRetry(db, q, now, stale, at).db, r);
  }

  lemma {:induction false} DropAppears(s: Sys, l: Label, r: RunId)
    requires Inv(s) && Enabled(s, l)
    requires DroppedIn(Apply(s, l).db, r) || DroppedIn(Eff(Apply(s, l)), r)
    ensures DroppedIn(s.db, r) || DroppedIn(Eff(s), r) || (l.TickCandidate? && Hopeless(s, r))
  {
    hide DroppedIn, TickJob, TickRetry, FinishRun, EnqueueRun, TxnInv, DbInv;
    match l
    case TickCandidate(stale) =>
      if DroppedIn(Eff(Apply(s, l)), r) { CandidateDrops(s, stale, r); }
    case TickDue(stale, rand) =>
      var t := s.tick.value;
      TickJobDropsNothing(t.view, t.due[0], t.now, stale, rand, s.clock, r);
    case Finish(w, o) =>
      FinishDropsNothing(s.db, s.held[w], w, o, s.clock, r);
      FinishDropsNothing(Eff(s), s.held[w], w, o, s.clock, r);
    case ManualEnqueue(j, _) => ManualDropsNothing(s.db, j, s.clock, r);
    case _ => SameRunsDropTheSame(s.db, Apply(s, l).db, r);
  }

  lemma SameRunsDropTheSame(db: Db, next: Db, r: RunId)
    ensures next.runs == db.runs ==> (DroppedIn(next, r) <==> DroppedIn(db, r))
  {
  }

  /** A retry is lost for these two reasons only: a run that is processed without a retry, committed
      or in the open tick, was found by an earlier evaluation with its job disabled or its attempts
      used up. */
  lemma {:induction false} LostRetryHasCause(ss: seq<Sys>, ls: seq<Label>, i: nat, r: RunId) returns (k: nat)
    requires Behaviour(ss, ls) && i < |ss|
    requires DroppedIn(ss[i].db, r) || DroppedIn(Eff(ss[i]), r)
    ensures k < i && ls[k].TickCandidate? && Hopeless(ss[k], r)
  {
    if i == 0 {
      assert false;
    }
    hide Hopeless, DroppedIn, Inv, Apply, Enabled;
    Reachable(ss, ls, i - 1);
    assert StepAt(ss, ls, i - 1);
    DropAppears(ss[i - 1], ls[i - 1], r);
    k := i - 1;
    if DroppedIn(ss[i - 1].db, r) || DroppedIn(Eff(ss[i - 1]), r) {
      k := LostRetryHasCause(ss, ls, i - 1, r);
    }
  }

  // ----- backoff

  ghost predicate MonotoneClock(ss: seq<Sys>) {
    forall i :: 0 <= i < |ss| - 1 ==> ss[i].clock <= ss[i + 1].clock
  }

  ghost predicate QueuedBeforeFinished(db: Db) {
    forall i :: 0 <= i < |db.runs| && db.runs[i].finishedAt.Some? ==>
      db.runs[i].queuedAt <= db.runs[i].finishedAt.value
  }

  ghost predicate TimesOk(db: Db, clock: int) {
    && (forall i :: 0 <= i < |db.runs| ==> db.runs[i].queuedAt <= clock)
    && (forall i :: 0 <= i < |db.runs| && db.runs[i].finishedAt.Some? ==>
          db.runs[i].queuedAt <= db.runs[i].finishedAt.value <= clock)
    && (forall i, k :: 0 <= i < k < |db.runs| ==> db.runs[i].queuedAt <= db.runs[k].queuedAt)
  }

  ghost predicate TimeInv(s: Sys) {
    TimesOk(s.db, s.clock) && TimesOk(Eff(s), s.clock) && (s.tick.Some? ==> s.tick.value.now <= s.clock)
  }

  lemma {:induction false} TimesGrow(jobs: map<JobId, Job>, db: Db, next: Db, clock: int, now: int)
    requires Grows(jobs, db, next, clock, now) && TimesOk(db, clock)
    ensures TimesOk(next, clock)
  {
  }

  lemma {:induction false} TimesMove(s: Sys, next: Sys)
    requires Moved(s, next) && TimeInv(s) && s.clock <= next.clock
    ensures TimeInv(next)
  {
    if next.db != Eff(s) {
      TimesGrow(s.db.jobs, s.db, next.db, s.clock, NowOf(s));
    }
    if Eff(next) != s.db {
      TimesGrow(s.db.jobs, Eff(s), Eff(next), s.clock, NowOf(s));
    }
  }

  lemma {:induction false} TimesReachable(ss: seq<Sys>, ls: seq<Label>, i: nat)
    requires Behaviour(ss, ls) && MonotoneClock(ss) && i < |ss|
    ensures TimeInv(ss[i])
  {
    if i > 0 {
      TimesReachable(ss, ls, i - 1);
      Moves(ss, ls, i - 1);
      TimesMove(ss[i - 1], ss[i]);
    }
  }

  /** The job's retries wait for b seconds: its stored backoff, 0 standing for 60. */
  predicate BacksOff(job: Job, b: int) {
    b == if job.retryBackoffSec == 0 then 60 else job.retryBackoffSec
  }

  /** A retry of the job was queued at least `b` after its source finished. */
  ghost predicate DelayOk(db: Db, c: RunId, j: JobId, b: int)
    requires c < |db.runs|
  {
    db.runs[c].jobId == Some(j) && db.runs[c].retryOf.Some? ==>
      var p := db.runs[c].retryOf.value;
      p < |db.runs| && db.runs[p].finishedAt.Some?
      && db.runs[c].queuedAt >= db.runs[p].finishedAt.value + b
  }

  ghost predicate Delayed(db: Db, j: JobId, b: int) {
    forall c :: 0 <= c < |db.runs| ==> DelayOk(db, c, j, b)
  }

  lemma {:induction false} DelaysGrow(jobs: map<JobId, Job>, db: Db, next: Db, clock: int, now: int, j: JobId, b: int)
    requires Grows(jobs, db, next, clock, now) && now <= clock && Delayed(db, j, b)
    requires j in jobs ==> BacksOff(jobs[j], b)
    requires forall i :: 0 <= i < |db.runs| && db.runs[i].status == Queued ==> db.runs[i].finishedAt.None?
    ensures Delayed(next, j, b)
  {
    forall c | 0 <= c < |next.runs| ensures DelayOk(next, c, j, b) {
      if c < |db.runs| { assert DelayOk(db, c, j, b); }
    }
  }

  lemma {:induction false} QueuedIsUnfinished(db: Db)
    requires DbInv(db)
    ensures forall i :: 0 <= i < |db.runs| && db.runs[i].status == Queued ==> db.runs[i].finishedAt.None?
  {
    forall i | 0 <= i < |db.runs| && db.runs[i].status == Queued ensures db.runs[i].finishedAt.None? {
      assert RunOk(db, i);
    }
  }

  lemma {:induction false} DelaysMove(s: Sys, next: Sys, j: JobId, b: int)
    requires Inv(s) && Moved(s, next) && NowOf(s) <= s.clock
    requires j in s.db.jobs ==> BacksOff(s.db.jobs[j], b)
    requires Delayed(s.db, j, b) && Delayed(Eff(s), j, b)
    ensures Delayed(next.db, j, b) && Delayed(Eff(next), j, b)
  {
    QueuedIsUnfinished(s.db);
    QueuedIsUnfinished(Eff(s));
    if next.db != Eff(s) {
      DelaysGrow(s.db.jobs, s.db, next.db, s.clock, NowOf(s), j, b);
    }
    if Eff(next) != s.db {
      DelaysGrow(s.db.jobs, Eff(s), Eff(next), s.clock, NowOf(s), j, b);
    }
  }

  lemma {:induction false} DelaysReachable(ss: seq<Sys>, ls: seq<Label>, i: nat, j: JobId, b: int)
    requires Behaviour(ss, ls) && MonotoneClock(ss) && i < |ss|
    requires forall k :: 0 <= k < i && j in ss[k].db.jobs ==> BacksOff(ss[k].db.jobs[j], b)
    ensures Delayed(ss[i].db, j, b) && Delayed(Eff(ss[i]), j, b)
  {
    if i > 0 {
      DelaysReachable(ss, ls, i - 1, j, b);
      TimesReachable(ss, ls, i - 1);
      Moves(ss, ls, i - 1);
      DelaysMove(ss[i - 1], ss[i], j, b);
    }
  }

  lemma Telescope(attempt: int, b: int, start: int, parentQueued: int, parentFinished: int, queued: int)
    requires parentQueued >= start + (attempt - 2) * b
    requires parentFinished >= parentQueued && queued >= parentFinished + b
    ensures queued >= start + (attempt - 1) * b
  {
    assert (attempt - 1) * b == (attempt - 2) * b + b;
  }

  /** A retry is queued late enough after the first run of its lineage finished. */
  ghost predicate LateEnough(db: Db, c: RunId, b: int)
    requires DbInv(db) && c < |db.runs|
  {
    var root := db.runs[Root(db, c)];
    && root.finishedAt.Some?
    && db.runs[c].queuedAt >= root.finishedAt.value + (db.runs[c].attempt - 1) * b
  }

  lemma {:induction false} DelaysAddUp(db: Db, j: JobId, b: int, c: RunId)
    requires DbInv(db) && QueuedBeforeFinished(db) && Delayed(db, j, b)
    requires c < |db.runs| && db.runs[c].jobId == Some(j) && db.runs[c].retryOf.Some?
    ensures LateEnough(db, c, b)
    decreases c
  {
    assert RunOk(db, c);
    var p := db.runs[c].retryOf.value;
    assert RunOk(db, p) && DelayOk(db, c, j, b);
    if db.runs[p].retryOf.Some? {
      DelaysAddUp(db, j, b, p);
      Telescope(db.runs[c].attempt, b, db.runs[Root(db, c)].finishedAt.value, db.runs[p].queuedAt,
                db.runs[p].finishedAt.value, db.runs[c].queuedAt);
    } else {
      assert db.runs[c].attempt == 2 && Root(db, c) == p;
    }
  }

  /** With a clock that never runs back and a fixed backoff b (60 when stored as 0),
      attempt k of a lineage is queued at least (k - 1) * b after its first run finished. */
  lemma {:induction false} BackoffAlongLineage(ss: seq<Sys>, ls: seq<Label>, i: nat, j: JobId, b: int, c: RunId)
    requires Behaviour(ss, ls) && MonotoneClock(ss) && i < |ss|
    requires forall k :: 0 <= k < i && j in ss[k].db.jobs ==> BacksOff(ss[k].db.jobs[j], b)
    requires c < |ss[i].db.runs| && ss[i].db.runs[c].jobId == Some(j) && ss[i].db.runs[c].retryOf.Some?
    ensures DbInv(ss[i].db) && LateEnough(ss[i].db, c, b)
  {
    DelaysReachable(ss, ls, i, j, b);
    TimesReachable(ss, ls, i);
    Reachable(ss, ls, i);
    assert QueuedBeforeFinished(ss[i].db);
    DelaysAddUp(ss[i].db, j, b, c);
  }
}
