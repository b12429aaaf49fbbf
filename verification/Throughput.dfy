/** Draining while workers interleave with the ticks and overlap checks may be out of date. */
module Throughput {
  import opened Basics
  import opened Schedules
  import opened ScrapeDb
  import opened SchedulerSpec
  import opened WorkerSpec
  import opened Protocol
  import opened Invariants
  import opened Backlog
  import opened Draining

  // ----- what an open tick has taken on

  /** As many due jobs as the limit allows, none outranked by a due job left behind. */
  ghost predicate Share(base: Db, now: int, limit: nat, took: set<JobId>) {
    && took <= DueJobs(base, now) && |took| == Min(limit, |DueJobs(base, now)|)
    && forall k, m :: k in took && m in DueJobs(base, now) - took ==> base.jobs[m].priority <= base.jobs[k].priority
  }

  /** The jobs on an open tick's list and those it has handled are a share: it has advanced the
      handled ones that have a schedule. */
  ghost predicate ListedShare(s: Sys, took: set<JobId>)
    requires s.tick.Some?
  {
    var t := s.tick.value;
    && Share(s.db, t.now, t.limit, took) && t.advanced + Elements(t.due) <= took
    && forall k :: k in took ==> k in t.advanced + Elements(t.due) || k !in s.db.schedules
  }

  ghost predicate TickShares(s: Sys) {
    s.tick.Some? ==> exists took :: ListedShare(s, took)
  }

  /** An open tick leaves the rows of stuck jobs alone and moves the moving ones it has advanced. */
  ghost predicate TickHandles(s: Sys) {
    s.tick.Some? ==>
      && (forall j :: Stuck(s.db, s.tick.value.now, j) ==>
            j in s.tick.value.view.jobs && s.tick.value.view.jobs[j] == s.db.jobs[j])
      && (forall j :: j in s.tick.value.advanced && Moving(s.db, s.tick.value.now, j) ==>
            !IsDue(s.tick.value.view, s.tick.value.now, j))
  }

  lemma {:induction false} SameJobsSameShare(a: Db, b: Db, now: int, limit: nat)
    requires a.jobs == b.jobs && a.schedules == b.schedules
    ensures AllMoving(a, now) <==> AllMoving(b, now)
    ensures forall took :: Share(a, now, limit, took) <==> Share(b, now, limit, took)
    ensures forall j :: (Stuck(a, now, j) <==> Stuck(b, now, j)) && (Moving(a, now, j) <==> Moving(b, now, j))
  {
    SameJobsSameDue(a, b, now);
  }

  lemma {:induction false} ListIsShare(db: Db, now: int, limit: nat, due: seq<JobId>)
    requires IsDueList(db, now, limit, due)
    ensures Share(db, now, limit, Elements(due))
  {
    DistinctSize(due);
    forall k, m | k in Elements(due) && m in DueJobs(db, now) - Elements(due)
      ensures db.jobs[m].priority <= db.jobs[k].priority
    {
      assert DueOrder(db)(k, m);
    }
  }

  lemma {:induction false} MovedToAdvanced(advanced: set<JobId>, due: seq<JobId>)
    requires due != []
    ensures advanced + {due[0]} + Elements(due[1..]) == advanced + Elements(due)
  {
    assert due == [due[0]] + due[1..];
  }

  lemma NoScheduleMeansNone(db: Db, j: JobId, now: int, stale: bool, rand: nat, at: int)
    requires j in db.jobs
    ensures TickJob(db, j, now, stale, rand, at).event.NoSchedule? ==> j !in db.schedules
  {
  }

  lemma {:induction false} TickDueShares(s: Sys, stale: bool, rand: nat)
    requires Inv(s) && Enabled(s, TickDue(stale, rand)) && TickShares(s)
    ensures TickShares(Apply(s, TickDue(stale, rand)))
  {
    var t := s.tick.value;
    var next := Apply(s, TickDue(stale, rand));
    NoScheduleMeansNone(t.view, t.due[0], t.now, stale, rand, s.clock);
    MovedToAdvanced(t.advanced, t.due);
    var took :| ListedShare(s, took);
    hide Share, TickJob, DbInv, HeldInv, Distinct, IsDue;
    assert ListedShare(next, took);
  }

  lemma {:induction false} TickDueHandles(s: Sys, stale: bool, rand: nat)
    requires Inv(s) && Enabled(s, TickDue(stale, rand)) && TickHandles(s)
    ensures TickHandles(Apply(s, TickDue(stale, rand)))
  {
    var t := s.tick.value;
    var j := t.due[0];
    var u := AfterDue(t, stale, rand, s.clock);
    assert j in t.due && t.view.jobs[j] == s.db.jobs[j];
    TickJobMovesOne(t.view, j, t.now, stale, rand, s.clock);
    StaysDueIff(t.view, j, t.now, stale, rand, s.clock);
    forall k | Stuck(s.db, t.now, k) ensures k in u.view.jobs && u.view.jobs[k] == s.db.jobs[k] {
      StuckIsKept(t.view, j, t.now, stale, rand, s.clock, k);
    }
    hide TickJob, DbInv, HeldInv, Stuck, Distinct;
    forall k | k in u.advanced && Moving(s.db, t.now, k) ensures !IsDue(u.view, t.now, k) {
      if k == j {
        assert Moving(t.view, t.now, j);
      } else {
        assert !IsDue(t.view, t.now, k);
      }
    }
  }

  /** Only the jobs and the tick's lists matter. */
  lemma {:induction false} SameTickKeeps(s: Sys, next: Sys)
    ensures s.tick.Some? && next.tick.Some? && TickShares(s) && TickHandles(s)
            && next.db.jobs == s.db.jobs && next.db.schedules == s.db.schedules
            && next.tick.value == s.tick.value.(view := next.tick.value.view, cands := next.tick.value.cands)
            && next.tick.value.view.jobs == s.tick.value.view.jobs
            ==> TickShares(next) && TickHandles(next)
  {
    if s.tick.Some? && next.tick.Some? && next.db.jobs == s.db.jobs && next.db.schedules == s.db.schedules
       && next.tick.value == s.tick.value.(view := next.tick.value.view, cands := next.tick.value.cands) {
      SameJobsSameShare(s.db, next.db, s.tick.value.now, s.tick.value.limit);
      hide Share, Stuck, Moving;
      forall took | ListedShare(s, took) ensures ListedShare(next, took) {}
    }
  }

  lemma {:induction false} BeginShares(s: Sys, limit: nat, due: seq<JobId>)
    requires Enabled(s, BeginTick(limit, due))
    ensures TickShares(Apply(s, BeginTick(limit, due))) && TickHandles(Apply(s, BeginTick(limit, due)))
  {
    ListIsShare(s.db, s.clock, limit, due);
    assert {} + Elements(due) == Elements(due);
    hide Share, IsDueList;
    assert ListedShare(Apply(s, BeginTick(limit, due)), Elements(due));
  }

  lemma {:induction false} SharesKept(s: Sys, l: Label)
    requires Inv(s) && Enabled(s, l) && TickShares(s) && TickHandles(s)
    ensures TickShares(Apply(s, l)) && TickHandles(Apply(s, l))
  {
    SameTickKeeps(s, Apply(s, l));
    hide TickShares, TickHandles, Inv, TickRetry, TickJob, FinishRun, IsDueList, IsCandidateList, IsNextQueued;
    match l
    case TickDue(stale, rand) =>
      TickDueShares(s, stale, rand);
      TickDueHandles(s, stale, rand);
    case BeginTick(limit, due) => BeginShares(s, limit, due);
    case Finish(w, o) => FinishKeepsJobs(s, w, o);
    case _ => NoTick(Apply(s, l));
  }

  lemma NoTick(s: Sys)
    ensures s.tick.None? ==> TickShares(s) && TickHandles(s)
  {
  }

  lemma FinishKeepsJobs(s: Sys, w: WorkerId, o: Outcome)
    requires Enabled(s, Finish(w, o))
    ensures var next := Apply(s, Finish(w, o));
            && next.db.jobs == s.db.jobs && next.db.schedules == s.db.schedules
            && (s.tick.Some? ==> next.tick.Some? && next.tick.value.view.jobs == s.tick.value.view.jobs)
            && (s.tick.None? ==> TickShares(next) && TickHandles(next))
  {
  }

  lemma {:induction false} SharesReachable(ss: seq<Sys>, ls: seq<Label>, i: nat)
    requires Behaviour(ss, ls) && i < |ss|
    ensures TickShares(ss[i]) && TickHandles(ss[i])
  {
    if i > 0 {
      SharesReachable(ss, ls, i - 1);
      Reachable(ss, ls, i - 1);
      assert StepAt(ss, ls, i - 1);
      SharesKept(ss[i - 1], ls[i - 1]);
    }
  }

  /** What a committed tick means for the jobs: the moving ones of its share are no longer due; the
      rest of its share, if stuck, and all others have the rows they had. */
  ghost predicate HandledShare(base: Db, next: Db, took: set<JobId>, now: int, limit: nat) {
    && next.jobs.Keys == base.jobs.Keys && next.schedules == base.schedules
    && Share(base, now, limit, took)
    && (forall k :: k in took && Moving(base, now, k) ==> k !in DueJobs(next, now))
    && (forall k :: k in base.jobs && (k !in took || !Plannable(base, now, k)) ==> next.jobs[k] == base.jobs[k])
  }

  lemma {:induction false} ShareIsHandled(s: Sys, took: set<JobId>)
    requires s.tick.Some? && TxnInv(s.db, s.tick.value) && s.tick.value.due == []
    requires ListedShare(s, took) && TickHandles(s)
    ensures var t := s.tick.value;
            && HandledShare(s.db, t.view, took, t.now, t.limit)
            && forall k :: k in s.db.schedules ==> (k in took <==> k in t.advanced)
  {
    var t := s.tick.value;
    assert t.advanced + Elements(t.due) == t.advanced;
    hide DbInv, Distinct, Moving;
    forall k | k in s.db.jobs && (k !in took || !Plannable(s.db, t.now, k)) ensures t.view.jobs[k] == s.db.jobs[k] {
      if k in took {
        assert k in DueJobs(s.db, t.now) && Stuck(s.db, t.now, k);
      }
    }
    hide Plannable;
    forall k | k in took && Moving(s.db, t.now, k) ensures k in t.advanced {
      MovingIsScheduled(s.db, t.now, k);
    }
  }

  lemma MovingIsScheduled(db: Db, now: int, j: JobId)
    requires Moving(db, now, j)
    ensures j in db.schedules
  {
  }

  lemma {:induction false} CommitHandles(ss: seq<Sys>, ls: seq<Label>, i: nat) returns (took: set<JobId>)
    requires Behaviour(ss, ls) && i < |ls| && ls[i].CommitTick? && ss[i].tick.Some?
    ensures var (s, t) := (ss[i], ss[i].tick.value);
            && HandledShare(s.db, ss[i + 1].db, took, t.now, t.limit)
            && forall k :: k in s.db.schedules ==> (k in took <==> k in t.advanced)
  {
    Reachable(ss, ls, i);
    SharesReachable(ss, ls, i);
    assert StepAt(ss, ls, i);
    CandidatesComeLast(ss[i]);
    took :| ListedShare(ss[i], took);
    hide Behaviour, TxnInv, DbInv, HeldInv, HandledShare, TickHandles, ListedShare;
    ShareIsHandled(ss[i], took);
  }

  /** While all due jobs are moving, committing a tick takes its share out of them. */
  lemma {:induction false} CommitTakes(ss: seq<Sys>, ls: seq<Label>, i: nat)
    requires Behaviour(ss, ls) && i < |ls| && ls[i].CommitTick? && ss[i].tick.Some?
    requires AllMoving(ss[i].db, ss[i].tick.value.now)
    ensures var t := ss[i].tick.value; Took(ss[i].db, ss[i + 1].db, t.advanced, t.now, t.limit)
  {
    var took := CommitHandles(ss, ls, i);
    Reachable(ss, ls, i);
    hide Behaviour, DbInv, HeldInv, Moving, Extends;
    var (s, t) := (ss[i], ss[i].tick.value);
    forall k ensures k in took <==> k in t.advanced {
      if k in took {
        assert k in DueJobs(s.db, t.now);
        MovingIsScheduled(s.db, t.now, k);
      }
      if k in t.advanced {
        assert k in DueJobs(s.db, t.now);
        MovingIsScheduled(s.db, t.now, k);
      }
    }
    assert took == t.advanced;
  }

  lemma CandidatesComeLast(s: Sys)
    requires Inv(s) && Enabled(s, CommitTick)
    ensures s.tick.value.due == []
  {
  }

  // ----- a stretch of a behaviour

  /** Nobody edits jobs or schedules, and ticks begin at the time `now` with the same limit. */
  predicate Undisturbed(s: Sys, l: Label, now: int, limit: nat) {
    && !l.CreateJob? && !l.PatchJob? && !l.SetSchedule?
    && (l.BeginTick? ==> s.clock == now && l.limit == limit)
  }

  ghost predicate Stretch(ss: seq<Sys>, ls: seq<Label>, a: nat, b: nat, now: int, limit: nat) {
    && Behaviour(ss, ls) && a <= b < |ss| && ss[a].tick.None?
    && forall i :: a <= i < b ==> Undisturbed(ss[i], ls[i], now, limit)
  }

  function Commits(ls: seq<Label>, a: nat, b: nat): nat
    requires a <= b <= |ls|
  {
    if a == b then 0 else Commits(ls, a, b - 1) + if ls[b - 1].CommitTick? then 1 else 0
  }

  lemma {:induction false} OpenTickIs(ss: seq<Sys>, ls: seq<Label>, a: nat, b: nat, now: int, limit: nat)
    requires Stretch(ss, ls, a, b, now, limit)
    ensures ss[b].tick.Some? ==> ss[b].tick.value.now == now && ss[b].tick.value.limit == limit
  {
    if a < b {
      OpenTickIs(ss, ls, a, b - 1, now, limit);
      assert StepAt(ss, ls, b - 1) && Undisturbed(ss[b - 1], ls[b - 1], now, limit);
      hide TickJob, TickRetry, FinishRun, IsDueList, IsCandidateList, IsNextQueued;
    }
  }

  lemma {:induction false} OthersKeepJobs(s: Sys, l: Label, now: int, limit: nat)
    requires Enabled(s, l) && Undisturbed(s, l, now, limit) && !l.CommitTick?
    ensures Apply(s, l).db.jobs == s.db.jobs && Apply(s, l).db.schedules == s.db.schedules
  {
    hide TickJob, TickRetry, IsDueList, IsCandidateList, IsNextQueued;
  }

  /** How the due jobs of `first` stand in `db` after c ticks. */
  ghost predicate Standing(first: Db, db: Db, now: int, done: nat) {
    && db.jobs.Keys == first.jobs.Keys && db.schedules == first.schedules
    && DueJobs(db, now) <= DueJobs(first, now)
    && |DueJobs(db, now)| == |DueJobs(first, now)| - Min(done, |DueJobs(first, now)|)
    && (forall k :: k in first.jobs && k !in DueJobs(first, now) - DueJobs(db, now) ==> db.jobs[k] == first.jobs[k])
  }

  lemma {:induction false} StandingTakes(first: Db, db: Db, next: Db, took: set<JobId>, now: int, limit: nat, done: nat)
    requires Standing(first, db, now, done) && Took(db, next, took, now, limit)
    ensures Standing(first, next, now, done + limit)
    ensures DueJobs(next, now) == DueJobs(db, now) - took
  {
    DueAfterTook(db, next, took, now, limit);
    RowsStand(first, db, next, took, now, limit, done);
    assert took <= DueJobs(db, now) && |took| == Min(limit, |DueJobs(db, now)|);
    assert next.jobs.Keys == db.jobs.Keys && next.schedules == db.schedules;
    LeftOver(DueJobs(db, now), took, limit);
    hide DueJobs, Took;
  }

  lemma {:induction false} RowsStand(first: Db, db: Db, next: Db, took: set<JobId>, now: int, limit: nat, done: nat)
    requires Standing(first, db, now, done) && Took(db, next, took, now, limit)
    ensures forall k :: k in first.jobs && k !in DueJobs(first, now) - DueJobs(next, now) ==> next.jobs[k] == first.jobs[k]
  {
    DueAfterTook(db, next, took, now, limit);
    hide DueJobs;
    forall k | k in first.jobs && k !in DueJobs(first, now) - DueJobs(next, now) ensures next.jobs[k] == first.jobs[k] {
      assert k !in took && k !in DueJobs(first, now) - DueJobs(db, now);
    }
  }

  lemma {:induction false} DueAfterTook(db: Db, next: Db, took: set<JobId>, now: int, limit: nat)
    requires Took(db, next, took, now, limit)
    ensures DueJobs(next, now) == DueJobs(db, now) - took
  {
    forall k | k in db.jobs && k !in took ensures k in DueJobs(next, now) <==> k in DueJobs(db, now) {
      assert next.jobs[k] == db.jobs[k];
    }
  }

  lemma LeftOver(due: set<JobId>, took: set<JobId>, limit: nat)
    requires took <= due && |took| == Min(limit, |due|)
    ensures |due - took| == |due| - Min(limit, |due|)
  {
    assert due == (due - took) + took;
  }

  lemma {:induction false} StandingIntervals(first: Db, db: Db, now: int, done: nat)
    requires Standing(first, db, now, done) && AllMoving(first, now)
    ensures AllMoving(db, now)
  {
    forall j | j in DueJobs(db, now) ensures Moving(db, now, j) {
      assert j in DueJobs(first, now) && Moving(first, now, j) && db.jobs[j] == first.jobs[j];
    }
  }

  /** After c committed ticks, c times the limit of the due jobs have been fired or skipped, or all
      of them, each by exactly one tick; the others' rows are as they were. */
  lemma {:induction false} TicksTake(ss: seq<Sys>, ls: seq<Label>, a: nat, b: nat, now: int, limit: nat, j: JobId)
    requires Stretch(ss, ls, a, b, now, limit) && AllMoving(ss[a].db, now)
    ensures Standing(ss[a].db, ss[b].db, now, Commits(ls, a, b) * limit)
    ensures AdvancesIn(ss, ls, a, b, j)
            == if j in DueJobs(ss[a].db, now) && j !in DueJobs(ss[b].db, now) then 1 else 0
  {
    hide Took, Standing, DueJobs, AllMoving, Apply, Enabled, Inv;
    if a == b {
      StandingStarts(ss[a].db, now);
    } else {
      var (s, l) := (ss[b - 1], ls[b - 1]);
      TicksTake(ss, ls, a, b - 1, now, limit, j);
      assert StepAt(ss, ls, b - 1) && Undisturbed(s, l, now, limit);
      StandingIntervals(ss[a].db, s.db, now, Commits(ls, a, b - 1) * limit);
      if l.CommitTick? {
        CommitIsEnabled(s);
        OpenTickIs(ss, ls, a, b - 1, now, limit);
        CommitTakes(ss, ls, b - 1);
        StandingTakes(ss[a].db, s.db, ss[b].db, s.tick.value.advanced, now, limit, Commits(ls, a, b - 1) * limit);
        OneMore(Commits(ls, a, b - 1), limit);
        StandingBelow(ss[a].db, s.db, ss[b].db, s.tick.value.advanced, now, limit, Commits(ls, a, b - 1) * limit);
      } else {
        OthersKeepJobs(s, l, now, limit);
        StandingSame(ss[a].db, s.db, ss[b].db, now, Commits(ls, a, b - 1) * limit);
      }
    }
  }

  lemma OneMore(c: nat, limit: nat)
    ensures c * limit + limit == (c + 1) * limit
  {
  }

  lemma CommitIsEnabled(s: Sys)
    ensures Enabled(s, CommitTick) ==> s.tick.Some?
  {
  }

  lemma StandingStarts(db: Db, now: int)
    ensures Standing(db, db, now, 0)
  {
  }

  lemma StandingBelow(first: Db, db: Db, next: Db, took: set<JobId>, now: int, limit: nat, done: nat)
    requires Standing(first, db, now, done) && Took(db, next, took, now, limit)
    ensures DueJobs(db, now) <= DueJobs(first, now) && took <= DueJobs(db, now)
  {
  }

  lemma StandingSame(first: Db, db: Db, next: Db, now: int, done: nat)
    requires Standing(first, db, now, done) && next.jobs == db.jobs && next.schedules == db.schedules
    ensures Standing(first, next, now, done) && DueJobs(next, now) == DueJobs(db, now)
  {
    SameJobsSameDue(db, next, now);
  }

  // ----- whole stretches

  /** While all due jobs are moving, enough committed ticks at one time leave none due,
      and each was fired or overlap-skipped by exactly one of them, whatever the workers do in
      between and inside, and whatever finished runs the overlap checks still count. */
  lemma {:induction false} StretchDrains(ss: seq<Sys>, ls: seq<Label>, a: nat, b: nat, now: int, limit: nat, j: JobId)
    requires Stretch(ss, ls, a, b, now, limit) && AllMoving(ss[a].db, now)
    requires Commits(ls, a, b) * limit >= |DueJobs(ss[a].db, now)|
    ensures DueJobs(ss[b].db, now) == {}
    ensures j in DueJobs(ss[a].db, now) ==> AdvancesIn(ss, ls, a, b, j) == 1
  {
    TicksTake(ss, ls, a, b, now, limit, j);
    hide DueJobs, AllMoving;
    assert |DueJobs(ss[b].db, now)| == 0;
  }

  lemma {:induction false} StuckStays(ss: seq<Sys>, ls: seq<Label>, a: nat, b: nat, now: int, limit: nat, j: JobId)
    requires Stretch(ss, ls, a, b, now, limit) && Stuck(ss[a].db, now, j)
    ensures Stuck(ss[b].db, now, j)
  {
    hide Inv, Stuck, TxnInv;
    if a < b {
      var (s, l) := (ss[b - 1], ls[b - 1]);
      StuckStays(ss, ls, a, b - 1, now, limit, j);
      assert StepAt(ss, ls, b - 1) && Undisturbed(s, l, now, limit);
      if l.CommitTick? {
        CommitIsEnabled(s);
        OpenTickIs(ss, ls, a, b - 1, now, limit);
        SharesReachable(ss, ls, b - 1);
        Reachable(ss, ls, b - 1);
        ViewIsStuck(s, j);
      } else {
        OthersKeepJobs(s, l, now, limit);
        SameJobsSameShare(s.db, ss[b].db, now, limit);
      }
    }
  }

  lemma ViewIsStuck(s: Sys, j: JobId)
    requires Inv(s) && s.tick.Some? && TickHandles(s) && Stuck(s.db, s.tick.value.now, j)
    ensures Stuck(s.tick.value.view, s.tick.value.now, j)
  {
  }

  /** While no cron step from now goes backwards, enough committed ticks at one time drain the due
      jobs exactly when each of them is moving. */
  lemma {:induction false} StretchDrainsIff(ss: seq<Sys>, ls: seq<Label>, a: nat, b: nat, now: int, limit: nat)
    requires Stretch(ss, ls, a, b, now, limit)
    requires Settled(ss[a].db, now)
    requires Commits(ls, a, b) * limit >= |DueJobs(ss[a].db, now)|
    ensures DueJobs(ss[b].db, now) == {} <==> AllMoving(ss[a].db, now)
  {
    hide Behaviour, Undisturbed;
    if AllMoving(ss[a].db, now) {
      StretchDrains(ss, ls, a, b, now, limit, 0);
    } else {
      var j :| j in DueJobs(ss[a].db, now) && !Moving(ss[a].db, now, j);
      StuckStays(ss, ls, a, b, now, limit, j);
      assert j in DueJobs(ss[b].db, now);
    }
  }

  lemma {:induction false} AdvancesGrow(ss: seq<Sys>, ls: seq<Label>, a: nat, i: nat, b: nat, j: JobId)
    requires a <= i <= b <= |ls| && |ss| == |ls| + 1
    ensures AdvancesIn(ss, ls, a, i, j) <= AdvancesIn(ss, ls, a, b, j)
    decreases b
  {
    if i < b { AdvancesGrow(ss, ls, a, i, b - 1, j); }
  }

  lemma ShorterStretch(ss: seq<Sys>, ls: seq<Label>, a: nat, i: nat, b: nat, now: int, limit: nat)
    requires Stretch(ss, ls, a, b, now, limit) && a <= i <= b
    ensures Stretch(ss, ls, a, i, now, limit)
  {
  }

  lemma DueAreJobs(db: Db, now: int)
    ensures DueJobs(db, now) <= db.jobs.Keys
  {
  }

  /** A job that a later tick takes is due until then, with the row it had at the start. */
  lemma {:induction false} StillDue(ss: seq<Sys>, ls: seq<Label>, a: nat, i: nat, k: nat, now: int, limit: nat, j: JobId)
    requires Stretch(ss, ls, a, k + 1, now, limit) && AllMoving(ss[a].db, now) && a <= i <= k && Advances(ss, ls, k, j)
    ensures j in ss[a].db.jobs && j in DueJobs(ss[i].db, now) && ss[i].db.jobs[j] == ss[a].db.jobs[j]
    ensures AllMoving(ss[i].db, now)
  {
    assert k < |ls| && |ss| == |ls| + 1;
    hide Behaviour, Undisturbed, DueJobs, AllMoving, Advances;
    ShorterStretch(ss, ls, a, i, k + 1, now, limit);
    TicksTake(ss, ls, a, k + 1, now, limit, j);
    TicksTake(ss, ls, a, i, now, limit, j);
    AdvancesGrow(ss, ls, a, i, k, j);
    StandingIntervals(ss[a].db, ss[i].db, now, Commits(ls, a, i) * limit);
    DueAreJobs(ss[a].db, now);
  }

  /** A job of higher priority is never taken by a later tick than one of lower priority. */
  lemma {:induction false} HigherFirst(ss: seq<Sys>, ls: seq<Label>, a: nat, i: nat, k: nat, b: nat, now: int, limit: nat,
                                       high: JobId, low: JobId)
    requires Stretch(ss, ls, a, b, now, limit) && AllMoving(ss[a].db, now) && a <= i < b && a <= k < b
    requires Advances(ss, ls, k, high) && Advances(ss, ls, i, low)
    requires high in ss[a].db.jobs && low in ss[a].db.jobs
    requires ss[a].db.jobs[high].priority > ss[a].db.jobs[low].priority
    ensures k <= i
  {
    if i < k {
      ShorterStretch(ss, ls, a, k + 1, b, now, limit);
      ShorterStretch(ss, ls, a, i + 1, b, now, limit);
      ShorterStretch(ss, ls, a, i, b, now, limit);
      StillDue(ss, ls, a, i, k, now, limit, high);
      StillDue(ss, ls, a, i + 1, k, now, limit, high);
      StillDue(ss, ls, a, i, i, now, limit, low);
      OpenTickIs(ss, ls, a, i, now, limit);
      CommitTakes(ss, ls, i);
      hide Stretch, AllMoving, DueJobs;
    }
  }
}
