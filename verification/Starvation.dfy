/** Moving jobs among stuck ones: a stuck job stays due and keeps taking a place under the limit. */
module Starvation {
  import opened Basics
  import opened ScrapeDb
  import opened Protocol
  import opened Backlog
  import opened Draining
  import opened Throughput

  ghost function Movers(db: Db, now: int): set<JobId> {
    set j | j in DueJobs(db, now) && Moving(db, now, j)
  }

  ghost function Jammed(db: Db, now: int): set<JobId> {
    set j | j in DueJobs(db, now) && !Plannable(db, now, j)
  }

  /** What ticks at one time leave of the tables: some moving jobs have gone, the stuck ones are all
      there, and everything but the gone ones is as it was. */
  ghost predicate Leaves(first: Db, db: Db, now: int) {
    && db.jobs.Keys == first.jobs.Keys && db.schedules == first.schedules && Settled(db, now)
    && Jammed(db, now) == Jammed(first, now) && Movers(db, now) <= Movers(first, now)
    && (forall k :: k in first.jobs && k !in Movers(first, now) - Movers(db, now) ==> db.jobs[k] == first.jobs[k])
  }

  lemma DueIsBoth(db: Db, now: int)
    requires Settled(db, now)
    ensures DueJobs(db, now) == Movers(db, now) + Jammed(db, now) && Movers(db, now) !! Jammed(db, now)
  {
    hide DueJobs, Moving, Plannable;
    forall j ensures Moving(db, now, j) ==> Plannable(db, now, j) { MovingIsPlannable(db, now, j); }
  }

  lemma MovingIsPlannable(db: Db, now: int, j: JobId)
    ensures Moving(db, now, j) ==> Plannable(db, now, j)
  {
  }

  /** A row decides whether a job is due, plannable and moving. */
  lemma SameRowSameFate(a: Db, b: Db, now: int, j: JobId)
    requires a.schedules == b.schedules && j in a.jobs && j in b.jobs && a.jobs[j] == b.jobs[j]
    ensures (j in DueJobs(a, now) <==> j in DueJobs(b, now)) && (Moving(a, now, j) <==> Moving(b, now, j))
    ensures Plannable(a, now, j) <==> Plannable(b, now, j)
  {
  }

  /** Same row, or gone: the fate of every job that a tick does not move. */
  ghost predicate SameFate(a: Db, b: Db, now: int, j: JobId) {
    && (j in DueJobs(a, now) <==> j in DueJobs(b, now))
    && (Moving(a, now, j) <==> Moving(b, now, j)) && (Plannable(a, now, j) <==> Plannable(b, now, j))
  }

  lemma {:induction false} KeptFates(db: Db, next: Db, took: set<JobId>, now: int, limit: nat)
    requires Settled(db, now) && HandledShare(db, next, took, now, limit)
    ensures forall k :: k in db.jobs && !(k in took && k in Movers(db, now)) ==>
              next.jobs[k] == db.jobs[k] && SameFate(db, next, now, k)
    ensures forall k :: k in took && k in Movers(db, now) ==> k !in DueJobs(next, now)
    ensures DueJobs(db, now) <= db.jobs.Keys && DueJobs(next, now) <= db.jobs.Keys
  {
    DueIsBoth(db, now);
    DueAreJobs(db, now);
    DueAreJobs(next, now);
    forall k | k in db.jobs && !(k in took && k in Movers(db, now))
      ensures next.jobs[k] == db.jobs[k] && SameFate(db, next, now, k)
    {
      SameRowSameFate(db, next, now, k);
    }
    hide DueJobs, Moving, Plannable, Share, SameFate;
  }

  /** One committed tick. */
  lemma {:induction false} TickLeaves(db: Db, next: Db, took: set<JobId>, now: int, limit: nat)
    requires Settled(db, now) && HandledShare(db, next, took, now, limit)
    ensures Leaves(db, next, now) && Movers(next, now) == Movers(db, now) - took
  {
    KeptFates(db, next, took, now, limit);
    DueIsBoth(db, now);
    assert next.jobs.Keys == db.jobs.Keys && next.schedules == db.schedules;
    hide DueJobs, Moving, Plannable, HandledShare;
    forall k ensures k in Movers(next, now) <==> k in Movers(db, now) - took {
      if k in db.jobs && !(k in took && k in Movers(db, now)) { assert SameFate(db, next, now, k); }
    }
    forall k ensures k in Jammed(next, now) <==> k in Jammed(db, now) {
      if k in db.jobs && !(k in took && k in Movers(db, now)) { assert SameFate(db, next, now, k); }
    }
    forall k | k in DueJobs(next, now) ensures Moving(next, now, k) || !Plannable(next, now, k) {
      assert SameFate(db, next, now, k);
    }
  }

  lemma {:induction false} LeavesMore(first: Db, db: Db, next: Db, now: int)
    requires Leaves(first, db, now) && Leaves(db, next, now)
    ensures Leaves(first, next, now)
  {
    hide Movers, Jammed, Settled;
  }

  /** How many moving jobs a tick takes: what the stuck ones leave of the limit, or all. */
  lemma {:induction false} TickTakesMovers(db: Db, took: set<JobId>, now: int, limit: nat)
    requires Settled(db, now) && Share(db, now, limit, took) && |Jammed(db, now)| <= limit
    ensures |Movers(db, now) - took| <= |Movers(db, now)| - Min(limit - |Jammed(db, now)|, |Movers(db, now)|)
  {
    DueIsBoth(db, now);
    hide DueJobs, Movers, Jammed;
    Remainder(Movers(db, now), Jammed(db, now), took, limit);
  }

  lemma Remainder(m: set<JobId>, j: set<JobId>, took: set<JobId>, limit: nat)
    requires m !! j && took <= m + j && |took| == Min(limit, |m + j|) && |j| <= limit
    ensures |m - took| <= |m| - Min(limit - |j|, |m|)
  {
    DisjointSize(m, j);
    var (own, other) := (took * m, took * j);
    assert took == own + other && m == (m - took) + own;
    DisjointSize(own, other);
    DisjointSize(m - took, own);
    SubsetSize(other, j);
  }

  lemma DisjointSize(a: set<JobId>, b: set<JobId>)
    requires a !! b
    ensures |a + b| == |a| + |b|
  {
  }

  lemma LeavesItself(db: Db, now: int)
    requires Settled(db, now)
    ensures Leaves(db, db, now)
  {
  }

  lemma SameJobsLeave(first: Db, db: Db, next: Db, now: int)
    requires Leaves(first, db, now) && next.jobs == db.jobs && next.schedules == db.schedules
    ensures Leaves(first, next, now) && Movers(next, now) == Movers(db, now)
  {
    SameJobsSameDue(db, next, now);
    forall j ensures (Moving(db, now, j) <==> Moving(next, now, j)) && (Plannable(db, now, j) <==> Plannable(next, now, j)) {}
  }

  lemma MoverIsScheduled(db: Db, now: int, j: JobId)
    ensures j in Movers(db, now) ==> j in db.schedules
  {
  }

  lemma FewerLeft(all: nat, before: nat, after: nat, c: nat, spare: nat)
    requires before <= Max(0, all - c * spare) && after <= before - Min(spare, before)
    ensures after <= Max(0, all - (c + 1) * spare)
  {
    OneMore(c, spare);
  }

  /** After c committed ticks at one time, with `spare` places under the limit for moving jobs, c
      times `spare` of them are gone, or all, each by exactly one tick; the rest is as it was. */
  lemma {:induction false} TicksLeave(ss: seq<Sys>, ls: seq<Label>, a: nat, b: nat, now: int, limit: nat, spare: nat, j: JobId)
    requires Stretch(ss, ls, a, b, now, limit) && Settled(ss[a].db, now)
    requires spare == 0 || spare == limit - |Jammed(ss[a].db, now)|
    ensures Leaves(ss[a].db, ss[b].db, now)
    ensures |Movers(ss[b].db, now)| <= Max(0, |Movers(ss[a].db, now)| - Commits(ls, a, b) * spare)
    ensures j in Movers(ss[a].db, now) ==> AdvancesIn(ss, ls, a, b, j) == if j in Movers(ss[b].db, now) then 0 else 1
  {
    hide Leaves, Movers, Jammed, Settled, Apply, Enabled;
    if a == b {
      LeavesItself(ss[a].db, now);
    } else {
      var (s, l) := (ss[b - 1], ls[b - 1]);
      TicksLeave(ss, ls, a, b - 1, now, limit, spare, j);
      assert StepAt(ss, ls, b - 1) && Undisturbed(s, l, now, limit);
      if l.CommitTick? {
        CommitIsEnabled(s);
        OpenTickIs(ss, ls, a, b - 1, now, limit);
        var took := CommitHandles(ss, ls, b - 1);
        hide HandledShare, Stretch, Behaviour;
        CommitLeaves(ss[a].db, s.db, ss[b].db, took, now, limit, spare);
        GoneIsNotTaken(ss[a].db, s.db, ss[b].db, took, now, limit, j);
        MoverIsScheduled(ss[a].db, now, j);
        assert j in Movers(ss[a].db, now) ==> (Advances(ss, ls, b - 1, j) <==> j in took);
        hide Advances;
        FewerLeft(|Movers(ss[a].db, now)|, |Movers(s.db, now)|, |Movers(ss[b].db, now)|, Commits(ls, a, b - 1), spare);
      } else {
        OthersKeepJobs(s, l, now, limit);
        SameJobsLeave(ss[a].db, s.db, ss[b].db, now);
      }
    }
  }

  lemma {:induction false} CommitLeaves(first: Db, db: Db, next: Db, took: set<JobId>, now: int, limit: nat, spare: nat)
    requires Leaves(first, db, now) && HandledShare(db, next, took, now, limit)
    requires spare == 0 || spare == limit - |Jammed(first, now)|
    ensures Leaves(first, next, now) && Movers(next, now) == Movers(db, now) - took
    ensures db.schedules == first.schedules && Movers(db, now) <= Movers(first, now)
    ensures |Movers(next, now)| <= |Movers(db, now)| - Min(spare, |Movers(db, now)|)
  {
    hide Movers, Jammed, Share, Settled;
    TickLeaves(db, next, took, now, limit);
    LeavesMore(first, db, next, now);
    if spare > 0 {
      TickTakesMovers(db, took, now, limit);
    } else {
      SubsetSize(Movers(next, now), Movers(db, now));
    }
  }

  lemma {:induction false} GoneIsNotTaken(first: Db, db: Db, next: Db, took: set<JobId>, now: int, limit: nat, j: JobId)
    requires Leaves(first, db, now) && HandledShare(db, next, took, now, limit)
    ensures j in Movers(first, now) && j in took ==> j in Movers(db, now)
  {
    DueIsBoth(db, now);
    if j in Movers(first, now) { MovingIsPlannable(first, now, j); }
    assert took <= DueJobs(db, now);
    hide DueJobs, Settled, Moving, Plannable, Share;
  }

  /** With fewer stuck due jobs than the limit, enough committed ticks at one time leave exactly the
      stuck ones due, and every moving one was fired or overlap-skipped by exactly one tick. */
  lemma {:induction false} DrainsAroundStuck(ss: seq<Sys>, ls: seq<Label>, a: nat, b: nat, now: int, limit: nat, j: JobId)
    requires Stretch(ss, ls, a, b, now, limit) && Settled(ss[a].db, now) && |Jammed(ss[a].db, now)| < limit
    requires Commits(ls, a, b) * (limit - |Jammed(ss[a].db, now)|) >= |Movers(ss[a].db, now)|
    ensures DueJobs(ss[b].db, now) == Jammed(ss[a].db, now)
    ensures j in Movers(ss[a].db, now) ==> AdvancesIn(ss, ls, a, b, j) == 1
  {
    TicksLeave(ss, ls, a, b, now, limit, limit - |Jammed(ss[a].db, now)|, j);
    hide Movers, Jammed, Settled, Stretch, DueJobs;
    assert |Movers(ss[b].db, now)| == 0;
    DueIsBoth(ss[b].db, now);
  }

  /** A share with `limit` jobs above j has no room for j. */
  lemma {:induction false} NoRoom(db: Db, now: int, limit: nat, took: set<JobId>, above: set<JobId>, j: JobId)
    requires Share(db, now, limit, took) && above <= DueJobs(db, now) && |above| >= limit
    requires Outranked(db, above, j)
    ensures j !in took
  {
    hide DueJobs;
    if j in took {
      assert above <= took;
      assert j !in above;
      SubsetSize(above + {j}, took);
    }
  }

  ghost predicate Outranked(db: Db, above: set<JobId>, j: JobId) {
    forall k :: k in above ==> k in db.jobs && j in db.jobs && db.jobs[k].priority > db.jobs[j].priority
  }

  lemma {:induction false} StillOutranked(first: Db, db: Db, now: int, above: set<JobId>, j: JobId)
    requires Leaves(first, db, now) && above <= Jammed(first, now) && Outranked(first, above, j) && j in Movers(db, now)
    ensures above <= DueJobs(db, now) && Outranked(db, above, j)
    ensures j in first.jobs && j in db.jobs && db.jobs[j] == first.jobs[j]
  {
    forall k | k in above ensures k !in Movers(first, now) { MovingIsPlannable(first, now, k); }
    DueAreJobs(db, now);
    hide Moving, Plannable, Settled;
  }

  /** A moving job below as many stuck due jobs as the limit is never taken, however many ticks run:
      it stays due with the row it had. */
  lemma {:induction false} StarvedByStuck(ss: seq<Sys>, ls: seq<Label>, a: nat, b: nat, now: int, limit: nat,
                                          above: set<JobId>, j: JobId)
    requires Stretch(ss, ls, a, b, now, limit) && Settled(ss[a].db, now) && j in Movers(ss[a].db, now)
    requires above <= Jammed(ss[a].db, now) && |above| >= limit && Outranked(ss[a].db, above, j)
    ensures j in Movers(ss[b].db, now) && AdvancesIn(ss, ls, a, b, j) == 0
    ensures j in ss[a].db.jobs && j in ss[b].db.jobs && ss[b].db.jobs[j] == ss[a].db.jobs[j]
  {
    hide Movers, Jammed, Settled, Leaves, Outranked, Apply, Enabled, HandledShare;
    if a < b {
      var (s, l) := (ss[b - 1], ls[b - 1]);
      ShorterStretch(ss, ls, a, b - 1, b, now, limit);
      StarvedByStuck(ss, ls, a, b - 1, now, limit, above, j);
      TicksLeave(ss, ls, a, b - 1, now, limit, 0, j);
      assert StepAt(ss, ls, b - 1) && Undisturbed(s, l, now, limit);
      if l.CommitTick? {
        CommitIsEnabled(s);
        OpenTickIs(ss, ls, a, b - 1, now, limit);
        StillOutranked(ss[a].db, s.db, now, above, j);
        var took := CommitHandles(ss, ls, b - 1);
        HandledIsShare(s.db, ss[b].db, took, now, limit);
        NoRoom(s.db, now, limit, took, above, j);
        CommitLeaves(ss[a].db, s.db, ss[b].db, took, now, limit, 0);
      } else {
        OthersKeepJobs(s, l, now, limit);
        SameJobsLeave(ss[a].db, s.db, ss[b].db, now);
      }
    }
    TicksLeave(ss, ls, a, b, now, limit, 0, j);
    StillOutranked(ss[a].db, ss[b].db, now, above, j);
  }

  lemma HandledIsShare(base: Db, next: Db, took: set<JobId>, now: int, limit: nat)
    requires HandledShare(base, next, took, now, limit)
    ensures Share(base, now, limit, took)
  {
  }
}
