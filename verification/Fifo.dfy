/** The queue is first in, first out. */
module Fifo {
  import opened Basics
  import opened ScrapeDb
  import opened SchedulerSpec
  import opened WorkerSpec
  import opened Protocol
  import opened Invariants
  import opened Retries

  /** The run is queued, and no worker holds it. */
  predicate Waiting(s: Sys, i: RunId) {
    i < |s.db.runs| && s.db.runs[i].status == Queued && i !in s.held.Values
  }

  /** Queued earlier, or at the same time with a lower id. */
  predicate Precedes(db: Db, a: RunId, b: RunId)
    requires a < |db.runs| && b < |db.runs|
  {
    db.runs[a].queuedAt < db.runs[b].queuedAt || (db.runs[a].queuedAt == db.runs[b].queuedAt && a < b)
  }

  /** The waiting runs that precede r. */
  ghost function Ahead(s: Sys, r: RunId): set<RunId>
    requires r < |s.db.runs|
  {
    set i: RunId | i < |s.db.runs| && Waiting(s, i) && Precedes(s.db, i, r)
  }

  ghost function ClaimsIn(ls: seq<Label>, a: nat, b: nat): nat
    requires a <= b <= |ls|
  {
    if a == b then 0 else ClaimsIn(ls, a, b - 1) + if ls[b - 1].Claim? then 1 else 0
  }

  lemma ClaimedIsFirst(s: Sys, w: WorkerId, q: RunId)
    requires Enabled(s, Claim(w, q))
    ensures Waiting(s, q) && w !in s.held && forall i :: Waiting(s, i) && i != q ==> Precedes(s.db, q, i)
  {
    forall i | Waiting(s, i) && i != q ensures Precedes(s.db, q, i) {
      assert Claimable(s.db, Locked(s), i);
    }
  }

  lemma {:induction false} ClaimTakesHead(s: Sys, w: WorkerId, q: RunId, r: RunId)
    requires Enabled(s, Claim(w, q)) && Waiting(s, r)
    ensures q == r <==> Ahead(s, r) == {}
    ensures q != r ==>
      var next := Apply(s, Claim(w, q));
      && Waiting(next, r) && |Ahead(next, r)| == |Ahead(s, r)| - 1
  {
    ClaimedIsFirst(s, w, q);
    hide Enabled;
    var next := s.(held := s.held[w := q]);
    LockedAfterClaim(s.held, w, q);
    if q != r {
      assert q in Ahead(s, r);
      assert Ahead(next, r) == Ahead(s, r) - {q};
    }
  }

  /** What other steps leave alone: who is claimable among the old rows, and their order. */
  ghost predicate QueueKept(s: Sys, next: Sys) {
    && |s.db.runs| <= |next.db.runs|
    && forall i :: 0 <= i < |s.db.runs| ==>
         && s.db.runs[i].queuedAt == next.db.runs[i].queuedAt
         && (Waiting(s, i) <==> Waiting(next, i))
  }

  lemma {:induction false} FinishKeepsQueue(s: Sys, w: WorkerId, o: Outcome)
    requires HeldInv(s) && Enabled(s, Finish(w, o))
    ensures QueueKept(s, Apply(s, Finish(w, o)))
  {
    var (r, next) := (s.held[w], Apply(s, Finish(w, o)));
    LockedAfterRelease(s.held, w);
    assert r in Locked(s) && next.db.runs[r].status != Queued;
    forall i | 0 <= i < |s.db.runs| && i != r ensures next.db.runs[i] == s.db.runs[i] {}
    hide Apply, Enabled, HeldInv, FinishRun;
  }

  lemma {:induction false} CommitKeepsQueue(s: Sys)
    requires Inv(s) && Enabled(s, CommitTick)
    ensures QueueKept(s, Apply(s, CommitTick))
  {
    var next := Apply(s, CommitTick);
    forall i | 0 <= i < |s.db.runs|
      ensures s.db.runs[i].status == next.db.runs[i].status && s.db.runs[i].queuedAt == next.db.runs[i].queuedAt
    {
      assert SameRun(s.db.runs[i], next.db.runs[i]);
    }
  }

  lemma {:induction false} OthersKeepQueue(s: Sys, l: Label)
    requires Inv(s) && Enabled(s, l) && !l.Claim? && !l.Abort?
    ensures QueueKept(s, Apply(s, l))
  {
    match l
    case Finish(w, o) => FinishKeepsQueue(s, w, o);
    case CommitTick => CommitKeepsQueue(s);
    case _ =>
  }

  lemma {:induction false} AheadKept(s: Sys, next: Sys, r: RunId)
    requires QueueKept(s, next) && TimesOk(next.db, next.clock) && r < |s.db.runs|
    ensures Ahead(next, r) == Ahead(s, r)
  {
  }

  /** With a clock that never runs back and no rollbacks, the number of runs before r falls
      by one with every claim, by any worker, whatever is enqueued or finished meanwhile. */
  lemma {:induction false} WaitShrinks(ss: seq<Sys>, ls: seq<Label>, a: nat, b: nat, r: RunId)
    requires Behaviour(ss, ls) && MonotoneClock(ss) && a <= b < |ss|
    requires forall i :: a <= i < b ==> !ls[i].Abort?
    requires Waiting(ss[a], r)
    requires ClaimsIn(ls, a, b) <= |Ahead(ss[a], r)|
    ensures Waiting(ss[b], r)
    ensures |Ahead(ss[b], r)| == |Ahead(ss[a], r)| - ClaimsIn(ls, a, b)
  {
    if a < b {
      WaitShrinks(ss, ls, a, b - 1, r);
      Reachable(ss, ls, b - 1);
      assert StepAt(ss, ls, b - 1);
      if ls[b - 1].Claim? {
        ClaimTakesHead(ss[b - 1], ls[b - 1].worker, ls[b - 1].run, r);
      } else {
        OthersKeepQueue(ss[b - 1], ls[b - 1]);
        TimesReachable(ss, ls, b);
        AheadKept(ss[b - 1], ss[b], r);
      }
    }
  }

  /** So a run with k claimable runs before it is claimed by exactly the (k + 1)-th claim. */
  lemma {:induction false} BoundedWait(ss: seq<Sys>, ls: seq<Label>, a: nat, b: nat, r: RunId)
    requires Behaviour(ss, ls) && MonotoneClock(ss) && a <= b < |ls|
    requires forall i :: a <= i < b ==> !ls[i].Abort?
    requires Waiting(ss[a], r)
    requires ls[b].Claim? && ClaimsIn(ls, a, b) <= |Ahead(ss[a], r)|
    ensures ls[b].run == r <==> ClaimsIn(ls, a, b) == |Ahead(ss[a], r)|
  {
    WaitShrinks(ss, ls, a, b, r);
    assert StepAt(ss, ls, b);
    ClaimTakesHead(ss[b], ls[b].worker, ls[b].run, r);
  }
}
