/** A tick run in one go is a run of the protocol: the program's tick and the protocol's
    steps agree. */
module Refinement {
  import opened Basics
  import opened ScrapeDb
  import opened SchedulerSpec
  import opened WorkerSpec
  import opened Protocol
  import opened Invariants
  import opened Schedules
  import Workers

  ghost predicate Steps(s: Sys, ls: seq<Label>, t: Sys)
    decreases |ls|
  {
    if ls == [] then s == t else Enabled(s, ls[0]) && Steps(Apply(s, ls[0]), ls[1..], t)
  }

  lemma {:induction false} StepsJoin(s: Sys, a: seq<Label>, m: Sys, b: seq<Label>, t: Sys)
    requires Steps(s, a, m) && Steps(m, b, t)
    ensures Steps(s, a + b, t)
    decreases |a|
  {
    if a == [] {
      assert a + b == b;
    } else {
      StepsJoin(Apply(s, a[0]), a[1..], m, b, t);
      assert (a + b)[0] == a[0] && (a + b)[1..] == a[1..] + b;
    }
  }

  /** The two steps behind one due job: its insertion time, then the job. */
  lemma {:induction false} JobPhase(s: Sys, o: Outside, log: TickLog) returns (ls: seq<Label>, m: Sys)
    requires s.tick.Some? && forall j :: j in s.tick.value.due ==> j in s.tick.value.view.jobs
    ensures Steps(s, ls, m) && m.db == s.db && m.held == s.held && m.tick.Some?
    ensures var (t, u) := (s.tick.value, m.tick.value);
            && u.view == TickJobs(t.view, t.due, t.now, o, log).0
            && u.due == [] && u.cands == t.cands && u.now == t.now && u.limit == t.limit
    decreases |s.tick.value.due|
  {
    var t := s.tick.value;
    if t.due == [] {
      ls, m := [], s;
    } else {
      var j := t.due[0];
      assert j in t.due && forall k :: k in t.due[1..] ==> k in t.due;
      var a := Clock(o.insertedAt(|t.view.runs|));
      var b := TickDue(false, o.rand(j));
      var s1 := Apply(s, a);
      var s2 := Apply(s1, b);
      var step := TickJob(t.view, j, t.now, false, o.rand(j), o.insertedAt(|t.view.runs|));
      var rest, end := JobPhase(s2, o, LogJob(log, j, step.event));
      ls, m := [a, b] + rest, end;
      assert Steps(s1, [b] + rest, m) by { assert ([b] + rest)[1..] == rest; }
      assert ls[0] == a && ls[1..] == [b] + rest;
    }
  }

  lemma {:induction false} RetryPhase(s: Sys, o: Outside, log: TickLog) returns (ls: seq<Label>, m: Sys)
    requires s.tick.Some? && s.tick.value.cands.Some?
    requires forall r :: r in s.tick.value.cands.value ==> r < |s.tick.value.view.runs|
    ensures Steps(s, ls, m) && m.db == s.db && m.held == s.held && m.tick.Some?
    ensures m.tick.value.cands == Some([])
    ensures m.tick.value.view == TickRetries(s.tick.value.view, s.tick.value.cands.value, s.tick.value.now, o, log).0
    decreases |s.tick.value.cands.value|
  {
    var t := s.tick.value;
    var cands := t.cands.value;
    if cands == [] {
      ls, m := [], s;
    } else {
      assert cands[0] in cands && forall k :: k in cands[1..] ==> k in cands;
      var a := Clock(o.insertedAt(|t.view.runs|));
      var b := TickCandidate(false);
      var s1 := Apply(s, a);
      var s2 := Apply(s1, b);
      var step := TickRetry(t.view, cands[0], t.now, false, o.insertedAt(|t.view.runs|));
      var rest, end := RetryPhase(s2, o, LogRetry(log, step.child));
      ls, m := [a, b] + rest, end;
      assert Steps(s1, [b] + rest, m) by { assert ([b] + rest)[1..] == rest; }
      assert ls[0] == a && ls[1..] == [b] + rest;
    }
  }

  /** Every tick that the scheduler program may perform (see Sessions.Session.RunTick) is a
      sequence of protocol steps from begin to commit. */
  lemma {:induction false} TickIsABehaviour(s: Sys, limit: nat, o: Outside, due: seq<JobId>, cands: seq<RunId>,
                                            after: Db, log: TickLog)
    returns (ls: seq<Label>, end: Sys)
    requires s.tick.None? && IsTick(s.db, s.clock, limit, o, due, cands, after, log)
    ensures Steps(s, ls, end) && end.db == after && end.tick.None? && end.held == s.held
  {
    var begin := BeginTick(limit, due);
    forall j | j in due ensures j in s.db.jobs { assert j in DueJobs(s.db, s.clock); }
    var s1 := Apply(s, begin);
    var ls1, m1 := JobPhase(s1, o, EMPTY_LOG);
    var (mid, midLog) := TickJobs(s.db, due, s.clock, o, EMPTY_LOG);
    forall r | r in cands ensures r < |mid.runs| { assert r in Candidates(mid); }
    var s2 := Apply(m1, BeginRetries(cands));
    var ls2, m2 := RetryPhase(s2, o, midLog);
    end := Apply(m2, CommitTick);
    assert Steps(s, [begin], s1) && Steps(m1, [BeginRetries(cands)], s2) && Steps(m2, [CommitTick], end);
    StepsJoin(s, [begin], s1, ls1, m1);
    StepsJoin(s, [begin] + ls1, m1, [BeginRetries(cands)], s2);
    StepsJoin(s, [begin] + ls1 + [BeginRetries(cands)], s2, ls2, m2);
    StepsJoin(s, [begin] + ls1 + [BeginRetries(cands)] + ls2, m2, [CommitTick], end);
    ls := [begin] + ls1 + [BeginRetries(cands)] + ls2 + [CommitTick];
  }

  // ----- the other operations

  /** A manual enqueue (Sessions.Session.ManualEnqueueJob) is one protocol step, or none when it
      is refused. */
  lemma {:induction false} ManualIsABehaviour(s: Sys, j: JobId, at: int, after: Db) returns (ls: seq<Label>, end: Sys)
    requires s.tick.None? && IsManualEnqueue(s.db, j, at, after)
    ensures Steps(s, ls, end) && end.db == after && end.tick.None? && end.held == s.held
  {
    if after == s.db {
      ls, end := [], s;
    } else {
      var (a, b) := (Clock(at), ManualEnqueue(j, false));
      var s1 := Apply(s, a);
      end := Apply(s1, b);
      ls := [a, b];
      TwoSteps(s, a, b);
    }
  }

  /** An edit of a job (Sessions.Session.UpdateScrapeJob as the PATCH route calls it) is one step. */
  lemma {:induction false} UpdateIsABehaviour(s: Sys, j: JobId, p: JobPatch, after: Db) returns (ls: seq<Label>, end: Sys)
    requires s.tick.None? && p.nextRunAt.None? && IsUpdate(s.db, j, p, after)
    ensures Steps(s, ls, end) && end.db == after && end.tick.None? && end.held == s.held
  {
    if j in s.db.jobs {
      var a := PatchJob(j, p);
      end := Apply(s, a);
      ls := [a];
      assert Steps(end, [], end) && [a][1..] == [];
      hide PatchedJob;
    } else {
      ls, end := [], s;
    }
  }

  /** An iteration of a worker (Sessions.Database.WorkerIteration) is a claim and a commit or a
      rollback, whoever else holds runs. */
  lemma {:induction false} WorkIsABehaviour(s: Sys, w: WorkerId, execute: Run -> Outcome, at: int, raises: bool,
                                            claimed: Option<RunId>, after: Db)
    returns (ls: seq<Label>, end: Sys)
    requires s.tick.None? && w !in s.held && IsWork(s.db, w, Locked(s), execute, at, raises, claimed, after)
    ensures Steps(s, ls, end) && end.db == after && end.tick.None? && end.held == s.held
  {
    if claimed.None? {
      ls, end := [], s;
    } else {
      var r := claimed.value;
      var (a, b) := (Claim(w, r), Clock(at));
      var c := if raises then Abort(w) else Finish(w, execute(ClaimRun(s.db, r, w).runs[r]));
      var s2 := Apply(Apply(s, a), b);
      end := Apply(s2, c);
      ls := [a, b] + [c];
      TwoSteps(s, a, b);
      assert Steps(s2, [c], end) by { assert Steps(end, [], end) && [c][1..] == []; }
      StepsJoin(s, [a, b], s2, [c], end);
      assert s.held[w := r] - {w} == s.held;
    }
  }

  lemma TwoSteps(s: Sys, a: Label, b: Label)
    requires Enabled(s, a) && Enabled(Apply(s, a), b)
    ensures Steps(s, [a, b], Apply(Apply(s, a), b))
  {
    hide Apply, Enabled;
    var t := Apply(Apply(s, a), b);
    assert Steps(t, [], t);
    assert Steps(Apply(s, a), [b], t) by { assert [b][1..] == []; }
    assert [a, b][1..] == [b];
  }

  // ----- the program as a whole

  /** What the processes do to the committed tables, one operation after the other. */
  datatype Operation =
    | AddJob(job: JobId, row: Job)
    | PutSchedule(job: JobId, schedule: Option<Schedule>)
    | EditJob(job: JobId, patch: JobPatch)
    | RunManually(job: JobId, at: int)
    | Tick(now: int, limit: nat, o: Outside, due: seq<JobId>, cands: seq<RunId>, log: TickLog)
    | Work(worker: WorkerId, execute: Run -> Outcome, at: int, raises: bool, claimed: Option<RunId>)

  ghost predicate Performs(before: Db, op: Operation, after: Db) {
    match op
    case AddJob(j, row) => j !in before.jobs && after == before.(jobs := before.jobs[j := row])
    case PutSchedule(j, sched) =>
      j in before.jobs
      && after == before.(schedules := if sched.Some? then before.schedules[j := sched.value] else before.schedules - {j})
    case EditJob(j, p) => p.nextRunAt.None? && IsUpdate(before, j, p, after)
    case RunManually(j, at) => IsManualEnqueue(before, j, at, after)
    case Tick(now, limit, o, due, cands, log) => IsTick(before, now, limit, o, due, cands, after, log)
    case Work(w, execute, at, raises, claimed) => IsWork(before, w, {}, execute, at, raises, claimed, after)
  }

  ghost predicate ProgramRun(dbs: seq<Db>, ops: seq<Operation>) {
    && |dbs| == |ops| + 1 && dbs[0] == Db(map[], map[], [])
    && forall i :: 0 <= i < |ops| ==> Performs(dbs[i], ops[i], dbs[i + 1])
  }

  predicate AtRest(s: Sys) {
    s.tick.None? && s.held == map[]
  }

  lemma {:induction false} OneStep(s: Sys, l: Label)
    requires Enabled(s, l)
    ensures Steps(s, [l], Apply(s, l))
  {
    hide Apply, Enabled;
    assert Steps(Apply(s, l), [], Apply(s, l)) && [l][1..] == [];
  }

  lemma {:induction false} OperationIsABehaviour(s: Sys, op: Operation, after: Db) returns (ls: seq<Label>, end: Sys)
    requires AtRest(s) && Performs(s.db, op, after)
    ensures Steps(s, ls, end) && end.db == after && AtRest(end)
  {
    hide Steps, IsTick, IsWork, IsUpdate, IsManualEnqueue;
    match op
    case AddJob(j, row) =>
      OneStep(s, CreateJob(j, row));
      ls, end := [CreateJob(j, row)], Apply(s, CreateJob(j, row));
    case PutSchedule(j, sched) =>
      OneStep(s, SetSchedule(j, sched));
      ls, end := [SetSchedule(j, sched)], Apply(s, SetSchedule(j, sched));
    case EditJob(j, p) => ls, end := UpdateIsABehaviour(s, j, p, after);
    case RunManually(j, at) => ls, end := ManualIsABehaviour(s, j, at, after);
    case Tick(now, limit, o, due, cands, log) =>
      var s1 := Apply(s, Clock(now));
      OneStep(s, Clock(now));
      var rest, last := TickIsABehaviour(s1, limit, o, due, cands, after, log);
      StepsJoin(s, [Clock(now)], s1, rest, last);
      ls, end := [Clock(now)] + rest, last;
    case Work(w, execute, at, raises, claimed) =>
      assert Locked(s) == {};
      ls, end := WorkIsABehaviour(s, w, execute, at, raises, claimed, after);
  }

  /** Steps prolong a behaviour. */
  lemma {:induction false} Prolong(ss: seq<Sys>, ls: seq<Label>, more: seq<Label>, end: Sys) returns (longer: seq<Sys>)
    requires Behaviour(ss, ls) && Steps(ss[|ss| - 1], more, end)
    ensures Behaviour(longer, ls + more) && ss <= longer && longer[|longer| - 1] == end
    decreases |more|
  {
    hide Apply, Enabled, Init;
    if more == [] {
      longer := ss;
      assert ls + more == ls;
    } else {
      var next := Apply(ss[|ss| - 1], more[0]);
      var (ss1, ls1) := (ss + [next], ls + [more[0]]);
      forall i | 0 <= i < |ls1| ensures StepAt(ss1, ls1, i) {
        if i < |ls| { assert StepAt(ss, ls, i); }
      }
      longer := Prolong(ss1, ls1, more[1..], end);
      assert ls1 + more[1..] == ls + more;
    }
  }

  /** Whatever the scheduler, the routes and the workers do one after the other is a behaviour of
      the transition system, and the tables after each operation are those of one of its states:
      what every behaviour keeps, the program keeps. */
  lemma {:induction false} ProgramIsABehaviour(dbs: seq<Db>, ops: seq<Operation>)
    returns (ss: seq<Sys>, ls: seq<Label>, at: seq<nat>)
    requires ProgramRun(dbs, ops)
    ensures Behaviour(ss, ls) && |at| == |dbs| && at[|ops|] == |ss| - 1 && AtRest(ss[|ss| - 1])
    ensures forall k :: 0 <= k < |at| ==> at[k] < |ss| && ss[at[k]].db == dbs[k]
    ensures forall i, k :: 0 <= i < k < |at| ==> at[i] <= at[k]
    decreases |ops|
  {
    hide Performs, Steps, Behaviour;
    if ops == [] {
      ss, ls, at := [Sys(dbs[0], None, map[], 0)], [], [0];
      EmptyBehaviour(ss[0]);
    } else {
      var n := |ops| - 1;
      assert ops[..n] == ops[..|ops| - 1];
      ss, ls, at := ProgramIsABehaviour(dbs[..|ops|], ops[..n]);
      var s := ss[|ss| - 1];
      assert s.db == dbs[n];
      var more, end := OperationIsABehaviour(s, ops[n], dbs[n + 1]);
      ss := Prolong(ss, ls, more, end);
      ls := ls + more;
      at := at + [|ss| - 1];
    }
  }

  lemma EmptyBehaviour(s: Sys)
    requires Init(s)
    ensures Behaviour([s], [])
  {
  }

  /** For example: after every operation the tables are well formed, and a run that has an outcome
      keeps it through all later operations. */
  lemma {:induction false} ProgramKeepsOutcomes(dbs: seq<Db>, ops: seq<Operation>, i: nat, k: nat, r: RunId)
    requires ProgramRun(dbs, ops) && i <= k < |dbs|
    ensures DbInv(dbs[i])
    ensures r < |dbs[i].runs| && dbs[i].runs[r].status != Queued ==>
              r < |dbs[k].runs| && SameOutcome(dbs[i].runs[r], dbs[k].runs[r])
  {
    hide Behaviour, DbInv;
    var ss, ls, at := ProgramIsABehaviour(dbs, ops);
    Reachable(ss, ls, at[i]);
    if r < |dbs[i].runs| && dbs[i].runs[r].status != Queued {
      assert at[i] <= at[k];
      Workers.OutcomesAreFinal(ss, ls, at[i], at[k], r);
    }
  }
}
