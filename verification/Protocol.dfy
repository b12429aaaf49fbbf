/** The scheduler, any number of workers and the admin routes as one transition system.

    Workers hold row locks from claim to commit, so that other processes see a claimed run
    as still queued. A tick is a transaction of many steps: between any two of them workers
    may claim, commit or roll back, and a commit shows up at once in what the tick reads.
    Enqueuers and other admin writes are serialized with each other. The PATCH route never
    carries a planned time. */
module Protocol {
  import opened Basics
  import opened Schedules
  import opened ScrapeDb
  import opened SchedulerSpec
  import opened WorkerSpec

  /** An open tick. `view` is the committed tables with the tick's own writes; `due` and
      `cands` are what is left to process; `advanced` are the jobs it fired or skipped. */
  datatype Txn = Txn(view: Db, now: int, limit: nat, due: seq<JobId>,
                     cands: Option<seq<RunId>>, advanced: set<JobId>)

  datatype Sys = Sys(db: Db, tick: Option<Txn>, held: map<WorkerId, RunId>, clock: int)

  datatype Label =
    | Clock(time: int)
    | CreateJob(job: JobId, row: Job)
    | PatchJob(job: JobId, patch: JobPatch)
    | SetSchedule(job: JobId, schedule: Option<Schedule>)
    | ManualEnqueue(job: JobId, stale: bool)
    | BeginTick(limit: nat, due: seq<JobId>)
    | TickDue(stale: bool, rand: nat)
    | BeginRetries(cands: seq<RunId>)
    | TickCandidate(stale: bool)
    | CommitTick
    | RollbackTick
    | Claim(worker: WorkerId, run: RunId)
    | Finish(worker: WorkerId, outcome: Outcome)
    | Abort(worker: WorkerId)

  /** The tables as the open tick, or else any reader, sees them. */
  function Eff(s: Sys): Db {
    if s.tick.Some? then s.tick.value.view else s.db
  }

  function Locked(s: Sys): set<RunId> {
    s.held.Values
  }

  ghost predicate Enabled(s: Sys, l: Label) {
    match l
    case Clock(_) => true
    case CreateJob(j, _) => s.tick.None? && j !in s.db.jobs
    case PatchJob(j, p) => s.tick.None? && j in s.db.jobs && p.nextRunAt.None?
    case SetSchedule(j, _) => s.tick.None? && j in s.db.jobs
    case ManualEnqueue(j, stale) =>
      s.tick.None? && j in s.db.jobs && (s.db.jobs[j].allowOverlap || !(stale || HasActiveRun(s.db, j)))
    case BeginTick(limit, due) => s.tick.None? && IsDueList(s.db, s.clock, limit, due)
    case TickDue(_, _) =>
      s.tick.Some? && s.tick.value.due != [] && s.tick.value.due[0] in s.tick.value.view.jobs
    case BeginRetries(cands) =>
      s.tick.Some? && s.tick.value.due == [] && s.tick.value.cands.None?
      && IsCandidateList(s.tick.value.view, s.tick.value.limit, cands)
    case TickCandidate(_) =>
      s.tick.Some? && s.tick.value.cands.Some? && s.tick.value.cands.value != []
      && s.tick.value.cands.value[0] < |s.tick.value.view.runs|
    case CommitTick => s.tick.Some? && s.tick.value.cands == Some([])
    case RollbackTick => s.tick.Some?
    case Claim(w, r) => w !in s.held && IsNextQueued(s.db, Locked(s), r)
    case Finish(w, _) => w in s.held && s.held[w] < |s.db.runs| && s.held[w] < |Eff(s).runs|
    case Abort(w) => w in s.held
  }

  /** The open tick after one due job. */
  function AfterDue(t: Txn, stale: bool, rand: nat, at: int): Txn
    requires t.due != [] && t.due[0] in t.view.jobs
  {
    var step := TickJob(t.view, t.due[0], t.now, stale, rand, at);
    t.(view := step.db, due := t.due[1..],
       advanced := t.advanced + if step.event.NoSchedule? then {} else {t.due[0]})
  }

  function ApplyTickDue(s: Sys, t: Txn, stale: bool, rand: nat): Sys
    requires t.due != [] && t.due[0] in t.view.jobs
  {
    s.(tick := Some(AfterDue(t, stale, rand, s.clock)))
  }

  function ApplyTickCandidate(s: Sys, t: Txn, stale: bool): Sys
    requires t.cands.Some? && t.cands.value != [] && t.cands.value[0] < |t.view.runs|
  {
    var step := TickRetry(t.view, t.cands.value[0], t.now, stale, s.clock);
    s.(tick := Some(t.(view := step.db, cands := Some(t.cands.value[1..]))))
  }

  function ApplyFinish(s: Sys, w: WorkerId, o: Outcome): Sys
    requires w in s.held && s.held[w] < |s.db.runs| && s.held[w] < |Eff(s).runs|
  {
    var r := s.held[w];
    s.(db := FinishRun(s.db, r, w, o, s.clock),
       tick := if s.tick.None? then None
               else Some(s.tick.value.(view := FinishRun(s.tick.value.view, r, w, o, s.clock))),
       held := s.held - {w})
  }

  ghost function Apply(s: Sys, l: Label): Sys
    requires Enabled(s, l)
  {
    match l
    case Clock(time) => s.(clock := time)
    case CreateJob(j, row) => s.(db := s.db.(jobs := s.db.jobs[j := row]))
    case PatchJob(j, p) => s.(db := s.db.(jobs := s.db.jobs[j := PatchedJob(s.db.jobs[j], p)]))
    case SetSchedule(j, sched) =>
      s.(db := s.db.(schedules := if sched.Some? then s.db.schedules[j := sched.value] else s.db.schedules - {j}))
    case ManualEnqueue(j, _) =>
      s.(db := EnqueueRun(s.db, Some(j), s.db.jobs[j].runnerType, Manual, 1, None, s.clock))
    case BeginTick(limit, due) => s.(tick := Some(Txn(s.db, s.clock, limit, due, None, {})))
    case TickDue(stale, rand) => ApplyTickDue(s, s.tick.value, stale, rand)
    case BeginRetries(cands) => s.(tick := Some(s.tick.value.(cands := Some(cands))))
    case TickCandidate(stale) => ApplyTickCandidate(s, s.tick.value, stale)
    case CommitTick => s.(db := s.tick.value.view, tick := None)
    case RollbackTick => s.(tick := None)
    case Claim(w, r) => s.(held := s.held[w := r])
    case Finish(w, o) => ApplyFinish(s, w, o)
    case Abort(w) => s.(held := s.held - {w})
  }

  ghost predicate Init(s: Sys) {
    s.db == Db(map[], map[], []) && s.tick.None? && s.held == map[]
  }

  /** A run of the system: states `ss` joined by the steps `ls`. */
  ghost predicate Behaviour(ss: seq<Sys>, ls: seq<Label>) {
    && |ss| == |ls| + 1
    && Init(ss[0])
    && forall i :: 0 <= i < |ls| ==> StepAt(ss, ls, i)
  }

  ghost predicate StepAt(ss: seq<Sys>, ls: seq<Label>, i: nat)
    requires i < |ls| && |ss| == |ls| + 1
  {
    Enabled(ss[i], ls[i]) && ss[i + 1] == Apply(ss[i], ls[i])
  }
}
