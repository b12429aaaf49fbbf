/** What a worker's transaction does to the run it claimed (pricewatch/scrape/worker.py). */
module WorkerSpec {
  import opened Basics
  import opened ScrapeDb

  /** How the execution of a claimed run ended: no runner is registered for its type, the
      runner raised, or it returned a result. */
  datatype Outcome =
    | NoRunner
    | Raised
    | Returned(status: Verdict, retryable: bool, checkpointOut: Payload)

  function VerdictOf(o: Outcome): Verdict {
    if o.Returned? then o.status else Failed
  }

  function RetryableOf(o: Outcome): bool {
    o.Returned? && o.retryable
  }

  function CheckpointOf(o: Outcome): Payload {
    if o.Returned? then o.checkpointOut else None
  }

  /** Claim and completion, which commit together. */
  function FinishRun(db: Db, r: RunId, w: WorkerId, o: Outcome, at: int): Db
    requires r < |db.runs|
  {
    CompleteRun(ClaimRun(db, r, w), r, VerdictOf(o), CheckpointOf(o), RetryableOf(o), at)
  }

  /** The run r claimed, executed and completed. */
  function Executed(db: Db, r: RunId, w: WorkerId, execute: Run -> Outcome, at: int): Db
    requires r < |db.runs|
  {
    FinishRun(db, r, w, execute(ClaimRun(db, r, w).runs[r]), at)
  }

  /** One worker transaction beside others that hold the rows `locked`: nothing to claim, or the
      head of the queue executed, or everything rolled back. */
  ghost predicate IsWork(before: Db, w: WorkerId, locked: set<RunId>, execute: Run -> Outcome, at: int, raises: bool,
                         claimed: Option<RunId>, after: Db)
  {
    && (claimed.None? ==> after == before && forall i :: !Claimable(before, locked, i))
    && (claimed.Some? ==>
          && IsNextQueued(before, locked, claimed.value)
          && after == if raises then before else Executed(before, claimed.value, w, execute, at))
  }
}
