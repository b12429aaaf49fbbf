/** pricewatch/scrape/schedule.py: when a job fires next. Times are integer seconds. */
module Schedules {
  import opened Basics

  /** The schedule types. `Cron` carries the step of the cron library in the
      schedule's time zone; None stands for a bad expression or zone name. */
  datatype Timing =
    | Interval(sec: Option<int>)
    | Cron(step: int -> Option<int>)
    | UnknownType

  datatype Schedule = Schedule(timing: Timing, jitterSec: int)

  /** The next time after `fromDt`; None is the ValueError. `rand` is the draw
      behind the jitter: any value of 0..jitterSec is some `rand % (jitterSec + 1)`. */
  function ComputeNextRun(timing: Timing, fromDt: int, jitterSec: int, rand: nat): Option<int> {
    var base :=
      match timing
      case Interval(sec) => if sec == None || sec.value <= 0 then None else Some(fromDt + sec.value)
      case Cron(step) => step(fromDt)
      case UnknownType => None;
    if base.Some? && jitterSec > 0 then Some(base.value + rand % (jitterSec + 1)) else base
  }

  /** One step from the current time; once more from `now`, without jitter, when still overdue. */
  function AdvanceNextRun(timing: Timing, current: int, now: int, jitterSec: int, rand: nat): Option<int> {
    var next := ComputeNextRun(timing, current, jitterSec, rand);
    if next.Some? && next.value <= now then ComputeNextRun(timing, now, 0, 0) else next
  }

  /** A schedule with a usable fixed interval. */
  predicate FixedInterval(s: Schedule, sec: int) {
    s.timing == Interval(Some(sec)) && sec > 0
  }

  /** The next time after a plan, said at once: one step past the plan plus the draw, or one step
      past now without a draw when that is not after now. */
  ghost predicate NextTimeIs(timing: Timing, plan: int, now: int, draw: nat, next: Option<int>) {
    match timing
    case Interval(sec) =>
      if sec.None? || sec.value <= 0 then next.None?
      else next == Some(if plan + sec.value + draw > now then plan + sec.value + draw else now + sec.value)
    case Cron(step) =>
      if step(plan).None? then next.None?
      else if step(plan).value + draw > now then next == Some(step(plan).value + draw)
      else next == step(now)
    case UnknownType => next.None?
  }

  /** Advancing is stepping once from the plan and, if that is overdue, once from now. The jitter
      adds a draw of at most jitterSec, and each such draw can come up. */
  lemma AdvanceIsExact(timing: Timing, plan: int, now: int, jitterSec: int, rand: nat)
    ensures exists draw: nat :: draw <= Max(jitterSec, 0) && (rand <= jitterSec ==> draw == rand)
              && NextTimeIs(timing, plan, now, draw, AdvanceNextRun(timing, plan, now, jitterSec, rand))
  {
    var draw := if jitterSec > 0 then rand % (jitterSec + 1) else 0;
    assert NextTimeIs(timing, plan, now, draw, AdvanceNextRun(timing, plan, now, jitterSec, rand));
  }

  /** Progress of an interval schedule: never in the past, never less than one
      interval on, and never further than one interval (plus jitter) past the later
      of the planned time and now. */
  lemma AdvanceProgress(s: Schedule, sec: int, current: int, now: int, jitterSec: int, rand: nat)
    requires FixedInterval(s, sec)
    ensures var next := AdvanceNextRun(s.timing, current, now, jitterSec, rand);
            && next.Some?
            && next.value > now
            && next.value >= current + sec
            && next.value <= Max(current, now) + sec + Max(jitterSec, 0)
  {
    if jitterSec > 0 {
      assert 0 <= rand % (jitterSec + 1) <= jitterSec;
    }
  }

  /** The catch-up makes any schedule progress whose single step moves forward; a cron
      schedule meets this exactly when its step from `now` does. */
  lemma AdvanceMovesPast(timing: Timing, current: int, now: int, jitterSec: int, rand: nat)
    requires AdvanceNextRun(timing, current, now, jitterSec, rand).Some?
    ensures var first := ComputeNextRun(timing, current, jitterSec, rand).value;
            var again := ComputeNextRun(timing, now, 0, 0);
            AdvanceNextRun(timing, current, now, jitterSec, rand).value > now
            <==> first > now || again.value > now
  {
  }

  /** Whenever the step of a cron schedule moves forward, from the planned time and from now, the
      next time is after both. */
  lemma CronProgress(step: int -> Option<int>, current: int, now: int, jitterSec: int, rand: nat)
    requires step(current).Some? ==> step(current).value > current
    requires step(now).Some? ==> step(now).value > now
    ensures var next := AdvanceNextRun(Cron(step), current, now, jitterSec, rand);
            next.Some? ==> next.value > now && next.value > current
  {
    if jitterSec > 0 {
      assert 0 <= rand % (jitterSec + 1);
    }
  }
}
