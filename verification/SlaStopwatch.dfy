/**
 * The clock as a stopwatch. A ledger kept beside a run records how much time
 * was granted and how long the completed pauses really lasted; the deadline
 * arithmetic of the rules is then accounted for over every run.
 */
module SlaStopwatch {
  import opened Wrappers
  import opened SlaRules

  /** Time granted so far, pauses completed so far, and their exact length. */
  datatype Ledger = Ledger(granted: int, pauses: nat, pausedMs: int)

  /** What one transaction adds to the ledger; a refused one adds nothing. */
  function Book(ledger: Ledger, row: Row, wf: Workflow, t: Timed): Ledger {
    if Attempt(row, wf, t).Err? || row.clock.None? then ledger
    else match t.event
      case DoExtend(value, u, _) =>
        ledger.(granted := ledger.granted + value * UnitMinutes(u) * MS_PER_MINUTE)
      case DoChangeStatus(change) =>
        if change.to == Extended
        then ledger.(granted := ledger.granted + change.newDue.value - row.clock.value.dueAt)
        else ledger
      case DoResume =>
        ledger.(pauses := ledger.pauses + 1,
                pausedMs := ledger.pausedMs + t.now - row.clock.value.pausedAt.value)
      case _ => ledger
  }

  function Account(row: Row, wf: Workflow, run: seq<Timed>): Ledger {
    if run == [] then Ledger(0, 0, 0)
    else
      var before := run[..|run| - 1];
      Book(Account(row, wf, before), Run(row, wf, before), wf, run[|run| - 1])
  }

  /** Time since the start, less completed pauses and the pause in progress. */
  function Unpaused(clock: Clock, ledger: Ledger, now: Time): int {
    now - clock.startedAt - ledger.pausedMs
    - (if clock.state == Paused && clock.pausedAt.Some? then now - clock.pausedAt.value else 0)
  }

  /** The response time the policy allowed when the clock started. */
  function Target(clock: Clock): int { clock.originalDueAt - clock.startedAt }

  /**
   * The deadline is the original one plus whole seconds of pause plus the time
   * granted, and each completed pause lost less than a second to rounding.
   */
  ghost predicate Accounted(clock: Clock, ledger: Ledger, now: Time) {
    && clock.dueAt == clock.originalDueAt + 1000 * clock.pausedTotalSecs + ledger.granted
    && 1000 * clock.pausedTotalSecs <= ledger.pausedMs
    && ledger.pausedMs <= 1000 * clock.pausedTotalSecs + 999 * ledger.pauses
    && (clock.state == Paused ==> clock.pausedAt.Some? && clock.pausedAt.value <= now)
  }

  /** A clock as intake or an appeal starts it. */
  ghost predicate Unused(clock: Clock) {
    && clock.dueAt == clock.originalDueAt
    && clock.pausedTotalSecs == 0
    && clock.state == Running
  }

  /** Starting points and the existence of a clock never change. */
  lemma OriginKept(row: Row, wf: Workflow, t: Timed)
    ensures Apply(row, wf, t).clock.Some? == row.clock.Some?
    ensures row.clock.Some? ==>
              var before, after := row.clock.value, Apply(row, wf, t).clock.value;
              before.startedAt == after.startedAt && before.originalDueAt == after.originalDueAt
  {
  }

  lemma StepAccounted(row: Row, ledger: Ledger, wf: Workflow, prev: Time, t: Timed)
    requires row.clock.Some? && prev <= t.now
    requires Accounted(row.clock.value, ledger, prev)
    ensures Apply(row, wf, t).clock.Some?
    ensures Accounted(Apply(row, wf, t).clock.value, Book(ledger, row, wf, t), t.now)
  {
  }

  /**
   * Stopwatch law, over every run of sweeps, pauses, resumes, extensions and
   * status changes from a fresh clock: the deadline is exactly accounted for.
   */
  lemma {:induction false} Stopwatch(row: Row, wf: Workflow, start: Time, run: seq<Timed>)
    requires row.clock.Some? && Unused(row.clock.value) && Ordered(start, run)
    ensures Run(row, wf, run).clock.Some?
    ensures var clock := Run(row, wf, run).clock.value;
            && Accounted(clock, Account(row, wf, run), EndTime(start, run))
            && clock.startedAt == row.clock.value.startedAt
            && clock.originalDueAt == row.clock.value.originalDueAt
  {
    if run == [] {
    } else {
      var before, last := run[..|run| - 1], run[|run| - 1];
      Stopwatch(row, wf, start, before);
      StepAccounted(Run(row, wf, before), Account(row, wf, before), wf, EndTime(start, before), last);
      OriginKept(Run(row, wf, before), wf, last);
    }
  }

  /**
   * When a sweep breaches, un-paused time has passed the allowance, short of
   * it by at most 999 ms for each completed pause.
   */
  lemma NeverBreachesEarly(row: Row, wf: Workflow, start: Time, run: seq<Timed>, now: Time)
    requires row.clock.Some? && Unused(row.clock.value) && Ordered(start, run)
    requires EndTime(start, run) <= now
    requires BreachDue(Run(row, wf, run), now)
    ensures var clock, ledger := Run(row, wf, run).clock.value, Account(row, wf, run);
            Unpaused(clock, ledger, now) > Target(row.clock.value) + ledger.granted - 999 * ledger.pauses
  {
    Stopwatch(row, wf, start, run);
  }

  /** A running clock past its allowance of un-paused time breaches at the next sweep. */
  lemma AlwaysBreaches(row: Row, wf: Workflow, start: Time, run: seq<Timed>, t: Timed)
    requires row.clock.Some? && Unused(row.clock.value) && Ordered(start, run)
    requires EndTime(start, run) <= t.now && t.event.DoSweep?
    requires var reached := Run(row, wf, run);
             && reached.clock.Some? && reached.clock.value.state == Running
             && reached.file.status != Closed && !reached.file.imported
             && Unpaused(reached.clock.value, Account(row, wf, run), t.now)
                > Target(row.clock.value) + Account(row, wf, run).granted
    ensures var after := Run(row, wf, run + [t]);
            after.clock.Some? && after.clock.value.state == Breached && after.file.status == Overdue
  {
    Stopwatch(row, wf, start, run);
    assert (run + [t])[..|run|] == run;
  }

  /** After a sweep, no open portal case has a running clock past its deadline. */
  lemma SweepLeavesNoneWaiting(row: Row, now: Time, policy: Policy, remind: Delivery, escalate: Delivery)
    ensures !BreachDue(Sweep(row, now, policy, remind, escalate), now)
  {
  }
}
