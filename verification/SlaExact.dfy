/**
 * What the transactions on a case and its clock come to, told from the fields
 * alone: when one is accepted, what it leaves, and which moves a status makes.
 */
module SlaExact {
  import opened Wrappers
  import opened SlaRules
  import opened SlaMail

  // ---- the sweep ---------------------------------------------------------------

  /** This share of the time from start to deadline is over, or there is no such time. */
  predicate Reached(clock: Clock, now: Time, share: real) {
    if clock.dueAt > clock.startedAt
    then (now - clock.startedAt) as real >= share * (clock.dueAt - clock.startedAt) as real
    else 1.0 >= share
  }

  predicate BreachesNow(file: Case, clock: Clock, now: Time) {
    clock.state == Running && clock.dueAt < now && file.status != Closed && !file.imported
  }

  predicate RemindsNow(file: Case, clock: Clock, now: Time, policy: Policy, t: real) {
    && (clock.state == Running || clock.state == Breached) && file.status != Closed
    && t in policy.reminderThresholds && t !in clock.fired && Reached(clock, now, t)
  }

  predicate EscalatesNow(file: Case, clock: Clock, now: Time, policy: Policy) {
    && (clock.state == Running || clock.state == Breached) && file.status != Closed && !file.imported
    && clock.escalatedAt.None? && Reached(clock, now, policy.escalationThreshold)
  }

  /**
   * A swept row: breached if it is past due, with every threshold newly reached
   * marked if the mail went out, escalated if its share is reached.
   */
  ghost predicate SweptTo(row: Row, now: Time, policy: Policy, remind: Delivery, escalate: Delivery, after: Row)
    requires row.clock.Some?
  {
    var file, clock := row.file, row.clock.value;
    && after.file == (if BreachesNow(file, clock, now) && file.status != Overdue
                      then file.(status := Overdue, updatedAt := now) else file)
    && after.clock.Some?
    && var c := after.clock.value;
       && c == clock.(state := if BreachesNow(file, clock, now) then Breached else clock.state,
                      fired := c.fired, escalatedAt := c.escalatedAt)
       && clock.fired <= c.fired
       && (forall t :: t in c.fired <==>
             t in clock.fired || (remind == Delivered && RemindsNow(file, clock, now, policy, t)))
       && c.escalatedAt == if EscalatesNow(file, clock, now, policy) && escalate != AllFailed
                           then Some(now) else clock.escalatedAt
  }

  lemma ReachedIsShare(clock: Clock, now: Time, share: real)
    ensures Fraction(clock, now) >= share <==> Reached(clock, now, share)
  {
    var total := (clock.dueAt - clock.startedAt) as real;
    if total > 0.0 {
      var used := (now - clock.startedAt) as real;
      assert Fraction(clock, now) * total == used;
      if used / total >= share { MulMono(share, used / total, total); }
      if used / total < share { MulStrict(used / total, share, total); }
    }
  }

  lemma MulMono(a: real, b: real, k: real)
    requires a <= b && k > 0.0
    ensures a * k <= b * k
  {
  }

  lemma MulStrict(a: real, b: real, k: real)
    requires a < b && k > 0.0
    ensures a * k < b * k
  {
  }

  lemma RoundIsExact(row: Row, now: Time, policy: Policy)
    requires row.clock.Some?
    ensures forall t :: t in ReminderRound(row, now, policy) <==> RemindsNow(row.file, row.clock.value, now, policy, t)
  {
    var clock := row.clock.value;
    ToFireExact(policy.reminderThresholds, Fraction(clock, now), clock.fired);
    forall t ensures Fraction(clock, now) >= t <==> Reached(clock, now, t) { ReachedIsShare(clock, now, t); }
  }

  /** A round is empty exactly when no threshold reminds. */
  lemma RoundIsSome(row: Row, now: Time, policy: Policy)
    requires row.clock.Some?
    ensures ReminderRound(row, now, policy) != []
            <==> exists t :: t in policy.reminderThresholds && RemindsNow(row.file, row.clock.value, now, policy, t)
  {
    var round := ReminderRound(row, now, policy);
    RoundIsExact(row, now, policy);
    if round != [] { assert RemindsNow(row.file, row.clock.value, now, policy, round[0]); }
  }

  lemma EscalationIsExact(row: Row, now: Time, policy: Policy)
    requires row.clock.Some?
    ensures EscalationDue(row, now, policy) <==> EscalatesNow(row.file, row.clock.value, now, policy)
  {
    ReachedIsShare(row.clock.value, now, policy.escalationThreshold);
  }

  lemma BreachFirst(row: Row, now: Time, policy: Policy)
    requires row.clock.Some?
    ensures SweepBreach(row, now).clock.Some?
    ensures ReminderRound(SweepBreach(row, now), now, policy) == ReminderRound(row, now, policy)
    ensures forall mail :: EscalationDue(SweepRemind(SweepBreach(row, now), now, policy, mail), now, policy)
                           <==> EscalationDue(row, now, policy)
  {
  }

  /** The sweep does that to every row with a clock, and nothing to one without. */
  lemma SweepIsExact(row: Row, now: Time, policy: Policy, remind: Delivery, escalate: Delivery)
    ensures row.clock.None? ==> Sweep(row, now, policy, remind, escalate) == row
    ensures row.clock.Some? ==> SweptTo(row, now, policy, remind, escalate, Sweep(row, now, policy, remind, escalate))
  {
    if row.clock.Some? {
      BreachFirst(row, now, policy);
      RoundIsExact(row, now, policy);
      EscalationIsExact(row, now, policy);
    }
  }

  // ---- a new case ----------------------------------------------------------------------

  predicate IsFreshCase(file: Case, status: Status, due: Time, now: Time) {
    && file.status == status && file.dueAt == Some(due) && file.updatedAt == now
    && file.closedAt == None && file.outcomeCode == None && file.completedAfterDeadline == None
    && !file.canBeAppealed && file.canAppealUntil == None
  }

  /** A clock that has just started has nothing behind it. */
  predicate IsFreshClock(clock: Clock, policyId: int, now: Time, due: Time) {
    && clock.policyId == policyId && clock.startedAt == now && clock.dueAt == due && clock.originalDueAt == due
    && clock.state == Running && clock.pausedAt == None && clock.pausedTotalSecs == 0
    && clock.fired == [] && clock.escalatedAt == None
  }

  // ---- extension, pause, resumption --------------------------------------------------

  /** The milliseconds an extension grants, if it is one: at least one unit, at most a year. */
  function Granted(value: int, u: DurationUnit): Option<int> {
    match u
    case Minutes => if 1 <= value <= 525_600 then Some(value * 60_000) else None
    case Hours => if 1 <= value <= 8_760 then Some(value * 3_600_000) else None
    case Days => if 1 <= value <= 365 then Some(value * 86_400_000) else None
    case UnknownUnit => None
  }

  /** The deadline an extension moves: the clock's, or the case's, or else the present. */
  function DeadlineOf(row: Row, now: Time): Time {
    if row.clock.Some? then row.clock.value.dueAt else if row.file.dueAt.Some? then row.file.dueAt.value else now
  }

  /** Accepted exactly with a duration, a reason and an open case; then both deadlines move by it. */
  lemma ExtendIsExact(row: Row, now: Time, value: int, u: DurationUnit, justified: bool)
    ensures var res := Extend(row, now, value, u, justified);
            && (res.Ok? <==> Granted(value, u).Some? && justified && row.file.status != Closed)
            && (res.Ok? ==>
                  var due := DeadlineOf(row, now) + Granted(value, u).value;
                  && res.value.file
                     == row.file.(dueAt := Some(due), updatedAt := now,
                                  status := if row.file.status == Overdue && due > now then Open else row.file.status)
                  && res.value.clock
                     == if row.clock.None? then None
                        else Some(row.clock.value.(
                                    dueAt := due, escalatedAt := None,
                                    state := if row.clock.value.state == Breached then Running else row.clock.value.state)))
  {
  }

  // ---- the status ----------------------------------------------------------------------

  /** A person's change of status is accepted exactly when it is complete, current and in the table. */
  lemma AcceptedExactly(row: Row, now: Time, wf: Workflow, a: StatusChange)
    ensures ChangeStatus(row, now, wf, a).Ok?
            <==> && a.to != Overdue && a.to in wf.active && (row.file.status, a.to) in wf.edges
                 && (a.expectedUpdatedAt.Some? ==> a.expectedUpdatedAt.value == row.file.updatedAt)
                 && (a.to == Extended ==> a.justified && a.newDue.Some?)
                 && (a.to == Closed ==>
                       a.outcomeCode.Some? && a.outcomeCode.value in OUTCOME_CODES && a.closureNoted)
  {
  }

  /** What an accepted change leaves: closing stamps the case, extending sets its deadline, and nothing else moves. */
  predicate StampedAs(file: Case, now: Time, a: StatusChange, after: Case) {
    && after.status == a.to && after.updatedAt == now && after.imported == file.imported
    && after.dueAt == (if a.to == Extended then a.newDue else file.dueAt)
    && (a.to != Closed ==>
          && after.closedAt == file.closedAt && after.outcomeCode == file.outcomeCode
          && after.completedAfterDeadline == file.completedAfterDeadline
          && after.canBeAppealed == file.canBeAppealed && after.canAppealUntil == file.canAppealUntil)
    && (a.to == Closed ==>
          && after.closedAt == Some(now) && after.outcomeCode == a.outcomeCode
          && after.completedAfterDeadline == Some(file.dueAt.Some? && file.dueAt.value < now)
          && after.canBeAppealed == (file.canBeAppealed || a.appealWindowDays > 0)
          && after.canAppealUntil
             == if a.appealWindowDays > 0 then Some(now + a.appealWindowDays * 86_400_000) else file.canAppealUntil)
  }

  /** And on its clock: closing stops it, extending restarts it with the new deadline. */
  predicate RetimedAs(clock: Clock, a: StatusChange, after: Clock) {
    && (a.to == Closed ==> after == clock.(state := Stopped))
    && (a.to == Extended ==> a.newDue.Some? && after == clock.(state := Running, dueAt := a.newDue.value))
    && (a.to != Closed && a.to != Extended ==> after == clock)
  }

  /** Why a transaction may take a case to another status. */
  predicate MayMove(row: Row, to: Status, wf: Workflow, t: Timed) {
    match t.event
    case DoChangeStatus(a) => to == a.to && to != Overdue && to in wf.active && (row.file.status, to) in wf.edges
    case DoSweep(_, _, _) => to == Overdue && row.clock.Some? && BreachesNow(row.file, row.clock.value, t.now)
    case DoExtend(value, u, _) =>
      && row.file.status == Overdue && to == Open && Granted(value, u).Some?
      && DeadlineOf(row, t.now) + Granted(value, u).value > t.now
    case _ => false
  }

  /**
   * Over any run, wherever the status moves, a person moved it along an edge of
   * the table to an active status, or the sweep found its clock past due, or an
   * extension gave an overdue case a future deadline and put it back to open.
   */
  lemma MovesAreLegal(row: Row, wf: Workflow, run: seq<Timed>, i: nat)
    requires i < |run|
    ensures var before, after := Run(row, wf, run[..i]), Run(row, wf, run[..i + 1]);
            after.file.status != before.file.status ==> MayMove(before, after.file.status, wf, run[i])
  {
    assert run[..i + 1][..i] == run[..i] && run[..i + 1][i] == run[i];
    StepMovesLegally(Run(row, wf, run[..i]), wf, run[i]);
  }

  lemma StepMovesLegally(row: Row, wf: Workflow, t: Timed)
    ensures Apply(row, wf, t).file.status != row.file.status ==> MayMove(row, Apply(row, wf, t).file.status, wf, t)
  {
    match t.event
    case DoChangeStatus(a) => AcceptedExactly(row, t.now, wf, a);
    case DoExtend(value, u, justified) => ExtendIsExact(row, t.now, value, u, justified);
    case _ =>
  }
}
