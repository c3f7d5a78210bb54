/**
 * What each transaction of SlaService and WorkflowService does to one case
 * and its clock. A transaction that throws is rolled back, so every rule
 * either refuses or gives the whole new row.
 */
module SlaRules {
  import opened Wrappers

  /** Milliseconds since the epoch. One clock serves the database and the service. */
  type Time = int

  /** The statuses the code names; `Custom` is any other key of the statuses table. */
  datatype Status = Open | Overdue | Extended | Closed | Custom(key: string)

  datatype ClockState = Running | Paused | Breached | Stopped

  datatype Clock = Clock(
    policyId: int,
    startedAt: Time,
    dueAt: Time,
    originalDueAt: Time,
    pausedAt: Option<Time>,
    pausedTotalSecs: int,
    state: ClockState,
    fired: seq<real>,
    escalatedAt: Option<Time>)

  datatype Case = Case(
    status: Status,
    dueAt: Option<Time>,
    updatedAt: Time,
    closedAt: Option<Time>,
    outcomeCode: Option<string>,
    completedAfterDeadline: Option<bool>,
    canBeAppealed: bool,
    canAppealUntil: Option<Time>,
    imported: bool)

  /** A case and its clock; a zone with no policy gives its cases no clock. */
  datatype Row = Row(file: Case, clock: Option<Clock>)

  datatype Policy = Policy(
    pauseAllowed: bool,
    reminderThresholds: seq<real>,
    escalationThreshold: real)

  datatype Refusal = BadRequest | NotFound | Conflict

  /** How a round of mail to a list of recipients went. */
  datatype Delivery = NoRecipients | AllFailed | Delivered

  datatype DurationUnit = Minutes | Hours | Days | UnknownUnit

  /** The status workflow as data: active statuses and legal transitions. */
  datatype Workflow = Workflow(active: set<Status>, edges: set<(Status, Status)>)

  datatype StatusChange = StatusChange(
    to: Status,
    justified: bool,
    newDue: Option<Time>,
    outcomeCode: Option<string>,
    closureNoted: bool,
    expectedUpdatedAt: Option<Time>,
    appealWindowDays: int)

  const MS_PER_MINUTE := 60_000
  const MS_PER_DAY := 86_400_000
  const MAX_EXTENSION_MINUTES := 525_600
  const OUTCOME_CODES: set<string> := {
    "fulfilled", "partially_fulfilled", "refused", "withdrawn",
    "identity_not_verified", "out_of_scope"}

  // ---- a new case -----------------------------------------------------------

  /** Intake and appeal both start a clock at `now` with the same two deadlines. */
  function NewRow(now: Time, status: Status, policyId: Option<int>, targetMinutes: int): Row {
    var due := now + targetMinutes * MS_PER_MINUTE;
    Row(Case(status, Some(due), now, None, None, None, false, None, false),
        if policyId.None? then None
        else Some(Clock(policyId.value, now, due, due, None, 0, Running, [], None)))
  }

  // ---- the sweep ------------------------------------------------------------

  predicate BreachDue(row: Row, now: Time) {
    && row.clock.Some?
    && row.clock.value.state == Running
    && row.clock.value.dueAt < now
    && row.file.status != Closed
    && !row.file.imported
  }

  function SweepBreach(row: Row, now: Time): Row {
    if !BreachDue(row, now) then row
    else
      Row(if row.file.status == Overdue then row.file
          else row.file.(status := Overdue, updatedAt := now),
          Some(row.clock.value.(state := Breached)))
  }

  /** The share of the allowance used up; a non-positive allowance counts as all of it. */
  function Fraction(clock: Clock, now: Time): real {
    var total := clock.dueAt - clock.startedAt;
    if total > 0 then (now - clock.startedAt) as real / total as real else 1.0
  }

  /** `thresholds` in order, keeping those reached and not fired yet. */
  function ToFire(thresholds: seq<real>, frac: real, fired: seq<real>): seq<real> {
    if thresholds == [] then []
    else
      (if frac >= thresholds[0] && thresholds[0] !in fired then [thresholds[0]] else [])
      + ToFire(thresholds[1..], frac, fired)
  }

  /** The clocks the reminder and escalation queries look at. */
  predicate Ticking(row: Row) {
    && row.clock.Some?
    && row.clock.value.state in {Running, Breached}
    && row.file.status != Closed
  }

  /** The thresholds a successful reminder round would mark on this row. */
  function ReminderRound(row: Row, now: Time, policy: Policy): seq<real> {
    if Ticking(row) then
      ToFire(policy.reminderThresholds, Fraction(row.clock.value, now), row.clock.value.fired)
    else []
  }

  /** Only a delivered round is marked, so a failed one is retried by the next sweep. */
  function SweepRemind(row: Row, now: Time, policy: Policy, mail: Delivery): Row {
    var round := ReminderRound(row, now, policy);
    if round == [] || mail != Delivered then row
    else row.(clock := Some(row.clock.value.(fired := row.clock.value.fired + round)))
  }

  predicate EscalationDue(row: Row, now: Time, policy: Policy) {
    && Ticking(row)
    && row.clock.value.escalatedAt.None?
    && !row.file.imported
    && Fraction(row.clock.value, now) >= policy.escalationThreshold
  }

  /** With nobody to tell, the escalation is marked anyway. */
  function SweepEscalate(row: Row, now: Time, policy: Policy, mail: Delivery): Row {
    if !EscalationDue(row, now, policy) || mail == AllFailed then row
    else row.(clock := Some(row.clock.value.(escalatedAt := Some(now))))
  }

  function Sweep(row: Row, now: Time, policy: Policy, remind: Delivery, escalate: Delivery): Row {
    SweepEscalate(SweepRemind(SweepBreach(row, now), now, policy, remind), now, policy, escalate)
  }

  // ---- what people do -------------------------------------------------------

  function UnitMinutes(u: DurationUnit): int {
    match u case Minutes => 1 case Hours => 60 case Days => 1440 case UnknownUnit => 0
  }

  function Extend(row: Row, now: Time, value: int, u: DurationUnit, justified: bool): Result<Row, Refusal> {
    if u == UnknownUnit || value < 1 || value * UnitMinutes(u) > MAX_EXTENSION_MINUTES || !justified then
      Err(BadRequest)
    else if row.file.status == Closed then
      Err(BadRequest)
    else
      var previousDue := if row.clock.Some? then row.clock.value.dueAt
                         else if row.file.dueAt.Some? then row.file.dueAt.value else now;
      var newDue := previousDue + value * UnitMinutes(u) * MS_PER_MINUTE;
      var restored := if row.file.status == Overdue && newDue > now then Open else row.file.status;
      Ok(Row(row.file.(dueAt := Some(newDue), status := restored, updatedAt := now),
             if row.clock.None? then None
             else Some(row.clock.value.(
                         dueAt := newDue,
                         state := if row.clock.value.state == Breached then Running else row.clock.value.state,
                         escalatedAt := None))))
  }

  function Pause(row: Row, now: Time, policy: Policy): Result<Row, Refusal> {
    if row.clock.None? || row.clock.value.state != Running || !policy.pauseAllowed then
      Err(BadRequest)
    else
      Ok(row.(clock := Some(row.clock.value.(state := Paused, pausedAt := Some(now)))))
  }

  function Resume(row: Row, now: Time): Result<Row, Refusal> {
    if row.clock.None? || row.clock.value.state != Paused || row.clock.value.pausedAt.None? then
      Err(BadRequest)
    else
      var clock := row.clock.value;
      // The divisor is positive, so this rounds down for either sign, as Math.floor does.
      var pausedSecs := (now - clock.pausedAt.value) / 1000;
      var newDue := clock.dueAt + pausedSecs * 1000;
      Ok(Row(row.file.(dueAt := Some(newDue), updatedAt := now),
             Some(clock.(state := Running, pausedAt := None,
                         pausedTotalSecs := clock.pausedTotalSecs + pausedSecs, dueAt := newDue))))
  }

  /** The checks on the request itself, before any row is read. */
  predicate RequestComplete(a: StatusChange) {
    && a.to != Overdue
    && (a.to == Extended ==> a.justified && a.newDue.Some?)
    && (a.to == Closed ==>
          a.outcomeCode.Some? && a.outcomeCode.value in OUTCOME_CODES && a.closureNoted)
  }

  function Stamp(file: Case, now: Time, a: StatusChange): Case
    requires RequestComplete(a)
  {
    var moved := file.(status := a.to, updatedAt := now);
    if a.to == Closed then
      var closed := moved.(
                      closedAt := Some(now),
                      outcomeCode := a.outcomeCode,
                      completedAfterDeadline := Some(file.dueAt.Some? && now > file.dueAt.value));
      if a.appealWindowDays > 0 then
        closed.(canBeAppealed := true, canAppealUntil := Some(now + a.appealWindowDays * MS_PER_DAY))
      else closed
    else if a.to == Extended then moved.(dueAt := a.newDue)
    else moved
  }

  /** Extending restarts the clock and leaves `pausedAt` as it was. */
  function Retime(clock: Clock, a: StatusChange): Clock
    requires RequestComplete(a)
  {
    if a.to == Extended then clock.(dueAt := a.newDue.value, state := Running)
    else if a.to == Closed then clock.(state := Stopped)
    else clock
  }

  function ChangeStatus(row: Row, now: Time, wf: Workflow, a: StatusChange): Result<Row, Refusal> {
    if !RequestComplete(a) then Err(BadRequest)
    else if a.expectedUpdatedAt.Some? && a.expectedUpdatedAt.value != row.file.updatedAt then Err(Conflict)
    else if a.to !in wf.active then Err(BadRequest)
    else if (row.file.status, a.to) !in wf.edges then Err(BadRequest)
    else Ok(Row(Stamp(row.file, now, a),
                if row.clock.None? then None else Some(Retime(row.clock.value, a))))
  }

  // ---- runs -----------------------------------------------------------------

  datatype Event =
    | DoSweep(policy: Policy, remind: Delivery, escalate: Delivery)
    | DoExtend(value: int, u: DurationUnit, justified: bool)
    | DoPause(policy: Policy)
    | DoResume
    | DoChangeStatus(change: StatusChange)

  datatype Timed = At(now: Time, event: Event)

  function Attempt(row: Row, wf: Workflow, t: Timed): Result<Row, Refusal> {
    match t.event
    case DoSweep(policy, remind, escalate) => Ok(Sweep(row, t.now, policy, remind, escalate))
    case DoExtend(value, u, justified) => Extend(row, t.now, value, u, justified)
    case DoPause(policy) => Pause(row, t.now, policy)
    case DoResume => Resume(row, t.now)
    case DoChangeStatus(change) => ChangeStatus(row, t.now, wf, change)
  }

  /** One transaction; a refused one leaves the row as it was. */
  function Apply(row: Row, wf: Workflow, t: Timed): Row {
    var r := Attempt(row, wf, t);
    if r.Ok? then r.value else row
  }

  function Run(row: Row, wf: Workflow, run: seq<Timed>): Row {
    if run == [] then row
    else Apply(Run(row, wf, run[..|run| - 1]), wf, run[|run| - 1])
  }

  /** Time never goes backwards, and starts no earlier than `start`. */
  predicate Ordered(start: Time, run: seq<Timed>) {
    && (forall i :: 0 <= i < |run| ==> start <= run[i].now)
    && (forall i, j :: 0 <= i < j < |run| ==> run[i].now <= run[j].now)
  }

  function EndTime(start: Time, run: seq<Timed>): Time {
    if run == [] then start else run[|run| - 1].now
  }
}
