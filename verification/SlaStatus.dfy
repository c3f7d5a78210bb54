/**
 * What the status and the deadlines of a case say, over every run: the two
 * deadlines agree, Overdue is never shown with time remaining, and a closed
 * case stays as it was closed.
 */
module SlaStatus {
  import opened Wrappers
  import opened SlaRules

  // ---- agreement and closure -------------------------------------------------

  /**
   * The case and its clock carry one deadline; a closed case has a stopped
   * clock and a stamp that still says whether it was answered in time.
   */
  ghost predicate Consistent(row: Row) {
    && (row.clock.Some? ==> row.file.dueAt == Some(row.clock.value.dueAt))
    && (row.file.status == Closed ==>
          && (row.clock.Some? ==> row.clock.value.state == Stopped)
          && row.file.closedAt.Some?
          && row.file.completedAfterDeadline
             == Some(row.file.dueAt.Some? && row.file.closedAt.value > row.file.dueAt.value))
  }

  lemma NewRowConsistent(now: Time, status: Status, policyId: Option<int>, targetMinutes: int)
    requires status != Closed
    ensures Consistent(NewRow(now, status, policyId, targetMinutes))
  {
  }

  lemma StepConsistent(row: Row, wf: Workflow, t: Timed)
    requires Consistent(row)
    ensures Consistent(Apply(row, wf, t))
  {
  }

  /** Agreement holds in every reachable state, whatever the transition table says. */
  lemma {:induction false} AlwaysConsistent(row: Row, wf: Workflow, run: seq<Timed>)
    requires Consistent(row)
    ensures Consistent(Run(row, wf, run))
  {
    if run == [] {
    } else {
      AlwaysConsistent(row, wf, run[..|run| - 1]);
      StepConsistent(Run(row, wf, run[..|run| - 1]), wf, run[|run| - 1]);
    }
  }

  /** The table lets a person move a closed case somewhere. */
  ghost predicate HasExit(wf: Workflow) {
    exists to :: to != Overdue && to in wf.active && (Closed, to) in wf.edges
  }

  lemma ClosedStepFrozen(row: Row, wf: Workflow, t: Timed)
    requires Consistent(row) && row.file.status == Closed && !HasExit(wf)
    ensures Apply(row, wf, t) == row
  {
    if t.event.DoChangeStatus? {
      var to := t.event.change.to;
      assert to == Overdue || to !in wf.active || (Closed, to) !in wf.edges;
    }
  }

  lemma {:induction false} ClosedRunFrozen(row: Row, wf: Workflow, run: seq<Timed>)
    requires Consistent(row) && row.file.status == Closed && !HasExit(wf)
    ensures Run(row, wf, run) == row
  {
    if run == [] {
    } else {
      ClosedRunFrozen(row, wf, run[..|run| - 1]);
      ClosedStepFrozen(row, wf, run[|run| - 1]);
    }
  }

  /** With an exit, one well-formed request changes the row. */
  lemma ExitThaws(row: Row, wf: Workflow) returns (t: Timed)
    requires row.file.status == Closed && HasExit(wf)
    ensures Run(row, wf, [t]) != row
  {
    var to :| to != Overdue && to in wf.active && (Closed, to) in wf.edges;
    var change := StatusChange(to, true, Some(0), Some("fulfilled"), true, None, 0);
    t := At(if row.file.closedAt.Some? then row.file.closedAt.value + 1 else 0, DoChangeStatus(change));
    RunSnoc(row, wf, [], t);
    assert [] + [t] == [t];
  }

  /**
   * Closed is frozen: no run of any length changes anything in a closed row,
   * exactly when the table has no usable edge out of Closed.
   */
  lemma ClosedIsFrozen(row: Row, wf: Workflow)
    requires Consistent(row) && row.file.status == Closed
    ensures (forall run :: Run(row, wf, run) == row) <==> !HasExit(wf)
  {
    if HasExit(wf) {
      var t := ExitThaws(row, wf);
    } else {
      forall run ensures Run(row, wf, run) == row { ClosedRunFrozen(row, wf, run); }
    }
  }

  /** The status a person may never set: only the sweep writes Overdue. */
  lemma OnlySweepSetsOverdue(row: Row, wf: Workflow, t: Timed)
    requires row.file.status != Overdue && Apply(row, wf, t).file.status == Overdue
    ensures t.event.DoSweep? && BreachDue(row, t.now)
  {
  }

  // ---- overdue is never a lie --------------------------------------------------

  /** The status says Overdue while the deadline is still ahead. */
  predicate Lies(row: Row, now: Time) {
    row.file.status == Overdue && (row.file.dueAt.None? || row.file.dueAt.value > now)
  }

  /** Why an Overdue status is true, by the state of the clock. */
  ghost predicate Truthful(row: Row, now: Time) {
    && Consistent(row)
    && (row.clock.Some? && row.clock.value.state == Paused ==>
          row.clock.value.pausedAt.Some? && row.clock.value.pausedAt.value <= now)
    && (row.file.status == Overdue ==>
          && row.clock.Some?
          && var clock := row.clock.value;
             match clock.state
             case Breached => clock.dueAt < now
             case Running => clock.dueAt <= now
             case Paused => clock.dueAt <= clock.pausedAt.value
             case Stopped => false)
  }

  /**
   * An extension of a paused, overdue case that lands after the moment the
   * clock was paused and yet not in the future.
   */
  predicate Hazardous(row: Row, t: Timed) {
    && t.event.DoExtend?
    && Extend(row, t.now, t.event.value, t.event.u, t.event.justified).Ok?
    && row.file.status == Overdue
    && row.clock.Some? && row.clock.value.state == Paused && row.clock.value.pausedAt.Some?
    && row.clock.value.pausedAt.value
       < row.clock.value.dueAt + t.event.value * UnitMinutes(t.event.u) * MS_PER_MINUTE
       <= t.now
  }

  /** And it stays true for as long as nothing happens. */
  lemma TruthfulIsNoLie(row: Row, since: Time, now: Time)
    requires Truthful(row, since) && since <= now
    ensures !Lies(row, now)
  {
  }

  lemma StepTruthful(row: Row, wf: Workflow, prev: Time, t: Timed)
    requires Truthful(row, prev) && prev <= t.now && !Hazardous(row, t)
    ensures Truthful(Apply(row, wf, t), t.now)
  {
    StepConsistent(row, wf, t);
  }

  ghost predicate FreeOfHazards(row: Row, wf: Workflow, run: seq<Timed>) {
    forall i :: 0 <= i < |run| ==> !Hazardous(Run(row, wf, run[..i]), run[i])
  }

  /** Overdue is never a lie in any state reached without a hazardous extension. */
  lemma {:induction false} OverdueIsNeverALie(row: Row, wf: Workflow, start: Time, run: seq<Timed>)
    requires Truthful(row, start) && Ordered(start, run) && FreeOfHazards(row, wf, run)
    ensures Truthful(Run(row, wf, run), EndTime(start, run))
    ensures forall now :: EndTime(start, run) <= now ==> !Lies(Run(row, wf, run), now)
  {
    if run == [] {
    } else {
      var before, last := run[..|run| - 1], run[|run| - 1];
      assert forall i :: 0 <= i < |before| ==> before[..i] == run[..i];
      assert forall i :: 0 <= i < |before| ==> before[i] == run[i];
      forall i | 0 <= i < |before| ensures !Hazardous(Run(row, wf, before[..i]), before[i]) {
        assert !Hazardous(Run(row, wf, run[..i]), run[i]);
      }
      OverdueIsNeverALie(row, wf, start, before);
      assert !Hazardous(Run(row, wf, run[..|run| - 1]), run[|run| - 1]);
      StepTruthful(Run(row, wf, before), wf, EndTime(start, before), last);
    }
    forall now | EndTime(start, run) <= now ensures !Lies(Run(row, wf, run), now) {
      TruthfulIsNoLie(Run(row, wf, run), EndTime(start, run), now);
    }
  }

  /**
   * A hazardous extension is exactly what makes a later lie possible: resuming
   * a whole number of seconds after the pause credits the pause in full and
   * carries the deadline past the present.
   */
  lemma HazardIsExact(row: Row, wf: Workflow, prev: Time, t: Timed)
    requires Truthful(row, prev) && prev <= t.now
    ensures Hazardous(row, t) <==>
            exists r :: t.now <= r && Lies(Apply(Apply(row, wf, t), wf, At(r, DoResume)), r)
  {
    var after := Apply(row, wf, t);
    if Hazardous(row, t) {
      var p := row.clock.value.pausedAt.value;
      var r := p + 1000 * ((t.now - p) / 1000 + 1);
      assert t.now <= r;
      assert (r - p) / 1000 == (t.now - p) / 1000 + 1;
      assert Lies(Apply(after, wf, At(r, DoResume)), r);
    } else {
      StepTruthful(row, wf, prev, t);
      forall r | t.now <= r ensures !Lies(Apply(after, wf, At(r, DoResume)), r) {
        StepTruthful(after, wf, t.now, At(r, DoResume));
      }
    }
  }

  /** The hazard is reachable from intake: breach, extend, pause, extend, resume. */
  lemma LyingTrace(wf: Workflow)
    ensures var row := NewRow(0, Custom("new"), Some(1), 1);
            var policy := Policy(true, [], 2.0);
            var run := [
              At(60_001, DoSweep(policy, Delivered, Delivered)),
              At(120_000, DoExtend(1, Minutes, true)),
              At(125_000, DoPause(policy)),
              At(200_000, DoExtend(1, Minutes, true)),
              At(205_000, DoResume)];
            Ordered(0, run) && Lies(Run(row, wf, run), 205_000)
  {
    var row := NewRow(0, Custom("new"), Some(1), 1);
    var policy := Policy(true, [], 2.0);
    var e0 := At(60_001, DoSweep(policy, Delivered, Delivered));
    var e1 := At(120_000, DoExtend(1, Minutes, true));
    var e2 := At(125_000, DoPause(policy));
    var e3 := At(200_000, DoExtend(1, Minutes, true));
    var e4 := At(205_000, DoResume);
    assert row == TraceRow(Custom("new"), 60_000, 0, Running, None, 0);
    var r0 := TraceRow(Overdue, 60_000, 60_001, Breached, None, 0);
    var r1 := TraceRow(Overdue, 120_000, 120_000, Running, None, 0);
    var r2 := TraceRow(Overdue, 120_000, 120_000, Paused, Some(125_000), 0);
    var r3 := TraceRow(Overdue, 180_000, 200_000, Paused, Some(125_000), 0);
    var r4 := TraceRow(Overdue, 260_000, 205_000, Running, None, 80);
    TraceBreach(wf, policy);
    assert Apply(r0, wf, e1) == r1;
    assert Apply(r1, wf, e2) == r2;
    assert Apply(r2, wf, e3) == r3;
    assert Apply(r3, wf, e4) == r4;
    RunOfFive(row, wf, e0, e1, e2, e3, e4);
  }

  function TraceRow(status: Status, due: Time, updated: Time, state: ClockState,
                    pausedAt: Option<Time>, pausedSecs: int): Row {
    Row(Case(status, Some(due), updated, None, None, None, false, None, false),
        Some(Clock(1, 0, due, 60_000, pausedAt, pausedSecs, state, [], None)))
  }

  lemma TraceBreach(wf: Workflow, policy: Policy)
    requires policy == Policy(true, [], 2.0)
    ensures Apply(TraceRow(Custom("new"), 60_000, 0, Running, None, 0), wf,
                  At(60_001, DoSweep(policy, Delivered, Delivered)))
            == TraceRow(Overdue, 60_000, 60_001, Breached, None, 0)
  {
    var r0 := TraceRow(Overdue, 60_000, 60_001, Breached, None, 0);
    assert SweepBreach(TraceRow(Custom("new"), 60_000, 0, Running, None, 0), 60_001) == r0;
    assert SweepRemind(r0, 60_001, policy, Delivered) == r0;
    assert SweepEscalate(r0, 60_001, policy, Delivered) == r0;
  }

  lemma RunSnoc(row: Row, wf: Workflow, run: seq<Timed>, t: Timed)
    ensures Run(row, wf, run + [t]) == Apply(Run(row, wf, run), wf, t)
  {
    assert (run + [t])[..|run|] == run;
  }

  lemma RunOfFive(row: Row, wf: Workflow, e0: Timed, e1: Timed, e2: Timed, e3: Timed, e4: Timed)
    ensures Run(row, wf, [e0, e1, e2, e3, e4])
            == Apply(Apply(Apply(Apply(Apply(row, wf, e0), wf, e1), wf, e2), wf, e3), wf, e4)
  {
    RunSnoc(row, wf, [], e0);
    RunSnoc(row, wf, [e0], e1);
    RunSnoc(row, wf, [e0, e1], e2);
    RunSnoc(row, wf, [e0, e1, e2], e3);
    RunSnoc(row, wf, [e0, e1, e2, e3], e4);
    assert [] + [e0] == [e0];
    assert [e0] + [e1] == [e0, e1];
    assert [e0, e1] + [e2] == [e0, e1, e2];
    assert [e0, e1, e2] + [e3] == [e0, e1, e2, e3];
    assert [e0, e1, e2, e3] + [e4] == [e0, e1, e2, e3, e4];
  }
}
