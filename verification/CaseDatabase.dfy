/**
 * SlaService and WorkflowService over their tables. Each method is one
 * transaction, written as its statements; its contract ties the tables it
 * leaves to the rules on rows.
 */
module CaseDatabase {
  import opened Wrappers
  import opened SlaExact
  import opened SlaRules

  type CaseId = int

  /** DSR-<zone>-<year>-<seq>. */
  datatype CaseRef = CaseRef(zone: string, year: int, seqNo: int)

  /** The row a case and its clock make together. */
  function Join(cases: map<CaseId, Case>, clocks: map<CaseId, Clock>, id: CaseId): Row
    requires id in cases
  {
    Row(cases[id], if id in clocks then Some(clocks[id]) else None)
  }

  /** The request went as the rule on its row says, and no other row moved. */
  ghost predicate Done(cases: map<CaseId, Case>, clocks: map<CaseId, Clock>, id: CaseId, rule: Result<Row, Refusal>,
                       cases': map<CaseId, Case>, clocks': map<CaseId, Clock>)
  {
    if rule.Err? then cases' == cases && clocks' == clocks
    else
      && cases' == cases[id := rule.value.file]
      && clocks' == if rule.value.clock.Some? then clocks[id := rule.value.clock.value] else clocks
  }

  // ---- the passes of the sweep, row by row ------------------------------------------

  function RemindedRow(row: Row, now: Time, policies: int -> Policy, mail: Delivery): Row {
    if row.clock.None? then row else SweepRemind(row, now, policies(row.clock.value.policyId), mail)
  }

  function EscalatedRow(row: Row, now: Time, policies: int -> Policy, mail: Delivery): Row {
    if row.clock.None? then row else SweepEscalate(row, now, policies(row.clock.value.policyId), mail)
  }

  function SweptRow(row: Row, now: Time, policies: int -> Policy, remind: Delivery, escalate: Delivery): Row {
    if row.clock.None? then row else Sweep(row, now, policies(row.clock.value.policyId), remind, escalate)
  }

  /** The clocks a pass changed for cases whose mail was delivered. */
  ghost function Marked(clocks: map<CaseId, Clock>, before: map<CaseId, Clock>, mail: CaseId -> Delivery): set<CaseId>
    requires clocks.Keys == before.Keys
  {
    set id | id in clocks && clocks[id] != before[id] && mail(id) == Delivered
  }

  lemma MarkedStep(clocks: map<CaseId, Clock>, before: map<CaseId, Clock>, mail: CaseId -> Delivery,
                   id: CaseId, clock: Clock)
    requires clocks.Keys == before.Keys && id in clocks && clocks[id] == before[id]
    ensures clocks[id := clock].Keys == before.Keys
    ensures |Marked(clocks[id := clock], before, mail)|
            == |Marked(clocks, before, mail)| + if clock != before[id] && mail(id) == Delivered then 1 else 0
  {
    var was, now := Marked(clocks, before, mail), Marked(clocks[id := clock], before, mail);
    assert clocks[id := clock].Keys == before.Keys;
    if clock != before[id] && mail(id) == Delivered {
      assert now == was + {id};
    } else {
      assert now == was;
    }
  }

  /** The clocks past due. */
  ghost function PastDue(cases: map<CaseId, Case>, clocks: map<CaseId, Clock>, now: Time): set<CaseId> {
    set id | id in cases && id in clocks && BreachesNow(cases[id], clocks[id], now)
  }

  /** The cases with a threshold newly reached whose mail was delivered. */
  ghost function Reminded(cases: map<CaseId, Case>, clocks: map<CaseId, Clock>, now: Time,
                          policies: int -> Policy, mail: CaseId -> Delivery): set<CaseId>
  {
    set id | id in cases && id in clocks && mail(id) == Delivered
             && RemindsAtAll(cases[id], clocks[id], now, policies(clocks[id].policyId))
  }

  predicate RemindsAtAll(file: Case, clock: Clock, now: Time, policy: Policy) {
    exists t :: t in policy.reminderThresholds && RemindsNow(file, clock, now, policy, t)
  }

  /** The cases whose escalation share is reached whose mail was delivered. */
  ghost function Escalated(cases: map<CaseId, Case>, clocks: map<CaseId, Clock>, now: Time,
                           policies: int -> Policy, mail: CaseId -> Delivery): set<CaseId>
  {
    set id | id in cases && id in clocks && mail(id) == Delivered
             && EscalatesNow(cases[id], clocks[id], now, policies(clocks[id].policyId))
  }

  lemma MarkedReminders(cases0: map<CaseId, Case>, clocks0: map<CaseId, Clock>, cases1: map<CaseId, Case>,
                        clocks1: map<CaseId, Clock>, clocks2: map<CaseId, Clock>, now: Time,
                        policies: int -> Policy, mail: CaseId -> Delivery)
    requires clocks1.Keys <= cases1.Keys == cases0.Keys && clocks2.Keys == clocks1.Keys == clocks0.Keys
    requires forall id :: id in cases1 ==> Join(cases1, clocks1, id) == SweepBreach(Join(cases0, clocks0, id), now)
    requires forall id :: id in cases1 ==>
               Join(cases1, clocks2, id) == RemindedRow(Join(cases1, clocks1, id), now, policies, mail(id))
    ensures Marked(clocks2, clocks1, mail) == Reminded(cases0, clocks0, now, policies, mail)
  {
    forall id | id in clocks0 && mail(id) == Delivered
      ensures clocks2[id] != clocks1[id]
              <==> RemindsAtAll(cases0[id], clocks0[id], now, policies(clocks0[id].policyId))
    {
      var row, policy := Join(cases0, clocks0, id), policies(clocks0[id].policyId);
      BreachFirst(row, now, policy);
      RoundIsSome(row, now, policy);
      var round := ReminderRound(row, now, policy);
      assert Join(cases1, clocks1, id) == SweepBreach(row, now);
      assert Join(cases1, clocks2, id) == SweepRemind(SweepBreach(row, now), now, policy, mail(id));
      assert round != [] ==> |clocks2[id].fired| > |clocks1[id].fired|;
    }
  }

  lemma MarkedEscalations(cases0: map<CaseId, Case>, clocks0: map<CaseId, Clock>, cases1: map<CaseId, Case>,
                          clocks1: map<CaseId, Clock>, clocks2: map<CaseId, Clock>, clocks3: map<CaseId, Clock>,
                          now: Time, policies: int -> Policy, remind: CaseId -> Delivery, mail: CaseId -> Delivery)
    requires clocks1.Keys <= cases1.Keys == cases0.Keys && clocks3.Keys == clocks2.Keys == clocks1.Keys == clocks0.Keys
    requires forall id :: id in cases1 ==> Join(cases1, clocks1, id) == SweepBreach(Join(cases0, clocks0, id), now)
    requires forall id :: id in cases1 ==>
               Join(cases1, clocks2, id) == RemindedRow(Join(cases1, clocks1, id), now, policies, remind(id))
    requires forall id :: id in cases1 ==>
               Join(cases1, clocks3, id) == EscalatedRow(Join(cases1, clocks2, id), now, policies, mail(id))
    ensures Marked(clocks3, clocks2, mail) == Escalated(cases0, clocks0, now, policies, mail)
  {
    forall id | id in clocks0 && mail(id) == Delivered
      ensures clocks3[id] != clocks2[id]
              <==> EscalatesNow(cases0[id], clocks0[id], now, policies(clocks0[id].policyId))
    {
      var row, policy := Join(cases0, clocks0, id), policies(clocks0[id].policyId);
      BreachFirst(row, now, policy);
      EscalationIsExact(row, now, policy);
      assert Join(cases1, clocks1, id) == SweepBreach(row, now);
      assert Join(cases1, clocks2, id) == SweepRemind(SweepBreach(row, now), now, policy, remind(id));
      assert Join(cases1, clocks3, id) == SweepEscalate(Join(cases1, clocks2, id), now, policy, mail(id));
    }
  }

  class Tables {
    var cases: map<CaseId, Case>
    var clocks: map<CaseId, Clock>
    var refs: map<CaseId, CaseRef>
    var sequences: map<(string, int), int>

    /** Every clock has a case, and every case a reference. */
    ghost predicate Linked()
      reads this`cases, this`clocks, this`refs
    {
      clocks.Keys <= cases.Keys == refs.Keys
    }

    /** References stay within their sequence, and no two cases share one. */
    ghost predicate Numbered()
      reads this`refs, this`sequences
    {
      && (forall id :: id in refs ==>
            && (refs[id].zone, refs[id].year) in sequences
            && refs[id].seqNo <= sequences[(refs[id].zone, refs[id].year)])
      && (forall a, b :: a in refs && b in refs && a != b ==> refs[a] != refs[b])
    }

    constructor ()
      ensures Linked() && Numbered() && cases == map[]
    {
      cases, clocks, refs, sequences := map[], map[], map[], map[];
    }

    // ---- the sweep --------------------------------------------------------------------

    method BreachPass(now: Time) returns (breached: nat)
      requires Linked()
      modifies this`cases, this`clocks
      ensures Linked() && cases.Keys == old(cases.Keys) && clocks.Keys == old(clocks.Keys)
      ensures forall id :: id in cases ==>
                Join(cases, clocks, id) == SweepBreach(Join(old(cases), old(clocks), id), now)
      ensures breached == |PastDue(old(cases), old(clocks), now)|
    {
      ghost var cases0, clocks0 := cases, clocks;
      var hit := set id | id in cases && BreachDue(Join(cases, clocks, id), now);
      assert hit == PastDue(cases, clocks, now);
      breached := |hit|;
      clocks := map id | id in clocks :: if id in hit then clocks[id].(state := Breached) else clocks[id];
      assert clocks.Keys == clocks0.Keys;
      ghost var clocks1 := clocks;
      var todo := hit;
      while todo != {}
        invariant todo <= hit && cases.Keys == cases0.Keys && clocks == clocks1
        invariant forall id :: id in cases ==>
                    cases[id] == if id in hit - todo then SweepBreach(Join(cases0, clocks0, id), now).file
                                 else cases0[id]
      {
        var id :| id in todo;
        if cases[id].status != Closed && cases[id].status != Overdue {
          cases := cases[id := cases[id].(status := Overdue, updatedAt := now)];
        }
        todo := todo - {id};
      }
    }

    method RemindOne(id: CaseId, now: Time, policy: Policy, mail: Delivery) returns (marked: bool)
      requires Linked() && id in clocks && Ticking(Join(cases, clocks, id))
      modifies this`clocks
      ensures id in clocks && Some(clocks[id]) == SweepRemind(Join(cases, old(clocks), id), now, policy, mail).clock
      ensures clocks == old(clocks)[id := clocks[id]]
      ensures marked <==> clocks[id] != old(clocks)[id] && mail == Delivered
    {
      var clock := clocks[id];
      var toFire := ToFire(policy.reminderThresholds, Fraction(clock, now), clock.fired);
      marked := false;
      if toFire != [] && mail == Delivered {
        marked := true;
        clocks := clocks[id := clock.(fired := clock.fired + toFire)];
        assert |clocks[id].fired| > |clock.fired|;
      }
    }

    method RemindPass(now: Time, policies: int -> Policy, mail: CaseId -> Delivery) returns (reminders: nat)
      requires Linked()
      modifies this`clocks
      ensures Linked()
      ensures forall id :: id in cases ==>
                Join(cases, clocks, id) == RemindedRow(Join(cases, old(clocks), id), now, policies, mail(id))
      ensures clocks.Keys == old(clocks.Keys) && reminders == |Marked(clocks, old(clocks), mail)|
    {
      reminders := 0;
      ghost var clocks0 := clocks;
      var due := set id | id in clocks && Ticking(Join(cases, clocks, id));
      var todo := due;
      while todo != {}
        invariant todo <= due && clocks.Keys == clocks0.Keys
        invariant reminders == |Marked(clocks, clocks0, mail)|
        invariant forall id :: id in clocks ==>
                    Some(clocks[id]) == if id in due - todo
                                        then RemindedRow(Join(cases, clocks0, id), now, policies, mail(id)).clock
                                        else Some(clocks0[id])
      {
        var id :| id in todo;
        ghost var prior := clocks;
        var marked := RemindOne(id, now, policies(clocks[id].policyId), mail(id));
        MarkedStep(prior, clocks0, mail, id, clocks[id]);
        if marked { reminders := reminders + 1; }
        todo := todo - {id};
      }
    }

    method EscalateOne(id: CaseId, now: Time, policy: Policy, mail: Delivery) returns (sent: bool)
      requires Linked() && id in clocks && Ticking(Join(cases, clocks, id))
      requires clocks[id].escalatedAt.None? && !cases[id].imported
      modifies this`clocks
      ensures id in clocks && Some(clocks[id]) == SweepEscalate(Join(cases, old(clocks), id), now, policy, mail).clock
      ensures clocks == old(clocks)[id := clocks[id]]
      ensures sent <==> clocks[id] != old(clocks)[id] && mail == Delivered
    {
      var clock := clocks[id];
      if Fraction(clock, now) < policy.escalationThreshold { return false; }
      match mail {
        case NoRecipients =>
          clocks := clocks[id := clock.(escalatedAt := Some(now))];
          return false;
        case AllFailed =>
          return false;
        case Delivered =>
          clocks := clocks[id := clock.(escalatedAt := Some(now))];
          return true;
      }
    }

    method EscalatePass(now: Time, policies: int -> Policy, mail: CaseId -> Delivery) returns (escalations: nat)
      requires Linked()
      modifies this`clocks
      ensures Linked()
      ensures forall id :: id in cases ==>
                Join(cases, clocks, id) == EscalatedRow(Join(cases, old(clocks), id), now, policies, mail(id))
      ensures clocks.Keys == old(clocks.Keys) && escalations == |Marked(clocks, old(clocks), mail)|
    {
      escalations := 0;
      ghost var clocks0 := clocks;
      var due := set id | id in clocks && Ticking(Join(cases, clocks, id))
                          && clocks[id].escalatedAt.None? && !cases[id].imported;
      var todo := due;
      while todo != {}
        invariant todo <= due && clocks.Keys == clocks0.Keys
        invariant escalations == |Marked(clocks, clocks0, mail)|
        invariant forall id :: id in clocks ==>
                    Some(clocks[id]) == if id in due - todo
                                        then EscalatedRow(Join(cases, clocks0, id), now, policies, mail(id)).clock
                                        else Some(clocks0[id])
      {
        var id :| id in todo;
        ghost var prior := clocks;
        var escalated := EscalateOne(id, now, policies(clocks[id].policyId), mail(id));
        MarkedStep(prior, clocks0, mail, id, clocks[id]);
        if escalated { escalations := escalations + 1; }
        todo := todo - {id};
      }
    }

    /**
     * Three passes over the whole table do to each case what the rule says of
     * it alone, if the advisory lock is free; otherwise another instance is at
     * work, and nothing moves.
     */
    method RecomputeAll(lockFree: bool, now: Time, policies: int -> Policy,
                        remindMail: CaseId -> Delivery, escalateMail: CaseId -> Delivery)
      returns (breached: nat, reminders: nat, escalations: nat)
      requires Linked()
      modifies this`cases, this`clocks
      ensures Linked() && cases.Keys == old(cases.Keys) && clocks.Keys == old(clocks.Keys)
      ensures !lockFree ==> cases == old(cases) && clocks == old(clocks) && breached == reminders == escalations == 0
      ensures lockFree ==> forall id :: id in cases ==>
                Join(cases, clocks, id)
                == SweptRow(Join(old(cases), old(clocks), id), now, policies, remindMail(id), escalateMail(id))
      // Told from the fields: what was breached, which thresholds were marked, who was escalated.
      ensures lockFree ==> forall id :: id in clocks ==>
                SweptTo(Join(old(cases), old(clocks), id), now, policies(old(clocks)[id].policyId),
                        remindMail(id), escalateMail(id), Join(cases, clocks, id))
      ensures lockFree ==> forall id :: id in cases && id !in clocks ==> cases[id] == old(cases)[id]
      // The counts: clocks breached, reminder rounds delivered, escalations delivered.
      ensures lockFree ==> breached == |PastDue(old(cases), old(clocks), now)|
      ensures lockFree ==> reminders == |Reminded(old(cases), old(clocks), now, policies, remindMail)|
      ensures lockFree ==> escalations == |Escalated(old(cases), old(clocks), now, policies, escalateMail)|
    {
      if !lockFree { return 0, 0, 0; }
      ghost var cases0, clocks0 := cases, clocks;
      breached := BreachPass(now);
      ghost var clocks1 := clocks;
      reminders := RemindPass(now, policies, remindMail);
      ghost var clocks2 := clocks;
      escalations := EscalatePass(now, policies, escalateMail);
      MarkedReminders(cases0, clocks0, cases, clocks1, clocks2, now, policies, remindMail);
      MarkedEscalations(cases0, clocks0, cases, clocks1, clocks2, clocks, now, policies, remindMail, escalateMail);
      forall id | id in clocks
        ensures SweptTo(Join(cases0, clocks0, id), now, policies(clocks0[id].policyId),
                        remindMail(id), escalateMail(id), Join(cases, clocks, id))
      {
        SweepIsExact(Join(cases0, clocks0, id), now, policies(clocks0[id].policyId), remindMail(id), escalateMail(id));
      }
    }

    // ---- what people do -----------------------------------------------------------------

    method ExtendCase(id: CaseId, now: Time, value: int, u: DurationUnit, justified: bool)
      returns (res: Result<Time, Refusal>)
      requires Linked()
      modifies this`cases, this`clocks
      ensures Linked()
      ensures id !in old(cases) ==> res.Err? && cases == old(cases) && clocks == old(clocks)
      ensures id in old(cases) ==>
                var rule := Extend(Join(old(cases), old(clocks), id), now, value, u, justified);
                && Done(old(cases), old(clocks), id, rule, cases, clocks)
                && res.Ok? == rule.Ok?
      // Accepted exactly with a duration up to a year, a reason and an open case; then both deadlines move by it.
      ensures res.Ok? <==>
                Granted(value, u).Some? && justified && id in old(cases) && old(cases)[id].status != Closed
      ensures res.Ok? ==>
                var file := old(cases)[id];
                && res.value == DeadlineOf(Join(old(cases), old(clocks), id), now) + Granted(value, u).value
                && cases[id] == file.(dueAt := Some(res.value), updatedAt := now,
                                      status := if file.status == Overdue && res.value > now then Open else file.status)
                && (id in clocks ==>
                      clocks[id] == old(clocks)[id].(
                        dueAt := res.value, escalatedAt := None,
                        state := if old(clocks)[id].state == Breached then Running else old(clocks)[id].state))
    {
      if id in cases { ExtendIsExact(Join(cases, clocks, id), now, value, u, justified); }
      var factor := UnitMinutes(u);
      if factor == 0 || value < 1 || value * factor > MAX_EXTENSION_MINUTES || !justified {
        return Err(BadRequest);
      }
      if id !in cases { return Err(NotFound); }
      var row := cases[id];
      if row.status == Closed { return Err(BadRequest); }
      var addMs := value * factor * MS_PER_MINUTE;
      var previousDue :=
        if id in clocks then clocks[id].dueAt else if row.dueAt.Some? then row.dueAt.value else now;
      var newDue := previousDue + addMs;
      var restored := if row.status == Overdue && newDue > now then Open else row.status;
      cases := cases[id := row.(dueAt := Some(newDue), status := restored, updatedAt := now)];
      if id in clocks {
        var clock := clocks[id];
        clocks := clocks[id := clock.(
                    dueAt := newDue,
                    state := if clock.state == Breached then Running else clock.state,
                    escalatedAt := None)];
      }
      return Ok(newDue);
    }

    method PauseCase(id: CaseId, now: Time, policies: int -> Policy) returns (res: Result<(), Refusal>)
      requires Linked()
      modifies this`clocks
      ensures Linked()
      ensures id !in cases || id !in old(clocks) ==> res.Err? && clocks == old(clocks)
      ensures id in cases && id in old(clocks) ==>
                var rule := Pause(Join(cases, old(clocks), id), now, policies(old(clocks)[id].policyId));
                Done(cases, old(clocks), id, rule, cases, clocks) && res.Ok? == rule.Ok?
      // Accepted exactly for a running clock under a policy that allows it.
      ensures res.Ok? <==> && id in cases && id in old(clocks) && old(clocks)[id].state == Running
                           && policies(old(clocks)[id].policyId).pauseAllowed
      ensures res.Ok? ==> clocks == old(clocks)[id := old(clocks)[id].(state := Paused, pausedAt := Some(now))]
    {
      if id !in cases { return Err(NotFound); }
      if id !in clocks || clocks[id].state != Running { return Err(BadRequest); }
      if !policies(clocks[id].policyId).pauseAllowed { return Err(BadRequest); }
      clocks := clocks[id := clocks[id].(state := Paused, pausedAt := Some(now))];
      return Ok(());
    }

    method ResumeCase(id: CaseId, now: Time) returns (res: Result<(), Refusal>)
      requires Linked()
      modifies this`cases, this`clocks
      ensures Linked()
      ensures id !in old(cases) ==> res.Err? && cases == old(cases) && clocks == old(clocks)
      ensures id in old(cases) ==>
                var rule := Resume(Join(old(cases), old(clocks), id), now);
                Done(old(cases), old(clocks), id, rule, cases, clocks) && res.Ok? == rule.Ok?
      // Accepted exactly for a paused clock; then both deadlines move by the whole seconds it was paused.
      ensures res.Ok? <==> && id in old(cases) && id in old(clocks) && old(clocks)[id].state == Paused
                           && old(clocks)[id].pausedAt.Some?
      ensures res.Ok? ==>
                var clock := old(clocks)[id];
                var secs := clocks[id].pausedTotalSecs - clock.pausedTotalSecs;
                && secs * 1000 <= now - clock.pausedAt.value < secs * 1000 + 1000
                && clocks[id] == clock.(state := Running, pausedAt := None, dueAt := clock.dueAt + secs * 1000,
                                        pausedTotalSecs := clock.pausedTotalSecs + secs)
                && cases[id] == old(cases)[id].(dueAt := Some(clocks[id].dueAt), updatedAt := now)
    {
      if id !in cases { return Err(NotFound); }
      if id !in clocks || clocks[id].state != Paused || clocks[id].pausedAt.None? { return Err(BadRequest); }
      var clock := clocks[id];
      var pausedSecs := (now - clock.pausedAt.value) / 1000;
      var newDue := clock.dueAt + pausedSecs * 1000;
      clocks := clocks[id := clock.(
                  state := Running, pausedAt := None,
                  pausedTotalSecs := clock.pausedTotalSecs + pausedSecs, dueAt := newDue)];
      cases := cases[id := cases[id].(dueAt := Some(newDue), updatedAt := now)];
      return Ok(());
    }

    method ChangeCaseStatus(id: CaseId, now: Time, wf: Workflow, a: StatusChange)
      returns (res: Result<Status, Refusal>)
      requires Linked()
      modifies this`cases, this`clocks
      ensures Linked()
      ensures id !in old(cases) ==> res.Err? && cases == old(cases) && clocks == old(clocks)
      ensures id in old(cases) ==>
                var rule := ChangeStatus(Join(old(cases), old(clocks), id), now, wf, a);
                && Done(old(cases), old(clocks), id, rule, cases, clocks)
                && res == if rule.Ok? then Ok(old(cases)[id].status) else Err(rule.error)
      // Accepted exactly when the request is complete and current and the table has the edge.
      ensures res.Ok? <==>
                && id in old(cases) && a.to != Overdue
                && a.to in wf.active && (old(cases)[id].status, a.to) in wf.edges
                && (a.expectedUpdatedAt.Some? ==> a.expectedUpdatedAt.value == old(cases)[id].updatedAt)
                && (a.to == Extended ==> a.justified && a.newDue.Some?)
                && (a.to == Closed ==> a.outcomeCode.Some? && a.outcomeCode.value in OUTCOME_CODES && a.closureNoted)
      ensures res.Ok? ==> StampedAs(old(cases)[id], now, a, cases[id])
      ensures res.Ok? && id in clocks ==> RetimedAs(old(clocks)[id], a, clocks[id])
    {
      if id in cases { AcceptedExactly(Join(cases, clocks, id), now, wf, a); }
      if a.to == Overdue { return Err(BadRequest); }
      if a.to == Extended && (!a.justified || a.newDue.None?) { return Err(BadRequest); }
      if a.to == Closed &&
         (a.outcomeCode.None? || a.outcomeCode.value !in OUTCOME_CODES || !a.closureNoted) {
        return Err(BadRequest);
      }
      if id !in cases { return Err(NotFound); }
      var row := cases[id];
      if a.expectedUpdatedAt.Some? && a.expectedUpdatedAt.value != row.updatedAt { return Err(Conflict); }
      if a.to !in wf.active { return Err(BadRequest); }
      if (row.status, a.to) !in wf.edges { return Err(BadRequest); }

      var patch := row.(status := a.to, updatedAt := now);
      if a.to == Closed {
        patch := patch.(closedAt := Some(now), outcomeCode := a.outcomeCode,
                        completedAfterDeadline := Some(row.dueAt.Some? && now > row.dueAt.value));
        if a.appealWindowDays > 0 {
          patch := patch.(canBeAppealed := true, canAppealUntil := Some(now + a.appealWindowDays * MS_PER_DAY));
        }
      }
      if a.to == Extended { patch := patch.(dueAt := a.newDue); }
      cases := cases[id := patch];
      if id in clocks {
        if a.to == Extended {
          clocks := clocks[id := clocks[id].(dueAt := a.newDue.value, state := Running)];
        }
        if a.to == Closed { clocks := clocks[id := clocks[id].(state := Stopped)]; }
      }
      return Ok(row.status);
    }

    // ---- new rows ------------------------------------------------------------------------

    /** Take the next number of a zone's year; the counter is created at 1 on first use. */
    method NextRef(zone: string, year: int) returns (r: CaseRef)
      requires Numbered()
      modifies this`sequences
      ensures Numbered()
      ensures r == CaseRef(zone, year, if (zone, year) in old(sequences) then old(sequences)[(zone, year)] + 1 else 1)
      ensures sequences == old(sequences)[(zone, year) := r.seqNo]
      ensures forall id :: id in refs ==> refs[id] != r
    {
      var key := (zone, year);
      sequences := if key in sequences then sequences[key := sequences[key] + 1] else sequences[key := 1];
      r := CaseRef(zone, year, sequences[key]);
    }

    method Intake(id: CaseId, zone: string, year: int, now: Time, policyId: Option<int>, targetMinutes: int)
      requires Linked() && Numbered() && id !in cases
      modifies this
      ensures Linked() && Numbered()
      ensures Done(old(cases), old(clocks), id, Ok(NewRow(now, Custom("new"), policyId, targetMinutes)), cases, clocks)
      ensures id in refs && refs == old(refs)[id := refs[id]] && refs[id].zone == zone && refs[id].year == year
      ensures id in cases && IsFreshCase(cases[id], Custom("new"), now + targetMinutes * 60_000, now) && !cases[id].imported
      ensures policyId.Some? ==>
                id in clocks && IsFreshClock(clocks[id], policyId.value, now, now + targetMinutes * 60_000)
      ensures policyId.None? ==> clocks == old(clocks)
    {
      var r := NextRef(zone, year);
      refs := refs[id := r];
      var due := now + targetMinutes * MS_PER_MINUTE;
      cases := cases[id := Case(Custom("new"), Some(due), now, None, None, None, false, None, false)];
      if policyId.Some? {
        clocks := clocks[id := Clock(policyId.value, now, due, due, None, 0, Running, [], None)];
      }
    }

    /**
     * An appeal is a new case with its own reference, clock and deadline; the
     * case appealed keeps its status, deadlines and stamps.
     */
    method OpenAppeal(id: CaseId, appealId: CaseId, reasoned: bool, year: int, now: Time,
                      policyId: Option<int>, targetMinutes: int)
      returns (res: Result<CaseRef, Refusal>)
      requires Linked() && Numbered() && appealId !in cases
      modifies this
      ensures Linked() && Numbered()
      ensures res.Ok? <==>
                && reasoned && id in old(cases) && old(cases)[id].status == Closed && old(cases)[id].canBeAppealed
                && (old(cases)[id].canAppealUntil.Some? ==> now <= old(cases)[id].canAppealUntil.value)
      ensures res.Err? ==> cases == old(cases) && clocks == old(clocks) && refs == old(refs)
      ensures res.Ok? ==>
                var appeal := NewRow(now, Open, policyId, targetMinutes);
                && refs == old(refs)[appealId := res.value]
                && res.value.zone == old(refs)[id].zone && res.value.year == year
                && Done(old(cases)[id := old(cases)[id].(updatedAt := now)], old(clocks), appealId,
                        Ok(appeal.(file := appeal.file.(imported := old(cases)[id].imported))), cases, clocks)
      ensures res.Ok? ==>
                && appealId in cases && IsFreshCase(cases[appealId], Open, now + targetMinutes * 60_000, now)
                && cases[appealId].imported == old(cases)[id].imported
                && (policyId.Some? ==>
                      appealId in clocks && IsFreshClock(clocks[appealId], policyId.value, now, now + targetMinutes * 60_000))
    {
      if !reasoned { return Err(BadRequest); }
      if id !in cases { return Err(NotFound); }
      var row := cases[id];
      if row.status != Closed || !row.canBeAppealed { return Err(BadRequest); }
      if row.canAppealUntil.Some? && now > row.canAppealUntil.value { return Err(BadRequest); }

      var r := NextRef(refs[id].zone, year);
      refs := refs[appealId := r];
      var due := now + targetMinutes * MS_PER_MINUTE;
      var appeal := Case(Open, Some(due), now, None, None, None, false, None, row.imported);
      cases := cases[id := row.(updatedAt := now)][appealId := appeal];
      if policyId.Some? {
        clocks := clocks[appealId := Clock(policyId.value, now, due, due, None, 0, Running, [], None)];
      }
      return Ok(r);
    }
  }
}
