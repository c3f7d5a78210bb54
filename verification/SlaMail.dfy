/**
 * Counting the sweep's mail over the whole life of a clock: how often a
 * threshold can remind, and how often a case can escalate.
 */
module SlaMail {
  import opened Wrappers
  import opened SlaRules

  ghost predicate NoDuplicates<T>(s: seq<T>) {
    forall i, j :: 0 <= i < j < |s| ==> s[i] != s[j]
  }

  ghost function Elements<T>(s: seq<T>): set<T> { set x | x in s }

  // ---- one round ---------------------------------------------------------------

  /** A round holds exactly the thresholds reached and not fired yet. */
  lemma {:induction false} ToFireExact(thresholds: seq<real>, frac: real, fired: seq<real>)
    ensures forall x :: x in ToFire(thresholds, frac, fired) <==>
                        x in thresholds && frac >= x && x !in fired
  {
    if thresholds == [] {
    } else {
      ToFireExact(thresholds[1..], frac, fired);
    }
  }

  lemma {:induction false} NothingLeft(thresholds: seq<real>, frac: real, fired: seq<real>)
    requires forall x :: x in thresholds && frac >= x ==> x in fired
    ensures ToFire(thresholds, frac, fired) == []
  {
    if thresholds == [] {
    } else {
      NothingLeft(thresholds[1..], frac, fired);
    }
  }

  lemma {:induction false} ToFireNoDuplicates(thresholds: seq<real>, frac: real, fired: seq<real>)
    requires NoDuplicates(thresholds)
    ensures NoDuplicates(ToFire(thresholds, frac, fired))
  {
    if thresholds == [] {
    } else {
      ToFireNoDuplicates(thresholds[1..], frac, fired);
      ToFireExact(thresholds[1..], frac, fired);
      assert thresholds[0] !in thresholds[1..];
    }
  }

  // ---- rounds over a run ---------------------------------------------------------

  /** The thresholds this transaction marks as fired; none unless the mail went out. */
  function StepRound(row: Row, t: Timed): seq<real> {
    if t.event.DoSweep? && t.event.remind == Delivered
    then ReminderRound(SweepBreach(row, t.now), t.now, t.event.policy)
    else []
  }

  /** Every successful reminder round of a run, in order. */
  function Rounds(row: Row, wf: Workflow, run: seq<Timed>): seq<seq<real>> {
    if run == [] then []
    else
      var before := run[..|run| - 1];
      Logged(Rounds(row, wf, before), StepRound(Run(row, wf, before), run[|run| - 1]))
  }

  function Logged(rounds: seq<seq<real>>, round: seq<real>): seq<seq<real>> {
    if round == [] then rounds else rounds + [round]
  }

  function Flatten(rounds: seq<seq<real>>): seq<real> {
    if rounds == [] then [] else Flatten(rounds[..|rounds| - 1]) + rounds[|rounds| - 1]
  }

  lemma FlattenLogged(rounds: seq<seq<real>>, round: seq<real>, base: seq<real>)
    ensures base + Flatten(Logged(rounds, round)) == base + Flatten(rounds) + round
  {
    assert (rounds + [round])[..|rounds|] == rounds;
    assert base + (Flatten(rounds) + round) == base + Flatten(rounds) + round;
  }

  lemma StepFired(row: Row, wf: Workflow, t: Timed)
    requires row.clock.Some?
    ensures Apply(row, wf, t).clock.Some?
    ensures Apply(row, wf, t).clock.value.fired == row.clock.value.fired + StepRound(row, t)
    ensures forall x :: x in StepRound(row, t) ==>
              x !in row.clock.value.fired && t.event.DoSweep? && x in t.event.policy.reminderThresholds
  {
    if t.event.DoSweep? {
      var b := SweepBreach(row, t.now);
      ToFireExact(t.event.policy.reminderThresholds, Fraction(b.clock.value, t.now), b.clock.value.fired);
    }
  }

  /** The fired list is the starting one followed by the successful rounds, and nothing else. */
  lemma {:induction false} FiredIsTheRounds(row: Row, wf: Workflow, run: seq<Timed>)
    requires row.clock.Some?
    ensures Run(row, wf, run).clock.Some?
    ensures Run(row, wf, run).clock.value.fired == row.clock.value.fired + Flatten(Rounds(row, wf, run))
  {
    if run == [] {
    } else {
      var before := run[..|run| - 1];
      var reached, last := Run(row, wf, before), run[|run| - 1];
      FiredIsTheRounds(row, wf, before);
      StepFired(reached, wf, last);
      FlattenLogged(Rounds(row, wf, before), StepRound(reached, last), row.clock.value.fired);
    }
  }

  /** The thresholds of every policy used in a run lie in `all`. */
  ghost predicate Within(run: seq<Timed>, all: set<real>) {
    forall i, x :: 0 <= i < |run| && run[i].event.DoSweep? && x in run[i].event.policy.reminderThresholds
                   ==> x in all
  }

  lemma SupersetLarger<T>(small: set<T>, large: set<T>)
    requires small <= large
    ensures |small| <= |large|
    ensures small != large ==> |small| < |large|
  {
    assert large == small + (large - small);
    if small != large { assert large - small != {}; }
  }

  /**
   * No round is empty, no threshold is in two rounds, every round is on the
   * fired list, and there are no more rounds than thresholds.
   */
  ghost predicate Spread(rounds: seq<seq<real>>, fired: seq<real>, all: set<real>) {
    && (forall i :: 0 <= i < |rounds| ==> rounds[i] != [])
    && (forall i, j, x :: 0 <= i < j < |rounds| && x in rounds[i] ==> x !in rounds[j])
    && (forall i, x :: 0 <= i < |rounds| && x in rounds[i] ==> x in fired)
    && Elements(fired) <= all
    && |rounds| <= |Elements(fired)|
  }

  lemma SpreadLogged(rounds: seq<seq<real>>, fired: seq<real>, round: seq<real>, all: set<real>)
    requires Spread(rounds, fired, all)
    requires forall x :: x in round ==> x !in fired && x in all
    ensures Spread(Logged(rounds, round), fired + round, all)
  {
    if round == [] {
      assert fired + round == fired;
    } else {
      var x := round[0];
      assert x in round && x in Elements(fired + round) && x !in Elements(fired);
      forall y | y in Elements(fired + round) ensures y in all {
        assert y in Elements(fired) || y in round;
      }
      SupersetLarger(Elements(fired), Elements(fired + round));
    }
  }

  /** A clock has at most one successful round for each threshold any policy ever had. */
  lemma {:induction false} OneRoundPerThreshold(row: Row, wf: Workflow, run: seq<Timed>, all: set<real>)
    requires row.clock.Some? && row.clock.value.fired == [] && Within(run, all)
    ensures Run(row, wf, run).clock.Some?
    ensures Spread(Rounds(row, wf, run), Run(row, wf, run).clock.value.fired, all)
    ensures |Rounds(row, wf, run)| <= |all|
  {
    if run == [] {
    } else {
      var before := run[..|run| - 1];
      var reached := Run(row, wf, before);
      OneRoundPerThreshold(row, wf, before, all);
      StepFired(reached, wf, run[|run| - 1]);
      SpreadLogged(Rounds(row, wf, before), reached.clock.value.fired, StepRound(reached, run[|run| - 1]), all);
    }
    SupersetLarger(Elements(Run(row, wf, run).clock.value.fired), all);
  }

  // ---- duplicates ------------------------------------------------------------------

  lemma NoDuplicatesAppend<T>(a: seq<T>, b: seq<T>)
    requires NoDuplicates(a) && NoDuplicates(b) && forall x :: x in b ==> x !in a
    ensures NoDuplicates(a + b)
  {
    forall i, j | 0 <= i < j < |a + b| ensures (a + b)[i] != (a + b)[j] {
      if i < |a| <= j { assert b[j - |a|] in b; }
    }
  }

  lemma StepNoDuplicates(row: Row, wf: Workflow, t: Timed)
    requires row.clock.Some? && NoDuplicates(row.clock.value.fired)
    requires t.event.DoSweep? ==> NoDuplicates(t.event.policy.reminderThresholds)
    ensures Apply(row, wf, t).clock.Some? && NoDuplicates(Apply(row, wf, t).clock.value.fired)
  {
    StepFired(row, wf, t);
    if t.event.DoSweep? {
      var b := SweepBreach(row, t.now);
      ToFireNoDuplicates(t.event.policy.reminderThresholds, Fraction(b.clock.value, t.now), b.clock.value.fired);
      assert NoDuplicates(StepRound(row, t));
      NoDuplicatesAppend(row.clock.value.fired, StepRound(row, t));
    }
  }

  /** The fired list of this row has no duplicates before the sweep only if it has none after. */
  ghost predicate StaysDistinct(thresholds: seq<real>, row: Row, now: Time) {
    row.clock.Some? && NoDuplicates(row.clock.value.fired) ==>
      forall level, escalate ::
        var after := Sweep(row, now, Policy(true, thresholds, level), Delivered, escalate);
        after.clock.Some? && NoDuplicates(after.clock.value.fired)
  }

  /**
   * The fired list stays free of duplicates under every sweep of every clock
   * exactly when the policy's own list has none.
   */
  lemma FiredNoDuplicatesExact(thresholds: seq<real>)
    ensures NoDuplicates(thresholds) <==> forall row, now :: StaysDistinct(thresholds, row, now)
  {
    if NoDuplicates(thresholds) {
      forall row, now ensures StaysDistinct(thresholds, row, now) { DistinctKept(thresholds, row, now); }
    } else {
      DistinctLost(thresholds);
    }
  }

  lemma DistinctKept(thresholds: seq<real>, row: Row, now: Time)
    requires NoDuplicates(thresholds)
    ensures StaysDistinct(thresholds, row, now)
  {
    if row.clock.Some? && NoDuplicates(row.clock.value.fired) {
      forall level, escalate
        ensures var after := Sweep(row, now, Policy(true, thresholds, level), Delivered, escalate);
                after.clock.Some? && NoDuplicates(after.clock.value.fired)
      {
        StepNoDuplicates(row, Workflow({}, {}), At(now, DoSweep(Policy(true, thresholds, level), Delivered, escalate)));
      }
    }
  }

  lemma DistinctLost(thresholds: seq<real>)
    requires !NoDuplicates(thresholds)
    ensures exists row, now :: !StaysDistinct(thresholds, row, now)
  {
    var i, j :| 0 <= i < j < |thresholds| && thresholds[i] == thresholds[j];
    var now := if thresholds[i] > 1.0 then thresholds[i].Floor + 1 else 1;
    DuplicatesSurvive(thresholds, now as real, i, j);
    SweepOfFreshClock(thresholds, now);
    assert !StaysDistinct(thresholds, FreshRow(), now);
  }

  /** A clock with an allowance of one millisecond and nothing fired. */
  function FreshRow(): Row {
    Row(Case(Open, Some(1), 0, None, None, None, false, None, false),
        Some(Clock(0, 0, 1, 1, None, 0, Running, [], None)))
  }

  lemma SweepOfFreshClock(thresholds: seq<real>, now: Time)
    ensures var after := Sweep(FreshRow(), now, Policy(true, thresholds, 0.0), Delivered, Delivered);
            after.clock.Some? && after.clock.value.fired == ToFire(thresholds, now as real, [])
  {
    var b := SweepBreach(FreshRow(), now);
    assert Fraction(b.clock.value, now) == now as real;
    var round := ToFire(thresholds, now as real, []);
    assert ReminderRound(b, now, Policy(true, thresholds, 0.0)) == round;
    assert [] + round == round;
  }

  /** Two equal thresholds that have been reached both end up in the round. */
  lemma {:induction false} DuplicatesSurvive(thresholds: seq<real>, frac: real, i: nat, j: nat)
    requires i < j < |thresholds| && thresholds[i] == thresholds[j] && frac >= thresholds[i]
    ensures !NoDuplicates(ToFire(thresholds, frac, []))
  {
    var rest := ToFire(thresholds[1..], frac, []);
    if i == 0 {
      ToFireExact(thresholds[1..], frac, []);
      assert thresholds[1..][j - 1] == thresholds[0];
      assert thresholds[0] in rest;
      var k :| 0 <= k < |rest| && rest[k] == thresholds[0];
      assert ToFire(thresholds, frac, [])[0] == ToFire(thresholds, frac, [])[k + 1];
    } else {
      DuplicatesSurvive(thresholds[1..], frac, i - 1, j - 1);
      var a, b :| 0 <= a < b < |rest| && rest[a] == rest[b];
      var all := ToFire(thresholds, frac, []);
      var shift := |all| - |rest|;
      assert all[shift + a] == rest[a] && all[shift + b] == rest[b];
    }
  }

  // ---- escalations --------------------------------------------------------------------

  function Marks(row: Row, wf: Workflow, t: Timed): nat {
    var after := Apply(row, wf, t);
    if row.clock.Some? && row.clock.value.escalatedAt.None?
       && after.clock.Some? && after.clock.value.escalatedAt.Some? then 1 else 0
  }

  function Escalations(row: Row, wf: Workflow, run: seq<Timed>): nat {
    if run == [] then 0
    else Escalations(row, wf, run[..|run| - 1]) + Marks(Run(row, wf, run[..|run| - 1]), wf, run[|run| - 1])
  }

  /** Extensions granted by `extend`; the `extended` status does not re-arm escalation. */
  function Extensions(row: Row, wf: Workflow, run: seq<Timed>): nat {
    if run == [] then 0
    else
      Extensions(row, wf, run[..|run| - 1])
      + if run[|run| - 1].event.DoExtend? && Attempt(Run(row, wf, run[..|run| - 1]), wf, run[|run| - 1]).Ok?
        then 1 else 0
  }

  /** A clock escalates at most once, and once more for each extension granted. */
  lemma {:induction false} OneEscalationPerExtension(row: Row, wf: Workflow, run: seq<Timed>)
    requires row.clock.Some? && row.clock.value.escalatedAt.None?
    ensures Run(row, wf, run).clock.Some?
    ensures Escalations(row, wf, run) + (if Run(row, wf, run).clock.value.escalatedAt.None? then 1 else 0)
            <= 1 + Extensions(row, wf, run)
  {
    if run == [] {
    } else {
      OneEscalationPerExtension(row, wf, run[..|run| - 1]);
    }
  }

  /** Only a delivered escalation, or one with nobody to tell, is marked. */
  lemma FailedMailIsNotMarked(row: Row, now: Time, policy: Policy, remind: Delivery)
    requires remind != Delivered
    ensures Sweep(row, now, policy, remind, AllFailed) == SweepBreach(row, now)
  {
  }

  /** A sweep whose mail all went out has nothing left to do at the same instant. */
  lemma SweepAgainIsNoOp(row: Row, now: Time, policy: Policy, escalate: Delivery,
                         remindAgain: Delivery, escalateAgain: Delivery)
    requires escalate != AllFailed
    ensures var once := Sweep(row, now, policy, Delivered, escalate);
            Sweep(once, now, policy, remindAgain, escalateAgain) == once
  {
    var b := SweepBreach(row, now);
    if Ticking(b) {
      var clock := b.clock.value;
      var frac := Fraction(clock, now);
      ToFireExact(policy.reminderThresholds, frac, clock.fired);
      NothingLeft(policy.reminderThresholds, frac, clock.fired + ReminderRound(b, now, policy));
    }
  }
}
