/**
 * Whole runs of automatic assignment are the runs the fairness laws speak of:
 * round-robin while users and cases change at will, the load-based strategies
 * over a fixed set of candidates.
 */
module AssignmentRuns {
  import opened Wrappers
  import opened SlaRules
  import opened Assignment
  import LoadBalance
  import RoundRobin

  /** One assignment, or any other change of the users and cases. */
  datatype Event = Assign(id: CaseId, now: Time) | Edit(users: seq<User>, tickets: map<CaseId, Ticket>)

  function Step(s: Desk, e: Event): Desk {
    match e
    case Assign(id, now) => Assigned(s, id, now)
    case Edit(users, tickets) => s.(users := users, tickets := tickets)
  }

  function Run(s: Desk, es: seq<Event>): Desk {
    if es == [] then s else Step(Run(s, es[..|es| - 1]), es[|es| - 1])
  }

  /** The event gives a case of the zone to a member. */
  predicate IsTurn(s: Desk, e: Event, zone: string) {
    e.Assign? && Chosen(s, e.id, e.now).Some? && s.tickets[e.id].zone == zone
  }

  // ---- round-robin ----------------------------------------------------------------------

  /** The members the zone's cases went to, oldest first. */
  function PicksOf(s: Desk, es: seq<Event>, zone: string): seq<UserId> {
    if es == [] then []
    else
      var before, last := Run(s, es[..|es| - 1]), es[|es| - 1];
      PicksOf(s, es[..|es| - 1], zone)
      + if IsTurn(before, last, zone) then [Chosen(before, last.id, last.now).value.id] else []
  }

  /** And who could have been given each of them. */
  ghost function SetsOf(s: Desk, es: seq<Event>, zone: string): (r: seq<set<UserId>>)
    ensures |r| == |PicksOf(s, es, zone)|
  {
    if es == [] then []
    else
      var before, last := Run(s, es[..|es| - 1]), es[|es| - 1];
      SetsOf(s, es[..|es| - 1], zone)
      + if IsTurn(before, last, zone) then [Ids(Candidates(before.users, zone, last.now))] else []
  }

  lemma PicksSnoc(sets: seq<set<UserId>>, start: Option<UserId>, picks: seq<UserId>, ids: set<UserId>, c: UserId)
    requires RoundRobin.Picks(sets, start, picks)
    requires RoundRobin.Follows(ids, RoundRobin.CursorAt(start, picks, |picks|), c)
    ensures RoundRobin.Picks(sets + [ids], start, picks + [c])
  {
    var sets', picks' := sets + [ids], picks + [c];
    forall k | 0 <= k < |picks'| ensures RoundRobin.PickAt(sets', start, picks', k) {
      if k < |picks| { assert RoundRobin.PickAt(sets, start, picks, k); }
    }
  }

  /** The zone rotates, and its cursor is stored. */
  predicate Rotates(s: Desk, zone: string) { zone in s.config && s.config[zone].strategy == RoundRobinStrategy }

  lemma TurnFollows(s: Desk, e: Event, zone: string)
    requires IsTurn(s, e, zone) && ConfigOf(s, zone).strategy == RoundRobinStrategy
    ensures RoundRobin.Follows(Ids(Candidates(s.users, zone, e.now)), ConfigOf(s, zone).rrCursor,
                               Chosen(s, e.id, e.now).value.id)
  {
    NextInRingFollows(Candidates(s.users, zone, e.now), ConfigOf(s, zone).rrCursor);
  }

  lemma StepRotates(s: Desk, e: Event, zone: string)
    requires Rotates(s, zone)
    ensures Rotates(Step(s, e), zone)
    ensures Step(s, e).config[zone].rrCursor
            == if IsTurn(s, e, zone) then Some(Chosen(s, e.id, e.now).value.id) else s.config[zone].rrCursor
  {
  }

  /**
   * In a zone that rotates, whatever else happens to users and cases, the cases
   * it gives out go round the ring: the run is one the round-robin laws hold of.
   */
  lemma {:induction false} RunIsPicks(s: Desk, es: seq<Event>, zone: string)
    requires Rotates(s, zone)
    ensures RoundRobin.Picks(SetsOf(s, es, zone), s.config[zone].rrCursor, PicksOf(s, es, zone))
    ensures Rotates(Run(s, es), zone)
    ensures Run(s, es).config[zone].rrCursor
            == RoundRobin.CursorAt(s.config[zone].rrCursor, PicksOf(s, es, zone), |PicksOf(s, es, zone)|)
  {
    if es == [] {
    } else {
      var front, last := es[..|es| - 1], es[|es| - 1];
      var before := Run(s, front);
      RunIsPicks(s, front, zone);
      StepRotates(before, last, zone);
      if IsTurn(before, last, zone) {
        TurnFollows(before, last, zone);
        PicksSnoc(SetsOf(s, front, zone), s.config[zone].rrCursor, PicksOf(s, front, zone),
                  Ids(Candidates(before.users, zone, last.now)), Chosen(before, last.id, last.now).value.id);
      } else {
        assert PicksOf(s, es, zone) == PicksOf(s, front, zone) && SetsOf(s, es, zone) == SetsOf(s, front, zone);
      }
    }
  }

  /** In a zone without a row, every case starts from no cursor. */
  lemma {:induction false} RunWithoutRow(s: Desk, es: seq<Event>, zone: string)
    requires zone !in s.config
    ensures zone !in Run(s, es).config
    ensures forall k :: 0 <= k < |PicksOf(s, es, zone)| ==>
              RoundRobin.Follows(SetsOf(s, es, zone)[k], None, PicksOf(s, es, zone)[k])
  {
    if es == [] {
    } else {
      var front, last := es[..|es| - 1], es[|es| - 1];
      RunWithoutRow(s, front, zone);
      if IsTurn(Run(s, front), last, zone) { TurnFollows(Run(s, front), last, zone); }
    }
  }

  /** So nobody in a rotating zone starves, as the laws have it. */
  lemma NobodyStarves(s: Desk, es: seq<Event>, zone: string, i: nat, j: nat, a: UserId, m: UserId)
    requires Rotates(s, zone) && m != a
    requires var picks := PicksOf(s, es, zone); i < j < |picks| && picks[i] == a && picks[j] == a
    requires forall k :: i < k <= j ==> m in SetsOf(s, es, zone)[k]
    ensures RoundRobin.Count(PicksOf(s, es, zone), m, i + 1, j) >= 1
  {
    RunIsPicks(s, es, zone);
    RoundRobin.NoStarvation(SetsOf(s, es, zone), s.config[zone].rrCursor, PicksOf(s, es, zone), i, j, a, m);
  }

  // ---- the load-based strategies -----------------------------------------------------------

  lemma {:induction false} CandidatesAreUnique(users: seq<User>, zone: string, now: Time)
    requires UniqueIds(users)
    ensures UniqueIds(Candidates(users, zone, now))
  {
    if users == [] {
    } else {
      CandidatesAreUnique(users[1..], zone, now);
      forall u | u in Candidates(users[1..], zone, now) ensures u.id != users[0].id {
        var i :| 0 <= i < |users[1..]| && users[1..][i] == u;
        assert users[i + 1] == u;
      }
    }
  }

  /** Queueing a case changes nobody's load. */
  lemma QueueingIsNoLoad(tickets: map<CaseId, Ticket>, id: CaseId, now: Time, v: UserId)
    requires id in tickets && tickets[id].assignee.None?
    ensures OpenCases(tickets[id := Queued(tickets[id], now)], v) == OpenCases(tickets, v)
  {
    var after := tickets[id := Queued(tickets[id], now)];
    assert (set k | k in after && after[k].assignee == Some(v) && after[k].status != Closed)
        == (set k | k in tickets && tickets[k].assignee == Some(v) && tickets[k].status != Closed);
  }

  lemma SameLoads(cands: seq<User>, a: map<CaseId, Ticket>, b: map<CaseId, Ticket>)
    requires forall u :: u in cands ==> OpenCases(a, u.id) == OpenCases(b, u.id)
    ensures Loads(cands, a) == Loads(cands, b)
  {
    assert forall i :: 0 <= i < |cands| ==> Loads(cands, a)[i] == Loads(cands, b)[i];
  }

  /** Only assignments happen, while the same members can be given the zone's cases. */
  predicate Steady(s: Desk, es: seq<Event>, zone: string, cands: seq<User>) {
    forall i :: 0 <= i < |es| ==> es[i].Assign? && Candidates(s.users, zone, es[i].now) == cands
  }

  /** Which of the members each of the zone's cases went to. */
  function Places(s: Desk, es: seq<Event>, zone: string, cands: seq<User>, rule: LoadBalance.Rule): (r: seq<nat>)
    requires cands != []
    ensures forall t :: 0 <= t < |r| ==> r[t] < |cands|
  {
    if es == [] then []
    else
      var before, last := Run(s, es[..|es| - 1]), es[|es| - 1];
      Places(s, es[..|es| - 1], zone, cands, rule)
      + if IsTurn(before, last, zone) then [Head(Loads(cands, before.tickets), rule, |cands|)] else []
  }

  lemma OtherZonesAreOtherMembers(users: seq<User>, zone: string, now: Time, u: User, v: User)
    requires UniqueIds(users) && u in users && u.zone != zone && v in Candidates(users, zone, now)
    ensures u.id != v.id
  {
    var i :| 0 <= i < |users| && users[i] == u;
    var j :| 0 <= j < |users| && users[j] == v;
    assert i != j;
  }

  /** Assigning a case of another zone, or queueing one, leaves this zone's loads. */
  lemma OtherwiseSameLoads(s: Desk, e: Event, zone: string, cands: seq<User>)
    requires UniqueIds(s.users) && e.Assign? && Candidates(s.users, zone, e.now) == cands && !IsTurn(s, e, zone)
    ensures Loads(cands, Step(s, e).tickets) == Loads(cands, s.tickets)
  {
    var after, chosen := Step(s, e).tickets, Chosen(s, e.id, e.now);
    forall v | v in cands ensures OpenCases(after, v.id) == OpenCases(s.tickets, v.id) {
      if chosen.Some? {
        OtherZonesAreOtherMembers(s.users, zone, e.now, chosen.value, v);
        OneMoreForTheChosen(s.tickets, e.id, after[e.id], chosen.value.id, v.id);
      } else if e.id in s.tickets && s.tickets[e.id].assignee.None? {
        QueueingIsNoLoad(s.tickets, e.id, e.now, v.id);
      }
    }
    SameLoads(cands, after, s.tickets);
  }

  lemma GreedySnoc(loads: seq<LoadBalance.Load>, picks: seq<nat>, rule: LoadBalance.Rule, k: nat)
    requires LoadBalance.Greedy(loads, picks, rule) && k < |loads|
    requires LoadBalance.Best(rule, LoadBalance.After(loads, picks, |picks|), k)
    ensures LoadBalance.Greedy(loads, picks + [k], rule)
    ensures LoadBalance.After(loads, picks + [k], |picks| + 1)
            == LoadBalance.Take(LoadBalance.After(loads, picks, |picks|), k)
  {
    forall n | 0 <= n <= |picks| ensures LoadBalance.After(loads, picks + [k], n) == LoadBalance.After(loads, picks, n) {
      AfterOfPrefix(loads, picks, k, n);
    }
    forall t | 0 <= t < |picks + [k]| ensures LoadBalance.BestAt(loads, picks + [k], rule, t) {
      if t < |picks| { assert LoadBalance.BestAt(loads, picks, rule, t); }
    }
  }

  lemma {:induction false} AfterOfPrefix(loads: seq<LoadBalance.Load>, picks: seq<nat>, k: nat, n: nat)
    requires n <= |picks| && k < |loads| && forall t :: 0 <= t < |picks| ==> picks[t] < |loads|
    ensures LoadBalance.After(loads, picks + [k], n) == LoadBalance.After(loads, picks, n)
  {
    if n == 0 {
    } else {
      AfterOfPrefix(loads, picks, k, n - 1);
      assert (picks + [k])[n - 1] == picks[n - 1];
    }
  }

  lemma {:induction false} RunKeepsUsers(s: Desk, es: seq<Event>, zone: string)
    requires forall i :: 0 <= i < |es| ==> es[i].Assign?
    requires zone in s.config && s.config[zone].strategy != RoundRobinStrategy
    ensures Run(s, es).users == s.users
    ensures zone in Run(s, es).config && Run(s, es).config[zone] == s.config[zone]
  {
    if es == [] {
    } else {
      RunKeepsUsers(s, es[..|es| - 1], zone);
    }
  }

  lemma TurnIsGreedy(s: Desk, e: Event, zone: string, cands: seq<User>, rule: LoadBalance.Rule)
    requires UniqueIds(s.users) && IsTurn(s, e, zone) && Candidates(s.users, zone, e.now) == cands
    requires zone in s.config && s.config[zone].strategy == StrategyOf(rule)
    ensures cands != []
    ensures var k := Head(Loads(cands, s.tickets), rule, |cands|);
            && LoadBalance.Best(rule, Loads(cands, s.tickets), k)
            && Loads(cands, Step(s, e).tickets) == LoadBalance.Take(Loads(cands, s.tickets), k)
  {
    CandidatesAreUnique(s.users, zone, e.now);
    AssignmentIsAGreedyStep(cands, s.tickets, e.id, Step(s, e).tickets[e.id], rule, s.config[zone].rrCursor,
                            Head(Loads(cands, s.tickets), rule, |cands|));
  }

  lemma PlacesOfOneMore(s: Desk, es: seq<Event>, e: Event, zone: string, cands: seq<User>, rule: LoadBalance.Rule)
    requires cands != []
    ensures Run(s, es + [e]) == Step(Run(s, es), e)
    ensures Places(s, es + [e], zone, cands, rule)
            == if IsTurn(Run(s, es), e, zone)
               then Places(s, es, zone, cands, rule) + [Head(Loads(cands, Run(s, es).tickets), rule, |cands|)]
               else Places(s, es, zone, cands, rule)
  {
    assert (es + [e])[..|es|] == es;
  }

  /** The places are a greedy run from these loads, and `now` are the loads it leaves. */
  ghost predicate GreedyTo(loads: seq<LoadBalance.Load>, places: seq<nat>, rule: LoadBalance.Rule,
                           now: seq<LoadBalance.Load>)
  {
    LoadBalance.Greedy(loads, places, rule) && now == LoadBalance.After(loads, places, |places|)
  }

  /** One event, of whatever kind, keeps that. */
  lemma StepIsGreedy(s: Desk, e: Event, zone: string, cands: seq<User>, rule: LoadBalance.Rule,
                     loads: seq<LoadBalance.Load>, places: seq<nat>)
    requires UniqueIds(s.users) && cands != [] && e.Assign? && Candidates(s.users, zone, e.now) == cands
    requires zone in s.config && s.config[zone].strategy == StrategyOf(rule)
    requires GreedyTo(loads, places, rule, Loads(cands, s.tickets))
    ensures GreedyTo(loads, if IsTurn(s, e, zone) then places + [Head(Loads(cands, s.tickets), rule, |cands|)] else places,
                     rule, Loads(cands, Step(s, e).tickets))
  {
    if IsTurn(s, e, zone) {
      TurnIsGreedy(s, e, zone, cands, rule);
      GreedySnoc(loads, places, rule, Head(Loads(cands, s.tickets), rule, |cands|));
    } else {
      OtherwiseSameLoads(s, e, zone, cands);
    }
  }

  /**
   * In a zone that goes by load, with the same members throughout, the cases it
   * gives out are a greedy run, and the loads it leaves are that run's: the
   * least-open and weighted laws hold of it.
   */
  lemma {:induction false} RunIsGreedy(s: Desk, es: seq<Event>, zone: string, cands: seq<User>, rule: LoadBalance.Rule)
    requires UniqueIds(s.users) && cands != [] && Steady(s, es, zone, cands)
    requires zone in s.config && s.config[zone].strategy == StrategyOf(rule)
    ensures GreedyTo(Loads(cands, s.tickets), Places(s, es, zone, cands, rule), rule, Loads(cands, Run(s, es).tickets))
  {
    if es == [] {
    } else {
      var front, last := es[..|es| - 1], es[|es| - 1];
      assert forall i :: 0 <= i < |front| ==> front[i] == es[i];
      assert es == front + [last];
      RunIsGreedy(s, front, zone, cands, rule);
      RunKeepsUsers(s, front, zone);
      PlacesOfOneMore(s, front, last, zone, cands, rule);
      StepIsGreedy(Run(s, front), last, zone, cands, rule, Loads(cands, s.tickets), Places(s, front, zone, cands, rule));
    }
  }

  // ---- what that means for the members ---------------------------------------------------------

  function TotalCapacity(cands: seq<User>): int {
    if cands == [] then 0
    else TotalCapacity(cands[..|cands| - 1]) + AtLeastOne(cands[|cands| - 1].capacityWeight)
  }

  function TotalHeld(cands: seq<User>, tickets: map<CaseId, Ticket>): int {
    if cands == [] then 0 else TotalHeld(cands[..|cands| - 1], tickets) + OpenCases(tickets, cands[|cands| - 1].id)
  }

  lemma {:induction false} TotalsOfLoads(cands: seq<User>, tickets: map<CaseId, Ticket>)
    ensures LoadBalance.TotalWeight(Loads(cands, tickets)) == TotalCapacity(cands)
    ensures LoadBalance.TotalOpen(Loads(cands, tickets)) == TotalHeld(cands, tickets)
  {
    if cands == [] {
    } else {
      var front := cands[..|cands| - 1];
      TotalsOfLoads(front, tickets);
      assert Loads(cands, tickets)[..|front|] == Loads(front, tickets);
    }
  }

  /** Nobody holds over one case more than another, in proportion to capacity. */
  ghost predicate InProportion(cands: seq<User>, tickets: map<CaseId, Ticket>) {
    forall i, j :: 0 <= i < |cands| && 0 <= j < |cands| ==>
                     (OpenCases(tickets, cands[i].id) - 1) * AtLeastOne(cands[j].capacityWeight)
                     <= OpenCases(tickets, cands[j].id) * AtLeastOne(cands[i].capacityWeight)
  }

  lemma InProportionLoads(cands: seq<User>, tickets: map<CaseId, Ticket>)
    requires InProportion(cands, tickets)
    ensures LoadBalance.Proportionate(Loads(cands, tickets))
  {
  }

  /** Weighted assignment keeps every member's open cases, less one, within the share its capacity has in the whole. */
  lemma SharesAreFair(s: Desk, es: seq<Event>, zone: string, cands: seq<User>, i: nat)
    requires UniqueIds(s.users) && i < |cands| && Steady(s, es, zone, cands)
    requires zone in s.config && s.config[zone].strategy == WeightedStrategy && InProportion(cands, s.tickets)
    ensures var after := Run(s, es).tickets;
            (OpenCases(after, cands[i].id) - 1) * TotalCapacity(cands)
            <= TotalHeld(cands, after) * AtLeastOne(cands[i].capacityWeight)
  {
    var places := Places(s, es, zone, cands, LoadBalance.Lightest);
    RunIsGreedy(s, es, zone, cands, LoadBalance.Lightest);
    InProportionLoads(cands, s.tickets);
    LoadBalance.WeightedFair(Loads(cands, s.tickets), places, |places|, i);
    TotalsOfLoads(cands, Run(s, es).tickets);
  }

  ghost predicate ApartBy(cands: seq<User>, tickets: map<CaseId, Ticket>, d: nat) {
    forall i, j :: 0 <= i < |cands| && 0 <= j < |cands| ==>
                     OpenCases(tickets, cands[i].id) <= OpenCases(tickets, cands[j].id) + d
  }

  /** Least-open assignment never takes two members' open cases further apart than they were, or one. */
  lemma SpreadIsKept(s: Desk, es: seq<Event>, zone: string, cands: seq<User>, d: nat)
    requires UniqueIds(s.users) && cands != [] && Steady(s, es, zone, cands)
    requires zone in s.config && s.config[zone].strategy == LeastOpen && ApartBy(cands, s.tickets, d)
    ensures ApartBy(cands, Run(s, es).tickets, if d > 1 then d else 1)
  {
    var places := Places(s, es, zone, cands, LoadBalance.Fewest);
    var loads := Loads(cands, Run(s, es).tickets);
    RunIsGreedy(s, es, zone, cands, LoadBalance.Fewest);
    LoadBalance.LeastOpenSpread(Loads(cands, s.tickets), places, |places|, d);
    assert forall i :: 0 <= i < |cands| ==> loads[i].open == OpenCases(Run(s, es).tickets, cands[i].id);
  }
}
